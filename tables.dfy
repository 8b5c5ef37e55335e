/** The working database of a project, as values: the four tables, their
    AUTOINCREMENT counters, and the row operations the store performs on them.
    Everything here is pure; the `DBManager` class runs these operations on the
    database it holds. */
module Tables {
  import opened Basics
  import opened Entities

  /** A row of INFO_NODES: its id and the columns `NodeRecord` names. */
  datatype NodeRow = NodeRow(id: int, data: NodeRecord)

  /** A row of INFO_TYPES. Nothing in the application inserts one. */
  datatype TypeRow = TypeRow(id: int, typeName: Option<string>, colorR: int, colorG: int, colorB: int)

  /** Why a store operation threw. `NoDatabase`: there is no project.db in the
      working directory (no project was created or loaded, or loading failed).
      `NotNullViolation`: a property with a null TYPE reached a NOT NULL column.
      `NullColumn`: a NULL NAME was read with `GetString`. */
  datatype StoreError = NoDatabase | NotNullViolation | NullColumn

  /** The project.db file: four tables in rowid order, and the value each
      table's AUTOINCREMENT counter (its `sqlite_sequence` row) holds. */
  datatype Database = Database(
    nodes: seq<NodeRow>,
    links: seq<LinkModel>,
    properties: seq<PropertyItem>,
    types: seq<TypeRow>,
    nodeSeq: nat,
    linkSeq: nat,
    propertySeq: nat,
    typeSeq: nat)

  function NodeId(r: NodeRow): int { r.id }
  function LinkId(l: LinkModel): int { l.id }
  function PropertyId(p: PropertyItem): int { p.id }
  function TypeId(t: TypeRow): int { t.id }

  /** The ids of a table, read with `key`, are positive, strictly increasing
      in rowid order and never above the table's counter. */
  ghost predicate Numbered<T>(s: seq<T>, key: T -> int, counter: int)
  {
    (forall i :: 0 <= i < |s| ==> 0 < key(s[i]) <= counter) &&
    (forall i, j :: 0 <= i < j < |s| ==> key(s[i]) < key(s[j]))
  }

  /** What SQLite keeps true of every AUTOINCREMENT table: an id is never
      larger than the counter, so `counter + 1` is always unused. */
  ghost predicate Consistent(db: Database)
  {
    Numbered(db.nodes, NodeId, db.nodeSeq) &&
    Numbered(db.links, LinkId, db.linkSeq) &&
    Numbered(db.properties, PropertyId, db.propertySeq) &&
    Numbered(db.types, TypeId, db.typeSeq)
  }

  /** The database `CreateAndOpenDatabase` makes: four empty tables. */
  const EmptyDatabase: Database := Database([], [], [], [], 0, 0, 0, 0)

  /** `DeleteAllData`: every table emptied and every counter set back to 0. */
  function DeleteAllData(db: Database): (r: Database)
    ensures r.nodes == [] && r.links == [] && r.properties == [] && r.types == []
    ensures r.nodeSeq == 0 && r.linkSeq == 0 && r.propertySeq == 0 && r.typeSeq == 0
  {
    EmptyDatabase
  }

  /** A date written as "yyyy-MM-dd HH:mm:ss" and read back. */
  function StoredDate(d: Option<Timestamp>): (r: Option<Timestamp>)
    ensures r.None? <==> d.None?
    ensures d.Some? ==> r.value <= d.value < r.value + TicksPerSecond
  {
    match d
    case None => None
    case Some(t) => Some(ToWholeSecond(t))
  }

  /** The columns of a node as they come back from the table: only the dates
      change, losing their fraction of a second. */
  function AsStored(rec: NodeRecord): NodeRecord
  {
    rec.(dateStart := StoredDate(rec.dateStart), dateEnd := StoredDate(rec.dateEnd))
  }

  /** The rows of `s` that `keep` accepts, in order (a `WHERE` filter). */
  function Keep<T>(s: seq<T>, keep: T -> bool): (r: seq<T>)
    ensures |r| <= |s|
    ensures forall i :: 0 <= i < |r| ==> r[i] in s && keep(r[i])
    ensures forall i :: 0 <= i < |s| && keep(s[i]) ==> s[i] in r
  {
    if s == [] then []
    else (if keep(s[0]) then [s[0]] else []) + Keep(s[1..], keep)
  }

  /** The tail of a numbered table is numbered, and every id in it is above
      the head's. */
  lemma NumberedTail<T>(s: seq<T>, key: T -> int, counter: int)
    requires Numbered(s, key, counter) && s != []
    ensures Numbered(s[1..], key, counter)
    ensures forall i :: 0 <= i < |s[1..]| ==> key(s[0]) < key(s[1..][i])
  {
    forall i, j | 0 <= i < j < |s[1..]| ensures key(s[1..][i]) < key(s[1..][j]) {
      assert s[1..][i] == s[i + 1] && s[1..][j] == s[j + 1];
    }
    forall i | 0 <= i < |s[1..]| ensures key(s[0]) < key(s[1..][i]) {
      assert s[1..][i] == s[i + 1];
    }
  }

  /** A row below every id of a numbered table can be put in front of it. */
  lemma NumberedCons<T>(x: T, t: seq<T>, key: T -> int, counter: int)
    requires Numbered(t, key, counter) && 0 < key(x) <= counter
    requires forall i :: 0 <= i < |t| ==> key(x) < key(t[i])
    ensures Numbered([x] + t, key, counter)
  {
    var r := [x] + t;
    forall i, j | 0 <= i < j < |r| ensures key(r[i]) < key(r[j]) {
      assert r[j] == t[j - 1];
      if i > 0 {
        assert r[i] == t[i - 1];
      }
    }
  }

  /** Filtering a table keeps its ids numbered under the same counter. */
  lemma {:induction false} KeepNumbered<T>(s: seq<T>, keep: T -> bool, key: T -> int, counter: int)
    requires Numbered(s, key, counter)
    ensures Numbered(Keep(s, keep), key, counter)
  {
    if s != [] {
      NumberedTail(s, key, counter);
      var rest := Keep(s[1..], keep);
      KeepNumbered(s[1..], keep, key, counter);
      if keep(s[0]) {
        forall i | 0 <= i < |rest| ensures key(s[0]) < key(rest[i]) {
          assert rest[i] in s[1..];
          var k :| 0 <= k < |s[1..]| && s[1..][k] == rest[i];
        }
        NumberedCons(s[0], rest, key, counter);
        assert Keep(s, keep) == [s[0]] + rest;
      } else {
        assert Keep(s, keep) == rest;
      }
    }
  }

  /** Appending a row numbered one above the counter, and moving the counter
      there, keeps the table numbered. */
  lemma AppendNumbered<T>(s: seq<T>, key: T -> int, counter: nat, row: T)
    requires Numbered(s, key, counter) && key(row) == counter + 1
    ensures Numbered(s + [row], key, counter + 1)
  {
    var t := s + [row];
    forall i, j | 0 <= i < j < |t| ensures key(t[i]) < key(t[j]) {
      if j < |s| {
        assert t[i] == s[i] && t[j] == s[j];
      } else {
        assert t[i] == s[i];
      }
    }
  }

  // ---------------------------------------------------------------------------
  // INFO_NODES

  /** The rows of INFO_NODES after an `INSERT` of `rec` under id `nodeSeq + 1`. */
  function InsertNode(db: Database, rec: NodeRecord): Database
  {
    db.(nodes := db.nodes + [NodeRow(db.nodeSeq + 1, AsStored(rec))], nodeSeq := db.nodeSeq + 1)
  }

  /** `AddNode`: the new row gets an id above every id the table has issued
      since its counter was last reset, and no other row changes. */
  lemma InsertNodeFresh(db: Database, rec: NodeRecord)
    requires Consistent(db)
    ensures Consistent(InsertNode(db, rec))
    ensures forall i :: 0 <= i < |db.nodes| ==> db.nodes[i].id < InsertNode(db, rec).nodeSeq
    ensures InsertNode(db, rec).nodes[..|db.nodes|] == db.nodes
    ensures InsertNode(db, rec).links == db.links && InsertNode(db, rec).properties == db.properties
  {
    AppendNumbered(db.nodes, NodeId, db.nodeSeq, NodeRow(db.nodeSeq + 1, AsStored(rec)));
  }

  /** `UPDATE INFO_NODES SET ... WHERE ID = id`: every row with that id takes
      the title, type, dates, assignee and position of `rec` and keeps its
      PATH; every other row is left as it was. */
  function UpdateNodeRows(rows: seq<NodeRow>, id: int, rec: NodeRecord): (r: seq<NodeRow>)
    ensures |r| == |rows|
    ensures forall i :: 0 <= i < |rows| ==> r[i].id == rows[i].id
    ensures forall i :: 0 <= i < |rows| && rows[i].id != id ==> r[i] == rows[i]
    ensures forall i :: 0 <= i < |rows| && rows[i].id == id ==>
              r[i].data == AsStored(rec).(path := rows[i].data.path)
  {
    if rows == [] then []
    else
      var head := if rows[0].id == id then NodeRow(id, AsStored(rec).(path := rows[0].data.path)) else rows[0];
      [head] + UpdateNodeRows(rows[1..], id, rec)
  }

  /** An update naming an id that no row has changes nothing. */
  lemma UpdateUnknownNode(rows: seq<NodeRow>, id: int, rec: NodeRecord)
    requires forall i :: 0 <= i < |rows| ==> rows[i].id != id
    ensures UpdateNodeRows(rows, id, rec) == rows
  {
  }

  /** `DELETE FROM INFO_NODES WHERE ID = id`. */
  function DeleteNodeRows(rows: seq<NodeRow>, id: int): seq<NodeRow>
  {
    Keep(rows, (r: NodeRow) => r.id != id)
  }

  /** Deleting a node removes exactly the rows with its id. */
  lemma DeleteNodeRowsExact(rows: seq<NodeRow>, id: int)
    ensures forall r :: r in DeleteNodeRows(rows, id) <==> r in rows && r.id != id
  {
    var d := DeleteNodeRows(rows, id);
    forall r ensures r in d <==> r in rows && r.id != id {
      if r in d {
        var i :| 0 <= i < |d| && d[i] == r;
      }
      if r in rows && r.id != id {
        var i :| 0 <= i < |rows| && rows[i] == r;
      }
    }
  }

  // ---------------------------------------------------------------------------
  // INFO_LINKS

  /** A link as INFO_LINKS holds it: a new id, the endpoint ids copied as
      they are, and the creation time to the second. */
  function LinkRow(id: int, l: LinkModel): LinkModel
  {
    LinkModel(id, l.idNodeSrc, l.idNodeTgt, ToWholeSecond(l.createdAt))
  }

  /** `AddLink`: an `INSERT` under id `linkSeq + 1`. */
  function InsertLink(db: Database, l: LinkModel): Database
  {
    db.(links := db.links + [LinkRow(db.linkSeq + 1, l)], linkSeq := db.linkSeq + 1)
  }

  lemma InsertLinkConsistent(db: Database, l: LinkModel)
    requires Consistent(db)
    ensures Consistent(InsertLink(db, l))
    ensures InsertLink(db, l).links[..|db.links|] == db.links
    ensures InsertLink(db, l).nodes == db.nodes
  {
    AppendNumbered(db.links, LinkId, db.linkSeq, LinkRow(db.linkSeq + 1, l));
  }

  /** The condition of `DeleteLink`: the link starts or ends at `nodeId`. */
  predicate Touches(l: LinkModel, nodeId: int)
  {
    l.idNodeSrc == nodeId || l.idNodeTgt == nodeId
  }

  /** `DELETE FROM INFO_LINKS WHERE ID_NODE_SRC = @nodeId OR ID_NODE_TGT = @nodeId`. */
  function DeleteLinkRows(ls: seq<LinkModel>, nodeId: int): seq<LinkModel>
  {
    Keep(ls, (l: LinkModel) => !Touches(l, nodeId))
  }

  /** `DeleteLink` removes exactly the links that start or end at the node. */
  lemma DeleteLinkRowsExact(ls: seq<LinkModel>, nodeId: int)
    ensures forall l :: l in DeleteLinkRows(ls, nodeId) <==> l in ls && !Touches(l, nodeId)
  {
    var d := DeleteLinkRows(ls, nodeId);
    forall l ensures l in d <==> l in ls && !Touches(l, nodeId) {
      if l in d {
        var i :| 0 <= i < |d| && d[i] == l;
      }
      if l in ls && !Touches(l, nodeId) {
        var i :| 0 <= i < |ls| && ls[i] == l;
      }
    }
  }

  /** Deleting a node row does not cascade to INFO_LINKS: the connection never
      turns on foreign-key enforcement, so the declared `ON DELETE CASCADE`
      has no effect. A link row that touched the node still touches it
      afterwards, while no node row carries that id any more. */
  lemma DeleteNodeLeavesDanglingLink(db: Database, id: int, j: int)
    requires 0 <= j < |db.links| && Touches(db.links[j], id)
    ensures var after := db.(nodes := DeleteNodeRows(db.nodes, id));
            after.links[j] == db.links[j] && Touches(after.links[j], id) &&
            forall i :: 0 <= i < |after.nodes| ==> after.nodes[i].id != id
  {
    var rest := DeleteNodeRows(db.nodes, id);
    DeleteNodeRowsExact(db.nodes, id);
    forall i | 0 <= i < |rest| ensures rest[i].id != id {
      assert rest[i] in rest;
    }
  }

  // ---------------------------------------------------------------------------
  // INFO_PROPERTIES

  /** `AddPropertyItem`: the NOT NULL TYPE column refuses a property without a
      type, and a refused insert does not consume an id. */
  function InsertProperty(db: Database, p: PropertyItem): (r: Result<Database, StoreError>)
    ensures r.Err? <==> p.itemType.None?
    ensures r.Err? ==> r.error == NotNullViolation
    ensures r.Ok? ==> r.value.propertySeq == db.propertySeq + 1 &&
                      r.value.properties == db.properties + [p.(id := db.propertySeq + 1)]
  {
    if p.itemType.None? then Err(NotNullViolation)
    else Ok(db.(properties := db.properties + [p.(id := db.propertySeq + 1)], propertySeq := db.propertySeq + 1))
  }

  /** A new property's id is above every id the table has issued since its
      counter was last reset, and no other table changes. */
  lemma InsertPropertyFresh(db: Database, p: PropertyItem)
    requires Consistent(db) && p.itemType.Some?
    ensures Consistent(InsertProperty(db, p).value)
    ensures forall i :: 0 <= i < |db.properties| ==>
              db.properties[i].id < InsertProperty(db, p).value.propertySeq
    ensures InsertProperty(db, p).value.nodes == db.nodes && InsertProperty(db, p).value.links == db.links
  {
    AppendNumbered(db.properties, PropertyId, db.propertySeq, p.(id := db.propertySeq + 1));
  }

  /** `UPDATE INFO_PROPERTIES SET TYPE, NAME, VALUE WHERE ID = item.id`. The
      NOT NULL check applies only to rows the statement actually updates: a
      null type fails only when some row has the id, and then nothing changes. */
  function UpdatePropertyRows(rows: seq<PropertyItem>, item: PropertyItem): (r: Result<seq<PropertyItem>, StoreError>)
    ensures r.Err? <==> item.itemType.None? && exists i :: 0 <= i < |rows| && rows[i].id == item.id
    ensures r.Err? ==> r.error == NotNullViolation
    ensures r.Ok? ==> |r.value| == |rows|
    ensures r.Ok? ==> forall i :: 0 <= i < |rows| ==>
              r.value[i] == (if rows[i].id == item.id then item else rows[i])
  {
    if rows == [] then Ok([])
    else
      match UpdatePropertyRows(rows[1..], item)
      case Err(e) => Err(e)
      case Ok(rest) =>
        if rows[0].id != item.id then Ok([rows[0]] + rest)
        else if item.itemType.None? then Err(NotNullViolation)
        else Ok([item] + rest)
  }

  /** `DELETE FROM INFO_PROPERTIES WHERE ID = id`. */
  function DeletePropertyRows(rows: seq<PropertyItem>, id: int): seq<PropertyItem>
  {
    Keep(rows, (p: PropertyItem) => p.id != id)
  }

  lemma DeletePropertyRowsExact(rows: seq<PropertyItem>, id: int)
    ensures forall p :: p in DeletePropertyRows(rows, id) <==> p in rows && p.id != id
  {
    var d := DeletePropertyRows(rows, id);
    forall p ensures p in d <==> p in rows && p.id != id {
      if p in d {
        var i :| 0 <= i < |d| && d[i] == p;
      }
      if p in rows && p.id != id {
        var i :| 0 <= i < |rows| && rows[i] == p;
      }
    }
  }

  /** Each delete keeps the database valid. */
  lemma DeletesConsistent(db: Database, id: int)
    requires Consistent(db)
    ensures Consistent(db.(nodes := DeleteNodeRows(db.nodes, id)))
    ensures Consistent(db.(links := DeleteLinkRows(db.links, id)))
    ensures Consistent(db.(properties := DeletePropertyRows(db.properties, id)))
  {
    KeepNumbered(db.nodes, (r: NodeRow) => r.id != id, NodeId, db.nodeSeq);
    KeepNumbered(db.links, (l: LinkModel) => !Touches(l, id), LinkId, db.linkSeq);
    KeepNumbered(db.properties, (p: PropertyItem) => p.id != id, PropertyId, db.propertySeq);
  }

  /** Updates change neither ids nor counters, so they keep the database valid. */
  lemma UpdatesConsistent(db: Database, id: int, rec: NodeRecord, item: PropertyItem)
    requires Consistent(db)
    ensures Consistent(db.(nodes := UpdateNodeRows(db.nodes, id, rec)))
    ensures UpdatePropertyRows(db.properties, item).Ok? ==>
              Consistent(db.(properties := UpdatePropertyRows(db.properties, item).value))
  {
    var u := UpdatePropertyRows(db.properties, item);
    if u.Ok? {
      var ps := u.value;
      assert forall i :: 0 <= i < |ps| ==> ps[i].id == db.properties[i].id;
    }
  }

  // ---------------------------------------------------------------------------
  // The save transaction

  /** The node loop of `SaveProject`: each record is inserted in order. */
  function InsertNodes(db: Database, recs: seq<NodeRecord>): (r: Database)
    ensures r.nodeSeq == db.nodeSeq + |recs|
    ensures |r.nodes| == |db.nodes| + |recs| && r.nodes[..|db.nodes|] == db.nodes
    ensures forall i :: 0 <= i < |recs| ==>
              r.nodes[|db.nodes| + i] == NodeRow(db.nodeSeq + i + 1, AsStored(recs[i]))
    ensures r.links == db.links && r.linkSeq == db.linkSeq
    ensures r.properties == db.properties && r.propertySeq == db.propertySeq
    ensures r.types == db.types && r.typeSeq == db.typeSeq
    decreases |recs|
  {
    if recs == [] then db
    else InsertNode(InsertNodes(db, recs[..|recs| - 1]), recs[|recs| - 1])
  }

  /** Inserting one more node record extends the node inserts by one row. */
  lemma InsertNodesStep(db: Database, recs: seq<NodeRecord>, i: nat)
    requires i < |recs|
    ensures InsertNodes(db, recs[..i + 1]) == InsertNode(InsertNodes(db, recs[..i]), recs[i])
  {
    assert recs[..i + 1][..i] == recs[..i];
  }

  /** The link loop of `SaveProject`: each link is inserted in order, with its
      endpoint ids written exactly as the link holds them. */
  function InsertLinks(db: Database, ls: seq<LinkModel>): (r: Database)
    ensures r.linkSeq == db.linkSeq + |ls|
    ensures |r.links| == |db.links| + |ls| && r.links[..|db.links|] == db.links
    ensures forall i :: 0 <= i < |ls| ==> r.links[|db.links| + i] == LinkRow(db.linkSeq + i + 1, ls[i])
    ensures r.nodes == db.nodes && r.nodeSeq == db.nodeSeq
    ensures r.properties == db.properties && r.propertySeq == db.propertySeq
    ensures r.types == db.types && r.typeSeq == db.typeSeq
    decreases |ls|
  {
    if ls == [] then db
    else InsertLink(InsertLinks(db, ls[..|ls| - 1]), ls[|ls| - 1])
  }

  /** Inserting one more link extends the link inserts by one row. */
  lemma InsertLinksStep(db: Database, ls: seq<LinkModel>, j: nat)
    requires j < |ls|
    ensures InsertLinks(db, ls[..j + 1]) == InsertLink(InsertLinks(db, ls[..j]), ls[j])
  {
    assert ls[..j + 1][..j] == ls[..j];
  }

  /** The property loop of `SaveProject`: it stops at the first property
      without a type, and the whole transaction then fails. */
  function InsertProperties(db: Database, ps: seq<PropertyItem>): (r: Result<Database, StoreError>)
    ensures r.Err? <==> exists i :: 0 <= i < |ps| && ps[i].itemType.None?
    ensures r.Err? ==> r.error == NotNullViolation
    ensures r.Ok? ==> r.value.propertySeq == db.propertySeq + |ps|
    ensures r.Ok? ==> |r.value.properties| == |db.properties| + |ps| &&
                      r.value.properties[..|db.properties|] == db.properties
    ensures r.Ok? ==> forall i :: 0 <= i < |ps| ==>
              r.value.properties[|db.properties| + i] == ps[i].(id := db.propertySeq + i + 1)
    ensures r.Ok? ==> r.value.nodes == db.nodes && r.value.links == db.links && r.value.types == db.types
    ensures r.Ok? ==> r.value.nodeSeq == db.nodeSeq && r.value.linkSeq == db.linkSeq && r.value.typeSeq == db.typeSeq
    decreases |ps|
  {
    if ps == [] then Ok(db)
    else
      match InsertProperties(db, ps[..|ps| - 1])
      case Err(e) => Err(e)
      case Ok(d) => InsertProperty(d, ps[|ps| - 1])
  }

  /** The whole transaction of `SaveProject`: clear every table and reset
      every counter, then insert the nodes, the links and the properties. */
  function SaveTransaction(db: Database, recs: seq<NodeRecord>, ls: seq<LinkModel>, ps: seq<PropertyItem>): Result<Database, StoreError>
  {
    InsertProperties(InsertLinks(InsertNodes(DeleteAllData(db), recs), ls), ps)
  }

  /** The sequence 1, 2, ..., n: the ids a save gives to n nodes. */
  function OneTo(n: nat): (r: seq<int>)
    ensures |r| == n && forall i :: 0 <= i < n ==> r[i] == i + 1
  {
    seq(n, i requires 0 <= i < n => i + 1)
  }

  function RowIds(rows: seq<NodeRow>): (r: seq<int>)
    ensures |r| == |rows| && forall i :: 0 <= i < |rows| ==> r[i] == rows[i].id
  {
    seq(|rows|, i requires 0 <= i < |rows| => rows[i].id)
  }

  /** The transaction fails exactly when some property has no type. */
  lemma SaveTransactionFails(db: Database, recs: seq<NodeRecord>, ls: seq<LinkModel>, ps: seq<PropertyItem>)
    ensures SaveTransaction(db, recs, ls, ps).Err? <==> exists i :: 0 <= i < |ps| && ps[i].itemType.None?
  {
  }

  /** A committed save renumbers the nodes 1..n in collection order, each
      keeping its columns as stored, and leaves every counter equal to its
      table's size. */
  lemma SavedNodes(db: Database, recs: seq<NodeRecord>, ls: seq<LinkModel>, ps: seq<PropertyItem>)
    requires SaveTransaction(db, recs, ls, ps).Ok?
    ensures RowIds(SaveTransaction(db, recs, ls, ps).value.nodes) == OneTo(|recs|)
    ensures forall i :: 0 <= i < |recs| ==> SaveTransaction(db, recs, ls, ps).value.nodes[i].data == AsStored(recs[i])
    ensures SaveTransaction(db, recs, ls, ps).value.nodeSeq == |recs|
    ensures SaveTransaction(db, recs, ls, ps).value.linkSeq == |ls|
    ensures SaveTransaction(db, recs, ls, ps).value.propertySeq == |ps|
    ensures SaveTransaction(db, recs, ls, ps).value.types == [] && SaveTransaction(db, recs, ls, ps).value.typeSeq == 0
  {
    var d1 := InsertNodes(EmptyDatabase, recs);
    var d := SaveTransaction(db, recs, ls, ps).value;
    assert d.nodes == d1.nodes;
    forall i | 0 <= i < |recs| ensures d.nodes[i] == NodeRow(i + 1, AsStored(recs[i])) {
      assert d1.nodes[0 + i] == NodeRow(0 + i + 1, AsStored(recs[i]));
    }
    assert RowIds(d.nodes) == OneTo(|recs|);
  }

  /** A committed save numbers the links 1..m in collection order and copies
      each link's endpoint ids verbatim: they are not remapped to the ids the
      same save has just given the nodes. */
  lemma SavedLinks(db: Database, recs: seq<NodeRecord>, ls: seq<LinkModel>, ps: seq<PropertyItem>)
    requires SaveTransaction(db, recs, ls, ps).Ok?
    ensures |SaveTransaction(db, recs, ls, ps).value.links| == |ls|
    ensures forall j :: 0 <= j < |ls| ==>
              var row := SaveTransaction(db, recs, ls, ps).value.links[j];
              row.id == j + 1 && row.idNodeSrc == ls[j].idNodeSrc && row.idNodeTgt == ls[j].idNodeTgt &&
              row.createdAt == ToWholeSecond(ls[j].createdAt)
  {
    var d2 := InsertLinks(InsertNodes(EmptyDatabase, recs), ls);
    var d := SaveTransaction(db, recs, ls, ps).value;
    assert d.links == d2.links;
    forall j | 0 <= j < |ls| ensures d.links[j] == LinkRow(j + 1, ls[j]) {
      assert d2.links[0 + j] == LinkRow(0 + j + 1, ls[j]);
    }
  }

  /** A committed save numbers the properties 1..k in collection order. */
  lemma SavedProperties(db: Database, recs: seq<NodeRecord>, ls: seq<LinkModel>, ps: seq<PropertyItem>)
    requires SaveTransaction(db, recs, ls, ps).Ok?
    ensures |SaveTransaction(db, recs, ls, ps).value.properties| == |ps|
    ensures forall k :: 0 <= k < |ps| ==> SaveTransaction(db, recs, ls, ps).value.properties[k] == ps[k].(id := k + 1)
  {
    var d := SaveTransaction(db, recs, ls, ps).value;
    forall k | 0 <= k < |ps| ensures d.properties[k] == ps[k].(id := k + 1) {
      assert d.properties[0 + k] == ps[k].(id := 0 + k + 1);
    }
  }

  /** A table whose ids are its positions plus one, under a counter no
      smaller than its size, is numbered. */
  lemma NumberedByPosition<T>(s: seq<T>, key: T -> int, counter: int)
    requires forall i :: 0 <= i < |s| ==> key(s[i]) == i + 1
    requires |s| <= counter
    ensures Numbered(s, key, counter)
  {
  }

  /** A committed save yields a valid database. */
  lemma SaveTransactionConsistent(db: Database, recs: seq<NodeRecord>, ls: seq<LinkModel>, ps: seq<PropertyItem>)
    requires SaveTransaction(db, recs, ls, ps).Ok?
    ensures Consistent(SaveTransaction(db, recs, ls, ps).value)
  {
    var d := SaveTransaction(db, recs, ls, ps).value;
    SavedNodes(db, recs, ls, ps);
    forall i | 0 <= i < |d.nodes| ensures NodeId(d.nodes[i]) == i + 1 {
      assert RowIds(d.nodes)[i] == OneTo(|recs|)[i];
    }
    NumberedByPosition(d.nodes, NodeId, d.nodeSeq);
    SavedLinks(db, recs, ls, ps);
    NumberedByPosition(d.links, LinkId, d.linkSeq);
    SavedProperties(db, recs, ls, ps);
    NumberedByPosition(d.properties, PropertyId, d.propertySeq);
  }

  /** `FirstOrDefault` over ids: the position of the first `id` in `ids`. */
  function FirstIndexOf(ids: seq<int>, id: int): (r: Option<nat>)
    ensures r.None? <==> id !in ids
    ensures r.Some? ==> r.value < |ids| && ids[r.value] == id &&
                        forall k :: 0 <= k < r.value ==> ids[k] != id
  {
    if ids == [] then None
    else if ids[0] == id then Some(0)
    else match FirstIndexOf(ids[1..], id)
      case None => None
      case Some(k) => Some(k + 1)
  }

  /** In ids renumbered 1..n, an id resolves to its own position minus one
      when it is in range and to nothing otherwise. */
  lemma FirstIndexOfOneTo(n: nat, id: int)
    ensures FirstIndexOf(OneTo(n), id) == if 1 <= id <= n then Some(id - 1) else None
  {
    var ids := OneTo(n);
    if 1 <= id <= n {
      assert ids[id - 1] == id;
    }
  }
}
