/** `DBManager`: the working copy of a project. A project file (.nf) is an
    archive of a working directory holding project.db and metadata.json; the
    store unpacks one into its working directory, runs single-table operations
    on the database there, and packs the directory back into a project file on
    save. The file system is a map from a path to what is stored there. */
module Store {
  import opened Basics
  import opened Entities
  import opened Tables
  import opened ViewModels
  import opened Paths

  /** metadata.json: a document that deserializes, or one that does not. */
  datatype MetadataDoc = WellFormed(meta: ProjectMetadata) | Malformed

  /** A file on disk: an archive with project.db and metadata.json, either of
      which may be missing, or something that is not an archive at all. */
  datatype ProjectFile = Corrupt | Archive(database: Option<Database>, metadata: Option<MetadataDoc>)

  /** Every database SQLite writes keeps its ids within its counters. */
  ghost predicate FileConsistent(f: ProjectFile)
  {
    f.Archive? && f.database.Some? ==> Consistent(f.database.value)
  }

  /** Every file on the disk keeps its ids within its counters. */
  ghost predicate DiskConsistent(disk: map<string, ProjectFile>)
  {
    forall p :: p in disk ==> FileConsistent(disk[p])
  }

  /** Writing a consistent file keeps the disk consistent. */
  lemma WriteKeepsConsistent(disk: map<string, ProjectFile>, path: string, file: ProjectFile)
    requires DiskConsistent(disk) && FileConsistent(file)
    ensures DiskConsistent(disk[path := file])
  {
  }

  /** The working directory as `LoadProject` leaves it: whether it exists,
      the database in it, and the metadata the store then holds. */
  datatype Opened = Opened(dirExists: bool, database: Option<Database>, metadata: ProjectMetadata)

  /** `LoadProject` on what is stored at the path (`None`: no such file).
      A missing file, a file that is not an archive, or a metadata.json that
      does not deserialize all fail the same way: the working directory is
      deleted and the metadata starts afresh. An archive without
      metadata.json keeps the metadata the store already held. */
  function LoadFrom(f: Option<ProjectFile>, previous: ProjectMetadata, now: Timestamp): (r: Opened)
    ensures r.dirExists <==> f.Some? && f.value.Archive? && f.value.metadata != Some(Malformed)
    ensures r.dirExists ==> r.database == f.value.database
    ensures !r.dirExists ==> r.database.None? && r.metadata == DefaultMetadata(now)
    ensures r.dirExists && f.value.metadata.None? ==> r.metadata == previous
    ensures r.dirExists && f.value.metadata.Some? ==> r.metadata == f.value.metadata.value.meta
  {
    match f
    case None => Opened(false, None, DefaultMetadata(now))
    case Some(Corrupt) => Opened(false, None, DefaultMetadata(now))
    case Some(Archive(db, None)) => Opened(true, db, previous)
    case Some(Archive(db, Some(WellFormed(m)))) => Opened(true, db, m)
    case Some(Archive(_, Some(Malformed))) => Opened(false, None, DefaultMetadata(now))
  }

  /** The metadata a committed save writes: the name from the file name and
      the modification time of the save. */
  function SavedMetadata(m: ProjectMetadata, path: string, now: Timestamp): (r: ProjectMetadata)
    ensures r.projectName == Some(FileStem(path)) && r.lastModifiedDate == now
    ensures r.description == m.description && r.creationDate == m.creationDate
  {
    m.(projectName := Some(FileStem(path)), lastModifiedDate := now)
  }

  /** Loading what a save has written gives back its database and metadata. */
  lemma LoadSaved(db: Database, m: ProjectMetadata, previous: ProjectMetadata, now: Timestamp)
    ensures LoadFrom(Some(Archive(Some(db), Some(WellFormed(m)))), previous, now) == Opened(true, Some(db), m)
  {
  }

  /** The node a row becomes in `GetAllNodes`: its setters run in the order
      ID_NODE, NODE_TITLE, ID_TYPE, DATE_START, DATE_END, Assignee, XPosition,
      YPosition on a fresh node. A non-zero type paints it gray with an
      unknown process type; PATH is never read back. */
  function LoadedNodeState(row: NodeRow): (s: NodeState)
    ensures s.idNode == row.id && s.idType == row.data.idType
    ensures s.nodeTitle == row.data.title && s.assignee == row.data.assignee
    ensures s.dateStart == row.data.dateStart && s.dateEnd == row.data.dateEnd
    ensures s.xPosition == row.data.x && s.yPosition == row.data.y
    ensures s.pathCustom.None? && s.customProperties == []
    ensures s.idType != 0 ==> s.nodeColor == Gray && s.processType == Some(UnknownType)
    ensures s.idType == 0 ==> s.nodeColor == DefaultColor && s.processType.None?
  {
    var typed := if row.data.idType != 0
      then FreshNodeState.(idType := row.data.idType, nodeColor := Gray, processType := Some(UnknownType))
      else FreshNodeState;
    typed.(idNode := row.id, nodeTitle := row.data.title, dateStart := row.data.dateStart,
           dateEnd := row.data.dateEnd, assignee := row.data.assignee, xPosition := row.data.x,
           yPosition := row.data.y)
  }

  /** PATH makes no difference to the node a row loads as. */
  lemma LoadedNodeIgnoresPath(row: NodeRow, path: Option<string>)
    ensures LoadedNodeState(row.(data := row.data.(path := path))) == LoadedNodeState(row)
  {
  }

  /** Every property read back has a name: `GetString` on a NULL NAME throws. */
  predicate AllNamed(ps: seq<PropertyItem>)
  {
    forall i :: 0 <= i < |ps| ==> ps[i].name.Some?
  }

  /** The node loop of the save transaction, on the columns each node
      writes. */
  method InsertNodeLoop(db: Database, recs: seq<NodeRecord>) returns (tx: Database)
    ensures tx == InsertNodes(db, recs)
  {
    tx := db;
    var i := 0;
    while i < |recs|
      invariant 0 <= i <= |recs|
      invariant tx == InsertNodes(db, recs[..i])
    {
      InsertNodesStep(db, recs, i);
      tx := InsertNode(tx, recs[i]);
      i := i + 1;
    }
    assert recs[..|recs|] == recs;
  }

  /** The link loop of the save transaction, on the link data of each link. */
  method InsertLinkLoop(db: Database, datas: seq<LinkModel>) returns (tx: Database)
    ensures tx == InsertLinks(db, datas)
  {
    tx := db;
    var j := 0;
    while j < |datas|
      invariant 0 <= j <= |datas|
      invariant tx == InsertLinks(db, datas[..j])
    {
      InsertLinksStep(db, datas, j);
      tx := InsertLink(tx, datas[j]);
      j := j + 1;
    }
    assert datas[..|datas|] == datas;
  }

  /** The property loop of the save transaction: the first property without
      a type aborts it. */
  method InsertPropertyLoop(db: Database, properties: seq<PropertyItem>) returns (r: Result<Database, StoreError>)
    ensures r == InsertProperties(db, properties)
  {
    var tx := db;
    var k := 0;
    while k < |properties|
      invariant 0 <= k <= |properties|
      invariant InsertProperties(db, properties[..k]) == Ok(tx)
    {
      assert properties[..k + 1][..k] == properties[..k];
      if properties[k].itemType.None? {
        return Err(NotNullViolation);
      }
      tx := InsertProperty(tx, properties[k]).value;
      k := k + 1;
    }
    assert properties[..|properties|] == properties;
    return Ok(tx);
  }

  /** The save transaction, run on a copy of the database: every table
      cleared, then the columns of each node, the link data of each link and
      the properties inserted in collection order. */
  method RunTransaction(db: Database, recs: seq<NodeRecord>, datas: seq<LinkModel>,
                        properties: seq<PropertyItem>) returns (r: Result<Database, StoreError>)
    ensures r == SaveTransaction(db, recs, datas, properties)
    ensures r.Ok? ==> Consistent(r.value)
  {
    var afterNodes := InsertNodeLoop(DeleteAllData(db), recs);
    var afterLinks := InsertLinkLoop(afterNodes, datas);
    r := InsertPropertyLoop(afterLinks, properties);
    if r.Ok? {
      SaveTransactionConsistent(db, recs, datas, properties);
    }
  }

  /** The object initializer of `GetAllNodes` on one row. */
  method NodeFromRow(row: NodeRow) returns (node: NodeModel)
    ensures fresh(node) && node.State() == LoadedNodeState(row)
  {
    node := new NodeModel();
    node.SetIdNode(row.id);
    node.SetNodeTitle(row.data.title);
    node.SetIdType(row.data.idType);
    node.SetDateStart(row.data.dateStart);
    node.SetDateEnd(row.data.dateEnd);
    node.SetAssignee(row.data.assignee);
    node.SetXPosition(row.data.x);
    node.SetYPosition(row.data.y);
  }

  class DBManager {
    var dirExists: bool
    var database: Option<Database>
    var projectMetadata: ProjectMetadata
    var projectFilePath: Option<string>
    var disk: map<string, ProjectFile>

    /** A database only lives in an existing working directory, and every
        database, working or archived, keeps its ids within its counters. */
    ghost predicate Valid()
      reads this
    {
      (database.Some? ==> dirExists && Consistent(database.value)) && DiskConsistent(disk)
    }

    /** A new, empty working directory and fresh metadata. */
    constructor (files: map<string, ProjectFile>, now: Timestamp)
      requires DiskConsistent(files)
      ensures Valid()
      ensures dirExists && database.None? && projectMetadata == DefaultMetadata(now)
      ensures projectFilePath.None? && disk == files
    {
      dirExists := true;
      database := None;
      projectMetadata := DefaultMetadata(now);
      projectFilePath := None;
      disk := files;
    }

    /** The working directory and everything in it is deleted. */
    method CleanupTempFiles()
      modifies this`dirExists, this`database
      ensures !dirExists && database.None?
    {
      dirExists := false;
      database := None;
    }

    /** A fresh working directory with an empty database, fresh metadata and
        no file path. */
    method CreateNewProject(now: Timestamp)
      requires Valid()
      modifies this
      ensures Valid()
      ensures dirExists && database == Some(EmptyDatabase)
      ensures projectMetadata == DefaultMetadata(now) && projectFilePath.None?
      ensures disk == old(disk)
    {
      CleanupTempFiles();
      dirExists := true;
      database := Some(EmptyDatabase);
      projectMetadata := DefaultMetadata(now);
      projectFilePath := None;
    }

    /** The file path is taken even when loading fails. */
    method LoadProject(path: string, now: Timestamp)
      requires Valid()
      modifies this
      ensures Valid()
      ensures projectFilePath == Some(path) && disk == old(disk)
      ensures Opened(dirExists, database, projectMetadata) ==
                LoadFrom(if path in disk then Some(disk[path]) else None, old(projectMetadata), now)
    {
      projectFilePath := Some(path);
      CleanupTempFiles();
      dirExists := true;
      if path !in disk || disk[path].Corrupt? {
        CleanupTempFiles();
        projectMetadata := DefaultMetadata(now);
        return;
      }
      var file := disk[path];
      database := file.database;
      match file.metadata {
        case None =>
        case Some(WellFormed(m)) =>
          projectMetadata := m;
        case Some(Malformed) =>
          CleanupTempFiles();
          projectMetadata := DefaultMetadata(now);
      }
    }

    /** The transaction runs on a copy of the database that is committed only
        when every insert succeeds; a failure leaves everything as it was.
        After a commit the metadata takes its name from the file name, and the
        working directory is packed into the file at `path`. */
    method SaveProject(path: string, nodes: seq<NodeViewModel>, links: seq<LinkViewModel>,
                       properties: seq<PropertyItem>, now: Timestamp) returns (r: Outcome<StoreError>)
      requires Valid()
      modifies this
      ensures Valid()
      ensures old(database).None? ==> r == Fail(NoDatabase)
      ensures old(database).Some? ==>
                (r.Pass? <==> SaveTransaction(old(database).value, old(Records(nodes)), old(LinkDatas(links)), properties).Ok?)
      ensures r.Fail? ==> database == old(database) && projectMetadata == old(projectMetadata) &&
                          projectFilePath == old(projectFilePath) && disk == old(disk)
      ensures r.Fail? && old(database).Some? ==> r.error == NotNullViolation
      ensures r.Pass? ==> database == Some(SaveTransaction(old(database).value, old(Records(nodes)), old(LinkDatas(links)), properties).value)
      ensures r.Pass? ==> projectFilePath == Some(path) && projectMetadata == SavedMetadata(old(projectMetadata), path, now)
      ensures r.Pass? ==> disk == old(disk)[path := Archive(database, Some(WellFormed(projectMetadata)))]
      ensures dirExists == old(dirExists)
    {
      if database.None? {
        return Fail(NoDatabase);
      }
      var tx := RunTransaction(database.value, Records(nodes), LinkDatas(links), properties);
      if tx.Err? {
        return Fail(tx.error);
      }
      Commit(tx.value, path, now);
      return Pass;
    }

    /** The end of a save that committed: the store takes the new database,
        the path and the metadata named after the file, and the working
        directory is packed into the file at `path`. */
    method Commit(db: Database, path: string, now: Timestamp)
      requires Valid() && dirExists && Consistent(db)
      modifies this`database, this`projectFilePath, this`projectMetadata, this`disk
      ensures Valid()
      ensures database == Some(db) && projectFilePath == Some(path)
      ensures projectMetadata == SavedMetadata(old(projectMetadata), path, now)
      ensures disk == old(disk)[path := Archive(database, Some(WellFormed(projectMetadata)))]
    {
      var meta := SavedMetadata(projectMetadata, path, now);
      var file := Archive(Some(db), Some(WellFormed(meta)));
      WriteKeepsConsistent(disk, path, file);
      database, projectFilePath, projectMetadata := Some(db), Some(path), meta;
      disk := disk[path := file];
    }

    /** `AddNode`: an insert of everything but PATH under the next id, which
        it returns. */
    method AddNode(node: NodeModel) returns (r: Result<int, StoreError>)
      requires Valid()
      modifies this`database
      ensures Valid()
      ensures old(database).None? ==> r == Err(NoDatabase) && database.None?
      ensures old(database).Some? ==> r == Ok(old(database).value.nodeSeq + 1)
      ensures old(database).Some? ==> database == Some(InsertNode(old(database).value, node.Record().(path := None)))
      ensures old(database).Some? ==> forall i :: 0 <= i < |old(database).value.nodes| ==>
                old(database).value.nodes[i].id < r.value
    {
      if database.None? {
        return Err(NoDatabase);
      }
      InsertNodeFresh(database.value, node.Record().(path := None));
      database := Some(InsertNode(database.value, node.Record().(path := None)));
      return Ok(database.value.nodeSeq);
    }

    /** `UpdateNode`: the row with the node's id takes its columns but PATH. */
    method UpdateNode(node: NodeModel) returns (r: Outcome<StoreError>)
      requires Valid()
      modifies this`database
      ensures Valid()
      ensures old(database).None? ==> r == Fail(NoDatabase) && database.None?
      ensures old(database).Some? ==> r.Pass?
      ensures old(database).Some? ==>
                database == Some(old(database).value.(nodes := UpdateNodeRows(old(database).value.nodes, node.idNode, node.Record())))
    {
      if database.None? {
        return Fail(NoDatabase);
      }
      UpdatesConsistent(database.value, node.idNode, node.Record(), PropertyItem(0, Some(""), None, None));
      database := Some(database.value.(nodes := UpdateNodeRows(database.value.nodes, node.idNode, node.Record())));
      return Pass;
    }

    /** `DeleteNode`: only the node row goes; its links stay. */
    method DeleteNode(nodeId: int) returns (r: Outcome<StoreError>)
      requires Valid()
      modifies this`database
      ensures Valid()
      ensures old(database).None? ==> r == Fail(NoDatabase) && database.None?
      ensures old(database).Some? ==> r.Pass?
      ensures old(database).Some? ==>
                database == Some(old(database).value.(nodes := DeleteNodeRows(old(database).value.nodes, nodeId)))
    {
      if database.None? {
        return Fail(NoDatabase);
      }
      DeletesConsistent(database.value, nodeId);
      database := Some(database.value.(nodes := DeleteNodeRows(database.value.nodes, nodeId)));
      return Pass;
    }

    /** `AddLink`: an insert under the next link id. */
    method AddLink(link: LinkModel) returns (r: Outcome<StoreError>)
      requires Valid()
      modifies this`database
      ensures Valid()
      ensures old(database).None? ==> r == Fail(NoDatabase) && database.None?
      ensures old(database).Some? ==> r.Pass? && database == Some(InsertLink(old(database).value, link))
    {
      if database.None? {
        return Fail(NoDatabase);
      }
      InsertLinkConsistent(database.value, link);
      database := Some(InsertLink(database.value, link));
      return Pass;
    }

    /** `DeleteLink(nodeId)`: every link from or to the node goes. */
    method DeleteLink(nodeId: int) returns (r: Outcome<StoreError>)
      requires Valid()
      modifies this`database
      ensures Valid()
      ensures old(database).None? ==> r == Fail(NoDatabase) && database.None?
      ensures old(database).Some? ==> r.Pass?
      ensures old(database).Some? ==>
                database == Some(old(database).value.(links := DeleteLinkRows(old(database).value.links, nodeId)))
    {
      if database.None? {
        return Fail(NoDatabase);
      }
      DeletesConsistent(database.value, nodeId);
      database := Some(database.value.(links := DeleteLinkRows(database.value.links, nodeId)));
      return Pass;
    }

    /** `AddPropertyItem`: an insert under the next id, which it returns; a
        property without a type is refused. */
    method AddPropertyItem(item: PropertyItem) returns (r: Result<int, StoreError>)
      requires Valid()
      modifies this`database
      ensures Valid()
      ensures old(database).None? ==> r == Err(NoDatabase) && database.None?
      ensures old(database).Some? && item.itemType.None? ==> r == Err(NotNullViolation) && database == old(database)
      ensures old(database).Some? && item.itemType.Some? ==> r == Ok(old(database).value.propertySeq + 1)
      ensures old(database).Some? && item.itemType.Some? ==>
                database == Some(InsertProperty(old(database).value, item).value)
    {
      if database.None? {
        return Err(NoDatabase);
      }
      var ins := InsertProperty(database.value, item);
      if ins.Err? {
        return Err(ins.error);
      }
      InsertPropertyFresh(database.value, item);
      database := Some(ins.value);
      return Ok(ins.value.propertySeq);
    }

    /** `UpdatePropertyItem`: the row with the item's id takes its type, name
        and value. */
    method UpdatePropertyItem(item: PropertyItem) returns (r: Outcome<StoreError>)
      requires Valid()
      modifies this`database
      ensures Valid()
      ensures old(database).None? ==> r == Fail(NoDatabase) && database.None?
      ensures old(database).Some? && UpdatePropertyRows(old(database).value.properties, item).Err? ==>
                r == Fail(NotNullViolation) && database == old(database)
      ensures old(database).Some? && UpdatePropertyRows(old(database).value.properties, item).Ok? ==> r.Pass?
      ensures old(database).Some? && UpdatePropertyRows(old(database).value.properties, item).Ok? ==>
                database == Some(old(database).value.(properties := UpdatePropertyRows(old(database).value.properties, item).value))
    {
      if database.None? {
        return Fail(NoDatabase);
      }
      var upd := UpdatePropertyRows(database.value.properties, item);
      if upd.Err? {
        return Fail(upd.error);
      }
      UpdatesConsistent(database.value, 0, NodeRecord(None, 0, None, None, None, 0, 0, None), item);
      database := Some(database.value.(properties := upd.value));
      return Pass;
    }

    /** `DeletePropertyItem`: only the row with the id goes. */
    method DeletePropertyItem(propertyId: int) returns (r: Outcome<StoreError>)
      requires Valid()
      modifies this`database
      ensures Valid()
      ensures old(database).None? ==> r == Fail(NoDatabase) && database.None?
      ensures old(database).Some? ==> r.Pass?
      ensures old(database).Some? ==>
                database == Some(old(database).value.(properties := DeletePropertyRows(old(database).value.properties, propertyId)))
    {
      if database.None? {
        return Fail(NoDatabase);
      }
      DeletesConsistent(database.value, propertyId);
      database := Some(database.value.(properties := DeletePropertyRows(database.value.properties, propertyId)));
      return Pass;
    }

    /** The rows of INFO_NODES, or none when there is no database. */
    function StoredNodes(): seq<NodeRow>
      reads this
    {
      if database.Some? then database.value.nodes else []
    }

    /** The rows of INFO_LINKS, or none when there is no database. */
    function StoredLinks(): seq<LinkModel>
      reads this
    {
      if database.Some? then database.value.links else []
    }

    /** `GetAllNodes`: a new node per row, in rowid order. */
    method GetAllNodes() returns (r: seq<NodeModel>)
      ensures |r| == |StoredNodes()|
      ensures forall i :: 0 <= i < |r| ==> fresh(r[i]) && r[i].State() == LoadedNodeState(StoredNodes()[i])
      ensures Distinct(r)
    {
      r := [];
      if database.None? {
        return;
      }
      var rows := database.value.nodes;
      var i := 0;
      while i < |rows|
        invariant 0 <= i <= |rows| && |r| == i
        invariant forall k :: 0 <= k < i ==> fresh(r[k]) && r[k].State() == LoadedNodeState(rows[k])
        invariant Distinct(r)
      {
        var node := NodeFromRow(rows[i]);
        r := r + [node];
        i := i + 1;
      }
    }

    /** `GetAllLinks`: the rows of INFO_LINKS in rowid order; none when there
        is no database. */
    method GetAllLinks() returns (r: seq<LinkModel>)
      ensures database.None? ==> r == []
      ensures database.Some? ==> r == database.value.links
      ensures r == StoredLinks()
    {
      r := [];
      if database.None? {
        return;
      }
      var rows := database.value.links;
      var i := 0;
      while i < |rows|
        invariant 0 <= i <= |rows| && r == rows[..i]
      {
        r := r + [rows[i]];
        i := i + 1;
      }
      assert rows[..|rows|] == rows;
    }

    /** `GetAllProperties`: the rows of INFO_PROPERTIES in rowid order, none
        when there is no database, and an error when a row has no name. */
    method GetAllProperties() returns (r: Result<seq<PropertyItem>, StoreError>)
      ensures database.None? ==> r == Ok([])
      ensures database.Some? && AllNamed(database.value.properties) ==> r == Ok(database.value.properties)
      ensures database.Some? && !AllNamed(database.value.properties) ==> r == Err(NullColumn)
    {
      if database.None? {
        return Ok([]);
      }
      var rows := database.value.properties;
      var acc: seq<PropertyItem> := [];
      var i := 0;
      while i < |rows|
        invariant 0 <= i <= |rows| && acc == rows[..i]
        invariant AllNamed(rows[..i])
      {
        if rows[i].name.None? {
          return Err(NullColumn);
        }
        acc := acc + [rows[i]];
        i := i + 1;
      }
      assert rows[..|rows|] == rows;
      return Ok(acc);
    }
  }
}
