/** Saving a project and loading the file back. A committed save renumbers
    the nodes 1..n in collection order but writes each link's endpoint ids as
    the link holds them, and loading resolves those ids against the new
    numbers: a graph survives the round trip exactly where each endpoint id
    already was its node's position plus one. */
module RoundTrip {
  import opened Basics
  import opened Entities
  import opened Tables
  import opened ViewModels
  import opened Store
  import opened Session

  /** Loading the file a committed save wrote gives the working directory
      back with the saved database and metadata, and the node rows as they
      load: ids 1..n in collection order, every column the save wrote, the
      dates cut to whole seconds, and no PATH. */
  lemma SaveThenLoadNodes(db: Database, recs: seq<NodeRecord>, ls: seq<LinkModel>, ps: seq<PropertyItem>,
                          m: ProjectMetadata, previous: ProjectMetadata, now: Timestamp)
    requires SaveTransaction(db, recs, ls, ps).Ok?
    ensures LoadFrom(Some(Archive(Some(SaveTransaction(db, recs, ls, ps).value), Some(WellFormed(m)))), previous, now) ==
              Opened(true, Some(SaveTransaction(db, recs, ls, ps).value), m)
    ensures |SaveTransaction(db, recs, ls, ps).value.nodes| == |recs|
    ensures forall i :: 0 <= i < |recs| ==>
              var s := LoadedNodeState(SaveTransaction(db, recs, ls, ps).value.nodes[i]);
              s.idNode == i + 1 && s.nodeTitle == recs[i].title && s.idType == recs[i].idType &&
              s.dateStart == StoredDate(recs[i].dateStart) && s.dateEnd == StoredDate(recs[i].dateEnd) &&
              s.assignee == recs[i].assignee && s.xPosition == recs[i].x && s.yPosition == recs[i].y &&
              s.pathCustom.None?
  {
    var d := SaveTransaction(db, recs, ls, ps).value;
    LoadSaved(d, m, previous, now);
    SavedNodes(db, recs, ls, ps);
    forall i | 0 <= i < |recs|
      ensures LoadedNodeState(d.nodes[i]).idNode == i + 1 && d.nodes[i].data == AsStored(recs[i])
    {
      assert RowIds(d.nodes)[i] == OneTo(|recs|)[i];
    }
  }

  /** The box a link endpoint finds after the round trip: the one at
      position id - 1 when the id is in 1..n, and none otherwise. */
  function AtPosition(ns: seq<NodeViewModel>, id: int): (r: NodeViewModel?)
    ensures 1 <= id <= |ns| ==> r == ns[id - 1]
    ensures !(1 <= id <= |ns|) ==> r == null
  {
    if 1 <= id <= |ns| then ns[id - 1] else null
  }

  /** Over nodes numbered 1..n, a link resolves each endpoint id by
      position; it keeps its endpoint ids exactly when both resolve. */
  lemma ResolveRenumbered(ns: seq<NodeViewModel>, stored: LinkModel, now: Timestamp)
    ensures Reloaded(ns, OneTo(|ns|), stored, now).start == AtPosition(ns, stored.idNodeSrc)
    ensures Reloaded(ns, OneTo(|ns|), stored, now).end == AtPosition(ns, stored.idNodeTgt)
  {
    FirstIndexOfOneTo(|ns|, stored.idNodeSrc);
    FirstIndexOfOneTo(|ns|, stored.idNodeTgt);
  }

  /** One saved link, rebuilt over a box per saved node: it runs between
      the boxes at the positions its endpoint ids name, the ids the link
      held before the save. */
  lemma SavedLinkResolves(db: Database, recs: seq<NodeRecord>, ls: seq<LinkModel>, ps: seq<PropertyItem>,
                          boxes: seq<NodeViewModel>, now: Timestamp, j: int)
    requires SaveTransaction(db, recs, ls, ps).Ok? && |boxes| == |recs| && 0 <= j < |ls|
    ensures var d := SaveTransaction(db, recs, ls, ps).value;
            j < |d.links| &&
            Reloaded(boxes, RowIds(d.nodes), d.links[j], now).start == AtPosition(boxes, ls[j].idNodeSrc) &&
            Reloaded(boxes, RowIds(d.nodes), d.links[j], now).end == AtPosition(boxes, ls[j].idNodeTgt)
  {
    var d := SaveTransaction(db, recs, ls, ps).value;
    SavedNodes(db, recs, ls, ps);
    SavedLinks(db, recs, ls, ps);
    ResolveRenumbered(boxes, d.links[j], now);
  }

  /** Rebuilding the whole graph from a file a committed save wrote: every
      saved link, in order, as `SavedLinkResolves` says. */
  lemma SaveThenLoadLinks(db: Database, recs: seq<NodeRecord>, ls: seq<LinkModel>, ps: seq<PropertyItem>,
                          boxes: seq<NodeViewModel>, now: Timestamp)
    requires SaveTransaction(db, recs, ls, ps).Ok? && |boxes| == |recs|
    ensures |SaveTransaction(db, recs, ls, ps).value.links| == |ls|
    ensures var d := SaveTransaction(db, recs, ls, ps).value;
            forall j :: 0 <= j < |ls| ==>
              Reloaded(boxes, RowIds(d.nodes), d.links[j], now).start == AtPosition(boxes, ls[j].idNodeSrc) &&
              Reloaded(boxes, RowIds(d.nodes), d.links[j], now).end == AtPosition(boxes, ls[j].idNodeTgt)
  {
    SavedLinks(db, recs, ls, ps);
    forall j | 0 <= j < |ls|
      ensures var d := SaveTransaction(db, recs, ls, ps).value;
              Reloaded(boxes, RowIds(d.nodes), d.links[j], now).start == AtPosition(boxes, ls[j].idNodeSrc) &&
              Reloaded(boxes, RowIds(d.nodes), d.links[j], now).end == AtPosition(boxes, ls[j].idNodeTgt)
    {
      SavedLinkResolves(db, recs, ls, ps, boxes, now, j);
    }
  }

  /** An endpoint id finds the same position before and after the
      renumbering exactly when it is in 1..n and the first box carrying it
      sits at position id - 1, or it is outside 1..n and no box carries it;
      an id no box carries yet that lies in 1..n attaches to a box. */
  lemma RenumberingKeepsEndpoint(ids: seq<int>, id: int)
    ensures FirstIndexOf(OneTo(|ids|), id) == FirstIndexOf(ids, id) <==>
              if 1 <= id <= |ids| then FirstIndexOf(ids, id) == Some(id - 1) else id !in ids
  {
    FirstIndexOfOneTo(|ids|, id);
  }

  /** Two nodes with ids 2 and 3 and a link between them: before a save the
      link joins the first and the second box; after it, its start is the
      second box and its end is missing. */
  lemma RenumberingBreaksLink()
    ensures FirstIndexOf([2, 3], 2) == Some(0) && FirstIndexOf([2, 3], 3) == Some(1)
    ensures FirstIndexOf(OneTo(2), 2) == Some(1) && FirstIndexOf(OneTo(2), 3).None?
  {
    RenumberingKeepsEndpoint([2, 3], 2);
    RenumberingKeepsEndpoint([2, 3], 3);
  }

  /** What a save writes for the links: each row takes the ids of the link's
      two endpoint boxes, as the link keeps them in step. */
  lemma SavedLinksFollowEndpoints(db: Database, recs: seq<NodeRecord>, links: seq<LinkViewModel>, ps: seq<PropertyItem>)
    requires SaveTransaction(db, recs, LinkDatas(links), ps).Ok?
    requires forall j :: 0 <= j < |links| ==> links[j].startNode != null && links[j].endNode != null && links[j].InStep()
    ensures |SaveTransaction(db, recs, LinkDatas(links), ps).value.links| == |links|
    ensures forall j :: 0 <= j < |links| ==>
              SaveTransaction(db, recs, LinkDatas(links), ps).value.links[j].idNodeSrc == links[j].startNode.nodeData.idNode &&
              SaveTransaction(db, recs, LinkDatas(links), ps).value.links[j].idNodeTgt == links[j].endNode.nodeData.idNode
  {
    SavedLinks(db, recs, LinkDatas(links), ps);
  }

  /** The round trip of a graph whose node ids are already 1..n in
      collection order: a link between the boxes at positions p and q comes
      back between the reloaded boxes at p and q. */
  lemma CanonicalGraphSurvives(db: Database, nodes: seq<NodeViewModel>, links: seq<LinkViewModel>, ps: seq<PropertyItem>,
                               boxes: seq<NodeViewModel>, now: Timestamp, j: int, p: int, q: int)
    requires NodeIds(nodes) == OneTo(|nodes|) && |boxes| == |nodes|
    requires SaveTransaction(db, Records(nodes), LinkDatas(links), ps).Ok?
    requires 0 <= j < |links| && 0 <= p < |nodes| && 0 <= q < |nodes|
    requires links[j].startNode == nodes[p] && links[j].endNode == nodes[q] && links[j].InStep()
    ensures var d := SaveTransaction(db, Records(nodes), LinkDatas(links), ps).value;
            j < |d.links| &&
            Reloaded(boxes, RowIds(d.nodes), d.links[j], now).start == boxes[p] &&
            Reloaded(boxes, RowIds(d.nodes), d.links[j], now).end == boxes[q]
  {
    InStepEndpointIds(nodes, links, j, p, q);
    SavedLinkResolves(db, Records(nodes), LinkDatas(links), ps, boxes, now, j);
  }

  /** Over node ids 1..n in collection order, a link kept in step with the
      boxes at positions p and q names the ids p + 1 and q + 1. */
  lemma InStepEndpointIds(nodes: seq<NodeViewModel>, links: seq<LinkViewModel>, j: int, p: int, q: int)
    requires NodeIds(nodes) == OneTo(|nodes|)
    requires 0 <= j < |links| && 0 <= p < |nodes| && 0 <= q < |nodes|
    requires links[j].startNode == nodes[p] && links[j].endNode == nodes[q] && links[j].InStep()
    ensures LinkDatas(links)[j].idNodeSrc == p + 1 && LinkDatas(links)[j].idNodeTgt == q + 1
  {
    assert NodeIds(nodes)[p] == OneTo(|nodes|)[p];
    assert NodeIds(nodes)[q] == OneTo(|nodes|)[q];
  }
}
