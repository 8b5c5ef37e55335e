/** `MainWindowViewModel`: the graph session of the main window. It owns the
    node and link collections, the pending start of a link being drawn, the
    single selection, the window title, and the store behind them. Canvas
    geometry, dialogs and message boxes are not part of it: what a dialog
    returns is a parameter, `None` when it is cancelled. */
module Session {
  import opened Basics
  import opened Entities
  import opened Tables
  import opened ViewModels
  import opened Store
  import opened Paths

  /** The name `NewProject` gives the metadata. */
  const UntitledName: string := "[제목 없음]"

  /** The title of the window while no project is open. */
  const AppTitle: string := "NodeFlow"

  /** What every title of an open project starts with. */
  const TitlePrefix: string := "NodeFlow - "

  /** `string.IsNullOrEmpty` on a file path: the project has no file yet. */
  predicate Unsaved(path: Option<string>)
  {
    path.None? || path.value == ""
  }

  /** A name as string interpolation writes it: `null` becomes empty. */
  function NameText(name: Option<string>): string
  {
    if name.Some? then name.value else ""
  }

  /** `UpdateWindowTitle`: the bare application name while no project is
      open; otherwise the project name after the prefix, followed by '*'
      while the project has no file. */
  function WindowTitleFor(isOpen: bool, path: Option<string>, name: Option<string>): (r: string)
    ensures !isOpen ==> r == AppTitle
    ensures isOpen ==> |r| >= |TitlePrefix| && r[..|TitlePrefix|] == TitlePrefix
    ensures isOpen && Unsaved(path) ==> r[|r| - 1] == '*' && r[|TitlePrefix|..|r| - 1] == NameText(name)
    ensures isOpen && !Unsaved(path) ==> r[|TitlePrefix|..] == NameText(name)
  {
    if !isOpen then AppTitle
    else TitlePrefix + NameText(name) + (if Unsaved(path) then "*" else "")
  }

  /** The title tells an open project from none, and a project with a file
      from one without, whatever the project is called. */
  lemma TitleTellsStates(path: Option<string>, other: Option<string>, name: Option<string>)
    requires Unsaved(path) && !Unsaved(other)
    ensures WindowTitleFor(true, path, name) != AppTitle
    ensures WindowTitleFor(true, path, name) != WindowTitleFor(true, other, name)
  {
    assert |WindowTitleFor(true, path, name)| == |WindowTitleFor(true, other, name)| + 1;
  }

  /** The two endpoints of a link, as references. */
  datatype Edge = Edge(src: NodeViewModel?, tgt: NodeViewModel?)

  /** The link condition of `ConnectNodes`: the edge joins `a` and `b` in
      either direction. */
  predicate Joins(e: Edge, a: NodeViewModel?, b: NodeViewModel?)
  {
    (e.src == a && e.tgt == b) || (e.src == b && e.tgt == a)
  }

  /** Some edge joins `a` and `b` (the `FirstOrDefault` finds a link). */
  predicate JoinedIn(edges: seq<Edge>, a: NodeViewModel?, b: NodeViewModel?)
  {
    exists i :: 0 <= i < |edges| && Joins(edges[i], a, b)
  }

  /** No edge starts and ends at the same node. */
  predicate NoSelfLoops(edges: seq<Edge>)
  {
    forall i :: 0 <= i < |edges| && edges[i].src != null ==> edges[i].src != edges[i].tgt
  }

  /** No two edges join the same pair of nodes, in either direction. */
  predicate NoDuplicateEdges(edges: seq<Edge>)
  {
    forall i, j :: 0 <= i < j < |edges| ==> !Joins(edges[j], edges[i].src, edges[i].tgt)
  }

  /** Adding an edge between two different nodes that no edge joins yet keeps
      a graph free of self-loops and duplicate edges. */
  lemma ConnectKeepsGraphSimple(edges: seq<Edge>, a: NodeViewModel, b: NodeViewModel)
    requires a != b && !JoinedIn(edges, a, b)
    ensures NoSelfLoops(edges) ==> NoSelfLoops(edges + [Edge(a, b)])
    ensures NoDuplicateEdges(edges) ==> NoDuplicateEdges(edges + [Edge(a, b)])
  {
    var e := edges + [Edge(a, b)];
    if NoDuplicateEdges(edges) {
      forall i, j | 0 <= i < j < |e| ensures !Joins(e[j], e[i].src, e[i].tgt) {
        if j == |edges| {
          assert !Joins(edges[i], a, b);
        } else {
          assert e[i] == edges[i] && e[j] == edges[j];
        }
      }
    }
  }

  /** The links of a collection, as a set. */
  function LinkSet(ls: seq<LinkViewModel>): set<LinkViewModel>
  {
    set l | l in ls
  }

  /** The endpoints of each link, in order. */
  function EdgesOf(ls: seq<LinkViewModel>): (r: seq<Edge>)
    reads LinkSet(ls)`startNode, LinkSet(ls)`endNode
    ensures |r| == |ls| && forall i :: 0 <= i < |ls| ==> r[i] == Edge(ls[i].startNode, ls[i].endNode)
  {
    if ls == [] then [] else [Edge(ls[0].startNode, ls[0].endNode)] + EdgesOf(ls[1..])
  }

  /** The node boxes of a collection, as a set. */
  function NodeSet(ns: seq<NodeViewModel>): set<NodeViewModel>
  {
    set n | n in ns
  }

  /** Exactly the selected node of the collection, if it is one, shows as
      selected; and the selected node, wherever it is, does. */
  ghost predicate SingleSelection(ns: seq<NodeViewModel>, selected: NodeViewModel?)
    reads NodeSet(ns)`isSelected, Endpoints(selected, null)`isSelected
  {
    (forall i :: 0 <= i < |ns| ==> (ns[i].isSelected <==> ns[i] == selected)) &&
    (selected != null ==> selected.isSelected)
  }

  /** With no node twice in the collection, at most one of them shows as
      selected. */
  lemma {:induction false} AtMostOneSelected(ns: seq<NodeViewModel>, selected: NodeViewModel?, i: int, j: int)
    requires Distinct(ns) && SingleSelection(ns, selected)
    requires 0 <= i < |ns| && 0 <= j < |ns| && ns[i].isSelected && ns[j].isSelected
    ensures i == j
  {
    assert ns[i] == selected && ns[j] == selected;
  }

  /** `NodeProcessTypes.FirstOrDefault(t => t.ID == id)`. */
  function FindType(types: seq<NodeProcessType>, id: int): (r: Option<NodeProcessType>)
    ensures r.None? <==> forall i :: 0 <= i < |types| ==> types[i].id != id
    ensures r.Some? ==> r.value in types && r.value.id == id
    ensures r.Some? ==> exists k :: 0 <= k < |types| && types[k] == r.value &&
                                    forall i :: 0 <= i < k ==> types[i].id != id
  {
    if types == [] then None
    else if types[0].id == id then Some(types[0])
    else
      var r := FindType(types[1..], id);
      if r.Some? then
        var k :| 0 <= k < |types[1..]| && types[1..][k] == r.value &&
                 forall i :: 0 <= i < k ==> types[1..][i].id != id;
        assert types[k + 1] == r.value;
        assert forall i :: 0 <= i < k + 1 ==> types[i].id != id by {
          forall i | 0 <= i < k + 1 ensures types[i].id != id {
            if i > 0 { assert types[i] == types[1..][i - 1]; }
          }
        }
        r
      else
        r
  }

  /** The six workflow states are found by their ids, 1 to 6, and no other
      id finds one. */
  lemma ProcessTypeById(id: int)
    ensures FindType(ProcessTypes, id) == if 1 <= id <= 6 then Some(ProcessTypes[id - 1]) else None
  {
    var ts := ProcessTypes;
    assert ts[1..][1..][1..][1..][1..][1..] == [];
  }

  /** A loaded node as the rebuild in `LoadProject` leaves it: the default
      size, and the colour of the workflow state its type id names, if any. */
  function Displayed(s: NodeState): NodeState
  {
    var t := FindType(ProcessTypes, s.idType);
    s.(width := DefaultNodeWidth, height := DefaultNodeHeight,
       nodeColor := if t.Some? then TypeColor(t.value) else s.nodeColor)
  }

  /** A stored row on the canvas after loading: a workflow state's id paints
      it in that state's colour, yet its process type stays the unknown
      record; type 0 leaves it in the default colour and any other id gray. */
  lemma LoadedNodeOnCanvas(row: NodeRow)
    ensures Displayed(LoadedNodeState(row)).width == DefaultNodeWidth
    ensures Displayed(LoadedNodeState(row)).height == DefaultNodeHeight
    ensures 1 <= row.data.idType <= 6 ==>
              Displayed(LoadedNodeState(row)).nodeColor == TypeColor(ProcessTypes[row.data.idType - 1]) &&
              Displayed(LoadedNodeState(row)).processType == Some(UnknownType)
    ensures row.data.idType == 0 ==>
              Displayed(LoadedNodeState(row)).nodeColor == DefaultColor && Displayed(LoadedNodeState(row)).processType.None?
    ensures row.data.idType != 0 && !(1 <= row.data.idType <= 6) ==>
              Displayed(LoadedNodeState(row)).nodeColor == Gray &&
              Displayed(LoadedNodeState(row)).processType == Some(UnknownType)
  {
    ProcessTypeById(row.data.idType);
  }

  /** `Nodes.FirstOrDefault(n => n.NodeData.ID_NODE == id)`. */
  function FindNode(ns: seq<NodeViewModel>, id: int): (r: NodeViewModel?)
    reads NodeModels(ns)
    ensures FirstIndexOf(NodeIds(ns), id).None? ==> r == null
    ensures FirstIndexOf(NodeIds(ns), id).Some? ==> r == ns[FirstIndexOf(NodeIds(ns), id).value]
  {
    if ns == [] then null
    else if ns[0].nodeData.idNode == id then ns[0]
    else
      assert NodeIds(ns)[1..] == NodeIds(ns[1..]);
      FindNode(ns[1..], id)
  }

  /** The node models at the ends of some edges. */
  function EdgeModels(edges: seq<Edge>): set<NodeModel>
  {
    (set i | 0 <= i < |edges| && edges[i].src != null :: edges[i].src.nodeData) +
    (set i | 0 <= i < |edges| && edges[i].tgt != null :: edges[i].tgt.nodeData)
  }

  /** The link filter of `RemoveNode` and `DeleteLinksForSelectedNode`
      dereferences the start of every link, and the end of every link that
      does not start at the node: it gets through the collection only when
      none of those is null. */
  predicate ScanSafe(edges: seq<Edge>, id: int)
    reads EdgeModels(edges)
  {
    forall i :: 0 <= i < |edges| ==>
      edges[i].src != null && (edges[i].src.nodeData.idNode == id || edges[i].tgt != null)
  }

  /** One turn of the removal loop: removing the next listed link from what
      the earlier turns left leaves the collection without one more link. */
  lemma RemoveNextLink(original: seq<LinkViewModel>, toRemove: seq<LinkViewModel>, i: int)
    requires Distinct(original) && 0 <= i < |toRemove|
    ensures RemoveFirst(Without(original, LinkSet(toRemove[..i])), toRemove[i]) ==
            Without(original, LinkSet(toRemove[..i + 1]))
  {
    RemoveFirstWithout(original, LinkSet(toRemove[..i]), toRemove[i]);
    assert LinkSet(toRemove[..i + 1]) == LinkSet(toRemove[..i]) + {toRemove[i]};
  }

  /** The filter itself: the link starts or ends at a node with the id. On
      the links `ScanSafe` admits it reads no null endpoint. */
  predicate EndsAt(e: Edge, id: int)
    reads Models(e.src, e.tgt)
  {
    (e.src != null && e.src.nodeData.idNode == id) || (e.tgt != null && e.tgt.nodeData.idNode == id)
  }

  /** `Where(...).ToList()`: the links that touch the node, in order. */
  function TouchingLinks(ls: seq<LinkViewModel>, edges: seq<Edge>, id: int): (r: seq<LinkViewModel>)
    requires |ls| == |edges| && ScanSafe(edges, id)
    reads EdgeModels(edges)
    ensures forall x :: x in r ==> x in ls
    ensures forall i :: 0 <= i < |ls| && EndsAt(edges[i], id) ==> ls[i] in r
  {
    if ls == [] then []
    else
      assert forall i :: 0 <= i < |edges| - 1 ==> edges[1..][i] == edges[i + 1];
      (if EndsAt(edges[0], id) then [ls[0]] else []) + TouchingLinks(ls[1..], edges[1..], id)
  }

  /** With no link twice in the collection, a link is among the touching
      ones exactly when it touches the node. */
  lemma {:induction false} TouchingExactly(ls: seq<LinkViewModel>, edges: seq<Edge>, id: int)
    requires |ls| == |edges| && ScanSafe(edges, id) && Distinct(ls)
    ensures forall i :: 0 <= i < |ls| ==> (ls[i] in TouchingLinks(ls, edges, id) <==> EndsAt(edges[i], id))
  {
    if ls != [] {
      DistinctTail(ls);
      assert forall i :: 0 <= i < |edges| - 1 ==> edges[1..][i] == edges[i + 1];
      TouchingExactly(ls[1..], edges[1..], id);
      forall i | 0 <= i < |ls| ensures ls[i] in TouchingLinks(ls, edges, id) <==> EndsAt(edges[i], id) {
        if i > 0 {
          assert ls[i] == ls[1..][i - 1] && ls[i] != ls[0];
        }
      }
    }
  }

  /** What the removal leaves: a link stays exactly when it does not touch
      the node, and the order of the survivors is kept. */
  lemma RemainingLinks(ls: seq<LinkViewModel>, edges: seq<Edge>, id: int)
    requires |ls| == |edges| && ScanSafe(edges, id) && Distinct(ls)
    ensures forall i :: 0 <= i < |ls| ==>
              (ls[i] in Without(ls, LinkSet(TouchingLinks(ls, edges, id))) <==> !EndsAt(edges[i], id))
  {
    TouchingExactly(ls, edges, id);
  }

  /** No link the removal leaves has a box with the removed id at either
      end; in particular, none has the removed box. */
  lemma RemovedBoxUnlinked(ls: seq<LinkViewModel>, edges: seq<Edge>, id: int, box: NodeViewModel)
    requires |ls| == |edges| && ScanSafe(edges, id) && Distinct(ls) && box.nodeData.idNode == id
    ensures forall i :: 0 <= i < |ls| && ls[i] in Without(ls, LinkSet(TouchingLinks(ls, edges, id))) ==>
              edges[i].src != box && edges[i].tgt != box
  {
    RemainingLinks(ls, edges, id);
  }

  /** The file `SaveProject` writes: the window's own, or, while the
      project has none, the one the save dialog returned. */
  function SaveTarget(current: Option<string>, chosen: Option<string>): (r: Option<string>)
    ensures !Unsaved(current) ==> r == current
    ensures Unsaved(current) ==> r == chosen
  {
    if Unsaved(current) then chosen else current
  }

  /** After a save to `name.nf` in any folder, the title shows the bare
      name, without the '*' of a project that has no file. */
  lemma SavedTitle(dir: string, name: string)
    requires forall i :: 0 <= i < |name| ==> !IsSeparator(name[i]) && name[i] != '.'
    ensures WindowTitleFor(true, Some(dir + "\\" + name + ".nf"), Some(FileStem(dir + "\\" + name + ".nf"))) ==
              TitlePrefix + name
  {
    FileStemOfProjectFile(dir, name);
  }

  /** The node loop of `LoadProject`: a node box per loaded node, given the
      default size and, when its type id names a workflow state, that
      state's colour. */
  method BuildNodes(loaded: seq<NodeModel>) returns (boxes: seq<NodeViewModel>)
    requires Distinct(loaded)
    modifies set m | m in loaded
    ensures |boxes| == |loaded| && Distinct(boxes)
    ensures forall i :: 0 <= i < |loaded| ==>
              fresh(boxes[i]) && boxes[i].nodeData == loaded[i] && !boxes[i].isSelected &&
              boxes[i].listeners == multiset{}
    ensures forall i :: 0 <= i < |loaded| ==> loaded[i].State() == Displayed(old(loaded[i].State()))
  {
    boxes := [];
    var i := 0;
    while i < |loaded|
      invariant 0 <= i <= |loaded| && |boxes| == i && Distinct(boxes)
      invariant forall k :: 0 <= k < i ==>
                  fresh(boxes[k]) && boxes[k].nodeData == loaded[k] && !boxes[k].isSelected &&
                  boxes[k].listeners == multiset{}
      invariant forall k :: 0 <= k < i ==> loaded[k].State() == Displayed(old(loaded[k].State()))
      invariant forall k :: i <= k < |loaded| ==> loaded[k].State() == old(loaded[k].State())
    {
      var box := BoxFor(loaded[i]);
      boxes := boxes + [box];
      i := i + 1;
    }
  }

  /** One turn of the node loop of `LoadProject`: a new box around `model`,
      which takes the default size and, when its type id names a workflow
      state, that state's colour. */
  method BoxFor(model: NodeModel) returns (box: NodeViewModel)
    modifies model
    ensures fresh(box) && box.nodeData == model && !box.isSelected && box.listeners == multiset{}
    ensures model.State() == Displayed(old(model.State()))
  {
    box := new NodeViewModel(model);
    box.SetWidth(DefaultNodeWidth);
    box.SetHeight(DefaultNodeHeight);
    var t := FindType(ProcessTypes, model.idType);
    if t.Some? {
      model.SetNodeColor(TypeColor(t.value));
    }
  }

  /** The link data a reloaded link holds: a new one, which takes the ids of
      its endpoints only when both were found. */
  function ReloadedLinkData(stored: LinkModel, bothFound: bool, now: Timestamp): LinkModel
  {
    if bothFound then NewLinkModel(now).(idNodeSrc := stored.idNodeSrc, idNodeTgt := stored.idNodeTgt)
    else NewLinkModel(now)
  }

  /** The node box at a position found by a lookup, or null when the lookup
      found nothing. */
  function NodeAt(ns: seq<NodeViewModel>, at: Option<nat>): NodeViewModel?
  {
    if at.Some? && at.value < |ns| then ns[at.value] else null
  }

  /** The node box the first of `ids` equal to `id` stands for. */
  function Resolve(ns: seq<NodeViewModel>, ids: seq<int>, id: int): NodeViewModel?
  {
    NodeAt(ns, FirstIndexOf(ids, id))
  }

  /** One turn of the link loop of `LoadProject`: both endpoints looked up
      by id, and a new link between them. */
  method ReloadLink(ns: seq<NodeViewModel>, ghost ids: seq<int>, stored: LinkModel, now: Timestamp)
    returns (link: LinkViewModel)
    requires NodeIds(ns) == ids
    modifies NodeSet(ns)`listeners
    ensures fresh(link) && NodeIds(ns) == ids
    ensures ViewOf(link) == Reloaded(ns, ids, stored, now)
  {
    var start := FindNode(ns, stored.idNodeSrc);
    var end := FindNode(ns, stored.idNodeTgt);
    link := new LinkViewModel(start, end, now);
  }

  /** What a link shows: its two endpoints and its link data. */
  datatype LinkView = LinkView(start: NodeViewModel?, end: NodeViewModel?, data: LinkModel)

  function ViewOf(l: LinkViewModel): LinkView
    reads l`startNode, l`endNode, l`linkData
  {
    LinkView(l.startNode, l.endNode, l.linkData)
  }

  /** A link as the link loop of `LoadProject` leaves it for one stored
      link: between the first node boxes carrying the stored endpoint ids, or
      null where none does, with a new link data that keeps those ids only
      when both endpoints were found. */
  function Reloaded(ns: seq<NodeViewModel>, ids: seq<int>, stored: LinkModel, now: Timestamp): LinkView
  {
    var start := Resolve(ns, ids, stored.idNodeSrc);
    var end := Resolve(ns, ids, stored.idNodeTgt);
    LinkView(start, end, ReloadedLinkData(stored, start != null && end != null, now))
  }

  /** The link loop of `LoadProject`: a new link per stored link, in order. */
  method BuildLinks(ns: seq<NodeViewModel>, ghost ids: seq<int>, stored: seq<LinkModel>, now: Timestamp) returns (ls: seq<LinkViewModel>)
    requires NodeIds(ns) == ids
    modifies NodeSet(ns)`listeners
    ensures |ls| == |stored| && Distinct(ls)
    ensures forall j :: 0 <= j < |stored| ==> fresh(ls[j])
    ensures forall j :: 0 <= j < |stored| ==>
              ViewOf(ls[j]) == Reloaded(ns, ids, stored[j], now)
  {
    ls := [];
    var j := 0;
    while j < |stored|
      invariant 0 <= j <= |stored| && |ls| == j && Distinct(ls)
      invariant NodeIds(ns) == ids
      invariant forall k :: 0 <= k < j ==> fresh(ls[k])
      invariant forall k :: 0 <= k < j ==>
                  ViewOf(ls[k]) == Reloaded(ns, ids, stored[k], now)
    {
      ls := ReloadNext(ns, ids, stored, ls, now);
      j := j + 1;
    }
  }

  /** A turn of the link loop on the links built so far: one more link, for
      the next stored link, at the end. */
  method ReloadNext(ns: seq<NodeViewModel>, ghost ids: seq<int>, stored: seq<LinkModel>, ls: seq<LinkViewModel>,
                    now: Timestamp) returns (grown: seq<LinkViewModel>)
    requires NodeIds(ns) == ids && |ls| < |stored|
    modifies NodeSet(ns)`listeners
    ensures NodeIds(ns) == ids
    ensures |grown| == |ls| + 1 && grown[..|ls|] == ls && fresh(grown[|ls|])
    ensures ViewOf(grown[|ls|]) == Reloaded(ns, ids, stored[|ls|], now)
    ensures forall k :: 0 <= k < |ls| ==> ViewOf(ls[k]) == old(ViewOf(ls[k]))
  {
    var link := ReloadLink(ns, ids, stored[|ls|], now);
    grown := ls + [link];
  }

  /** Why a command stopped: the link filter met a null endpoint, or the store
      failed. */
  datatype Fault = NullEndpoint | StoreFailed(error: StoreError)

  /** What the add-node dialog hands back: the fields the initializer copies. */
  datatype NodeDraft = NodeDraft(
    title: Option<string>,
    processType: Option<NodeProcessType>,
    idType: int,
    assignee: Option<string>,
    dateStart: Option<Timestamp>,
    dateEnd: Option<Timestamp>,
    idNode: int,
    nodeColor: Color)

  /** The node the initializer of `AddNodeAtPosition` builds at (x, y). The
      setters run in the initializer's order, so a non-zero type id replaces
      the chosen process type by the unknown record, while the colour set
      after it is the draft's. */
  function DraftState(d: NodeDraft, x: Coord, y: Coord): NodeState
  {
    FreshNodeState.(
      nodeTitle := d.title, idType := d.idType,
      processType := if d.idType != 0 then Some(UnknownType) else d.processType,
      assignee := d.assignee, dateStart := d.dateStart, dateEnd := d.dateEnd, idNode := d.idNode,
      nodeColor := d.nodeColor, xPosition := x, yPosition := y,
      width := DefaultNodeWidth, height := DefaultNodeHeight)
  }

  /** The object initializer of `AddNodeAtPosition`. */
  method NodeFromDraft(d: NodeDraft, x: Coord, y: Coord) returns (node: NodeModel)
    ensures fresh(node) && node.State() == DraftState(d, x, y)
  {
    node := new NodeModel();
    node.SetNodeTitle(d.title);
    node.SetProcessType(d.processType);
    node.SetIdType(d.idType);
    node.SetAssignee(d.assignee);
    node.SetDateStart(d.dateStart);
    node.SetDateEnd(d.dateEnd);
    node.SetIdNode(d.idNode);
    node.SetNodeColor(d.nodeColor);
    node.SetXPosition(x);
    node.SetYPosition(y);
    node.SetWidth(DefaultNodeWidth);
    node.SetHeight(DefaultNodeHeight);
  }

  /** The node boxes and links show the store's tables: one box per node
      row in its displayed state, and one link per link row, resolved
      against the rows' ids. */
  ghost predicate ShowsTables(nodes: seq<NodeViewModel>, links: seq<LinkViewModel>, db: DBManager, now: Timestamp)
    reads db, NodeModels(nodes), LinkSet(links)`startNode, LinkSet(links)`endNode, LinkSet(links)`linkData
  {
    |nodes| == |db.StoredNodes()| &&
    (forall i :: 0 <= i < |nodes| ==> nodes[i].nodeData.State() == Displayed(LoadedNodeState(db.StoredNodes()[i]))) &&
    |links| == |db.StoredLinks()| &&
    forall j :: 0 <= j < |links| ==>
      ViewOf(links[j]) == Reloaded(nodes, RowIds(db.StoredNodes()), db.StoredLinks()[j], now)
  }

  /** The main window's view model. */
  class MainWindowViewModel {
    const db: DBManager
    var nodes: seq<NodeViewModel>
    var links: seq<LinkViewModel>
    var properties: seq<PropertyItem>
    var selectedNode: NodeViewModel?
    var startLinkNode: NodeViewModel?
    var isProjectOpen: bool
    var isNodeSelected: bool
    var isDirty: bool
    var windowTitle: string
    var currentFilePath: Option<string>
    var projectMetadata: ProjectMetadata

    /** The store keeps its invariant, no node box or link is in its
        collection twice, and selection is single. */
    ghost predicate Valid()
      reads this`nodes, this`links, this`selectedNode, db, NodeSet(nodes)`isSelected, Endpoints(selectedNode, null)`isSelected
    {
      db.Valid() && Distinct(nodes) && Distinct(links) && SingleSelection(nodes, selectedNode)
    }

    /** Empty collections over a new store, no project open, and the title of
        the bare application. */
    constructor (files: map<string, ProjectFile>, now: Timestamp)
      requires DiskConsistent(files)
      ensures Valid() && fresh(db)
      ensures nodes == [] && links == [] && properties == []
      ensures selectedNode == null && startLinkNode == null
      ensures !isProjectOpen && !isNodeSelected && !isDirty
      ensures windowTitle == AppTitle && currentFilePath.None?
      ensures projectMetadata == db.projectMetadata == DefaultMetadata(now)
      ensures db.disk == files && db.database.None?
    {
      db := new DBManager(files, now);
      nodes, links, properties := [], [], [];
      selectedNode, startLinkNode := null, null;
      isProjectOpen, isNodeSelected, isDirty := false, false, false;
      windowTitle := "";
      currentFilePath := None;
      new;
      projectMetadata := db.projectMetadata;
      UpdateWindowTitle();
    }

    /** `UpdateWindowTitle`. */
    method UpdateWindowTitle()
      modifies this`windowTitle
      ensures windowTitle == WindowTitleFor(isProjectOpen, currentFilePath, projectMetadata.projectName)
    {
      var name := NameText(projectMetadata.projectName);
      if !isProjectOpen {
        windowTitle := AppTitle;
        return;
      }
      if !Unsaved(currentFilePath) {
        windowTitle := TitlePrefix + name;
      } else {
        windowTitle := TitlePrefix + name + "*";
      }
    }

    /** The `SelectedNode` setter: on a change, the previous node is shown as
        not selected and the new one as selected. */
    method SetSelectedNode(value: NodeViewModel?)
      requires Valid()
      modifies this`selectedNode, Endpoints(selectedNode, value)`isSelected
      ensures Valid()
      ensures selectedNode == value
      ensures value != null ==> value.isSelected
      ensures old(selectedNode) != null && old(selectedNode) != value ==> !old(selectedNode).isSelected
    {
      if selectedNode != value {
        if selectedNode != null {
          selectedNode.SetIsSelected(false);
        }
        selectedNode := value;
        if selectedNode != null {
          selectedNode.SetIsSelected(true);
        }
      }
    }

    /** `SelectNode`, the action a node box runs when it is clicked. */
    method SelectNode(node: NodeViewModel?)
      requires Valid()
      modifies this`selectedNode, this`isNodeSelected, Endpoints(selectedNode, node)`isSelected
      ensures Valid()
      ensures selectedNode == node && (isNodeSelected <==> node != null)
      ensures node != null ==> node.isSelected
      ensures old(selectedNode) != null && old(selectedNode) != node ==> !old(selectedNode).isSelected
    {
      SetSelectedNode(node);
      isNodeSelected := node != null;
    }

    /** `Links.Add(new LinkViewModel(start, end))`. */
    method AddLinkBetween(start: NodeViewModel, end: NodeViewModel, now: Timestamp)
      requires Valid()
      modifies this`links, Endpoints(start, end)`listeners
      ensures Valid()
      ensures |links| == |old(links)| + 1 && links[..|old(links)|] == old(links) && fresh(links[|old(links)|])
      ensures links[|old(links)|].linkData == WithEnds(NewLinkModel(now), start, end)
      ensures EdgesOf(links) == old(EdgesOf(links)) + [Edge(start, end)]
    {
      ghost var edges := EdgesOf(links);
      var link := new LinkViewModel(start, end, now);
      links := links + [link];
      assert EdgesOf(links) == edges + [Edge(start, end)];
    }

    /** The new-link half of `ConnectNodes`: a link from the pending start
        to `end` is appended to the collection, a link data with their ids is
        inserted in the store, and only then is the pending start cleared. */
    method AppendLink(end: NodeViewModel, now: Timestamp) returns (r: Outcome<StoreError>)
      requires Valid() && startLinkNode != null
      modifies this`links, this`startLinkNode, db`database, Endpoints(startLinkNode, end)`listeners
      ensures Valid()
      ensures |links| == |old(links)| + 1 && links[..|old(links)|] == old(links) && fresh(links[|old(links)|])
      ensures links[|old(links)|].linkData == WithEnds(NewLinkModel(now), old(startLinkNode), end)
      ensures EdgesOf(links) == old(EdgesOf(links)) + [Edge(old(startLinkNode), end)]
      ensures old(db.database).Some? ==>
                r.Pass? && startLinkNode == null &&
                db.database == Some(InsertLink(old(db.database).value, links[|old(links)|].linkData))
      ensures old(db.database).None? ==> r.Fail? && startLinkNode == old(startLinkNode) && db.database.None?
    {
      var start := startLinkNode;
      AddLinkBetween(start, end, now);
      ghost var grown := EdgesOf(links);
      var newLink := NewLinkModel(now).(idNodeSrc := start.nodeData.idNode, idNodeTgt := end.nodeData.idNode);
      r := StoreLink(newLink);
      assert EdgesOf(links) == grown;
    }

    /** `_dbManager.AddLink(newLink)` followed by clearing the pending start,
        which a throwing store skips. */
    method StoreLink(link: LinkModel) returns (r: Outcome<StoreError>)
      requires Valid()
      modifies db`database, this`startLinkNode
      ensures Valid()
      ensures old(db.database).Some? ==>
                r.Pass? && startLinkNode == null && db.database == Some(InsertLink(old(db.database).value, link))
      ensures old(db.database).None? ==> r.Fail? && startLinkNode == old(startLinkNode) && db.database.None?
    {
      r := db.AddLink(link);
      if r.Pass? {
        startLinkNode := null;
      }
    }

    /** `ConnectNodes`, called once per clicked node. The first click keeps
        the node as the pending start; a click on the same node cancels; a
        click on another node adds a link from the start to it, unless a link
        already joins the two in either direction. The link is added to the
        collection before the store is asked to insert it, and a store
        without a database throws before the pending start is cleared. */
    method ConnectNodes(node: NodeViewModel?, now: Timestamp)
      requires Valid()
      modifies this`startLinkNode, this`links, db`database, Endpoints(startLinkNode, node)`listeners
      ensures Valid()
      ensures node == null ==> startLinkNode == old(startLinkNode) && links == old(links) && db.database == old(db.database)
      ensures node != null && old(startLinkNode) == null ==>
                startLinkNode == node && links == old(links) && db.database == old(db.database)
      ensures node != null && old(startLinkNode) == node ==>
                startLinkNode == null && links == old(links) && db.database == old(db.database)
      ensures node != null && old(startLinkNode) != null && old(startLinkNode) != node &&
              JoinedIn(old(EdgesOf(links)), old(startLinkNode), node) ==>
                startLinkNode == null && links == old(links) && db.database == old(db.database)
      ensures node != null && old(startLinkNode) != null && old(startLinkNode) != node &&
              !JoinedIn(old(EdgesOf(links)), old(startLinkNode), node) ==>
                |links| == |old(links)| + 1 && links[..|old(links)|] == old(links) && fresh(links[|old(links)|]) &&
                links[|old(links)|].startNode == old(startLinkNode) && links[|old(links)|].endNode == node &&
                links[|old(links)|].linkData == WithEnds(NewLinkModel(now), old(startLinkNode), node)
      ensures node != null && old(startLinkNode) != null && old(startLinkNode) != node &&
              !JoinedIn(old(EdgesOf(links)), old(startLinkNode), node) ==>
                (old(db.database).Some? ==>
                   startLinkNode == null && db.database == Some(InsertLink(old(db.database).value, links[|old(links)|].linkData))) &&
                (old(db.database).None? ==> startLinkNode == old(startLinkNode) && db.database.None?)
      ensures old(NoSelfLoops(EdgesOf(links))) ==> NoSelfLoops(EdgesOf(links))
      ensures old(NoDuplicateEdges(EdgesOf(links))) ==> NoDuplicateEdges(EdgesOf(links))
    {
      var edges := EdgesOf(links);
      if node == null {
        return;
      }
      if startLinkNode == null {
        startLinkNode := node;
        assert EdgesOf(links) == edges;
      } else if startLinkNode != node {
        ghost var after := edges;
        if !JoinedIn(edges, startLinkNode, node) {
          ConnectKeepsGraphSimple(edges, startLinkNode, node);
          after := edges + [Edge(startLinkNode, node)];
          var r := AppendLink(node, now);
          assert EdgesOf(links) == after;
        } else {
          startLinkNode := null;
          assert EdgesOf(links) == after;
        }
      } else {
        startLinkNode := null;
        assert EdgesOf(links) == edges;
      }
    }

    /** `NewProject`: the store starts an empty project, the node boxes are
        cleared (the links are not), and the project is open, without a file,
        under the untitled name. */
    method NewProject(now: Timestamp)
      requires Valid()
      modifies this`nodes, this`isProjectOpen, this`currentFilePath, this`projectMetadata, this`windowTitle, db
      ensures Valid()
      ensures db.dirExists && db.database == Some(EmptyDatabase) && db.projectFilePath.None?
      ensures db.projectMetadata == DefaultMetadata(now) && db.disk == old(db.disk)
      ensures nodes == [] && links == old(links)
      ensures isProjectOpen && currentFilePath.None?
      ensures projectMetadata == old(projectMetadata).(projectName := Some(UntitledName))
      ensures windowTitle == TitlePrefix + UntitledName + "*"
    {
      db.CreateNewProject(now);
      nodes := [];
      isProjectOpen := true;
      currentFilePath := None;
      projectMetadata := projectMetadata.(projectName := Some(UntitledName));
      UpdateWindowTitle();
    }

    /** The node loop of `LoadProject` on the store's node rows. */
    method LoadBoxes() returns (boxes: seq<NodeViewModel>)
      ensures Distinct(boxes)
      ensures forall i :: 0 <= i < |boxes| ==> fresh(boxes[i]) && fresh(boxes[i].nodeData) && !boxes[i].isSelected
      ensures |boxes| == |db.StoredNodes()|
      ensures forall i :: 0 <= i < |boxes| ==> boxes[i].nodeData.State() == Displayed(LoadedNodeState(db.StoredNodes()[i]))
    {
      var loaded := db.GetAllNodes();
      boxes := BuildNodes(loaded);
    }

    /** The link loop of `LoadProject` on the store's link rows. */
    method LoadLinks(boxes: seq<NodeViewModel>, ghost ids: seq<int>, now: Timestamp) returns (ls: seq<LinkViewModel>)
      requires NodeIds(boxes) == ids
      modifies NodeSet(boxes)`listeners
      ensures Distinct(ls) && forall j :: 0 <= j < |ls| ==> fresh(ls[j])
      ensures |ls| == |db.StoredLinks()|
      ensures forall j :: 0 <= j < |ls| ==>
                ViewOf(ls[j]) == Reloaded(boxes, ids, db.StoredLinks()[j], now)
    {
      var stored := db.GetAllLinks();
      ls := BuildLinks(boxes, ids, stored, now);
    }

    /** The two loops of `LoadProject`: node boxes rebuilt from the store's
        node rows, then links from its link rows. */
    method RebuildGraph(now: Timestamp)
      requires Valid()
      modifies this`nodes, this`links
      ensures Valid()
      ensures forall i :: 0 <= i < |nodes| ==> fresh(nodes[i]) && fresh(nodes[i].nodeData) && !nodes[i].isSelected
      ensures forall j :: 0 <= j < |links| ==> fresh(links[j])
      ensures ShowsTables(nodes, links, db, now)
    {
      var boxes, rebuilt := BuildGraph(now);
      nodes, links := boxes, rebuilt;
    }

    /** The node boxes and links of `RebuildGraph`, before the window takes
        them. */
    method BuildGraph(now: Timestamp) returns (boxes: seq<NodeViewModel>, rebuilt: seq<LinkViewModel>)
      requires db.Valid()
      ensures Distinct(boxes) && Distinct(rebuilt)
      ensures forall i :: 0 <= i < |boxes| ==> fresh(boxes[i]) && fresh(boxes[i].nodeData) && !boxes[i].isSelected
      ensures |boxes| == |db.StoredNodes()|
      ensures forall i :: 0 <= i < |boxes| ==> boxes[i].nodeData.State() == Displayed(LoadedNodeState(db.StoredNodes()[i]))
      ensures forall j :: 0 <= j < |rebuilt| ==> fresh(rebuilt[j])
      ensures |rebuilt| == |db.StoredLinks()|
      ensures forall j :: 0 <= j < |rebuilt| ==>
                ViewOf(rebuilt[j]) == Reloaded(boxes, RowIds(db.StoredNodes()), db.StoredLinks()[j], now)
    {
      boxes := LoadBoxes();
      ghost var rows := db.StoredNodes();
      assert NodeIds(boxes) == RowIds(rows);
      rebuilt := LoadLinks(boxes, RowIds(rows), now);
    }

    /** `LoadProject`, given the file the dialog returned (`None` when it
        was cancelled, which changes nothing). The path is taken, the store
        loads the file, the window takes the store's metadata, and the node
        boxes and links are rebuilt from the store's tables. The project is
        then open and clean; the selection, a pending link start, the property
        list and the IsNodeSelected flag are kept. */
    method LoadProject(chosen: Option<string>, now: Timestamp)
      requires Valid()
      modifies this`currentFilePath, this`projectMetadata, this`nodes, this`links, this`isDirty,
               this`isProjectOpen, this`windowTitle, db
      ensures Valid()
      ensures chosen.None? ==> unchanged(this) && unchanged(db)
      ensures chosen.Some? ==>
                currentFilePath == chosen && db.projectFilePath == chosen && db.disk == old(db.disk) &&
                Opened(db.dirExists, db.database, db.projectMetadata) ==
                  LoadFrom(if chosen.value in db.disk then Some(db.disk[chosen.value]) else None, old(db.projectMetadata), now)
      ensures chosen.Some? ==> projectMetadata == db.projectMetadata
      ensures chosen.Some? ==>
                forall i :: 0 <= i < |nodes| ==> fresh(nodes[i]) && fresh(nodes[i].nodeData) && !nodes[i].isSelected
      ensures chosen.Some? ==> |nodes| == |db.StoredNodes()|
      ensures chosen.Some? ==>
                forall i :: 0 <= i < |nodes| ==> nodes[i].nodeData.State() == Displayed(LoadedNodeState(db.StoredNodes()[i]))
      ensures chosen.Some? ==> forall j :: 0 <= j < |links| ==> fresh(links[j])
      ensures chosen.Some? ==> |links| == |db.StoredLinks()|
      ensures chosen.Some? ==>
                forall j :: 0 <= j < |links| ==>
                  ViewOf(links[j]) == Reloaded(nodes, RowIds(db.StoredNodes()), db.StoredLinks()[j], now)
      ensures chosen.Some? ==>
                !isDirty && isProjectOpen && windowTitle == WindowTitleFor(true, chosen, projectMetadata.projectName)
      ensures selectedNode == old(selectedNode) && startLinkNode == old(startLinkNode)
      ensures properties == old(properties) && isNodeSelected == old(isNodeSelected)
    {
      if chosen.None? {
        return;
      }
      OpenFile(chosen.value, now);
      Reopen(now);
    }

    /** The first steps of `LoadProject`: the path is taken, the store loads
        the file, and the window takes the store's metadata. */
    method OpenFile(path: string, now: Timestamp)
      requires Valid()
      modifies this`currentFilePath, this`projectMetadata, db
      ensures Valid()
      ensures currentFilePath == Some(path) && db.projectFilePath == Some(path) && db.disk == old(db.disk)
      ensures Opened(db.dirExists, db.database, db.projectMetadata) ==
                LoadFrom(if path in db.disk then Some(db.disk[path]) else None, old(db.projectMetadata), now)
      ensures projectMetadata == db.projectMetadata
    {
      currentFilePath := Some(path);
      db.LoadProject(path, now);
      projectMetadata := db.projectMetadata;
    }

    /** The last steps of `LoadProject`: the graph is rebuilt from the store's
        tables, and the project is open and clean. */
    method Reopen(now: Timestamp)
      requires Valid()
      modifies this`nodes, this`links, this`isDirty, this`isProjectOpen, this`windowTitle
      ensures Valid()
      ensures forall i :: 0 <= i < |nodes| ==> fresh(nodes[i]) && fresh(nodes[i].nodeData) && !nodes[i].isSelected
      ensures forall j :: 0 <= j < |links| ==> fresh(links[j])
      ensures ShowsTables(nodes, links, db, now)
      ensures !isDirty && isProjectOpen && windowTitle == WindowTitleFor(true, currentFilePath, projectMetadata.projectName)
    {
      RebuildGraph(now);
      MarkOpened(nodes, links, now);
    }

    /** The end of `LoadProject`: the project is open and clean, and the
        title says so. */
    method MarkOpened(ghost ns: seq<NodeViewModel>, ghost ls: seq<LinkViewModel>, ghost now: Timestamp)
      requires Valid()
      modifies this`isDirty, this`isProjectOpen, this`windowTitle
      ensures Valid()
      ensures old(ShowsTables(ns, ls, db, now)) ==> ShowsTables(ns, ls, db, now)
      ensures !isDirty && isProjectOpen
      ensures windowTitle == WindowTitleFor(true, currentFilePath, projectMetadata.projectName)
    {
      isDirty := false;
      isProjectOpen := true;
      UpdateWindowTitle();
    }

    /** `AddNodeAtPosition`, given what the add-node dialog returned (`None`
        when it was cancelled) and the already centred position. The store
        inserts the node and hands back the id, which the node takes before
        its box is appended; a store without a database throws before
        anything in the window changes. */
    method AddNodeAtPosition(draft: Option<NodeDraft>, x: Coord, y: Coord)
      requires Valid()
      modifies this`nodes, this`isDirty, db`database
      ensures Valid()
      ensures draft.None? || old(db.database).None? ==>
                nodes == old(nodes) && isDirty == old(isDirty) && db.database == old(db.database)
      ensures draft.Some? && old(db.database).Some? ==>
                |nodes| == |old(nodes)| + 1 && nodes[..|old(nodes)|] == old(nodes) && isDirty &&
                fresh(nodes[|old(nodes)|]) && fresh(nodes[|old(nodes)|].nodeData) && !nodes[|old(nodes)|].isSelected
      ensures draft.Some? && old(db.database).Some? ==>
                nodes[|old(nodes)|].nodeData.State() ==
                  DraftState(draft.value, x, y).(idNode := old(db.database).value.nodeSeq + 1) &&
                db.database == Some(InsertNode(old(db.database).value, nodes[|old(nodes)|].nodeData.Record()))
      ensures draft.Some? && old(db.database).Some? ==>
                forall i :: 0 <= i < |old(db.database).value.nodes| ==>
                  old(db.database).value.nodes[i].id < nodes[|old(nodes)|].nodeData.idNode
    {
      if draft.None? {
        return;
      }
      var model := NodeFromDraft(draft.value, x, y);
      var id := db.AddNode(model);
      if id.Err? {
        return;
      }
      model.SetIdNode(id.value);
      var box := new NodeViewModel(model);
      nodes := nodes + [box];
      isDirty := true;
    }

    /** `foreach (var link in linksToRemove) Links.Remove(link)`. */
    method RemoveLinks(toRemove: seq<LinkViewModel>)
      requires Valid()
      modifies this`links
      ensures Valid()
      ensures links == Without(old(links), LinkSet(toRemove))
    {
      ghost var original := links;
      WithoutNothing(links);
      assert LinkSet(toRemove[..0]) == {};
      var i := 0;
      while i < |toRemove|
        invariant 0 <= i <= |toRemove|
        invariant links == Without(original, LinkSet(toRemove[..i]))
      {
        RemoveNextLink(original, toRemove, i);
        links := RemoveFirst(links, toRemove[i]);
        i := i + 1;
      }
      assert toRemove[..|toRemove|] == toRemove;
      WithoutDistinct(original, LinkSet(toRemove));
    }

    /** `Nodes.Remove(SelectedNode)` followed by `SelectedNode = null`. */
    method DropSelectedBox()
      requires Valid() && selectedNode != null
      modifies this`nodes, this`selectedNode, Endpoints(selectedNode, null)`isSelected
      ensures Valid()
      ensures nodes == RemoveFirst(old(nodes), old(selectedNode)) && old(selectedNode) !in nodes
      ensures selectedNode == null && !old(selectedNode).isSelected
    {
      var selected := selectedNode;
      RemoveFirstDistinct(nodes, selected);
      nodes := RemoveFirst(nodes, selected);
      SetSelectedNode(null);
    }

    /** `_dbManager.DeleteLink(id)` followed by `_dbManager.DeleteNode(id)`:
        the link rows that touch the node go, then the node rows with its id;
        a store without a database throws at the first. */
    method DropRows(id: int) returns (r: Outcome<StoreError>)
      requires Valid()
      modifies db`database
      ensures Valid()
      ensures old(db.database).None? ==> r == Fail(NoDatabase) && db.database.None?
      ensures old(db.database).Some? ==>
                r.Pass? &&
                db.database == Some(old(db.database).value.(links := DeleteLinkRows(old(db.database).value.links, id),
                                                            nodes := DeleteNodeRows(old(db.database).value.nodes, id)))
    {
      r := db.DeleteLink(id);
      if r.Fail? {
        return;
      }
      r := db.DeleteNode(id);
    }

    /** The node-level end of `RemoveNode`, once its links are gone: the
        store drops the rows, and then the box leaves the collection, the
        selection is cleared and the project is dirty. */
    method DropSelected() returns (r: Outcome<StoreError>)
      requires Valid() && selectedNode != null
      modifies db`database, this`nodes, this`selectedNode, this`isDirty, Endpoints(selectedNode, null)`isSelected
      ensures Valid()
      ensures old(db.database).None? ==>
                r == Fail(NoDatabase) && db.database.None? &&
                nodes == old(nodes) && selectedNode == old(selectedNode) && isDirty == old(isDirty)
      ensures old(db.database).Some? ==>
                r.Pass? &&
                db.database == Some(old(db.database).value.(links := DeleteLinkRows(old(db.database).value.links, old(selectedNode).nodeData.idNode),
                                                            nodes := DeleteNodeRows(old(db.database).value.nodes, old(selectedNode).nodeData.idNode)))
      ensures old(db.database).Some? ==>
                nodes == RemoveFirst(old(nodes), old(selectedNode)) && old(selectedNode) !in nodes &&
                selectedNode == null && !old(selectedNode).isSelected && isDirty
    {
      r := DropRows(selectedNode.nodeData.idNode);
      if r.Fail? {
        return;
      }
      DropSelectedBox();
      isDirty := true;
    }

    /** `RemoveNode`. With a node selected, the links that start or end at
        a node with its id are found first, and the filter throws on a link
        without a start, or without an end when its start is another node;
        then they leave the collection, the store drops their rows and the
        node's, and the box leaves the collection and the selection. A store
        without a database throws after the links are gone. */
    method RemoveNode() returns (r: Outcome<Fault>)
      requires Valid()
      modifies this`links, db`database, this`nodes, this`selectedNode, this`isDirty, Endpoints(selectedNode, null)`isSelected
      ensures Valid()
      ensures old(selectedNode) == null ==>
                r.Pass? && links == old(links) && nodes == old(nodes) && db.database == old(db.database) &&
                selectedNode == null && isDirty == old(isDirty)
      ensures old(selectedNode) != null && !old(ScanSafe(EdgesOf(links), selectedNode.nodeData.idNode)) ==>
                r == Fail(NullEndpoint) && links == old(links) && nodes == old(nodes) &&
                db.database == old(db.database) && selectedNode == old(selectedNode) && isDirty == old(isDirty)
      ensures old(selectedNode) != null && old(ScanSafe(EdgesOf(links), selectedNode.nodeData.idNode)) ==>
                links == Without(old(links), LinkSet(old(TouchingLinks(links, EdgesOf(links), selectedNode.nodeData.idNode))))
      ensures old(selectedNode) != null && old(ScanSafe(EdgesOf(links), selectedNode.nodeData.idNode)) &&
              old(db.database).None? ==>
                r == Fail(StoreFailed(NoDatabase)) && db.database.None? &&
                nodes == old(nodes) && selectedNode == old(selectedNode) && isDirty == old(isDirty)
      ensures old(selectedNode) != null && old(ScanSafe(EdgesOf(links), selectedNode.nodeData.idNode)) &&
              old(db.database).Some? ==>
                r.Pass? &&
                db.database == Some(old(db.database).value.(links := DeleteLinkRows(old(db.database).value.links, old(selectedNode).nodeData.idNode),
                                                            nodes := DeleteNodeRows(old(db.database).value.nodes, old(selectedNode).nodeData.idNode))) &&
                nodes == RemoveFirst(old(nodes), old(selectedNode)) && old(selectedNode) !in nodes &&
                selectedNode == null && !old(selectedNode).isSelected && isDirty
    {
      if selectedNode == null {
        return Pass;
      }
      var id := selectedNode.nodeData.idNode;
      var edges := EdgesOf(links);
      if !ScanSafe(edges, id) {
        return Fail(NullEndpoint);
      }
      var toRemove := TouchingLinks(links, edges, id);
      RemoveLinks(toRemove);
      var s := DropSelected();
      r := if s.Fail? then Fail(StoreFailed(s.error)) else Pass;
    }

    /** `DeleteLinksForSelectedNode`. With a node selected, the links that
        touch it are found by the same throwing filter as in `RemoveNode`;
        the store drops their rows, and only then do they leave the
        collection and the project become dirty. A store without a database
        throws before the collection changes. */
    method DeleteLinksForSelectedNode() returns (r: Outcome<Fault>)
      requires Valid()
      modifies this`links, db`database, this`isDirty
      ensures Valid()
      ensures old(selectedNode) == null ==>
                r.Pass? && links == old(links) && db.database == old(db.database) && isDirty == old(isDirty)
      ensures old(selectedNode) != null && !old(ScanSafe(EdgesOf(links), selectedNode.nodeData.idNode)) ==>
                r == Fail(NullEndpoint) && links == old(links) && db.database == old(db.database) && isDirty == old(isDirty)
      ensures old(selectedNode) != null && old(ScanSafe(EdgesOf(links), selectedNode.nodeData.idNode)) &&
              old(db.database).None? ==>
                r == Fail(StoreFailed(NoDatabase)) && links == old(links) && db.database.None? && isDirty == old(isDirty)
      ensures old(selectedNode) != null && old(ScanSafe(EdgesOf(links), selectedNode.nodeData.idNode)) &&
              old(db.database).Some? ==>
                r.Pass? && isDirty &&
                db.database == Some(old(db.database).value.(links := DeleteLinkRows(old(db.database).value.links, selectedNode.nodeData.idNode))) &&
                links == Without(old(links), LinkSet(old(TouchingLinks(links, EdgesOf(links), selectedNode.nodeData.idNode))))
    {
      if selectedNode == null {
        return Pass;
      }
      var id := selectedNode.nodeData.idNode;
      var edges := EdgesOf(links);
      if !ScanSafe(edges, id) {
        return Fail(NullEndpoint);
      }
      var toRemove := TouchingLinks(links, edges, id);
      var s := db.DeleteLink(id);
      if s.Fail? {
        return Fail(StoreFailed(s.error));
      }
      RemoveLinks(toRemove);
      isDirty := true;
      r := Pass;
    }

    /** `SaveProject`, given what the save dialog returned (`None` when it
        was cancelled). A project without a file asks for one, and a
        cancelled dialog changes nothing. Otherwise the path is taken, the
        metadata is named after the file, and the store saves the node
        boxes, links and properties; only a save that committed updates the
        title and leaves the project clean. */
    method SaveProject(chosen: Option<string>, now: Timestamp) returns (r: Option<Outcome<StoreError>>)
      requires Valid()
      modifies this`currentFilePath, this`projectMetadata, this`windowTitle, this`isDirty, db
      ensures Valid()
      ensures SaveTarget(old(currentFilePath), chosen).None? ==>
                r.None? && currentFilePath == old(currentFilePath) && projectMetadata == old(projectMetadata) &&
                windowTitle == old(windowTitle) && isDirty == old(isDirty) && unchanged(db)
      ensures SaveTarget(old(currentFilePath), chosen).Some? ==>
                r.Some? && currentFilePath == SaveTarget(old(currentFilePath), chosen) &&
                projectMetadata == old(projectMetadata).(projectName := Some(FileStem(currentFilePath.value)))
      ensures r.Some? && old(db.database).None? ==> r.value == Fail(NoDatabase)
      ensures r.Some? && old(db.database).Some? ==>
                (r.value.Pass? <==> SaveTransaction(old(db.database).value, old(Records(nodes)), old(LinkDatas(links)), properties).Ok?)
      ensures r == Some(Pass) ==>
                db.database == Some(SaveTransaction(old(db.database).value, old(Records(nodes)), old(LinkDatas(links)), properties).value) &&
                db.projectFilePath == currentFilePath &&
                db.projectMetadata == SavedMetadata(old(db.projectMetadata), currentFilePath.value, now) &&
                db.disk == old(db.disk)[currentFilePath.value := Archive(db.database, Some(WellFormed(db.projectMetadata)))]
      ensures r == Some(Pass) ==>
                !isDirty && windowTitle == WindowTitleFor(isProjectOpen, currentFilePath, projectMetadata.projectName)
      ensures r.Some? && r.value.Fail? ==>
                isDirty == old(isDirty) && windowTitle == old(windowTitle) &&
                db.database == old(db.database) && db.disk == old(db.disk) &&
                db.projectFilePath == old(db.projectFilePath) && db.projectMetadata == old(db.projectMetadata)
    {
      var target := SaveTarget(currentFilePath, chosen);
      if target.None? {
        return None;
      }
      var saved := SaveTo(target.value, Records(nodes), LinkDatas(links), now);
      r := Some(saved);
    }

    /** The `try` block of `SaveProject`, once the path is known; `recs` and
        `datas` are what the node boxes and links hold. */
    method SaveTo(path: string, ghost recs: seq<NodeRecord>, ghost datas: seq<LinkModel>, now: Timestamp)
      returns (r: Outcome<StoreError>)
      requires Valid() && Records(nodes) == recs && LinkDatas(links) == datas
      modifies this`currentFilePath, this`projectMetadata, this`windowTitle, this`isDirty, db
      ensures Valid()
      ensures currentFilePath == Some(path) && projectMetadata == old(projectMetadata).(projectName := Some(FileStem(path)))
      ensures old(db.database).None? ==> r == Fail(NoDatabase)
      ensures old(db.database).Some? ==> (r.Pass? <==> SaveTransaction(old(db.database).value, recs, datas, properties).Ok?)
      ensures r.Pass? ==>
                db.database == Some(SaveTransaction(old(db.database).value, recs, datas, properties).value) &&
                db.projectFilePath == Some(path) && db.projectMetadata == SavedMetadata(old(db.projectMetadata), path, now) &&
                db.disk == old(db.disk)[path := Archive(db.database, Some(WellFormed(db.projectMetadata)))]
      ensures r.Pass? ==> !isDirty && windowTitle == WindowTitleFor(isProjectOpen, currentFilePath, projectMetadata.projectName)
      ensures r.Fail? ==>
                isDirty == old(isDirty) && windowTitle == old(windowTitle) &&
                db.database == old(db.database) && db.disk == old(db.disk) &&
                db.projectFilePath == old(db.projectFilePath) && db.projectMetadata == old(db.projectMetadata)
    {
      NameAfter(path, recs, datas);
      r := StoreGraph(path, recs, datas, now);
      if r.Pass? {
        MarkSaved();
      }
    }

    /** `_dbManager.SaveProject(path, Nodes, Links, Properties)`. */
    method StoreGraph(path: string, ghost recs: seq<NodeRecord>, ghost datas: seq<LinkModel>, now: Timestamp)
      returns (r: Outcome<StoreError>)
      requires Valid() && Records(nodes) == recs && LinkDatas(links) == datas
      modifies db
      ensures Valid()
      ensures old(db.database).None? ==> r == Fail(NoDatabase)
      ensures old(db.database).Some? ==> (r.Pass? <==> SaveTransaction(old(db.database).value, recs, datas, properties).Ok?)
      ensures r.Pass? ==>
                db.database == Some(SaveTransaction(old(db.database).value, recs, datas, properties).value) &&
                db.projectFilePath == Some(path) && db.projectMetadata == SavedMetadata(old(db.projectMetadata), path, now) &&
                db.disk == old(db.disk)[path := Archive(db.database, Some(WellFormed(db.projectMetadata)))]
      ensures r.Fail? ==>
                db.database == old(db.database) && db.disk == old(db.disk) &&
                db.projectFilePath == old(db.projectFilePath) && db.projectMetadata == old(db.projectMetadata)
    {
      r := db.SaveProject(path, nodes, links, properties, now);
    }

    /** The start of the `try` block of `SaveProject`: the window takes the
        path, and the metadata is named after the file. */
    method NameAfter(path: string, ghost recs: seq<NodeRecord>, ghost datas: seq<LinkModel>)
      requires Valid() && Records(nodes) == recs && LinkDatas(links) == datas
      modifies this`currentFilePath, this`projectMetadata
      ensures Valid() && Records(nodes) == recs && LinkDatas(links) == datas
      ensures currentFilePath == Some(path) && projectMetadata == old(projectMetadata).(projectName := Some(FileStem(path)))
    {
      currentFilePath := Some(path);
      projectMetadata := projectMetadata.(projectName := Some(FileStem(path)));
    }

    /** The end of a save that committed: the title is brought up to date
        and the project is clean. */
    method MarkSaved()
      requires Valid()
      modifies this`windowTitle, this`isDirty
      ensures Valid()
      ensures !isDirty && windowTitle == WindowTitleFor(isProjectOpen, currentFilePath, projectMetadata.projectName)
    {
      UpdateWindowTitle();
      isDirty := false;
    }
  }
}
