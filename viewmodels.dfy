/** The view models of the canvas: a node box, which wraps a `NodeModel`, and
    a link, which follows its two endpoint nodes and keeps the endpoint ids of
    its `LinkModel` in step with them. Points and sizes on the screen are left
    out; what a link keeps is the ids that saving writes. */
module ViewModels {
  import opened Basics
  import opened Entities

  /** The size every node box is given on the canvas. */
  const DefaultNodeWidth: Coord := 150
  const DefaultNodeHeight: Coord := 135

  /** A node box. `listeners` are the links subscribed to its change event,
      one entry per subscription. */
  class NodeViewModel {
    const nodeData: NodeModel
    var isSelected: bool
    var listeners: multiset<LinkViewModel>

    constructor (model: NodeModel)
      ensures nodeData == model && !isSelected && listeners == multiset{}
    {
      nodeData := model;
      isSelected := false;
      listeners := multiset{};
    }

    /** `IsSelected`. Its change notification reaches the subscribed links,
        which ignore every property name but the two positions. */
    method SetIsSelected(value: bool)
      modifies this`isSelected
      ensures isSelected == value
    {
      if isSelected != value {
        isSelected := value;
      }
    }

    /** `Width` forwards to the node model. */
    method SetWidth(value: Coord)
      modifies nodeData
      ensures nodeData.State() == old(nodeData.State()).(width := value)
      ensures nodeData.raised == old(nodeData.raised) + if old(nodeData.width) != value then ["Width"] else []
    {
      if nodeData.width != value {
        nodeData.SetWidth(value);
      }
    }

    /** `Height` forwards to the node model. */
    method SetHeight(value: Coord)
      modifies nodeData
      ensures nodeData.State() == old(nodeData.State()).(height := value)
      ensures nodeData.raised == old(nodeData.raised) + if old(nodeData.height) != value then ["Height"] else []
    {
      if nodeData.height != value {
        nodeData.SetHeight(value);
      }
    }
  }

  /** The non-null ones of two endpoints. */
  function Endpoints(a: NodeViewModel?, b: NodeViewModel?): set<NodeViewModel>
  {
    (if a != null then {a} else {}) + (if b != null then {b} else {})
  }

  /** The node models behind two endpoints. */
  function Models(a: NodeViewModel?, b: NodeViewModel?): set<NodeModel>
  {
    (if a != null then {a.nodeData} else {}) + (if b != null then {b.nodeData} else {})
  }

  /** `link` with the endpoint ids of two nodes written into it. */
  function WithEnds(link: LinkModel, a: NodeViewModel, b: NodeViewModel): LinkModel
    reads a.nodeData, b.nodeData
  {
    link.(idNodeSrc := a.nodeData.idNode, idNodeTgt := b.nodeData.idNode)
  }

  /** A drawn link between two node boxes. */
  class LinkViewModel {
    var startNode: NodeViewModel?
    var endNode: NodeViewModel?
    var linkData: LinkModel

    /** The link data names the ids of both endpoints whenever both are set. */
    predicate InStep()
      reads this, Models(startNode, endNode)
    {
      startNode != null && endNode != null ==>
        linkData.idNodeSrc == startNode.nodeData.idNode && linkData.idNodeTgt == endNode.nodeData.idNode
    }

    /** A new link data, then `StartNode := start`, then `EndNode := end`. A
        link with a missing endpoint keeps the ids 0 of a new link data. */
    constructor (start: NodeViewModel?, end: NodeViewModel?, now: Timestamp)
      modifies Endpoints(start, end)`listeners
      ensures startNode == start && endNode == end
      ensures start != null && end != null ==> linkData == WithEnds(NewLinkModel(now), start, end)
      ensures start == null || end == null ==> linkData == NewLinkModel(now)
      ensures InStep()
      ensures start != null && start != end ==> start.listeners == old(start.listeners) + multiset{this}
      ensures end != null && end != start ==> end.listeners == old(end.listeners) + multiset{this}
      ensures start != null && start == end ==> start.listeners == old(start.listeners) + multiset{this, this}
    {
      startNode := null;
      endNode := null;
      linkData := NewLinkModel(now);
      new;
      SetStartNode(start);
      SetEndNode(end);
    }

    /** The id half of `UpdatePoints`: nothing happens unless both endpoints
        are set; then the link data takes both endpoint ids. */
    method UpdatePoints()
      modifies this`linkData
      ensures startNode != null && endNode != null ==> linkData == WithEnds(old(linkData), startNode, endNode)
      ensures startNode == null || endNode == null ==> linkData == old(linkData)
      ensures InStep()
    {
      if startNode == null || endNode == null {
        return;
      }
      linkData := linkData.(idNodeSrc := startNode.nodeData.idNode);
      linkData := linkData.(idNodeTgt := endNode.nodeData.idNode);
    }

    /** `StartNode`: assigning the current node does nothing; otherwise the
        link unsubscribes from the old node, subscribes to the new one and,
        when the new one is set, brings its ids up to date. */
    method SetStartNode(value: NodeViewModel?)
      modifies this`startNode, this`linkData, Endpoints(startNode, value)`listeners
      ensures startNode == value && endNode == old(endNode)
      ensures old(startNode) == value ==> linkData == old(linkData)
      ensures old(startNode) == value && value != null ==> value.listeners == old(value.listeners)
      ensures old(startNode) != value && old(startNode) != null ==>
                old(startNode).listeners == old(startNode.listeners) - multiset{this}
      ensures old(startNode) != value && value != null ==> value.listeners == old(value.listeners) + multiset{this}
      ensures old(startNode) != value && value != null && endNode != null ==>
                linkData == WithEnds(old(linkData), value, endNode)
      ensures old(startNode) != value && (value == null || endNode == null) ==> linkData == old(linkData)
      ensures old(startNode) != value && value != null ==> InStep()
    {
      if startNode != value {
        if startNode != null {
          startNode.listeners := startNode.listeners - multiset{this};
        }
        startNode := value;
        if startNode != null {
          startNode.listeners := startNode.listeners + multiset{this};
          UpdatePoints();
        }
      }
    }

    /** `EndNode`, the mirror image of `StartNode`. */
    method SetEndNode(value: NodeViewModel?)
      modifies this`endNode, this`linkData, Endpoints(endNode, value)`listeners
      ensures endNode == value && startNode == old(startNode)
      ensures old(endNode) == value ==> linkData == old(linkData)
      ensures old(endNode) == value && value != null ==> value.listeners == old(value.listeners)
      ensures old(endNode) != value && old(endNode) != null ==>
                old(endNode).listeners == old(endNode.listeners) - multiset{this}
      ensures old(endNode) != value && value != null ==> value.listeners == old(value.listeners) + multiset{this}
      ensures old(endNode) != value && value != null && startNode != null ==>
                linkData == WithEnds(old(linkData), startNode, value)
      ensures old(endNode) != value && (value == null || startNode == null) ==> linkData == old(linkData)
      ensures old(endNode) != value && value != null ==> InStep()
    {
      if endNode != value {
        if endNode != null {
          endNode.listeners := endNode.listeners - multiset{this};
        }
        endNode := value;
        if endNode != null {
          endNode.listeners := endNode.listeners + multiset{this};
          UpdatePoints();
        }
      }
    }

    /** The handler subscribed to each endpoint: only a change of position
        brings the link up to date. */
    method OnNodePositionChanged(propertyName: string)
      modifies this`linkData
      ensures propertyName == "XPosition" || propertyName == "YPosition" ==> InStep()
      ensures propertyName == "XPosition" || propertyName == "YPosition" ==>
                startNode != null && endNode != null ==> linkData == WithEnds(old(linkData), startNode, endNode)
      ensures propertyName != "XPosition" && propertyName != "YPosition" ==> linkData == old(linkData)
      ensures startNode == null || endNode == null ==> linkData == old(linkData)
    {
      if propertyName == "XPosition" || propertyName == "YPosition" {
        UpdatePoints();
      }
    }
  }

  /** The node models behind a sequence of node boxes. */
  function NodeModels(ns: seq<NodeViewModel>): set<NodeModel>
  {
    set n | n in ns :: n.nodeData
  }

  /** `ID_NODE` of each node box, in order. */
  function NodeIds(ns: seq<NodeViewModel>): (r: seq<int>)
    reads NodeModels(ns)
    ensures |r| == |ns| && forall i :: 0 <= i < |ns| ==> r[i] == ns[i].nodeData.idNode
  {
    if ns == [] then [] else [ns[0].nodeData.idNode] + NodeIds(ns[1..])
  }

  /** The columns `SaveProject` writes for each node box, in order. */
  function Records(ns: seq<NodeViewModel>): (r: seq<NodeRecord>)
    reads NodeModels(ns)
    ensures |r| == |ns| && forall i :: 0 <= i < |ns| ==> r[i] == ns[i].nodeData.Record()
  {
    if ns == [] then [] else [ns[0].nodeData.Record()] + Records(ns[1..])
  }

  /** The link data `SaveProject` writes for each link, in order. */
  function LinkDatas(ls: seq<LinkViewModel>): (r: seq<LinkModel>)
    reads (set l | l in ls)`linkData
    ensures |r| == |ls| && forall i :: 0 <= i < |ls| ==> r[i] == ls[i].linkData
  {
    if ls == [] then [] else [ls[0].linkData] + LinkDatas(ls[1..])
  }
}
