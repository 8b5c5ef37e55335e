/** The entity model: the process-type lookup, the node with its change-only
    setters, and the plain records the store reads and writes (links,
    properties and the project metadata). */
module Entities {
  import opened Basics

  type Byte = b: int | 0 <= b < 256

  /** A `System.Windows.Media.Color`: alpha, red, green, blue. */
  datatype Color = Color(a: Byte, r: Byte, g: Byte, b: Byte)

  /** `default(Color)` (all four channels 0), the colour of a node nothing
      has coloured yet; not `Colors.Transparent`, which is #00FFFFFF. */
  const DefaultColor: Color := Color(0, 0, 0, 0)

  /** `Colors.Gray`. */
  const Gray: Color := Color(255, 128, 128, 128)

  /** `Color.FromRgb`: an opaque colour. */
  function FromRgb(r: Byte, g: Byte, b: Byte): Color
  {
    Color(255, r, g, b)
  }

  /** The unchecked `(byte)` cast of an `int`: its low eight bits. */
  function LowByte(x: int): (r: Byte)
    ensures (x - r) % 256 == 0
    ensures 0 <= x < 256 ==> r == x
  {
    x % 256
  }

  /** A row of the process-type lookup (INFO_TYPES): id, name and colour. */
  datatype NodeProcessType = NodeProcessType(id: int, name: Option<string>, colorR: int, colorG: int, colorB: int)

  /** The name given to a process type nobody looked up. */
  const UnknownTypeName: string := "알 수 없음"

  /** The record `UpdateNodeColorAndType` creates when it is given no type. */
  const UnknownType: NodeProcessType := NodeProcessType(0, Some(UnknownTypeName), 0, 0, 0)

  /** The colour a process type paints a node with. */
  function TypeColor(t: NodeProcessType): (c: Color)
    ensures c.a == 255
    ensures 0 <= t.colorR < 256 && 0 <= t.colorG < 256 && 0 <= t.colorB < 256 ==>
              c.r == t.colorR && c.g == t.colorG && c.b == t.colorB
  {
    FromRgb(LowByte(t.colorR), LowByte(t.colorG), LowByte(t.colorB))
  }

  /** The colour and process type `UpdateNodeColorAndType(type)` leaves on a node. */
  function ColorAndType(t: Option<NodeProcessType>): (r: (Color, NodeProcessType))
    ensures t.Some? ==> r.1 == t.value && r.0 == TypeColor(t.value)
    ensures t.None? ==> r.0 == Gray && r.1.name == Some(UnknownTypeName)
  {
    match t
    case Some(pt) => (TypeColor(pt), pt)
    case None => (Gray, UnknownType)
  }

  /** The six workflow states the main window offers. */
  const ProcessTypes: seq<NodeProcessType> := [
    NodeProcessType(1, Some("계획"), 128, 128, 128),
    NodeProcessType(2, Some("진행중"), 255, 165, 0),
    NodeProcessType(3, Some("완료"), 0, 128, 0),
    NodeProcessType(4, Some("보류"), 255, 255, 0),
    NodeProcessType(5, Some("진행불가"), 255, 0, 0),
    NodeProcessType(6, Some("실패"), 0, 0, 0)
  ]

  /** The project metadata document: name, description and two timestamps. */
  datatype ProjectMetadata = ProjectMetadata(
    projectName: Option<string>,
    description: Option<string>,
    creationDate: Timestamp,
    lastModifiedDate: Timestamp)

  /** `new ProjectMetadata()`: no name, both dates now. */
  function DefaultMetadata(now: Timestamp): ProjectMetadata
  {
    ProjectMetadata(None, None, now, now)
  }

  /** A link as the store sees it: its id, the ids of its two endpoints and
      when it was made. */
  datatype LinkModel = LinkModel(id: int, idNodeSrc: int, idNodeTgt: int, createdAt: Timestamp)

  /** `new LinkModel()`: ids 0, created now. */
  function NewLinkModel(now: Timestamp): LinkModel
  {
    LinkModel(0, 0, 0, now)
  }

  /** A typed custom property; its value is kept as the text the store holds. */
  datatype PropertyItem = PropertyItem(id: int, itemType: Option<string>, name: Option<string>, value: Option<string>)

  /** The INFO_NODES columns of a node other than its id. */
  datatype NodeRecord = NodeRecord(
    title: Option<string>,
    idType: int,
    dateStart: Option<Timestamp>,
    dateEnd: Option<Timestamp>,
    assignee: Option<string>,
    x: Coord,
    y: Coord,
    path: Option<string>)

  /** Every field of a `NodeModel`, as one value. */
  datatype NodeState = NodeState(
    idNode: int,
    nodeTitle: Option<string>,
    dateStart: Option<Timestamp>,
    dateEnd: Option<Timestamp>,
    assignee: Option<string>,
    idType: int,
    processType: Option<NodeProcessType>,
    nodeColor: Color,
    xPosition: Coord,
    yPosition: Coord,
    width: Coord,
    height: Coord,
    pathCustom: Option<string>,
    customProperties: seq<PropertyItem>)

  /** The state of a freshly constructed `NodeModel`. */
  const FreshNodeState: NodeState :=
    NodeState(0, None, None, None, None, 0, None, DefaultColor, 0, 0, 0, 0, None, [])

  /** A work item on the canvas. Each setter stores its value and raises one
      change notification, but only when the value differs from the stored one. */
  class NodeModel {
    var idNode: int
    var nodeTitle: Option<string>
    var dateStart: Option<Timestamp>
    var dateEnd: Option<Timestamp>
    var assignee: Option<string>
    var idType: int
    var processType: Option<NodeProcessType>
    var nodeColor: Color
    var xPosition: Coord
    var yPosition: Coord
    var width: Coord
    var height: Coord
    var pathCustom: Option<string>
    var customProperties: seq<PropertyItem>

    /** The property names passed to `PropertyChanged`, oldest first. */
    ghost var raised: seq<string>

    function State(): NodeState
      reads this
    {
      NodeState(idNode, nodeTitle, dateStart, dateEnd, assignee, idType, processType,
                nodeColor, xPosition, yPosition, width, height, pathCustom, customProperties)
    }

    /** The columns `SaveProject` writes for this node. */
    function Record(): NodeRecord
      reads this
    {
      NodeRecord(nodeTitle, idType, dateStart, dateEnd, assignee, xPosition, yPosition, pathCustom)
    }

    /** A node with id 0, no type, no colour and an empty property collection. */
    constructor ()
      ensures State() == FreshNodeState
      ensures raised == ["CustomProperties"]
    {
      idNode, nodeTitle, dateStart, dateEnd, assignee := 0, None, None, None, None;
      idType, processType, nodeColor := 0, None, DefaultColor;
      xPosition, yPosition, width, height, pathCustom := 0, 0, 0, 0, None;
      customProperties := [];
      raised := ["CustomProperties"];
    }

    method SetIdNode(value: int)
      modifies this
      ensures State() == old(State()).(idNode := value)
      ensures raised == old(raised) + if old(idNode) != value then ["ID_NODE"] else []
    {
      if idNode != value {
        idNode := value;
        raised := raised + ["ID_NODE"];
      }
    }

    method SetNodeTitle(value: Option<string>)
      modifies this
      ensures State() == old(State()).(nodeTitle := value)
      ensures raised == old(raised) + if old(nodeTitle) != value then ["NODE_TITLE"] else []
    {
      if nodeTitle != value {
        nodeTitle := value;
        raised := raised + ["NODE_TITLE"];
      }
    }

    method SetDateStart(value: Option<Timestamp>)
      modifies this
      ensures State() == old(State()).(dateStart := value)
      ensures raised == old(raised) + if old(dateStart) != value then ["DATE_START"] else []
    {
      if dateStart != value {
        dateStart := value;
        raised := raised + ["DATE_START"];
      }
    }

    method SetDateEnd(value: Option<Timestamp>)
      modifies this
      ensures State() == old(State()).(dateEnd := value)
      ensures raised == old(raised) + if old(dateEnd) != value then ["DATE_END"] else []
    {
      if dateEnd != value {
        dateEnd := value;
        raised := raised + ["DATE_END"];
      }
    }

    method SetAssignee(value: Option<string>)
      modifies this
      ensures State() == old(State()).(assignee := value)
      ensures raised == old(raised) + if old(assignee) != value then ["Assignee"] else []
    {
      if assignee != value {
        assignee := value;
        raised := raised + ["Assignee"];
      }
    }

    /** `ID_TYPE`: a new value is stored, announced, and then resets the colour
        to gray and the process type to the unknown record. */
    method SetIdType(value: int)
      modifies this
      ensures old(idType) == value ==> State() == old(State()) && raised == old(raised)
      ensures old(idType) != value ==>
                State() == old(State()).(idType := value, nodeColor := Gray, processType := Some(UnknownType))
      ensures old(idType) != value ==>
                raised == old(raised) + ["ID_TYPE"] + if old(nodeColor) != Gray then ["NodeColor"] else []
    {
      if idType != value {
        idType := value;
        raised := raised + ["ID_TYPE"];
        UpdateNodeColorAndType(None);
      }
    }

    /** `ProcessType` is a plain auto-property: no comparison, no notification. */
    method SetProcessType(value: Option<NodeProcessType>)
      modifies this
      ensures State() == old(State()).(processType := value)
      ensures raised == old(raised)
    {
      processType := value;
    }

    method SetNodeColor(value: Color)
      modifies this
      ensures State() == old(State()).(nodeColor := value)
      ensures raised == old(raised) + if old(nodeColor) != value then ["NodeColor"] else []
    {
      if nodeColor != value {
        nodeColor := value;
        raised := raised + ["NodeColor"];
      }
    }

    method SetXPosition(value: Coord)
      modifies this
      ensures State() == old(State()).(xPosition := value)
      ensures raised == old(raised) + if old(xPosition) != value then ["XPosition"] else []
    {
      if xPosition != value {
        xPosition := value;
        raised := raised + ["XPosition"];
      }
    }

    method SetYPosition(value: Coord)
      modifies this
      ensures State() == old(State()).(yPosition := value)
      ensures raised == old(raised) + if old(yPosition) != value then ["YPosition"] else []
    {
      if yPosition != value {
        yPosition := value;
        raised := raised + ["YPosition"];
      }
    }

    method SetWidth(value: Coord)
      modifies this
      ensures State() == old(State()).(width := value)
      ensures raised == old(raised) + if old(width) != value then ["Width"] else []
    {
      if width != value {
        width := value;
        raised := raised + ["Width"];
      }
    }

    method SetHeight(value: Coord)
      modifies this
      ensures State() == old(State()).(height := value)
      ensures raised == old(raised) + if old(height) != value then ["Height"] else []
    {
      if height != value {
        height := value;
        raised := raised + ["Height"];
      }
    }

    method SetPathCustom(value: Option<string>)
      modifies this
      ensures State() == old(State()).(pathCustom := value)
      ensures raised == old(raised) + if old(pathCustom) != value then ["PathCustom"] else []
    {
      if pathCustom != value {
        pathCustom := value;
        raised := raised + ["PathCustom"];
      }
    }

    /** `CustomProperties` is the one setter that always stores and announces. */
    method SetCustomProperties(value: seq<PropertyItem>)
      modifies this
      ensures State() == old(State()).(customProperties := value)
      ensures raised == old(raised) + ["CustomProperties"]
    {
      customProperties := value;
      raised := raised + ["CustomProperties"];
    }

    /** With a type: its colour (low bytes of its RGB) and the type itself.
        Without one: gray and a new record named as unknown. */
    method UpdateNodeColorAndType(t: Option<NodeProcessType>)
      modifies this
      ensures State() == old(State()).(nodeColor := ColorAndType(t).0, processType := Some(ColorAndType(t).1))
      ensures raised == old(raised) + if old(nodeColor) != ColorAndType(t).0 then ["NodeColor"] else []
    {
      match t {
        case Some(pt) =>
          SetNodeColor(FromRgb(LowByte(pt.colorR), LowByte(pt.colorG), LowByte(pt.colorB)));
          SetProcessType(Some(pt));
        case None =>
          SetNodeColor(Gray);
          SetProcessType(Some(UnknownType));
      }
    }
  }
}
