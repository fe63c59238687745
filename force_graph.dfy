/** The parts of the force-directed view that are not physics or drawing:
    turning the caller's nodes and links into the records the simulation
    runs on, the per-kind size and text tables, where each tick places the
    shapes, and how dragging pins a node and steers the simulation's alpha
    target. */
module ForceGraph {
  import opened Js
  import opened Graph
  import opened OrdinalScale

  datatype Option<T> = None | Some(value: T)

  /** Why the view fails before drawing anything. */
  datatype Error =
    | GroupsMissing            // `G` is null and `G[i]` is read
    | NodeNotFound(id: JsValue) // a link names an id no node has

  datatype Result<T> = Ok(value: T) | Err(error: Error)

  /** A rectangle's extent and corner radius. */
  datatype Size = Size(width: int, height: int, radius: int)

  /** A label's font size and font family (`null` in every table entry). */
  datatype Text = Text(size: int, font: JsValue)

  /** A normalised node `{id, type, size, text}`. */
  datatype NodeDatum = NodeDatum(id: JsValue, group: JsValue, size: Size, text: Text)

  /** A normalised link `{source, target}`; any other field is dropped. */
  datatype LinkDatum = LinkDatum(source: JsValue, target: JsValue)

  // ---------------------------------------------------------------------
  // The size and text tables
  // ---------------------------------------------------------------------

  /** The group name of a node kind, as the builder's `type` field spells it. */
  function KindName(kind: NodeKind): string
  {
    match kind
    case RootKind => "root"
    case TagKind => "tag"
    case ProjectKind => "project"
  }

  /** The domain both scales are given. */
  const Groups: seq<JsValue> := [StrValue("root"), StrValue("tag"), StrValue("project")]

  const SizeRange: seq<Size> := [Size(120, 90, 0), Size(70, 70, 35), Size(80, 60, 0)]

  const TextRange: seq<Text> := [Text(24, Prim(Null)), Text(16, Prim(Null)), Text(16, Prim(Null))]

  /** The size a node of each kind is drawn with. */
  function SizeOf(kind: NodeKind): Size
  {
    match kind
    case RootKind => Size(120, 90, 0)
    case TagKind => Size(70, 70, 35)
    case ProjectKind => Size(80, 60, 0)
  }

  /** The label text style of each kind. */
  function TextOf(kind: NodeKind): Text
  {
    match kind
    case RootKind => Text(24, Prim(Null))
    case TagKind | ProjectKind => Text(16, Prim(Null))
  }

  /** `sizeScale(g)` for a kind's group name leaves the scale as it was and
      gives that kind's size; likewise `textScale(g)`. */
  lemma {:induction false} ScalesByKind(kind: NodeKind)
    ensures Apply(Scale(Groups, SizeRange), StrValue(KindName(kind)))
         == (SizeOf(kind), Scale(Groups, SizeRange))
    ensures Apply(Scale(Groups, TextRange), StrValue(KindName(kind)))
         == (TextOf(kind), Scale(Groups, TextRange))
  {
  }

  // ---------------------------------------------------------------------
  // Normalisation
  // ---------------------------------------------------------------------

  /** `N`: the interned ids. */
  function Interned<D>(nodes: seq<D>, nodeId: D -> JsValue): (n: seq<JsValue>)
    ensures |n| == |nodes|
    ensures forall i :: 0 <= i < |nodes| ==> n[i] == Intern(nodeId(nodes[i])) && !n[i].Boxed?
  {
    seq(|nodes|, i requires 0 <= i < |nodes| => Intern(nodeId(nodes[i])))
  }

  /** The normalised nodes, or the failure of reading `G[i]` when no
      `nodeGroup` accessor was given and there is a node to read it for. */
  function NormalizeNodes<D>(nodes: seq<D>, nodeId: D -> JsValue, nodeGroup: Option<D -> JsValue>)
    : (r: Result<seq<NodeDatum>>)
    ensures r.Err? <==> nodeGroup.None? && |nodes| > 0
    ensures r.Err? ==> r.error == GroupsMissing
    ensures r.Ok? ==> |r.value| == |nodes|
    ensures r.Ok? ==> forall i :: 0 <= i < |nodes| ==>
      r.value[i].id == Intern(nodeId(nodes[i]))
      && r.value[i].group == Intern(nodeGroup.value(nodes[i]))
  {
    if nodeGroup.None? then
      if |nodes| == 0 then Ok([]) else Err(GroupsMissing)
    else
      var n := Interned(nodes, nodeId);
      var g := Interned(nodes, nodeGroup.value);
      var sizes := ApplyAll(Scale(Groups, SizeRange), g).0;
      var texts := ApplyAll(Scale(Groups, TextRange), g).0;
      Ok(seq(|nodes|, i requires 0 <= i < |nodes| => NodeDatum(n[i], g[i], sizes[i], texts[i])))
  }

  /** When every node's group is one of the three kind names, each node gets
      its kind's size and text. */
  lemma {:induction false} NodeTables<D>(nodes: seq<D>, nodeId: D -> JsValue, nodeGroup: D -> JsValue, kind: D -> NodeKind)
    requires forall i :: 0 <= i < |nodes| ==> Intern(nodeGroup(nodes[i])) == StrValue(KindName(kind(nodes[i])))
    ensures NormalizeNodes(nodes, nodeId, Some(nodeGroup)).Ok?
    ensures forall i :: 0 <= i < |nodes| ==>
      NormalizeNodes(nodes, nodeId, Some(nodeGroup)).value[i].size == SizeOf(kind(nodes[i]))
      && NormalizeNodes(nodes, nodeId, Some(nodeGroup)).value[i].text == TextOf(kind(nodes[i]))
  {
    var g := Interned(nodes, nodeGroup);
    forall i | 0 <= i < |g| ensures g[i] in Groups {
      ScalesByKind(kind(nodes[i]));
    }
    ApplyAllKnown(Scale(Groups, SizeRange), g);
    ApplyAllKnown(Scale(Groups, TextRange), g);
    forall i | 0 <= i < |nodes|
      ensures ApplyAll(Scale(Groups, SizeRange), g).0[i] == SizeOf(kind(nodes[i]))
      ensures ApplyAll(Scale(Groups, TextRange), g).0[i] == TextOf(kind(nodes[i]))
    {
      ScalesByKind(kind(nodes[i]));
    }
  }

  /** Whatever the groups are, nodes of the same group get the same size and
      text, and every size and text is a table entry. */
  lemma {:induction false} SameGroupSameLook<D>(nodes: seq<D>, nodeId: D -> JsValue, nodeGroup: D -> JsValue, i: nat, j: nat)
    requires i < |nodes| && j < |nodes|
    ensures var r := NormalizeNodes(nodes, nodeId, Some(nodeGroup)).value;
      (r[i].group == r[j].group ==> r[i].size == r[j].size && r[i].text == r[j].text)
      && r[i].size in SizeRange && r[i].text in TextRange
  {
    var g := Interned(nodes, nodeGroup);
    ApplyAllConsistent(Scale(Groups, SizeRange), g, i, j);
    ApplyAllConsistent(Scale(Groups, TextRange), g, i, j);
  }

  /** The domain both scales end with once the groups `g` have been looked
      up in order. */
  function GroupDomain(g: seq<JsValue>): seq<JsValue>
  {
    ApplyAll(Scale(Groups, SizeRange), g).1.domain
  }

  /** For any groups, a node's size and text are the table entries at its
      group's position in the grown domain, cyclically: the kind names come
      first, and every other group was appended when first seen, so the
      first unknown group looks like the root, the next like a tag, and so on. */
  lemma {:induction false} NodeLookByDomain<D>(nodes: seq<D>, nodeId: D -> JsValue, nodeGroup: D -> JsValue, i: nat)
    requires i < |nodes|
    ensures var r := NormalizeNodes(nodes, nodeId, Some(nodeGroup)).value;
      var d := GroupDomain(Interned(nodes, nodeGroup));
      |d| >= 3 && d[..3] == Groups && r[i].group in d
      && r[i].size == SizeRange[IndexOf(d, r[i].group) % 3]
      && r[i].text == TextRange[IndexOf(d, r[i].group) % 3]
  {
    var g := Interned(nodes, nodeGroup);
    ApplyAllDomain(Scale(Groups, SizeRange), g);
    ApplyAllAt(Scale(Groups, SizeRange), g);
    ApplyAllAt(Scale(Groups, TextRange), g);
    ApplyAllSameDomain(Scale(Groups, SizeRange), Scale(Groups, TextRange), g);
  }

  /** The normalised links, in order, with interned endpoints. */
  function NormalizeLinks<D>(links: seq<D>, linkSource: D -> JsValue, linkTarget: D -> JsValue)
    : (r: seq<LinkDatum>)
    ensures |r| == |links|
    ensures forall i :: 0 <= i < |links| ==>
      r[i].source == Intern(linkSource(links[i])) && r[i].target == Intern(linkTarget(links[i]))
  {
    var ls := Interned(links, linkSource);
    var lt := Interned(links, linkTarget);
    seq(|links|, i requires 0 <= i < |links| => LinkDatum(ls[i], lt[i]))
  }

  // ---------------------------------------------------------------------
  // Link resolution by id
  // ---------------------------------------------------------------------

  /** `typeof v === "object"`, which also holds for `null`. */
  predicate TypeofObject(v: JsValue)
  {
    IsObject(v) || v == Prim(Null)
  }

  /** How a link endpoint is resolved: a value whose `typeof` is "object" is
      kept as given; any other value is looked up among the ids, the last
      node with that id winning. */
  datatype Endpoint = AtNode(index: nat) | AsGiven(node: JsValue)

  /** The last position of `id` in `ids`, or -1. */
  function LastIndexOf(ids: seq<JsValue>, id: JsValue): (i: int)
    ensures -1 <= i < |ids|
    ensures i == -1 <==> id !in ids
    ensures 0 <= i ==> ids[i] == id && id !in ids[i + 1..]
    decreases |ids|
  {
    if ids == [] then -1
    else if ids[|ids| - 1] == id then |ids| - 1
    else
      var i := LastIndexOf(ids[..|ids| - 1], id);
      assert 0 <= i ==> ids[i + 1..] == ids[..|ids| - 1][i + 1..] + [ids[|ids| - 1]];
      i
  }

  /** An endpoint d3 accepts: kept as given, or the id of some node. */
  predicate Resolvable(ids: seq<JsValue>, v: JsValue)
  {
    TypeofObject(v) || v in ids
  }

  /** The resolution of one endpoint: a value whose `typeof` is "object" is
      kept; an id resolves to the last node carrying it; any other value is
      "node not found". */
  function ResolveEndpoint(ids: seq<JsValue>, v: JsValue): (r: Result<Endpoint>)
    ensures r.Err? <==> !Resolvable(ids, v)
    ensures r.Err? ==> r.error == NodeNotFound(v)
    ensures TypeofObject(v) ==> r == Ok(AsGiven(v))
    ensures !TypeofObject(v) && v in ids ==>
      r.Ok? && r.value.AtNode? && r.value.index < |ids|
      && ids[r.value.index] == v && v !in ids[r.value.index + 1..]
  {
    if TypeofObject(v) then Ok(AsGiven(v))
    else
      var i := LastIndexOf(ids, v);
      if i == -1 then Err(NodeNotFound(v)) else Ok(AtNode(i))
  }

  /** Both endpoints of a link are accepted. */
  predicate LinkResolvable(ids: seq<JsValue>, l: LinkDatum)
  {
    Resolvable(ids, l.source) && Resolvable(ids, l.target)
  }

  /** The endpoint d3 reports first for a link that does not resolve: its
      source, unless only its target is missing. */
  function MissingEnd(ids: seq<JsValue>, l: LinkDatum): JsValue
  {
    if !Resolvable(ids, l.source) then l.source else l.target
  }

  /** The links with both endpoints resolved, or the first missing id in link
      order, source before target. */
  function ResolveLinks(ids: seq<JsValue>, links: seq<LinkDatum>): (r: Result<seq<(Endpoint, Endpoint)>>)
    ensures r.Ok? <==> forall i :: 0 <= i < |links| ==> LinkResolvable(ids, links[i])
    ensures r.Ok? ==> |r.value| == |links|
    ensures r.Ok? ==> forall i :: 0 <= i < |links| ==>
      ResolveEndpoint(ids, links[i].source) == Ok(r.value[i].0)
      && ResolveEndpoint(ids, links[i].target) == Ok(r.value[i].1)
    decreases |links|
  {
    if links == [] then Ok([])
    else
      var first := links[0];
      match ResolveEndpoint(ids, first.source)
      case Err(e) => Err(e)
      case Ok(s) =>
        match ResolveEndpoint(ids, first.target)
        case Err(e) => Err(e)
        case Ok(t) =>
          match ResolveLinks(ids, links[1..])
          case Err(e) => Err(e)
          case Ok(rest) =>
            assert forall i :: 1 <= i < |links| ==> links[i] == links[1..][i - 1];
            Ok([(s, t)] + rest)
  }

  /** A failed resolution reports the first link in order that does not
      resolve, naming its source when that is missing and else its target. */
  lemma {:induction false} ResolveLinksError(ids: seq<JsValue>, links: seq<LinkDatum>)
    requires ResolveLinks(ids, links).Err?
    ensures exists k ::
              0 <= k < |links| && !LinkResolvable(ids, links[k])
              && (forall m :: 0 <= m < k ==> LinkResolvable(ids, links[m]))
              && ResolveLinks(ids, links).error == NodeNotFound(MissingEnd(ids, links[k]))
    decreases |links|
  {
    if LinkResolvable(ids, links[0]) {
      ResolveLinksError(ids, links[1..]);
      var k :| 0 <= k < |links[1..]| && !LinkResolvable(ids, links[1..][k])
        && (forall m :: 0 <= m < k ==> LinkResolvable(ids, links[1..][m]))
        && ResolveLinks(ids, links[1..]).error == NodeNotFound(MissingEnd(ids, links[1..][k]));
      assert links[k + 1] == links[1..][k];
      forall m | 0 <= m < k + 1 ensures LinkResolvable(ids, links[m]) {
        if m > 0 {
          assert links[m] == links[1..][m - 1];
        }
      }
    } else {
      assert !LinkResolvable(ids, links[0]);
    }
  }

  /** Everything the view computes before the simulation starts: the
      normalised nodes and links and the links' resolved endpoints. Reading
      the groups fails before any link is resolved. */
  function Prepare<D, E>(nodes: seq<D>, links: seq<E>, nodeId: D -> JsValue, nodeGroup: Option<D -> JsValue>,
                         linkSource: E -> JsValue, linkTarget: E -> JsValue)
    : (r: Result<(seq<NodeDatum>, seq<LinkDatum>, seq<(Endpoint, Endpoint)>)>)
    ensures NormalizeNodes(nodes, nodeId, nodeGroup).Err? ==> r == Err(GroupsMissing)
    ensures r.Ok? <==> (NormalizeNodes(nodes, nodeId, nodeGroup).Ok?
      && ResolveLinks(Interned(nodes, nodeId), NormalizeLinks(links, linkSource, linkTarget)).Ok?)
    ensures r.Ok? ==> (r.value.0 == NormalizeNodes(nodes, nodeId, nodeGroup).value
      && r.value.1 == NormalizeLinks(links, linkSource, linkTarget)
      && r.value.2 == ResolveLinks(Interned(nodes, nodeId), r.value.1).value)
  {
    match NormalizeNodes(nodes, nodeId, nodeGroup)
    case Err(e) => Err(e)
    case Ok(normalized) =>
      var ls := NormalizeLinks(links, linkSource, linkTarget);
      match ResolveLinks(Interned(nodes, nodeId), ls)
      case Err(e) => Err(e)
      case Ok(ends) => Ok((normalized, ls, ends))
  }

  // ---------------------------------------------------------------------
  // The running view: positions, ticks and dragging
  // ---------------------------------------------------------------------

  /** A node as the simulation holds it: its record, its current centre and
      its pin (`fx`, `fy`; `null` when free). */
  class SimNode {
    const datum: NodeDatum
    var x: real
    var y: real
    var fx: Option<real>
    var fy: Option<real>

    constructor (datum: NodeDatum, x: real, y: real)
      ensures this.datum == datum && this.x == x && this.y == y
      ensures fx == None && fy == None
    {
      this.datum := datum;
      this.x := x;
      this.y := y;
      fx := None;
      fy := None;
    }

    /** Both pin fields are set or both are clear. */
    predicate PinConsistent()
      reads this
    {
      fx.Some? <==> fy.Some?
    }
  }

  /** A resolved link: the two nodes it joins. */
  class SimLink {
    const source: SimNode
    const target: SimNode

    constructor (source: SimNode, target: SimNode)
      ensures this.source == source && this.target == target
    {
      this.source := source;
      this.target := target;
    }
  }

  /** A rectangle's top-left corner, a label's anchor, a line's two ends. */
  datatype Point = Point(x: real, y: real)
  datatype Line = Line(from: Point, to: Point)

  /** Half of an integer extent. */
  function Half(extent: int): real
  {
    extent as real / 2.0
  }

  /** The attribute values one tick writes: each rectangle's corner, each
      label's anchor and each line's ends, from the nodes' current centres.
      Nothing in the simulation changes. */
  method Ticked(nodes: seq<SimNode>, links: seq<SimLink>)
    returns (corners: seq<Point>, anchors: seq<Point>, lines: seq<Line>)
    ensures |corners| == |nodes| && |anchors| == |nodes| && |lines| == |links|
    ensures forall i :: 0 <= i < |nodes| ==>
      corners[i].x + Half(nodes[i].datum.size.width) == nodes[i].x
      && corners[i].y + Half(nodes[i].datum.size.height) == nodes[i].y
    ensures forall i :: 0 <= i < |nodes| ==> anchors[i] == Point(nodes[i].x, nodes[i].y)
    ensures forall i :: 0 <= i < |links| ==>
      lines[i] == Line(Point(links[i].source.x, links[i].source.y), Point(links[i].target.x, links[i].target.y))
  {
    lines := [];
    for i := 0 to |links|
      invariant |lines| == i
      invariant forall k :: 0 <= k < i ==>
        lines[k] == Line(Point(links[k].source.x, links[k].source.y), Point(links[k].target.x, links[k].target.y))
    {
      var l := links[i];
      lines := lines + [Line(Point(l.source.x, l.source.y), Point(l.target.x, l.target.y))];
    }
    corners := [];
    for i := 0 to |nodes|
      invariant |corners| == i
      invariant forall k :: 0 <= k < i ==>
        corners[k].x + Half(nodes[k].datum.size.width) == nodes[k].x
        && corners[k].y + Half(nodes[k].datum.size.height) == nodes[k].y
    {
      var d := nodes[i];
      corners := corners + [Point(d.x - Half(d.datum.size.width), d.y - Half(d.datum.size.height))];
    }
    anchors := [];
    for i := 0 to |nodes|
      invariant |anchors| == i
      invariant forall k :: 0 <= k < i ==> anchors[k] == Point(nodes[k].x, nodes[k].y)
    {
      anchors := anchors + [Point(nodes[i].x, nodes[i].y)];
    }
  }

  /** The simulation's state that dragging touches: the alpha target it
      moves towards and how often `restart()` has been called. A fresh
      simulation targets alpha 0 and starts its timer by itself. */
  class Simulation {
    var alphaTarget: real
    var restarts: nat

    constructor ()
      ensures alphaTarget == 0.0 && restarts == 0
    {
      alphaTarget := 0.0;
      restarts := 0;
    }

    /** `dragstarted`: the first concurrent drag (`active` counts the others)
        reheats the simulation towards alpha 0.3 and restarts it; the
        dragged node is pinned where it is. */
    method DragStarted(subject: SimNode, active: nat)
      modifies this, subject`fx, subject`fy
      ensures subject.fx == Some(subject.x) && subject.fy == Some(subject.y)
      ensures subject.PinConsistent()
      ensures active == 0 ==> alphaTarget == 0.3 && restarts == old(restarts) + 1
      ensures active != 0 ==> alphaTarget == old(alphaTarget) && restarts == old(restarts)
    {
      if active == 0 {
        alphaTarget := 0.3;
        restarts := restarts + 1;
      }
      subject.fx := Some(subject.x);
      subject.fy := Some(subject.y);
    }

    /** `dragged`: the pin follows the pointer; nothing else changes. */
    method Dragged(subject: SimNode, px: real, py: real)
      modifies subject`fx, subject`fy
      ensures subject.fx == Some(px) && subject.fy == Some(py)
      ensures subject.PinConsistent()
    {
      subject.fx := Some(px);
      subject.fy := Some(py);
    }

    /** `dragended`: the node is released; the last concurrent drag to end
        lets the simulation cool towards alpha 0. */
    method DragEnded(subject: SimNode, active: nat)
      modifies this`alphaTarget, subject`fx, subject`fy
      ensures subject.fx == None && subject.fy == None
      ensures subject.PinConsistent()
      ensures active == 0 ==> alphaTarget == 0.0
      ensures active != 0 ==> alphaTarget == old(alphaTarget)
    {
      if active == 0 {
        alphaTarget := 0.0;
      }
      subject.fx := None;
      subject.fy := None;
    }

    /** A whole gesture with no other drag active: start, pointer moves, end.
        The node is released where it was, the pin fields are clear again,
        the alpha target is back to 0 and the simulation was restarted once. */
    method DragGesture(subject: SimNode, moves: seq<Point>)
      modifies this, subject`fx, subject`fy
      ensures subject.fx == None && subject.fy == None
      ensures subject.x == old(subject.x) && subject.y == old(subject.y)
      ensures alphaTarget == 0.0 && restarts == old(restarts) + 1
    {
      DragStarted(subject, 0);
      for m := 0 to |moves|
        modifies subject`fx, subject`fy
      {
        Dragged(subject, moves[m].x, moves[m].y);
      }
      DragEnded(subject, 0);
    }
  }
}
