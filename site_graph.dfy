/** The graph the site builds, handed to the force-directed view with the
    accessors the page passes: node ids and groups from the `id` and `type`
    fields, link endpoints from the default `source` and `target` accessors. */
module SiteGraph {
  import opened Js
  import opened Graph
  import opened GraphBuilder
  import opened BuilderProperties
  import opened ForceGraph

  function NodeIdOf(n: Node): JsValue
  {
    StrValue(n.id)
  }

  function NodeTypeOf(n: Node): JsValue
  {
    StrValue(KindName(n.kind))
  }

  function SourceOf(l: Link): JsValue
  {
    StrValue(l.source)
  }

  function TargetOf(l: Link): JsValue
  {
    StrValue(l.target)
  }

  /** With the page's accessors, each node is normalised to its id and its
      kind's size and text. */
  lemma {:induction false} NodesNormalize(nodes: seq<Node>)
    ensures var r := NormalizeNodes(nodes, NodeIdOf, Some(NodeTypeOf));
      r.Ok? && |r.value| == |nodes|
      && forall i :: 0 <= i < |nodes| ==>
           r.value[i].id == StrValue(nodes[i].id)
           && r.value[i].size == SizeOf(nodes[i].kind)
           && r.value[i].text == TextOf(nodes[i].kind)
  {
    NodeTables(nodes, NodeIdOf, NodeTypeOf, (n: Node) => n.kind);
  }

  /** Links whose endpoints are all node ids resolve, each endpoint to a node
      carrying that id. */
  lemma {:induction false} LinksResolve(nodes: seq<Node>, links: seq<Link>)
    requires forall l :: l in links ==> l.source in Graph.Ids(nodes) && l.target in Graph.Ids(nodes)
    ensures var r := ResolveLinks(Interned(nodes, NodeIdOf), NormalizeLinks(links, SourceOf, TargetOf));
      r.Ok? && |r.value| == |links|
      && forall k :: 0 <= k < |links| ==>
           r.value[k].0.AtNode? && r.value[k].0.index < |nodes|
           && nodes[r.value[k].0.index].id == links[k].source
           && r.value[k].1.AtNode? && r.value[k].1.index < |nodes|
           && nodes[r.value[k].1.index].id == links[k].target
  {
    var ids := Interned(nodes, NodeIdOf);
    var ls := NormalizeLinks(links, SourceOf, TargetOf);
    forall id | id in Graph.Ids(nodes) ensures StrValue(id) in ids {
      var i :| 0 <= i < |nodes| && nodes[i].id == id;
      assert ids[i] == StrValue(id);
    }
    forall k | 0 <= k < |ls| ensures ls[k].source in ids && ls[k].target in ids {
      assert links[k] in links;
    }
    var ends := ResolveLinks(ids, ls);
    forall k | 0 <= k < |links|
      ensures ends.value[k].0.AtNode? && ends.value[k].0.index < |nodes|
      ensures nodes[ends.value[k].0.index].id == links[k].source
      ensures ends.value[k].1.AtNode? && ends.value[k].1.index < |nodes|
      ensures nodes[ends.value[k].1.index].id == links[k].target
    {
      assert ids[ends.value[k].0.index] == StrValue(links[k].source);
      assert ids[ends.value[k].1.index] == StrValue(links[k].target);
    }
  }

  /** The view accepts the site's graph whatever the projects are: no node
      lacks a group and no link names a missing node, so neither failure of
      the view can happen. */
  lemma {:induction false} SiteGraphPrepares(projects: seq<Project>)
    ensures Prepare(Nodes(projects, Owner), Links(projects, Owner),
                    NodeIdOf, Some(NodeTypeOf), SourceOf, TargetOf).Ok?
  {
    NodesNormalize(Nodes(projects, Owner));
    EndpointsAreNodes(projects, Owner);
    LinksResolve(Nodes(projects, Owner), Links(projects, Owner));
  }
}
