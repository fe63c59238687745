# Portfolio graph: builder and force-directed view

The portfolio site shows its owner as a root node with one node per project.
The projects hang off the root and are pulled together by the tags they share.
This project models two parts of the site in Dafny and proves what they promise.

- **The graph builder** runs when `src/App.jsx` loads. It pushes the root node, then one project node and one
  project-to-root (`p2r`) link per project. While doing so it groups the titles into tag buckets (`tagArray`):
  a `findIndex` search either finds the tag's bucket or opens a new one. Finally it emits one
  project-to-project (`p2p`) link per index pair i < j of every bucket's children. This is modelled
  imperatively (`GraphBuilder.BuildGraph` and the loop methods it calls). Each method is proved equal to a
  specification function: `Nodes` and `RootLinks` are sequence comprehensions, `Links` joins the root links
  to `TagLinks`, and `Buckets`, `AddTags`, `TagLinks`, `Rows` and `Fan` recurse on prefixes, so each loop
  invariant reads "the state so far is the function of the input so far". The properties are proved as
  lemmas about those functions (`BuilderProperties`, `BuilderExample`).
- **The force-directed view** is `src/modules/ForceGraph.js`. Node and link normalisation, `intern` and the
  ordinal size and text scales are pure functions (`Js`, `OrdinalScale`, `ForceGraph`). Link resolution by
  id, as configured with `forceLink(...).id(...)`, is a function too. Each tick's placement is a method that
  only reads the nodes. The drag handlers are methods of a `Simulation` class that update the dragged
  node's `fx`/`fy` pin fields and the simulation's alpha target.
- **`SiteGraph`** connects the two. With the accessors `src/modules/NodeSVG.jsx` passes, every graph the
  builder can produce is accepted by the view: no node lacks a group and no link names a missing node.

Modules: `Graph` (shared node and link records, `graph.dfy`), `GraphBuilder` (`graph_builder.dfy`),
`BuilderProperties` (`builder_properties.dfy`), `BuilderExample` (`builder_example.dfy`), `Js`
(`js_value.dfy`), `OrdinalScale` (`ordinal_scale.dfy`), `ForceGraph` (`force_graph.dfy`), `SiteGraph`
(`site_graph.dfy`).

Where the design description and the code differ, the model follows the code:

- The description treats a project's tags as a set. The code walks them as a list and never deduplicates.
  A tag listed twice therefore puts the title into its bucket twice. The project is then linked to itself
  (`BuilderExample.RepeatedTagSelfLink`), and the link counts between two projects multiply
  (`BuilderProperties.LinksBetween`).
- The description calls titles unique identifiers. The code does not check this. The lemmas that need it
  take distinct titles as a precondition.
- The root's id is the literal `"Sylvia Ke"` in the code. It is `GraphBuilder.Owner`, and the builder takes
  it as a parameter.

## Model

| member | source | states |
|---|---|---|
| GraphBuilder.FindIndex | src/App.jsx:19 | the result is -1 exactly when no bucket has the tag; otherwise it is the first bucket with the tag |
| GraphBuilder.BucketTags | src/App.jsx:18-29 | the inner tag loop (open a bucket on -1, else append the title to the found bucket) gives `AddTags` of the old buckets |
| GraphBuilder.EmitRow | src/App.jsx:34-36 | the `j` loop appends a link from `children[i]` to each later child, in order |
| GraphBuilder.EmitPairLinks | src/App.jsx:33-37 | the nested `i`/`j` loops append exactly the bucket's `PairLinks` |
| GraphBuilder.VisitProjects | src/App.jsx:13-30 | the project loop yields the node list, the root links and the buckets of the specification functions |
| GraphBuilder.EmitTagLinks | src/App.jsx:32-38 | the bucket loop appends the pair links of every bucket, bucket by bucket |
| GraphBuilder.BuildGraph | src/App.jsx:9-38 | node count is 1 + number of projects; node 0 is the root and node k+1 is project k's title with kind project; buckets and links equal `Buckets` and `Links` |
| BuilderProperties.Extend | src/App.jsx:19-24 | reference definition of first-seen order: it keeps the seen prefix, has exactly the members of both inputs, and stays duplicate-free |
| BuilderProperties.BucketTagsFirstSeen | src/App.jsx:19-24 | the bucket tags are exactly the distinct tags in first-seen order over all projects; they are pairwise distinct, and a tag has a bucket iff some project lists it |
| BuilderProperties.BucketChildren | src/App.jsx:18-27 | a tag's bucket lists, in input order, each carrying project's title once per occurrence of the tag in its list (no deduplication) |
| BuilderProperties.BucketAt | src/App.jsx:18-27 | the same, read off the bucket at any position |
| BuilderProperties.CarriersMembers | src/App.jsx:18-27 | a title is in a tag's bucket iff some project with that title lists the tag |
| BuilderProperties.FanShape | src/App.jsx:34-35 | the inner loop's links go from `children[i]` to each later child, one per child, in order |
| BuilderProperties.PairLinksLength | src/App.jsx:33-34 | a bucket with k children yields k(k-1)/2 pair links, so a single-child bucket yields none |
| BuilderProperties.PairLinksAt | src/App.jsx:33-35 | for every i < j, the link at position i(2k-i-1)/2 + (j-i-1) of the bucket's links joins `children[i]` to `children[j]` |
| BuilderProperties.PairLinksMembers | src/App.jsx:33-35 | every pair link joins an earlier child to a later child of its bucket |
| BuilderProperties.TagLinksShape | src/App.jsx:32-38 | the tag links number the sum of k(k-1)/2 over buckets; all are `p2p` and both ends are in one bucket |
| BuilderProperties.LinkLayout | src/App.jsx:15-38 | the links number the projects plus the sum of k(k-1)/2; link k < number of projects is project k's title to the root; a link is `p2r` iff it comes before all `p2p` links |
| BuilderProperties.EndpointsAreNodes | src/App.jsx:13-35 | the source and target of every link of either kind are node ids |
| BuilderProperties.UntaggedProjectIsolated | src/App.jsx:18-34 | with distinct titles, a project with no tags is an endpoint of no `p2p` link |
| BuilderProperties.PairLinksCount | src/App.jsx:33-35 | the number of links x to y in a bucket is the number of index pairs i < j with `children[i]` = x and `children[j]` = y |
| BuilderProperties.LinksBetween | src/App.jsx:32-38 | with distinct titles, project a is linked to a later project b once per shared tag occurrence pair (sum over tags of the product of counts); a later project is never linked to an earlier one |
| BuilderProperties.LinkedIffShareTag | src/App.jsx:18-38 | with distinct titles, two projects are joined by a `p2p` link in some direction iff they share a tag |
| BuilderProperties.SharedTagsLinkCount | src/App.jsx:32-38 | when neither lists a tag twice, two projects sharing m distinct tags are joined by exactly m links, earlier to later, and none the other way |
| BuilderExample.SampleBuckets | src/App.jsx:18-29 | for A[x], B[x], C[y] the buckets are x: [A, B] and y: [C] |
| BuilderExample.SampleGraph | src/App.jsx:13-38 | for A[x], B[x], C[y] the nodes are root, A, B, C and the links are A, B, C to the root, then A to B |
| BuilderExample.RepeatedTagSelfLink | src/App.jsx:18-35 | a project listing tag x twice gets a bucket [A, A] and a `p2p` link from itself to itself |
| Js.Intern | src/modules/ForceGraph.js:129-131 | non-objects are returned unchanged; a wrapper object becomes its primitive; the result is never a wrapper |
| OrdinalScale.IndexOf | src/modules/ForceGraph.js:39-47 | the result is -1 iff the key is absent from the scale's domain; otherwise it is the key's first position |
| OrdinalScale.ApplyAllDomain | src/modules/ForceGraph.js:39-47 | a run of scale lookups only appends to the domain, and the domain afterwards holds exactly the old keys and the keys looked up |
| OrdinalScale.ApplyAllAt | src/modules/ForceGraph.js:39-47 | every looked-up value is the range entry at the key's position in the final domain, cyclically |
| OrdinalScale.ApplyAllConsistent | src/modules/ForceGraph.js:39-47 | equal keys get equal values, and every value is a range entry |
| OrdinalScale.ApplyAllKnown | src/modules/ForceGraph.js:39-47 | lookups of keys already in the domain leave the scale unchanged and give the entry at the key's given position |
| ForceGraph.ScalesByKind | src/modules/ForceGraph.js:39-47 | "root" gives {120, 90, radius 0} and text 24, "tag" gives {70, 70, radius 35} and text 16, "project" gives {80, 60, radius 0} and text 16; such lookups leave the scales unchanged |
| ForceGraph.Interned | src/modules/ForceGraph.js:32-35 | `N` and `G` keep count and order; each entry is the interned accessor value and is never a wrapper |
| ForceGraph.NormalizeNodes | src/modules/ForceGraph.js:32-52 | it fails iff no `nodeGroup` is given and there is a node, because `G[i]` reads null; otherwise count and order are kept, and node i has `id` N[i] and `type` G[i] |
| ForceGraph.NodeTables | src/modules/ForceGraph.js:39-52 | when every group is a kind name, each normalised node gets that kind's size and text |
| ForceGraph.NodeLookByDomain | src/modules/ForceGraph.js:39-52 | for any groups, a node's size and text are the table entries at its group's position in the grown domain (the three kind names first, other groups appended when first seen), cyclically |
| ForceGraph.SameGroupSameLook | src/modules/ForceGraph.js:39-52 | for any groups, nodes with the same group get the same size and text, each taken from the tables |
| ForceGraph.NormalizeLinks | src/modules/ForceGraph.js:33-53 | count and order are kept, and each link's source and target are the interned accessor values |
| ForceGraph.LastIndexOf | src/modules/ForceGraph.js:62-63 | the id lookup finds the last node with the id, or -1 iff none has it |
| ForceGraph.ResolveEndpoint | src/modules/ForceGraph.js:62-63 | an endpoint whose `typeof` is "object" is kept as given; an id resolves to the last node carrying it (no later node has it); any other value fails with "node not found" naming it |
| ForceGraph.ResolveLinksError | src/modules/ForceGraph.js:62-63 | a failed resolution names the first link in order with an unresolvable endpoint, its source if that is missing and else its target |
| ForceGraph.ResolveLinks | src/modules/ForceGraph.js:62-63 | resolution succeeds iff every endpoint is an object or a node id; it then keeps count and order, and each pair is its endpoints' resolution |
| ForceGraph.Prepare | src/modules/ForceGraph.js:32-63 | a missing group fails before links are resolved; success iff nodes normalise and links resolve, and the result is those |
| ForceGraph.Ticked | src/modules/ForceGraph.js:133-147 | each rectangle's corner plus half its size is the node's centre; each label sits at the centre; each line runs between its endpoints' centres; count and order are kept |
| ForceGraph.Simulation.DragStarted | src/modules/ForceGraph.js:150-154 | pins the subject at its current position; when no other drag is active it sets alpha target 0.3 and calls `restart()` once, otherwise the alpha target and restart count are unchanged |
| ForceGraph.Simulation.Dragged | src/modules/ForceGraph.js:156-159 | sets the pin to the pointer and changes nothing else |
| ForceGraph.Simulation.DragEnded | src/modules/ForceGraph.js:161-165 | clears both pin fields; when no other drag is active it sets alpha target 0, otherwise the alpha target is unchanged |
| ForceGraph.Simulation.DragGesture | src/modules/ForceGraph.js:149-171 | a lone start, any moves, then end leave the node unpinned at its position, alpha target 0, and exactly one `restart()` call |
| SiteGraph.NodesNormalize | src/modules/NodeSVG.jsx:14-16 | with `id` and `type` accessors, every node keeps its id and gets its kind's size and text |
| SiteGraph.LinksResolve | src/modules/ForceGraph.js:62-63 | links whose endpoints are node ids resolve, each endpoint to a node with that id |
| SiteGraph.SiteGraphPrepares | src/modules/NodeSVG.jsx:14-26 | the view accepts every graph the builder can produce: no missing group, no missing node |

## Left out

- The force simulation is not modelled: many-body charge -450, link distance 80 and strength 0.05, the centering force, velocities and alpha decay (src/modules/ForceGraph.js:59-73). It is floating-point physics inside d3. The pin takes effect only inside d3's tick, so that is not modelled either.
- SVG and DOM construction, styling, the background text, and the per-link stroke arrays `W` and `L` are left out (src/modules/ForceGraph.js:36-37, 75-126). They are rendering only.
- Zoom is left out (src/modules/ForceGraph.js:173-184). It is d3 behaviour on DOM transforms. Its configuration is a scale extent of [0.75, 8] and an initial scale of 4.
- The `invalidation` promise is left out (src/modules/ForceGraph.js:127). It is asynchronous teardown.
- The `svgWidth`/`svgHeight` defaults are left out (src/modules/ForceGraph.js:28-29). The page always passes a width and height.
- The default `nodeGroups` sort is left out (src/modules/ForceGraph.js:56). Nothing afterwards reads its result.
- React rendering is left out: `App`, `NodeSVG`'s markup, `useD3`, `NodeCanvas` and the window-size hook. The `projects.json` load is I/O, so the projects are an input sequence.
- Numbers are reals, so NaN, signed zero and floating-point rounding are not represented.
- The project records are assumed well-formed: every record has a string `title` and a `tags` array of strings. A record without `tags` makes `project.tags.forEach` throw (src/App.jsx:18), and non-string titles or tags would change how `findIndex`'s loose equality compares them; the `Project` type rules both out.
- `findIndex` uses loose equality `==` on tags. Tags are strings, so this is string equality.
- `Js.Intern`: an object other than a primitive wrapper is its own `valueOf()`. An overridden `valueOf` (such as a `Date`'s) is not modelled. Wrappers exist for booleans, numbers and strings only (`null` and `undefined` have none); `Symbol` and `BigInt` wrappers are not modelled.
- `ForceGraph.ResolveEndpoint`: an endpoint whose `typeof` is "object" (a node object, or `null`) is kept as given. The model does not follow what d3 then does with it. In particular a `null` endpoint makes d3's link initialisation throw when it next reads the endpoint's `index`, so `ResolveLinks` succeeding does not promise that d3 succeeds when an endpoint is `null`.
- `ForceGraph.Ticked` returns the attribute values a tick writes rather than writing them to elements. Rectangle sizes are set once at creation, not per tick.
- `ForceGraph.Simulation.DragStarted`: `restart()` is recorded only as a count of calls. The timer and the current alpha are not modelled.
- `ForceGraph.Simulation.DragGesture`: no simulation ticks run between the drag events. So the node's centre is unchanged at the end.
- `OrdinalScale`: only the default implicit-unknown behaviour is modelled, where a missing key is appended to the domain. The scale's `unknown` setting is not.
