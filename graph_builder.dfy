/** The graph construction that runs when the application module loads: one
    root node, one node and one project-to-root link per project, tag buckets
    in first-seen order, and a project-to-project link for every ordered pair
    of children of each bucket. */
module GraphBuilder {
  import opened Graph

  /** An entry of the project list: a title and its tags, in file order. */
  datatype Project = Project(title: string, tags: seq<string>)

  /** An entry of `tagArray`: a tag and the titles of the projects that carry
      it, one per occurrence of the tag, in input order. */
  datatype Bucket = Bucket(tag: string, children: seq<string>)

  /** The root's id, fixed in the application source. */
  const Owner: string := "Sylvia Ke"

  // ---------------------------------------------------------------------
  // Specification of the first phase: nodes, root links and tag buckets
  // ---------------------------------------------------------------------

  /** `tagArray.findIndex(element => element.tag == tag)`: the first bucket
      holding `tag`, or -1 when there is none. */
  function FindIndex(buckets: seq<Bucket>, tag: string): (i: int)
    ensures -1 <= i < |buckets|
    ensures i == -1 <==> forall k :: 0 <= k < |buckets| ==> buckets[k].tag != tag
    ensures 0 <= i ==> buckets[i].tag == tag && forall k :: 0 <= k < i ==> buckets[k].tag != tag
  {
    if |buckets| == 0 then -1
    else if buckets[0].tag == tag then 0
    else
      var i := FindIndex(buckets[1..], tag);
      if i == -1 then -1 else i + 1
  }

  /** The tags of a bucket list, in bucket order. */
  function Tags(buckets: seq<Bucket>): seq<string>
  {
    seq(|buckets|, k requires 0 <= k < |buckets| => buckets[k].tag)
  }

  /** One step of the inner `forEach`: project `title` carries `tag`. */
  function AddTag(buckets: seq<Bucket>, tag: string, title: string): seq<Bucket>
  {
    var i := FindIndex(buckets, tag);
    if i == -1 then buckets + [Bucket(tag, [title])]
    else buckets[i := buckets[i].(children := buckets[i].children + [title])]
  }

  /** The buckets after project `title` has visited each of `tags` in turn. */
  function AddTags(buckets: seq<Bucket>, title: string, tags: seq<string>): seq<Bucket>
    decreases |tags|
  {
    if tags == [] then buckets
    else AddTag(AddTags(buckets, title, tags[..|tags| - 1]), tags[|tags| - 1], title)
  }

  /** `tagArray` after the projects have been visited in order. */
  function Buckets(projects: seq<Project>): seq<Bucket>
    decreases |projects|
  {
    if projects == [] then []
    else
      var last := projects[|projects| - 1];
      AddTags(Buckets(projects[..|projects| - 1]), last.title, last.tags)
  }

  /** The node list: the root first, then one project node per project. */
  function Nodes(projects: seq<Project>, rootId: string): seq<Node>
  {
    [Node(rootId, RootKind)]
      + seq(|projects|, k requires 0 <= k < |projects| => Node(projects[k].title, ProjectKind))
  }

  /** The project-to-root links, one per project, in input order. */
  function RootLinks(projects: seq<Project>, rootId: string): seq<Link>
  {
    seq(|projects|, k requires 0 <= k < |projects| => Link(projects[k].title, rootId, ProjectToRoot))
  }

  // ---------------------------------------------------------------------
  // Specification of the second phase: pairwise links per bucket
  // ---------------------------------------------------------------------

  /** The links the inner `j` loop emits for a fixed first endpoint `from`,
      one per element of `rest`, in order. */
  function Fan(from: string, rest: seq<string>): seq<Link>
    decreases |rest|
  {
    if rest == [] then []
    else Fan(from, rest[..|rest| - 1]) + [Link(from, rest[|rest| - 1], ProjectToProject)]
  }

  /** The links emitted by the first `n` iterations of the outer `i` loop
      over `children`. */
  function Rows(children: seq<string>, n: nat): seq<Link>
    requires n <= |children|
  {
    if n == 0 then []
    else Rows(children, n - 1) + Fan(children[n - 1], children[n..])
  }

  /** All links of one bucket: one per index pair i < j, in (i, j) order. */
  function PairLinks(children: seq<string>): seq<Link>
  {
    Rows(children, |children|)
  }

  /** The project-to-project links of a bucket list, bucket by bucket. */
  function TagLinks(buckets: seq<Bucket>): seq<Link>
    decreases |buckets|
  {
    if buckets == [] then []
    else TagLinks(buckets[..|buckets| - 1]) + PairLinks(buckets[|buckets| - 1].children)
  }

  /** The link list: the root links, then the pair links of every bucket. */
  function Links(projects: seq<Project>, rootId: string): seq<Link>
  {
    RootLinks(projects, rootId) + TagLinks(Buckets(projects))
  }

  // ---------------------------------------------------------------------
  // The builder
  // ---------------------------------------------------------------------

  /** The inner `forEach` over one project's tags: each tag either opens a
      new bucket (when `findIndex` gives -1) or appends the title to the
      bucket that holds it. */
  method BucketTags(tagArray: seq<Bucket>, project: Project) returns (updated: seq<Bucket>)
    ensures updated == AddTags(tagArray, project.title, project.tags)
  {
    updated := tagArray;
    for t := 0 to |project.tags|
      invariant updated == AddTags(tagArray, project.title, project.tags[..t])
    {
      var tag := project.tags[t];
      var i := FindIndex(updated, tag);
      if i == -1 {
        updated := updated + [Bucket(tag, [project.title])];
      } else {
        updated := updated[i := updated[i].(children := updated[i].children + [project.title])];
      }
      assert project.tags[..t + 1][..t] == project.tags[..t];
    }
    assert project.tags[..|project.tags|] == project.tags;
  }

  /** The inner `j` loop over one bucket's children for a fixed `i`: a link
      from `children[i]` to each later child, appended to `links`. */
  method EmitRow(links: seq<Link>, children: seq<string>, i: nat) returns (extended: seq<Link>)
    requires i < |children|
    ensures extended == links + Fan(children[i], children[i + 1..])
  {
    extended := links;
    for j := i + 1 to |children|
      invariant extended == links + Fan(children[i], children[i + 1..j])
    {
      extended := extended + [Link(children[i], children[j], ProjectToProject)];
      assert children[i + 1..j + 1][..j - i - 1] == children[i + 1..j];
      assert Fan(children[i], children[i + 1..j + 1])
          == Fan(children[i], children[i + 1..j]) + [Link(children[i], children[j], ProjectToProject)];
    }
    assert children[i + 1..|children|] == children[i + 1..];
  }

  /** The nested `i`/`j` loops over one bucket's children: one link per index
      pair i < j, appended to `links`. */
  method EmitPairLinks(links: seq<Link>, children: seq<string>) returns (extended: seq<Link>)
    ensures extended == links + PairLinks(children)
  {
    extended := links;
    for i := 0 to |children|
      invariant extended == links + Rows(children, i)
    {
      extended := EmitRow(extended, children, i);
    }
  }

  /** The `forEach` over the projects (together with the root push before
      it): a project node, a project-to-root link and the project's tags put
      into buckets, per project. */
  method VisitProjects(projects: seq<Project>, rootId: string)
    returns (nodes: seq<Node>, links: seq<Link>, tagArray: seq<Bucket>)
    ensures nodes == Nodes(projects, rootId)
    ensures links == RootLinks(projects, rootId)
    ensures tagArray == Buckets(projects)
  {
    nodes := [Node(rootId, RootKind)];
    links := [];
    tagArray := [];
    for k := 0 to |projects|
      invariant nodes == Nodes(projects[..k], rootId)
      invariant links == RootLinks(projects[..k], rootId)
      invariant tagArray == Buckets(projects[..k])
    {
      var project := projects[k];
      nodes := nodes + [Node(project.title, ProjectKind)];
      links := links + [Link(project.title, rootId, ProjectToRoot)];
      tagArray := BucketTags(tagArray, project);
      assert projects[..k + 1][..k] == projects[..k];
      assert Buckets(projects[..k + 1]) == tagArray;
    }
    assert projects[..|projects|] == projects;
  }

  /** The `forEach` over `tagArray`: the pair links of every bucket, bucket
      by bucket, appended to `links`. */
  method EmitTagLinks(links: seq<Link>, tagArray: seq<Bucket>) returns (extended: seq<Link>)
    ensures extended == links + TagLinks(tagArray)
  {
    extended := links;
    for b := 0 to |tagArray|
      invariant extended == links + TagLinks(tagArray[..b])
    {
      extended := EmitPairLinks(extended, tagArray[b].children);
      assert tagArray[..b + 1][..b] == tagArray[..b];
    }
    assert tagArray[..|tagArray|] == tagArray;
  }

  /** The module-level construction of `nodes`, `links` and `tagArray`
      (lines 9-38 of App.jsx), with the root's id as a parameter: the
      application passes `Owner`. */
  method BuildGraph(projects: seq<Project>, rootId: string)
    returns (nodes: seq<Node>, links: seq<Link>, tagArray: seq<Bucket>)
    ensures |nodes| == |projects| + 1 && nodes[0] == Node(rootId, RootKind)
    ensures forall k :: 0 <= k < |projects| ==> nodes[k + 1] == Node(projects[k].title, ProjectKind)
    ensures nodes == Nodes(projects, rootId)
    ensures tagArray == Buckets(projects)
    ensures links == Links(projects, rootId)
  {
    nodes, links, tagArray := VisitProjects(projects, rootId);
    links := EmitTagLinks(links, tagArray);
  }
}
