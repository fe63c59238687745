/** What the graph builder promises: the shape of the node list, the place and
    number of the project-to-root links, the order and contents of the tag
    buckets, and the number, order and endpoints of the project-to-project
    links. */
module BuilderProperties {
  import opened Graph
  import opened GraphBuilder

  // ---------------------------------------------------------------------
  // Reference definitions
  // ---------------------------------------------------------------------

  /** The number of occurrences of `x` in `s`. */
  function Count<T(==)>(s: seq<T>, x: T): (n: nat)
    ensures n <= |s|
    ensures n > 0 <==> x in s
    decreases |s|
  {
    if s == [] then 0
    else Count(s[..|s| - 1], x) + (if s[|s| - 1] == x then 1 else 0)
  }

  /** `n` copies of `x`. */
  function Repeat<T>(x: T, n: nat): seq<T>
  {
    seq(n, _ => x)
  }

  /** No element of `s` occurs twice. */
  predicate Distinct<T(==)>(s: seq<T>)
  {
    forall i, j :: 0 <= i < j < |s| ==> s[i] != s[j]
  }

  /** The titles of the projects, in input order. */
  function Titles(projects: seq<Project>): seq<string>
  {
    seq(|projects|, k requires 0 <= k < |projects| => projects[k].title)
  }

  /** Every tag occurrence of every project, in input order. */
  function AllTags(projects: seq<Project>): seq<string>
    decreases |projects|
  {
    if projects == [] then []
    else AllTags(projects[..|projects| - 1]) + projects[|projects| - 1].tags
  }

  /** `seen` followed by the elements of `ts` that are not yet there, each at
      its first occurrence. */
  function Extend(seen: seq<string>, ts: seq<string>): (r: seq<string>)
    ensures forall x :: x in r <==> x in seen || x in ts
    ensures Distinct(seen) ==> Distinct(r)
    ensures |seen| <= |r| && r[..|seen|] == seen
    decreases |ts|
  {
    if ts == [] then seen
    else
      var s := Extend(seen, ts[..|ts| - 1]);
      var t := ts[|ts| - 1];
      if t in s then s else s + [t]
  }

  /** The distinct elements of `ts` in first-seen order. */
  function FirstSeen(ts: seq<string>): (r: seq<string>)
    ensures Distinct(r)
    ensures forall x :: x in r <==> x in ts
  {
    Extend([], ts)
  }

  /** The titles of the projects that carry `tag`, each repeated once per
      occurrence of the tag in that project's tag list, in input order. */
  function Carriers(projects: seq<Project>, tag: string): seq<string>
    decreases |projects|
  {
    if projects == [] then []
    else
      var last := projects[|projects| - 1];
      Carriers(projects[..|projects| - 1], tag) + Repeat(last.title, Count(last.tags, tag))
  }

  /** The children of the bucket holding `tag`, as `findIndex` finds it, or
      none when no bucket holds it. */
  function ChildrenOf(buckets: seq<Bucket>, tag: string): seq<string>
  {
    var i := FindIndex(buckets, tag);
    if i == -1 then [] else buckets[i].children
  }

  /** The number of pairs i < j among `k` elements. */
  function Choose2(k: nat): nat
  {
    k * (k - 1) / 2
  }

  /** The number of pair links all buckets yield together. */
  function PairTotal(buckets: seq<Bucket>): nat
    decreases |buckets|
  {
    if buckets == [] then 0
    else PairTotal(buckets[..|buckets| - 1]) + Choose2(|buckets[|buckets| - 1].children|)
  }

  // ---------------------------------------------------------------------
  // Tag buckets: first-seen order, distinct tags
  // ---------------------------------------------------------------------

  lemma {:induction false} FindIndexByTags(b1: seq<Bucket>, b2: seq<Bucket>, tag: string)
    requires Tags(b1) == Tags(b2)
    ensures FindIndex(b1, tag) == FindIndex(b2, tag)
  {
    var i1, i2 := FindIndex(b1, tag), FindIndex(b2, tag);
    assert |b1| == |Tags(b1)| == |b2|;
    assert forall k :: 0 <= k < |b1| ==> b1[k].tag == Tags(b1)[k] == b2[k].tag;
  }

  lemma {:induction false} FindIndexAppend(b: seq<Bucket>, extra: Bucket, tag: string)
    ensures FindIndex(b + [extra], tag)
         == if FindIndex(b, tag) != -1 then FindIndex(b, tag)
            else if extra.tag == tag then |b| else -1
  {
    var i, j := FindIndex(b, tag), FindIndex(b + [extra], tag);
    assert forall k :: 0 <= k < |b| ==> (b + [extra])[k] == b[k];
    if i != -1 {
      assert (b + [extra])[i].tag == tag;
    } else if extra.tag == tag {
      assert (b + [extra])[|b|].tag == tag;
    }
  }

  /** A tag opens a new bucket exactly when no bucket holds it yet. */
  lemma {:induction false} AddTagTags(buckets: seq<Bucket>, tag: string, title: string)
    ensures Tags(AddTag(buckets, tag, title))
         == if tag in Tags(buckets) then Tags(buckets) else Tags(buckets) + [tag]
  {
    var i := FindIndex(buckets, tag);
    if i == -1 {
      assert tag !in Tags(buckets);
    } else {
      assert Tags(buckets)[i] == tag;
    }
  }

  lemma {:induction false} AddTagsTags(buckets: seq<Bucket>, title: string, tags: seq<string>)
    ensures Tags(AddTags(buckets, title, tags)) == Extend(Tags(buckets), tags)
    decreases |tags|
  {
    if tags != [] {
      var init := tags[..|tags| - 1];
      AddTagsTags(buckets, title, init);
      AddTagTags(AddTags(buckets, title, init), tags[|tags| - 1], title);
    }
  }

  lemma {:induction false} ExtendAppend(seen: seq<string>, a: seq<string>, b: seq<string>)
    ensures Extend(seen, a + b) == Extend(Extend(seen, a), b)
    decreases |b|
  {
    if b == [] {
      assert a + b == a;
    } else {
      assert (a + b)[..|a + b| - 1] == a + b[..|b| - 1];
      ExtendAppend(seen, a, b[..|b| - 1]);
    }
  }

  /** The bucket tags are the distinct tags of the input in first-seen order:
      no tag is held by two buckets, every tag of every project has a bucket,
      and a bucket is opened at a tag's first occurrence. */
  lemma {:induction false} BucketTagsFirstSeen(projects: seq<Project>)
    ensures Tags(Buckets(projects)) == FirstSeen(AllTags(projects))
    ensures Distinct(Tags(Buckets(projects)))
    ensures forall t :: t in Tags(Buckets(projects)) <==> t in AllTags(projects)
    decreases |projects|
  {
    if projects != [] {
      var init := projects[..|projects| - 1];
      var last := projects[|projects| - 1];
      BucketTagsFirstSeen(init);
      AddTagsTags(Buckets(init), last.title, last.tags);
      ExtendAppend([], AllTags(init), last.tags);
    }
  }

  // ---------------------------------------------------------------------
  // Tag buckets: children
  // ---------------------------------------------------------------------

  lemma {:induction false} AddTagChildren(buckets: seq<Bucket>, added: string, title: string, tag: string)
    ensures ChildrenOf(AddTag(buckets, added, title), tag)
         == ChildrenOf(buckets, tag) + (if tag == added then [title] else [])
  {
    var i := FindIndex(buckets, added);
    var after := AddTag(buckets, added, title);
    if i == -1 {
      FindIndexAppend(buckets, Bucket(added, [title]), tag);
    } else {
      AddTagTags(buckets, added, title);
      FindIndexByTags(after, buckets, tag);
    }
  }

  lemma {:induction false} AddTagsChildren(buckets: seq<Bucket>, title: string, tags: seq<string>, tag: string)
    ensures ChildrenOf(AddTags(buckets, title, tags), tag)
         == ChildrenOf(buckets, tag) + Repeat(title, Count(tags, tag))
    decreases |tags|
  {
    if tags == [] {
      assert ChildrenOf(buckets, tag) + Repeat(title, 0) == ChildrenOf(buckets, tag);
    } else {
      var init := tags[..|tags| - 1];
      var t := tags[|tags| - 1];
      var before := AddTags(buckets, title, init);
      var base := ChildrenOf(buckets, tag);
      var n := Count(init, tag);
      assert AddTags(buckets, title, tags) == AddTag(before, t, title);
      assert Count(tags, tag) == n + (if t == tag then 1 else 0);
      AddTagsChildren(buckets, title, init, tag);
      AddTagChildren(before, t, title, tag);
      if tag == t {
        RepeatSnoc(base, title, n);
      }
    }
  }

  /** The bucket of a tag lists, in input order, the title of every project
      that carries the tag, once per occurrence of the tag in its tag list. */
  lemma {:induction false} BucketChildren(projects: seq<Project>, tag: string)
    ensures ChildrenOf(Buckets(projects), tag) == Carriers(projects, tag)
    decreases |projects|
  {
    if projects != [] {
      var init := projects[..|projects| - 1];
      var last := projects[|projects| - 1];
      BucketChildren(init, tag);
      AddTagsChildren(Buckets(init), last.title, last.tags, tag);
    }
  }

  /** The same, read off the bucket at a position. */
  lemma {:induction false} BucketAt(projects: seq<Project>, i: nat)
    requires i < |Buckets(projects)|
    ensures Buckets(projects)[i].children == Carriers(projects, Buckets(projects)[i].tag)
  {
    var b := Buckets(projects);
    BucketTagsFirstSeen(projects);
    var tag := b[i].tag;
    var found := FindIndex(b, tag);
    assert found != -1 by { assert b[i].tag == tag; }
    assert Tags(b)[found] == b[found].tag == tag == Tags(b)[i];
    BucketChildren(projects, tag);
  }

  /** A title is among the carriers of a tag exactly when a project with that
      title has the tag. */
  lemma {:induction false} CarriersMembers(projects: seq<Project>, tag: string, x: string)
    ensures x in Carriers(projects, tag)
        <==> exists m :: 0 <= m < |projects| && projects[m].title == x && tag in projects[m].tags
    decreases |projects|
  {
    if projects != [] {
      var init := projects[..|projects| - 1];
      var last := projects[|projects| - 1];
      CarriersMembers(init, tag, x);
      var block := Repeat(last.title, Count(last.tags, tag));
      assert |block| > 0 ==> block[0] == last.title;
      assert x in block <==> x == last.title && tag in last.tags;
      if x in Carriers(projects, tag) {
        if x !in Carriers(init, tag) {
          assert projects[|projects| - 1] == last;
        } else {
          var m :| 0 <= m < |init| && init[m].title == x && tag in init[m].tags;
          assert projects[m] == init[m];
        }
      } else {
        forall m | 0 <= m < |projects| && projects[m].title == x
          ensures tag !in projects[m].tags
        {
          if m < |init| {
            assert projects[m] == init[m];
          }
        }
      }
    }
  }

  // ---------------------------------------------------------------------
  // Pair links of one bucket
  // ---------------------------------------------------------------------

  /** The position, in a bucket's pair links, of the link for the pair (i, j)
      of `n` children: the rows of the earlier first indices, then j - i - 1. */
  function PairIndex(n: nat, i: nat, j: nat): int
  {
    i * (2 * n - i - 1) / 2 + (j - i - 1)
  }

  /** The inner loop links `from` to each element of `rest`, in order. */
  lemma {:induction false} FanShape(from: string, rest: seq<string>)
    ensures |Fan(from, rest)| == |rest|
    ensures forall k :: 0 <= k < |rest| ==> Fan(from, rest)[k] == Link(from, rest[k], ProjectToProject)
    decreases |rest|
  {
    if rest != [] {
      FanShape(from, rest[..|rest| - 1]);
    }
  }

  lemma {:induction false} RowsLength(children: seq<string>, n: nat)
    requires n <= |children|
    ensures 2 * |Rows(children, n)| == n * (2 * |children| - n - 1)
  {
    if n > 0 {
      RowsLength(children, n - 1);
      FanShape(children[n - 1], children[n..]);
      var c := |children|;
      assert |Rows(children, n)| == |Rows(children, n - 1)| + (c - n);
      assert (n - 1) * (2 * c - (n - 1) - 1) + 2 * (c - n) == n * (2 * c - n - 1);
    }
  }

  lemma {:induction false} RowsPrefix(children: seq<string>, m: nat, n: nat)
    requires m <= n <= |children|
    ensures Rows(children, m) <= Rows(children, n)
    decreases n
  {
    if m < n {
      RowsPrefix(children, m, n - 1);
    }
  }

  /** A bucket with k children yields k(k-1)/2 pair links; in particular a
      bucket with one child yields none. */
  lemma {:induction false} PairLinksLength(children: seq<string>)
    ensures |PairLinks(children)| == Choose2(|children|)
  {
    RowsLength(children, |children|);
  }

  /** The link for the pair i < j sits at PairIndex and joins children[i] to
      children[j]. */
  lemma {:induction false} PairLinksAt(children: seq<string>, i: nat, j: nat)
    requires i < j < |children|
    ensures 0 <= PairIndex(|children|, i, j) < |PairLinks(children)|
    ensures PairLinks(children)[PairIndex(|children|, i, j)]
         == Link(children[i], children[j], ProjectToProject)
  {
    var n := |children|;
    RowsLength(children, i);
    RowsPrefix(children, i + 1, n);
    var rows := Rows(children, i);
    var fan := Fan(children[i], children[i + 1..]);
    FanShape(children[i], children[i + 1..]);
    PairIndexAfterRows(n, i, j, |rows|);
    var p := |rows| + (j - i - 1);
    assert Rows(children, i + 1) == rows + fan;
    assert Rows(children, i + 1)[p] == fan[j - i - 1];
    assert children[i + 1..][j - i - 1] == children[j];
  }

  lemma PairIndexAfterRows(n: nat, i: nat, j: nat, r: nat)
    requires 2 * r == i * (2 * n - i - 1)
    ensures PairIndex(n, i, j) == r + (j - i - 1)
  {
  }

  /** Conversely, every pair link of a bucket joins an earlier child to a
      later one. */
  lemma {:induction false} RowsMembers(children: seq<string>, n: nat, l: Link)
    requires n <= |children|
    requires l in Rows(children, n)
    ensures exists i, j :: 0 <= i < j < |children| && l == Link(children[i], children[j], ProjectToProject)
  {
    if n > 0 {
      if l in Rows(children, n - 1) {
        RowsMembers(children, n - 1, l);
      } else {
        var fan := Fan(children[n - 1], children[n..]);
        FanShape(children[n - 1], children[n..]);
        var k :| 0 <= k < |fan| && fan[k] == l;
        assert children[n..][k] == children[n + k];
        assert l == Link(children[n - 1], children[n + k], ProjectToProject);
      }
    }
  }

  lemma {:induction false} PairLinksMembers(children: seq<string>, l: Link)
    requires l in PairLinks(children)
    ensures exists i, j :: 0 <= i < j < |children| && l == Link(children[i], children[j], ProjectToProject)
  {
    RowsMembers(children, |children|, l);
  }

  // ---------------------------------------------------------------------
  // The whole link list
  // ---------------------------------------------------------------------

  lemma {:induction false} TagLinksShape(buckets: seq<Bucket>)
    ensures |TagLinks(buckets)| == PairTotal(buckets)
    ensures forall l :: l in TagLinks(buckets) ==>
      l.kind == ProjectToProject &&
      exists b :: 0 <= b < |buckets| && l.source in buckets[b].children && l.target in buckets[b].children
    decreases |buckets|
  {
    if buckets != [] {
      var init := buckets[..|buckets| - 1];
      var last := buckets[|buckets| - 1];
      TagLinksShape(init);
      PairLinksLength(last.children);
      forall l | l in TagLinks(buckets)
        ensures l.kind == ProjectToProject
        ensures exists b :: 0 <= b < |buckets| && l.source in buckets[b].children && l.target in buckets[b].children
      {
        if l in TagLinks(init) {
          var b :| 0 <= b < |init| && l.source in init[b].children && l.target in init[b].children;
          assert buckets[b] == init[b];
        } else {
          PairLinksMembers(last.children, l);
          assert buckets[|buckets| - 1] == last;
        }
      }
    }
  }

  /** The link list holds one project-to-root link per project, in input
      order, from the project's title to the root; they come first, and every
      later link is a project-to-project link. In all there are |projects|
      plus k(k-1)/2 per bucket of k children. */
  lemma {:induction false} LinkLayout(projects: seq<Project>, rootId: string)
    ensures |Links(projects, rootId)| == |projects| + PairTotal(Buckets(projects))
    ensures forall k :: 0 <= k < |projects| ==>
      Links(projects, rootId)[k] == Link(projects[k].title, rootId, ProjectToRoot)
    ensures forall k :: 0 <= k < |Links(projects, rootId)| ==>
      (Links(projects, rootId)[k].kind == ProjectToRoot <==> k < |projects|)
  {
    var links := Links(projects, rootId);
    var tagLinks := TagLinks(Buckets(projects));
    TagLinksShape(Buckets(projects));
    forall k | |projects| <= k < |links|
      ensures links[k].kind == ProjectToProject
    {
      assert links[k] == tagLinks[k - |projects|];
    }
  }

  /** Every link endpoint, of either kind, is the id of a node. */
  lemma {:induction false} EndpointsAreNodes(projects: seq<Project>, rootId: string)
    ensures forall l :: l in Links(projects, rootId) ==>
      l.source in Ids(Nodes(projects, rootId)) && l.target in Ids(Nodes(projects, rootId))
  {
    var nodes := Nodes(projects, rootId);
    var buckets := Buckets(projects);
    assert nodes[0].id == rootId;
    forall m | 0 <= m < |projects| ensures projects[m].title in Ids(nodes) {
      assert nodes[m + 1].id == projects[m].title;
    }
    TagLinksShape(buckets);
    forall l | l in Links(projects, rootId)
      ensures l.source in Ids(nodes) && l.target in Ids(nodes)
    {
      if l !in RootLinks(projects, rootId) {
        assert l in TagLinks(buckets);
        var b :| 0 <= b < |buckets| && l.source in buckets[b].children && l.target in buckets[b].children;
        BucketAt(projects, b);
        CarriersMembers(projects, buckets[b].tag, l.source);
        CarriersMembers(projects, buckets[b].tag, l.target);
      }
    }
  }

  /** With distinct titles, a project without tags is an endpoint of no
      project-to-project link. */
  lemma {:induction false} UntaggedProjectIsolated(projects: seq<Project>, k: nat)
    requires Distinct(Titles(projects))
    requires k < |projects| && projects[k].tags == []
    ensures forall l :: l in TagLinks(Buckets(projects)) ==>
      l.source != projects[k].title && l.target != projects[k].title
  {
    var buckets := Buckets(projects);
    var title := projects[k].title;
    TagLinksShape(buckets);
    forall l | l in TagLinks(buckets)
      ensures l.source != title && l.target != title
    {
      var b :| 0 <= b < |buckets| && l.source in buckets[b].children && l.target in buckets[b].children;
      BucketAt(projects, b);
      CarriedByOther(projects, k, buckets[b].tag, l.source);
      CarriedByOther(projects, k, buckets[b].tag, l.target);
    }
  }

  lemma {:induction false} CarriedByOther(projects: seq<Project>, k: nat, tag: string, x: string)
    requires Distinct(Titles(projects))
    requires k < |projects| && projects[k].tags == []
    requires x in Carriers(projects, tag)
    ensures x != projects[k].title
  {
    CarriersMembers(projects, tag, x);
    var m :| 0 <= m < |projects| && projects[m].title == x && tag in projects[m].tags;
    assert Titles(projects)[m] == x;
    assert Titles(projects)[k] == projects[k].title;
  }

  // ---------------------------------------------------------------------
  // Links between two given projects: no deduplication across buckets
  // ---------------------------------------------------------------------

  /** The number of index pairs i < j with c[i] == x and c[j] == y. */
  function Pairs(c: seq<string>, x: string, y: string): nat
    decreases |c|
  {
    if c == [] then 0
    else Pairs(c[..|c| - 1], x, y) + (if c[|c| - 1] == y then Count(c[..|c| - 1], x) else 0)
  }

  /** The sum, over the tags in `tags`, of how often project tag lists `a`
      and `b` both list the tag (the product of the two counts). */
  function SharedWeight(tags: seq<string>, a: seq<string>, b: seq<string>): nat
    decreases |tags|
  {
    if tags == [] then 0
    else
      var t := tags[|tags| - 1];
      SharedWeight(tags[..|tags| - 1], a, b) + Count(a, t) * Count(b, t)
  }

  lemma {:induction false} CountConcat<T>(s: seq<T>, u: seq<T>, x: T)
    ensures Count(s + u, x) == Count(s, x) + Count(u, x)
    decreases |u|
  {
    if u == [] {
      assert s + u == s;
    } else {
      assert (s + u)[..|s + u| - 1] == s + u[..|u| - 1];
      CountConcat(s, u[..|u| - 1], x);
    }
  }

  lemma {:induction false} FanSnoc(from: string, rest: seq<string>, z: string)
    ensures Fan(from, rest + [z]) == Fan(from, rest) + [Link(from, z, ProjectToProject)]
  {
    assert (rest + [z])[..|rest + [z]| - 1] == rest;
  }

  lemma {:induction false} RowsSnoc(c: seq<string>, z: string, n: nat, x: string, y: string)
    requires n <= |c|
    ensures Count(Rows(c + [z], n), Link(x, y, ProjectToProject))
         == Count(Rows(c, n), Link(x, y, ProjectToProject)) + (if z == y then Count(c[..n], x) else 0)
  {
    var l := Link(x, y, ProjectToProject);
    var c' := c + [z];
    if n == 0 {
      assert c[..0] == [];
    } else {
      RowsSnoc(c, z, n - 1, x, y);
      var from := c[n - 1];
      var rest := c[n..];
      var fan := Fan(from, rest);
      var last := Link(from, z, ProjectToProject);
      assert c'[n - 1] == from && c'[n..] == rest + [z];
      FanSnoc(from, rest, z);
      assert Rows(c', n) == Rows(c', n - 1) + (fan + [last]);
      assert Rows(c, n) == Rows(c, n - 1) + fan;
      var rowsBefore' := Count(Rows(c', n - 1), l);
      var rowsBefore := Count(Rows(c, n - 1), l);
      var inFan := Count(fan, l);
      var extra := if last == l then 1 else 0;
      var before := if z == y then Count(c[..n - 1], x) else 0;
      assert rowsBefore' == rowsBefore + before;
      CountConcat(Rows(c', n - 1), fan + [last], l);
      CountConcat(fan, [last], l);
      CountSingle(last, l);
      assert Count(Rows(c', n), l) == rowsBefore' + inFan + extra;
      CountConcat(Rows(c, n - 1), fan, l);
      assert Count(Rows(c, n), l) == rowsBefore + inFan;
      CountSnocPrefix(c, n, x);
      assert (if z == y then Count(c[..n], x) else 0) == before + extra;
    }
  }

  lemma {:induction false} CountSingle<T>(v: T, x: T)
    ensures Count([v], x) == if v == x then 1 else 0
  {
    assert [v][..0] == [];
  }

  lemma {:induction false} CountSnocPrefix<T>(c: seq<T>, n: nat, x: T)
    requires 0 < n <= |c|
    ensures Count(c[..n], x) == Count(c[..n - 1], x) + (if c[n - 1] == x then 1 else 0)
  {
    assert c[..n][..n - 1] == c[..n - 1];
  }

  lemma {:induction false} PairLinksCount(c: seq<string>, x: string, y: string)
    ensures Count(PairLinks(c), Link(x, y, ProjectToProject)) == Pairs(c, x, y)
    decreases |c|
  {
    if c != [] {
      var init := c[..|c| - 1];
      var z := c[|c| - 1];
      PairLinksCount(init, x, y);
      assert init + [z] == c;
      RowsSnoc(init, z, |init|, x, y);
      assert init[..|init|] == init;
      assert Fan(z, c[|c|..]) == [];
      assert Rows(c, |c|) == Rows(c, |init|);
    }
  }

  lemma {:induction false} RepeatSnoc(c: seq<string>, z: string, r: nat)
    ensures c + Repeat(z, r + 1) == (c + Repeat(z, r)) + [z]
  {
  }

  lemma {:induction false} CountRepeat<T>(z: T, r: nat, x: T)
    ensures Count(Repeat(z, r), x) == if z == x then r else 0
    decreases r
  {
    if r > 0 {
      CountRepeat(z, r - 1, x);
      assert Repeat(z, r)[..r - 1] == Repeat(z, r - 1);
    }
  }

  lemma MulStep(r: nat, k: nat)
    requires r > 0
    ensures (r - 1) * k + k == r * k
  {
  }

  lemma MulCommutes(u: nat, v: nat)
    ensures u * v == v * u
  {
  }

  lemma {:induction false} PairsSnoc(s: seq<string>, z: string, x: string, y: string)
    ensures Pairs(s + [z], x, y) == Pairs(s, x, y) + (if z == y then Count(s, x) else 0)
  {
    assert (s + [z])[..|s + [z]| - 1] == s;
  }

  /** Appending r copies of z: z pairs up after every earlier x. */
  lemma {:induction false} PairsRepeat(c: seq<string>, z: string, r: nat, x: string, y: string)
    requires x != y
    ensures Pairs(c + Repeat(z, r), x, y) == Pairs(c, x, y) + (if z == y then r * Count(c, x) else 0)
    decreases r
  {
    if r == 0 {
      assert c + Repeat(z, 0) == c;
    } else {
      PairsRepeat(c, z, r - 1, x, y);
      var s := c + Repeat(z, r - 1);
      RepeatSnoc(c, z, r - 1);
      PairsSnoc(s, z, x, y);
      CountConcat(c, Repeat(z, r - 1), x);
      CountRepeat(z, r - 1, x);
      if z == y {
        MulStep(r, Count(c, x));
      }
    }
  }

  lemma {:induction false} CarriersCountPrefix(projects: seq<Project>, tag: string, a: nat, n: nat)
    requires Distinct(Titles(projects))
    requires a < |projects| && n <= |projects|
    ensures Count(Carriers(projects[..n], tag), projects[a].title)
         == if a < n then Count(projects[a].tags, tag) else 0
  {
    if n > 0 {
      CarriersCountPrefix(projects, tag, a, n - 1);
      var init := projects[..n][..n - 1];
      assert init == projects[..n - 1];
      var last := projects[n - 1];
      assert projects[..n][n - 1] == last;
      CountConcat(Carriers(init, tag), Repeat(last.title, Count(last.tags, tag)), projects[a].title);
      CountRepeat(last.title, Count(last.tags, tag), projects[a].title);
      assert last.title == projects[a].title <==> n - 1 == a by {
        assert Titles(projects)[n - 1] == last.title;
        assert Titles(projects)[a] == projects[a].title;
      }
    } else {
      assert projects[..0] == [];
    }
  }

  lemma TitlesAt(projects: seq<Project>, i: nat, j: nat)
    requires Distinct(Titles(projects))
    requires i < |projects| && j < |projects|
    ensures projects[i].title == projects[j].title <==> i == j
  {
    assert Titles(projects)[i] == projects[i].title;
    assert Titles(projects)[j] == projects[j].title;
  }

  lemma {:induction false} CarriersPairsPrefix(projects: seq<Project>, tag: string, a: nat, b: nat, n: nat)
    requires Distinct(Titles(projects))
    requires a < |projects| && b < |projects| && a != b && n <= |projects|
    ensures Pairs(Carriers(projects[..n], tag), projects[a].title, projects[b].title)
         == if a < b < n then Count(projects[a].tags, tag) * Count(projects[b].tags, tag) else 0
  {
    var x, y := projects[a].title, projects[b].title;
    TitlesAt(projects, a, b);
    if n == 0 {
      assert projects[..0] == [];
    } else {
      var init := projects[..n - 1];
      var last := projects[n - 1];
      assert projects[..n][..n - 1] == init && projects[..n][n - 1] == last;
      var r := Count(last.tags, tag);
      CarriersPairsPrefix(projects, tag, a, b, n - 1);
      CarriersCountPrefix(projects, tag, a, n - 1);
      PairsRepeat(Carriers(init, tag), last.title, r, x, y);
      TitlesAt(projects, n - 1, b);
      if n - 1 == b && a < b {
        MulCommutes(r, Count(projects[a].tags, tag));
      }
    }
  }

  lemma {:induction false} TagLinksBetween(projects: seq<Project>, buckets: seq<Bucket>, a: nat, b: nat)
    requires Distinct(Titles(projects))
    requires a < |projects| && b < |projects| && a != b
    requires forall i :: 0 <= i < |buckets| ==> buckets[i].children == Carriers(projects, buckets[i].tag)
    ensures Count(TagLinks(buckets), Link(projects[a].title, projects[b].title, ProjectToProject))
         == if a < b then SharedWeight(Tags(buckets), projects[a].tags, projects[b].tags) else 0
    decreases |buckets|
  {
    var l := Link(projects[a].title, projects[b].title, ProjectToProject);
    if buckets != [] {
      var init := buckets[..|buckets| - 1];
      var last := buckets[|buckets| - 1];
      TagLinksBetween(projects, init, a, b);
      CountConcat(TagLinks(init), PairLinks(last.children), l);
      PairLinksCount(last.children, projects[a].title, projects[b].title);
      assert projects[..|projects|] == projects;
      CarriersPairsPrefix(projects, last.tag, a, b, |projects|);
      assert Tags(buckets)[..|buckets| - 1] == Tags(init);
    }
  }

  /** Two projects with distinct titles, the earlier at index a and the later
      at index b, are joined by one project-to-project link per tag occurrence
      they share in each bucket (the product of how often each lists the tag),
      all from a's title to b's; none runs from b's title to a's. */
  lemma {:induction false} LinksBetween(projects: seq<Project>, rootId: string, a: nat, b: nat)
    requires Distinct(Titles(projects))
    requires a < |projects| && b < |projects| && a != b
    ensures Count(Links(projects, rootId), Link(projects[a].title, projects[b].title, ProjectToProject))
         == if a < b then SharedWeight(FirstSeen(AllTags(projects)), projects[a].tags, projects[b].tags) else 0
  {
    var l := Link(projects[a].title, projects[b].title, ProjectToProject);
    var buckets := Buckets(projects);
    forall i | 0 <= i < |buckets|
      ensures buckets[i].children == Carriers(projects, buckets[i].tag)
    {
      BucketAt(projects, i);
    }
    TagLinksBetween(projects, buckets, a, b);
    BucketTagsFirstSeen(projects);
    CountConcat(RootLinks(projects, rootId), TagLinks(buckets), l);
    assert Count(RootLinks(projects, rootId), l) == 0;
  }

  lemma MulPositive(u: nat, v: nat)
    ensures u * v > 0 <==> u > 0 && v > 0
  {
  }

  lemma {:induction false} CountDistinct<T>(s: seq<T>, x: T)
    requires Distinct(s)
    ensures Count(s, x) == if x in s then 1 else 0
    decreases |s|
  {
    if s != [] {
      var init := s[..|s| - 1];
      assert Distinct(init);
      CountDistinct(init, x);
      if s[|s| - 1] == x {
        assert x !in init;
      }
    }
  }

  lemma {:induction false} SharedWeightPositive(tags: seq<string>, a: seq<string>, b: seq<string>)
    ensures SharedWeight(tags, a, b) > 0 <==> exists t :: t in tags && t in a && t in b
    decreases |tags|
  {
    if tags != [] {
      var init := tags[..|tags| - 1];
      var t := tags[|tags| - 1];
      var w := SharedWeight(init, a, b);
      var p := Count(a, t) * Count(b, t);
      assert SharedWeight(tags, a, b) == w + p;
      SharedWeightPositive(init, a, b);
      MulPositive(Count(a, t), Count(b, t));
      if w > 0 {
        var u :| u in init && u in a && u in b;
        assert u in tags;
      }
      if exists u :: u in tags && u in a && u in b {
        var u :| u in tags && u in a && u in b;
        if u != t {
          assert u in init;
        }
      }
    }
  }

  /** The tags of `tags` that `a` and `b` both list. */
  ghost function Common(tags: seq<string>, a: seq<string>, b: seq<string>): set<string>
  {
    set t | t in tags && t in a && t in b
  }

  lemma {:induction false} CommonSnoc(tags: seq<string>, a: seq<string>, b: seq<string>)
    requires tags != []
    ensures var last := tags[|tags| - 1];
      Common(tags, a, b)
        == Common(tags[..|tags| - 1], a, b) + (if last in a && last in b then {last} else {})
  {
    assert tags == tags[..|tags| - 1] + [tags[|tags| - 1]];
  }

  lemma {:induction false} SharedWeightDistinct(tags: seq<string>, a: seq<string>, b: seq<string>)
    requires Distinct(tags) && Distinct(a) && Distinct(b)
    ensures SharedWeight(tags, a, b) == |Common(tags, a, b)|
    decreases |tags|
  {
    if tags == [] {
      assert Common(tags, a, b) == {};
    } else {
      var init := tags[..|tags| - 1];
      var last := tags[|tags| - 1];
      assert Distinct(init);
      assert last !in init;
      SharedWeightDistinct(init, a, b);
      CountDistinct(a, last);
      CountDistinct(b, last);
      CommonSnoc(tags, a, b);
      var before := Common(init, a, b);
      assert last !in before;
      assert SharedWeight(tags, a, b) == SharedWeight(init, a, b) + Count(a, last) * Count(b, last);
    }
  }

  lemma {:induction false} AllTagsHas(projects: seq<Project>, k: nat, t: string)
    requires k < |projects| && t in projects[k].tags
    ensures t in AllTags(projects)
    decreases |projects|
  {
    if k < |projects| - 1 {
      AllTagsHas(projects[..|projects| - 1], k, t);
    }
  }

  /** Two projects with distinct titles are joined by a project-to-project
      link, in one direction or the other, exactly when they share a tag. */
  lemma {:induction false} LinkedIffShareTag(projects: seq<Project>, rootId: string, a: nat, b: nat)
    requires Distinct(Titles(projects))
    requires a < |projects| && b < |projects| && a != b
    ensures Count(Links(projects, rootId), Link(projects[a].title, projects[b].title, ProjectToProject))
          + Count(Links(projects, rootId), Link(projects[b].title, projects[a].title, ProjectToProject)) > 0
        <==> exists t :: t in projects[a].tags && t in projects[b].tags
  {
    LinksBetween(projects, rootId, a, b);
    LinksBetween(projects, rootId, b, a);
    var tags := FirstSeen(AllTags(projects));
    var (first, second) := if a < b then (a, b) else (b, a);
    SharedWeightPositive(tags, projects[first].tags, projects[second].tags);
    if exists t :: t in projects[a].tags && t in projects[b].tags {
      var t :| t in projects[a].tags && t in projects[b].tags;
      AllTagsHas(projects, a, t);
    }
  }

  /** When neither project lists a tag twice, the earlier is linked to the
      later once per tag they share, and the later never to the earlier:
      links are not deduplicated across buckets. */
  lemma {:induction false} SharedTagsLinkCount(projects: seq<Project>, rootId: string, a: nat, b: nat)
    requires Distinct(Titles(projects))
    requires a < b < |projects|
    requires Distinct(projects[a].tags) && Distinct(projects[b].tags)
    ensures Count(Links(projects, rootId), Link(projects[a].title, projects[b].title, ProjectToProject))
         == |set t | t in projects[a].tags && t in projects[b].tags|
    ensures Count(Links(projects, rootId), Link(projects[b].title, projects[a].title, ProjectToProject)) == 0
  {
    LinksBetween(projects, rootId, a, b);
    LinksBetween(projects, rootId, b, a);
    var tags := FirstSeen(AllTags(projects));
    SharedWeightDistinct(tags, projects[a].tags, projects[b].tags);
    var inTags := Common(tags, projects[a].tags, projects[b].tags);
    var shared := set t | t in projects[a].tags && t in projects[b].tags;
    forall t | t in shared ensures t in inTags {
      AllTagsHas(projects, a, t);
    }
    assert inTags == shared;
  }
}
