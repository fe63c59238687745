/** Two small inputs worked through the builder: three projects where A and
    B share "x" and C alone carries "y", and a project that lists a tag twice. */
module BuilderExample {
  import opened Graph
  import opened GraphBuilder

  function Sample(): seq<Project>
  {
    [Project("A", ["x"]), Project("B", ["x"]), Project("C", ["y"])]
  }

  lemma {:induction false} SampleSecondStep()
    ensures AddTags([Bucket("x", ["A"])], "B", ["x"]) == [Bucket("x", ["A", "B"])]
  {
    assert ["x"][..0] == [];
    var ab: seq<string> := ["A"] + ["B"];
    assert ab == ["A", "B"];
    assert FindIndex([Bucket("x", ["A"])], "x") == 0;
  }

  lemma {:induction false} SampleThirdStep()
    ensures AddTags([Bucket("x", ["A", "B"])], "C", ["y"]) == [Bucket("x", ["A", "B"]), Bucket("y", ["C"])]
  {
    assert ["y"][..0] == [];
    assert FindIndex([Bucket("x", ["A", "B"])], "y") == -1;
  }

  lemma {:induction false} SampleBuckets()
    ensures Buckets(Sample()) == [Bucket("x", ["A", "B"]), Bucket("y", ["C"])]
  {
    var ps := Sample();
    assert ps[..1] == [Project("A", ["x"])];
    assert ps[..2] == [Project("A", ["x"]), Project("B", ["x"])];
    assert ps[..2][..1] == ps[..1];
    assert ["x"][..0] == [];
    assert Buckets(ps[..1]) == [Bucket("x", ["A"])];
    SampleSecondStep();
    assert Buckets(ps[..2]) == [Bucket("x", ["A", "B"])];
    SampleThirdStep();
  }

  lemma {:induction false} SampleGraph()
    ensures Nodes(Sample(), Owner)
         == [Node(Owner, RootKind), Node("A", ProjectKind), Node("B", ProjectKind), Node("C", ProjectKind)]
    ensures Links(Sample(), Owner)
         == [Link("A", Owner, ProjectToRoot), Link("B", Owner, ProjectToRoot),
             Link("C", Owner, ProjectToRoot), Link("A", "B", ProjectToProject)]
  {
    SampleBuckets();
    var bs := Buckets(Sample());
    assert PairLinks(["A", "B"]) == [Link("A", "B", ProjectToProject)] by {
      var c: seq<string> := ["A", "B"];
      assert c[2..] == [] && c[1..] == ["B"] && ["B"][..0] == [];
      assert Fan("A", ["B"]) == [Link("A", "B", ProjectToProject)];
      assert Rows(c, 1) == [Link("A", "B", ProjectToProject)];
    }
    assert PairLinks(["C"]) == [] by {
      var c: seq<string> := ["C"];
      assert c[1..] == [];
    }
    assert bs[..1] == [Bucket("x", ["A", "B"])];
    assert TagLinks(bs[..1]) == [Link("A", "B", ProjectToProject)];
  }

  /** A tag listed twice puts the title into its bucket twice, so the
      project is linked to itself. */
  lemma {:induction false} RepeatedTagSelfLink()
    ensures Buckets([Project("A", ["x", "x"])]) == [Bucket("x", ["A", "A"])]
    ensures Links([Project("A", ["x", "x"])], Owner)
         == [Link("A", Owner, ProjectToRoot), Link("A", "A", ProjectToProject)]
  {
    var ps := [Project("A", ["x", "x"])];
    var xx: seq<string> := ["x", "x"];
    assert xx[..1] == ["x"] && xx[..1][..0] == [];
    assert ps[..0] == [];
    assert AddTags([], "A", ["x"]) == [Bucket("x", ["A"])];
    var aa: seq<string> := ["A"] + ["A"];
    assert aa == ["A", "A"];
    assert FindIndex([Bucket("x", ["A"])], "x") == 0;
    assert Buckets(ps) == [Bucket("x", ["A", "A"])];
    assert PairLinks(["A", "A"]) == [Link("A", "A", ProjectToProject)] by {
      var c: seq<string> := ["A", "A"];
      assert c[2..] == [] && c[1..] == ["A"] && ["A"][..0] == [];
      assert Rows(c, 1) == [Link("A", "A", ProjectToProject)];
    }
    assert [Bucket("x", ["A", "A"])][..0] == [];
  }
}
