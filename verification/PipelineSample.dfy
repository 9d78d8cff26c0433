/** A pipeline with an element that has two inputs, listed in two orders: the capturing element
    takes the boxes of the detector and the frames the detector takes too. */
module PipelineSample {
  import opened PipelineThreads
  import opened Permutations

  const FRAMES := Element([ENTRY], ["frame"], true)
  const DECODE := Element(["frame"], ["rgb"], true)
  const DETECT := Element(["rgb"], ["obj"], true)
  const CAPTURE := Element(["obj", "rgb"], ["json"], true)
  const PREVIEW := Element(["frame"], ["null"], true)
  const PUBLISH := Element(["json"], ["null"], true)

  /** As the configuration ships it. */
  const SHIPPED := [FRAMES, DECODE, DETECT, CAPTURE, PREVIEW, PUBLISH]

  /** The same elements, with the capturing one listed before the detector. */
  const SWAPPED := [FRAMES, DECODE, CAPTURE, DETECT, PREVIEW, PUBLISH]

  const SHIPPED_RANK: seq<nat> := [4, 3, 2, 1, 0, 0]
  const SWAPPED_RANK: seq<nat> := [4, 3, 1, 2, 0, 0]

  lemma ShippedTakers(val: string)
    ensures Takers(SHIPPED, val, 6) ==
      (if val == ENTRY then [0] else []) + (if val == "frame" then [1] else []) + (if val == "rgb" then [2] else [])
      + (if val == "obj" || val == "rgb" then [3] else []) + (if val == "frame" then [4] else [])
      + (if val == "json" then [5] else [])
  {
    assert Takers(SHIPPED, val, 1) == if val == ENTRY then [0] else [];
    assert Takers(SHIPPED, val, 2) == Takers(SHIPPED, val, 1) + if val == "frame" then [1] else [];
    assert Takers(SHIPPED, val, 3) == Takers(SHIPPED, val, 2) + if val == "rgb" then [2] else [];
    assert Takers(SHIPPED, val, 4) == Takers(SHIPPED, val, 3) + if val == "obj" || val == "rgb" then [3] else [];
    assert Takers(SHIPPED, val, 5) == Takers(SHIPPED, val, 4) + if val == "frame" then [4] else [];
    assert Takers(SHIPPED, val, 6) == Takers(SHIPPED, val, 5) + if val == "json" then [5] else [];
  }

  lemma SwappedTakers(val: string)
    ensures Takers(SWAPPED, val, 6) ==
      (if val == ENTRY then [0] else []) + (if val == "frame" then [1] else [])
      + (if val == "obj" || val == "rgb" then [2] else []) + (if val == "rgb" then [3] else [])
      + (if val == "frame" then [4] else []) + (if val == "json" then [5] else [])
  {
    assert Takers(SWAPPED, val, 1) == if val == ENTRY then [0] else [];
    assert Takers(SWAPPED, val, 2) == Takers(SWAPPED, val, 1) + if val == "frame" then [1] else [];
    assert Takers(SWAPPED, val, 3) == Takers(SWAPPED, val, 2) + if val == "obj" || val == "rgb" then [2] else [];
    assert Takers(SWAPPED, val, 4) == Takers(SWAPPED, val, 3) + if val == "rgb" then [3] else [];
    assert Takers(SWAPPED, val, 5) == Takers(SWAPPED, val, 4) + if val == "frame" then [4] else [];
    assert Takers(SWAPPED, val, 6) == Takers(SWAPPED, val, 5) + if val == "json" then [5] else [];
  }

  /** The values are different. */
  lemma Words()
    ensures |ENTRY| == 5 && |"frame"| == 5 && ENTRY != "frame"
    ensures |"rgb"| == |"obj"| == 3 && "rgb" != "obj"
    ensures |"json"| == |"null"| == 4 && "json" != "null"
  {
    assert ENTRY[0] == 'e' && "frame"[0] == 'f' && "rgb"[0] == 'r' && "obj"[0] == 'o' && "json"[0] == 'j' && "null"[0] == 'n';
  }

  lemma ShippedGraph()
    ensures Next(SHIPPED, 0) == [1, 4] && Next(SHIPPED, 1) == [2, 3] && Next(SHIPPED, 2) == [3]
    ensures Next(SHIPPED, 3) == [5] && Next(SHIPPED, 4) == [] && Next(SHIPPED, 5) == []
  {
    hide Takers;
    Words();
    ShippedTakers("frame");
    ShippedTakers("rgb");
    ShippedTakers("obj");
    ShippedTakers("json");
    ShippedTakers("null");
  }

  lemma ShippedIsRanked()
    ensures Ranked(SHIPPED, SHIPPED_RANK)
  {
    hide Next, Takers;
    ShippedGraph();
    forall e: nat, v: nat | IsEdge(SHIPPED, e, v) ensures v < 6 && SHIPPED_RANK[v] < SHIPPED_RANK[e] {
      assert e == 0 || e == 1 || e == 2 || e == 3 || e == 4 || e == 5;
    }
  }

  lemma SwappedGraph()
    ensures Next(SWAPPED, 0) == [1, 4] && Next(SWAPPED, 1) == [2, 3] && Next(SWAPPED, 2) == [5]
    ensures Next(SWAPPED, 3) == [2] && Next(SWAPPED, 4) == [] && Next(SWAPPED, 5) == []
  {
    hide Takers;
    Words();
    SwappedTakers("frame");
    SwappedTakers("rgb");
    SwappedTakers("obj");
    SwappedTakers("json");
    SwappedTakers("null");
  }

  lemma SwappedIsRanked()
    ensures Ranked(SWAPPED, SWAPPED_RANK)
  {
    hide Next, Takers;
    SwappedGraph();
    forall e: nat, v: nat | IsEdge(SWAPPED, e, v) ensures v < 6 && SWAPPED_RANK[v] < SWAPPED_RANK[e] {
      assert e == 0 || e == 1 || e == 2 || e == 3 || e == 4 || e == 5;
    }
  }

  // ---- single steps of the walk -------------------------------------------------------------------

  lemma Opened(g: Graph, rank: seq<nat>, e: nat, s: Layout)
    requires Ranked(g, rank) && e < |g| && s.Fits(g) && !s.attached[e]
    ensures Attach(g, rank, e, s) == Walk(g, rank, e, Layout(s.threads + [[e]], s.attached[e := true]))
  {
  }

  lemma Skipped(g: Graph, rank: seq<nat>, e: nat, s: Layout)
    requires Ranked(g, rank) && e < |g| && s.Fits(g) && s.attached[e]
    ensures Attach(g, rank, e, s) == s
  {
  }

  lemma Ended(g: Graph, rank: seq<nat>, e: nat, s: Layout)
    requires Ranked(g, rank) && e < |g| && s.Fits(g) && s.threads != [] && Next(g, e) == []
    ensures Walk(g, rank, e, s) == s
  {
  }

  lemma Continued(g: Graph, rank: seq<nat>, e: nat, v: nat, s: Layout)
    requires Ranked(g, rank) && e < |g| && s.Fits(g) && s.threads != [] && Next(g, e) == [v] && v < |g| && g[v].async
    ensures Walk(g, rank, e, s) == Walk(g, rank, v, Layout(s.threads + [[v]], s.attached[v := true]))
  {
  }

  lemma Forked(g: Graph, rank: seq<nat>, e: nat, a: nat, b: nat, s: Layout)
    requires Ranked(g, rank) && e < |g| && s.Fits(g) && s.threads != [] && Next(g, e) == [a, b] && a < |g| && b < |g|
    ensures Walk(g, rank, e, s) == Attach(g, rank, b, Attach(g, rank, a, s))
  {
    assert Branches(g, rank, e, 0, s) == s;
    assert Branches(g, rank, e, 1, s) == Attach(g, rank, a, s);
    assert Branches(g, rank, e, 2, s) == Attach(g, rank, b, Branches(g, rank, e, 1, s));
  }

  const NO := false
  const YES := true

  lemma ShippedLayout()
    ensures Ranked(SHIPPED, SHIPPED_RANK)
    ensures Attach(SHIPPED, SHIPPED_RANK, 0, Blank(SHIPPED)).threads == [[0], [1], [2], [3], [5], [4]]
  {
    hide Next, Takers, Ranked, Attach, Walk, Branches;
    var g, rank := SHIPPED, SHIPPED_RANK;
    ShippedGraph();
    ShippedIsRanked();
    var s0 := Blank(g);
    var s1 := Layout([[0]], [YES, NO, NO, NO, NO, NO]);
    var s2 := Layout([[0], [1]], [YES, YES, NO, NO, NO, NO]);
    var s3 := Layout([[0], [1], [2]], [YES, YES, YES, NO, NO, NO]);
    var s4 := Layout([[0], [1], [2], [3]], [YES, YES, YES, YES, NO, NO]);
    var s5 := Layout([[0], [1], [2], [3], [5]], [YES, YES, YES, YES, NO, YES]);
    var s6 := Layout([[0], [1], [2], [3], [5], [4]], [YES, YES, YES, YES, YES, YES]);
    Opened(g, rank, 0, s0);
    Forked(g, rank, 0, 1, 4, s1);
    Opened(g, rank, 1, s1);
    Forked(g, rank, 1, 2, 3, s2);
    Opened(g, rank, 2, s2);
    Continued(g, rank, 2, 3, s3);
    Continued(g, rank, 3, 5, s4);
    Ended(g, rank, 5, s5);
    Skipped(g, rank, 3, s5);
    Opened(g, rank, 4, s5);
    Ended(g, rank, 4, s6);
    assert s0.threads + [[0]] == s1.threads && s0.attached[0 := YES] == s1.attached;
    assert s1.threads + [[1]] == s2.threads && s1.attached[1 := YES] == s2.attached;
    assert s2.threads + [[2]] == s3.threads && s2.attached[2 := YES] == s3.attached;
    assert s3.threads + [[3]] == s4.threads && s3.attached[3 := YES] == s4.attached;
    assert s4.threads + [[5]] == s5.threads && s4.attached[5 := YES] == s5.attached;
    assert s5.threads + [[4]] == s6.threads && s5.attached[4 := YES] == s6.attached;
  }

  lemma SwappedLayout()
    ensures Ranked(SWAPPED, SWAPPED_RANK)
    ensures Attach(SWAPPED, SWAPPED_RANK, 0, Blank(SWAPPED)).threads == [[0], [1], [2], [5], [3], [2], [5], [4]]
  {
    hide Next, Takers, Ranked, Attach, Walk, Branches;
    var g, rank := SWAPPED, SWAPPED_RANK;
    SwappedGraph();
    SwappedIsRanked();
    var s0 := Blank(g);
    var s1 := Layout([[0]], [YES, NO, NO, NO, NO, NO]);
    var s2 := Layout([[0], [1]], [YES, YES, NO, NO, NO, NO]);
    var s3 := Layout([[0], [1], [2]], [YES, YES, YES, NO, NO, NO]);
    var s4 := Layout([[0], [1], [2], [5]], [YES, YES, YES, NO, NO, YES]);
    var s5 := Layout([[0], [1], [2], [5], [3]], [YES, YES, YES, YES, NO, YES]);
    var s6 := Layout([[0], [1], [2], [5], [3], [2]], [YES, YES, YES, YES, NO, YES]);
    var s7 := Layout([[0], [1], [2], [5], [3], [2], [5]], [YES, YES, YES, YES, NO, YES]);
    var s8 := Layout([[0], [1], [2], [5], [3], [2], [5], [4]], [YES, YES, YES, YES, YES, YES]);
    Opened(g, rank, 0, s0);
    Forked(g, rank, 0, 1, 4, s1);
    Opened(g, rank, 1, s1);
    Forked(g, rank, 1, 2, 3, s2);
    Opened(g, rank, 2, s2);
    Continued(g, rank, 2, 5, s3);
    Ended(g, rank, 5, s4);
    Opened(g, rank, 3, s4);
    Continued(g, rank, 3, 2, s5);
    Continued(g, rank, 2, 5, s6);
    Ended(g, rank, 5, s7);
    Opened(g, rank, 4, s7);
    Ended(g, rank, 4, s8);
    assert s0.threads + [[0]] == s1.threads && s0.attached[0 := YES] == s1.attached;
    assert s1.threads + [[1]] == s2.threads && s1.attached[1 := YES] == s2.attached;
    assert s2.threads + [[2]] == s3.threads && s2.attached[2 := YES] == s3.attached;
    assert s3.threads + [[5]] == s4.threads && s3.attached[5 := YES] == s4.attached;
    assert s4.threads + [[3]] == s5.threads && s4.attached[3 := YES] == s5.attached;
    assert s5.threads + [[2]] == s6.threads && s5.attached[2 := YES] == s6.attached;
    assert s6.threads + [[5]] == s7.threads && s6.attached[5 := YES] == s7.attached;
    assert s7.threads + [[4]] == s8.threads && s7.attached[4 := YES] == s8.attached;
  }

  /** The elements of threads of one element each. */
  lemma {:induction false} OrderOfSingles(threads: seq<seq<nat>>, order: seq<nat>)
    requires |threads| == |order| && forall i :: 0 <= i < |order| ==> threads[i] == [order[i]]
    ensures Order(threads) == order
  {
    if threads != [] {
      var n := |threads| - 1;
      OrderOfSingles(threads[..n], order[..n]);
      assert order == order[..n] + [order[n]];
    }
  }

  /** In the shipped order every element is placed once, although the capturing element, the only
      consumer of the detector, has a second producer. */
  lemma ShippedOrderPlacesOnce()
    ensures Ranked(SHIPPED, SHIPPED_RANK)
    ensures Distinct(Order(Attach(SHIPPED, SHIPPED_RANK, 0, Blank(SHIPPED)).threads))
    ensures SoleConsumersComeFirst(SHIPPED, 0) && !SoleConsumersHaveOneProducer(SHIPPED, 0)
  {
    hide Next, Takers, Ranked, Attach, SoleConsumersComeFirst, Order, Reaches;
    ShippedLayout();
    OrderOfSingles([[0], [1], [2], [3], [5], [4]], [0, 1, 2, 3, 5, 4]);
    LayoutIsComplete(SHIPPED, SHIPPED_RANK, 0);
    ShippedGraph();
    ReachesItself(SHIPPED, 0);
    ReachesOn(SHIPPED, 0, 0, 1);
    ReachesOn(SHIPPED, 0, 1, 2);
    assert IsSole(SHIPPED, 2, 3) && IsEdge(SHIPPED, 1, 3);
  }

  /** With the capturing element listed before the detector, it and what follows it are placed twice. */
  lemma SwappedOrderPlacesTwice()
    ensures Ranked(SWAPPED, SWAPPED_RANK)
    ensures Order(Attach(SWAPPED, SWAPPED_RANK, 0, Blank(SWAPPED)).threads) == [0, 1, 2, 5, 3, 2, 5, 4]
    ensures !SoleConsumersComeFirst(SWAPPED, 0)
  {
    hide Next, Takers, Ranked, Attach, SoleConsumersComeFirst, Order, Reaches;
    SwappedLayout();
    var order := [0, 1, 2, 5, 3, 2, 5, 4];
    OrderOfSingles([[0], [1], [2], [5], [3], [2], [5], [4]], order);
    LayoutIsComplete(SWAPPED, SWAPPED_RANK, 0);
    assert order[2] == order[5];
  }
}
