/** The task that lays the elements of a pipeline onto threads, as it runs. */
module PipelineTask {
  import opened Options
  import opened Permutations
  import opened PipelineThreads
  import opened PipelineEnds

  class TaskParams {
    var threads: seq<seq<nat>>

    constructor ()
      ensures threads == []
    {
      threads := [];
    }
  }

  class AlgTask {
    var elements: seq<Element>
    var attached: seq<bool>

    constructor ()
      ensures elements == [] && attached == []
    {
      elements, attached := [], [];
    }

    /** A pipeline is built by putting its elements in, one after the other. */
    method PutElement(e: Element)
      modifies this
      ensures elements == old(elements) + [e] && attached == old(attached) + [false]
    {
      elements, attached := elements + [e], attached + [false];
    }

    /** The first element with an input from the entry. */
    method SearchEntry() returns (entry: int)
      ensures -1 <= entry < |elements|
      ensures forall j :: 0 <= j < |elements| && (entry < 0 || j < entry) ==> ENTRY !in elements[j].inputs
      ensures entry >= 0 ==> ENTRY in elements[entry].inputs
    {
      for j := 0 to |elements|
        invariant forall k :: 0 <= k < j ==> ENTRY !in elements[k].inputs
      {
        if ENTRY in elements[j].inputs {
          return j;
        }
      }
      return -1;
    }

    method GetNextElements(e: nat) returns (next: seq<nat>)
      requires e < |elements|
      ensures next == Next(elements, e)
    {
      next := [];
      if elements[e].outputs == [] {
        return;
      }
      var val := elements[e].outputs[0];
      for j := 0 to |elements|
        invariant next == Takers(elements, val, j)
      {
        if val in elements[j].inputs {
          next := next + [j];
        }
      }
    }

    /** Opens a thread for `first` unless it is on one, and follows its consumers. The walk is one
        that ends, after n steps in depth at most. */
    method AttachToThread(first: nat, task: TaskParams, ghost n: nat)
      requires first < |elements| == |attached|
      requires AttachFor(elements, first, Layout(task.threads, attached), n).Some?
      modifies this`attached, task
      ensures AttachFor(elements, first, old(Layout(task.threads, attached)), n) == Some(Layout(task.threads, attached))
      decreases n, 1
    {
      hide Next, Takers;
      if attached[first] {
        return;
      }
      ghost var goal := AttachFor(elements, first, Layout(task.threads, attached), n);
      task.threads := task.threads + [[first]];
      attached := attached[first := true];
      var e: nat := first;
      ghost var left: nat := n;
      while true
        invariant e < |elements| == |attached| && task.threads != [] && left <= n
        invariant WalkFor(elements, e, Layout(task.threads, attached), left) == goal
        decreases left
      {
        var next := GetNextElements(e);
        assert left > 0 by { assert goal.Some?; }
        left := left - 1;
        if |next| == 0 {
          break;
        } else if |next| == 1 {
          ConsumerExists(elements, e, 0);
          e := next[0];
          Place(e, task);
        } else {
          AttachConsumers(e, next, task, left);
          break;
        }
      }
    }

    /** Places an only consumer. */
    method Place(e: nat, task: TaskParams)
      requires e < |elements| == |attached| && task.threads != []
      modifies this`attached, task
      ensures Layout(task.threads, attached) == Joined(elements, old(Layout(task.threads, attached)), e)
    {
      if elements[e].async {
        task.threads := task.threads + [[]];
      }
      var n := |task.threads| - 1;
      assert elements[e].async ==> task.threads[n] + [e] == [e];
      task.threads := task.threads[n := task.threads[n] + [e]];
      attached := attached[e := true];
      assert elements[e].async ==> task.threads == old(task.threads) + [[e]];
    }

    method AttachConsumers(e: nat, next: seq<nat>, task: TaskParams, ghost n: nat)
      requires e < |elements| == |attached| && next == Next(elements, e)
      requires BranchesFor(elements, e, |next|, Layout(task.threads, attached), n).Some?
      modifies this`attached, task
      ensures BranchesFor(elements, e, |next|, old(Layout(task.threads, attached)), n) == Some(Layout(task.threads, attached))
      decreases n, 2
    {
      hide Next, AttachFor;
      ghost var start := Layout(task.threads, attached);
      for i := 0 to |next|
        invariant |attached| == |elements|
        invariant BranchesFor(elements, e, i, start, n) == Some(Layout(task.threads, attached))
      {
        ConsumerExists(elements, e, i);
        EarlierBranches(elements, e, i + 1, |next|, start, n);
        AttachToThread(next[i], task, n);
      }
    }

    /** Lays the elements onto the threads of the task, afresh; without an entry nothing changes. The
        source does not come to an end where the entry reaches a cycle of only consumers. */
    method AssignToThreads(task: TaskParams) returns (ok: bool)
      requires |attached| == |elements|
      requires forall entry: nat :: IsEntry(elements, entry) ==> NoSoleCycle(elements, entry)
      modifies this`attached, task
      ensures ok <==> exists j :: 0 <= j < |elements| && ENTRY in elements[j].inputs
      ensures !ok ==> task.threads == old(task.threads) && attached == old(attached)
      ensures ok ==> exists entry: nat :: IsEntry(elements, entry) && IsLaid(elements, entry, Layout(task.threads, attached))
    {
      hide IsLaid, NoSoleCycle, AttachFor;
      var entry := SearchEntry();
      if entry < 0 {
        return false;
      }
      assert IsEntry(elements, entry);
      EndsIffNoCycle(elements, entry);
      ghost var n: nat :| AttachFor(elements, entry, Blank(elements), n).Some?;
      attached := seq(|elements|, _ => false);
      task.threads := [];
      AttachToThread(entry, task, n);
      LayoutIsLaid(elements, entry, n);
      return true;
    }
  }

  /** The first element with an input from the entry. */
  predicate IsEntry(g: Graph, e: nat) {
    e < |g| && ENTRY in g[e].inputs && forall j :: 0 <= j < e ==> ENTRY !in g[j].inputs
  }

  /** What is promised of the layout on any pipeline, and on acyclic ones. */
  ghost predicate IsLaid(g: Graph, root: nat, r: Layout) {
    && HoldsReached(g, root, r) && WellFormed(g, r.threads)
    && forall rank :: Ranked(g, rank) ==> (Distinct(Order(r.threads)) <==> SoleConsumersComeFirst(g, root))
  }

  lemma LayoutIsLaid(g: Graph, root: nat, n: nat)
    requires root < |g| && AttachFor(g, root, Blank(g), n).Some?
    ensures IsLaid(g, root, AttachFor(g, root, Blank(g), n).value)
  {
    hide Attach, AttachFor, HoldsReached, WellFormed, SoleConsumersComeFirst, Distinct, Order;
    EndedIsWhole(g, root, n);
    EndedIsWellFormed(g, root, n);
    var r := AttachFor(g, root, Blank(g), n).value;
    forall rank | Ranked(g, rank) ensures Distinct(Order(r.threads)) <==> SoleConsumersComeFirst(g, root) {
      AcyclicEnds(g, rank, root);
      LayoutIsComplete(g, rank, root);
    }
  }
}
