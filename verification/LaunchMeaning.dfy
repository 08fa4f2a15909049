/** What a launch reports and leaves behind, on the call and the memory alone. */
module LaunchMeaning {
  import opened Options
  import opened LaunchChain

  /** Read through the layout, the buffer at this base holds these values. */
  ghost predicate Holds(mem: seq<int>, base: nat, addresses: seq<nat>, values: seq<int>) {
    && |values| == |addresses|
    && forall i | 0 <= i < |addresses| :: base + addresses[i] < |mem| && mem[base + addresses[i]] == values[i]
  }

  /** Every vector is what the next group makes of the one before. */
  ghost predicate Stages(kernel: Kernel, stages: seq<seq<int>>) {
    forall g: nat | g + 1 < |stages| :: stages[g + 1] == kernel(g, stages[g])
  }

  function ComposedUpTo(kernel: Kernel, n: nat, v: seq<int>): (stages: seq<seq<int>>)
    ensures |stages| == n + 1 && forall g: nat | g <= n :: stages[g] == Compose(kernel, g, v)
    ensures Stages(kernel, stages)
  {
    if n == 0 then [v] else ComposedUpTo(kernel, n - 1, v) + [Compose(kernel, n, v)]
  }

  /** The pointer and shape arguments no launcher accepts: a null input or an empty batch, a null workspace when
      there is more than one group, a null output where the first launcher sees it, zero strides of a factor
      module, missing tables of a shared one. */
  ghost predicate RefusedFirst(t: Template, call: Call, n: nat) {
    || call.input.None? || call.batch == 0 || (call.workspace.None? && n > 1)
    || (call.output.None? && (n == 1 || t == Register))
    || (t == Factor && (call.batchStride == 0 || call.elementStride == 0))
    || (t == Shared && !call.tables)
  }

  /** Success means that nothing was null or empty and every group succeeded; the output then holds the last of a
      chain of vectors that starts with the original input. */
  lemma SuccessMeans(t: Template, call: Call, n: nat, size: nat, addresses: seq<nat>, groups: Groups,
                     before: seq<int>, after: seq<int>, result: int) returns (stages: seq<seq<int>>)
    requires n > 0 && |before| == |after| && Owed(t, call, n, size, addresses, groups, |before|)
    requires Launched(t, call, n, size, addresses, groups, before, after, result)
    ensures result == 0 <==>
      !RefusedFirst(t, call, n) && call.output.Some? && forall g: nat | g < n :: groups.status(g) == 0
    ensures result == 0 ==>
      && |stages| == n + 1 && Stages(groups.kernel, stages)
      && Holds(before, call.input.value, addresses, stages[0])
      && Holds(after, call.output.value, addresses, stages[n])
  {
    SuccessMeansComposition(t, call, n, size, addresses, groups, before, after, result);
    stages := [];
    if result == 0 {
      stages := ComposedUpTo(groups.kernel, n, View(before, call.input.value, addresses));
    }
  }

  /** The group a launch stopped at: the first whose status is not success, or the last one when it has nowhere to
      write to. */
  ghost predicate StoppedAt(call: Call, n: nat, status: nat -> int, g: nat, result: int) {
    && g < n && (forall k: nat | k < g :: status(k) == 0)
    && if call.output.None? && g == n - 1 then result == 1 else result == status(g) && status(g) != 0
  }

  /** Where group g writes its intermediate vector. */
  function Half(call: Call, extent: nat, g: nat): nat
    requires call.workspace.Some?
  {
    if g % 2 == 1 then call.workspace.value + extent else call.workspace.value
  }

  lemma FailureStops(t: Template, call: Call, n: nat, size: nat, addresses: seq<nat>, groups: Groups,
                     before: seq<int>, after: seq<int>, result: int, g: nat)
    requires n > 0 && |before| == |after| && Owed(t, call, n, size, addresses, groups, |before|)
    requires Launched(t, call, n, size, addresses, groups, before, after, result) && result != 0
    requires !RefusedFirst(t, call, n) && g == FirstFailure(t, call, n, Extent(call, size), groups.status, 0)
    ensures StoppedAt(call, n, groups.status, g, result)
  {
    FailureMeans(t, call, n, Extent(call, size), groups.status, g);
  }

  lemma ViewHolds(mem: seq<int>, base: nat, addresses: seq<nat>)
    requires forall i | 0 <= i < |addresses| :: base + addresses[i] < |mem|
    ensures Holds(mem, base, addresses, View(mem, base, addresses))
  {
  }

  lemma FailureKeepsStage(t: Template, call: Call, n: nat, size: nat, addresses: seq<nat>, groups: Groups,
                          before: seq<int>, after: seq<int>, result: int, g: nat)
    requires n > 0 && |before| == |after| && Owed(t, call, n, size, addresses, groups, |before|)
    requires Launched(t, call, n, size, addresses, groups, before, after, result) && result != 0
    requires !RefusedFirst(t, call, n) && g == FirstFailure(t, call, n, Extent(call, size), groups.status, 0)
    ensures g > 0 ==> Holds(after, Half(call, Extent(call, size), g - 1), addresses,
                            Compose(groups.kernel, g, View(before, call.input.value, addresses)))
  {
    FailureStops(t, call, n, size, addresses, groups, before, after, result, g);
    if g > 0 {
      var half := Destination(call, n, Extent(call, size), g - 1).value;
      assert half == Half(call, Extent(call, size), g - 1);
      ViewHolds(after, half, addresses);
    }
  }

  ghost predicate Untouched(before: seq<int>, after: seq<int>, base: nat, extent: nat) {
    |before| == |after| && forall k | base <= k < base + extent && k < |before| :: after[k] == before[k]
  }

  lemma FailureKeepsOutput(t: Template, call: Call, n: nat, size: nat, addresses: seq<nat>, groups: Groups,
                           before: seq<int>, after: seq<int>, result: int, g: nat)
    requires n > 0 && |before| == |after| && Owed(t, call, n, size, addresses, groups, |before|)
    requires Launched(t, call, n, size, addresses, groups, before, after, result) && result != 0
    requires !RefusedFirst(t, call, n) && g == FirstFailure(t, call, n, Extent(call, size), groups.status, 0)
    requires g + 1 < n && call.output.Some?
    ensures Untouched(before, after, call.output.value, Extent(call, size))
  {
  }

  /** A refused launch changes nothing and reports 1. Any other failure is that of one group: the groups before it
      have left their vector in the workspace, and the output is untouched unless that group is the last. */
  lemma FailureLeaves(t: Template, call: Call, n: nat, size: nat, addresses: seq<nat>, groups: Groups,
                      before: seq<int>, after: seq<int>, result: int) returns (g: nat, stages: seq<seq<int>>)
    requires n > 0 && |before| == |after| && Owed(t, call, n, size, addresses, groups, |before|)
    requires Launched(t, call, n, size, addresses, groups, before, after, result) && result != 0
    ensures RefusedFirst(t, call, n) ==> result == 1 && after == before
    ensures !RefusedFirst(t, call, n) ==>
      && StoppedAt(call, n, groups.status, g, result)
      && |stages| == g + 1 && Stages(groups.kernel, stages) && Holds(before, call.input.value, addresses, stages[0])
      && (g > 0 ==> Holds(after, Half(call, Extent(call, size), g - 1), addresses, stages[g]))
      && (g + 1 < n && call.output.Some? ==> Untouched(before, after, call.output.value, Extent(call, size)))
  {
    g, stages := 0, [];
    if !RefusedFirst(t, call, n) {
      g := FirstFailure(t, call, n, Extent(call, size), groups.status, 0);
      FailureStops(t, call, n, size, addresses, groups, before, after, result, g);
      FailureKeepsStage(t, call, n, size, addresses, groups, before, after, result, g);
      ViewHolds(before, call.input.value, addresses);
      stages := ComposedUpTo(groups.kernel, g, View(before, call.input.value, addresses));
      if g + 1 < n && call.output.Some? {
        FailureKeepsOutput(t, call, n, size, addresses, groups, before, after, result, g);
      }
    }
  }

  /** A launch never writes outside its output and the part of the workspace its group count needs: nothing for one
      group, one extent for two, two extents for more. */
  lemma WritesOnly(t: Template, call: Call, n: nat, size: nat, addresses: seq<nat>, groups: Groups,
                   before: seq<int>, after: seq<int>, result: int, k: nat)
    requires n > 0 && |before| == |after| && Owed(t, call, n, size, addresses, groups, |before|)
    requires Launched(t, call, n, size, addresses, groups, before, after, result)
    requires k < |before| && before[k] != after[k]
    ensures var extent := Extent(call, size);
      || (call.output.Some? && call.output.value <= k < call.output.value + extent)
      || (call.workspace.Some? && n == 2 && call.workspace.value <= k < call.workspace.value + extent)
      || (call.workspace.Some? && n >= 3 && call.workspace.value <= k < call.workspace.value + 2 * extent)
  {
  }
}
