/** The generated launch of a multi-group module: a chain of kernel groups over a double-buffered
    workspace, all in one address space. */
module LaunchChain {
  import opened Numbers
  import opened NumberTheory
  import opened Options

  /** The pointers and shape of one invocation; pointers are element addresses and None is null.
      `tables` says whether the coefficient tables its operator needs are there. */
  datatype Call = Call(input: Option<nat>, output: Option<nat>, workspace: Option<nat>,
                       batch: nat, batchStride: nat, elementStride: nat, tables: bool)

  /** The three generated templates. */
  datatype Template = Factor | Shared | Register

  const INVALID_VALUE: int := 1

  /** uint64 arithmetic of the launch: batch - 1 wraps when batch is 0. */
  function Extent(call: Call, size: nat): nat {
    (((call.batch - 1) * call.batchStride + (size - 1) * call.elementStride + 1) % WORD64)
  }

  /** The element addresses, relative to a buffer, that a transform reads and writes. */
  function Address(call: Call, b: nat, e: nat): nat {
    MulNonNegative(b, call.batchStride);
    MulNonNegative(e, call.elementStride);
    b * call.batchStride + e * call.elementStride
  }

  lemma MulNonNegative(a: nat, b: nat)
    ensures a * b >= 0
  {
  }

  lemma MulMonotone(a: nat, b: nat, c: nat)
    requires a <= b
    ensures a * c <= b * c
  {
    MulNonNegative(b - a, c);
    assert b * c == a * c + (b - a) * c;
  }

  /** The extent is the smallest number of elements that holds every address, as long as it
      fits a 64-bit word. */
  lemma ExtentIsTight(call: Call, size: nat)
    requires call.batch > 0 && size > 0
    requires Address(call, call.batch - 1, size - 1) + 1 < WORD64
    ensures Extent(call, size) == Address(call, call.batch - 1, size - 1) + 1
    ensures forall b: nat, e: nat | b < call.batch && e < size :: Address(call, b, e) < Extent(call, size)
  {
    ModUnique(Address(call, call.batch - 1, size - 1) + 1, WORD64, 0, Address(call, call.batch - 1, size - 1) + 1);
    forall b: nat, e: nat | b < call.batch && e < size
      ensures Address(call, b, e) < Extent(call, size)
    {
      MulMonotone(b, call.batch - 1, call.batchStride);
      MulMonotone(e, size - 1, call.elementStride);
    }
  }

  /** Entry b * size + e is element e of transform b. */
  function Addresses(call: Call, size: nat): (r: seq<nat>)
    requires size > 0
    ensures |r| == call.batch * size
    ensures forall i | 0 <= i < |r| :: r[i] == Address(call, i / size, i % size)
  {
    MulNonNegative(call.batch, size);
    seq(call.batch * size, i requires 0 <= i < call.batch * size => Address(call, i / size, i % size))
  }

  /** Layouts that keep elements apart: packed, where a transform ends before the next one begins, and
      interleaved, where all transforms store an element before any stores the next; a batch of one and
      transforms of one element need one stride only. */
  predicate KeepsApart(call: Call, size: nat) {
    && (size == 1 || call.elementStride > 0) && (call.batch == 1 || call.batchStride > 0)
    && (call.batch == 1 || size == 1
        || call.batchStride > (size - 1) * call.elementStride
        || call.elementStride > (call.batch - 1) * call.batchStride)
  }

  /** Position (x, u) comes before (y, v) when one step of the major stride passes all minor ones. */
  lemma Lexicographic(x: nat, u: nat, y: nat, v: nat, n: nat, major: nat, minor: nat)
    requires u < n && v < n && (n == 1 || minor > 0) && major > (n - 1) * minor
    requires x < y || (x == y && u < v)
    ensures x * major + u * minor < y * major + v * minor
  {
    if x == y {
      MulMonotone(u + 1, v, minor);
    } else {
      MulMonotone(x + 1, y, major);
      MulMonotone(u, n - 1, minor);
      MulNonNegative(v, minor);
    }
  }

  lemma OneStride(u: nat, v: nat, stride: nat)
    requires u < v && stride > 0
    ensures u * stride < v * stride
  {
    MulMonotone(u + 1, v, stride);
  }

  lemma AddressesDiffer(call: Call, size: nat, b: nat, e: nat, c: nat, f: nat)
    requires KeepsApart(call, size) && b < call.batch && c < call.batch && e < size && f < size
    requires b < c || (b == c && e < f)
    ensures Address(call, b, e) != Address(call, c, f)
  {
    var major, minor := call.batchStride, call.elementStride;
    if call.batch == 1 {
      OneStride(e, f, minor);
    } else if size == 1 {
      OneStride(b, c, major);
    } else if major > (size - 1) * minor {
      Lexicographic(b, e, c, f, size, major, minor);
    } else if e <= f {
      Lexicographic(e, b, f, c, call.batch, minor, major);
    } else {
      Lexicographic(f, c, e, b, call.batch, minor, major);
    }
  }

  lemma IndexOf(i: nat, j: nat, size: nat)
    requires size > 0 && i < j
    ensures i / size < j / size || (i / size == j / size && i % size < j % size)
  {
    assert i == size * (i / size) + i % size && j == size * (j / size) + j % size;
    if i / size > j / size {
      MulMonotone(j / size + 1, i / size, size);
    }
  }

  lemma ElementBelow(call: Call, size: nat, i: nat)
    requires call.batch > 0 && size > 0 && i < |Addresses(call, size)|
    requires Address(call, call.batch - 1, size - 1) + 1 < WORD64
    ensures Addresses(call, size)[i] < Extent(call, size)
  {
    ExtentIsTight(call, size);
    TransformOf(i, call.batch, size);
  }

  lemma ElementsApart(call: Call, size: nat, i: nat, j: nat)
    requires size > 0 && KeepsApart(call, size) && i < j < |Addresses(call, size)|
    ensures Addresses(call, size)[i] != Addresses(call, size)[j]
  {
    IndexOf(i, j, size);
    TransformOf(i, call.batch, size);
    TransformOf(j, call.batch, size);
    var b, e, c, f := i / size, i % size, j / size, j % size;
    assert Addresses(call, size)[i] == Address(call, b, e) && Addresses(call, size)[j] == Address(call, c, f);
    AddressesDiffer(call, size, b, e, c, f);
  }

  /** Such a call addresses every element of every transform at its own place below the extent, so the
      launch theorems apply to it. */
  lemma LayoutIsValid(call: Call, size: nat)
    requires call.batch > 0 && size > 0 && KeepsApart(call, size)
    requires Address(call, call.batch - 1, size - 1) + 1 < WORD64
    ensures ValidAddresses(Addresses(call, size), Extent(call, size))
  {
    var r := Addresses(call, size);
    forall i | 0 <= i < |r|
      ensures r[i] < Extent(call, size)
    {
      ElementBelow(call, size, i);
    }
    forall i, j | 0 <= i < j < |r|
      ensures r[i] != r[j]
    {
      ElementsApart(call, size, i, j);
    }
  }

  lemma TransformOf(i: nat, batch: nat, size: nat)
    requires size > 0 && i < batch * size
    ensures i / size < batch
  {
    assert i == size * (i / size) + i % size;
    if i / size >= batch {
      MulMonotone(batch, i / size, size);
    }
  }

  // ------------------------------------------------------------------ groups

  /** A group that succeeds maps source contents to destination contents of the same length; what it
      computes is arbitrary. */
  type Kernel = (nat, seq<int>) -> seq<int>

  /** What a group that reports an error leaves at its destination, given the contents of source and
      destination; also arbitrary. */
  type Debris = (nat, seq<int>, seq<int>) -> seq<int>

  /** The groups of a module. */
  datatype Groups = Groups(kernel: Kernel, debris: Debris, status: nat -> int)

  ghost predicate Preserves(groups: Groups, length: nat) {
    && (forall g: nat, v: seq<int> | |v| == length :: |groups.kernel(g, v)| == length)
    && (forall g: nat, v: seq<int>, w: seq<int> | |v| == length && |w| == length :: |groups.debris(g, v, w)| == length)
  }

  /** The left-to-right composition of the first n groups. */
  function Compose(kernel: Kernel, n: nat, v: seq<int>): seq<int> {
    if n == 0 then v else kernel(n - 1, Compose(kernel, n - 1, v))
  }

  // ------------------------------------------------------------------ memory

  /** The contents of a buffer as the transform sees it. */
  function View(mem: seq<int>, base: nat, addresses: seq<nat>): (v: seq<int>)
    requires forall i | 0 <= i < |addresses| :: base + addresses[i] < |mem|
    ensures |v| == |addresses| && forall i | 0 <= i < |v| :: v[i] == mem[base + addresses[i]]
  {
    seq(|addresses|, i requires 0 <= i < |addresses| => mem[base + addresses[i]])
  }

  ghost predicate ValidAddresses(addresses: seq<nat>, extent: nat) {
    && (forall i | 0 <= i < |addresses| :: addresses[i] < extent)
    && (forall i, j | 0 <= i < j < |addresses| :: addresses[i] != addresses[j])
  }

  predicate Apart(a: nat, b: nat, extent: nat) {
    a + extent <= b || b + extent <= a
  }

  /** The part of the workspace the chain uses: nothing, one half or two. */
  function Used(n: nat, extent: nat): nat {
    if n <= 1 then 0 else if n == 2 then extent else 2 * extent
  }

  /** Where group g writes; null when it is the last one and there is no output. */
  function Destination(call: Call, n: nat, extent: nat, g: nat): Option<nat>
    requires n > 1 ==> call.workspace.Some?
    requires g < n
  {
    if g + 1 == n then call.output else Some(call.workspace.value + (if g % 2 == 0 then 0 else extent))
  }

  function Source(call: Call, n: nat, extent: nat, g: nat): Option<nat>
    requires n > 1 ==> call.workspace.Some?
    requires g < n
  {
    if g == 0 then call.input else Destination(call, n, extent, g - 1)
  }

  predicate Within(buffer: Option<nat>, extent: nat, length: nat) {
    buffer.Some? ==> buffer.value + extent <= length
  }

  /** What the caller provides: buffers inside memory, the workspace apart from both. For two or
      more groups input and output may coincide or overlap in any way. */
  ghost predicate Provided(call: Call, n: nat, extent: nat, length: nat) {
    && Within(call.input, extent, length) && Within(call.output, extent, length)
    && (n > 1 && call.workspace.Some? ==>
          var w := call.workspace.value;
          && w + Used(n, extent) <= length
          && (call.input.Some? ==> w + Used(n, extent) <= call.input.value || call.input.value + extent <= w)
          && (call.output.Some? ==> w + Used(n, extent) <= call.output.value || call.output.value + extent <= w))
    && (n == 1 && call.input.Some? && call.output.Some? ==> Apart(call.input.value, call.output.value, extent))
  }

  /** No group reads the region it writes; with two or more groups this needs nothing about
      input and output. */
  lemma RegionsApart(call: Call, n: nat, extent: nat, length: nat, g: nat)
    requires (n > 1 ==> call.workspace.Some?) && Provided(call, n, extent, length) && g < n
    requires Source(call, n, extent, g).Some? && Destination(call, n, extent, g).Some?
    ensures var source, destination := Source(call, n, extent, g).value, Destination(call, n, extent, g).value;
      && Apart(source, destination, extent)
      && source + extent <= length && destination + extent <= length
      && (g + 1 < n && call.output.Some? ==> Apart(destination, call.output.value, extent))
  {
  }

  // ---------------------------------------------------------------- launchers

  /** The launcher of a single group refuses null pointers and an empty batch; the factor template
      also zero strides and the shared one missing coefficient tables. */
  predicate GroupRejects(t: Template, call: Call, input: Option<nat>, output: Option<nat>) {
    || input.None? || output.None? || call.batch == 0
    || (t.Factor? && (call.elementStride == 0 || call.batchStride == 0))
    || (t.Shared? && !call.tables)
  }

  /** Null arrives at group g: only at the first group from the input, only at the last from the
      output. */
  predicate Rejected(t: Template, call: Call, n: nat, extent: nat, g: nat)
    requires (n > 1 ==> call.workspace.Some?) && g < n
  {
    GroupRejects(t, call, Source(call, n, extent, g), Destination(call, n, extent, g))
  }

  /** What group g returns. */
  function StatusOf(t: Template, call: Call, n: nat, extent: nat, status: nat -> int, g: nat): int
    requires (n > 1 ==> call.workspace.Some?) && g < n
  {
    if Rejected(t, call, n, extent, g) then INVALID_VALUE else status(g)
  }

  /** The first group from `from` on that does not return success, or n. */
  function FirstFailure(t: Template, call: Call, n: nat, extent: nat, status: nat -> int, from: nat): (g: nat)
    requires (n > 1 ==> call.workspace.Some?) && from <= n
    ensures from <= g <= n && (g < n ==> StatusOf(t, call, n, extent, status, g) != 0)
    ensures forall k: nat | from <= k < g :: StatusOf(t, call, n, extent, status, k) == 0
    decreases n - from
  {
    if from == n || StatusOf(t, call, n, extent, status, from) != 0 then from
    else FirstFailure(t, call, n, extent, status, from + 1)
  }

  // -------------------------------------------------------------- execution

  /** Store one value at each address of a buffer. */
  method Store(mem: array<int>, values: seq<int>, base: nat, addresses: seq<nat>, extent: nat)
    requires ValidAddresses(addresses, extent) && |values| == |addresses| && base + extent <= mem.Length
    modifies mem
    ensures View(mem[..], base, addresses) == values
    ensures forall k | 0 <= k < mem.Length && !(base <= k < base + extent) :: mem[k] == old(mem[k])
  {
    for i := 0 to |addresses|
      invariant forall j | 0 <= j < i :: mem[base + addresses[j]] == values[j]
      invariant forall k | 0 <= k < mem.Length && !(base <= k < base + extent) :: mem[k] == old(mem[k])
    {
      mem[base + addresses[i]] := values[i];
    }
  }

  /** One group: read the source, write the destination, report the status. */
  method RunGroup(mem: array<int>, groups: Groups, g: nat, source: nat, destination: nat,
                  addresses: seq<nat>, extent: nat)
    returns (status: int)
    requires ValidAddresses(addresses, extent) && Preserves(groups, |addresses|)
    requires source + extent <= mem.Length && destination + extent <= mem.Length
    modifies mem
    ensures status == groups.status(g)
    ensures status == 0 ==>
      View(mem[..], destination, addresses) == groups.kernel(g, View(old(mem[..]), source, addresses))
    ensures forall k | 0 <= k < mem.Length && !(destination <= k < destination + extent) :: mem[k] == old(mem[k])
  {
    var input := View(mem[..], source, addresses);
    status := groups.status(g);
    var result := if status == 0 then groups.kernel(g, input)
                  else groups.debris(g, input, View(mem[..], destination, addresses));
    Store(mem, result, destination, addresses, extent);
  }

  /** Nothing but the used workspace differs, and the output if it may. */
  ghost predicate Framed(call: Call, n: nat, extent: nat, before: seq<int>, after: seq<int>, output: bool) {
    && |before| == |after|
    && forall k | 0 <= k < |before| && before[k] != after[k] ::
         || (output && call.output.Some? && call.output.value <= k < call.output.value + extent)
         || (n > 1 && call.workspace.Some? && call.workspace.value <= k < call.workspace.value + Used(n, extent))
  }

  /** The output may have been written: by the last group, whether it succeeded or not. */
  predicate ReachesOutput(t: Template, call: Call, n: nat, extent: nat, failed: nat)
    requires (n > 1 ==> call.workspace.Some?) && failed <= n
  {
    failed == n || (failed + 1 == n && !Rejected(t, call, n, extent, failed))
  }

  /** What a launch leaves behind once its own checks are passed. The result is the first failing
      group's status, INVALID_VALUE if that group was refused, or success. The destination of the last
      successful group holds the composition of all groups so far applied to the original input; on
      success that is the output. The output is written by the last group only, and beside it
      nothing but the used part of the workspace changes. */
  ghost predicate Executed(t: Template, call: Call, n: nat, extent: nat, addresses: seq<nat>, groups: Groups,
                           before: seq<int>, after: seq<int>, result: int)
    requires (n > 1 ==> call.workspace.Some?) && Provided(call, n, extent, |before|)
    requires |before| == |after| && ValidAddresses(addresses, extent)
  {
    var failed := FirstFailure(t, call, n, extent, groups.status, 0);
    && result == (if failed < n then StatusOf(t, call, n, extent, groups.status, failed) else 0)
    && Framed(call, n, extent, before, after, ReachesOutput(t, call, n, extent, failed))
    && (failed > 0 ==>
          && call.input.Some? && Destination(call, n, extent, failed - 1).Some?
          && View(after, Destination(call, n, extent, failed - 1).value, addresses)
             == Compose(groups.kernel, failed, View(before, call.input.value, addresses)))
  }

  /** The loop over the groups: each group's destination becomes the next group's source. */
  method RunChain(mem: array<int>, t: Template, call: Call, n: nat, extent: nat, addresses: seq<nat>, groups: Groups)
    returns (result: int)
    requires n > 0 && (n > 1 ==> call.workspace.Some?)
    requires ValidAddresses(addresses, extent) && Preserves(groups, |addresses|)
    requires Provided(call, n, extent, mem.Length)
    modifies mem
    ensures Executed(t, call, n, extent, addresses, groups, old(mem[..]), mem[..], result)
  {
    var input := call.input;
    ghost var start := mem[..];
    for g := 0 to n
      invariant FirstFailure(t, call, n, extent, groups.status, 0) >= g
      invariant Progress(call, n, extent, addresses, groups, start, mem[..], g, input)
    {
      var output := Destination(call, n, extent, g);
      assert input == Source(call, n, extent, g);
      ghost var expected := StatusOf(t, call, n, extent, groups.status, g);
      if GroupRejects(t, call, input, output) {
        Stopped(t, call, n, extent, addresses, groups, start, mem[..], mem[..], g, input, INVALID_VALUE);
        return INVALID_VALUE;
      }
      RegionsApart(call, n, extent, mem.Length, g);
      ghost var before := mem[..];
      var status := RunGroup(mem, groups, g, input.value, output.value, addresses, extent);
      GroupFrame(call, n, extent, start, before, mem[..], g);
      if status != 0 {
        GroupFails(call, n, extent, addresses, groups, start, before, mem[..], g, input);
        Stopped(t, call, n, extent, addresses, groups, start, before, mem[..], g, input, status);
        return status;
      }
      input := output;
    }
    Stopped(t, call, n, extent, addresses, groups, start, mem[..], mem[..], n, input, 0);
    return 0;
  }

  /** The chain stops at group g, or after the last one. */
  lemma Stopped(t: Template, call: Call, n: nat, extent: nat, addresses: seq<nat>, groups: Groups,
                start: seq<int>, before: seq<int>, after: seq<int>, g: nat, input: Option<nat>, result: int)
    requires (n > 1 ==> call.workspace.Some?) && ValidAddresses(addresses, extent)
    requires Provided(call, n, extent, |start|) && g <= n && |after| == |before|
    requires Progress(call, n, extent, addresses, groups, start, before, g, input)
    requires FirstFailure(t, call, n, extent, groups.status, 0) == g
    requires result == if g < n then StatusOf(t, call, n, extent, groups.status, g) else 0
    requires Framed(call, n, extent, start, after, ReachesOutput(t, call, n, extent, g))
    requires input.Some? ==> View(after, input.value, addresses) == View(before, input.value, addresses)
    ensures Executed(t, call, n, extent, addresses, groups, start, after, result)
  {
  }

  /** After g groups: the current source holds the composition of the first g groups, and the frame is
      kept; the output is written only once all groups have run. */
  ghost predicate Progress(call: Call, n: nat, extent: nat, addresses: seq<nat>, groups: Groups,
                           start: seq<int>, now: seq<int>, g: nat, input: Option<nat>)
    requires n > 1 ==> call.workspace.Some?
    requires ValidAddresses(addresses, extent) && Provided(call, n, extent, |start|) && g <= n
  {
    && Framed(call, n, extent, start, now, g == n)
    && input == (if g == 0 then call.input else Destination(call, n, extent, g - 1))
    && (g > 0 ==> call.input.Some? && input.Some?)
    && (input.Some? ==>
          && input.value + extent <= |now|
          && View(now, input.value, addresses) == Compose(groups.kernel, g, View(start, call.input.value, addresses)))
  }

  /** Group g changes its destination only, so the frame is kept. */
  lemma GroupFrame(call: Call, n: nat, extent: nat, start: seq<int>, before: seq<int>, after: seq<int>, g: nat)
    requires (n > 1 ==> call.workspace.Some?) && Provided(call, n, extent, |start|) && g < n
    requires Framed(call, n, extent, start, before, false) && |after| == |before|
    requires Destination(call, n, extent, g).Some?
    requires var output := Destination(call, n, extent, g).value;
      forall k | 0 <= k < |after| && !(output <= k < output + extent) :: after[k] == before[k]
    ensures Framed(call, n, extent, start, after, g + 1 == n)
  {
  }

  /** A failing group leaves the previous group's result where it was. */
  lemma GroupFails(call: Call, n: nat, extent: nat, addresses: seq<nat>, groups: Groups,
                   start: seq<int>, before: seq<int>, after: seq<int>, g: nat, input: Option<nat>)
    requires (n > 1 ==> call.workspace.Some?) && ValidAddresses(addresses, extent)
    requires Provided(call, n, extent, |start|) && g < n && |after| == |before|
    requires Progress(call, n, extent, addresses, groups, start, before, g, input) && input.Some?
    requires Destination(call, n, extent, g).Some?
    requires var output := Destination(call, n, extent, g).value;
      forall k | 0 <= k < |after| && !(output <= k < output + extent) :: after[k] == before[k]
    ensures View(after, input.value, addresses) == View(before, input.value, addresses)
  {
    RegionsApart(call, n, extent, |start|, g);
  }

  // -------------------------------------------------------- the three launches

  /** What a launch refuses before anything has run: its own checks and those of its first group. */
  predicate RefusedAtOnce(t: Template, call: Call, n: nat) {
    || (n > 1 && call.workspace.None?)
    || call.input.None? || call.batch == 0
    || (call.output.None? && (n == 1 || t.Register?))
    || (t.Factor? && (call.elementStride == 0 || call.batchStride == 0))
    || (t.Shared? && !call.tables)
  }

  /** What the caller of a launch owes, unless it is refused at once. */
  ghost predicate Owed(t: Template, call: Call, n: nat, size: nat, addresses: seq<nat>, groups: Groups, length: nat) {
    !RefusedAtOnce(t, call, n) ==>
      && ValidAddresses(addresses, Extent(call, size)) && Preserves(groups, |addresses|)
      && Provided(call, n, Extent(call, size), length)
  }

  /** The contract of the three launches. */
  ghost predicate Launched(t: Template, call: Call, n: nat, size: nat, addresses: seq<nat>, groups: Groups,
                           before: seq<int>, after: seq<int>, result: int)
    requires Owed(t, call, n, size, addresses, groups, |before|) && |before| == |after|
  {
    if RefusedAtOnce(t, call, n) then result == INVALID_VALUE && after == before
    else Executed(t, call, n, Extent(call, size), addresses, groups, before, after, result)
  }

  /** The launch of a factor module leaves pointers and shape to its group launcher. */
  method LaunchFactors(mem: array<int>, call: Call, n: nat, size: nat, addresses: seq<nat>, groups: Groups)
    returns (result: int)
    requires n > 0 && size > 0 && Owed(Factor, call, n, size, addresses, groups, mem.Length)
    modifies mem
    ensures Launched(Factor, call, n, size, addresses, groups, old(mem[..]), mem[..], result)
  {
    if n > 1 && call.workspace.None? {
      return INVALID_VALUE;
    }
    result := RunOrRefuse(mem, Factor, call, n, size, addresses, groups);
  }

  /** The launch of a shared-iterative module checks the batch itself; its groups are generated one
      after the other with the same destinations. */
  method LaunchShared(mem: array<int>, call: Call, n: nat, size: nat, addresses: seq<nat>, groups: Groups)
    returns (result: int)
    requires n > 0 && size > 0 && Owed(Shared, call, n, size, addresses, groups, mem.Length)
    modifies mem
    ensures Launched(Shared, call, n, size, addresses, groups, old(mem[..]), mem[..], result)
  {
    if call.batch == 0 || (n > 1 && call.workspace.None?) {
      return INVALID_VALUE;
    }
    result := RunOrRefuse(mem, Shared, call, n, size, addresses, groups);
  }

  /** The launch of a register-tile module has two groups and checks all pointers itself. */
  method LaunchRegister(mem: array<int>, call: Call, size: nat, addresses: seq<nat>, groups: Groups)
    returns (result: int)
    requires size > 0 && Owed(Register, call, 2, size, addresses, groups, mem.Length)
    modifies mem
    ensures Launched(Register, call, 2, size, addresses, groups, old(mem[..]), mem[..], result)
  {
    if call.input.None? || call.output.None? || call.workspace.None? {
      return INVALID_VALUE;
    }
    result := RunOrRefuse(mem, Register, call, 2, size, addresses, groups);
  }

  /** The chain, with the refusal of its first group taken in front of the loop: until then nothing has
      been touched and nothing is owed. */
  method RunOrRefuse(mem: array<int>, t: Template, call: Call, n: nat, size: nat, addresses: seq<nat>, groups: Groups)
    returns (result: int)
    requires n > 0 && size > 0 && (n > 1 ==> call.workspace.Some?)
    requires t.Register? ==> call.output.Some?
    requires Owed(t, call, n, size, addresses, groups, mem.Length)
    modifies mem
    ensures Launched(t, call, n, size, addresses, groups, old(mem[..]), mem[..], result)
  {
    if GroupRejects(t, call, call.input, Destination(call, n, Extent(call, size), 0)) {
      return INVALID_VALUE;
    }
    result := RunChain(mem, t, call, n, Extent(call, size), addresses, groups);
  }

  // ------------------------------------------------------------ consequences

  /** Once the first group has accepted the call only a null output is refused, by the last group. */
  lemma RefusedLast(t: Template, call: Call, n: nat, extent: nat, g: nat)
    requires !RefusedAtOnce(t, call, n) && g < n
    ensures Rejected(t, call, n, extent, g) <==> g + 1 == n && call.output.None?
  {
  }

  /** Every group succeeds. */
  ghost predicate AllSucceed(groups: Groups, n: nat) {
    forall g: nat | g < n :: groups.status(g) == 0
  }

  lemma FailureMeans(t: Template, call: Call, n: nat, extent: nat, status: nat -> int, failed: nat)
    requires !RefusedAtOnce(t, call, n) && n > 0 && failed == FirstFailure(t, call, n, extent, status, 0)
    ensures failed == n <==> call.output.Some? && forall g: nat | g < n :: status(g) == 0
    ensures failed < n ==> (StatusOf(t, call, n, extent, status, failed) ==
                            if failed + 1 == n && call.output.None? then INVALID_VALUE else status(failed))
    ensures forall g: nat | g < failed :: status(g) == 0
  {
    forall g: nat | g < n
      ensures StatusOf(t, call, n, extent, status, g) ==
              if g + 1 == n && call.output.None? then INVALID_VALUE else status(g)
    {
      RefusedLast(t, call, n, extent, g);
    }
    assert failed == n ==> StatusOf(t, call, n, extent, status, n - 1) == 0;
  }

  /** A launch reports success exactly when it was not refused, has an output and all groups succeed,
      and then the output holds the left-to-right composition on the original input, for two or more
      groups even when output and input alias. */
  lemma SuccessMeansComposition(t: Template, call: Call, n: nat, size: nat, addresses: seq<nat>, groups: Groups,
                                before: seq<int>, after: seq<int>, result: int)
    requires n > 0 && |before| == |after| && Owed(t, call, n, size, addresses, groups, |before|)
    requires Launched(t, call, n, size, addresses, groups, before, after, result)
    ensures result == 0 <==> !RefusedAtOnce(t, call, n) && call.output.Some? && AllSucceed(groups, n)
    ensures result == 0 ==>
      View(after, call.output.value, addresses) == Compose(groups.kernel, n, View(before, call.input.value, addresses))
  {
    if !RefusedAtOnce(t, call, n) {
      FailureMeans(t, call, n, Extent(call, size), groups.status,
                   FirstFailure(t, call, n, Extent(call, size), groups.status, 0));
    }
  }

  /** With a null output a chain of two or more groups is not refused at once: all groups but the last
      run and overwrite the workspace, and nothing else changes. */
  lemma NullOutputOverwritesWorkspace(t: Template, call: Call, n: nat, size: nat, addresses: seq<nat>,
                                      groups: Groups, before: seq<int>, after: seq<int>, result: int)
    requires n > 0 && |before| == |after| && Owed(t, call, n, size, addresses, groups, |before|)
    requires Launched(t, call, n, size, addresses, groups, before, after, result)
    requires !RefusedAtOnce(t, call, n) && call.output.None?
    ensures n > 1 && result != 0 && Framed(call, n, Extent(call, size), before, after, false)
    ensures AllSucceed(groups, n - 1) ==>
      && result == INVALID_VALUE
      && View(after, Destination(call, n, Extent(call, size), n - 2).value, addresses)
         == Compose(groups.kernel, n - 1, View(before, call.input.value, addresses))
  {
    FailureMeans(t, call, n, Extent(call, size), groups.status,
                 FirstFailure(t, call, n, Extent(call, size), groups.status, 0));
  }
}
