/** What the statistics in a save buffer count, over whole runs of the runtime. */
module AcoAccounting {
  import opened Options
  import opened Words
  import opened SaveBuffer
  import opened AcoSpec
  import opened AcoInvariant
  import opened AcoRefinement

  /** How many bytes of `c` the operation copies out: those on its stack when another takes it over. */
  ghost function CopiedOut<C, S>(s: State<C, S>, op: Op<C, S>, c: C): nat
    requires Inv(s) && Enabled(s, op) && c in s.cos
  {
    if op.Resume? && op.c != c && s.cos[op.c].share == s.cos[c].share &&
       (assert CoValid(s, c); s.shares[s.cos[c].share].owner == Some(c))
    then |StackOf(s, c)| else 0
  }

  /** How many bytes of `c` the operation copies back. */
  ghost function CopiedIn<C, S>(s: State<C, S>, op: Op<C, S>, c: C): nat
    requires Inv(s) && Enabled(s, op) && c in s.cos
  {
    if op == Resume(c) && (assert CoValid(s, c); s.shares[s.cos[c].share].owner != Some(c))
    then |StackOf(s, c)| else 0
  }

  ghost function BitsOf<C, S>(s: State<C, S>, c: C): (b: nat)
    requires Inv(s) && c in s.cos
    ensures b >= 32 && s.cos[c].save.cap < Pow2(b)
  {
    assert CoValid(s, c);
    s.shares[s.cos[c].share].bits
  }

  function One(n: nat): nat {
    if n > 0 then 1 else 0
  }

  /** The new statistics and capacity of a buffer after copying `out` bytes to it and `back` bytes from it. */
  ghost predicate Accounted(a: SaveArea, b: SaveArea, out: nat, back: nat) {
    && b.ctSave == a.ctSave + One(out)
    && b.ctRestore == a.ctRestore + One(back)
    && b.maxCp == Max(a.maxCp, Max(out, back))
    && (a.cap < out || b.cap == a.cap)
  }

  lemma EvictAccounts<C, S>(s: State<C, S>, i: S, c: C)
    requires Inv(s) && i in s.shares && s.cur == None && Evict(s, i).Some? && c in s.cos
    ensures var t := Evict(s, i).value;
      var out := if s.shares[i].owner == Some(c) then |StackOf(s, c)| else 0;
      && c in t.cos && Accounted(s.cos[c].save, t.cos[c].save, out, 0)
      && CapacityFor(s.cos[c].save.cap, out, BitsOf(s, c)) == Some(t.cos[c].save.cap)
      && t.cos[c] == s.cos[c].(save := t.cos[c].save)
      && (s.shares[i].owner != Some(c) ==> t.cos[c] == s.cos[c])
  {
    assert CoValid(s, c);
    EvictEffect(s, i);
    if s.shares[i].owner == Some(c) {
      SaveOutEffect(s.shares[i], c, s.cos[c]);
    }
  }

  lemma TakeOverAccounts<C, S>(s: State<C, S>, r: C, c: C)
    requires Inv(s) && r in s.cos && !s.cos[r].ended && s.cur == None && c in s.cos
    requires CoValid(s, r) && s.shares[s.cos[r].share].owner == None
    ensures |s.cos[r].save.bytes| <= s.shares[s.cos[r].share].Top() - s.shares[s.cos[r].share].base
    ensures TakeOver(s, r).Some? && c in TakeOver(s, r).value.cos
    ensures var t := TakeOver(s, r).value;
      && Accounted(s.cos[c].save, t.cos[c].save, 0, if c == r then |StackOf(s, c)| else 0)
      && t.cos[c].save.cap == s.cos[c].save.cap && t.cos[c].save.bytes == s.cos[c].save.bytes
      && t.cos[c] == s.cos[c].(save := t.cos[c].save)
      && (c != r ==> t.cos[c] == s.cos[c])
  {
    TakeOverKeepsInv(s, r);
    CopyInEffect(s.shares[s.cos[r].share], r, s.cos[r]);
    assert CoValid(s, c);
  }

  lemma AcquireAccounts<C, S>(s: State<C, S>, r: C, c: C)
    requires Inv(s) && r in s.cos && !s.cos[r].ended && s.cur == None && Acquire(s, r).Some? && c in s.cos
    ensures var t := Acquire(s, r).value;
      && c in t.cos && t.cos[c].share == s.cos[c].share
      && Accounted(s.cos[c].save, t.cos[c].save, CopiedOut(s, Resume(r), c), CopiedIn(s, Resume(r), c))
      && CapacityFor(s.cos[c].save.cap, CopiedOut(s, Resume(r), c), BitsOf(s, c)) == Some(t.cos[c].save.cap)
      && (CopiedOut(s, Resume(r), c) == 0 ==> |t.cos[c].save.bytes| <= |s.cos[c].save.bytes|)
  {
    hide CoOn, SaveOut, CopyIn, StackOf;
    assert CoValid(s, r) && CoValid(s, c);
    var i := s.cos[r].share;
    assert OwnerValid(s, i);
    if s.shares[i].owner != Some(r) {
      EvictThenTakeOverAccounts(s, r, c);
    }
  }

  lemma EvictThenTakeOverAccounts<C, S>(s: State<C, S>, r: C, c: C)
    requires Inv(s) && r in s.cos && !s.cos[r].ended && s.cur == None && Acquire(s, r).Some? && c in s.cos
    requires CoValid(s, r) && CoValid(s, c) && s.shares[s.cos[r].share].owner != Some(r)
    ensures var t := Acquire(s, r).value;
      var out := if s.shares[s.cos[r].share].owner == Some(c) then |StackOf(s, c)| else 0;
      && c in t.cos && t.cos[c].share == s.cos[c].share
      && Accounted(s.cos[c].save, t.cos[c].save, out, if c == r then |StackOf(s, c)| else 0)
      && CapacityFor(s.cos[c].save.cap, out, BitsOf(s, c)) == Some(t.cos[c].save.cap)
      && (out == 0 ==> |t.cos[c].save.bytes| <= |s.cos[c].save.bytes|)
  {
    hide CoOn, CapacityFor, SaveOut, CopyIn, StackOf;
    var i := s.cos[r].share;
    EvictAccounts(s, i, c);
    EvictAccounts(s, i, r);
    EvictMovesNothing(s, i);
    EvictEffect(s, i);
    var s1 := Evict(s, i).value;
    assert CoValid(s1, r);
    TakeOverAccounts(s1, r, c);
    assert PrivateCo(s1, c) == PrivateCo(s, c);
    EvictedBytes(s, i, c);
  }

  lemma EvictedBytes<C, S>(s: State<C, S>, i: S, c: C)
    requires Inv(s) && i in s.shares && s.cur == None && Evict(s, i).Some? && c in s.cos && CoValid(s, c)
    ensures c in Evict(s, i).value.cos
    ensures Evict(s, i).value.cos[c].save.bytes ==
      if s.shares[i].owner == Some(c) then StackOf(s, c) else s.cos[c].save.bytes
  {
    EvictEffect(s, i);
    if s.shares[i].owner == Some(c) {
      SaveOutEffect(s.shares[i], c, s.cos[c]);
    }
  }

  lemma StepAccounts<C, S>(s: State<C, S>, op: Op<C, S>, c: C)
    requires Inv(s) && Enabled(s, op) && Step(s, op).Some? && c in s.cos && op != Destroy(c)
    ensures var t := Step(s, op).value;
      && c in t.cos && t.cos[c].share == s.cos[c].share
      && Accounted(s.cos[c].save, t.cos[c].save, CopiedOut(s, op, c), CopiedIn(s, op, c))
      && CapacityFor(s.cos[c].save.cap, CopiedOut(s, op, c), BitsOf(s, c)) == Some(t.cos[c].save.cap)
  {
    assert CoValid(s, c);
    if op.Resume? {
      AcquireAccounts(s, op.c, c);
    }
  }

  // ---------------------------------------------------------------- over a run

  /** The largest copy of `c`'s bytes in a run, and the number of copies each way. */
  datatype Copies = Copies(largest: nat, largestOut: nat, saves: nat, restores: nat)

  ghost function RunCopies<C, S>(s: State<C, S>, ops: seq<Op<C, S>>, c: C): Copies
    requires Inv(s) && c in s.cos && Run(s, ops).Some? && Destroy(c) !in ops
    decreases |ops|
  {
    if ops == [] then Copies(0, 0, 0, 0)
    else
      StepKeepsInv(s, ops[0]);
      StepAccounts(s, ops[0], c);
      var out, back := CopiedOut(s, ops[0], c), CopiedIn(s, ops[0], c);
      var rest := RunCopies(Step(s, ops[0]).value, ops[1..], c);
      Copies(Max(Max(out, back), rest.largest), Max(out, rest.largestOut),
             One(out) + rest.saves, One(back) + rest.restores)
  }

  lemma CountsBalance<C, S>(s: State<C, S>, c: C)
    requires Inv(s) && c in s.cos
    ensures s.cos[c].share in s.shares
    ensures s.cos[c].save.ctSave == s.cos[c].save.ctRestore + Parked(s.shares[s.cos[c].share], c, s.cos[c])
  {
    assert CoValid(s, c);
  }

  /**
   Over any run that does not destroy `c`: the two counters count its copies, `max_cpsz` is the
   largest of them, and at the end saves exceed restores by one exactly while its bytes are parked.
   */
  lemma {:induction false} StatisticsCountCopies<C, S>(s: State<C, S>, ops: seq<Op<C, S>>, c: C)
    requires Inv(s) && c in s.cos && Run(s, ops).Some? && Destroy(c) !in ops
    ensures var t := Run(s, ops).value;
      var n := RunCopies(s, ops, c);
      && c in t.cos && t.cos[c].share == s.cos[c].share && t.cos[c].share in t.shares
      && t.cos[c].save.maxCp == Max(s.cos[c].save.maxCp, n.largest)
      && t.cos[c].save.ctSave == s.cos[c].save.ctSave + n.saves
      && t.cos[c].save.ctRestore == s.cos[c].save.ctRestore + n.restores
      && t.cos[c].save.ctSave == t.cos[c].save.ctRestore + Parked(t.shares[t.cos[c].share], c, t.cos[c])
    decreases |ops|
  {
    hide CoOn, Parked, Step;
    if ops == [] {
      CountsBalance(s, c);
    } else {
      StepKeepsInv(s, ops[0]);
      StepAccounts(s, ops[0], c);
      StatisticsCountCopies(Step(s, ops[0]).value, ops[1..], c);
    }
  }

  /** Capacities only grow, to what a save asks for and to less than twice that, on stacks of any size. */
  lemma {:induction false} CapacityIsBounded<C, S>(s: State<C, S>, ops: seq<Op<C, S>>, c: C)
    requires Inv(s) && c in s.cos && Run(s, ops).Some? && Destroy(c) !in ops
    ensures c in Run(s, ops).value.cos
    ensures var cap, grown := s.cos[c].save.cap, Run(s, ops).value.cos[c].save.cap;
      var largest := RunCopies(s, ops, c).largestOut;
      && largest <= grown < Pow2(BitsOf(s, c))
      && cap <= grown && (grown == cap || grown < 2 * largest)
    decreases |ops|
  {
    hide CoOn, Step, Accounted, CopiedOut, CopiedIn, CapacityFor;
    if ops == [] {
    } else {
      var t := Step(s, ops[0]).value;
      StepKeepsInv(s, ops[0]);
      StepAccounts(s, ops[0], c);
      StepKeepsBits(s, ops[0], c);
      GrowthSuffices(s.cos[c].save.cap, CopiedOut(s, ops[0], c), BitsOf(s, c));
      CapacityNeverShrinks(s.cos[c].save.cap, CopiedOut(s, ops[0], c), BitsOf(s, c));
      CapacityIsBounded(t, ops[1..], c);
    }
  }

  /** It stays what it was if and only if no save needs more. */
  lemma {:induction false} CapacityStaysIff<C, S>(s: State<C, S>, ops: seq<Op<C, S>>, c: C)
    requires Inv(s) && c in s.cos && Run(s, ops).Some? && Destroy(c) !in ops
    ensures c in Run(s, ops).value.cos
    ensures Run(s, ops).value.cos[c].save.cap == s.cos[c].save.cap <==>
            RunCopies(s, ops, c).largestOut <= s.cos[c].save.cap
    decreases |ops|
  {
    CapacityIsBounded(s, ops, c);
    hide CoOn, Step, CopiedOut, CopiedIn, CapacityFor;
    if ops == [] {
    } else {
      StepKeepsInv(s, ops[0]);
      StepAccounts(s, ops[0], c);
      CapacityStaysIff(Step(s, ops[0]).value, ops[1..], c);
    }
  }

  /**
   From its creation on, over any run: a coroutine's buffer keeps the 64 bytes or the size asked for exactly
   when no save needs more, and its statistics are the numbers and the largest of its copies.
   */
  lemma NewCapacityStaysIff<C, S>(s: State<C, S>, op: Op<C, S>, ops: seq<Op<C, S>>)
    requires Inv(s) && op.Create? && Enabled(s, op) && Inv(Step(s, op).value)
    requires Run(Step(s, op).value, ops).Some? && Destroy(op.c) !in ops
    ensures op.c in Step(s, op).value.cos && op.c in Run(Step(s, op).value, ops).value.cos
    ensures var save, n := Run(Step(s, op).value, ops).value.cos[op.c].save, RunCopies(Step(s, op).value, ops, op.c);
      && (op.saveSz == 0 ==> (save.cap == 64 <==> n.largestOut <= 64))
      && (op.saveSz > 0 ==> (save.cap == op.saveSz <==> n.largestOut <= op.saveSz))
      && save.maxCp == n.largest && save.ctSave == n.saves && save.ctRestore == n.restores
  {
    CreateKeepsInv(s, op);
    hide Step, Run, RunCopies, Inv;
    StatisticsCountCopies(Step(s, op).value, ops, op.c);
    CapacityStaysIff(Step(s, op).value, ops, op.c);
  }

  lemma CapacityNeverShrinks(cap: nat, need: nat, bits: nat)
    requires bits > 0 && 0 < cap < Pow2(bits) && CapacityFor(cap, need, bits).Some?
    ensures cap <= CapacityFor(cap, need, bits).value
  {
    GrownCapacityHolds(cap, need, bits);
  }

  lemma StepKeepsBits<C, S>(s: State<C, S>, op: Op<C, S>, c: C)
    requires Inv(s) && Enabled(s, op) && Step(s, op).Some? && Inv(Step(s, op).value) && c in s.cos && op != Destroy(c)
    ensures s.cos[c].save.cap > 0
    ensures c in Step(s, op).value.cos && BitsOf(Step(s, op).value, c) == BitsOf(s, c)
  {
    hide Step;
    assert CoValid(s, c);
    StepAccounts(s, op, c);
    StepKeepsSizes(s, op);
    assert CoValid(Step(s, op).value, c);
  }

  /**
   Over any run the capacity is the first one times a power of two if and only if such a multiple fits the
   word and holds the largest save.
   */
  lemma CapacityIsInitialDoubled<C, S>(s: State<C, S>, ops: seq<Op<C, S>>, c: C)
    requires Inv(s) && c in s.cos && Run(s, ops).Some? && Destroy(c) !in ops
    ensures c in Run(s, ops).value.cos
    ensures var cap, largest := s.cos[c].save.cap, RunCopies(s, ops, c).largestOut;
      IsDoubling(cap, Run(s, ops).value.cos[c].save.cap) <==> SomeDoublingHolds(cap, largest, BitsOf(s, c))
  {
    hide Run, RunCopies, BitsOf, Inv, Step;
    CapacityIsBounded(s, ops, c);
    assert Doubled(s.cos[c].save.cap, 0) == s.cos[c].save.cap;
    if SomeDoublingHolds(s.cos[c].save.cap, RunCopies(s, ops, c).largestOut, BitsOf(s, c)) {
      CapacityStaysDoubled(s, ops, c, s.cos[c].save.cap);
    }
  }

  lemma {:induction false} CapacityStaysDoubled<C, S>(s: State<C, S>, ops: seq<Op<C, S>>, c: C, first: nat)
    requires Inv(s) && c in s.cos && Run(s, ops).Some? && Destroy(c) !in ops
    requires IsDoubling(first, s.cos[c].save.cap)
    requires SomeDoublingHolds(first, RunCopies(s, ops, c).largestOut, BitsOf(s, c))
    ensures c in Run(s, ops).value.cos && IsDoubling(first, Run(s, ops).value.cos[c].save.cap)
    decreases |ops|
  {
    hide CoOn, Step, Accounted, CopiedOut, CopiedIn, CapacityFor;
    if ops == [] {
    } else {
      var t, cap, out, bits := Step(s, ops[0]).value, s.cos[c].save.cap, CopiedOut(s, ops[0], c), BitsOf(s, c);
      StepKeepsInv(s, ops[0]);
      StepAccounts(s, ops[0], c);
      StepKeepsBits(s, ops[0], c);
      var largest := RunCopies(s, ops, c).largestOut;
      assert out <= largest && RunCopies(t, ops[1..], c).largestOut <= largest;
      GrowthKeepsDoubling(first, cap, out, RunCopies(s, ops, c).largestOut, bits);
      CapacityStaysDoubled(t, ops[1..], c, first);
    }
  }

  /** A multiple of the first capacity that grows for one save stays one, when one of them holds the largest save. */
  lemma GrowthKeepsDoubling(first: nat, cap: nat, out: nat, largest: nat, bits: nat)
    requires bits > 0 && 0 < cap < Pow2(bits) && IsDoubling(first, cap) && out <= largest
    requires SomeDoublingHolds(first, largest, bits)
    requires CapacityFor(cap, out, bits).Some?
    ensures IsDoubling(first, CapacityFor(cap, out, bits).value)
  {
    hide CapacityFor;
    var j: nat :| cap == Doubled(first, j);
    var k: nat :| largest <= Doubled(first, k) < Pow2(bits);
    if k <= j {
      DoubledGrows(first, k, j);
      assert out <= Doubled(cap, 0) < Pow2(bits);
    } else {
      DoubledTwice(first, j, k - j);
      assert out <= Doubled(cap, k - j) < Pow2(bits);
    }
    GrowthIsDoublingIff(cap, out, bits);
    var i: nat :| CapacityFor(cap, out, bits).value == Doubled(cap, i);
    DoubledTwice(first, j, i);
  }

  /** In particular on every stack of at most half the address range, whatever the first capacity. */
  lemma HalfRangeStackDoubles<C, S>(s: State<C, S>, ops: seq<Op<C, S>>, c: C)
    requires Inv(s) && c in s.cos && Run(s, ops).Some? && Destroy(c) !in ops && s.cos[c].share in s.shares
    requires |s.shares[s.cos[c].share].mem| <= Pow2(BitsOf(s, c) - 1)
    ensures c in Run(s, ops).value.cos && IsDoubling(s.cos[c].save.cap, Run(s, ops).value.cos[c].save.cap)
  {
    hide Run, RunCopies, BitsOf, Inv, Step;
    CapacityIsInitialDoubled(s, ops, c);
    SavesFitStack(s, ops, c);
    CapacityIsPositive(s, c);
    HalfRangeSuffices(s.cos[c].save.cap, RunCopies(s, ops, c).largestOut, BitsOf(s, c));
  }

  lemma CapacityIsPositive<C, S>(s: State<C, S>, c: C)
    requires Inv(s) && c in s.cos
    ensures 0 < s.cos[c].save.cap
  {
    assert CoValid(s, c);
  }

  lemma {:induction false} SavesFitStack<C, S>(s: State<C, S>, ops: seq<Op<C, S>>, c: C)
    requires Inv(s) && c in s.cos && Run(s, ops).Some? && Destroy(c) !in ops && s.cos[c].share in s.shares
    ensures RunCopies(s, ops, c).largestOut <= |s.shares[s.cos[c].share].mem|
    decreases |ops|
  {
    hide CoOn, Step, Accounted, CapacityFor;
    if ops == [] {
    } else {
      StepKeepsInv(s, ops[0]);
      StepAccounts(s, ops[0], c);
      StepKeepsSizes(s, ops[0]);
      StackFits(s, c);
      SavesFitStack(Step(s, ops[0]).value, ops[1..], c);
    }
  }

  lemma StackFits<C, S>(s: State<C, S>, c: C)
    requires Inv(s) && c in s.cos && s.cos[c].share in s.shares
    ensures |StackOf(s, c)| <= |s.shares[s.cos[c].share].mem|
  {
    assert CoValid(s, c);
  }

  lemma StepKeepsSizes<C, S>(s: State<C, S>, op: Op<C, S>)
    requires Inv(s) && Enabled(s, op) && Step(s, op).Some?
    ensures var t := Step(s, op).value;
      t.shares.Keys == s.shares.Keys && forall i :: i in s.shares ==> SameRegion(t.shares[i], s.shares[i])
  {
    if op.Resume? {
      AcquireKeepsCpu(s, op.c);
    } else {
      StepKeepsGeometry(s, op, Step(s, op).value);
    }
  }

  // ---------------------------------------------------------------- alone on a stack

  /** `c` is the only coroutine on its stack, and nothing of it was ever copied out. */
  ghost predicate Alone<C, S>(s: State<C, S>, c: C)
    requires Inv(s)
  {
    && c in s.cos && s.cos[c].save.bytes == []
    && (forall d :: d in s.cos && s.cos[d].share == s.cos[c].share ==> d == c)
  }

  /** A coroutine that shares its stack with nobody is never copied, whatever else runs. */
  lemma {:induction false} AloneNeverCopies<C, S>(s: State<C, S>, ops: seq<Op<C, S>>, c: C)
    requires Inv(s) && Alone(s, c) && Run(s, ops).Some? && Destroy(c) !in ops
    requires forall k :: 0 <= k < |ops| && ops[k].Create? ==> ops[k].share != s.cos[c].share
    ensures Alone(Run(s, ops).value, c)
    ensures Run(s, ops).value.cos[c].save == s.cos[c].save
    decreases |ops|
  {
    if ops == [] {
    } else {
      var t := Step(s, ops[0]).value;
      StepKeepsInv(s, ops[0]);
      AloneStep(s, ops[0], c);
      assert forall k :: 0 <= k < |ops[1..]| ==> ops[1..][k] == ops[k + 1];
      AloneNeverCopies(t, ops[1..], c);
    }
  }

  lemma AloneStep<C, S>(s: State<C, S>, op: Op<C, S>, c: C)
    requires Inv(s) && Alone(s, c) && Enabled(s, op) && Step(s, op).Some? && op != Destroy(c)
    requires op.Create? ==> op.share != s.cos[c].share
    ensures Inv(Step(s, op).value) && Alone(Step(s, op).value, c)
    ensures Step(s, op).value.cos[c].save == s.cos[c].save && Step(s, op).value.cos[c].share == s.cos[c].share
  {
    if op.Resume? {
      AloneResume(s, op.c, c);
      hide CoOn, Acquire;
      StepKeepsInv(s, op);
    } else {
      OthersLeaveAlone(s, op, c);
    }
  }

  lemma OthersLeaveAlone<C, S>(s: State<C, S>, op: Op<C, S>, c: C)
    requires Inv(s) && Alone(s, c) && Enabled(s, op) && Step(s, op).Some? && op != Destroy(c) && !op.Resume?
    requires op.Create? ==> op.share != s.cos[c].share
    ensures Inv(Step(s, op).value) && Alone(Step(s, op).value, c)
    ensures Step(s, op).value.cos[c].save == s.cos[c].save && Step(s, op).value.cos[c].share == s.cos[c].share
  {
    hide CoOn, Acquire, OwnerValid, Share.Valid;
    StepKeepsInv(s, op);
    assert CoValid(s, c);
  }

  lemma AloneResume<C, S>(s: State<C, S>, r: C, c: C)
    requires Inv(s) && Alone(s, c) && r in s.cos && s.cur == None && !s.cos[r].ended && Acquire(s, r).Some?
    ensures Inv(Acquire(s, r).value) && Alone(Acquire(s, r).value, c)
    ensures Acquire(s, r).value.cos[c].save == s.cos[c].save && Acquire(s, r).value.cos[c].share == s.cos[c].share
  {
    AcquireKeepsInv(s, r);
    var t := Acquire(s, r).value;
    forall d | d in t.cos ensures d in s.cos && t.cos[d].share == s.cos[d].share {
      AcquireAccounts(s, r, d);
    }
    AcquireAccounts(s, r, c);
    assert CoValid(s, c);
    assert CopiedOut(s, Resume(r), c) == 0;
    AloneNotCopiedIn(s, r, c);
  }

  lemma AloneNotCopiedIn<C, S>(s: State<C, S>, r: C, c: C)
    requires Inv(s) && Alone(s, c) && r in s.cos && s.cur == None
    ensures CopiedIn(s, Resume(r), c) == 0
  {
    assert CoValid(s, c);
  }
}
