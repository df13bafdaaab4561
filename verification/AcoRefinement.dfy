/**
 The machine in which every coroutine owns a private stack, and the proof that the copy-stack runtime
 cannot be told apart from it: every step of every run commutes with the abstraction.
 */
module AcoRefinement {
  import opened ByteType
  import opened Options
  import opened AcoSpec
  import opened AcoInvariant

  // ---------------------------------------------------------------- private stacks

  datatype PCo = PCo(reg: Regs, ended: bool, stack: seq<Byte>)

  /** `tops` only gives the initial stack pointer of a coroutine; nothing is shared. */
  datatype PState<C(==), S(==)> =
    PState(tops: map<S, nat>, cos: map<C, PCo>, cur: Option<C>, mainReg: Regs, cpu: Regs)

  function PLeave<C(==), S(==)>(p: PState<C, S>, ended: bool): PState<C, S>
    requires p.cur.Some? && p.cur.value in p.cos
  {
    var me := p.cos[p.cur.value];
    var me' := if ended then PCo(p.cpu, true, []) else me.(reg := p.cpu);
    p.(cos := p.cos[p.cur.value := me'], cpu := p.mainReg, cur := None)
  }

  ghost predicate PEnabled<C, S>(p: PState<C, S>, op: Op<C, S>) {
    && (op.Create? ==> op.share in p.tops)
    && (op.Resume? ==> op.c in p.cos)
    && (op.CoRun? || op.Yield? || op.Exit? ==> p.cur.Some? && p.cur.value in p.cos)
  }

  /** One operation with private stacks.  Nothing is ever copied, and only a resume of an ended coroutine aborts. */
  function PStep<C(==), S(==)>(p: PState<C, S>, op: Op<C, S>): Option<PState<C, S>>
    requires PEnabled(p, op)
  {
    match op
    case Create(c, i, _, fp) => Some(p.(cos := p.cos[c := PCo([0, 0, 0, 0, fp, p.tops[i], 0, 0], false, [])]))
    case Destroy(c) => Some(p.(cos := p.cos - {c}))
    case Resume(c) =>
      if p.cos[c].ended then None
      else Some(p.(mainReg := p.cpu, cpu := p.cos[c].reg, cur := Some(c)))
    case MainRun(regs) => Some(p.(cpu := regs))
    case CoRun(live, _, regs) =>
      Some(p.(cos := p.cos[p.cur.value := p.cos[p.cur.value].(stack := live)], cpu := regs))
    case Yield => Some(PLeave(p, false))
    case Exit => Some(PLeave(p, true))
  }

  // ---------------------------------------------------------------- the abstraction

  /** The stack of `c`, wherever the runtime keeps it at the moment. */
  ghost function StackOf<C, S>(s: State<C, S>, c: C): seq<Byte>
    requires Inv(s) && c in s.cos
  {
    assert CoValid(s, c);
    var co := s.cos[c];
    var sh := s.shares[co.share];
    if co.ended then []
    else if s.cur == Some(c) then sh.Live(s.cpu[SP])
    else if sh.owner == Some(c) then sh.Live(co.reg[SP])
    else co.save.bytes
  }

  ghost function PrivateCo<C, S>(s: State<C, S>, c: C): PCo
    requires Inv(s) && c in s.cos
  {
    PCo(s.cos[c].reg, s.cos[c].ended, StackOf(s, c))
  }

  ghost function Tops<C, S>(s: State<C, S>): map<S, nat>
    requires Inv(s)
  {
    map i | i in s.shares :: assert OwnerValid(s, i); s.shares[i].Top()
  }

  ghost function Private<C, S>(s: State<C, S>): PState<C, S>
    requires Inv(s)
  {
    PState(Tops(s), map c | c in s.cos :: PrivateCo(s, c), s.cur, s.mainReg, s.cpu)
  }

  // ---------------------------------------------------------------- stuttering: moving bytes is invisible

  /** The same coroutines with the same stacks, registers and ends, and stacks with the same tops. */
  ghost predicate SamePrivate<C, S>(s: State<C, S>, t: State<C, S>)
    requires Inv(s) && Inv(t)
  {
    && t.shares.Keys == s.shares.Keys
    && (forall i :: i in s.shares ==> SameRegion(t.shares[i], s.shares[i]))
    && t.cos.Keys == s.cos.Keys
    && (forall c :: c in s.cos ==> PrivateCo(t, c) == PrivateCo(s, c))
  }

  lemma SameTops<C, S>(s: State<C, S>, t: State<C, S>)
    requires Inv(s) && Inv(t) && t.shares.Keys == s.shares.Keys
    requires forall i :: i in s.shares ==> SameRegion(t.shares[i], s.shares[i])
    ensures Tops(t) == Tops(s)
  {
    forall i | i in s.shares ensures OwnerValid(s, i) && OwnerValid(t, i) {
    }
  }

  /** A step that leaves `d` its record, and its stack if it owns one, leaves it its private stack. */
  lemma Untouched<C, S>(s: State<C, S>, t: State<C, S>, d: C)
    requires Inv(s) && Inv(t) && d in s.cos && d in t.cos && t.cos[d] == s.cos[d]
    requires s.cur != Some(d) && t.cur != Some(d)
    requires CoValid(s, d) && CoValid(t, d)
    requires var i := s.cos[d].share;
      t.shares[i] == s.shares[i] || (s.shares[i].owner != Some(d) && t.shares[i].owner != Some(d))
    ensures PrivateCo(t, d) == PrivateCo(s, d)
  {
  }

  /** The same while a coroutine runs throughout: what it keeps is the part of its stack above the stack pointer. */
  lemma UntouchedOrRunning<C, S>(s: State<C, S>, t: State<C, S>, d: C)
    requires Inv(s) && Inv(t) && d in s.cos && d in t.cos && t.cos[d] == s.cos[d] && t.cpu == s.cpu && t.cur == s.cur
    requires CoValid(s, d) && CoValid(t, d)
    requires var i := s.cos[d].share;
      t.shares[i] == s.shares[i] || (s.shares[i].owner != Some(d) && t.shares[i].owner != Some(d))
    ensures PrivateCo(t, d) == PrivateCo(s, d)
  {
  }

  /** A private state that agrees with `t` part by part, and has the tops of an earlier state, is its abstraction. */
  lemma Assemble<C, S>(s: State<C, S>, t: State<C, S>, p: PState<C, S>)
    requires Inv(s) && Inv(t) && t.shares.Keys == s.shares.Keys && p.tops == Tops(s)
    requires forall i :: i in s.shares ==> SameRegion(t.shares[i], s.shares[i])
    requires p.cur == t.cur && p.mainReg == t.mainReg && p.cpu == t.cpu
    requires t.cos.Keys == p.cos.Keys && (forall d :: d in t.cos ==> PrivateCo(t, d) == p.cos[d])
    ensures p == Private(t)
  {
    hide CoOn;
    SameTops(s, t);
    assert p.cos == Private(t).cos;
  }

  lemma EvictedOwnerKeepsStack<C, S>(s: State<C, S>, i: S, o: C)
    requires Inv(s) && i in s.shares && s.shares[i].owner == Some(o) && s.cur == None && Evict(s, i).Some?
    ensures Inv(Evict(s, i).value) && o in s.cos && o in Evict(s, i).value.cos
    ensures PrivateCo(Evict(s, i).value, o) == PrivateCo(s, o)
  {
    EvictEffect(s, i);
    EvictKeepsInv(s, i);
    SaveOutEffect(s.shares[i], o, s.cos[o]);
    assert CoValid(s, o) && CoValid(Evict(s, i).value, o);
  }

  lemma EvictMovesNothing<C, S>(s: State<C, S>, i: S)
    requires Inv(s) && i in s.shares && s.cur == None && Evict(s, i).Some?
    ensures Inv(Evict(s, i).value) && SamePrivate(s, Evict(s, i).value)
  {
    hide CoOn;
    EvictEffect(s, i);
    EvictKeepsInv(s, i);
    var t := Evict(s, i).value;
    if s.shares[i].owner.Some? {
      EvictedOwnerKeepsStack(s, i, s.shares[i].owner.value);
      forall c | c in s.cos && s.shares[i].owner != Some(c) ensures PrivateCo(t, c) == PrivateCo(s, c) {
        assert CoValid(s, c) && CoValid(t, c);
        Untouched(s, t, c);
      }
    }
  }

  lemma TakeOverMovesNothing<C, S>(s: State<C, S>, c: C)
    requires Inv(s) && c in s.cos && !s.cos[c].ended && s.cur == None
    requires CoValid(s, c) && s.shares[s.cos[c].share].owner == None
    ensures |s.cos[c].save.bytes| <= s.shares[s.cos[c].share].Top() - s.shares[s.cos[c].share].base
    ensures TakeOver(s, c).Some? && Inv(TakeOver(s, c).value) && SamePrivate(s, TakeOver(s, c).value)
  {
    hide CoOn, StackOf;
    TakeOverKeepsInv(s, c);
    CopyInEffect(s.shares[s.cos[c].share], c, s.cos[c]);
    var t := TakeOver(s, c).value;
    forall d | d in s.cos ensures PrivateCo(t, d) == PrivateCo(s, d) {
      assert CoValid(s, d) && CoValid(t, d);
      if d == c {
        RefilledKeepsStack(s, c);
      } else {
        Untouched(s, t, d);
      }
    }
  }

  lemma RefilledKeepsStack<C, S>(s: State<C, S>, c: C)
    requires Inv(s) && c in s.cos && !s.cos[c].ended && s.cur == None
    requires CoValid(s, c) && s.shares[s.cos[c].share].owner == None
    ensures |s.cos[c].save.bytes| <= s.shares[s.cos[c].share].Top() - s.shares[s.cos[c].share].base
    ensures TakeOver(s, c).Some? && Inv(TakeOver(s, c).value) && c in TakeOver(s, c).value.cos
    ensures PrivateCo(TakeOver(s, c).value, c) == PrivateCo(s, c)
  {
    TakeOverKeepsInv(s, c);
    CopyInEffect(s.shares[s.cos[c].share], c, s.cos[c]);
    assert CoValid(TakeOver(s, c).value, c);
  }

  lemma AcquireMovesNothing<C, S>(s: State<C, S>, c: C)
    requires Inv(s) && c in s.cos && !s.cos[c].ended && s.cur == None && Acquire(s, c).Some?
    ensures Inv(Acquire(s, c).value) && SamePrivate(s, Acquire(s, c).value)
  {
    assert CoValid(s, c);
    var i := s.cos[c].share;
    assert OwnerValid(s, i);
    AcquireKeepsInv(s, c);
    if s.shares[i].owner != Some(c) {
      EvictMovesNothing(s, i);
      EvictEffect(s, i);
      var s1 := Evict(s, i).value;
      assert CoValid(s1, c);
      TakeOverMovesNothing(s1, c);
    }
  }

  // ---------------------------------------------------------------- the simulation

  lemma ResumeCommutes<C, S>(s: State<C, S>, c: C)
    requires Inv(s) && c in s.cos && s.cur == None && Step(s, Resume(c)).Some?
    ensures Inv(Step(s, Resume(c)).value)
    ensures PStep(Private(s), Resume(c)) == Some(Private(Step(s, Resume(c)).value))
  {
    hide CoOn;
    StepKeepsInv(s, Resume(c));
    AcquireMovesNothing(s, c);
    AcquireKeepsInv(s, c);
    AcquireKeepsCpu(s, c);
    var m, t := Acquire(s, c).value, Step(s, Resume(c)).value;
    hide StackOf, Step;
    forall d | d in s.cos ensures PrivateCo(t, d) == PrivateCo(s, d) {
      assert PrivateCo(m, d) == PrivateCo(s, d);
      ResumedKeepsStack(s, c, d);
    }
    Assemble(s, t, PStep(Private(s), Resume(c)).value);
  }

  /** Once `c` owns its stack, loading its registers changes nobody's private state. */
  lemma ResumedKeepsStack<C, S>(s: State<C, S>, c: C, d: C)
    requires Inv(s) && c in s.cos && s.cur == None && Step(s, Resume(c)).Some?
    requires !s.cos[c].ended && Acquire(s, c).Some? && Inv(Acquire(s, c).value) && Inv(Step(s, Resume(c)).value)
    requires d in Acquire(s, c).value.cos
    ensures d in Step(s, Resume(c)).value.cos
    ensures PrivateCo(Step(s, Resume(c)).value, d) == PrivateCo(Acquire(s, c).value, d)
  {
    var m, t := Acquire(s, c).value, Step(s, Resume(c)).value;
    AcquireKeepsInv(s, c);
    assert CoValid(m, d) && CoValid(t, d);
    if d != c {
      Untouched(m, t, d);
    }
  }

  lemma AcquireKeepsCpu<C, S>(s: State<C, S>, c: C)
    requires Inv(s) && c in s.cos && !s.cos[c].ended && s.cur == None && Acquire(s, c).Some?
    ensures var t := Acquire(s, c).value;
      && t.cpu == s.cpu && t.mainReg == s.mainReg && t.cos.Keys == s.cos.Keys && t.shares.Keys == s.shares.Keys
      && c in t.cos && t.cos[c].reg == s.cos[c].reg
      && forall i :: i in s.shares ==> SameRegion(t.shares[i], s.shares[i])
  {
    AcquireMovesNothing(s, c);
    AcquireKeepsInv(s, c);
    assert CoValid(s, c);
    EvictEffect(s, s.cos[c].share);
  }

  lemma StepKeepsGeometry<C, S>(s: State<C, S>, op: Op<C, S>, t: State<C, S>)
    requires Inv(s) && Enabled(s, op) && Step(s, op) == Some(t) && !op.Resume?
    ensures t.shares.Keys == s.shares.Keys
    ensures forall i :: i in s.shares ==> SameRegion(t.shares[i], s.shares[i])
  {
    hide CoOn, Acquire;
    match op
    case Destroy(c) => assert CoValid(s, c);
    case CoRun(live, junk, _) =>
      assert CoValid(s, s.cur.value);
      var sh := s.shares[s.cos[s.cur.value].share];
      assert SameRegion(sh.WithBelow(junk + live), sh);
    case Exit => assert CoValid(s, s.cur.value);
    case _ =>
  }

  lemma CreatedIsEmpty<C, S>(s: State<C, S>, op: Op<C, S>)
    requires Inv(s) && Enabled(s, op) && op.Create? && Inv(Step(s, op).value)
    ensures op.c in Step(s, op).value.cos && PrivateCo(Step(s, op).value, op.c).stack == []
  {
    assert OwnerValid(s, op.share) && CoValid(Step(s, op).value, op.c);
  }

  lemma CreateCommutes<C, S>(s: State<C, S>, op: Op<C, S>)
    requires Inv(s) && Enabled(s, op) && op.Create?
    ensures op.share in Private(s).tops
    ensures Step(s, op).Some? && Inv(Step(s, op).value) && PStep(Private(s), op) == Some(Private(Step(s, op).value))
  {
    hide CoOn, StackOf;
    StepKeepsInv(s, op);
    CreatedIsEmpty(s, op);
    var t := Step(s, op).value;
    forall d | d in t.cos ensures PrivateCo(t, d) == PStep(Private(s), op).value.cos[d] {
      assert CoValid(t, d);
      if d != op.c {
        assert CoValid(s, d);
        UntouchedOrRunning(s, t, d);
      }
    }
    StepKeepsGeometry(s, op, t);
    Assemble(s, t, PStep(Private(s), op).value);
  }

  lemma DestroyCommutes<C, S>(s: State<C, S>, c: C)
    requires Inv(s) && Enabled(s, Destroy(c))
    ensures var r := Step(s, Destroy(c));
      r.Some? && Inv(r.value) && PStep(Private(s), Destroy(c)) == Some(Private(r.value))
  {
    hide CoOn, StackOf;
    StepKeepsInv(s, Destroy(c));
    assert CoValid(s, c);
    var t := Step(s, Destroy(c)).value;
    forall d | d in t.cos ensures PrivateCo(t, d) == PrivateCo(s, d) {
      assert CoValid(s, d) && CoValid(t, d);
      UntouchedOrRunning(s, t, d);
    }
    StepKeepsGeometry(s, Destroy(c), t);
    Assemble(s, t, PStep(Private(s), Destroy(c)).value);
  }

  lemma MainRunCommutes<C, S>(s: State<C, S>, op: Op<C, S>)
    requires Inv(s) && Enabled(s, op) && op.MainRun?
    ensures Step(s, op).Some? && Inv(Step(s, op).value) && PStep(Private(s), op) == Some(Private(Step(s, op).value))
  {
    hide CoOn;
    StepKeepsInv(s, op);
    var t := Step(s, op).value;
    forall d | d in t.cos ensures PrivateCo(t, d) == PrivateCo(s, d) {
      assert CoValid(s, d) && CoValid(t, d);
      Untouched(s, t, d);
    }
    StepKeepsGeometry(s, op, t);
    Assemble(s, t, PStep(Private(s), op).value);
  }

  lemma CoRunLeavesLive<C, S>(s: State<C, S>, op: Op<C, S>)
    requires Inv(s) && Enabled(s, op) && op.CoRun? && Inv(Step(s, op).value)
    ensures var t, c := Step(s, op).value, s.cur.value;
      c in t.cos && t.cos[c] == s.cos[c] && StackOf(t, c) == op.live
  {
    var t, c := Step(s, op).value, s.cur.value;
    assert CoValid(s, c) && CoValid(t, c);
    assert t.shares[s.cos[c].share].Live(t.cpu[SP]) == op.live;
  }

  lemma CoRunCommutes<C, S>(s: State<C, S>, op: Op<C, S>)
    requires Inv(s) && Enabled(s, op) && op.CoRun?
    ensures Private(s).cur.Some? && Private(s).cur.value in Private(s).cos
    ensures Step(s, op).Some? && Inv(Step(s, op).value) && PStep(Private(s), op) == Some(Private(Step(s, op).value))
  {
    hide CoOn, StackOf;
    StepKeepsInv(s, op);
    CoRunLeavesLive(s, op);
    var t, c := Step(s, op).value, s.cur.value;
    forall d | d in t.cos ensures PrivateCo(t, d) == PStep(Private(s), op).value.cos[d] {
      assert CoValid(s, d) && CoValid(t, d);
      if d != c {
        Untouched(s, t, d);
      }
    }
    StepKeepsGeometry(s, op, t);
    Assemble(s, t, PStep(Private(s), op).value);
  }

  lemma YieldCommutes<C, S>(s: State<C, S>)
    requires Inv(s) && s.cur.Some?
    ensures Private(s).cur.Some? && Private(s).cur.value in Private(s).cos
    ensures var r := Step(s, Yield);
      r.Some? && Inv(r.value) && PStep(Private(s), Yield) == Some(Private(r.value))
  {
    StepKeepsInv(s, Yield);
    var t, c := Step(s, Yield).value, s.cur.value;
    assert CoValid(s, c) && CoValid(t, c);
    forall d | d in t.cos && d != c ensures PrivateCo(t, d) == PrivateCo(s, d) {
      assert CoValid(s, d) && CoValid(t, d);
      Untouched(s, t, d);
    }
    StepKeepsGeometry(s, Yield, t);
    Assemble(s, t, PStep(Private(s), Yield).value);
  }

  lemma ExitCommutes<C, S>(s: State<C, S>)
    requires Inv(s) && s.cur.Some?
    ensures Private(s).cur.Some? && Private(s).cur.value in Private(s).cos
    ensures var r := Step(s, Exit);
      r.Some? && Inv(r.value) && PStep(Private(s), Exit) == Some(Private(r.value))
  {
    hide CoOn;
    StepKeepsInv(s, Exit);
    ExitIs(s, s.cur.value);
    var t, c := Step(s, Exit).value, s.cur.value;
    StepKeepsGeometry(s, Exit, t);
    hide Step;
    assert CoValid(s, c) && CoValid(t, c);
    forall d | d in t.cos && d != c ensures PrivateCo(t, d) == PrivateCo(s, d) {
      assert CoValid(s, d) && CoValid(t, d);
      Untouched(s, t, d);
    }
    Assemble(s, t, PStep(Private(s), Exit).value);
  }

  /** Every step that does not abort is the same step of the machine with private stacks. */
  lemma StepCommutes<C, S>(s: State<C, S>, op: Op<C, S>)
    requires Inv(s) && Enabled(s, op) && Step(s, op).Some?
    ensures Inv(Step(s, op).value)
    ensures PEnabled(Private(s), op)
    ensures PStep(Private(s), op) == Some(Private(Step(s, op).value))
  {
    match op
    case Create(_, _, _, _) => CreateCommutes(s, op);
    case Destroy(c) => DestroyCommutes(s, c);
    case Resume(c) => ResumeCommutes(s, c);
    case MainRun(_) => MainRunCommutes(s, op);
    case CoRun(_, _, _) => CoRunCommutes(s, op);
    case Yield => YieldCommutes(s);
    case Exit => ExitCommutes(s);
  }

  // ---------------------------------------------------------------- whole runs

  /** The state after the operations of a run; `None` when one is not allowed or aborts. */
  ghost function Run<C, S>(s: State<C, S>, ops: seq<Op<C, S>>): (r: Option<State<C, S>>)
    requires Inv(s)
    ensures r.Some? ==> Inv(r.value)
    decreases |ops|
  {
    if ops == [] then Some(s)
    else if !Enabled(s, ops[0]) || Step(s, ops[0]).None? then None
    else
      StepKeepsInv(s, ops[0]);
      Run(Step(s, ops[0]).value, ops[1..])
  }

  ghost function PRun<C, S>(p: PState<C, S>, ops: seq<Op<C, S>>): Option<PState<C, S>>
    decreases |ops|
  {
    if ops == [] then Some(p)
    else if !PEnabled(p, ops[0]) || PStep(p, ops[0]).None? then None
    else PRun(PStep(p, ops[0]).value, ops[1..])
  }

  /** Share stacks as the constructor leaves them, and no coroutine but the main one, which runs. */
  ghost predicate Start<C, S>(s: State<C, S>) {
    && s.cos == map[] && s.cur == None
    && (forall i :: i in s.shares ==> s.shares[i].Valid() && s.shares[i].owner == None && s.shares[i].validSz == 0)
  }

  /**
   In every reachable state a stack's owner is live and was created on it, and the running coroutine owns its
   stack.
   */
  lemma ReachableOwnership<C, S>(s: State<C, S>, ops: seq<Op<C, S>>)
    requires Start(s)
    ensures Inv(s)
    ensures Run(s, ops).Some? ==>
      var t := Run(s, ops).value;
      && (forall i :: i in t.shares && t.shares[i].owner.Some? ==>
            var o := t.shares[i].owner.value;
            o in t.cos && !t.cos[o].ended && t.cos[o].share == i)
      && (t.cur.Some? ==>
            t.cur.value in t.cos && t.cos[t.cur.value].share in t.shares &&
            t.shares[t.cos[t.cur.value].share].owner == t.cur)
  {
    hide CoOn;
    assert forall i :: i in s.shares ==> OwnerValid(s, i);
    if Run(s, ops).Some? {
      var t := Run(s, ops).value;
      hide Run, Step, Enabled;
      forall i | i in t.shares && t.shares[i].owner.Some?
        ensures var o := t.shares[i].owner.value;
          o in t.cos && !t.cos[o].ended && t.cos[o].share == i
      {
        assert OwnerValid(t, i);
      }
    }
  }

  /** The refinement: a run of the copy-stack runtime is a run of the machine with private stacks. */
  lemma {:induction false} RunRefinesPrivateStacks<C, S>(s: State<C, S>, ops: seq<Op<C, S>>)
    requires Inv(s) && Run(s, ops).Some?
    ensures PRun(Private(s), ops) == Some(Private(Run(s, ops).value))
    decreases |ops|
  {
    if ops == [] {
    } else {
      StepCommutes(s, ops[0]);
      RunRefinesPrivateStacks(Step(s, ops[0]).value, ops[1..]);
    }
  }

  /** With private stacks, what others do cannot touch a suspended coroutine. */
  lemma {:induction false} PRunLeavesAlone<C, S>(p: PState<C, S>, ops: seq<Op<C, S>>, c: C)
    requires c in p.cos && p.cur != Some(c) && PRun(p, ops).Some?
    requires forall k :: 0 <= k < |ops| ==>
      ops[k] != Resume(c) && ops[k] != Destroy(c) && !(ops[k].Create? && ops[k].c == c)
    ensures var q := PRun(p, ops).value;
      c in q.cos && q.cos[c] == p.cos[c] && q.cur != Some(c)
    decreases |ops|
  {
    if ops == [] {
    } else {
      PRunLeavesAlone(PStep(p, ops[0]).value, ops[1..], c);
    }
  }

  /**
   What a program relies on: a coroutine yields, others run, yield, exit, are created and destroyed
   in any order on any stack, and when it is resumed it finds the registers, the return address and
   every byte between its stack pointer and the top of the stack as it left them.
   */
  lemma {:induction false} ResumeRestoresWhatYieldLeft<C, S>(s: State<C, S>, c: C, between: seq<Op<C, S>>)
    requires Inv(s) && s.cur == Some(c)
    requires forall k :: 0 <= k < |between| ==> between[k] != Resume(c) && between[k] != Destroy(c)
    requires Run(s, [Yield] + between + [Resume(c)]).Some?
    ensures var t := Run(s, [Yield] + between + [Resume(c)]).value;
      && t.cur == Some(c) && t.cpu == s.cpu
      && c in s.cos && c in t.cos && !t.cos[c].ended
      && StackOf(t, c) == StackOf(s, c)
  {
    var s1 := Step(s, Yield).value;
    YieldKeepsInv(s);
    RunOfThree(s, Yield, between, Resume(c));
    var s2 := Run(s1, between).value;
    var t := Step(s2, Resume(c)).value;
    StepCommutes(s, Yield);
    NoRecreation(s1, between, c);
    RunRefinesPrivateStacks(s1, between);
    PRunLeavesAlone(Private(s1), between, c);
    StepCommutes(s2, Resume(c));
    assert Private(s1).cos[c] == PrivateCo(s1, c) && Private(s).cos[c] == PrivateCo(s, c);
    assert Private(s2).cos[c] == PrivateCo(s2, c) && Private(t).cos[c] == PrivateCo(t, c);
  }

  lemma RunOfThree<C, S>(s: State<C, S>, first: Op<C, S>, between: seq<Op<C, S>>, last: Op<C, S>)
    requires Inv(s) && Run(s, [first] + between + [last]).Some?
    ensures Enabled(s, first) && Step(s, first).Some? && Inv(Step(s, first).value)
    ensures var s1 := Step(s, first).value;
      && Run(s1, between).Some?
      && var s2 := Run(s1, between).value;
      && Enabled(s2, last) && Step(s2, last).Some?
      && Run(s, [first] + between + [last]) == Step(s2, last)
  {
    var all := [first] + between + [last];
    assert all[0] == first && all[1..] == between + [last];
    hide Step, Enabled, Inv;
    StepKeepsInv(s, first);
    RunSplit(Step(s, first).value, between, [last]);
    assert [last][1..] == [];
  }

  lemma {:induction false} RunSplit<C, S>(s: State<C, S>, a: seq<Op<C, S>>, b: seq<Op<C, S>>)
    requires Inv(s)
    ensures Run(s, a + b) == if Run(s, a).Some? then Run(Run(s, a).value, b) else None
    decreases |a|
  {
    if a == [] {
      assert a + b == b;
    } else {
      assert (a + b)[0] == a[0] && (a + b)[1..] == a[1..] + b;
      if Enabled(s, a[0]) && Step(s, a[0]).Some? {
        StepKeepsInv(s, a[0]);
        RunSplit(Step(s, a[0]).value, a[1..], b);
      }
    }
  }

  lemma StepKeepsCo<C, S>(s: State<C, S>, op: Op<C, S>, c: C)
    requires Inv(s) && c in s.cos && Enabled(s, op) && Step(s, op).Some? && op != Destroy(c)
    ensures c in Step(s, op).value.cos
  {
    hide CoOn;
    if op.Resume? {
      AcquireKeepsInv(s, op.c);
    }
  }

  /** A run goes on with any step that does not abort. */
  lemma RunExtends<C, S>(s: State<C, S>, ops: seq<Op<C, S>>, op: Op<C, S>)
    requires Inv(s) && Run(s, ops).Some? && Enabled(Run(s, ops).value, op)
    ensures Run(s, ops + [op]) == Step(Run(s, ops).value, op)
  {
    RunSplit(s, ops, [op]);
    var t := Run(s, ops).value;
    assert [op][1..] == [] && [op][0] == op;
    if Step(t, op).Some? {
      StepKeepsInv(t, op);
      assert Run(Step(t, op).value, [op][1..]) == Step(t, op);
    }
  }

  /** A live coroutine's identity is not handed out again. */
  lemma {:induction false} NoRecreation<C, S>(s: State<C, S>, ops: seq<Op<C, S>>, c: C)
    requires Inv(s) && c in s.cos && Run(s, ops).Some?
    requires forall k :: 0 <= k < |ops| ==> ops[k] != Destroy(c)
    ensures forall k :: 0 <= k < |ops| ==> !(ops[k].Create? && ops[k].c == c)
    decreases |ops|
  {
    if ops == [] {
    } else {
      StepKeepsCo(s, ops[0], c);
      hide CoOn, Step;
      StepKeepsInv(s, ops[0]);
      NoRecreation(Step(s, ops[0]).value, ops[1..], c);
      assert forall k :: 1 <= k < |ops| ==> ops[k] == ops[1..][k - 1];
    }
  }

  // ---------------------------------------------------------------- the protector word

  /** The two stacks hold the same bytes from the protector word on. */
  ghost predicate SameProtector<C>(a: Share<C>, b: Share<C>) {
    && SameRegion(a, b) && a.Geometry().Valid()
    && a.mem[a.Top() - a.base..] == b.mem[a.Top() - a.base..]
  }

  lemma RefillKeepsProtector<C>(sh: Share<C>, c: C, bytes: seq<Byte>)
    requires sh.Geometry().Valid() && |bytes| <= sh.Top() - sh.base
    ensures SameProtector(Refilled(sh, c, bytes), sh)
  {
  }

  lemma RunBelowKeepsProtector<C>(sh: Share<C>, below: seq<Byte>)
    requires sh.Geometry().Valid() && sh.base + |below| == sh.Top()
    ensures SameProtector(sh.WithBelow(below), sh)
  {
  }

  lemma TakeOverKeepsProtector<C, S>(m: State<C, S>, c: C)
    requires Inv(m) && c in m.cos && !m.cos[c].ended && m.cur == None
    requires CoValid(m, c) && m.shares[m.cos[c].share].owner == None
    ensures |m.cos[c].save.bytes| <= m.shares[m.cos[c].share].Top() - m.shares[m.cos[c].share].base
    ensures TakeOver(m, c).Some?
    ensures var k, t := m.cos[c].share, TakeOver(m, c).value;
      && t.shares.Keys == m.shares.Keys && SameProtector(t.shares[k], m.shares[k])
      && forall i :: i in m.shares && i != k ==> t.shares[i] == m.shares[i]
  {
    hide CoOn, SameProtector;
    TakeOverKeepsInv(m, c);
    RefillKeepsProtector(m.shares[m.cos[c].share], c, m.cos[c].save.bytes);
  }

  lemma AcquireKeepsProtector<C, S>(s: State<C, S>, c: C, i: S)
    requires Inv(s) && c in s.cos && !s.cos[c].ended && s.cur == None && Acquire(s, c).Some? && i in s.shares
    ensures i in Acquire(s, c).value.shares && SameProtector(Acquire(s, c).value.shares[i], s.shares[i])
  {
    hide SameProtector, CoOn, SaveOut, CopyIn;
    assert CoValid(s, c);
    var k := s.cos[c].share;
    assert OwnerValid(s, k) && OwnerValid(s, i);
    SameProtectorReflexive(s.shares[i]);
    if s.shares[k].owner != Some(c) {
      EvictEffect(s, k);
      EvictKeepsInv(s, k);
      var m := Evict(s, k).value;
      assert CoValid(m, c);
      TakeOverKeepsProtector(m, c);
      hide Evict, TakeOver;
      SameProtectorOfDisowned(Acquire(s, c).value.shares[k], m.shares[k], s.shares[k]);
    }
  }

  lemma SameProtectorReflexive<C>(sh: Share<C>)
    requires sh.Geometry().Valid()
    ensures SameProtector(sh, sh)
  {
  }

  lemma SameProtectorTransitive<C>(a: Share<C>, b: Share<C>, c: Share<C>)
    requires SameProtector(a, b) && SameProtector(b, c)
    ensures SameProtector(a, c)
  {
  }

  lemma SameProtectorOfDisowned<C>(a: Share<C>, b: Share<C>, c: Share<C>)
    requires SameProtector(a, b) && (b == c || b == Disowned(c))
    ensures SameProtector(a, c)
  {
  }

  lemma StepKeepsProtector<C, S>(s: State<C, S>, op: Op<C, S>, i: S)
    requires Inv(s) && Enabled(s, op) && Step(s, op).Some? && i in s.shares
    ensures i in Step(s, op).value.shares && SameProtector(Step(s, op).value.shares[i], s.shares[i])
  {
    assert OwnerValid(s, i);
    SameProtectorReflexive(s.shares[i]);
    match op
    case Resume(c) => AcquireKeepsProtector(s, c, i);
    case Destroy(c) => assert CoValid(s, c);
    case CoRun(live, junk, _) =>
      assert CoValid(s, s.cur.value);
      RunBelowKeepsProtector(s.shares[s.cos[s.cur.value].share], junk + live);
      hide SameProtector, CoOn;
    case Exit => assert CoValid(s, s.cur.value);
    case _ =>
  }

  /** No run ever writes the protector word: neither a save nor a restore reaches it. */
  lemma {:induction false} RunKeepsProtector<C, S>(s: State<C, S>, ops: seq<Op<C, S>>, i: S)
    requires Inv(s) && i in s.shares && Run(s, ops).Some?
    ensures i in Run(s, ops).value.shares && SameProtector(Run(s, ops).value.shares[i], s.shares[i])
    decreases |ops|
  {
    hide CoOn, CurValid, Step, Enabled, SameProtector;
    if ops == [] {
      assert OwnerValid(s, i);
      SameProtectorReflexive(s.shares[i]);
    } else {
      var t := Step(s, ops[0]).value;
      StepKeepsInv(s, ops[0]);
      StepKeepsProtector(s, ops[0], i);
      RunKeepsProtector(t, ops[1..], i);
      SameProtectorTransitive(Run(t, ops[1..]).value.shares[i], t.shares[i], s.shares[i]);
    }
  }
}
