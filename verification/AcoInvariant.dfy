/** Every operation of the runtime keeps the invariant, and exactly one of them can abort. */
module AcoInvariant {
  import opened Options
  import opened Words
  import opened ShareStackLayout
  import opened SaveBuffer
  import opened AcoSpec

  // ---------------------------------------------------------------- one switch

  /**
   When moving the owner out of the way aborts: a stack pointer outside the window, or growth that runs out of
   bits.
   */
  ghost predicate EvictionAborts<C, S>(sh: Share<C>, o: Co<S>)
    requires sh.Geometry().Valid() && 0 < sh.bits && o.save.cap < Pow2(sh.bits)
  {
    || !sh.Geometry().InWindow(o.reg[SP])
    || CapacityFor(o.save.cap, sh.Top() - o.reg[SP], sh.bits) == None
  }

  lemma SaveOutEffect<C, S>(sh: Share<C>, c: C, o: Co<S>)
    requires sh.Valid() && 0 < o.save.cap < Pow2(sh.bits)
    ensures SaveOut(sh, o) == None <==> EvictionAborts(sh, o)
    ensures SaveOut(sh, o).Some? ==>
      var (sh', o') := SaveOut(sh, o).value;
      && sh.base <= o.reg[SP] <= sh.Top()
      && sh' == sh.(owner := None, validSz := 0)
      && o' == o.(save := o'.save)
      && o'.save.bytes == sh.Live(o.reg[SP])
      && |o'.save.bytes| <= o'.save.cap < Pow2(sh.bits) && 0 < o'.save.cap
      && o'.save.maxCp == Max(o.save.maxCp, |o'.save.bytes|)
      && o'.save.ctSave == o.save.ctSave + (if |o'.save.bytes| > 0 then 1 else 0)
      && o'.save.ctRestore == o.save.ctRestore
      && SuspendedStackValid(sh', c, o')
  {
    if sh.Geometry().InWindow(o.reg[SP]) {
      WindowKeepsCopiesInside(sh.Geometry(), o.reg[SP]);
      GrownCapacityHolds(o.save.cap, sh.Top() - o.reg[SP], sh.bits);
    }
  }

  /** The restore-time assertion never fires for a coroutine parked by a save. */
  lemma CopyInEffect<C, S>(sh: Share<C>, c: C, co: Co<S>)
    requires sh.Valid() && sh.owner == None && SuspendedStackValid(sh, c, co)
    ensures sh.base <= co.reg[SP] <= sh.Top() && |co.save.bytes| == sh.Top() - co.reg[SP]
    ensures CopyIn(sh, c, co).Some?
    ensures var (sh', co') := CopyIn(sh, c, co).value;
      && sh'.Valid() && SameRegion(sh', sh) && sh'.owner == Some(c)
      && sh'.Live(co.reg[SP]) == co.save.bytes
      && sh'.mem[sh.Top() - sh.base..] == sh.mem[sh.Top() - sh.base..]
      && co' == co.(save := co'.save) && co'.save.bytes == co.save.bytes && co'.save.cap == co.save.cap
      && co'.save.maxCp == Max(co.save.maxCp, |co.save.bytes|)
      && co'.save.ctSave == co.save.ctSave
      && co'.save.ctRestore == co.save.ctRestore + (if |co.save.bytes| > 0 then 1 else 0)
  {
    WindowKeepsCopiesInside(sh.Geometry(), co.reg[SP]);
  }

  /** A coroutine notices of its stack only the geometry and whether it is the owner. */
  lemma OnlyOwnershipMatters<C, S>(sh: Share<C>, t: Share<C>, c: C, co: Co<S>, running: bool)
    requires CoOn(sh, c, co, running)
    requires SameRegion(t, sh) && (t.owner == Some(c) <==> sh.owner == Some(c))
    ensures CoOn(t, c, co, running)
  {
  }

  /** Whether the stack of `c` has an owner that cannot be moved out of the way of `c`. */
  ghost predicate AcquireAborts<C, S>(s: State<C, S>, c: C)
    requires Inv(s) && c in s.cos
  {
    assert CoValid(s, c);
    var sh := s.shares[s.cos[c].share];
    assert OwnerValid(s, s.cos[c].share);
    sh.owner.Some? && sh.owner != Some(c) &&
    assert CoValid(s, sh.owner.value);
    EvictionAborts(sh, s.cos[sh.owner.value])
  }

  /** Parking the owner: when it aborts, and that it changes one stack and one coroutine's buffer. */
  lemma EvictEffect<C, S>(s: State<C, S>, i: S)
    requires Inv(s) && i in s.shares
    ensures OwnerValid(s, i)
    ensures s.shares[i].owner == None ==> Evict(s, i) == Some(s)
    ensures s.shares[i].owner.Some? ==>
      var o := s.shares[i].owner.value;
      && CoValid(s, o)
      && (Evict(s, i) == None <==> EvictionAborts(s.shares[i], s.cos[o]))
      && (Evict(s, i).Some? ==>
            var (sh', o') := SaveOut(s.shares[i], s.cos[o]).value;
            && Evict(s, i).value == s.(shares := s.shares[i := sh'], cos := s.cos[o := o'])
            && sh' == s.shares[i].(owner := None, validSz := 0)
            && o' == s.cos[o].(save := o'.save)
            && (s.cur == None ==> CoOn(sh', o, o', false)))
  {
    assert OwnerValid(s, i);
    if s.shares[i].owner.Some? {
      assert CoValid(s, s.shares[i].owner.value);
      SaveOutEffect(s.shares[i], s.shares[i].owner.value, s.cos[s.shares[i].owner.value]);
    }
  }

  lemma EvictKeepsInv<C, S>(s: State<C, S>, i: S)
    requires Inv(s) && i in s.shares && s.cur == None
    ensures Evict(s, i).Some? ==> Inv(Evict(s, i).value)
  {
    hide CoOn, SaveOut, Evict, EvictionAborts;
    EvictEffect(s, i);
    if s.shares[i].owner.Some? && Evict(s, i).Some? {
      var o := s.shares[i].owner.value;
      var t := Evict(s, i).value;
      forall d | d in t.cos ensures CoValid(t, d) {
        assert CoValid(s, d);
        if d != o {
          OnlyOwnershipMatters(s.shares[t.cos[d].share], t.shares[t.cos[d].share], d, t.cos[d], false);
        }
      }
      forall j | j in t.shares ensures OwnerValid(t, j) {
        assert OwnerValid(s, j);
      }
    }
  }

  /** Giving an ownerless stack to `c` changes that stack and `c`. */
  lemma TakenOver<C, S>(s: State<C, S>, c: C)
    requires Inv(s) && c in s.cos && !s.cos[c].ended && s.cur == None
    requires CoValid(s, c) && s.shares[s.cos[c].share].owner == None
    ensures SuspendedStackValid(s.shares[s.cos[c].share], c, s.cos[c])
    ensures |s.cos[c].save.bytes| <= s.shares[s.cos[c].share].Top() - s.shares[s.cos[c].share].base
    ensures var i := s.cos[c].share;
      var r := CopyIn(s.shares[i], c, s.cos[c]);
      && r.Some? && r.value.0.Valid() && r.value.0.owner == Some(c) && SameRegion(r.value.0, s.shares[i])
      && r.value.1.share == i && !r.value.1.ended && CoOn(r.value.0, c, r.value.1, false)
      && TakeOver(s, c) == Some(s.(shares := s.shares[i := r.value.0], cos := s.cos[c := r.value.1]))
  {
    CopyInEffect(s.shares[s.cos[c].share], c, s.cos[c]);
  }

  lemma TakeOverKeepsInv<C, S>(s: State<C, S>, c: C)
    requires Inv(s) && c in s.cos && !s.cos[c].ended && s.cur == None
    requires CoValid(s, c) && s.shares[s.cos[c].share].owner == None
    ensures SuspendedStackValid(s.shares[s.cos[c].share], c, s.cos[c])
    ensures |s.cos[c].save.bytes| <= s.shares[s.cos[c].share].Top() - s.shares[s.cos[c].share].base
    ensures TakeOver(s, c).Some? && Inv(TakeOver(s, c).value)
  {
    TakenOver(s, c);
    hide Share.Valid, CoOn, SuspendedStackValid, CopyIn, TakeOver;
    var t := TakeOver(s, c).value;
    forall d | d in t.cos ensures CoValid(t, d) {
      assert CoValid(s, d);
      if d != c {
        OnlyOwnershipMatters(s.shares[t.cos[d].share], t.shares[t.cos[d].share], d, t.cos[d], false);
      }
    }
    forall j | j in t.shares ensures OwnerValid(t, j) {
      assert OwnerValid(s, j);
    }
  }

  /** Taking over a share stack: when it aborts, and that what it leaves is a valid state with `c` the owner. */
  lemma AcquireKeepsInv<C, S>(s: State<C, S>, c: C)
    requires Inv(s) && c in s.cos && !s.cos[c].ended && s.cur == None
    ensures Acquire(s, c) == None <==> AcquireAborts(s, c)
    ensures Acquire(s, c).Some? ==>
      var t := Acquire(s, c).value;
      && Inv(t) && t.cur == None && t.cos.Keys == s.cos.Keys
      && t.cos[c].reg == s.cos[c].reg && !t.cos[c].ended && t.cos[c].share == s.cos[c].share
      && CoValid(t, c) && t.shares[t.cos[c].share].owner == Some(c)
  {
    hide CoOn;
    assert CoValid(s, c);
    var i := s.cos[c].share;
    assert OwnerValid(s, i);
    if s.shares[i].owner != Some(c) {
      EvictKeepsInv(s, i);
      EvictEffect(s, i);
      if Evict(s, i).Some? {
        var s1 := Evict(s, i).value;
        assert CoValid(s1, c);
        TakeOverKeepsInv(s1, c);
        CopyInEffect(s1.shares[i], c, s1.cos[c]);
        assert CoValid(TakeOver(s1, c).value, c);
      }
    }
  }

  /** The step a resume of a live coroutine makes, spelled out. */
  lemma ResumeIs<C, S>(v: State<C, S>, c: C)
    requires Inv(v) && v.cur == None && c in v.cos && !v.cos[c].ended && CoValid(v, c)
    requires v.shares[v.cos[c].share].owner == Some(c) || v.shares[v.cos[c].share].owner == None
    ensures var i := v.cos[c].share;
      var sh, co := v.shares[i], v.cos[c];
      var loaded := v.(mainReg := v.cpu, cpu := co.reg, cur := Some(c));
      if sh.owner == Some(c) then
        Step(v, Resume(c)) == Some(loaded)
      else
        && |co.save.bytes| <= sh.Top() - sh.base && CopyIn(sh, c, co).Some?
        && var (sh', co') := CopyIn(sh, c, co).value;
        && co'.reg == co.reg
        && Step(v, Resume(c)) == Some(loaded.(shares := v.shares[i := sh'], cos := v.cos[c := co']))
  {
    var i := v.cos[c].share;
    assert OwnerValid(v, i);
    if v.shares[i].owner == None {
      TakeOverKeepsInv(v, c);
      CopyInEffect(v.shares[i], c, v.cos[c]);
    }
  }

  /** With another owner, a resume is that owner's eviction followed by a resume on a free stack. */
  lemma ResumeAfterEviction<C, S>(v: State<C, S>, c: C, o: C)
    requires Inv(v) && v.cur == None && c in v.cos && !v.cos[c].ended && CoValid(v, c)
    requires o != c && v.shares[v.cos[c].share].owner == Some(o)
    ensures OwnerValid(v, v.cos[c].share) && CoValid(v, o)
    ensures var i := v.cos[c].share;
      var r := SaveOut(v.shares[i], v.cos[o]);
      if r.None? then
        Step(v, Resume(c)) == None
      else
        var m := v.(shares := v.shares[i := r.value.0], cos := v.cos[o := r.value.1]);
        && r.value.0.owner == None && r.value.1.share == i
        && Inv(m) && CoValid(m, c) && Step(v, Resume(c)) == Step(m, Resume(c))
  {
    EvictEffect(v, v.cos[c].share);
    EvictKeepsInv(v, v.cos[c].share);
    if Evict(v, v.cos[c].share).Some? {
      assert CoValid(Evict(v, v.cos[c].share).value, c);
    }
  }

  /** The step an exit makes, spelled out: the running coroutine owns its stack, so the assertion holds. */
  lemma ExitIs<C, S>(v: State<C, S>, c: C)
    requires Inv(v) && v.cur == Some(c)
    ensures c in v.cos && v.cos[c].share in v.shares
    ensures var i := v.cos[c].share;
      && v.shares[i].owner == Some(c)
      && Step(v, Exit) == Some(SwitchToMain(v.(shares := v.shares[i := Disowned(v.shares[i])],
                                               cos := v.cos[c := v.cos[c].(ended := true)])))
  {
    assert CoValid(v, c);
  }

  // ---------------------------------------------------------------- every step

  /** The only way a run can abort: resuming an ended coroutine, or an owner that cannot be evicted. */
  ghost predicate Aborts<C, S>(s: State<C, S>, op: Op<C, S>)
    requires Inv(s) && Enabled(s, op)
  {
    op.Resume? && (s.cos[op.c].ended || AcquireAborts(s, op.c))
  }

  lemma StepKeepsInv<C, S>(s: State<C, S>, op: Op<C, S>)
    requires Inv(s) && Enabled(s, op)
    ensures Step(s, op) == None <==> Aborts(s, op)
    ensures Step(s, op).Some? ==> Inv(Step(s, op).value)
  {
    match op
    case Create(_, _, _, _) => CreateKeepsInv(s, op);
    case Destroy(c) => DestroyKeepsInv(s, c);
    case Resume(c) => ResumeKeepsInv(s, c);
    case MainRun(_) => MainRunKeepsInv(s, op);
    case CoRun(_, _, _) => CoRunKeepsInv(s, op);
    case Yield => YieldKeepsInv(s);
    case Exit => ExitKeepsInv(s);
  }

  /** A new coroutine has a buffer of the size asked for, or of 64 bytes, and nothing in it; all else stays. */
  lemma CreateKeepsInv<C, S>(s: State<C, S>, op: Op<C, S>)
    requires Inv(s) && op.Create? && Enabled(s, op)
    ensures var t := Step(s, op).value;
      && Inv(t) && t == s.(cos := t.cos) && t.cos.Keys == s.cos.Keys + {op.c}
      && (forall d :: d in s.cos ==> t.cos[d] == s.cos[d])
      && var co := t.cos[op.c];
      && co.share == op.share && !co.ended && co.reg[RETADDR] == op.fp
      && co.reg[SP] == (assert OwnerValid(s, op.share); s.shares[op.share].Top())
      && (op.saveSz == 0 ==> co.save == SaveArea(64, [], 0, 0, 0))
      && (op.saveSz > 0 ==> co.save == SaveArea(op.saveSz, [], 0, 0, 0))
  {
    var t := Step(s, op).value;
    assert OwnerValid(s, op.share);
    FreshIsValid(s.shares[op.share], op.c, op.share, op.saveSz, op.fp);
    forall d | d in t.cos ensures CoValid(t, d) {
      assert d != op.c ==> CoValid(s, d);
    }
    forall j | j in t.shares ensures OwnerValid(t, j) {
      assert OwnerValid(s, j);
    }
  }

  lemma FreshIsValid<C, S>(sh: Share<C>, c: C, i: S, saveSz: nat, fp: nat)
    requires sh.Valid() && saveSz < Pow2(sh.bits) && sh.owner != Some(c)
    ensures CoOn(sh, c, Fresh(i, sh.Top(), saveSz, fp), false)
  {
    Pow2Monotone(7, sh.bits);
    SmallPowers();
  }

  lemma DestroyKeepsInv<C, S>(s: State<C, S>, c: C)
    requires Inv(s) && c in s.cos && s.cur != Some(c)
    ensures Inv(Step(s, Destroy(c)).value)
  {
    hide CoOn, Acquire;
    var t := Step(s, Destroy(c)).value;
    assert CoValid(s, c);
    forall d | d in t.cos ensures CoValid(t, d) {
      assert CoValid(s, d);
      OnlyOwnershipMatters(s.shares[t.cos[d].share], t.shares[t.cos[d].share], d, t.cos[d], s.cur == Some(d));
    }
    forall j | j in t.shares ensures OwnerValid(t, j) {
      assert OwnerValid(s, j);
    }
  }

  lemma ResumeKeepsInv<C, S>(s: State<C, S>, c: C)
    requires Inv(s) && c in s.cos && s.cur == None
    ensures var r := Step(s, Resume(c));
      && (r == None <==> Aborts(s, Resume(c)))
      && (r.Some? ==> Inv(r.value))
  {
    if !s.cos[c].ended {
      AcquireKeepsInv(s, c);
      if Step(s, Resume(c)).Some? {
        var m, t := Acquire(s, c).value, Step(s, Resume(c)).value;
        assert CoValid(m, c);
        forall d | d in t.cos ensures CoValid(t, d) {
          assert CoValid(m, d);
        }
        forall j | j in t.shares ensures OwnerValid(t, j) {
          assert OwnerValid(m, j);
        }
      }
    }
  }

  lemma MainRunKeepsInv<C, S>(s: State<C, S>, op: Op<C, S>)
    requires Inv(s) && op.MainRun? && Enabled(s, op)
    ensures Inv(Step(s, op).value)
  {
    var t := Step(s, op).value;
    forall d | d in t.cos ensures CoValid(t, d) {
      assert CoValid(s, d);
    }
    forall j | j in t.shares ensures OwnerValid(t, j) {
      assert OwnerValid(s, j);
    }
  }

  lemma CoRunKeepsInv<C, S>(s: State<C, S>, op: Op<C, S>)
    requires Inv(s) && op.CoRun? && Enabled(s, op)
    ensures Inv(Step(s, op).value)
  {
    hide CoOn;
    var t := Step(s, op).value;
    assert CoValid(s, s.cur.value);
    forall d | d in t.cos ensures CoValid(t, d) {
      assert CoValid(s, d);
      OnlyOwnershipMatters(s.shares[t.cos[d].share], t.shares[t.cos[d].share], d, t.cos[d], s.cur == Some(d));
    }
    forall j | j in t.shares ensures OwnerValid(t, j) {
      assert OwnerValid(s, j);
    }
  }

  lemma YieldedIsValid<C, S>(sh: Share<C>, c: C, co: Co<S>, cpu: Regs)
    requires CoOn(sh, c, co, true) && sh.owner == Some(c) && sh.base <= cpu[SP] <= sh.Top()
    ensures CoOn(sh, c, co.(reg := cpu), false)
  {
  }

  lemma ExitedIsValid<C, S>(sh: Share<C>, c: C, co: Co<S>, cpu: Regs)
    requires CoOn(sh, c, co, true) && sh.owner == Some(c) && !co.ended
    ensures CoOn(Disowned(sh), c, co.(reg := cpu, ended := true), false)
  {
  }

  lemma YieldKeepsInv<C, S>(s: State<C, S>)
    requires Inv(s) && s.cur.Some?
    ensures Inv(SwitchToMain(s))
  {
    var t, c := SwitchToMain(s), s.cur.value;
    assert CoValid(s, c);
    YieldedIsValid(s.shares[s.cos[c].share], c, s.cos[c], s.cpu);
    hide CoOn;
    forall d | d in t.cos ensures CoValid(t, d) {
      assert CoValid(s, d);
    }
    forall j | j in t.shares ensures OwnerValid(t, j) {
      assert OwnerValid(s, j);
    }
  }

  lemma ExitKeepsInv<C, S>(s: State<C, S>)
    requires Inv(s) && s.cur.Some?
    ensures Step(s, Exit).Some? && Inv(Step(s, Exit).value)
  {
    var c := s.cur.value;
    assert CoValid(s, c);
    ExitedIsValid(s.shares[s.cos[c].share], c, s.cos[c], s.cpu);
    hide CoOn;
    var t := Step(s, Exit).value;
    forall d | d in t.cos ensures CoValid(t, d) {
      assert CoValid(s, d);
      if d != c {
        OnlyOwnershipMatters(s.shares[t.cos[d].share], t.shares[t.cos[d].share], d, t.cos[d], false);
      }
    }
    forall j | j in t.shares ensures OwnerValid(t, j) {
      assert OwnerValid(s, j);
    }
  }
}
