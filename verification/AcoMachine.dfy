/**
 The runtime as a whole program uses it: any number of coroutines on any number of share stacks, with their
 buffers apart from each other.  Every call is one step of `AcoSpec` on the value of all these records, so a
 program's calls make a run of that machine, and all that is proved about runs holds of the records.
 */
module AcoMachine {
  import opened AcoInvariant
  import opened AcoLocality
  import opened AcoRefinement
  import opened AcoRuntime
  import opened AcoSpec
  import opened ByteType
  import opened Options
  import opened SaveBuffer
  import opened Words

  class Machine {
    const thread: Thread
    ghost var cos: set<Coroutine>
    ghost const stacks: set<ShareStack>

    /** No two of the records share a byte array. */
    ghost predicate Apart(cs: set<Coroutine>)
      reads cs
    {
      && (forall c, d :: c in cs && d in cs && c != d ==> c.savePtr != d.savePtr)
      && (forall s, r :: s in stacks && r in stacks && s != r ==> s.mem != r.mem)
      && (forall c, s :: c in cs && s in stacks ==> c.savePtr != s.mem)
    }

    ghost predicate StacksValid(cs: set<Coroutine>)
      reads stacks
    {
      forall s :: s in stacks ==> s.Laid() && (s.owner != null ==> s.owner in cs && s.owner.shareStack == s)
    }

    ghost predicate CosValid(cs: set<Coroutine>)
      reads thread`current, cs
    {
      && thread.mainCo.mainCo == null && thread.mainCo !in cs
      && (forall c :: c in cs ==> c.HasBuffer() && c.shareStack in stacks && c.mainCo == thread.mainCo)
      && (thread.Running().Some? ==> thread.Running().value in cs)
    }

    ghost predicate Valid()
      reads `cos, thread`current, cos, stacks
    {
      Apart(cos) && StacksValid(cos) && CosValid(cos)
    }

    /** The value of all the records. */
    ghost function Value(): State<Coroutine, ShareStack>
      requires Valid()
      reads this, thread, thread.mainCo, cos, stacks, set c | c in cos :: c.savePtr, set s | s in stacks :: s.mem
    {
      State(map s | s in stacks :: s.Value(), map c | c in cos :: c.Value(),
            thread.Running(), thread.mainCo.reg, thread.cpu)
    }

    /** A thread with share stacks as their constructor leaves them. */
    constructor (ghost stacks: set<ShareStack>)
      requires forall s :: s in stacks ==> s.Laid() && s.owner == null && s.alignValidsz == 0
      requires forall s, r :: s in stacks && r in stacks && s != r ==> s.mem != r.mem
      ensures this.stacks == stacks && cos == {} && Valid() && Start(Value()) && Inv(Value())
    {
      thread := new Thread();
      this.stacks, cos := stacks, {};
      new;
      ReachableOwnership(Value(), []);
    }

    /** What a switch to or from `c` works on is the part of the machine that it depends on. */
    lemma PartOf(c: Coroutine)
      requires Valid() && Inv(Value()) && c in cos
      requires thread.Running() == None || thread.Running() == Some(c) || thread.Running() == Some(thread.OwnerOr(c))
      ensures var o := thread.OwnerOr(c);
        && o in cos && thread.Wired(c, o) && Local(Value(), c, o) && thread.Value(c, o) == Part(Value(), c, o)
        && thread.Value(c, o).cur == Value().cur
    {
      var w, o := Value(), thread.OwnerOr(c);
      assert w.cos[c] == c.Value() && w.cos[o] == o.Value() && w.shares[c.shareStack] == c.shareStack.Value();
      assert thread.Value(c, o).cos == Part(w, c, o).cos;
      assert thread.Value(c, o).shares == Part(w, c, o).shares;
    }

    /** Every coroutine but `c` and `o`, and every stack but theirs, is as in `w`. */
    ghost predicate OthersAre(w: State<Coroutine, ShareStack>, c: Coroutine, o: Coroutine)
      reads `cos, cos, stacks, set d | d in cos :: d.savePtr, set s | s in stacks :: s.mem
    {
      && w.cos.Keys == cos && w.shares.Keys == stacks
      && (forall d :: d in cos && d != c && d != o ==> d.HasBuffer() && d.Value() == w.cos[d])
      && (forall s :: s in stacks && s != c.shareStack ==> s.Value() == w.shares[s])
    }

    lemma WholeIs(w: State<Coroutine, ShareStack>)
      requires Valid() && w == Value()
      ensures w.cos.Keys == cos && forall d :: d in cos ==> w.cos[d] == d.Value()
      ensures w.shares.Keys == stacks && forall s :: s in stacks ==> w.shares[s] == s.Value()
    {
    }

    lemma Reassemble(w: State<Coroutine, ShareStack>, c: Coroutine, o: Coroutine)
      requires Valid() && c in cos && o in cos && thread.Wired(c, o) && OthersAre(w, c, o)
      ensures Value() == Put(w, c, o, thread.Value(c, o))
    {
      var t, whole := thread.Value(c, o), Value();
      WholeIs(whole);
      assert t.shares == map[c.shareStack := c.shareStack.Value()] && t.cos == map[o := o.Value(), c := c.Value()];
      hide Valid, Apart, StacksValid, Coroutine.Value, ShareStack.Value, Coroutine.HasBuffer;
      PutIs(w, c, o, c.shareStack, t, whole);
    }

    /** Each coroutine but `o` has the buffer it had. */
    ghost predicate BuffersAre(buffers: map<Coroutine, array?<Byte>>, o: Coroutine?)
      reads cos, `cos
    {
      buffers.Keys == cos && forall d :: d in cos && d != o ==> d.savePtr == buffers[d]
    }

    /** The arrays were apart. */
    ghost predicate WereApart(buffers: map<Coroutine, array?<Byte>>) {
      && (forall c, d :: c in buffers && d in buffers && c != d ==> buffers[c] != buffers[d])
      && (forall s, r :: s in stacks && r in stacks && s != r ==> s.mem != r.mem)
      && (forall c, s :: c in buffers && s in stacks ==> buffers[c] != s.mem)
    }

    /** No record has this array yet. */
    ghost predicate IsNew(buffers: map<Coroutine, array?<Byte>>, a: array?<Byte>) {
      (forall d :: d in buffers ==> a != buffers[d]) && forall s :: s in stacks ==> a != s.mem
    }

    /** Buffers that were apart stay apart when at most one of them is replaced, by a new one. */
    lemma StillApart(buffers: map<Coroutine, array?<Byte>>, o: Coroutine)
      requires o in cos && WereApart(buffers) && BuffersAre(buffers, o)
      requires o.savePtr == buffers[o] || IsNew(buffers, o.savePtr)
      ensures Apart(cos)
    {
    }

    lemma StillValid(w: State<Coroutine, ShareStack>, c: Coroutine, o: Coroutine)
      requires Apart(cos) && Inv(w) && OthersAre(w, c, o)
      requires c in cos && o in cos && thread.Wired(c, o) && thread.mainCo !in cos
      requires forall d :: d in cos ==>
        d.shareStack in stacks && d.mainCo == thread.mainCo && w.cos[d].share == d.shareStack
      requires forall s :: s in stacks ==> s.Laid()
      requires thread.current == null || thread.current == thread.mainCo || thread.current == c
      requires c.shareStack.owner == c || c.shareStack.owner == null
      ensures Valid()
    {
      forall s | s in stacks && s.owner != null
        ensures s.owner in cos && s.owner.shareStack == s
      {
        if s != c.shareStack {
          assert OwnerValid(w, s) && s.Value() == w.shares[s];
        }
      }
      hide Apart;
    }

    /** The arrays a switch may write to belong to no other record. */
    ghost predicate Away(c: Coroutine, o: Coroutine)
      reads this, cos, stacks, c, o
    {
      && (forall d :: d in cos && d != c && d != o ==>
            d.savePtr != o.savePtr && (c.shareStack != null ==> d.savePtr != c.shareStack.mem))
      && (forall s :: s in stacks && s != c.shareStack ==>
            s.mem != o.savePtr && (c.shareStack != null ==> s.mem != c.shareStack.mem))
    }

    lemma OthersAreAway(c: Coroutine, o: Coroutine)
      requires Valid() && c in cos && o in cos
      ensures Away(c, o)
    {
    }

    /** The resume as the records see it: two coroutines and their stack change, and nothing else does. */
    method ResumeRecords(c: Coroutine, ghost o: Coroutine, ghost v: State<Coroutine, ShareStack>,
                         ghost w: State<Coroutine, ShareStack>, ghost buffers: map<Coroutine, array?<Byte>>)
      returns (ok: bool)
      requires c.shareStack != null && o == thread.OwnerOr(c) && thread.Wired(c, o) && o in cos && thread.mainCo !in cos
      requires v == thread.Value(c, o) && Inv(v) && v.cur == None
      requires OthersAre(w, c, o) && Away(c, o) && BuffersAre(buffers, null)
      modifies thread`cpu, thread`current, thread.mainCo`reg
      modifies c, c.shareStack, c.shareStack.mem, o, o.savePtr
      ensures ok == Step(v, AcoSpec.Resume(c)).Some?
      ensures ok ==> thread.Wired(c, o) && Step(v, AcoSpec.Resume(c)) == Some(thread.Value(c, o))
      ensures ok ==> thread.current == c && c.shareStack.owner == c
      ensures ok ==> BuffersAre(buffers, o) && o in buffers && (o.savePtr == buffers[o] || IsNew(buffers, o.savePtr))
      ensures OthersAre(w, c, o)
    {
      hide Inv, Step, Thread.Wired, Thread.Value, Thread.Running, Thread.OwnerOr;
      ghost var saved := o.savePtr;
      ok := thread.Resume(c, v);
      forall d | d in cos && d != c && d != o
        ensures d.HasBuffer() && d.Value() == w.cos[d]
      {
        assert d.savePtr != saved && d.savePtr != c.shareStack.mem;
      }
      forall s | s in stacks && s != c.shareStack
        ensures s.Value() == w.shares[s]
      {
        assert s.mem != c.shareStack.mem && s.mem != saved;
      }
    }

    /** What the whole machine's step is, before it is made on the records of `c` and the owner of its stack. */
    lemma Before(c: Coroutine, op: Op<Coroutine, ShareStack>)
      requires Valid() && Inv(Value()) && c in cos && Enabled(Value(), op) && Switches(Value(), op, c)
      requires thread.Running() == None || thread.Running() == Some(c) || thread.Running() == Some(thread.OwnerOr(c))
      ensures var w, o := Value(), thread.OwnerOr(c);
        && o in cos && thread.Wired(c, o) && Inv(thread.Value(c, o)) && Enabled(thread.Value(c, o), op)
        && thread.Value(c, o).cur == w.cur && OthersAre(w, c, o)
        && (var r := Step(thread.Value(c, o), op);
            Step(w, op) == if r.None? then None else Some(Put(w, c, o, r.value)))
    {
      assert c.shareStack != null;
      hide *;
      PartOf(c);
      SwitchIsLocal(Value(), op, c, thread.OwnerOr(c));
      OthersAtFirst(Value(), c, thread.OwnerOr(c));
    }

    lemma OthersAtFirst(w: State<Coroutine, ShareStack>, c: Coroutine, o: Coroutine)
      requires Valid() && w == Value()
      ensures OthersAre(w, c, o)
    {
      WholeIs(w);
    }

    /** What a switch leaves as it finds it. */
    lemma Fixed(w: State<Coroutine, ShareStack>, buffers: map<Coroutine, array?<Byte>>)
      requires Valid() && w == Value() && BuffersAre(buffers, null)
      ensures WereApart(buffers) && thread.mainCo !in cos && forall s :: s in stacks ==> s.Laid()
      ensures w.cos.Keys == cos
      ensures forall d :: d in cos ==>
        d.shareStack in stacks && d.mainCo == thread.mainCo && w.cos[d].share == d.shareStack
    {
      WholeIs(w);
    }

    /** `aco_resume`, up to the point where the resumed coroutine runs. */
    method Resume(c: Coroutine) returns (ok: bool)
      requires Valid() && Inv(Value()) && Value().cur == None && c in cos
      modifies thread`cpu, thread`current, thread.mainCo`reg
      modifies c, c.shareStack, c.shareStack.mem, thread.OwnerOr(c), thread.OwnerOr(c).savePtr
      ensures ok == Step(old(Value()), AcoSpec.Resume(c)).Some?
      ensures ok ==> Valid() && Inv(Value()) && Step(old(Value()), AcoSpec.Resume(c)) == Some(Value())
    {
      ghost var w, o, buffers := Value(), thread.OwnerOr(c), Buffers();
      assert BuffersAre(buffers, null);
      assert Enabled(w, AcoSpec.Resume(c)) && Switches(w, AcoSpec.Resume(c), c);
      hide *;
      Before(c, AcoSpec.Resume(c));
      StepKeepsInv(w, AcoSpec.Resume(c));
      Fixed(w, buffers);
      OthersAreAway(c, o);
      ok := ResumeRecords(c, o, thread.Value(c, o), w, buffers);
      if ok {
        StillApart(buffers, o);
        StillValid(w, c, o);
        Reassemble(w, c, o);
      }
    }

    /** The running coroutine is the owner of its stack. */
    lemma RunningOwns(c: Coroutine)
      requires Valid() && Inv(Value()) && c in cos && thread.current == c
      ensures Value().cur == Some(c) && c.shareStack != null && c.shareStack.owner == c && thread.OwnerOr(c) == c
    {
      WholeIs(Value());
      assert Value().shares[c.shareStack] == c.shareStack.Value();
    }

    method YieldRecords(c: Coroutine, ghost v: State<Coroutine, ShareStack>,
                        ghost w: State<Coroutine, ShareStack>, ghost buffers: map<Coroutine, array?<Byte>>)
      requires c.shareStack != null && thread.current == c && thread.Wired(c, c) && v == thread.Value(c, c)
      requires OthersAre(w, c, c) && BuffersAre(buffers, null)
      modifies thread`cpu, thread`current, c`reg
      ensures thread.Wired(c, c) && v.cur == Some(c) && c in v.cos && thread.Value(c, c) == SwitchToMain(v)
      ensures thread.current == thread.mainCo && OthersAre(w, c, c) && BuffersAre(buffers, c)
      ensures c in buffers ==> c.savePtr == buffers[c]
    {
      hide Thread.Wired, Thread.Value, Thread.Running, SwitchToMain;
      thread.Yield(c, v);
    }

    ghost function Buffers(): map<Coroutine, array?<Byte>>
      reads `cos, cos
    {
      map d | d in cos :: d.savePtr
    }

    /** All that a yield or an exit of the running coroutine has to go by. */
    lemma BeforeLeaving(c: Coroutine, op: Op<Coroutine, ShareStack>)
      requires Valid() && Inv(Value()) && c in cos && thread.current == c && (op == AcoSpec.Yield || op == AcoSpec.Exit)
      ensures var w := Value();
        && Enabled(w, op) && c.shareStack != null && c.shareStack.owner == c && thread.Wired(c, c) &&
          Inv(thread.Value(c, c))
        && thread.Value(c, c).cur == Some(c) && Enabled(thread.Value(c, c), op) && OthersAre(w, c, c)
        && (var r := Step(thread.Value(c, c), op);
            Step(w, op) == if r.None? then None else Some(Put(w, c, c, r.value)))
      ensures BuffersAre(Buffers(), null) && Buffers().Keys == cos
      ensures thread.mainCo !in cos && WereApart(Buffers())
      ensures forall s :: s in stacks ==> s.Laid()
      ensures forall d :: d in cos ==>
        d.shareStack in stacks && d.mainCo == thread.mainCo && d in Value().cos && Value().cos[d].share == d.shareStack
    {
      var w := Value();
      RunningOwns(c);
      assert Enabled(w, op) && Switches(w, op, c) && thread.Running() == Some(c);
      assert BuffersAre(Buffers(), null);
      hide *;
      Before(c, op);
      Fixed(w, Buffers());
    }

    /** `aco_yield`. */
    method Yield(c: Coroutine)
      requires Valid() && Inv(Value()) && c in cos && thread.current == c
      modifies thread`cpu, thread`current, c`reg
      ensures Valid() && Inv(Value())
      ensures Enabled(old(Value()), AcoSpec.Yield) && Step(old(Value()), AcoSpec.Yield) == Some(Value())
    {
      hide *;
      ghost var w, buffers := Value(), Buffers();
      BeforeLeaving(c, AcoSpec.Yield);
      StepKeepsInv(w, AcoSpec.Yield);
      YieldIs(thread.Value(c, c), c);
      YieldRecords(c, thread.Value(c, c), w, buffers);
      StillApart(buffers, c);
      StillValid(w, c, c);
      Reassemble(w, c, c);
    }

    method ExitRecords(c: Coroutine, ghost v: State<Coroutine, ShareStack>,
                       ghost w: State<Coroutine, ShareStack>, ghost buffers: map<Coroutine, array?<Byte>>)
      requires c.shareStack != null && thread.current == c && thread.Wired(c, c) && v == thread.Value(c, c) && Inv(v)
      requires OthersAre(w, c, c) && BuffersAre(buffers, null) && v.cur == Some(c)
      modifies thread`cpu, thread`current, c`reg, c`isEnd, c.shareStack`owner, c.shareStack`alignValidsz
      ensures thread.Wired(c, c) && Step(v, AcoSpec.Exit) == Some(thread.Value(c, c))
      ensures thread.current == thread.mainCo && c.shareStack.owner == null
      ensures OthersAre(w, c, c) && BuffersAre(buffers, c) && (c in buffers ==> c.savePtr == buffers[c])
    {
      hide Thread.Wired, Thread.Value, Thread.Running, Inv, Step, CoOn, CurValid, OwnerValid;
      var ok := thread.Exit(c, v);
    }

    /** `aco_exit`, which never aborts. */
    method Exit(c: Coroutine)
      requires Valid() && Inv(Value()) && c in cos && thread.current == c
      modifies thread`cpu, thread`current, c`reg, c`isEnd, c.shareStack`owner, c.shareStack`alignValidsz
      ensures Valid() && Inv(Value())
      ensures Enabled(old(Value()), AcoSpec.Exit) && Step(old(Value()), AcoSpec.Exit) == Some(Value())
    {
      hide *;
      ghost var w, buffers := Value(), Buffers();
      BeforeLeaving(c, AcoSpec.Exit);
      StepKeepsInv(w, AcoSpec.Exit);
      ExitRecords(c, thread.Value(c, c), w, buffers);
      StillApart(buffers, c);
      StillValid(w, c, c);
      Reassemble(w, c, c);
    }

    /** The coroutines `cs` have these values. */
    ghost predicate CosAre(cs: set<Coroutine>, values: map<Coroutine, Co<ShareStack>>)
      reads cs, set d | d in cs :: d.savePtr
    {
      values.Keys == cs && forall d :: d in cs ==> d.HasBuffer() && d.Value() == values[d]
    }

    ghost predicate StacksAre(shares: map<ShareStack, Share<Coroutine>>)
      reads stacks, set s | s in stacks :: s.mem
    {
      shares.Keys == stacks && forall s :: s in stacks ==> s.Value() == shares[s]
    }

    lemma AreWhole(w: State<Coroutine, ShareStack>)
      requires Valid() && w == Value()
      ensures CosAre(cos, w.cos) && StacksAre(w.shares)
      ensures w.cur == thread.Running() && w.mainReg == thread.mainCo.reg && w.cpu == thread.cpu
    {
      WholeIs(w);
    }

    lemma IsWhole(t: State<Coroutine, ShareStack>)
      requires Valid() && CosAre(cos, t.cos) && StacksAre(t.shares)
      requires t.cur == thread.Running() && t.mainReg == thread.mainCo.reg && t.cpu == thread.cpu
      ensures Value() == t
    {
      WholeIs(Value());
      hide Valid, Coroutine.Value, ShareStack.Value, Coroutine.HasBuffer;
      assert Value().cos == t.cos && Value().shares == t.shares;
    }

    lemma Shrink(c: Coroutine, values: map<Coroutine, Co<ShareStack>>)
      requires Valid() && CosAre(cos, values) && c in cos && thread.current != c
      ensures Apart(cos - {c}) && CosValid(cos - {c}) && CosAre(cos - {c}, values - {c})
      ensures c.mainCo != null && c != thread.mainCo && c.shareStack != null && c.shareStack in stacks
    {
    }

    /** A stack whose owner is no more, or another, leaves the others' ownership as it is. */
    lemma StillOwned(c: Coroutine, i: ShareStack, owners: map<ShareStack, Coroutine?>)
      requires owners.Keys == stacks && i in stacks
      requires forall s :: s in stacks ==>
        s.Laid() && (owners[s] != null ==> owners[s] in cos && owners[s].shareStack == s)
      requires c in cos && c.shareStack == i
      requires forall s :: s in stacks && s != i ==> s.owner == owners[s]
      requires i.owner == if owners[i] == c then null else owners[i]
      ensures StacksValid(cos - {c})
    {
    }

    ghost function Owners(): map<ShareStack, Coroutine?>
      reads stacks
    {
      map s | s in stacks :: s.owner
    }

    method DestroyRecords(c: Coroutine, ghost w: State<Coroutine, ShareStack>,
                          ghost shares: map<ShareStack, Share<Coroutine>>)
      requires c != thread.mainCo && c.mainCo != null && c.shareStack != null && c.shareStack in stacks
      requires StacksAre(w.shares) && c.shareStack in w.shares
      requires var i: ShareStack := c.shareStack;
        shares == if w.shares[i].owner == Some(c) then w.shares[i := Disowned(w.shares[i])] else w.shares
      modifies c`savePtr, c.shareStack`owner, c.shareStack`alignValidsz
      ensures StacksAre(shares)
      ensures forall s :: s in stacks && s != c.shareStack ==> s.owner == old(s.owner)
      ensures c.shareStack.owner == if old(c.shareStack.owner) == c then null else old(c.shareStack.owner)
    {
      thread.Destroy(c);
    }

    /** `aco_destroy`; the program may not destroy the coroutine that is running. */
    method Destroy(c: Coroutine)
      requires Valid() && Inv(Value()) && c in cos && thread.current != c
      modifies `cos, c`savePtr, c.shareStack`owner, c.shareStack`alignValidsz
      ensures Valid() && Inv(Value()) && cos == old(cos) - {c}
      ensures Enabled(old(Value()), AcoSpec.Destroy(c)) && Step(old(Value()), AcoSpec.Destroy(c)) == Some(Value())
    {
      hide *;
      ghost var w, owners := Value(), Owners();
      BeforeDestroy(w, c);
      StepKeepsInv(w, AcoSpec.Destroy(c));
      ghost var shares := Step(w, AcoSpec.Destroy(c)).value.shares;
      Shrink(c, w.cos);
      DestroyRecords(c, w, shares);
      StillOwned(c, c.shareStack, owners);
      cos := cos - {c};
      ValidIs();
      IsWhole(w.(shares := shares, cos := w.cos - {c}));
    }

    lemma ValidIs()
      requires Apart(cos) && StacksValid(cos) && CosValid(cos)
      ensures Valid()
    {
    }

    lemma BeforeDestroy(w: State<Coroutine, ShareStack>, c: Coroutine)
      requires Valid() && w == Value() && Inv(w) && c in cos && thread.current != c
      ensures Enabled(w, AcoSpec.Destroy(c)) && Step(w, AcoSpec.Destroy(c)).Some? && c.shareStack in w.shares
      ensures var i: ShareStack := c.shareStack;
        var shares := if w.shares[i].owner == Some(c) then w.shares[i := Disowned(w.shares[i])] else w.shares;
        Step(w, AcoSpec.Destroy(c)) == Some(w.(shares := shares, cos := w.cos - {c}))
      ensures CosAre(cos, w.cos) && StacksAre(w.shares)
      ensures w.cur == thread.Running() && w.mainReg == thread.mainCo.reg && w.cpu == thread.cpu
      ensures c.shareStack in stacks && Owners().Keys == stacks
      ensures forall s :: s in stacks ==> s.Laid() && s.owner == Owners()[s]
      ensures forall s :: s in stacks && Owners()[s] != null ==> Owners()[s] in cos && Owners()[s].shareStack == s
    {
      AreWhole(w);
      DestroyIs(w, c);
    }

    lemma Grow(c: Coroutine, values: map<Coroutine, Co<ShareStack>>)
      requires Valid() && CosAre(cos, values) && c !in cos && c != thread.mainCo
      requires c.HasBuffer() && c.shareStack in stacks && c.mainCo == thread.mainCo && IsNew(Buffers(), c.savePtr)
      ensures Apart(cos + {c}) && CosValid(cos + {c}) && StacksValid(cos + {c}) &&
        CosAre(cos + {c}, values[c := c.Value()])
    {
      forall d | d in cos
        ensures c.savePtr != d.savePtr
      {
        assert d in Buffers() && Buffers()[d] == d.savePtr;
      }
      assert values[c := c.Value()].Keys == cos + {c};
    }

    /** `aco_create` on one of the stacks. */
    method Create(share: ShareStack, saveSz: nat, fp: nat) returns (c: Coroutine)
      requires Valid() && Inv(Value()) && share in stacks && saveSz < Pow2(share.bits)
      modifies `cos
      ensures Valid() && Inv(Value()) && fresh(c) && cos == old(cos) + {c}
      ensures var op := AcoSpec.Create(c, share, saveSz, fp);
        Enabled(old(Value()), op) && Step(old(Value()), op) == Some(Value())
      ensures c.shareStack == share && c.mainCo == thread.mainCo && c.savePtr != null
      ensures saveSz == 0 ==> c.saveSz == 64 && c.savePtr.Length == 64
      ensures saveSz > 0 ==> c.saveSz == saveSz && c.savePtr.Length == saveSz
      ensures c.saveValidSz == 0 && c.maxCpsz == 0 && c.ctSave == 0 && c.ctRestore == 0 && !c.isEnd
      ensures c.reg[RETADDR] == fp && c.reg[SP] == share.alignRetptr
    {
      hide *;
      ghost var w, buffers := Value(), Buffers();
      BeforeCreate(w, share);
      c := new Coroutine(thread.mainCo, share, saveSz, fp);
      NewIsNew(buffers, c.savePtr);
      CreateIs(w, c, share, saveSz, fp);
      StepKeepsInv(w, AcoSpec.Create(c, share, saveSz, fp));
      Grow(c, w.cos);
      cos := cos + {c};
      ValidIs();
      IsWhole(w.(cos := w.cos[c := c.Value()]));
    }

    lemma BeforeCreate(w: State<Coroutine, ShareStack>, share: ShareStack)
      requires Valid() && w == Value() && Inv(w) && share in stacks
      ensures share.Laid() && w.cos.Keys == cos && share in w.shares && w.shares[share].bits == share.bits
      ensures w.shares[share].Geometry().Valid() && w.shares[share].Top() == share.alignRetptr
      ensures CosAre(cos, w.cos) && StacksAre(w.shares)
      ensures w.cur == thread.Running() && w.mainReg == thread.mainCo.reg && w.cpu == thread.cpu
    {
      AreWhole(w);
    }

    /** A new array is none that the records have had. */
    twostate lemma NewIsNew(buffers: map<Coroutine, array?<Byte>>, new a: array<Byte>)
      requires fresh(a)
      ensures IsNew(buffers, a)
    {
    }

    /** What the main coroutine does between two calls. */
    method MainRun(regs: Regs)
      requires Valid() && Inv(Value()) && Value().cur == None
      modifies thread`cpu
      ensures Valid() && Inv(Value()) && Enabled(old(Value()), AcoSpec.MainRun(regs))
      ensures Step(old(Value()), AcoSpec.MainRun(regs)) == Some(Value())
    {
      ghost var w := Value();
      AreWhole(w);
      hide *;
      MainRunIs(w, regs);
      StepKeepsInv(w, AcoSpec.MainRun(regs));
      thread.cpu := regs;
      IsWhole(w.(cpu := regs));
    }

    method WriteBelow(s: ShareStack, below: seq<Byte>)
      requires s.Laid() && s.base + |below| == s.alignRetptr
      modifies s.mem
      ensures old(s.Value()).Geometry().Valid() && old(s.Value()).base + |below| == old(s.Value()).Top()
      ensures s.Value() == old(s.Value()).WithBelow(below)
    {
      Store(s.mem, 0, below);
    }

    lemma RegionIsApart(i: ShareStack)
      requires Apart(cos) && i in stacks
      ensures forall d :: d in cos ==> d.savePtr != i.mem
      ensures forall s :: s in stacks && s != i ==> s.mem != i.mem
    {
    }

    /** The bytes of the running coroutine's stack below the return slot. */
    method CoRunRecords(c: Coroutine, below: seq<Byte>, regs: Regs, ghost w: State<Coroutine, ShareStack>,
                        ghost t: State<Coroutine, ShareStack>)
      requires c in cos && c.shareStack != null && c.shareStack in stacks && c.shareStack.Laid()
      requires c.shareStack.base + |below| == c.shareStack.alignRetptr
      requires Apart(cos) && CosAre(cos, w.cos) && StacksAre(w.shares) && c.shareStack in w.shares
      requires var i: ShareStack := c.shareStack;
        w.shares[i].Geometry().Valid() && w.shares[i].base + |below| == w.shares[i].Top() &&
        t == w.(shares := w.shares[i := w.shares[i].WithBelow(below)], cpu := regs)
      modifies thread`cpu, c.shareStack.mem
      ensures CosAre(cos, t.cos) && StacksAre(t.shares) && thread.cpu == regs
    {
      hide Apart, CosAre, ShareStack.Laid, Share.WithBelow;
      var i: ShareStack := c.shareStack;
      RegionIsApart(i);
      assert w.shares[i] == i.Value();
      WriteBelow(i, below);
      thread.cpu := regs;
      assert t.shares[i] == i.Value();
      forall s | s in stacks && s != i
        ensures s.Value() == t.shares[s]
      {
      }
    }

    /** What the running coroutine `c` does between two switches. */
    method CoRun(c: Coroutine, live: seq<Byte>, junk: seq<Byte>, regs: Regs)
      requires Valid() && Inv(Value()) && c in cos && thread.current == c
      requires c.shareStack != null && regs[SP] + |live| == c.shareStack.alignRetptr &&
        c.shareStack.base + |junk| == regs[SP]
      modifies thread`cpu, c.shareStack.mem
      ensures Valid() && Inv(Value()) && Enabled(old(Value()), AcoSpec.CoRun(live, junk, regs))
      ensures Step(old(Value()), AcoSpec.CoRun(live, junk, regs)) == Some(Value())
    {
      hide *;
      ghost var w := Value();
      BeforeCoRun(w, c, live, junk, regs);
      StepKeepsInv(w, AcoSpec.CoRun(live, junk, regs));
      ghost var t := Step(w, AcoSpec.CoRun(live, junk, regs)).value;
      CoRunRecords(c, junk + live, regs, w, t);
      IsWhole(t);
    }

    lemma BeforeCoRun(w: State<Coroutine, ShareStack>, c: Coroutine, live: seq<Byte>, junk: seq<Byte>, regs: Regs)
      requires Valid() && w == Value() && Inv(w) && c in cos && thread.current == c
      requires c.shareStack != null && regs[SP] + |live| == c.shareStack.alignRetptr &&
        c.shareStack.base + |junk| == regs[SP]
      ensures c.shareStack in stacks && c.shareStack.Laid() && Apart(cos) && CosAre(cos, w.cos) && StacksAre(w.shares)
      ensures w.cur == thread.Running() && w.mainReg == thread.mainCo.reg && w.cpu == thread.cpu
      ensures Enabled(w, AcoSpec.CoRun(live, junk, regs)) && Step(w, AcoSpec.CoRun(live, junk, regs)).Some?
      ensures var i: ShareStack := c.shareStack;
        && i in w.shares && w.shares[i].Geometry().Valid() && w.shares[i].base + |junk + live| == w.shares[i].Top()
        && Step(w, AcoSpec.CoRun(live, junk, regs)).value ==
             w.(shares := w.shares[i := w.shares[i].WithBelow(junk + live)], cpu := regs)
    {
      AreWhole(w);
      RunningOwns(c);
      assert w.cos[c] == c.Value() && w.shares[c.shareStack] == c.shareStack.Value();
    }
  }

  lemma YieldIs<C, S>(v: State<C, S>, c: C)
    requires Inv(v) && v.cur == Some(c)
    ensures c in v.cos && Enabled(v, AcoSpec.Yield) && Step(v, AcoSpec.Yield) == Some(SwitchToMain(v))
  {
  }

  lemma DestroyIs<C, S>(w: State<C, S>, c: C)
    requires Inv(w) && c in w.cos && w.cur != Some(c)
    ensures Enabled(w, AcoSpec.Destroy(c)) && w.cos[c].share in w.shares
    ensures var i := w.cos[c].share;
      Step(w, AcoSpec.Destroy(c)) ==
        Some(w.(shares := if w.shares[i].owner == Some(c) then w.shares[i := Disowned(w.shares[i])] else w.shares,
                cos := w.cos - {c}))
  {
    assert CoValid(w, c);
  }

  lemma MainRunIs<C, S>(w: State<C, S>, regs: Regs)
    requires Inv(w) && w.cur == None
    ensures Enabled(w, AcoSpec.MainRun(regs)) && Step(w, AcoSpec.MainRun(regs)) == Some(w.(cpu := regs))
  {
    hide Inv;
  }

  lemma CreateIs<C, S>(w: State<C, S>, c: C, i: S, saveSz: nat, fp: nat)
    requires Inv(w) && c !in w.cos && i in w.shares && saveSz < Pow2(w.shares[i].bits)
    ensures Enabled(w, AcoSpec.Create(c, i, saveSz, fp)) && w.shares[i].Geometry().Valid()
    ensures Step(w, AcoSpec.Create(c, i, saveSz, fp)) ==
      Some(w.(cos := w.cos[c := Fresh(i, w.shares[i].Top(), saveSz, fp)]))
  {
    assert OwnerValid(w, i);
  }

  /** A value that agrees with `t` on its part and with `w` elsewhere is `w` with that part put in. */
  lemma PutIs<C, S>(w: State<C, S>, c: C, o: C, i: S, t: State<C, S>, whole: State<C, S>)
    requires t.shares.Keys == {i} && t.cos.Keys == {c, o}
    requires whole.shares.Keys == w.shares.Keys && whole.cos.Keys == w.cos.Keys
    requires i in w.shares && c in w.cos && o in w.cos
    requires forall s :: s in w.shares && s != i ==> whole.shares[s] == w.shares[s]
    requires forall d :: d in w.cos && d != c && d != o ==> whole.cos[d] == w.cos[d]
    requires whole.shares[i] == t.shares[i] && whole.cos[c] == t.cos[c] && whole.cos[o] == t.cos[o]
    requires whole.cur == t.cur && whole.mainReg == t.mainReg && whole.cpu == t.cpu
    ensures whole == Put(w, c, o, t)
  {
    assert whole.shares == w.shares + t.shares;
    assert whole.cos == (w.cos - {c, o}) + t.cos;
  }
}
