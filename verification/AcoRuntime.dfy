/**
 The runtime as the library writes it: records that point at each other, byte arrays copied in place,
 and registers stored and loaded one by one.  Every method is proved to perform one step of `AcoSpec`
 on the value the records stand for, and so inherits everything proved about runs of that machine.
 */
module AcoRuntime {
  import opened ByteType
  import opened Options
  import opened Words
  import opened ShareStackLayout
  import opened SaveBuffer
  import opened AcoSpec
  import opened AcoInvariant

  class ShareStack {
    /** The width of `size_t`. */
    const bits: nat
    const base: nat
    const mem: array<Byte>
    const alignHighptr: nat
    const alignRetptr: nat
    const alignLimit: nat
    var alignValidsz: nat
    var owner: Coroutine?

    ghost predicate Laid() {
      var l := Layout(X86_64, base, mem.Length);
      && l.Valid() && 32 <= bits && base + mem.Length <= Pow2(bits)
      && alignHighptr == l.HighPtr() && alignRetptr == l.RetPtr() && alignLimit == l.Limit()
    }

    lemma Bounds()
      requires Laid()
      ensures base < alignRetptr && alignRetptr + 8 <= base + mem.Length
      ensures base < alignHighptr - alignLimit
    {
    }

    ghost function Value(): Share<Coroutine>
      reads this, mem
    {
      var held: Option<Coroutine> := if owner == null then None else var o: Coroutine := owner; Some(o);
      Share(bits, base, mem[..], held, alignValidsz)
    }

    /** The region is `region`, at address `base`; `protector` is written just above the stack's top. */
    constructor (bits: nat, base: nat, region: array<Byte>, protector: seq<Byte>)
      requires Layout(X86_64, base, region.Length).Valid() && 32 <= bits && base + region.Length <= Pow2(bits)
      requires |protector| == 8
      modifies region
      ensures Laid() && this.bits == bits && this.base == base && mem == region && owner == null && alignValidsz == 0
      ensures mem[..] == Overwrite(old(region[..]), alignRetptr - base, protector)
    {
      this.bits, this.base, mem := bits, base, region;
      owner, alignValidsz := null, 0;
      alignHighptr := (region.Length - 2 * 8 + base) / 16 * 16;
      alignRetptr := (region.Length - 2 * 8 + base) / 16 * 16 - 8;
      alignLimit := region.Length - 16 - 2 * 8;
      new;
      forall k | 0 <= k < 8 {
        mem[alignRetptr - base + k] := protector[k];
      }
    }
  }

  class Coroutine {
    var reg: Regs
    const mainCo: Coroutine?
    var isEnd: bool
    const shareStack: ShareStack?
    var savePtr: array?<Byte>
    var saveSz: nat
    var saveValidSz: nat
    var maxCpsz: nat
    var ctSave: nat
    var ctRestore: nat

    ghost predicate HasBuffer()
      reads this
    {
      && shareStack != null && savePtr != null && savePtr.Length == saveSz && saveValidSz <= saveSz
      && savePtr != shareStack.mem
    }

    ghost function Value(): Co<ShareStack>
      requires HasBuffer()
      reads this, savePtr
    {
      Co(reg, isEnd, SaveArea(saveSz, savePtr[..saveValidSz], maxCpsz, ctSave, ctRestore), shareStack)
    }

    constructor Main()
      ensures mainCo == null && shareStack == null
    {
      reg := [0, 0, 0, 0, 0, 0, 0, 0];
      mainCo, shareStack, savePtr, isEnd := null, null, null, false;
      saveSz, saveValidSz, maxCpsz, ctSave, ctRestore := 0, 0, 0, 0, 0;
    }

    constructor (mainCo: Coroutine, shareStack: ShareStack, saveStackSz: nat, fp: nat)
      requires shareStack.Laid()
      ensures this.mainCo == mainCo && this.shareStack == shareStack
      ensures HasBuffer() && fresh(savePtr)
      ensures Value() == Fresh(shareStack, shareStack.alignRetptr, saveStackSz, fp)
      ensures saveStackSz == 0 ==> saveSz == 64 && savePtr.Length == 64
      ensures saveStackSz > 0 ==> saveSz == saveStackSz && savePtr.Length == saveStackSz
      ensures saveValidSz == 0 && maxCpsz == 0 && ctSave == 0 && ctRestore == 0 && !isEnd
      ensures reg[RETADDR] == fp && reg[SP] == shareStack.alignRetptr
    {
      var sz := if saveStackSz == 0 then 64 else saveStackSz;
      reg := [0, 0, 0, 0, fp, shareStack.alignRetptr, 0, 0];
      this.mainCo, this.shareStack, isEnd := mainCo, shareStack, false;
      savePtr := new Byte[sz];
      saveSz, saveValidSz, maxCpsz, ctSave, ctRestore := sz, 0, 0, 0, 0;
    }

    /** Replace a buffer that is too small for `saveValidSz` bytes; its contents are not kept. */
    method Grow() returns (ok: bool)
      requires shareStack != null && 0 < shareStack.bits
      requires savePtr != null && savePtr.Length == saveSz && 0 < saveSz < Pow2(shareStack.bits)
      modifies this`saveSz, this`savePtr
      ensures var r := CapacityFor(old(saveSz), saveValidSz, shareStack.bits);
        && ok == r.Some?
        && (ok ==> saveSz == r.value && savePtr != null && savePtr.Length == saveSz && saveValidSz <= saveSz)
      ensures ok ==> savePtr == old(savePtr) || fresh(savePtr)
    {
      if saveSz < saveValidSz {
        savePtr := null;
        var grown := EnsureCapacity(saveSz, saveValidSz, shareStack.bits);
        if grown.None? {
          return false;
        }
        GrownCapacityHolds(saveSz, saveValidSz, shareStack.bits);
        saveSz := grown.value;
        savePtr := new Byte[saveSz];
      }
      return true;
    }

    /** The saved stack pointer is inside the window and the buffer can be made large enough. */
    ghost predicate Evictable()
      requires shareStack != null && 0 < shareStack.bits && saveSz < Pow2(shareStack.bits)
      reads this
    {
      var sh := shareStack;
      && reg[SP] <= sh.alignRetptr && sh.alignHighptr - sh.alignLimit <= reg[SP]
      && CapacityFor(saveSz, sh.alignRetptr - reg[SP], shareStack.bits).Some?
    }

    /** Copy the `saveValidSz` bytes above the stack pointer to the buffer, and count the copy. */
    method CopyOut()
      requires HasBuffer() && shareStack.base <= reg[SP]
      requires reg[SP] + saveValidSz <= shareStack.base + shareStack.mem.Length
      modifies this`ctSave, this`maxCpsz, savePtr
      ensures var from := reg[SP] - shareStack.base;
        savePtr[..saveValidSz] == shareStack.mem[from..from + saveValidSz]
      ensures maxCpsz == Max(old(maxCpsz), saveValidSz)
      ensures ctSave == old(ctSave) + (if saveValidSz > 0 then 1 else 0)
    {
      if saveValidSz > 0 {
        var bufAddr: nat := *;
        OptimizedMemcpy(savePtr, 0, bufAddr, shareStack.mem, reg[SP] - shareStack.base, reg[SP], saveValidSz);
        ctSave := ctSave + 1;
      }
      if saveValidSz > maxCpsz {
        maxCpsz := saveValidSz;
      }
    }

    /** Check the saved stack pointer and make room for the bytes above it. */
    method MakeRoom() returns (ok: bool)
      requires HasBuffer() && shareStack.Laid() && 0 < saveSz < Pow2(shareStack.bits)
      modifies this`saveValidSz, this`saveSz, this`savePtr
      ensures ok == old(Evictable())
      ensures ok ==>
        && HasBuffer() && shareStack.base <= reg[SP] && saveValidSz == shareStack.alignRetptr - reg[SP]
        && Some(saveSz) == CapacityFor(old(saveSz), saveValidSz, shareStack.bits)
      ensures ok ==> savePtr == old(savePtr) || fresh(savePtr)
    {
      var sh := shareStack;
      sh.Bounds();
      if !(sh.alignRetptr >= reg[SP] && sh.alignHighptr - sh.alignLimit <= reg[SP]) {
        return false;
      }
      saveValidSz := sh.alignRetptr - reg[SP];
      ok := Grow();
    }

    /** The owner's half of a resume: check its stack pointer, grow its buffer, copy its bytes out. */
    method SaveOut() returns (ok: bool)
      requires HasBuffer() && shareStack.Laid() && 0 < saveSz < Pow2(shareStack.bits) && shareStack.owner == this
      modifies this`saveValidSz, this`saveSz, this`savePtr, this`ctSave, this`maxCpsz, savePtr
      modifies shareStack`owner, shareStack`alignValidsz
      ensures ok == old(Evictable())
      ensures ok ==>
        && HasBuffer() && shareStack.base <= reg[SP] && saveValidSz == shareStack.alignRetptr - reg[SP]
        && Some(saveSz) == CapacityFor(old(saveSz), saveValidSz, shareStack.bits)
        && savePtr[..saveValidSz] == shareStack.mem[reg[SP] - shareStack.base..shareStack.alignRetptr - shareStack.base]
        && maxCpsz == Max(old(maxCpsz), saveValidSz)
        && ctSave == old(ctSave) + (if saveValidSz > 0 then 1 else 0)
        && shareStack.owner == null && shareStack.alignValidsz == 0
      ensures ok ==> savePtr == old(savePtr) || fresh(savePtr)
    {
      shareStack.Bounds();
      ok := MakeRoom();
      if ok {
        CopyOut();
        shareStack.owner := null;
        shareStack.alignValidsz := 0;
      }
    }

    /** The resumed coroutine's half: copy its bytes back under the top of the stack and own it. */
    method CopyIn() returns (ok: bool)
      requires HasBuffer() && shareStack.Laid() && shareStack.owner == null
      requires saveValidSz <= shareStack.alignRetptr - shareStack.base
      modifies this, shareStack, shareStack.mem
      ensures ok == (old(saveValidSz) <= shareStack.alignLimit - 8)
      ensures ok ==>
        && HasBuffer() && reg == old(reg) && isEnd == old(isEnd)
        && saveSz == old(saveSz) && saveValidSz == old(saveValidSz)
        && shareStack.mem[..] ==
             Overwrite(old(shareStack.mem[..]), shareStack.alignRetptr - saveValidSz - shareStack.base,
               savePtr[..saveValidSz])
        && maxCpsz == Max(old(maxCpsz), saveValidSz)
        && ctRestore == old(ctRestore) + (if saveValidSz > 0 then 1 else 0) && ctSave == old(ctSave)
        && shareStack.owner == this && shareStack.alignValidsz == saveValidSz + 8
      ensures savePtr == old(savePtr)
    {
      var sh := shareStack;
      sh.Bounds();
      hide ShareStack.Laid;
      if !(saveValidSz <= sh.alignLimit - 8) {
        return false;
      }
      if saveValidSz > 0 {
        var bufAddr: nat := *;
        OptimizedMemcpy(sh.mem, sh.alignRetptr - saveValidSz - sh.base, sh.alignRetptr - saveValidSz,
                        savePtr, 0, bufAddr, saveValidSz);
        ctRestore := ctRestore + 1;
      }
      if saveValidSz > maxCpsz {
        maxCpsz := saveValidSz;
      }
      sh.alignValidsz := saveValidSz + 8;
      sh.owner := this;
      return true;
    }

    /** `SaveOut`, on the values the records stand for. */
    method Park(ghost sh: Share<Coroutine>, ghost o: Co<ShareStack>) returns (ok: bool)
      requires HasBuffer() && shareStack.Laid() && 0 < saveSz < Pow2(shareStack.bits) && shareStack.owner == this
      requires sh == shareStack.Value() && o == Value()
      modifies this, savePtr, shareStack
      ensures ok == AcoSpec.SaveOut(sh, o).Some?
      ensures ok ==> HasBuffer() && AcoSpec.SaveOut(sh, o) == Some((shareStack.Value(), Value()))
      ensures ok ==> shareStack.owner == null && (savePtr == old(savePtr) || fresh(savePtr))
    {
      hide CapacityFor;
      assert Evictable() <==> AcoSpec.SaveOut(sh, o).Some?;
      ok := SaveOut();
      if ok {
        assert sh.Live(reg[SP]) == savePtr[..saveValidSz];
      }
    }

    /** `CopyIn`, on the values the records stand for. */
    method Unpark(ghost sh: Share<Coroutine>, ghost c: Co<ShareStack>) returns (ok: bool)
      requires HasBuffer() && shareStack.Laid() && shareStack.owner == null
      requires sh == shareStack.Value() && c == Value()
      requires |c.save.bytes| <= sh.Top() - sh.base
      modifies this, shareStack, shareStack.mem
      ensures ok == AcoSpec.CopyIn(sh, this, c).Some?
      ensures ok ==> HasBuffer() && AcoSpec.CopyIn(sh, this, c) == Some((shareStack.Value(), Value()))
      ensures ok ==> shareStack.owner == this
      ensures savePtr == old(savePtr)
    {
      ok := CopyIn();
    }
  }

  const R12 := 0
  const R13 := 1
  const R14 := 2
  const R15 := 3
  const RBX := 6
  const RBP := 7

  /** The processor continues `c` from its record. */
  ghost function Loaded<C, S>(v: State<C, S>, c: C): State<C, S>
    requires c in v.cos
  {
    v.(mainReg := v.cpu, cpu := v.cos[c].reg, cur := Some(c))
  }

  lemma RecordsAreValid(v: State<Coroutine, ShareStack>, c: Coroutine, o: Coroutine)
    requires Inv(v) && c in v.cos && o in v.cos
    ensures CoValid(v, c) && CoValid(v, o)
    ensures v.cos[o].share in v.shares && 0 < v.cos[o].save.cap < Pow2(v.shares[v.cos[o].share].bits)
  {
  }

  /** A thread: its processor, its main coroutine, and the coroutine it is running. */
  class Thread {
    /** The processor's registers, by the slot each is saved in. */
    var cpu: Regs
    const mainCo: Coroutine
    var current: Coroutine?

    constructor ()
      ensures fresh(mainCo) && mainCo.mainCo == null && current == null
    {
      cpu := *;
      mainCo := new Coroutine.Main();
      current := null;
    }

    /** The records a switch to `c` works on: its stack, itself, and the coroutine `o` that may own the stack. */
    ghost predicate Wired(c: Coroutine, o: Coroutine)
      reads this, c, o
    {
      && c.HasBuffer() && o.HasBuffer() && c.shareStack == o.shareStack && c.shareStack.Laid()
      && c.mainCo == mainCo && c != mainCo && o != mainCo && mainCo.mainCo == null
      && (c != o ==> c.savePtr != o.savePtr)
    }

    ghost function Running(): Option<Coroutine>
      reads `current
    {
      if current == null || current == mainCo then None else var c: Coroutine := current; Some(c)
    }

    /**
     The part of the machine that these records stand for; `AcoLocality` shows that a switch to or from `c` needs
     no more.
     */
    ghost function Value(c: Coroutine, o: Coroutine): State<Coroutine, ShareStack>
      requires Wired(c, o)
      reads this, mainCo, c, o, c.savePtr, o.savePtr, c.shareStack
      reads if c.shareStack == null then {} else {c.shareStack.mem}
    {
      State(map[c.shareStack := c.shareStack.Value()], map[o := o.Value(), c := c.Value()], Running(), mainCo.reg, cpu)
    }

    /** The coroutine that a resume of `c` has to move out of the way, or `c` when there is none. */
    ghost function OwnerOr(c: Coroutine): Coroutine
      requires c.shareStack != null
      reads c.shareStack
    {
      if c.shareStack.owner == null then c else c.shareStack.owner
    }

    /**
     The context switch, entered by a `call` that left the return address `word` on the stack at `rsp`: the
     caller goes on there, with its stack pointer above that word.
     */
    method Acosw(from: Coroutine, to: Coroutine, rsp: int, word: nat)
      requires from != to && word == cpu[RETADDR] && rsp + WORD == cpu[AcoSpec.SP]
      modifies this`cpu, from`reg
      ensures from.reg == old(cpu) && cpu == old(to.reg)
    {
      var rdx := word;
      var rcx := rsp + WORD;
      from.reg := from.reg[R12 := cpu[R12]];
      from.reg := from.reg[R13 := cpu[R13]];
      from.reg := from.reg[R14 := cpu[R14]];
      from.reg := from.reg[R15 := cpu[R15]];
      from.reg := from.reg[RETADDR := rdx];
      from.reg := from.reg[AcoSpec.SP := rcx];
      from.reg := from.reg[RBX := cpu[RBX]];
      from.reg := from.reg[RBP := cpu[RBP]];
      cpu := cpu[R12 := to.reg[R12]];
      cpu := cpu[R13 := to.reg[R13]];
      cpu := cpu[R14 := to.reg[R14]];
      cpu := cpu[R15 := to.reg[R15]];
      var rax := to.reg[RETADDR];
      rcx := to.reg[AcoSpec.SP];
      cpu := cpu[RBX := to.reg[RBX]];
      cpu := cpu[RBP := to.reg[RBP]];
      cpu := cpu[AcoSpec.SP := rcx];
      cpu := cpu[RETADDR := rax];
    }

    /** Park the owner `o` of the stack of `c`. */
    method EvictFor(c: Coroutine, o: Coroutine, ghost v: State<Coroutine, ShareStack>) returns (ok: bool)
      requires Wired(c, o) && c != o && c.shareStack.owner == o && 0 < o.saveSz < Pow2(c.shareStack.bits)
      requires v == Value(c, o)
      modifies o, o.savePtr, c.shareStack
      ensures var r := AcoSpec.SaveOut(v.shares[c.shareStack], v.cos[o]);
        && ok == r.Some?
        && (ok ==> c.shareStack.owner == null && Wired(c, o) &&
                   Value(c, o) == v.(shares := v.shares[c.shareStack := r.value.0], cos := v.cos[o := r.value.1]))
      ensures ok ==> o.savePtr == old(o.savePtr) || fresh(o.savePtr)
    {
      hide AcoSpec.SaveOut;
      ghost var sh, oo, cc := c.shareStack.Value(), o.Value(), c.Value();
      assert v.shares[c.shareStack] == sh && v.cos[o] == oo && v.cos[c] == cc;
      ok := o.Park(sh, oo);
      if ok {
        assert c.Value() == cc;
      }
    }

    /** Give the stack of `c`, which has no owner, to `c`. */
    method TakeFor(c: Coroutine, ghost o: Coroutine, ghost v: State<Coroutine, ShareStack>) returns (ok: bool)
      requires Wired(c, o) && c.shareStack.owner == null && v == Value(c, o)
      requires var sh := v.shares[c.shareStack];
        |v.cos[c].save.bytes| <= sh.Top() - sh.base
      modifies c, c.shareStack, c.shareStack.mem
      ensures var r := AcoSpec.CopyIn(v.shares[c.shareStack], c, v.cos[c]);
        && ok == r.Some?
        && (ok ==> Wired(c, o) &&
                   Value(c, o) == v.(shares := v.shares[c.shareStack := r.value.0], cos := v.cos[c := r.value.1]))
      ensures ok ==> c.shareStack.owner == c
      ensures c.savePtr == old(c.savePtr)
    {
      ghost var sh, oo, cc := c.shareStack.Value(), o.Value(), c.Value();
      assert v.shares[c.shareStack] == sh && v.cos[o] == oo && v.cos[c] == cc;
      hide AcoSpec.CopyIn;
      ok := c.Unpark(sh, cc);
      if ok {
        assert c != o ==> o.Value() == oo;
      }
    }

    method SwitchTo(c: Coroutine, ghost o: Coroutine, ghost v: State<Coroutine, ShareStack>)
      requires Wired(c, o) && v == Value(c, o)
      modifies this`cpu, this`current, mainCo`reg
      ensures Wired(c, o) && current == c
      ensures Value(c, o) == v.(mainReg := v.cpu, cpu := v.cos[c].reg, cur := Some(c))
    {
      assert v.cos[c] == c.Value() && v.cos[o] == o.Value();
      current := c;
      Acosw(mainCo, c, cpu[AcoSpec.SP] - WORD, cpu[RETADDR]);
    }

    /** The same when the stack has no owner. */
    method AcquireFree(c: Coroutine, ghost o: Coroutine, ghost v: State<Coroutine, ShareStack>) returns (ok: bool)
      requires Wired(c, o) && v == Value(c, o) && Inv(v) && v.cur == None && !c.isEnd && c.shareStack.owner == null
      modifies c, c.shareStack, c.shareStack.mem
      ensures ok && Wired(c, o) && c in Value(c, o).cos && Step(v, AcoSpec.Resume(c)) == Some(Loaded(Value(c, o), c))
      ensures c.shareStack.owner == c && c.savePtr == old(c.savePtr)
    {
      assert v.cos[c] == c.Value() && v.shares[c.shareStack] == c.shareStack.Value();
      hide CoOn, OwnerValid, CurValid, Step, AcoSpec.SaveOut, AcoSpec.CopyIn;
      RecordsAreValid(v, c, o);
      ResumeIs(v, c);
      ok := TakeFor(c, o, v);
    }

    /** Parking the other owner leaves a resume to do what it would have done before. */
    method MakeFree(c: Coroutine, o: Coroutine, ghost v: State<Coroutine, ShareStack>) returns (ok: bool)
      requires Wired(c, o) && v == Value(c, o) && Inv(v) && v.cur == None && !c.isEnd
      requires o != c && c.shareStack.owner == o
      modifies o, o.savePtr, c.shareStack
      ensures !ok ==> Step(v, AcoSpec.Resume(c)) == None
      ensures ok ==> Wired(c, o) && c.shareStack.owner == null && Inv(Value(c, o)) && Value(c, o).cur == None
      ensures ok ==> c in Value(c, o).cos && Step(Value(c, o), AcoSpec.Resume(c)) == Step(v, AcoSpec.Resume(c))
      ensures ok ==> o.savePtr == old(o.savePtr) || fresh(o.savePtr)
    {
      assert v.cos[c] == c.Value() && v.cos[o] == o.Value() && v.shares[c.shareStack] == c.shareStack.Value();
      hide CoOn, OwnerValid, CurValid, Step, AcoSpec.SaveOut;
      RecordsAreValid(v, c, o);
      ResumeAfterEviction(v, c, o);
      hide Inv;
      ok := EvictFor(c, o, v);
    }

    /** The same when another coroutine owns the stack: that one is parked first. */
    method AcquireFrom(c: Coroutine, o: Coroutine, ghost v: State<Coroutine, ShareStack>) returns (ok: bool)
      requires Wired(c, o) && v == Value(c, o) && Inv(v) && v.cur == None && !c.isEnd
      requires o != c && c.shareStack.owner == o
      modifies c, c.shareStack, c.shareStack.mem, o, o.savePtr
      ensures ok == Step(v, AcoSpec.Resume(c)).Some?
      ensures ok ==> Wired(c, o) && c in Value(c, o).cos && Step(v, AcoSpec.Resume(c)) == Some(Loaded(Value(c, o), c))
      ensures ok ==> c.shareStack.owner == c && c.savePtr == old(c.savePtr)
      ensures ok ==> o.savePtr == old(o.savePtr) || fresh(o.savePtr)
    {
      hide Inv, Step, Loaded;
      ok := MakeFree(c, o, v);
      if ok {
        ok := AcquireFree(c, o, Value(c, o));
      }
    }

    /** `aco_resume`, up to the point where the resumed coroutine runs; `false` when it aborts. */
    method Resume(c: Coroutine, ghost v: State<Coroutine, ShareStack>) returns (ok: bool)
      requires c.shareStack != null && Wired(c, OwnerOr(c)) && v == Value(c, OwnerOr(c))
      requires Inv(v) && v.cur == None
      modifies this`cpu, this`current, mainCo`reg, c, c.shareStack, c.shareStack.mem, OwnerOr(c), OwnerOr(c).savePtr
      ensures var o := old(OwnerOr(c));
        && ok == Step(v, AcoSpec.Resume(c)).Some?
        && (ok ==> Wired(c, o) && Step(v, AcoSpec.Resume(c)) == Some(Value(c, o)))
      ensures ok ==> current == c && c.shareStack.owner == c
      ensures ok ==> var o := old(OwnerOr(c)); o.savePtr == old(OwnerOr(c).savePtr) || fresh(o.savePtr)
      ensures ok && old(OwnerOr(c)) != c ==> c.savePtr == old(c.savePtr)
    {
      ghost var o := OwnerOr(c);
      assert v.cos[c] == c.Value() && v.shares[c.shareStack] == c.shareStack.Value();
      if c.isEnd {
        return false;
      }
      hide CoOn, OwnerValid, CurValid, Step, AcoSpec.SaveOut, AcoSpec.CopyIn;
      if c.shareStack.owner == null {
        ok := AcquireFree(c, o, v);
      } else if c.shareStack.owner != c {
        ok := AcquireFrom(c, c.shareStack.owner, v);
        if !ok {
          return;
        }
      } else {
        RecordsAreValid(v, c, o);
        ResumeIs(v, c);
      }
      hide Wired, Inv;
      SwitchTo(c, o, Value(c, o));
      ok := true;
    }

    /** `aco_yield`: back to the main coroutine, which continues after its resume. */
    method Yield(c: Coroutine, ghost v: State<Coroutine, ShareStack>)
      requires current == c && c.shareStack != null && Wired(c, c) && v == Value(c, c)
      modifies this`cpu, this`current, c`reg
      ensures Wired(c, c) && v.cur == Some(c) && c in v.cos && Value(c, c) == SwitchToMain(v)
      ensures current == mainCo
    {
      assert v.cos[c] == c.Value() && v.shares[c.shareStack] == c.shareStack.Value();
      Acosw(c, c.mainCo, cpu[AcoSpec.SP] - WORD, cpu[RETADDR]);
      current := c.mainCo;
      assert c.Value() == v.cos[c].(reg := v.cpu);
    }

    /** `aco_exit`: end, give up the stack, and leave for good; the ownership assertion cannot fail. */
    method Exit(c: Coroutine, ghost v: State<Coroutine, ShareStack>) returns (ok: bool)
      requires current == c && c.shareStack != null && Wired(c, c) && v == Value(c, c) && Inv(v)
      modifies this`cpu, this`current, c`reg, c`isEnd, c.shareStack`owner, c.shareStack`alignValidsz
      ensures ok && Wired(c, c) && Step(v, AcoSpec.Exit) == Some(Value(c, c))
      ensures current == mainCo && c.shareStack.owner == null
    {
      assert v.cos[c] == c.Value() && v.shares[c.shareStack] == c.shareStack.Value();
      ExitIs(v, c);
      hide Step, Inv;
      c.isEnd := true;
      if c.shareStack.owner != c {
        return false;
      }
      c.shareStack.owner := null;
      c.shareStack.alignValidsz := 0;
      assert c.shareStack.Value() == Disowned(v.shares[c.shareStack]);
      assert c.Value() == v.cos[c].(ended := true);
      assert Value(c, c).shares == v.shares[c.shareStack := Disowned(v.shares[c.shareStack])];
      assert Value(c, c).cos == v.cos[c := v.cos[c].(ended := true)];
      Yield(c, Value(c, c));
      ok := true;
    }

    /** `aco_destroy`: the stack of a coroutine that owns it is left without an owner; the record is gone. */
    method Destroy(c: Coroutine)
      requires c != mainCo && c.mainCo != null && c.shareStack != null
      modifies c`savePtr, c.shareStack`owner, c.shareStack`alignValidsz
      ensures c.savePtr == null
      ensures old(c.shareStack.Value()).owner == Some(c) ==> c.shareStack.Value() == Disowned(old(c.shareStack.Value()))
      ensures old(c.shareStack.Value()).owner != Some(c) ==> c.shareStack.Value() == old(c.shareStack.Value())
    {
      if c.mainCo != null {
        if c.shareStack.owner == c {
          c.shareStack.owner := null;
          c.shareStack.alignValidsz := 0;
        }
        c.savePtr := null;
      }
    }
  }
}
