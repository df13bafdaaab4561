/**
 The copy-stack coroutine runtime as a state machine on values, for x86_64: many coroutines run on
 one byte region, and a resume moves the owner's live bytes out and the resumed coroutine's bytes in.
 `AcoRuntime` implements these steps on arrays and objects.
 */
module AcoSpec {
  import opened ByteType
  import opened Options
  import opened Words
  import opened ShareStackLayout
  import opened SaveBuffer

  const WORD: nat := 8

  /** Slots 0 to 7 of the saved registers: r12 r13 r14 r15 rip rsp rbx rbp. */
  type Regs = r: seq<nat> | |r| == 8 witness [0, 0, 0, 0, 0, 0, 0, 0]
  const RETADDR := 4
  const SP := 5

  /** `bits` is the width of addresses and of `size_t`, 64 here. */
  datatype Share<C> = Share(bits: nat, base: nat, mem: seq<Byte>, owner: Option<C>, validSz: nat) {
    function Geometry(): Layout {
      Layout(X86_64, base, |mem|)
    }

    ghost predicate Valid() {
      32 <= bits && Geometry().Valid() && base + |mem| <= Pow2(bits)
    }

    /** The address of the protector word, and the stack pointer of a coroutine that has not started. */
    function Top(): (t: nat)
      requires Geometry().Valid()
      ensures base < t && t + WORD <= base + |mem|
    {
      Geometry().RetPtr()
    }

    /** The bytes a coroutine whose stack pointer is `sp` has on this stack. */
    function Live(sp: nat): (bytes: seq<Byte>)
      requires Geometry().Valid() && base <= sp <= Top()
      ensures |bytes| == Top() - sp
    {
      mem[sp - base..Top() - base]
    }

    /** The region with everything below the protector word replaced. */
    function WithBelow(below: seq<Byte>): Share<C>
      requires Geometry().Valid() && base + |below| == Top()
    {
      this.(mem := below + mem[|below|..])
    }
  }

  ghost predicate SameRegion<C>(a: Share<C>, b: Share<C>) {
    a.bits == b.bits && a.base == b.base && |a.mem| == |b.mem|
  }

  /** A save buffer: its capacity, the `valid_sz` bytes that mean something, and its statistics. */
  datatype SaveArea = SaveArea(cap: nat, bytes: seq<Byte>, maxCp: nat, ctSave: nat, ctRestore: nat)

  datatype Co<S> = Co(reg: Regs, ended: bool, save: SaveArea, share: S)

  /** `cur` is the running coroutine, `None` while the main coroutine runs. */
  datatype State<C(==), S(==)> =
    State(shares: map<S, Share<C>>, cos: map<C, Co<S>>, cur: Option<C>, mainReg: Regs, cpu: Regs)

  function Max(a: nat, b: nat): nat {
    if a < b then b else a
  }

  // ---------------------------------------------------------------- the invariant

  ghost predicate SuspendedStackValid<C, S>(sh: Share<C>, c: C, co: Co<S>)
    requires sh.Valid()
  {
    if sh.owner == Some(c) then sh.base <= co.reg[SP] <= sh.Top()
    else sh.Geometry().InWindow(co.reg[SP]) && |co.save.bytes| == sh.Top() - co.reg[SP]
  }

  /** How many copies out have not been copied back: one exactly for a coroutine parked in its buffer. */
  function Parked<C(==), S>(sh: Share<C>, c: C, co: Co<S>): nat {
    if !co.ended && sh.owner != Some(c) && |co.save.bytes| > 0 then 1 else 0
  }

  /** What holds of coroutine `c`, given only the stack it was created on and whether it runs. */
  ghost predicate CoOn<C, S>(sh: Share<C>, c: C, co: Co<S>, running: bool) {
    && sh.Valid()
    && 0 < co.save.cap < Pow2(sh.bits) && |co.save.bytes| <= co.save.cap
    && |co.save.bytes| <= co.save.maxCp
    && co.save.ctSave == co.save.ctRestore + Parked(sh, c, co)
    && (!co.ended && !running ==> SuspendedStackValid(sh, c, co))
  }

  ghost predicate CoValid<C, S>(s: State<C, S>, c: C)
    requires c in s.cos
  {
    && s.cos[c].share in s.shares
    && CoOn(s.shares[s.cos[c].share], c, s.cos[c], s.cur == Some(c))
  }

  /**
   A share stack belongs to nobody and holds nothing valid, or to a live coroutine that was created on it, and
   then `validSz` counts the bytes it took over with and the protector word.
   */
  ghost predicate OwnerValid<C, S>(s: State<C, S>, i: S)
    requires i in s.shares
  {
    var sh := s.shares[i];
    && sh.Valid()
    && (sh.owner == None ==> sh.validSz == 0)
    && (sh.owner.Some? ==>
          && sh.owner.value in s.cos && s.cos[sh.owner.value].share == i && !s.cos[sh.owner.value].ended
          && sh.validSz == |s.cos[sh.owner.value].save.bytes| + WORD)
  }

  /** The running coroutine owns its stack. */
  ghost predicate CurValid<C, S>(s: State<C, S>) {
    s.cur.Some? ==>
      && s.cur.value in s.cos && !s.cos[s.cur.value].ended
      && s.cos[s.cur.value].share in s.shares
      && var sh := s.shares[s.cos[s.cur.value].share];
      sh.Valid() && sh.owner == s.cur && sh.base <= s.cpu[SP] <= sh.Top()
  }

  ghost predicate Inv<C, S>(s: State<C, S>) {
    && (forall c :: c in s.cos ==> CoValid(s, c))
    && (forall i :: i in s.shares ==> OwnerValid(s, i))
    && CurValid(s)
  }

  // ---------------------------------------------------------------- resume

  function Disowned<C>(sh: Share<C>): Share<C> {
    sh.(owner := None, validSz := 0)
  }

  /** The owner with `live` copied to a buffer of capacity `cap`. */
  function Saved<S>(o: Co<S>, live: seq<Byte>, cap: nat): Co<S> {
    o.(save := SaveArea(cap, live, Max(o.save.maxCp, |live|),
                        if |live| > 0 then o.save.ctSave + 1 else o.save.ctSave, o.save.ctRestore))
  }

  /** The stack with `bytes` copied back under its top, owned by `c`. */
  function Refilled<C>(sh: Share<C>, c: C, bytes: seq<Byte>): Share<C>
    requires sh.Geometry().Valid() && |bytes| <= sh.Top() - sh.base
  {
    Share(sh.bits, sh.base, Overwrite(sh.mem, sh.Top() - |bytes| - sh.base, bytes), Some(c), |bytes| + WORD)
  }

  function Restored<S>(co: Co<S>): Co<S> {
    var n := |co.save.bytes|;
    co.(save := co.save.(maxCp := Max(co.save.maxCp, n),
                         ctRestore := if n > 0 then co.save.ctRestore + 1 else co.save.ctRestore))
  }

  /** Copy the owner's live bytes to its buffer and disown the stack; `None` when an assertion aborts. */
  function SaveOut<C(==), S(==)>(sh: Share<C>, o: Co<S>): Option<(Share<C>, Co<S>)>
    requires sh.Geometry().Valid() && 0 < sh.bits && o.save.cap < Pow2(sh.bits)
  {
    if !sh.Geometry().InWindow(o.reg[SP]) then
      None
    else
      WindowKeepsCopiesInside(sh.Geometry(), o.reg[SP]);
      var live := sh.Live(o.reg[SP]);
      match CapacityFor(o.save.cap, |live|, sh.bits)
      case None => None
      case Some(cap) => Some((Disowned(sh), Saved(o, live, cap)))
  }

  /** Copy the saved bytes back under the top of the stack and take ownership. */
  function CopyIn<C(==), S(==)>(sh: Share<C>, c: C, co: Co<S>): Option<(Share<C>, Co<S>)>
    requires sh.Geometry().Valid() && |co.save.bytes| <= sh.Top() - sh.base
  {
    if |co.save.bytes| > sh.Geometry().Limit() - WORD then None
    else Some((Refilled(sh, c, co.save.bytes), Restored(co)))
  }

  /** Park the owner of stack `i`, if it has one. */
  function Evict<C(==), S(==)>(s: State<C, S>, i: S): Option<State<C, S>>
    requires Inv(s) && i in s.shares
  {
    assert OwnerValid(s, i);
    match s.shares[i].owner
    case None => Some(s)
    case Some(o) =>
      assert CoValid(s, o);
      match SaveOut(s.shares[i], s.cos[o])
      case None => None
      case Some((sh', o')) => Some(s.(shares := s.shares[i := sh'], cos := s.cos[o := o']))
  }

  /** Give the ownerless stack of `c` to `c`. */
  function TakeOver<C(==), S(==)>(s: State<C, S>, c: C): Option<State<C, S>>
    requires c in s.cos && s.cos[c].share in s.shares
    requires var sh := s.shares[s.cos[c].share];
      sh.Geometry().Valid() && |s.cos[c].save.bytes| <= sh.Top() - sh.base
  {
    var i := s.cos[c].share;
    match CopyIn(s.shares[i], c, s.cos[c])
    case None => None
    case Some((sh', co')) => Some(s.(shares := s.shares[i := sh'], cos := s.cos[c := co']))
  }

  /** Make `c` the owner of its share stack, evicting another owner first. */
  function Acquire<C(==), S(==)>(s: State<C, S>, c: C): Option<State<C, S>>
    requires Inv(s) && c in s.cos && !s.cos[c].ended && s.cur == None
  {
    assert CoValid(s, c);
    var i := s.cos[c].share;
    assert OwnerValid(s, i);
    if s.shares[i].owner == Some(c) then
      Some(s)
    else
      match Evict(s, i)
      case None => None
      case Some(s1) => TakeOver(s1, c)
  }

  // ---------------------------------------------------------------- the steps

  /**
   `CoRun` is what a coroutine does between two switches: it leaves `live` on its stack above its new
   stack pointer, `junk` below, and arbitrary registers.
   */
  datatype Op<C, S> =
    | Create(c: C, share: S, saveSz: nat, fp: nat)
    | Destroy(c: C)
    | Resume(c: C)
    | MainRun(regs: Regs)
    | CoRun(live: seq<Byte>, junk: seq<Byte>, regs: Regs)
    | Yield
    | Exit

  /** When the program may issue an operation; only the main coroutine resumes. */
  ghost predicate Enabled<C, S>(s: State<C, S>, op: Op<C, S>)
    requires Inv(s)
  {
    match op
    case Create(c, i, saveSz, _) => c !in s.cos && i in s.shares && saveSz < Pow2(s.shares[i].bits)
    case Destroy(c) => c in s.cos && s.cur != Some(c)
    case Resume(c) => c in s.cos && s.cur == None
    case MainRun(_) => s.cur == None
    case CoRun(live, junk, regs) =>
      s.cur.Some? &&
      var sh := s.shares[s.cos[s.cur.value].share];
      regs[SP] + |live| == sh.Top() && sh.base + |junk| == regs[SP]
    case Yield => s.cur.Some?
    case Exit => s.cur.Some?
  }

  function Fresh<S>(i: S, top: nat, saveSz: nat, fp: nat): Co<S> {
    Co([0, 0, 0, 0, fp, top, 0, 0], false, SaveArea(if saveSz == 0 then 64 else saveSz, [], 0, 0, 0), i)
  }

  /** Save the processor's registers to the running coroutine and continue the main one. */
  function SwitchToMain<C(==), S(==)>(s: State<C, S>): State<C, S>
    requires s.cur.Some? && s.cur.value in s.cos
  {
    var c := s.cur.value;
    s.(cos := s.cos[c := s.cos[c].(reg := s.cpu)], cpu := s.mainReg, cur := None)
  }

  function Disown<C(==), S(==)>(s: State<C, S>, i: S): State<C, S>
    requires i in s.shares
  {
    s.(shares := s.shares[i := Disowned(s.shares[i])])
  }

  /** One operation; `None` when an assertion of the runtime aborts the process. */
  function Step<C(==), S(==)>(s: State<C, S>, op: Op<C, S>): Option<State<C, S>>
    requires Inv(s) && Enabled(s, op)
  {
    match op
    case Create(c, i, saveSz, fp) =>
      assert OwnerValid(s, i);
      Some(s.(cos := s.cos[c := Fresh(i, s.shares[i].Top(), saveSz, fp)]))
    case Destroy(c) =>
      assert CoValid(s, c);
      var i := s.cos[c].share;
      var s1 := if s.shares[i].owner == Some(c) then Disown(s, i) else s;
      Some(s1.(cos := s1.cos - {c}))
    case Resume(c) =>
      if s.cos[c].ended then
        None
      else (
        match Acquire(s, c)
        case None => None
        case Some(s1) => Some(s1.(mainReg := s1.cpu, cpu := s1.cos[c].reg, cur := Some(c))))
    case MainRun(regs) => Some(s.(cpu := regs))
    case CoRun(live, junk, regs) =>
      var i := s.cos[s.cur.value].share;
      Some(s.(shares := s.shares[i := s.shares[i].WithBelow(junk + live)], cpu := regs))
    case Yield => Some(SwitchToMain(s))
    case Exit =>
      var c := s.cur.value;
      var i := s.cos[c].share;
      if s.shares[i].owner != Some(c) then
        None
      else
        var s1 := Disown(s, i);
        Some(SwitchToMain(s1.(cos := s1.cos[c := s1.cos[c].(ended := true)])))
  }
}
