/**
 The arithmetic of a share stack: how large a region `aco_share_stack_new2` maps for a requested
 size, where it puts the top of the stack inside that region, and why a stack pointer that passes
 the save-time check keeps every copy inside it.
 */
module ShareStackLayout {
  import opened Options
  import opened Words

  // ---------------------------------------------------------------- the size of the mapping

  /** Enough whole pages, in bytes, to hold `x` bytes: pages are added until nothing is left over. */
  function RoundUp(x: nat, page: nat): (r: nat)
    requires page > 0
    ensures x <= r < x + page
  {
    if x == 0 then 0 else if x <= page then page else page + RoundUp(x - page, page)
  }

  /** `RoundUp` is the multiple of `page` that lies in `[x, x + page)`, and there is only one. */
  lemma {:induction false} RoundUpIs(x: nat, page: nat, q: nat)
    requires page > 0 && x <= q * page < x + page
    ensures RoundUp(x, page) == q * page
  {
    if x == 0 {
      if q >= 1 { MulAtLeast(q, page); }
    } else if x <= page {
      if q >= 2 { MulAtLeast(q - 1, page); }
      assert q == 1 || (q - 1) * page == q * page - page;
    } else {
      assert (q - 1) * page == q * page - page;
      RoundUpIs(x - page, page, q - 1);
    }
  }

  /**
   The page arithmetic of the constructor on `bits`-wide `size_t` values: a zero request means 2 MiB, no
   request is below 4096 bytes, and a guard page is added.  The source's assertions that
   can fail are tests that return `None`: the page-size check, and the overflow checks exactly when the
   true total does not fit.  Its mask, shift and division assertions are assertions here too, and hold.
   */
  method MappedSize(request: nat, pgsz: int, bits: nat) returns (mapped: Option<nat>)
    requires 32 <= bits && request < Pow2(bits) && pgsz < Pow2(bits - 1)
    ensures !IsPow2(pgsz) ==> mapped == None
    ensures IsPow2(pgsz) ==>
      var atLeast := if request == 0 then 2097152 else if request < 4096 then 4096 else request;
      var total := pgsz + RoundUp(atLeast, pgsz);
      mapped == if total < Pow2(bits) then Some(total) else None
  {
    var sz := request;
    if sz == 0 {
      sz := 1024 * 1024 * 2;
    }
    if sz < 4096 {
      sz := 4096;
    }
    Pow2Monotone(22, bits);
    SmallPowers();
    if pgsz <= 0 {
      return None;
    }
    var isPow2 := PassesPowerOfTwoTest(pgsz);
    if !isPow2 {
      return None;
    }
    assert Wrap(pgsz * 2, bits) / 2 == pgsz;
    if sz <= pgsz {
      RoundUpIs(sz, pgsz, 1);
      return Some(Wrap(pgsz * 2, bits));
    }
    mapped := AddGuardAndRound(sz, pgsz, bits);
  }

  method PassesPowerOfTwoTest(p: nat) returns (b: bool)
    requires p > 0
    ensures b <==> IsPow2(p)
  {
    PowerOfTwoTest(p);
    b := BitAnd(p - 1, p) == 0;
  }

  /** `x & (page - 1)` and `x & ~(page - 1)`. */
  method Masks(x: nat, page: nat, bits: nat) returns (low: nat, high: nat)
    requires x < Pow2(bits) && page <= Pow2(bits) && IsPow2(page)
    ensures low == x % page && high == x - low
  {
    ghost var k: nat :| page == Pow2(k);
    if k > bits {
      Pow2Monotone(bits + 1, k);
    }
    AndLowMask(x, k);
    AndHighMask(x, k, bits);
    low, high := BitAnd(x, page - 1), BitAnd(x, Pow2(bits) - 1 - (page - 1));
  }

  /** The branch for a request larger than one page, where only the overflow assertions can fail. */
  method AddGuardAndRound(sz: nat, pgsz: nat, bits: nat) returns (mapped: Option<nat>)
    requires 0 < pgsz < sz < Pow2(bits) && 2 * pgsz < Pow2(bits) && IsPow2(pgsz)
    ensures var total := pgsz + RoundUp(sz, pgsz);
      mapped == if total < Pow2(bits) then Some(total) else None
  {
    ghost var q, r := sz / pgsz, sz % pgsz;
    NextPages(sz, pgsz, q, r);
    var low, high := Masks(sz, pgsz, bits);
    var newSz;
    if low != 0 {
      newSz := high;
      assert newSz >= pgsz;
      if Wrap(newSz + pgsz * 2, bits) < newSz {
        return None;
      }
      newSz := Wrap(newSz + pgsz * 2, bits);
      assert sz / pgsz + 2 == newSz / pgsz;
    } else {
      if Wrap(sz + pgsz, bits) < sz {
        return None;
      }
      newSz := Wrap(sz + pgsz, bits);
      assert sz / pgsz + 1 == newSz / pgsz;
    }
    low, high := Masks(newSz, pgsz, bits);
    assert newSz / pgsz > 1 && low == 0;
    return Some(newSz);
  }

  /** What the two branches above add to the request, in whole pages. */
  lemma NextPages(sz: nat, page: nat, q: nat, r: nat)
    requires 0 < page < sz && sz == q * page + r && r < page
    ensures q >= 1 && q * page >= page
    ensures r == 0 ==> RoundUp(sz, page) == sz && (sz + page) / page == q + 1 && (sz + page) % page == 0
    ensures r != 0 ==>
      var next := q * page + 2 * page;
      RoundUp(sz, page) == q * page + page && next / page == q + 2 && next % page == 0
    ensures sz / page == q
  {
    if q == 0 {
      assert false;
    }
    MulAtLeast(q, page);
    ModUnique(sz, page, q, r);
    assert (q + 1) * page == q * page + page;
    assert (q + 2) * page == q * page + 2 * page;
    if r == 0 {
      RoundUpIs(sz, page, q);
      ModUnique(sz + page, page, q + 1, 0);
    } else {
      RoundUpIs(sz, page, q + 1);
      ModUnique(q * page + 2 * page, page, q + 2, 0);
    }
  }

  // ---------------------------------------------------------------- the window inside it

  datatype Arch = I386 | X86_64 | Aarch64 {
    /** `sizeof(void*)`. */
    function WordSize(): nat {
      if I386? then 4 else 8
    }

    /** The distance from `align_highptr` down to `align_retptr`. */
    function RetGap(): nat {
      if Aarch64? then 16 else WordSize()
    }
  }

  /** A region of `sz` bytes starting at address `base`, as the constructor leaves it. */
  datatype Layout = Layout(arch: Arch, base: nat, sz: nat) {
    /** The constructor's last assertion. */
    predicate Valid() {
      sz > 16 + 2 * arch.WordSize() + arch.WordSize()
    }

    function HighPtr(): (h: nat)
      requires Valid()
      ensures h % 16 == 0 && base + sz - 2 * arch.WordSize() - 16 < h <= base + sz - 2 * arch.WordSize()
    {
      (base + sz - 2 * arch.WordSize()) / 16 * 16
    }

    function RetPtr(): nat
      requires Valid()
    {
      HighPtr() - arch.RetGap()
    }

    function Limit(): nat
      requires Valid()
    {
      sz - 16 - 2 * arch.WordSize()
    }

    /** The assertion made on the owner's saved stack pointer before its bytes are copied out. */
    predicate InWindow(sp: nat)
      requires Valid()
    {
      sp <= RetPtr() && HighPtr() - Limit() <= sp
    }
  }

  /**
   For every architecture, base and size the constructor accepts: a stack pointer inside the
   window saves and restores `[sp, RetPtr)` inside the region, the restore-time assertion holds for
   the saved size, the protector word above is inside the region and outside the copy, and the
   stack top is aligned to 16 bytes as a call requires.
   */
  lemma WindowKeepsCopiesInside(l: Layout, sp: nat)
    requires l.Valid() && l.InWindow(sp)
    ensures var valid := l.RetPtr() - sp;
      && l.base < sp
      && valid <= l.Limit() - l.arch.WordSize()
      && l.base < l.RetPtr() - valid
      && l.RetPtr() + l.arch.WordSize() <= l.base + l.sz
      && (l.arch == Aarch64 ==> l.RetPtr() % 16 == 0)
      && (l.arch == X86_64 ==> (l.RetPtr() + 8) % 16 == 0)
      && (l.arch == I386 ==> (l.RetPtr() + 4) % 16 == 0)
  {
    assert l.HighPtr() - l.Limit() > l.base;
  }

  /**
   With `word`-byte pointers and a stack aligned when `pad` bytes lie on it: `top` is such a place with the
   protector's word above it and not past `high`, which the next place, 16 bytes up, is not; `high` is a
   multiple of 16 with two more words above it in the region, which the next is not; and `limit` is what
   the region holds below two words and the slack of one alignment.
   */
  ghost predicate HighestTop(l: Layout, word: nat, pad: nat, top: int, high: int, limit: int) {
    && (top + pad) % 16 == 0 && top + word <= high < top + 16 + word
    && high % 16 == 0 && high + 2 * word <= l.base + l.sz < high + 16 + 2 * word
    && limit == l.sz - 2 * word - 16
  }

  /**
   The layout of each architecture in numbers.  On aarch64 the stack pointer itself is a multiple of 16; on
   the others it is once the return address has been pushed.
   */
  lemma TopByArchitecture(l: Layout)
    ensures l.Valid() <==> if l.arch == I386 then l.sz > 28 else l.sz > 40
    ensures l.Valid() && l.arch == Aarch64 ==> HighestTop(l, 8, 0, l.RetPtr(), l.HighPtr(), l.Limit())
    ensures l.Valid() && l.arch == X86_64 ==> HighestTop(l, 8, 8, l.RetPtr(), l.HighPtr(), l.Limit())
    ensures l.Valid() && l.arch == I386 ==> HighestTop(l, 4, 4, l.RetPtr(), l.HighPtr(), l.Limit())
  {
  }

  /** Conversely no slack is given away: a whole aligned block below the window would leave the region. */
  lemma WindowIsTight(l: Layout, sp: int)
    requires l.Valid() && 0 <= sp <= l.RetPtr() && !l.InWindow(sp)
    ensures sp - 16 < l.base
  {
    assert l.HighPtr() <= l.base + l.sz - 2 * l.arch.WordSize();
    assert l.HighPtr() - l.Limit() <= l.base + 16;
  }
}
