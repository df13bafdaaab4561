/**
 The private buffer a coroutine's stack bytes are copied to: the loop that doubles its capacity with
 a wrapping `size_t` shift, and the copy itself, with the fast path for short aligned spans.
 */
module SaveBuffer {
  import opened ByteType
  import opened Options
  import opened Words

  // ---------------------------------------------------------------- growth

  /** `x << j` in a word of `bits` bits, one shift at a time. */
  function Shl(x: nat, j: nat, bits: nat): (r: nat)
    requires x < Pow2(bits)
    ensures r < Pow2(bits)
    decreases j
  {
    if j == 0 then x else Wrap(2 * Shl(x, j - 1, bits), bits)
  }

  lemma {:induction false} LowBitsOfDouble(x: nat, k: nat)
    ensures LowBits(2 * x, k + 1) == 2 * LowBits(x, k)
  {
  }

  lemma {:induction false} LowBitsIgnoreHigh(x: nat, k: nat, w: nat)
    requires k <= w && Pow2(w) <= x
    ensures LowBits(x - Pow2(w), k) == LowBits(x, k)
    decreases k
  {
    if k == 0 {
    } else {
      assert (x - Pow2(w)) / 2 == x / 2 - Pow2(w - 1);
      LowBitsIgnoreHigh(x / 2, k - 1, w - 1);
    }
  }

  /** Shifting `bits` times leaves nothing, which is why the doubling loop always ends. */
  lemma {:induction false} ShlClearsLowBits(x: nat, j: nat, bits: nat)
    requires x < Pow2(bits) && j <= bits
    ensures LowBits(Shl(x, j, bits), j) == 0
    ensures j == bits ==> Shl(x, j, bits) == 0
    decreases j
  {
    if j == 0 {
    } else {
      ShlClearsLowBits(x, j - 1, bits);
      var d := 2 * Shl(x, j - 1, bits);
      LowBitsOfDouble(Shl(x, j - 1, bits), j - 1);
      if d >= Pow2(bits) {
        LowBitsIgnoreHigh(d, j, bits);
      }
    }
    if j == bits {
      LowBitsOfSmall(Shl(x, j, bits), bits);
    }
  }

  /**
   What the loop leaves in `sz`, looking from shift number `j` on: the first shifted value that is
   zero aborts (`None`), the first that reaches `need` is the new capacity.
   */
  function GrownFrom(cap: nat, need: nat, bits: nat, j: nat): (r: Option<nat>)
    requires cap < Pow2(bits) && j <= bits
    decreases bits - j
  {
    var c := Shl(cap, j, bits);
    ShlClearsLowBits(cap, j, bits);
    if c == 0 then None else if c >= need then Some(c) else GrownFrom(cap, need, bits, j + 1)
  }

  /** The capacity after making room for `need` bytes; `None` when the growth loop aborts. */
  function CapacityFor(cap: nat, need: nat, bits: nat): Option<nat>
    requires bits > 0 && cap < Pow2(bits)
  {
    if cap < need then GrownFrom(cap, need, bits, 1) else Some(cap)
  }

  /** The growth branch of the save, in `size_t` arithmetic of `bits` bits. */
  method EnsureCapacity(cap: nat, need: nat, bits: nat) returns (r: Option<nat>)
    requires bits > 0 && 0 < cap < Pow2(bits)
    ensures r == CapacityFor(cap, need, bits)
  {
    if cap < need {
      var sz := cap;
      ghost var j := 0;
      while true
        invariant j < bits && sz == Shl(cap, j, bits)
        invariant GrownFrom(cap, need, bits, j + 1) == CapacityFor(cap, need, bits)
        decreases bits - j
      {
        sz := Wrap(sz * 2, bits);
        j := j + 1;
        ShlClearsLowBits(cap, j, bits);
        if !(sz > 0) {
          return None;
        }
        if sz >= need {
          return Some(sz);
        }
      }
    } else {
      return Some(cap);
    }
  }

  /** `x` doubled `k` times, without a limit. */
  function Doubled(x: nat, k: nat): nat
    decreases k
  {
    if k == 0 then x else 2 * Doubled(x, k - 1)
  }

  lemma {:induction false} DoubledTwice(x: nat, j: nat, k: nat)
    ensures Doubled(Doubled(x, j), k) == Doubled(x, j + k)
    decreases k
  {
    if k == 0 {
    } else {
      DoubledTwice(x, j, k - 1);
    }
  }

  lemma {:induction false} DoubledGrows(x: nat, j: nat, k: nat)
    requires j <= k
    ensures Doubled(x, j) <= Doubled(x, k)
    decreases k
  {
    if j == k {
    } else {
      DoubledGrows(x, j, k - 1);
    }
  }

  lemma {:induction false} ShlIsDoubled(cap: nat, j: nat, bits: nat)
    requires Doubled(cap, j) < Pow2(bits) && cap < Pow2(bits)
    ensures Shl(cap, j, bits) == Doubled(cap, j)
    decreases j
  {
    if j == 0 {
    } else {
      ShlIsDoubled(cap, j - 1, bits);
    }
  }

  lemma {:induction false} GrownFromOutcome(cap: nat, need: nat, bits: nat, j: nat)
    requires cap < Pow2(bits) && 1 <= j <= bits
    ensures var r := GrownFrom(cap, need, bits, j);
      && (r.Some? ==> need <= r.value < Pow2(bits) && r.value > 0)
      && (r.None? <==> forall i :: j <= i <= bits ==> Shl(cap, i, bits) < need || Shl(cap, i, bits) == 0)
    decreases bits - j
  {
    ShlClearsLowBits(cap, j, bits);
    var c := Shl(cap, j, bits);
    if c == 0 {
      forall i | j <= i <= bits ensures Shl(cap, i, bits) == 0 {
        ShlStaysZero(cap, j, i, bits);
      }
    } else if c < need {
      GrownFromOutcome(cap, need, bits, j + 1);
    }
  }

  lemma {:induction false} ShlStaysZero(cap: nat, j: nat, i: nat, bits: nat)
    requires cap < Pow2(bits) && j <= i && Shl(cap, j, bits) == 0
    ensures Shl(cap, i, bits) == 0
    decreases i
  {
    if j == i {
    } else {
      ShlStaysZero(cap, j, i - 1, bits);
    }
  }

  /**
   If some doubling from the `j`-th on fits the word and holds the request, the loop stops at one, and at the
   first.
   */
  lemma {:induction false} GrownFromNoWrap(cap: nat, need: nat, bits: nat, j: nat, k: nat)
    requires bits > 0 && 1 <= j <= k && 0 < cap
    requires Doubled(cap, j - 1) < need <= Doubled(cap, k) < Pow2(bits)
    ensures cap < Pow2(bits) && j <= bits
    ensures exists i: nat :: GrownFrom(cap, need, bits, j) == Some(Doubled(cap, i)) && Doubled(cap, i) < 2 * need
    decreases k - j
  {
    DoubledGrows(cap, 0, k);
    DoubledGrows(cap, j, k);
    DoubledAtLeast(cap, j);
    if j > bits {
      Pow2Monotone(bits, j);
    }
    ShlIsDoubled(cap, j, bits);
    ShlClearsLowBits(cap, j, bits);
    DoubledGrows(cap, 0, j);
    if Doubled(cap, j) < need {
      if k == j {
        assert false;
      }
      GrownFromNoWrap(cap, need, bits, j + 1, k);
    }
  }

  lemma {:induction false} DoubledAtLeast(x: nat, k: nat)
    requires 0 < x
    ensures Pow2(k) <= Doubled(x, k)
    decreases k
  {
    if k == 0 {
    } else {
      DoubledAtLeast(x, k - 1);
    }
  }

  /** Any capacity that fits the word has a doubling in the upper half of the word's range. */
  lemma {:induction false} SomeDoublingIsHigh(cap: nat, bits: nat) returns (k: nat)
    requires bits > 0 && 0 < cap < Pow2(bits)
    ensures Pow2(bits - 1) <= Doubled(cap, k) < Pow2(bits)
    decreases Pow2(bits) - cap
  {
    if Pow2(bits - 1) <= cap {
      k := 0;
    } else {
      k := SomeDoublingIsHigh(2 * cap, bits);
      DoubledTwice(cap, 1, k);
      assert Doubled(cap, 1) == 2 * Doubled(cap, 0);
      k := k + 1;
    }
  }

  /** A capacity that comes back holds the request, even after a shift has wrapped around. */
  lemma GrownCapacityHolds(cap: nat, need: nat, bits: nat)
    requires bits > 0 && 0 < cap < Pow2(bits)
    ensures var r := CapacityFor(cap, need, bits);
      r.Some? ==> need <= r.value < Pow2(bits) && 0 < r.value
  {
    if cap < need {
      GrownFromOutcome(cap, need, bits, 1);
    }
  }

  /** A doubling of the capacity fits the word and holds the request: what a caller can check before a save. */
  ghost predicate SomeDoublingHolds(cap: nat, need: nat, bits: nat) {
    exists k: nat :: need <= Doubled(cap, k) < Pow2(bits)
  }

  ghost predicate IsDoubling(cap: nat, grown: nat) {
    exists k: nat :: grown == Doubled(cap, k)
  }

  /**
   The new capacity is the old one times a power of two exactly when such a multiple fits the word and holds the
   request.
   */
  lemma GrowthIsDoublingIff(cap: nat, need: nat, bits: nat)
    requires bits > 0 && 0 < cap < Pow2(bits)
    ensures var r := CapacityFor(cap, need, bits);
      (r.Some? && IsDoubling(cap, r.value)) <==> SomeDoublingHolds(cap, need, bits)
  {
    GrownCapacityHolds(cap, need, bits);
    assert Doubled(cap, 0) == cap;
    if SomeDoublingHolds(cap, need, bits) && cap < need {
      var k: nat :| need <= Doubled(cap, k) < Pow2(bits);
      GrownFromNoWrap(cap, need, bits, 1, k);
    }
  }

  /** A request of at most half the address range always has such a multiple. */
  lemma HalfRangeSuffices(cap: nat, need: nat, bits: nat)
    requires bits > 0 && 0 < cap < Pow2(bits) && need <= Pow2(bits - 1)
    ensures SomeDoublingHolds(cap, need, bits)
  {
    var k := SomeDoublingIsHigh(cap, bits);
  }

  lemma {:induction false} DoubledIs(x: nat, k: nat)
    ensures Doubled(x, k) == x * Pow2(k)
    decreases k
  {
    if k == 0 {
    } else {
      DoubledIs(x, k - 1);
    }
  }

  lemma {:induction false} GrownFromSkips(cap: nat, need: nat, bits: nat, j: nat, k: nat)
    requires cap < Pow2(bits) && j <= k <= bits
    requires forall i :: j <= i < k ==> 0 < Shl(cap, i, bits) < need
    ensures GrownFrom(cap, need, bits, j) == GrownFrom(cap, need, bits, k)
    decreases k - j
  {
    if j == k {
    } else {
      ShlClearsLowBits(cap, j, bits);
      GrownFromSkips(cap, need, bits, j + 1, k);
    }
  }

  lemma ElevenShifted(m: nat, i: nat)
    requires i <= m
    ensures 11 * Pow2(m) < Pow2(m + 4) && Shl(11, i, m + 4) == Doubled(11, i)
    ensures 0 < Doubled(11, i) <= 11 * Pow2(m)
  {
    assert Pow2(m + 2) == 4 * Pow2(m) && Pow2(m + 4) == 4 * Pow2(m + 2);
    DoubledIs(11, m);
    DoubledGrows(11, i, m);
    DoubledGrows(11, 0, i);
    ShlIsDoubled(11, i, m + 4);
  }

  lemma NoMultipleOfEleven(m: nat)
    ensures !IsDoubling(11, 12 * Pow2(m))
  {
    forall k: nat
      ensures Doubled(11, k) != 12 * Pow2(m)
    {
      DoubledIs(11, m);
      if k <= m {
        DoubledGrows(11, k, m);
      } else {
        assert Doubled(11, m + 1) == 2 * Doubled(11, m);
        DoubledGrows(11, m + 1, k);
      }
    }
  }

  /**
   A larger one need not, in any word: 11 doubled until a bit is shifted out, and then shifted once more, is
   12 * 2^m, which is larger than every capacity before it and no multiple of 11.
   */
  lemma WrappedGrowthIsNoDoubling(m: nat)
    ensures 11 < Pow2(m + 4)
    ensures CapacityFor(11, 12 * Pow2(m), m + 4) == Some(12 * Pow2(m)) && !IsDoubling(11, 12 * Pow2(m))
  {
    var bits, need, p := m + 4, 12 * Pow2(m), Pow2(m);
    assert Pow2(m + 2) == 4 * p && Pow2(bits) == 4 * Pow2(m + 2);
    forall i | 0 <= i <= m
      ensures 0 < Shl(11, i, bits) < need
    {
      ElevenShifted(m, i);
    }
    ElevenShifted(m, m);
    DoubledIs(11, m);
    assert Shl(11, m + 1, bits) == 6 * p;
    assert Shl(11, m + 2, bits) == need;
    GrownFromSkips(11, need, bits, 1, m + 2);
    ShlClearsLowBits(11, m + 2, bits);
    NoMultipleOfEleven(m);
  }

  /**
   Growth as the source needs it.  A capacity that comes back always holds the request, wrapped or not, and
   if it has grown it is below twice the request.  A request of at most half the address range never
   aborts, and the new capacity is then the old one doubled just often enough.
   */
  lemma GrowthSuffices(cap: nat, need: nat, bits: nat)
    requires bits > 0 && 0 < cap < Pow2(bits)
    ensures var r := CapacityFor(cap, need, bits);
      && (r.Some? ==> need <= r.value < Pow2(bits) && 0 < r.value && (r.value == cap || r.value < 2 * need))
      && (need <= Pow2(bits - 1) ==> r.Some? && IsDoubling(cap, r.value))
  {
    if cap < need {
      GrownFromOutcome(cap, need, bits, 1);
      if need <= Pow2(bits - 1) {
        var k := SomeDoublingIsHigh(cap, bits);
        if k == 0 {
          assert false;
        }
        GrownFromNoWrap(cap, need, bits, 1, k);
      } else {
        assert Pow2(bits) == 2 * Pow2(bits - 1);
      }
    } else {
      assert Doubled(cap, 0) == cap;
    }
  }

  /** For a power-of-two capacity, such as the default 64, the bound is exact: beyond half the range the loop aborts. */
  lemma PowerOfTwoGrowthAborts(i: nat, need: nat, bits: nat)
    requires i < bits && Pow2(i) < need
    ensures Pow2(i) < Pow2(bits)
    ensures CapacityFor(Pow2(i), need, bits) == None <==> Pow2(bits - 1) < need
  {
    Pow2Monotone(i, bits - 1);
    if Pow2(bits - 1) < need {
      GrownFromOutcome(Pow2(i), need, bits, 1);
      forall j | 1 <= j <= bits ensures Shl(Pow2(i), j, bits) <= Pow2(bits - 1) {
        ShlOfPow2(i, j, bits);
      }
    } else {
      GrowthSuffices(Pow2(i), need, bits);
    }
  }

  lemma {:induction false} ShlOfPow2(i: nat, j: nat, bits: nat)
    requires i < bits && Pow2(i) < Pow2(bits)
    ensures Shl(Pow2(i), j, bits) == if i + j < bits then Pow2(i + j) else 0
    ensures Shl(Pow2(i), j, bits) <= Pow2(bits - 1)
    decreases j
  {
    if j == 0 {
    } else {
      ShlOfPow2(i, j - 1, bits);
    }
    if i + j < bits {
      Pow2Monotone(i + j, bits - 1);
      Pow2Monotone(i + j, bits);
    }
  }

  // ---------------------------------------------------------------- copying

  /** `a` with `bytes` written over it from index `at` on. */
  function Overwrite(a: seq<Byte>, at: nat, bytes: seq<Byte>): (r: seq<Byte>)
    requires at + |bytes| <= |a|
    ensures |r| == |a|
  {
    a[..at] + bytes + a[at + |bytes|..]
  }

  method Memcpy(dst: array<Byte>, to: nat, src: array<Byte>, from: nat, sz: nat)
    requires dst != src && to + sz <= dst.Length && from + sz <= src.Length
    modifies dst
    ensures dst[..] == Overwrite(old(dst[..]), to, src[from..from + sz])
  {
    forall i | 0 <= i < sz {
      dst[to + i] := src[from + i];
    }
  }

  /** Writing next to what was just written is writing both at once. */
  lemma OverwriteNext(a: seq<Byte>, at: nat, x: seq<Byte>, y: seq<Byte>)
    requires at + |x| + |y| <= |a|
    ensures Overwrite(Overwrite(a, at, x), at + |x|, y) == Overwrite(a, at, x + y)
  {
    var b := Overwrite(a, at, x);
    assert b[..at + |x|] == a[..at] + x;
    assert b[at + |x| + |y|..] == a[at + |x| + |y|..];
  }

  method Store(dst: array<Byte>, at: nat, bytes: seq<Byte>)
    requires at + |bytes| <= dst.Length
    modifies dst
    ensures dst[..] == Overwrite(old(dst[..]), at, bytes)
  {
    forall i | 0 <= i < |bytes| {
      dst[at + i] := bytes[i];
    }
  }

  lemma SliceOfSlice(s: seq<Byte>, from: nat, n: nat, a: nat, b: nat)
    requires a <= b <= n && from + n <= |s|
    ensures s[from..from + n][a..b] == s[from + a..from + b]
  {
    var inner, outer := s[from..from + n][a..b], s[from + a..from + b];
    assert |inner| == |outer| && forall i :: 0 <= i < |outer| ==> inner[i] == outer[i];
  }

  lemma SlicesMeet(s: seq<Byte>, a: nat, b: nat, c: nat)
    requires a <= b <= c <= |s|
    ensures s[a..b] + s[b..c] == s[a..c]
  {
  }

  /** The blocks of `src` from `from` on, each in a register of its own. */
  method LoadBlocks(src: array<Byte>, from: nat, blocks: nat) returns (xmm: seq<seq<Byte>>)
    requires from + 16 * blocks <= src.Length
    ensures |xmm| == blocks && forall k :: 0 <= k < blocks ==> xmm[k] == src[from + 16 * k..from + 16 * k + 16]
  {
    xmm := [];
    while |xmm| < blocks
      invariant |xmm| <= blocks
      invariant forall k :: 0 <= k < |xmm| ==> xmm[k] == src[from + 16 * k..from + 16 * k + 16]
    {
      xmm := xmm + [src[from + 16 * |xmm|..from + 16 * |xmm| + 16]];
    }
  }

  method StoreBlocks(dst: array<Byte>, to: nat, xmm: seq<seq<Byte>>, ghost bytes: seq<Byte>)
    requires |bytes| == 16 * |xmm| && to + |bytes| <= dst.Length
    requires forall k :: 0 <= k < |xmm| ==> xmm[k] == bytes[16 * k..16 * k + 16]
    modifies dst
    ensures dst[..] == Overwrite(old(dst[..]), to, bytes)
  {
    var k := 0;
    ghost var was := dst[..];
    assert bytes[..0] == [] && Overwrite(was, to, []) == was;
    hide Overwrite;
    while k < |xmm|
      invariant k <= |xmm| && |was| == dst.Length
      invariant dst[..] == Overwrite(was, to, bytes[..16 * k])
    {
      OverwriteNext(was, to, bytes[..16 * k], xmm[k]);
      assert bytes[..16 * k] + xmm[k] == bytes[..16 * (k + 1)];
      Store(dst, to + 16 * k, xmm[k]);
      k := k + 1;
    }
    assert bytes[..16 * k] == bytes;
  }

  /** Up to eight 16-byte blocks, all loaded before the first is stored, and then the last eight bytes. */
  method ShortAlignedMemcpy(dst: array<Byte>, to: nat, src: array<Byte>, from: nat, sz: nat)
    requires dst != src && to + sz <= dst.Length && from + sz <= src.Length
    requires sz % 16 == 8 && sz / 16 <= 8
    modifies dst
    ensures dst[..] == Overwrite(old(dst[..]), to, src[from..from + sz])
  {
    hide Overwrite;
    var blocks := sz / 16;
    ghost var was, bytes := dst[..], src[..][from..from + 16 * blocks];
    var xmm := LoadBlocks(src, from, blocks);
    forall k | 0 <= k < blocks
      ensures xmm[k] == bytes[16 * k..16 * k + 16]
    {
      SliceOfSlice(src[..], from, 16 * blocks, 16 * k, 16 * k + 16);
      assert src[..][from + 16 * k..from + 16 * k + 16] == src[from + 16 * k..from + 16 * k + 16];
    }
    StoreBlocks(dst, to, xmm, bytes);
    var last := src[from + sz - 8..from + sz];
    OverwriteNext(was, to, bytes, last);
    SlicesMeet(src[..], from, from + 16 * blocks, from + sz);
    assert last == src[..][from + 16 * blocks..from + sz] && src[..][from..from + sz] == src[from..from + sz];
    Store(dst, to + sz - 8, last);
  }

  /** The drop-in copy: the fast path when both addresses and the size allow it, `memcpy` otherwise. */
  method OptimizedMemcpy(dst: array<Byte>, to: nat, dstAddr: nat, src: array<Byte>, from: nat, srcAddr: nat, sz: nat)
    requires dst != src && to + sz <= dst.Length && from + sz <= src.Length
    modifies dst
    ensures dst[..] == Overwrite(old(dst[..]), to, src[from..from + sz])
  {
    if srcAddr % 16 == 0 && dstAddr % 16 == 0 && sz % 16 == 8 && sz / 16 <= 8 {
      ShortAlignedMemcpy(dst, to, src, from, sz);
    } else {
      Memcpy(dst, to, src, from, sz);
    }
  }
}
