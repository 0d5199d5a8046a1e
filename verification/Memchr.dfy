/** Byte search (internal/memchr): the word-at-a-time and vector-at-a-time scans return the true
    first or last match. A haystack is a sequence of bytes starting at address `base`. */
module Memchr {

  type Haystack = seq<bv8>

  // ---------------------------------------------------------------- reference

  predicate Hit(needles: seq<bv8>, h: Haystack, i: int)
    requires 0 <= i < |h|
  {
    h[i] in needles
  }

  predicate NoHit(needles: seq<bv8>, h: Haystack, lo: int, hi: int)
    requires 0 <= lo && hi <= |h|
  {
    forall i | lo <= i < hi :: !Hit(needles, h, i)
  }

  /** `r` is the offset of the first byte equal to a needle, or -1 when there is none. */
  predicate IsFirst(needles: seq<bv8>, h: Haystack, r: int) {
    if r == -1 then NoHit(needles, h, 0, |h|)
    else 0 <= r < |h| && Hit(needles, h, r) && NoHit(needles, h, 0, r)
  }

  predicate IsLast(needles: seq<bv8>, h: Haystack, r: int) {
    if r == -1 then NoHit(needles, h, 0, |h|)
    else 0 <= r < |h| && Hit(needles, h, r) && NoHit(needles, h, r + 1, |h|)
  }

  /** Any two correct searches agree. */
  lemma Unique(needles: seq<bv8>, h: Haystack, r: int, s: int)
    ensures IsFirst(needles, h, r) && IsFirst(needles, h, s) ==> r == s
    ensures IsLast(needles, h, r) && IsLast(needles, h, s) ==> r == s
  {
  }

  // ---------------------------------------------------------------- words

  const LoBits: bv64 := 0x0101010101010101
  const HiBits: bv64 := 0x8080808080808080

  function HasZeroByte(x: bv64): bv64 { (x - LoBits) & !x & HiBits }

  predicate SomeZeroByte(x: bv64) {
    || x & 0xFF == 0 || x & 0xFF00 == 0 || x & 0xFF_0000 == 0 || x & 0xFF00_0000 == 0
    || x & 0xFF_0000_0000 == 0 || x & 0xFF00_0000_0000 == 0
    || x & 0xFF_0000_0000_0000 == 0 || x & 0xFF00_0000_0000_0000 == 0
  }

  /** The flag word is non-zero exactly when some byte is zero: borrows between lanes neither hide
      nor invent a zero byte. */
  lemma ZeroByteFlag(x: bv64)
    ensures HasZeroByte(x) != 0 <==> SomeZeroByte(x)
  {}

  function Pack(b0: bv8, b1: bv8, b2: bv8, b3: bv8, b4: bv8, b5: bv8, b6: bv8, b7: bv8): bv64 {
    (b0 as bv64) | (b1 as bv64 << 8) | (b2 as bv64 << 16) | (b3 as bv64 << 24)
    | (b4 as bv64 << 32) | (b5 as bv64 << 40) | (b6 as bv64 << 48) | (b7 as bv64 << 56)
  }

  function Broadcast(n: bv8): bv64 { (n as bv64) * LoBits }

  // One lemma per lane keeps each bit-vector query small.

  lemma Lane0(b0: bv8, b1: bv8, b2: bv8, b3: bv8, b4: bv8, b5: bv8, b6: bv8, b7: bv8, n: bv8)
    ensures (Pack(b0, b1, b2, b3, b4, b5, b6, b7) ^ Broadcast(n)) & 0xFF == 0 <==> b0 == n
  {}

  lemma Lane1(b0: bv8, b1: bv8, b2: bv8, b3: bv8, b4: bv8, b5: bv8, b6: bv8, b7: bv8, n: bv8)
    ensures (Pack(b0, b1, b2, b3, b4, b5, b6, b7) ^ Broadcast(n)) & 0xFF00 == 0 <==> b1 == n
  {}

  lemma Lane2(b0: bv8, b1: bv8, b2: bv8, b3: bv8, b4: bv8, b5: bv8, b6: bv8, b7: bv8, n: bv8)
    ensures (Pack(b0, b1, b2, b3, b4, b5, b6, b7) ^ Broadcast(n)) & 0xFF_0000 == 0 <==> b2 == n
  {}

  lemma Lane3(b0: bv8, b1: bv8, b2: bv8, b3: bv8, b4: bv8, b5: bv8, b6: bv8, b7: bv8, n: bv8)
    ensures (Pack(b0, b1, b2, b3, b4, b5, b6, b7) ^ Broadcast(n)) & 0xFF00_0000 == 0 <==> b3 == n
  {}

  lemma Lane4(b0: bv8, b1: bv8, b2: bv8, b3: bv8, b4: bv8, b5: bv8, b6: bv8, b7: bv8, n: bv8)
    ensures (Pack(b0, b1, b2, b3, b4, b5, b6, b7) ^ Broadcast(n)) & 0xFF_0000_0000 == 0 <==> b4 == n
  {}

  lemma Lane5(b0: bv8, b1: bv8, b2: bv8, b3: bv8, b4: bv8, b5: bv8, b6: bv8, b7: bv8, n: bv8)
    ensures (Pack(b0, b1, b2, b3, b4, b5, b6, b7) ^ Broadcast(n)) & 0xFF00_0000_0000 == 0 <==> b5 == n
  {}

  lemma Lane6(b0: bv8, b1: bv8, b2: bv8, b3: bv8, b4: bv8, b5: bv8, b6: bv8, b7: bv8, n: bv8)
    ensures (Pack(b0, b1, b2, b3, b4, b5, b6, b7) ^ Broadcast(n)) & 0xFF_0000_0000_0000 == 0 <==> b6 == n
  {}

  lemma Lane7(b0: bv8, b1: bv8, b2: bv8, b3: bv8, b4: bv8, b5: bv8, b6: bv8, b7: bv8, n: bv8)
    ensures (Pack(b0, b1, b2, b3, b4, b5, b6, b7) ^ Broadcast(n)) & 0xFF00_0000_0000_0000 == 0 <==> b7 == n
  {}

  predicate LanesMatch(z: bv64, b0: bv8, b1: bv8, b2: bv8, b3: bv8, b4: bv8, b5: bv8, b6: bv8, b7: bv8, n: bv8) {
    && (z & 0xFF == 0 <==> b0 == n) && (z & 0xFF00 == 0 <==> b1 == n)
    && (z & 0xFF_0000 == 0 <==> b2 == n) && (z & 0xFF00_0000 == 0 <==> b3 == n)
    && (z & 0xFF_0000_0000 == 0 <==> b4 == n) && (z & 0xFF00_0000_0000 == 0 <==> b5 == n)
    && (z & 0xFF_0000_0000_0000 == 0 <==> b6 == n) && (z & 0xFF00_0000_0000_0000 == 0 <==> b7 == n)
  }

  lemma {:induction false} PackedLanes(b0: bv8, b1: bv8, b2: bv8, b3: bv8, b4: bv8, b5: bv8, b6: bv8, b7: bv8, n: bv8)
    ensures LanesMatch(Pack(b0, b1, b2, b3, b4, b5, b6, b7) ^ Broadcast(n), b0, b1, b2, b3, b4, b5, b6, b7, n)
  {
    Lane0(b0, b1, b2, b3, b4, b5, b6, b7, n);
    Lane1(b0, b1, b2, b3, b4, b5, b6, b7, n);
    Lane2(b0, b1, b2, b3, b4, b5, b6, b7, n);
    Lane3(b0, b1, b2, b3, b4, b5, b6, b7, n);
    Lane4(b0, b1, b2, b3, b4, b5, b6, b7, n);
    Lane5(b0, b1, b2, b3, b4, b5, b6, b7, n);
    Lane6(b0, b1, b2, b3, b4, b5, b6, b7, n);
    Lane7(b0, b1, b2, b3, b4, b5, b6, b7, n);
  }

  lemma FlagOfLanes(z: bv64, b0: bv8, b1: bv8, b2: bv8, b3: bv8, b4: bv8, b5: bv8, b6: bv8, b7: bv8, n: bv8)
    requires LanesMatch(z, b0, b1, b2, b3, b4, b5, b6, b7, n)
    ensures HasZeroByte(z) != 0 <==>
      b0 == n || b1 == n || b2 == n || b3 == n || b4 == n || b5 == n || b6 == n || b7 == n
  {
    ZeroByteFlag(z);
  }

  /** The presence test on a packed word is exact. */
  lemma {:induction false} PackFlag(b0: bv8, b1: bv8, b2: bv8, b3: bv8, b4: bv8, b5: bv8, b6: bv8, b7: bv8, n: bv8)
    ensures HasZeroByte(Pack(b0, b1, b2, b3, b4, b5, b6, b7) ^ Broadcast(n)) != 0 <==>
      b0 == n || b1 == n || b2 == n || b3 == n || b4 == n || b5 == n || b6 == n || b7 == n
  {
    PackedLanes(b0, b1, b2, b3, b4, b5, b6, b7, n);
    FlagOfLanes(Pack(b0, b1, b2, b3, b4, b5, b6, b7) ^ Broadcast(n), b0, b1, b2, b3, b4, b5, b6, b7, n);
  }

  // ---------------------------------------------------------------- word-at-a-time search

  predicate Aligned(address: nat) { address % 8 == 0 }

  lemma NextAligned(address: nat)
    ensures Aligned(address) <==> Aligned(address + 8)
  {}

  /** An aligned load that stays inside the haystack. */
  function LoadWord(h: Haystack, base: nat, i: nat): bv64
    requires i + 8 <= |h| && (base + i) % 8 == 0
  {
    Pack(h[i], h[i + 1], h[i + 2], h[i + 3], h[i + 4], h[i + 5], h[i + 6], h[i + 7])
  }

  /** The presence test of one needle. */
  function Flag(w: bv64, n: bv8): bv64 { HasZeroByte(w ^ Broadcast(n)) }

  /** The presence tests of all needles, or-ed together. */
  function Flags(w: bv64, needles: seq<bv8>): bv64 {
    if needles == [] then 0 else Flags(w, needles[..|needles| - 1]) | Flag(w, needles[|needles| - 1])
  }

  lemma OrIsZero(a: bv64, b: bv64)
    ensures a | b != 0 <==> a != 0 || b != 0
  {}

  /** Testing the word for a needle tests the eight bytes at `i`. */
  ghost predicate Stands(w: bv64, h: Haystack, i: nat)
    requires i + 8 <= |h|
  {
    forall n: bv8 :: Flag(w, n) != 0 <==> n in h[i..i + 8]
  }

  lemma EightBytes(h: Haystack, i: nat, n: bv8)
    requires i + 8 <= |h|
    ensures n in h[i..i + 8] <==>
      || h[i] == n || h[i + 1] == n || h[i + 2] == n || h[i + 3] == n
      || h[i + 4] == n || h[i + 5] == n || h[i + 6] == n || h[i + 7] == n
  {
    assert h[i..i + 8] == [h[i], h[i + 1], h[i + 2], h[i + 3], h[i + 4], h[i + 5], h[i + 6], h[i + 7]];
  }

  lemma {:induction false} LoadFlag(h: Haystack, base: nat, i: nat, n: bv8)
    requires i + 8 <= |h| && (base + i) % 8 == 0
    ensures Flag(LoadWord(h, base, i), n) != 0 <==> n in h[i..i + 8]
  {
    hide HasZeroByte, Pack, Broadcast;
    EightBytes(h, i, n);
    PackFlag(h[i], h[i + 1], h[i + 2], h[i + 3], h[i + 4], h[i + 5], h[i + 6], h[i + 7], n);
  }

  lemma {:induction false} LoadStands(h: Haystack, base: nat, i: nat)
    requires i + 8 <= |h| && (base + i) % 8 == 0
    ensures Stands(LoadWord(h, base, i), h, i)
  {
    forall n: bv8 ensures Flag(LoadWord(h, base, i), n) != 0 <==> n in h[i..i + 8] {
      LoadFlag(h, base, i, n);
    }
  }

  /** The flags are zero exactly when none of the eight bytes is a needle. */
  lemma {:induction false} FlagsMeaning(w: bv64, h: Haystack, i: nat, needles: seq<bv8>)
    requires i + 8 <= |h| && Stands(w, h, i)
    ensures Flags(w, needles) == 0 <==> NoHit(needles, h, i, i + 8)
  {
    hide Flag, NoHit;
    if needles == [] {
      NoNeedles(h, i, i + 8);
    }
    if needles != [] {
      var rest, n := needles[..|needles| - 1], needles[|needles| - 1];
      FlagsMeaning(w, h, i, rest);
      OrIsZero(Flags(w, rest), Flag(w, n));
      SplitNeedle(needles, h, i, i + 8);
    }
  }

  lemma NoNeedles(h: Haystack, lo: nat, hi: nat)
    requires lo <= hi <= |h|
    ensures NoHit([], h, lo, hi)
  {}

  lemma SplitNeedle(needles: seq<bv8>, h: Haystack, lo: nat, hi: nat)
    requires lo <= hi <= |h| && needles != []
    ensures NoHit(needles, h, lo, hi) <==>
            NoHit(needles[..|needles| - 1], h, lo, hi) && needles[|needles| - 1] !in h[lo..hi]
  {
    var rest, n := needles[..|needles| - 1], needles[|needles| - 1];
    assert needles == rest + [n];
    if NoHit(needles, h, lo, hi) {
      forall k | lo <= k < hi ensures !Hit(rest, h, k) && h[k] != n { assert !Hit(needles, h, k); }
    }
    if NoHit(rest, h, lo, hi) && n !in h[lo..hi] {
      forall k | lo <= k < hi ensures !Hit(needles, h, k) {
        assert !Hit(rest, h, k) && h[lo..hi][k - lo] == h[k];
      }
    }
  }

  /** `swarMemchr`, `swarMemchr2`, `swarMemchr3`: bytes up to an aligned address, whole words, tail. */
  method SwarFirst(needles: seq<bv8>, h: Haystack, base: nat) returns (r: int)
    ensures IsFirst(needles, h, r)
  {
    var n := |h|;
    if n == 0 { return -1; }
    var i := 0;
    while i < n && !Aligned(base + i)
      invariant 0 <= i <= n && NoHit(needles, h, 0, i)
    {
      if h[i] in needles { return i; }
      i := i + 1;
    }
    while i + 8 <= n
      invariant 0 <= i <= n && NoHit(needles, h, 0, i)
      invariant i < n ==> Aligned(base + i)
    {
      var w := LoadWord(h, base, i);
      LoadStands(h, base, i);
      FlagsMeaning(w, h, i, needles);
      if Flags(w, needles) != 0 {
        for j := 0 to 8
          invariant NoHit(needles, h, 0, i + j)
        {
          if h[i + j] in needles { return i + j; }
        }
      }
      NextAligned(base + i);
      i := i + 8;
    }
    while i < n
      invariant 0 <= i <= n && NoHit(needles, h, 0, i)
    {
      if h[i] in needles { return i; }
      i := i + 1;
    }
    return -1;
  }

  /** `swarMemrchr`, `swarMemrchr2`, `swarMemrchr3`: the same from the end, high index first. */
  method SwarLast(needles: seq<bv8>, h: Haystack, base: nat) returns (r: int)
    ensures IsLast(needles, h, r)
  {
    var n := |h|;
    if n == 0 { return -1; }
    var i := n;
    while i > 0 && !Aligned(base + i)
      invariant 0 <= i <= n && NoHit(needles, h, i, n)
    {
      i := i - 1;
      if h[i] in needles { return i; }
    }
    while i >= 8
      invariant 0 <= i <= n && NoHit(needles, h, i, n)
      invariant i > 0 ==> Aligned(base + i)
    {
      i := i - 8;
      NextAligned(base + i);
      var w := LoadWord(h, base, i);
      LoadStands(h, base, i);
      FlagsMeaning(w, h, i, needles);
      if Flags(w, needles) != 0 {
        for j := 8 downto 0
          invariant NoHit(needles, h, i + j, n)
        {
          if h[i + j] in needles { return i + j; }
        }
      }
    }
    for j := i downto 0
      invariant NoHit(needles, h, j, n)
    {
      if h[j] in needles { return j; }
    }
    return -1;
  }

  // ---------------------------------------------------------------- vector-at-a-time search

  /** A lane mask as its bits, lane 0 first. */
  type Mask = seq<bool>

  predicate Empty(mask: Mask) { true !in mask }

  function TrailingZeros(mask: Mask): (r: nat)
    ensures r <= |mask| && (forall k | 0 <= k < r :: !mask[k]) && (r < |mask| ==> mask[r])
  {
    if mask == [] || mask[0] then 0 else 1 + TrailingZeros(mask[1..])
  }

  function LeadingZeros(mask: Mask): (r: nat)
    ensures r <= |mask| && (forall k | |mask| - r <= k < |mask| :: !mask[k])
    ensures r < |mask| ==> mask[|mask| - 1 - r]
  {
    if mask == [] || mask[|mask| - 1] then 0 else 1 + LeadingZeros(mask[..|mask| - 1])
  }

  /** Lanes of the chunk at `i` equal to `n`. */
  function EqualLanes(h: Haystack, i: nat, width: nat, n: bv8): (m: Mask)
    requires i + width <= |h|
    ensures |m| == width
  {
    seq(width, k requires 0 <= k < width => h[i + k] == n)
  }

  function OrLanes(a: Mask, b: Mask): (m: Mask)
    requires |a| == |b|
    ensures |m| == |a|
  {
    seq(|a|, k requires 0 <= k < |a| => a[k] || b[k])
  }

  /** One comparison per needle, or-ed together. */
  function ChunkMask(h: Haystack, i: nat, width: nat, needles: seq<bv8>): (m: Mask)
    requires i + width <= |h|
    ensures |m| == width
    ensures forall k | 0 <= k < width :: m[k] <==> Hit(needles, h, i + k)
  {
    if needles == [] then seq(width, k => false)
    else
      var rest, n := needles[..|needles| - 1], needles[|needles| - 1];
      assert needles == rest + [n];
      OrLanes(ChunkMask(h, i, width, rest), EqualLanes(h, i, width, n))
  }

  /** SSE2, AVX2 and AVX-512 vectors. */
  predicate IsWidth(width: nat) { width == 16 || width == 32 || width == 64 }

  /** The length of `q` chunks. */
  function Chunks(q: nat, width: nat): (n: nat)
    ensures q > 0 ==> n >= width
  {
    if q == 0 then 0 else Chunks(q - 1, width) + width
  }

  lemma ChunksProduct(q: nat)
    ensures Chunks(q, 16) == 16 * q && Chunks(q, 32) == 32 * q && Chunks(q, 64) == 64 * q
  {}

  /** `n &^ (width - 1)`: the length of the whole chunks of `n` bytes. */
  method AlignDown(n: nat, width: nat) returns (a: nat, ghost q: nat)
    requires IsWidth(width)
    ensures a == Chunks(q, width) <= n < a + width
  {
    q := if width == 16 then n / 16 else if width == 32 then n / 32 else n / 64;
    a := if width == 16 then n - n % 16 else if width == 32 then n - n % 32 else n - n % 64;
    ChunksProduct(q);
  }

  lemma FirstLane(needles: seq<bv8>, h: Haystack, i: nat, width: nat)
    requires i + width <= |h|
    ensures var mask := ChunkMask(h, i, width, needles);
      if Empty(mask) then NoHit(needles, h, i, i + width)
      else
        var lane := TrailingZeros(mask);
        lane < width && Hit(needles, h, i + lane) && NoHit(needles, h, i, i + lane)
  {
    var mask := ChunkMask(h, i, width, needles);
    assert forall k | i <= k < i + width :: mask[k - i] <==> Hit(needles, h, k);
  }

  lemma {:induction false} LastLane(needles: seq<bv8>, h: Haystack, i: nat, width: nat)
    requires i + width <= |h|
    ensures var mask := ChunkMask(h, i, width, needles);
      if Empty(mask) then NoHit(needles, h, i, i + width)
      else
        var lane := width - 1 - LeadingZeros(mask);
        0 <= lane && Hit(needles, h, i + lane) && NoHit(needles, h, i + lane + 1, i + width)
  {
    var mask := ChunkMask(h, i, width, needles);
    if Empty(mask) {
      forall k | i <= k < i + width ensures !Hit(needles, h, k) { assert !mask[k - i]; }
    } else {
      var lane := width - 1 - LeadingZeros(mask);
      forall k | i + lane < k < i + width ensures !Hit(needles, h, k) { assert !mask[k - i]; }
    }
  }

  /** The SSE2, AVX2 and AVX-512 forward searches: width 16, 32 and 64. */
  method WideFirst(needles: seq<bv8>, h: Haystack, width: nat) returns (r: int)
    requires IsWidth(width)
    ensures IsFirst(needles, h, r)
  {
    var n := |h|;
    if n == 0 { return -1; }
    var i := 0;
    while i + width <= n
      invariant 0 <= i <= n && NoHit(needles, h, 0, i)
    {
      var mask := ChunkMask(h, i, width, needles);
      FirstLane(needles, h, i, width);
      if !Empty(mask) { return i + TrailingZeros(mask); }
      i := i + width;
    }
    while i < n
      invariant 0 <= i <= n && NoHit(needles, h, 0, i)
    {
      if h[i] in needles { return i; }
      i := i + 1;
    }
    return -1;
  }

  /** The byte loop of the reverse searches, over `h[lo..]`. */
  method TailLast(needles: seq<bv8>, h: Haystack, lo: nat) returns (r: int)
    requires lo <= |h|
    ensures if r == -1 then NoHit(needles, h, lo, |h|)
            else lo <= r < |h| && Hit(needles, h, r) && NoHit(needles, h, r + 1, |h|)
  {
    for j := |h| downto lo
      invariant NoHit(needles, h, j, |h|)
    {
      if h[j] in needles { return j; }
    }
    return -1;
  }

  /** One downward round: the last matching lane is `width - 1 - LeadingZeros`. */
  method ChunkLast(needles: seq<bv8>, h: Haystack, i: nat, width: nat) returns (r: int)
    requires i + width <= |h|
    ensures if r == -1 then NoHit(needles, h, i, i + width)
            else i <= r < i + width && Hit(needles, h, r) && NoHit(needles, h, r + 1, i + width)
  {
    var mask := ChunkMask(h, i, width, needles);
    LastLane(needles, h, i, width);
    return if Empty(mask) then -1 else i + width - 1 - LeadingZeros(mask);
  }

  /** The reverse searches: the partial chunk at the end byte by byte, then whole chunks
      downward. */
  method WideLast(needles: seq<bv8>, h: Haystack, width: nat) returns (r: int)
    requires IsWidth(width)
    ensures IsLast(needles, h, r)
  {
    var n := |h|;
    if n == 0 { return -1; }
    var i, q := AlignDown(n, width);
    r := TailLast(needles, h, i);
    if r != -1 { return r; }
    while i >= width
      invariant 0 <= i <= n && NoHit(needles, h, i, n) && i == Chunks(q, width)
    {
      i := i - width;
      q := q - 1;
      r := ChunkLast(needles, h, i, width);
      if r != -1 { return r; }
    }
    return -1;
  }
}
