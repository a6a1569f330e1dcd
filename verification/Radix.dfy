/**
 The numbers that byte strings and sextet strings spell, most significant digit first.

 Both text codecs of the repository regroup the bits of such a number, so what they compute is stated
 by arithmetic on the number and not by their own grouping.
 */
module Radix {

  type Byte = x: int | 0 <= x < 256

  type Sextet = x: int | 0 <= x < 64

  function Pow2(n: nat): (p: nat)
    ensures p > 0
  {
    if n == 0 then 1 else 2 * Pow2(n - 1)
  }

  function Value256(s: seq<Byte>): nat {
    if s == [] then 0 else Value256(s[..|s| - 1]) * 256 + s[|s| - 1]
  }

  function Value64(s: seq<Sextet>): nat {
    if s == [] then 0 else Value64(s[..|s| - 1]) * 64 + s[|s| - 1]
  }

  /** A byte string is determined by its length and its number. */
  lemma {:induction false} Value256Injective(a: seq<Byte>, b: seq<Byte>)
    requires |a| == |b| && Value256(a) == Value256(b)
    ensures a == b
  {
    if a != [] {
      var k := |a| - 1;
      assert a[k] == b[k];
      Value256Injective(a[..k], b[..k]);
      assert a == a[..k] + [a[k]] && b == b[..k] + [b[k]];
    }
  }

  /** A sextet string is determined by its length and its number. */
  lemma {:induction false} Value64Injective(a: seq<Sextet>, b: seq<Sextet>)
    requires |a| == |b| && Value64(a) == Value64(b)
    ensures a == b
  {
    if a != [] {
      var k := |a| - 1;
      assert a[k] == b[k];
      Value64Injective(a[..k], b[..k]);
      assert a == a[..k] + [a[k]] && b == b[..k] + [b[k]];
    }
  }

  lemma Value256Append(s: seq<Byte>, b: Byte)
    ensures Value256(s + [b]) == Value256(s) * 256 + b
  {
    assert (s + [b])[..|s|] == s;
  }

  lemma Value64Append(s: seq<Sextet>, d: Sextet)
    ensures Value64(s + [d]) == Value64(s) * 64 + d
  {
    assert (s + [d])[..|s|] == s;
  }

  lemma Value64Append2(s: seq<Sextet>, d0: Sextet, d1: Sextet)
    ensures Value64(s + [d0, d1]) == Value64(s) * 0x1000 + d0 * 64 + d1
  {
    assert s + [d0, d1] == (s + [d0]) + [d1];
    Value64Append(s, d0);
    Value64Append(s + [d0], d1);
  }

  //////////////////////////////////////////////////////////////////////////////
  // Positions within a group
  //////////////////////////////////////////////////////////////////////////////

  /** Position within a group of three bytes: n mod 3. */
  function Third(n: nat): (k: nat)
    ensures k < 3
  {
    if n == 0 then 0 else var k := Third(n - 1); if k == 2 then 0 else k + 1
  }

  /** Position within a group of four sextets: m mod 4. */
  function Quarter(m: nat): (k: nat)
    ensures k < 4
  {
    if m == 0 then 0 else var k := Quarter(m - 1); if k == 3 then 0 else k + 1
  }

  lemma {:induction false} PositionsAreRemainders(n: nat)
    ensures Third(n) == n % 3 && Quarter(n) == n % 4
  {
    if n > 0 {
      PositionsAreRemainders(n - 1);
    }
  }

  //////////////////////////////////////////////////////////////////////////////
  // From bytes to sextets
  //////////////////////////////////////////////////////////////////////////////

  /** Number of sextets that carry `n` bytes. */
  function SextetCount(n: nat): nat {
    if n == 0 then 0 else SextetCount(n - 1) + if Third(n - 1) == 0 then 2 else 1
  }

  lemma {:induction false} SextetCountTimes3(n: nat)
    ensures 3 * SextetCount(n) == 4 * n + (match Third(n) case 0 => 0 case 1 => 2 case _ => 1)
  {
    if n > 0 {
      SextetCountTimes3(n - 1);
    }
  }

  lemma SextetCountIsCeiling(n: nat)
    ensures SextetCount(n) == (4 * n + 2) / 3
  {
    SextetCountTimes3(n);
  }

  /** The bytes' number shifted left by the 0, 4 or 2 zero bits that fill up the last sextet. */
  function Filled(src: seq<Byte>): nat {
    match Third(|src|)
    case 0 => Value256(src)
    case 1 => Value256(src) * 16
    case _ => Value256(src) * 4
  }

  /** The sextets whose number is the bytes' number, filled up with zero bits at the end. */
  ghost predicate Carries(s: seq<Sextet>, src: seq<Byte>) {
    |s| == SextetCount(|src|) && Value64(s) == Filled(src)
  }

  lemma CarriesUnique(a: seq<Sextet>, b: seq<Sextet>, src: seq<Byte>)
    requires Carries(a, src) && Carries(b, src)
    ensures a == b
  {
    Value64Injective(a, b);
  }

  lemma CarriesNothing()
    ensures Carries([], [])
  {
  }

  lemma CarriesOne(s: seq<Sextet>, src: seq<Byte>, b: Byte, d0: Sextet, d1: Sextet)
    requires Carries(s, src) && Third(|src|) == 0
    requires b * 16 == d0 * 64 + d1
    ensures Carries(s + [d0, d1], src + [b])
  {
    hide Value64, Value256, SextetCount;
    Thirds(|src|);
    Value256Append(src, b);
    Value64Append2(s, d0, d1);
  }

  lemma CarriesTwo(s: seq<Sextet>, src: seq<Byte>, b0: Byte, b1: Byte, d0: Sextet, d1: Sextet, d2: Sextet)
    requires Carries(s, src) && Third(|src|) == 0
    requires b0 * 0x400 + b1 * 4 == d0 * 0x1000 + d1 * 64 + d2
    ensures Carries(s + [d0, d1, d2], src + [b0, b1])
  {
    hide Value64, Value256, SextetCount;
    Thirds(|src|);
    assert src + [b0, b1] == (src + [b0]) + [b1];
    Value256Append(src, b0);
    Value256Append(src + [b0], b1);
    assert s + [d0, d1, d2] == (s + [d0, d1]) + [d2];
    Value64Append2(s, d0, d1);
    Value64Append(s + [d0, d1], d2);
  }

  lemma CarriesThree(s: seq<Sextet>, src: seq<Byte>, b0: Byte, b1: Byte, b2: Byte,
                     d0: Sextet, d1: Sextet, d2: Sextet, d3: Sextet)
    requires Carries(s, src) && Third(|src|) == 0
    requires b0 * 0x1_0000 + b1 * 0x100 + b2 == d0 * 0x4_0000 + d1 * 0x1000 + d2 * 64 + d3
    ensures Carries(s + [d0, d1, d2, d3], src + [b0, b1, b2])
  {
    hide Value64, Value256, SextetCount;
    Thirds(|src|);
    assert src + [b0, b1, b2] == ((src + [b0]) + [b1]) + [b2];
    Value256Append(src, b0);
    Value256Append(src + [b0], b1);
    Value256Append(src + [b0] + [b1], b2);
    assert s + [d0, d1, d2, d3] == (s + [d0, d1]) + [d2, d3];
    Value64Append2(s, d0, d1);
    Value64Append2(s + [d0, d1], d2, d3);
  }

  /** The sextets of a whole number of groups, and those of one more byte. */
  function WithOne(s: seq<Sextet>, src: seq<Byte>, b: Byte): (t: seq<Sextet>)
    requires Carries(s, src) && Third(|src|) == 0
    ensures Carries(t, src + [b])
  {
    SplitOne(b);
    CarriesOne(s, src, b, b / 4, b % 4 * 16);
    s + [b / 4, b % 4 * 16]
  }

  function WithTwo(s: seq<Sextet>, src: seq<Byte>, b0: Byte, b1: Byte): (t: seq<Sextet>)
    requires Carries(s, src) && Third(|src|) == 0
    ensures Carries(t, src + [b0, b1])
  {
    SplitTwo(b0, b1);
    CarriesTwo(s, src, b0, b1, b0 / 4, b0 % 4 * 16 + b1 / 16, b1 % 16 * 4);
    s + [b0 / 4, b0 % 4 * 16 + b1 / 16, b1 % 16 * 4]
  }

  function WithThree(s: seq<Sextet>, src: seq<Byte>, b0: Byte, b1: Byte, b2: Byte): (t: seq<Sextet>)
    requires Carries(s, src) && Third(|src|) == 0
    ensures Carries(t, src + [b0, b1, b2])
  {
    SplitThree(b0, b1, b2);
    CarriesThree(s, src, b0, b1, b2, b0 / 4, b0 % 4 * 16 + b1 / 16, b1 % 16 * 4 + b2 / 64, b2 % 64);
    s + [b0 / 4, b0 % 4 * 16 + b1 / 16, b1 % 16 * 4 + b2 / 64, b2 % 64]
  }

  /** The sextets that carry `src`; `CarriesUnique` says there is only one such string. */
  function Sextets(src: seq<Byte>): (s: seq<Sextet>)
    ensures Carries(s, src)
  {
    var n := |src|;
    Shorter(n);
    if n == 0 then []
    else if Third(n) == 1 then
      assert src == src[..n - 1] + [src[n - 1]];
      WithOne(Sextets(src[..n - 1]), src[..n - 1], src[n - 1])
    else if Third(n) == 2 then
      assert src == src[..n - 2] + [src[n - 2], src[n - 1]];
      WithTwo(Sextets(src[..n - 2]), src[..n - 2], src[n - 2], src[n - 1])
    else
      assert src == src[..n - 3] + [src[n - 3], src[n - 2], src[n - 1]];
      WithThree(Sextets(src[..n - 3]), src[..n - 3], src[n - 3], src[n - 2], src[n - 1])
  }

  lemma Shorter(n: nat)
    ensures Third(n) == 1 ==> n >= 1 && Third(n - 1) == 0
    ensures Third(n) == 2 ==> n >= 2 && Third(n - 2) == 0
    ensures Third(n) == 0 && n > 0 ==> n >= 3 && Third(n - 3) == 0
  {
    if n >= 2 {
      assert Third(n) == if Third(n - 1) == 2 then 0 else Third(n - 1) + 1;
      assert Third(n - 1) == if Third(n - 2) == 2 then 0 else Third(n - 2) + 1;
    }
  }

  lemma SplitOne(b: Byte)
    ensures b / 4 < 64 && b % 4 * 16 < 64 && b * 16 == b / 4 * 64 + b % 4 * 16
  {
  }

  lemma SplitTwo(b0: Byte, b1: Byte)
    ensures b0 / 4 < 64 && b0 % 4 * 16 + b1 / 16 < 64 && b1 % 16 * 4 < 64
    ensures b0 * 0x400 + b1 * 4 == b0 / 4 * 0x1000 + (b0 % 4 * 16 + b1 / 16) * 64 + b1 % 16 * 4
  {
  }

  lemma SplitThree(b0: Byte, b1: Byte, b2: Byte)
    ensures b0 / 4 < 64 && b0 % 4 * 16 + b1 / 16 < 64 && b1 % 16 * 4 + b2 / 64 < 64 && b2 % 64 < 64
    ensures b0 * 0x1_0000 + b1 * 0x100 + b2
            == b0 / 4 * 0x4_0000 + (b0 % 4 * 16 + b1 / 16) * 0x1000 + (b1 % 16 * 4 + b2 / 64) * 64 + b2 % 64
  {
  }

  lemma Thirds(n: nat)
    requires Third(n) == 0
    ensures Third(n + 1) == 1 && Third(n + 2) == 2 && Third(n + 3) == 0
    ensures SextetCount(n + 1) == SextetCount(n) + 2
    ensures SextetCount(n + 2) == SextetCount(n) + 3
    ensures SextetCount(n + 3) == SextetCount(n) + 4
  {
  }

  /** The `k`-th sextet of a 24-bit word: `(v >> (18 - 6 * k)) & 0x3F`. */
  function Part(v: nat, k: nat): Sextet {
    match k
    case 0 => v / 0x4_0000 % 64
    case 1 => v / 0x1000 % 64
    case 2 => v / 0x40 % 64
    case _ => v % 64
  }

  lemma SplitWord(v: nat)
    requires v < 0x100_0000
    ensures v == Part(v, 0) * 0x4_0000 + Part(v, 1) * 0x1000 + Part(v, 2) * 0x40 + Part(v, 3)
  {
    assert v / 0x40 / 64 == v / 0x1000 && v / 0x1000 / 64 == v / 0x4_0000;
  }

  /** The 24-bit word of the group that starts at byte `i`, missing bytes taken as zero. */
  function GroupWord(src: seq<Byte>, i: nat): (v: nat)
    requires i < |src|
    ensures v < 0x100_0000
  {
    var b0: int := src[i];
    var b1: int := if i + 1 < |src| then src[i + 1] else 0;
    var b2: int := if i + 2 < |src| then src[i + 2] else 0;
    b0 * 0x1_0000 + b1 * 0x100 + b2
  }

  /** The sextets that a group of `left` or more bytes contributes. */
  function GroupSextets(v: nat, left: nat): (s: seq<Sextet>)
    requires left > 0
    ensures |s| == if left < 3 then left + 1 else 4
  {
    [Part(v, 0), Part(v, 1), Part(v, 2), Part(v, 3)][..if left < 3 then left + 1 else 4]
  }

  /** An encoder that takes one group at a time ends up with the sextets that carry all bytes. */
  lemma CarriesGroup(src: seq<Byte>, i: nat, s: seq<Sextet>)
    requires i < |src| && Third(i) == 0 && Carries(s, src[..i])
    ensures var v, left := GroupWord(src, i), |src| - i;
            && Carries(s + GroupSextets(v, left), if left < 3 then src else src[..i + 3])
            && (left < 3 ==> Part(v, 3) == 0)
            && (left < 2 ==> Part(v, 2) == 0)
  {
    var v, left := GroupWord(src, i), |src| - i;
    SplitWord(v);
    CarriesParts(src, i, s, v, Part(v, 0), Part(v, 1), Part(v, 2), Part(v, 3));
  }

  lemma CarriesParts(src: seq<Byte>, i: nat, s: seq<Sextet>, v: nat, d0: Sextet, d1: Sextet, d2: Sextet, d3: Sextet)
    requires i < |src| && Third(i) == 0 && Carries(s, src[..i])
    requires v == GroupWord(src, i) == d0 * 0x4_0000 + d1 * 0x1000 + d2 * 0x40 + d3
    ensures var left := |src| - i;
            && Carries(s + [d0, d1, d2, d3][..if left < 3 then left + 1 else 4], if left < 3 then src else src[..i + 3])
            && (left < 3 ==> d3 == 0)
            && (left < 2 ==> d2 == 0)
  {
    hide Carries;
    if i + 3 <= |src| {
      assert src[..i + 3] == src[..i] + [src[i], src[i + 1], src[i + 2]];
      assert [d0, d1, d2, d3][..4] == [d0, d1, d2, d3];
      CarriesThree(s, src[..i], src[i], src[i + 1], src[i + 2], d0, d1, d2, d3);
    } else if i + 2 == |src| {
      assert src == src[..i] + [src[i], src[i + 1]];
      assert [d0, d1, d2, d3][..3] == [d0, d1, d2];
      CarriesTwo(s, src[..i], src[i], src[i + 1], d0, d1, d2);
    } else {
      assert src == src[..i] + [src[i]];
      assert [d0, d1, d2, d3][..2] == [d0, d1];
      CarriesOne(s, src[..i], src[i], d0, d1);
    }
  }

  //////////////////////////////////////////////////////////////////////////////
  // From sextets to bytes
  //////////////////////////////////////////////////////////////////////////////

  /** Bytes filled by `m` sextets. */
  function ByteCount(m: nat): nat {
    if m == 0 then 0 else ByteCount(m - 1) + if Quarter(m - 1) == 0 then 0 else 1
  }

  /** Bits of `m` sextets that fill no byte. */
  function SpareBits(m: nat): nat {
    match Quarter(m) case 0 => 0 case 1 => 6 case 2 => 4 case _ => 2
  }

  lemma {:induction false} BitsConserved(m: nat)
    ensures 8 * ByteCount(m) + SpareBits(m) == 6 * m
  {
    if m > 0 {
      BitsConserved(m - 1);
    }
  }

  lemma {:induction false} ByteCountMonotone(a: nat, b: nat)
    requires a <= b
    ensures ByteCount(a) <= ByteCount(b)
    decreases b - a
  {
    if a < b {
      ByteCountMonotone(a, b - 1);
    }
  }

  /** `v` is `top` followed by the 6m mod 8 bits that do not fill a byte, whose number is `rest`. */
  predicate Cut(v: nat, m: nat, top: nat, rest: nat) {
    match Quarter(m)
    case 0 => v == top && rest == 0
    case 1 => v == top * 64 + rest && rest < 64
    case 2 => v == top * 16 + rest && rest < 16
    case _ => v == top * 4 + rest && rest < 4
  }

  /** `b` holds exactly the top 8 * floor(6m/8) bits of the number spelled by the `m` sextets `s`. */
  ghost predicate TopBits(b: seq<Byte>, s: seq<Sextet>, rest: nat) {
    |b| == ByteCount(|s|) && Cut(Value64(s), |s|, Value256(b), rest)
  }

  lemma TopBitsUnique(a: seq<Byte>, b: seq<Byte>, s: seq<Sextet>, p: nat, q: nat)
    requires TopBits(a, s, p) && TopBits(b, s, q)
    ensures a == b && p == q
  {
    assert Value256(a) == Value256(b);
    Value256Injective(a, b);
  }

  /** The byte completed by a sextet that follows `rest`, and the rest after it. */
  predicate Completes(rest: nat, d: Sextet, m: nat, b: Byte, rest': nat) {
    var y := rest * 64 + d;
    match Quarter(m)
    case 1 => y == b * 16 + rest' && rest' < 16
    case 2 => y == b * 4 + rest' && rest' < 4
    case 3 => y == b && rest' == 0
    case _ => false
  }

  lemma Fourths(m: nat)
    ensures Quarter(m + 1) == if Quarter(m) == 3 then 0 else Quarter(m) + 1
    ensures ByteCount(m + 1) == ByteCount(m) + if Quarter(m) == 0 then 0 else 1
  {
  }

  lemma TopBitsFirst(bytes: seq<Byte>, s: seq<Sextet>, rest: nat, d: Sextet)
    requires TopBits(bytes, s, rest) && Quarter(|s|) == 0
    ensures TopBits(bytes, s + [d], d)
  {
    Fourths(|s|);
    Value64Append(s, d);
  }

  lemma TopBitsNext(bytes: seq<Byte>, s: seq<Sextet>, rest: nat, d: Sextet, b: Byte, rest': nat)
    requires TopBits(bytes, s, rest) && Completes(rest, d, |s|, b, rest')
    ensures TopBits(bytes + [b], s + [d], rest')
  {
    Fourths(|s|);
    Value64Append(s, d);
    Value256Append(bytes, b);
  }

  function NextByte(rest: nat, d: Sextet, m: nat): int {
    var y := rest * 64 + d;
    match Quarter(m)
    case 1 => y / 16
    case 2 => y / 4
    case _ => y
  }

  /** The bits of the `m`-th sextet that fill no byte. */
  function Leftover(d: Sextet, m: nat): nat {
    match Quarter(m)
    case 0 => 0
    case 1 => d
    case 2 => d % 16
    case _ => d % 4
  }

  lemma NextByteCompletes(v: nat, m: nat, top: nat, rest: nat, d: Sextet)
    requires Cut(v, m, top, rest) && Quarter(m) != 0
    ensures 0 <= NextByte(rest, d, m) < 256
    ensures Completes(rest, d, m, NextByte(rest, d, m), Leftover(d, m + 1))
  {
    Fourths(m);
    LowBits(rest, d);
  }

  lemma LowBits(rest: nat, d: Sextet)
    ensures var y := rest * 64 + d; y == y / 16 * 16 + d % 16 && y == y / 4 * 4 + d % 4
  {
    assert d == d / 16 * 16 + d % 16 && d == d / 4 * 4 + d % 4;
    assert (rest * 64 + d) / 16 == rest * 4 + d / 16;
    assert (rest * 64 + d) / 4 == rest * 16 + d / 4;
  }

  function Rest(s: seq<Sextet>): nat {
    if s == [] then 0 else Leftover(s[|s| - 1], |s|)
  }

  /** The bytes after one more sextet. */
  function WithSextet(bytes: seq<Byte>, s: seq<Sextet>, d: Sextet): (b: seq<Byte>)
    requires TopBits(bytes, s, Rest(s))
    ensures TopBits(b, s + [d], Rest(s + [d]))
  {
    var m := |s|;
    RestAppend(s, d);
    if Quarter(m) == 0 then
      TopBitsFirst(bytes, s, Rest(s), d);
      Fourths(m);
      bytes
    else
      NextByteCompletes(Value64(s), m, Value256(bytes), Rest(s), d);
      TopBitsNext(bytes, s, Rest(s), d, NextByte(Rest(s), d, m), Leftover(d, m + 1));
      bytes + [NextByte(Rest(s), d, m)]
  }

  lemma RestAppend(s: seq<Sextet>, d: Sextet)
    ensures Rest(s + [d]) == Leftover(d, |s| + 1)
  {
  }

  /** The bytes a sextet string decodes to: the top bits of its number. */
  function Bytes(s: seq<Sextet>): (b: seq<Byte>)
    ensures TopBits(b, s, Rest(s))
  {
    if s == [] then [] else
      var k := |s| - 1;
      assert s == s[..k] + [s[k]];
      WithSextet(Bytes(s[..k]), s[..k], s[k])
  }

  lemma BytesDetermined(s: seq<Sextet>, b: seq<Byte>, rest: nat)
    requires TopBits(b, s, rest)
    ensures Bytes(s) == b
  {
    hide TopBits;
    TopBitsUnique(Bytes(s), b, s, Rest(s), rest);
  }

  /** Four sextets and the three bytes of the same 24-bit word extend a whole number of groups. */
  lemma TopBitsFour(b: seq<Byte>, s: seq<Sextet>, rest: nat,
                    d0: Sextet, d1: Sextet, d2: Sextet, d3: Sextet, b0: Byte, b1: Byte, b2: Byte)
    requires TopBits(b, s, rest) && Quarter(|s|) == 0
    requires d0 * 0x4_0000 + d1 * 0x1000 + d2 * 0x40 + d3 == b0 * 0x1_0000 + b1 * 0x100 + b2
    ensures TopBits(b + [b0, b1, b2], s + [d0, d1, d2, d3], 0)
  {
    hide Value64, Value256;
    FourMore(|s|);
    assert s + [d0, d1, d2, d3] == (s + [d0, d1]) + [d2, d3];
    Value64Append2(s, d0, d1);
    Value64Append2(s + [d0, d1], d2, d3);
    assert b + [b0, b1, b2] == ((b + [b0]) + [b1]) + [b2];
    Value256Append(b, b0);
    Value256Append(b + [b0], b1);
    Value256Append(b + [b0] + [b1], b2);
  }

  lemma TopBitsThree(b: seq<Byte>, s: seq<Sextet>, rest: nat,
                     d0: Sextet, d1: Sextet, d2: Sextet, b0: Byte, b1: Byte, rest': nat)
    requires TopBits(b, s, rest) && Quarter(|s|) == 0 && rest' < 4
    requires d0 * 0x1000 + d1 * 0x40 + d2 == b0 * 0x400 + b1 * 4 + rest'
    ensures TopBits(b + [b0, b1], s + [d0, d1, d2], rest')
  {
    hide Value64, Value256;
    Fourths(|s|);
    Fourths(|s| + 1);
    Fourths(|s| + 2);
    assert s + [d0, d1, d2] == (s + [d0, d1]) + [d2];
    Value64Append2(s, d0, d1);
    Value64Append(s + [d0, d1], d2);
    assert b + [b0, b1] == (b + [b0]) + [b1];
    Value256Append(b, b0);
    Value256Append(b + [b0], b1);
  }

  lemma TopBitsTwo(b: seq<Byte>, s: seq<Sextet>, rest: nat, d0: Sextet, d1: Sextet, b0: Byte, rest': nat)
    requires TopBits(b, s, rest) && Quarter(|s|) == 0 && rest' < 16
    requires d0 * 0x40 + d1 == b0 * 16 + rest'
    ensures TopBits(b + [b0], s + [d0, d1], rest')
  {
    hide Value64, Value256;
    Fourths(|s|);
    Fourths(|s| + 1);
    Value64Append2(s, d0, d1);
    Value256Append(b, b0);
  }

  lemma BytesAppend(s: seq<Sextet>, d: Sextet)
    ensures Rest(s + [d]) == Leftover(d, |s| + 1)
    ensures Bytes(s + [d]) == if Quarter(|s|) == 0 then Bytes(s) else Bytes(s) + [NextByte(Rest(s), d, |s|)]
  {
    assert (s + [d])[..|s|] == s;
  }

  /** Decoding inverts encoding: the filler bits are exactly the bits that fill no byte. */
  lemma BytesOfCarried(s: seq<Sextet>, src: seq<Byte>)
    requires Carries(s, src)
    ensures Bytes(s) == src && Rest(s) == 0 && Quarter(|s|) != 1
  {
    CountsAgree(|src|);
    TopBitsUnique(Bytes(s), src, s, Rest(s), 0);
  }

  lemma FourMore(m: nat)
    ensures ByteCount(m + 4) == ByteCount(m) + 3 && Quarter(m + 4) == Quarter(m)
  {
    Fourths(m);
    Fourths(m + 1);
    Fourths(m + 2);
    Fourths(m + 3);
  }

  /** The two counts undo each other as long as a sextet string has a possible length. */
  lemma {:induction false} CountsAgree(n: nat)
    ensures ByteCount(SextetCount(n)) == n
    ensures Quarter(SextetCount(n)) == (match Third(n) case 0 => 0 case 1 => 2 case _ => 3)
  {
    if n > 0 {
      CountsAgree(n - 1);
      Fourths(SextetCount(n - 1));
      Fourths(SextetCount(n - 1) + 1);
    }
  }

  /** Encoding inverts decoding exactly when the string has a possible length and no bit is left over. */
  lemma CarriesBytes(s: seq<Sextet>)
    ensures Carries(s, Bytes(s)) <==> Quarter(|s|) != 1 && Rest(s) == 0
  {
    if Carries(s, Bytes(s)) {
      BytesOfCarried(s, Bytes(s));
    } else if Quarter(|s|) != 1 && Rest(s) == 0 {
      PossibleLength(|s|);
    }
  }

  lemma {:induction false} PossibleLength(m: nat)
    requires Quarter(m) != 1
    ensures SextetCount(ByteCount(m)) == m
    ensures Third(ByteCount(m)) == (match Quarter(m) case 0 => 0 case 2 => 1 case _ => 2)
  {
    if m > 0 {
      Fourths(m - 1);
      if Quarter(m) == 2 {
        Fourths(m - 2);
        PossibleLength(m - 2);
      } else {
        PossibleLength(m - 1);
      }
    }
  }
}
