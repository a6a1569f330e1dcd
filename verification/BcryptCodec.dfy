/**
 The private Base64 of bcrypt hashes, after `src/crypto/bcrypt.c:76-104` and `300-355`.

 It has its own alphabet, writes whole groups of four characters even for a partial last group, and
 decodes unknown characters as zero.
 */
module BcryptCodec {
  import opened Ascii
  import opened Radix

  function Table(): (t: string)
    ensures |t| == 64
  {
    "./" + Upper() + Lower() + Digits()
  }

  function Char(d: Sextet): char {
    Table()[d]
  }

  /** `b64_decode_char`. */
  function DecodeChar(c: char): (v: int)
    ensures -1 <= v < 64
  {
    if c == '.' then 0
    else if c == '/' then 1
    else if 'A' <= c <= 'Z' then c as int - 'A' as int + 2
    else if 'a' <= c <= 'z' then c as int - 'a' as int + 28
    else if '0' <= c <= '9' then c as int - '0' as int + 54
    else -1
  }

  lemma TableEntry(d: Sextet)
    ensures Char(d) as int
            == if d == 0 then '.' as int
               else if d == 1 then '/' as int
               else if d < 28 then 'A' as int + (d - 2)
               else if d < 54 then 'a' as int + (d - 28)
               else '0' as int + (d - 54)
  {
    hide Upper, Lower, Digits;
    if 2 <= d < 28 {
      Letter(d - 2);
    } else if 28 <= d < 54 {
      Letter(d - 28);
    } else if 54 <= d {
      Digit(d - 54);
    }
  }

  lemma DecodeCharOfChar(d: Sextet)
    ensures DecodeChar(Char(d)) == d && Char(d) != '\0'
    ensures d == 0 <==> Char(d) == '.'
  {
    hide Char;
    TableEntry(d);
  }

  /** No other character is accepted. */
  lemma CharOfDecodeChar(c: char)
    requires DecodeChar(c) >= 0
    ensures Char(DecodeChar(c)) == c
  {
    TableEntry(DecodeChar(c));
  }

  //////////////////////////////////////////////////////////////////////////////
  // Encoding
  //////////////////////////////////////////////////////////////////////////////

  function Text(s: seq<Sextet>): (t: string)
    ensures |t| == |s|
  {
    seq(|s|, i requires 0 <= i < |s| => Char(s[i]))
  }

  /** The characters written for the sextets missing from a partial last group. */
  function Dots(n: nat): string {
    match Third(n) case 0 => "" case 1 => ".." case _ => "."
  }

  function Encoded(src: seq<Byte>): string {
    Text(Sextets(src)) + Dots(|src|)
  }

  /** The cursors meet the end of the text exactly when the bytes run out. */
  lemma GroupFits(i: nat, j: nat, len: nat, total: nat)
    requires i < len && Third(i) == 0 && 3 * j == 4 * i
    requires total == SextetCount(len) + |Dots(len)|
    ensures Third(i + 3) == 0 && if i + 3 >= len then j + 4 == total else j + 4 < total
  {
    Thirds(i);
    SextetCountTimes3(len);
  }

  /** The loop over the bytes of one group, followed by the shift that lines a partial group up. */
  method PackGroup(src: seq<Byte>, i: nat) returns (n: nat)
    requires i < |src|
    ensures n == GroupWord(src, i)
  {
    n := 0;
    var remaining := 0;
    var j := 0;
    while j < 3 && i + j < |src|
      invariant 0 <= j <= 3 && remaining == j && i + j <= |src|
      invariant j == 0 ==> n == 0
      invariant j == 1 ==> n == src[i]
      invariant j == 2 ==> n == Pair(src[i], src[i + 1])
      invariant j == 3 ==> n == Pair(src[i], src[i + 1]) * 256 + src[i + 2]
    {
      n := n * 256 + src[i + j];
      remaining := remaining + 1;
      j := j + 1;
    }
    if remaining == 1 {
      n := n * 0x1_0000;
    } else if remaining == 2 {
      n := n * 0x100;
    }
  }

  function Pair(b0: int, b1: int): int {
    b0 * 256 + b1
  }

  /** The four characters written for a group. */
  function Group(v: nat): (g: string)
    ensures |g| == 4
  {
    [Char(Part(v, 0)), Char(Part(v, 1)), Char(Part(v, 2)), Char(Part(v, 3))]
  }

  lemma GroupText(s: seq<Sextet>, v: nat, n: nat, i: nat)
    requires i < n && Third(i) == 0
    requires n - i < 3 ==> Part(v, 3) == 0
    requires n - i < 2 ==> Part(v, 2) == 0
    ensures Text(s) + Group(v) == Text(s + GroupSextets(v, n - i)) + if n - i < 3 then Dots(n) else ""
  {
    hide Char, Part;
    Thirds(i);
    DecodeCharOfChar(0);
  }

  /** The loop over the four characters of one group. */
  method WriteGroup(out: array<char>, j: nat, v: nat)
    requires j + 4 <= out.Length
    modifies out
    ensures out[..j + 4] == old(out[..j]) + Group(v)
    ensures forall k :: j + 4 <= k < out.Length ==> out[k] == old(out[k])
  {
    hide Part;
    var k := 0;
    while k < 4
      invariant 0 <= k <= 4
      invariant forall x :: 0 <= x < k ==> out[j + x] == Group(v)[x]
      invariant forall x :: (0 <= x < j || j + 4 <= x < out.Length) ==> out[x] == old(out[x])
    {
      out[j + k] := Table()[Part(v, k)];
      k := k + 1;
    }
  }

  lemma Reassociate(a: string, b: string, c: string)
    ensures (a + (b + "")) + c == a + (b + c)
  {
  }

  /** `encode_b64`, writing at offset `at`. */
  method Encode(src: seq<Byte>, out: array<char>, at: nat)
    requires at + |Encoded(src)| <= out.Length
    modifies out
    ensures out[..at + |Encoded(src)|] == old(out[..at]) + Encoded(src)
    ensures forall k :: at + |Encoded(src)| <= k < out.Length ==> out[k] == old(out[k])
  {
    hide Carries, Text, Dots, Encoded, GroupWord, GroupSextets, Group;
    ghost var total := |Encoded(src)|;
    var len := |src|;
    var i, j := 0, 0;
    ghost var s: seq<Sextet> := [];
    CarriesNothing();
    EncodedNonEmpty(src);
    assert src[..0] == [];
    while i < len
      invariant Third(i) == 0 && 0 <= i <= len + 2
      invariant 3 * j == 4 * i && if i >= len then j == total else j < total
      invariant Carries(s, if i <= len then src[..i] else src)
      invariant out[..at + j] == old(out[..at]) + (Text(s) + if i <= len then "" else Dots(len))
      invariant forall k :: at + total <= k < out.Length ==> out[k] == old(out[k])
    {
      GroupFits(i, j, len, total);
      CarriesGroup(src, i, s);
      var v := PackGroup(src, i);
      GroupText(s, v, len, i);
      Reassociate(old(out[..at]), Text(s), Group(v));
      WriteGroup(out, at + j, v);
      s := s + GroupSextets(v, len - i);
      i, j := i + 3, j + 4;
    }
    if i == len {
      assert src[..i] == src;
    }
    CarriesUnique(s, Sextets(src), src);
  }

  lemma EncodedNonEmpty(src: seq<Byte>)
    ensures |Encoded(src)| == SextetCount(|src|) + |Dots(|src|)|
    ensures Encoded(src) == Text(Sextets(src)) + Dots(|src|)
    ensures |Encoded(src)| == 0 <==> src == []
    ensures Third(0) == 0
  {
    SextetCountTimes3(|src|);
  }

  //////////////////////////////////////////////////////////////////////////////
  // Decoding
  //////////////////////////////////////////////////////////////////////////////

  /** The value used for a character: unknown characters count as zero. */
  function Digit6(c: char): Sextet {
    if DecodeChar(c) < 0 then 0 else DecodeChar(c)
  }

  function Digits6(t: string): (s: seq<Sextet>)
    ensures |s| == |t|
  {
    seq(|t|, i requires 0 <= i < |t| => Digit6(t[i]))
  }

  /** The byte made of a lone character's six bits. */
  function Alone(d: int): int {
    d * 4
  }

  /** A character outside the table counts as the digit 0. */
  lemma UnknownIsZero(c: char)
    ensures Digit6(c) == if DecodeChar(c) >= 0 then DecodeChar(c) else 0
  {
  }

  /** The decoded bytes; a lone last character still yields one byte, from its six bits. */
  function Decoded(t: string): (b: seq<Byte>) {
    var s := Digits6(t);
    if Quarter(|t|) == 1 then Bytes(s) + [Alone(s[|s| - 1])] else Bytes(s)
  }

  /** Bytes `(n >> 16) & 0xFF`, `(n >> 8) & 0xFF` and `n & 0xFF` of a 24-bit word. */
  function Octet(n: nat, k: nat): Byte {
    match k
    case 0 => n / 0x1_0000 % 256
    case 1 => n / 0x100 % 256
    case _ => n % 256
  }

  lemma SplitOctets(n: nat)
    requires n < 0x100_0000
    ensures n == Octet(n, 0) * 0x1_0000 + Octet(n, 1) * 0x100 + Octet(n, 2)
  {
    assert n / 0x100 / 256 == n / 0x1_0000;
  }

  function Word(d0: Sextet, d1: Sextet, d2: Sextet, d3: Sextet): (n: nat)
    ensures n < 0x100_0000
  {
    d0 * 0x4_0000 + d1 * 0x1000 + d2 * 0x40 + d3
  }

  lemma WholeGroup(s: seq<Sextet>, d0: Sextet, d1: Sextet, d2: Sextet, d3: Sextet)
    requires Quarter(|s|) == 0
    ensures var n := Word(d0, d1, d2, d3);
            Bytes(s + [d0, d1, d2, d3]) == Bytes(s) + [Octet(n, 0), Octet(n, 1), Octet(n, 2)]
  {
    hide Bytes, TopBits, Octet;
    var n := Word(d0, d1, d2, d3);
    SplitOctets(n);
    TopBitsFour(Bytes(s), s, Rest(s), d0, d1, d2, d3, Octet(n, 0), Octet(n, 1), Octet(n, 2));
    BytesDetermined(s + [d0, d1, d2, d3], Bytes(s) + [Octet(n, 0), Octet(n, 1), Octet(n, 2)], 0);
  }

  /** What the code after the loop appends for one, two or three remaining characters. */
  lemma PartialGroup(s: seq<Sextet>, d: seq<Sextet>)
    requires Quarter(|s|) == 0 && 1 <= |d| <= 3
    ensures Quarter(|s + d|) == |d|
    ensures |d| == 1 ==> Bytes(s + d) == Bytes(s) && Octet(Word(d[0], 0, 0, 0), 0) == Alone(d[0])
    ensures |d| == 2 ==> Bytes(s + d) == Bytes(s) + [Octet(Word(d[0], d[1], 0, 0), 0)]
    ensures |d| == 3 ==>
              Bytes(s + d) == Bytes(s) + [Octet(Word(d[0], d[1], d[2], 0), 0), Octet(Word(d[0], d[1], d[2], 0), 1)]
  {
    hide Bytes, TopBits, Octet;
    Fourths(|s|);
    Fourths(|s| + 1);
    Fourths(|s| + 2);
    if |d| == 1 {
      assert s + d == s + [d[0]];
      BytesAppend(s, d[0]);
      OneOctet(d[0]);
    } else if |d| == 2 {
      assert d == [d[0], d[1]];
      var b, r := TwoOctets(d[0], d[1]);
      TopBitsTwo(Bytes(s), s, Rest(s), d[0], d[1], b, r);
      BytesDetermined(s + d, Bytes(s) + [b], r);
    } else {
      assert d == [d[0], d[1], d[2]];
      var b0, b1, r := ThreeOctets(d[0], d[1], d[2]);
      TopBitsThree(Bytes(s), s, Rest(s), d[0], d[1], d[2], b0, b1, r);
      BytesDetermined(s + d, Bytes(s) + [b0, b1], r);
    }
  }

  lemma OneOctet(d0: Sextet)
    ensures Octet(Word(d0, 0, 0, 0), 0) == Alone(d0)
  {
    hide Octet;
    SplitOctets(Word(d0, 0, 0, 0));
  }

  lemma TwoOctets(d0: Sextet, d1: Sextet) returns (b: Byte, r: nat)
    ensures b == Octet(Word(d0, d1, 0, 0), 0)
    ensures d0 * 0x40 + d1 == b * 16 + r && r < 16
  {
    hide Octet;
    var n := Word(d0, d1, 0, 0);
    SplitOctets(n);
    b := Octet(n, 0);
    r := d0 * 0x40 + d1 - b * 16;
  }

  lemma ThreeOctets(d0: Sextet, d1: Sextet, d2: Sextet) returns (b0: Byte, b1: Byte, r: nat)
    ensures b0 == Octet(Word(d0, d1, d2, 0), 0) && b1 == Octet(Word(d0, d1, d2, 0), 1)
    ensures d0 * 0x1000 + d1 * 0x40 + d2 == b0 * 0x400 + b1 * 4 + r && r < 4
  {
    hide Octet;
    var n := Word(d0, d1, d2, 0);
    SplitOctets(n);
    b0, b1 := Octet(n, 0), Octet(n, 1);
    r := d0 * 0x1000 + d1 * 0x40 + d2 - b0 * 0x400 - b1 * 4;
  }

  /** The values of the characters from `i` on, missing ones zero. */
  method Fetch(t: string, i: nat, count: nat) returns (d: array<Sextet>)
    requires count <= 4 && i + count <= |t|
    ensures fresh(d) && d.Length == 4
    ensures forall k :: 0 <= k < 4 ==> d[k] == if k < count then Digit6(t[i + k]) else 0
  {
    d := new Sextet[4](_ => 0);
    var j := 0;
    while j < count
      invariant 0 <= j <= count
      invariant forall k :: 0 <= k < 4 ==> d[k] == if k < j then Digit6(t[i + k]) else 0
    {
      var v := DecodeChar(t[i + j]);
      if v < 0 {
        v := 0;
      }
      d[j] := v;
      j := j + 1;
    }
  }

  /** Stores one decoded group. */
  method StoreOctets(out: array<Byte>, at: nat, n: nat, count: nat)
    requires count <= 3 && at + count <= out.Length
    modifies out
    ensures out[..at + count] == old(out[..at]) + [Octet(n, 0), Octet(n, 1), Octet(n, 2)][..count]
    ensures forall k :: at + count <= k < out.Length ==> out[k] == old(out[k])
  {
    hide Octet;
    if count >= 1 { out[at] := Octet(n, 0); }
    if count >= 2 { out[at + 1] := Octet(n, 1); }
    if count >= 3 { out[at + 2] := Octet(n, 2); }
  }

  lemma DigitsSplit(t: string, i: nat, count: nat)
    requires i + count <= |t|
    ensures Digits6(t[..i + count]) == Digits6(t[..i]) + Digits6(t[i..i + count])
  {
  }

  /** One turn of the decoder's loop: four characters, three bytes. */
  lemma WholeGroupDecoded(t: string, i: nat, d0: Sextet, d1: Sextet, d2: Sextet, d3: Sextet)
    requires i + 4 <= |t| && Quarter(i) == 0
    requires d0 == Digit6(t[i]) && d1 == Digit6(t[i + 1]) && d2 == Digit6(t[i + 2]) && d3 == Digit6(t[i + 3])
    ensures Quarter(i + 4) == 0
    ensures var n := Word(d0, d1, d2, d3);
            Decoded(t[..i + 4]) == Decoded(t[..i]) + [Octet(n, 0), Octet(n, 1), Octet(n, 2)]
    ensures |Decoded(t[..i + 4])| <= |Decoded(t)|
  {
    hide Bytes, Octet, Word, Digits6, Digit6, Quarter;
    FourMore(i);
    FourDigits(t, i);
    WholeGroup(Digits6(t[..i]), d0, d1, d2, d3);
    DecodedMonotone(t, i + 4);
  }

  lemma FourDigits(t: string, i: nat)
    requires i + 4 <= |t|
    ensures Digits6(t[..i + 4])
         == Digits6(t[..i]) + [Digit6(t[i]), Digit6(t[i + 1]), Digit6(t[i + 2]), Digit6(t[i + 3])]
  {
    hide Digit6;
    DigitsSplit(t, i, 4);
  }

  lemma DecodedMonotone(t: string, i: nat)
    requires i <= |t| && Quarter(i) == 0
    ensures |Decoded(t[..i])| <= |Decoded(t)|
  {
    hide Digits6, Bytes;
    DecodedLength(t[..i]);
    DecodedLength(t);
    ByteCountMonotone(i, |t|);
  }

  lemma DecodedLength(t: string)
    ensures |Decoded(t)| == ByteCount(|t|) + if Quarter(|t|) == 1 then 1 else 0
  {
  }

  /** The code after the loop: the bytes of one to three remaining characters. */
  lemma PartialGroupDecoded(t: string, i: nat, n: nat, d0: Sextet, d1: Sextet, d2: Sextet)
    requires i + n == |t| && 1 <= n <= 3 && Quarter(i) == 0
    requires d0 == Digit6(t[i]) && (n > 1 ==> d1 == Digit6(t[i + 1])) && (n > 2 ==> d2 == Digit6(t[i + 2]))
    requires n < 2 ==> d1 == 0
    requires n < 3 ==> d2 == 0
    ensures var w := Word(d0, d1, d2, 0);
            Decoded(t) == Decoded(t[..i]) + [Octet(w, 0), Octet(w, 1), Octet(w, 2)][..if n == 3 then 2 else 1]
  {
    hide Bytes, Octet, Word;
    DigitsSplit(t, i, n);
    assert t[..i + n] == t;
    var d := [d0, d1, d2][..n];
    assert Digits6(t[i..i + n]) == d;
    PartialGroup(Digits6(t[..i]), d);
  }

  /** `decode_b64` on the first `|t|` characters of a buffer. */
  method Decode(t: string, out: array<Byte>)
    requires |Decoded(t)| <= out.Length
    modifies out
    ensures out[..|Decoded(t)|] == Decoded(t)
    ensures forall k :: |Decoded(t)| <= k < out.Length ==> out[k] == old(out[k])
  {
    hide Decoded, Octet, Word, Digit6;
    var len := |t|;
    var i, o := 0, 0;
    assert t[..0] == "";
    EmptyDecodes();
    while i + 4 <= len
      invariant 0 <= i <= len && Quarter(i) == 0
      invariant o == |Decoded(t[..i])| <= |Decoded(t)|
      invariant out[..o] == Decoded(t[..i])
      invariant forall k :: |Decoded(t)| <= k < out.Length ==> out[k] == old(out[k])
    {
      var d := Fetch(t, i, 4);
      var n := Word(d[0], d[1], d[2], d[3]);
      WholeGroupDecoded(t, i, d[0], d[1], d[2], d[3]);
      StoreOctets(out, o, n, 3);
      o, i := o + 3, i + 4;
    }
    assert t[..len] == t;
    if i < len {
      var remaining := len - i;
      var d := Fetch(t, i, remaining);
      var n := Word(d[0], d[1], d[2], 0);
      PartialGroupDecoded(t, i, remaining, d[0], d[1], d[2]);
      StoreOctets(out, o, n, if remaining >= 3 then 2 else 1);
    }
  }

  lemma EmptyDecodes()
    ensures Decoded("") == []
  {
  }

  //////////////////////////////////////////////////////////////////////////////
  // Round trip
  //////////////////////////////////////////////////////////////////////////////

  lemma DigitsOfText(s: seq<Sextet>)
    ensures Digits6(Text(s)) == s
  {
    forall i | 0 <= i < |s| ensures Digit6(Char(s[i])) == s[i] {
      DecodeCharOfChar(s[i]);
    }
  }

  /** Decoding the significant characters of an encoding gives the bytes back, for every length. */
  lemma RoundTrip(src: seq<Byte>)
    ensures SextetCount(|src|) == (8 * |src| + 5) / 6 <= |Encoded(src)|
    ensures Decoded(Encoded(src)[..SextetCount(|src|)]) == src
  {
    hide Bytes, Sextets;
    var s := Sextets(src);
    SextetCountTimes3(|src|);
    assert Encoded(src)[..SextetCount(|src|)] == Text(s);
    DigitsOfText(s);
    BytesOfCarried(s, src);
  }
}
