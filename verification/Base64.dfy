/**
 Standard Base64 and Base64URL (sections 4 and 5 of RFC 4648), after `src/crypto/base64.c`.

 The procedures keep the buffers and cursors of the C code. What they compute is stated through the
 number that the bytes spell: encoding writes that number in base 64, decoding reads its top bits back.
 */
module Base64 {
  import opened Ascii
  import opened Radix
  import opened Wrappers

  /** The text of a NUL-terminated C string. */
  type CString = s: string | '\0' !in s

  function StandardTable(): (t: string)
    ensures |t| == 64
  {
    Upper() + Lower() + Digits() + "+/"
  }

  /** Arithmetic on `uint32_t` is modulo this number. */
  const WORD: nat := 0x1_0000_0000

  //////////////////////////////////////////////////////////////////////////////
  // Alphabets
  //////////////////////////////////////////////////////////////////////////////

  function StandardChar(d: Sextet): char {
    StandardTable()[d]
  }

  /** The substitution applied by the URL encoder to a character of the standard alphabet. */
  function ToUrl(c: char): char {
    if c == '+' then '-' else if c == '/' then '_' else c
  }

  /** The substitution applied by the decoder before looking a character up. */
  function FromUrl(c: char): char {
    if c == '-' then '+' else if c == '_' then '/' else c
  }

  /** The reverse lookup table: -1 marks every character outside the standard alphabet. */
  function Lookup(c: char): (v: int)
    ensures -1 <= v < 64
  {
    if c == '+' then 62
    else if c == '/' then 63
    else if '0' <= c <= '9' then c as int - '0' as int + 52
    else if 'A' <= c <= 'Z' then c as int - 'A' as int
    else if 'a' <= c <= 'z' then c as int - 'a' as int + 26
    else -1
  }

  lemma TableEntry(d: Sextet)
    ensures StandardChar(d) as int
            == if d < 26 then 'A' as int + d
               else if d < 52 then 'a' as int + (d - 26)
               else if d < 62 then '0' as int + (d - 52)
               else if d == 62 then '+' as int
               else '/' as int
  {
    hide Upper, Lower, Digits;
    if d < 26 {
      Letter(d);
    } else if d < 52 {
      Letter(d - 26);
    } else if d < 62 {
      Digit(d - 52);
    }
  }

  /** The reverse table inverts the forward table, and no entry of the alphabet is special. */
  lemma LookupOfStandardChar(d: Sextet)
    ensures Lookup(StandardChar(d)) == d
    ensures StandardChar(d) !in ['=', '-', '_', '\0']
  {
    hide StandardChar;
    TableEntry(d);
  }

  /** Every character with an entry in the reverse table is the alphabet's character for that entry. */
  lemma StandardCharOfLookup(c: char)
    requires Lookup(c) >= 0
    ensures StandardChar(Lookup(c)) == c
  {
    hide StandardChar;
    TableEntry(Lookup(c));
    assert StandardChar(Lookup(c)) as int == c as int;
  }

  //////////////////////////////////////////////////////////////////////////////
  // Encoding
  //////////////////////////////////////////////////////////////////////////////

  /** The URL alphabet: the same, with '-' for 62 and '_' for 63. */
  lemma UrlTableEntry(d: Sextet)
    ensures ToUrl(StandardChar(d)) as int
            == if d < 26 then 'A' as int + d
               else if d < 52 then 'a' as int + (d - 26)
               else if d < 62 then '0' as int + (d - 52)
               else if d == 62 then '-' as int
               else '_' as int
    ensures Lookup(FromUrl(ToUrl(StandardChar(d)))) == d && FromUrl('-') == '+' && FromUrl('_') == '/'
  {
    hide StandardChar, Lookup;
    TableEntry(d);
    LookupOfStandardChar(d);
  }

  function StandardText(s: seq<Sextet>): (t: string)
    ensures |t| == |s|
  {
    seq(|s|, i requires 0 <= i < |s| => StandardChar(s[i]))
  }

  function UrlText(s: seq<Sextet>): (t: string)
    ensures |t| == |s|
  {
    seq(|s|, i requires 0 <= i < |s| => ToUrl(StandardChar(s[i])))
  }

  function Padding(n: nat): string {
    match Third(n) case 0 => "" case 1 => "==" case _ => "="
  }

  /** What the standard encoder must write: section 4 of RFC 4648. */
  function Encoded(src: seq<Byte>): string {
    StandardText(Sextets(src)) + Padding(|src|)
  }

  /** What the URL encoder must write: section 5 of RFC 4648 without padding. */
  function UrlEncoded(src: seq<Byte>): string {
    UrlText(Sextets(src))
  }

  lemma EncodedLengths(src: seq<Byte>)
    ensures |Encoded(src)| == 4 * ((|src| + 2) / 3)
    ensures |UrlEncoded(src)| == (4 * |src| + 2) / 3
  {
    SextetCountIsCeiling(|src|);
    SextetCountTimes3(|src|);
    PaddedLength(|src|);
  }

  lemma PaddedLength(n: nat)
    ensures 3 * (4 * ((n + 2) / 3)) == 4 * n + (match Third(n) case 0 => 0 case 1 => 8 case _ => 4)
  {
    PositionsAreRemainders(n);
  }

  /** The four characters written for a group when `left` bytes were left at its start. */
  function Group(v: nat, left: nat): (g: string)
    ensures |g| == 4
  {
    [StandardChar(Part(v, 0)), StandardChar(Part(v, 1)),
     if left > 1 then StandardChar(Part(v, 2)) else '=', if left > 2 then StandardChar(Part(v, 3)) else '=']
  }

  /** A group is its sextets in the alphabet, padded when it is the last one and not whole. */
  lemma GroupText(s: seq<Sextet>, v: nat, n: nat, i: nat)
    requires i < n && Third(i) == 0
    ensures StandardText(s) + Group(v, n - i)
            == StandardText(s + GroupSextets(v, n - i)) + if n - i < 3 then Padding(n) else ""
  {
    hide StandardChar, Part;
    Thirds(i);
  }

  /** The cursors meet the end of the text exactly when the bytes run out. */
  lemma GroupFits(i: nat, j: nat, len: nat, total: nat)
    requires i < len && Third(i) == 0 && 3 * j == 4 * i
    requires 3 * total == 4 * len + (match Third(len) case 0 => 0 case 1 => 8 case _ => 4)
    ensures Third(i + 3) == 0 && if i + 3 >= len then j + 4 == total else j + 4 < total
  {
    Thirds(i);
  }

  lemma EncodedForm(src: seq<Byte>, total: nat)
    requires total == |Encoded(src)|
    ensures Encoded(src) == StandardText(Sextets(src)) + Padding(|src|) && Third(0) == 0
    ensures 3 * total == 4 * |src| + (match Third(|src|) case 0 => 0 case 1 => 8 case _ => 4)
    ensures src == [] <==> total == 0
  {
    EncodedLengths(src);
    PaddedLength(|src|);
  }

  /** `csilk_base64_encode`. */
  method Encode(src: seq<Byte>, out: array<char>)
    requires out.Length > 4 * ((|src| + 2) / 3)
    modifies out
    ensures |Encoded(src)| == 4 * ((|src| + 2) / 3)
    ensures out[..|Encoded(src)|] == Encoded(src) && out[|Encoded(src)|] == '\0'
    ensures out[|Encoded(src)| + 1..] == old(out[|Encoded(src)| + 1..])
  {
    hide Carries, StandardText, Padding, GroupWord, GroupSextets, Group, Encoded, Third;
    EncodedLengths(src);
    ghost var total := |Encoded(src)|;
    EncodedForm(src, total);
    var len := |src|;
    var i, j := 0, 0;
    ghost var s: seq<Sextet> := [];
    CarriesNothing();
    assert src[..0] == [];
    while i < len
      invariant Third(i) == 0 && 0 <= i <= len + 2
      invariant 3 * j == 4 * i && if i >= len then j == total else j < total
      invariant Carries(s, if i <= len then src[..i] else src)
      invariant out[..j] == StandardText(s) + if i <= len then "" else Padding(len)
      invariant forall k :: total < k < out.Length ==> out[k] == old(out[k])
    {
      GroupFits(i, j, len, total);
      CarriesGroup(src, i, s);
      var v := GroupWord(src, i);
      GroupText(s, v, len, i);
      WriteGroup(out, j, v, len - i);
      s := s + GroupSextets(v, len - i);
      i, j := i + 3, j + 4;
    }
    if i == len {
      assert src[..i] == src;
    }
    CarriesUnique(s, Sextets(src), src);
    out[j] := '\0';
  }

  /** The stores in the body of the encoder's loop. */
  method WriteGroup(out: array<char>, j: nat, v: nat, left: nat)
    requires j + 4 <= out.Length
    modifies out
    ensures out[..j + 4] == old(out[..j]) + Group(v, left)
    ensures forall k :: j + 4 <= k < out.Length ==> out[k] == old(out[k])
  {
    hide Part;
    out[j] := StandardTable()[Part(v, 0)];
    out[j + 1] := StandardTable()[Part(v, 1)];
    out[j + 2] := if left > 1 then StandardTable()[Part(v, 2)] else '=';
    out[j + 3] := if left > 2 then StandardTable()[Part(v, 3)] else '=';
  }

  /** `csilk_base64url_encode`: the standard text is rewritten in place and cut at its padding. */
  method UrlEncode(src: seq<Byte>, out: array<char>)
    requires out.Length > 4 * ((|src| + 2) / 3)
    modifies out
    ensures |UrlEncoded(src)| < out.Length
    ensures out[..|UrlEncoded(src)|] == UrlEncoded(src) && out[|UrlEncoded(src)|] == '\0'
  {
    hide StandardText, UrlText, Encoded, UrlEncoded, ToUrl;
    Encode(src, out);
    UrlForm(src);
    Rewrite(out, Encoded(src), |UrlEncoded(src)|);
  }

  /** The loop over the standard text, whose first `n` characters are not padding. */
  method Rewrite(out: array<char>, ghost text: string, ghost n: nat)
    requires |text| < out.Length && out[..|text|] == text && out[|text|] == '\0'
    requires n <= |text| && (n < |text| ==> text[n] == '=')
    requires forall k :: 0 <= k < n ==> text[k] != '=' && text[k] != '\0'
    modifies out
    ensures out[n] == '\0' && forall k :: 0 <= k < n ==> out[k] == ToUrl(text[k])
  {
    assert forall k :: 0 <= k < |text| ==> out[k] == text[k];
    var p := 0;
    while out[p] != '\0'
      invariant 0 <= p <= n
      invariant forall k :: 0 <= k < p ==> out[k] == ToUrl(text[k])
      invariant forall k :: p <= k < |text| ==> out[k] == text[k]
      invariant out[|text|] == '\0'
      decreases n - p
    {
      if out[p] == '+' {
        out[p] := '-';
      } else if out[p] == '/' {
        out[p] := '_';
      } else if out[p] == '=' {
        out[p] := '\0';
        break;
      }
      p := p + 1;
    }
    assert p == n;
  }

  /** The URL text is the standard text up to its padding, with two characters exchanged. */
  lemma UrlForm(src: seq<Byte>)
    ensures var text, n := Encoded(src), |UrlEncoded(src)|;
            && n <= |text| && (n < |text| ==> text[n] == '=')
            && (forall k :: 0 <= k < n ==> text[k] != '=' && text[k] != '\0')
            && (forall k :: 0 <= k < n ==> UrlEncoded(src)[k] == ToUrl(text[k]))
  {
    hide ToUrl, StandardChar;
    var s := Sextets(src);
    forall k | 0 <= k < |s| ensures StandardChar(s[k]) != '=' && StandardChar(s[k]) != '\0' {
      LookupOfStandardChar(s[k]);
    }
  }

  //////////////////////////////////////////////////////////////////////////////
  // Decoding
  //////////////////////////////////////////////////////////////////////////////

  /** The characters before the first padding character. */
  function Data(s: string): (d: string)
    ensures d <= s && '=' !in d
    ensures |d| < |s| ==> s[|d|] == '='
  {
    if s == "" || s[0] == '=' then "" else [s[0]] + Data(s[1..])
  }

  /** The sextet a character stands for in either alphabet, or -1. */
  function SextetOf(c: char): int {
    Lookup(FromUrl(c))
  }

  predicate AllSextets(d: string) {
    forall i :: 0 <= i < |d| ==> SextetOf(d[i]) >= 0
  }

  function ToSextets(d: string): (s: seq<Sextet>)
    requires AllSextets(d)
    ensures |s| == |d|
  {
    seq(|d|, i requires 0 <= i < |d| => SextetOf(d[i]))
  }

  /** What a decoder with unlimited room returns. */
  function Decoded(s: string): Option<seq<Byte>> {
    if AllSextets(Data(s)) then Some(Bytes(ToSextets(Data(s)))) else None
  }

  lemma SmallPowers()
    ensures Pow2(0) == 1 && Pow2(2) == 4 && Pow2(4) == 16 && Pow2(6) == 64
  {
    assert Pow2(1) == 2 && Pow2(3) == 8 && Pow2(5) == 32;
  }

  /** `(v << 6) | d` in 32 bits. */
  function Pushed(v: nat, d: Sextet): nat {
    v * 64 % WORD + d
  }

  /** `(uint8_t)((v >> bits) & 0xFF)`. */
  function Popped(v: nat, bits: nat): Byte {
    v / Pow2(bits) % 256
  }

  /** The 32-bit accumulator still holds the waiting bits in its low end. */
  predicate Holds(v: nat, m: nat, rest: nat) {
    match Quarter(m)
    case 0 => rest == 0
    case 1 => v % 64 == rest
    case 2 => v % 16 == rest
    case _ => v % 4 == rest
  }

  /** One shift of the wrapping accumulator: its low bits are the waiting bits and the sextet. */
  lemma Shifted64(v: nat, d: Sextet)
    ensures Pushed(v, d) % 4096 == v % 64 * 64 + d
  {
    var low, u := v * 64 % WORD, v * 64 / WORD;
    assert low == (v / 64 - u * 0x10_0000) * 4096 + v % 64 * 64;
  }

  lemma Shifted16(v: nat, d: Sextet)
    ensures Pushed(v, d) % 1024 == v % 16 * 64 + d
  {
    var low, u := v * 64 % WORD, v * 64 / WORD;
    assert low == (v / 16 - u * 0x40_0000) * 1024 + v % 16 * 64;
  }

  lemma Shifted4(v: nat, d: Sextet)
    ensures Pushed(v, d) % 256 == v % 4 * 64 + d
  {
    var low, u := v * 64 % WORD, v * 64 / WORD;
    assert low == (v / 4 - u * 0x100_0000) * 256 + v % 4 * 64;
  }

  /** The byte read out of the wrapping accumulator is the byte that the waiting bits complete. */
  lemma AccumulatorByte(v: nat, m: nat, rest: nat, d: Sextet)
    requires Holds(v, m, rest) && Quarter(m) != 0
    ensures SpareBits(m + 1) == SpareBits(m) - 2
    ensures Popped(Pushed(v, d), SpareBits(m + 1)) == NextByte(rest, d, m)
    ensures Holds(Pushed(v, d), m + 1, Leftover(d, m + 1))
  {
    Fourths(m);
    SmallPowers();
    LowBits(rest, d);
    var w, y := Pushed(v, d), rest * 64 + d;
    if Quarter(m) == 1 {
      Shifted64(v, d);
      Window16(w, y);
    } else if Quarter(m) == 2 {
      Shifted16(v, d);
      Window4(w, y);
    } else {
      Shifted4(v, d);
    }
  }

  lemma Window16(w: nat, y: nat)
    requires w % 4096 == y
    ensures w / 16 % 256 == y / 16 && w % 16 == y % 16
  {
    var q := w / 4096;
    assert w == q * 4096 + y;
    assert w / 16 == q * 256 + y / 16;
  }

  lemma Window4(w: nat, y: nat)
    requires w % 1024 == y
    ensures w / 4 % 256 == y / 4 && w % 4 == y % 4
  {
    var q := w / 1024;
    assert w == q * 1024 + y;
    assert w / 4 == q * 256 + y / 4;
  }

  lemma ToSextetsPrefix(d: string, k: nat)
    requires k < |d| && AllSextets(d[..k]) && SextetOf(d[k]) >= 0
    ensures AllSextets(d[..k + 1]) && ToSextets(d[..k + 1]) == ToSextets(d[..k]) + [SextetOf(d[k])]
  {
  }

  /** The decoder's first loop: a copy of the string with the URL substitutions undone. */
  method Restored(src: CString) returns (tmp: array<char>)
    ensures fresh(tmp) && tmp.Length == |src| + 5
    ensures forall k :: 0 <= k < |src| ==> tmp[k] == FromUrl(src[k])
  {
    tmp := new char[|src| + 5](k => if 0 <= k < |src| then src[k] else '\0');
    var i := 0;
    while i < |src|
      invariant 0 <= i <= |src|
      invariant forall k :: 0 <= k < |src| ==> tmp[k] == if k < i then FromUrl(src[k]) else src[k]
    {
      if tmp[i] == '-' {
        tmp[i] := '+';
      } else if tmp[i] == '_' {
        tmp[i] := '/';
      }
      i := i + 1;
    }
  }

  /** The decoder's input buffer: the string with its URL substitutions undone and padding restored. */
  method Prepared(src: CString) returns (tmp: array<char>, len: nat)
    ensures fresh(tmp) && |src| <= len < tmp.Length
    ensures forall k :: 0 <= k < len ==> tmp[k] == if k < |src| then FromUrl(src[k]) else '='
  {
    tmp := Restored(src);
    len := |src|;
    while len % 4 != 0
      invariant |src| <= len <= |src| + 3 && (len == |src| + 3 ==> len % 4 == 0 || |src| % 4 == 0)
      invariant len > |src| ==> |src| % 4 != 0
      invariant len > |src| + 1 ==> (|src| + 1) % 4 != 0
      invariant len > |src| + 2 ==> (|src| + 2) % 4 != 0
      invariant tmp.Length == |src| + 5
      invariant forall k :: 0 <= k < len ==> tmp[k] == if k < |src| then FromUrl(src[k]) else '='
      decreases |src| + 3 - len
    {
      tmp[len] := '=';
      len := len + 1;
    }
    tmp[len] := '\0';
  }

  /** After `i` characters the decoder holds their waiting bits and has written the bytes `done`. */
  ghost predicate Progress(data: string, i: nat, v: nat, bits: int, done: seq<Byte>)
    requires i <= |data|
  {
    && AllSextets(data[..i])
    && bits == SpareBits(i)
    && Holds(v, i, Rest(ToSextets(data[..i])))
    && done == Bytes(ToSextets(data[..i]))
  }

  lemma ProgressStart(data: string)
    ensures Progress(data, 0, 0, 0, [])
  {
    assert data[..0] == "";
  }

  lemma Advance(data: string, i: nat, v: nat, bits: int, done: seq<Byte>)
    requires i < |data| && SextetOf(data[i]) >= 0 && Progress(data, i, v, bits, done)
    ensures var w := Pushed(v, SextetOf(data[i]));
            if bits + 6 < 8 then Progress(data, i + 1, w, bits + 6, done)
            else bits >= 2 && Progress(data, i + 1, w, bits - 2, done + [Popped(w, bits - 2)])
  {
    ToSextetsPrefix(data, i);
    StreamStep(ToSextets(data[..i]), SextetOf(data[i]), v);
  }

  /** The bytes written so far never outnumber the bytes of the whole string. */
  lemma ProgressBound(src: string, i: nat, v: nat, bits: int, done: seq<Byte>)
    requires i <= |Data(src)| && Progress(Data(src), i, v, bits, done)
    ensures Decoded(src).Some? ==> |done| <= |Decoded(src).value|
    ensures i == |Data(src)| ==> Decoded(src) == Some(done)
  {
    ByteCountMonotone(i, |Data(src)|);
    if i == |Data(src)| {
      assert Data(src)[..i] == Data(src);
    }
  }

  lemma Undecodable(src: string, i: nat)
    requires i < |Data(src)| && SextetOf(Data(src)[i]) < 0
    ensures Decoded(src).None?
  {
  }

  method Store(out: array<Byte>, n: nat, b: Byte)
    requires n < out.Length
    modifies out
    ensures out[..n + 1] == old(out[..n]) + [b]
    ensures forall k :: n < k < out.Length ==> out[k] == old(out[k])
  {
    out[n] := b;
  }

  /** `csilk_base64url_decode`; `mallocOk` says whether the temporary buffer could be obtained. */
  method UrlDecode(src: CString, out: array<Byte>, mallocOk: bool) returns (r: int)
    modifies out
    ensures r == -1 <==> !mallocOk || Decoded(src).None? || |Decoded(src).value| > out.Length
    ensures r != -1 ==> 0 <= r <= out.Length && out[..r] == Decoded(src).value && out[r..] == old(out[r..])
    ensures !mallocOk ==> out[..] == old(out[..])
  {
    hide Progress, Pushed, Popped, Decoded, Data, Lookup;
    if !mallocOk {
      return -1;
    }
    var tmp, len := Prepared(src);
    ghost var data := Data(src);
    var decodedLen := 0;
    var v: nat := 0;
    var bits := 0;
    var i := 0;
    assert out[..0] == [];
    ProgressStart(data);
    while i < len
      invariant 0 <= i <= |data| <= len
      invariant forall k :: 0 <= k < len ==> tmp[k] == if k < |src| then FromUrl(src[k]) else '='
      invariant 0 <= decodedLen <= out.Length
      invariant Progress(data, i, v, bits, out[..decodedLen])
      invariant forall k :: decodedLen <= k < out.Length ==> out[k] == old(out[k])
    {
      if tmp[i] == '=' {
        break;
      }
      assert i < |data| && data[i] == src[i];
      var val := Lookup(tmp[i]);
      if val < 0 {
        Undecodable(src, i);
        return -1;
      }
      ghost var done := out[..decodedLen];
      Advance(data, i, v, bits, done);
      v := Pushed(v, val);
      bits := bits + 6;
      if bits >= 8 {
        bits := bits - 8;
        if decodedLen >= out.Length {
          ProgressBound(src, i + 1, v, bits, done + [Popped(v, bits)]);
          return -1;
        }
        Store(out, decodedLen, Popped(v, bits));
        decodedLen := decodedLen + 1;
      }
      i := i + 1;
    }
    ProgressBound(src, i, v, bits, out[..decodedLen]);
    return decodedLen;
  }

  /** One turn of the decoder's loop, on the 32-bit accumulator, is one step of the exact decoding. */
  lemma StreamStep(s: seq<Sextet>, d: Sextet, v: nat)
    requires Holds(v, |s|, Rest(s))
    ensures Holds(Pushed(v, d), |s| + 1, Rest(s + [d]))
    ensures if Quarter(|s|) == 0 then SpareBits(|s|) == 0 && SpareBits(|s| + 1) == 6 && Bytes(s + [d]) == Bytes(s)
            else SpareBits(|s| + 1) == SpareBits(|s|) - 2 >= 0
                 && Bytes(s + [d]) == Bytes(s) + [Popped(Pushed(v, d), SpareBits(|s| + 1))]
  {
    Fourths(|s|);
    BytesAppend(s, d);
    if Quarter(|s|) == 0 {
      FirstSextet(v, d);
    } else {
      AccumulatorByte(v, |s|, Rest(s), d);
    }
  }

  lemma FirstSextet(v: nat, d: Sextet)
    ensures Pushed(v, d) % 64 == d
  {
    var low, u := v * 64 % WORD, v * 64 / WORD;
    assert low == (v - u * 0x400_0000) * 64;
  }

  //////////////////////////////////////////////////////////////////////////////
  // Round trips
  //////////////////////////////////////////////////////////////////////////////

  /** Decoded bytes are the top 8 * floor(6m/8) bits of the number that the data characters spell. */
  lemma DecodedIsTopBits(s: string)
    requires AllSextets(Data(s))
    ensures var t := ToSextets(Data(s)); var b := Decoded(s).value;
            |b| == 6 * |t| / 8 && Value256(b) == Value64(t) / Pow2(6 * |t| - 8 * |b|)
  {
    var t := ToSextets(Data(s));
    BitsConserved(|t|);
    TopQuotient(Value64(t), |t|, Value256(Bytes(t)), Rest(t));
  }

  lemma TopQuotient(v: nat, m: nat, top: nat, rest: nat)
    requires Cut(v, m, top, rest)
    ensures v / Pow2(SpareBits(m)) == top
  {
    SmallPowers();
  }

  lemma {:induction false} DataOfClean(s: string, tail: string)
    requires forall i :: 0 <= i < |s| ==> s[i] != '='
    requires tail == "" || tail[0] == '='
    ensures Data(s + tail) == s
  {
    if s != "" {
      assert (s + tail)[1..] == s[1..] + tail;
      DataOfClean(s[1..], tail);
    }
  }

  lemma SextetsOfText(s: seq<Sextet>)
    ensures AllSextets(StandardText(s)) && ToSextets(StandardText(s)) == s && '=' !in StandardText(s)
    ensures AllSextets(UrlText(s)) && ToSextets(UrlText(s)) == s && '=' !in UrlText(s)
  {
    forall i | 0 <= i < |s|
      ensures SextetOf(StandardChar(s[i])) == s[i] && StandardChar(s[i]) != '='
      ensures SextetOf(ToUrl(StandardChar(s[i]))) == s[i] && ToUrl(StandardChar(s[i])) != '='
    {
      LookupOfStandardChar(s[i]);
    }
  }

  /** Decoding inverts both encoders on every byte string. */
  lemma RoundTrip(src: seq<Byte>)
    ensures Decoded(UrlEncoded(src)) == Some(src)
    ensures Decoded(Encoded(src)) == Some(src)
  {
    var s := Sextets(src);
    SextetsOfText(s);
    DataOfClean(UrlText(s), "");
    assert UrlText(s) + "" == UrlText(s);
    DataOfClean(StandardText(s), Padding(|src|));
    BytesOfCarried(s, src);
  }

  /**
   Section 3.5 of RFC 4648: URL alphabet only, no padding, a possible length, and zero in the bits of
   the last character that fill no byte.
   */
  predicate Canonical(s: string) {
    && (forall i :: 0 <= i < |s| ==> SextetOf(s[i]) >= 0 && s[i] != '+' && s[i] != '/')
    && |s| % 4 != 1
    && (|s| % 4 == 2 ==> SextetOf(s[|s| - 1]) % 16 == 0)
    && (|s| % 4 == 3 ==> SextetOf(s[|s| - 1]) % 4 == 0)
  }

  lemma ToUrlOfSextetOf(c: char)
    requires SextetOf(c) >= 0
    ensures ToUrl(StandardChar(SextetOf(c))) == c <==> c != '+' && c != '/'
  {
    StandardCharOfLookup(FromUrl(c));
  }

  /** Encoding what was decoded gives the string back exactly on the canonical strings. */
  lemma ReencodeIffCanonical(s: string)
    requires Decoded(s).Some?
    ensures UrlEncoded(Decoded(s).value) == s <==> Canonical(s)
  {
    if Canonical(s) {
      ReencodeCanonical(s);
    }
    if UrlEncoded(Decoded(s).value) == s {
      UrlEncodedIsCanonical(Decoded(s).value);
    }
  }

  lemma ReencodeCanonical(s: string)
    requires Canonical(s)
    ensures Decoded(s).Some? && UrlEncoded(Decoded(s).value) == s
  {
    hide Bytes, Sextets;
    DataOfClean(s, "");
    assert s + "" == s;
    var t := ToSextets(s);
    var b := Bytes(t);
    PositionsAreRemainders(|s|);
    CarriesBytes(t);
    CarriesUnique(Sextets(b), t, b);
    forall i | 0 <= i < |s| ensures UrlText(t)[i] == s[i] {
      ToUrlOfSextetOf(s[i]);
    }
  }

  lemma UrlEncodedIsCanonical(b: seq<Byte>)
    ensures Canonical(UrlEncoded(b))
  {
    hide Bytes, Sextets;
    var t := Sextets(b);
    var s := UrlText(t);
    SextetsOfText(t);
    BytesOfCarried(t, b);
    PositionsAreRemainders(|s|);
    forall i | 0 <= i < |s| ensures SextetOf(s[i]) == t[i] && s[i] != '+' && s[i] != '/' {
      LookupOfStandardChar(t[i]);
    }
  }
}
