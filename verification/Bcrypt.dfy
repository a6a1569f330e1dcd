/**
 Hashing and verifying passwords, after `src/crypto/bcrypt.c:232-298` and `357-461`.

 The random salt is an argument, and the initial tables are arbitrary. `init` stands for them.
 */
module Bcrypt {
  import opened Wrappers
  import opened Radix
  import opened Blowfish
  import opened Words
  import Codec = BcryptCodec

  const MIN_COST := 4
  const MAX_COST := 31
  const SALT_BYTES := 16
  const CIPHER_OUT := 24
  const HASH_LEN := 62
  const MAX_PASSWORD := 72

  //////////////////////////////////////////////////////////////////////////////
  // The digest
  //////////////////////////////////////////////////////////////////////////////

  /** The text "OrpheanBeholderScryDoubt" read as three big-endian blocks. */
  function MagicBlock(k: nat): Block {
    match k
    case 0 =>
      Block(BigEndian('O' as int, 'r' as int, 'p' as int, 'h' as int),
            BigEndian('e' as int, 'a' as int, 'n' as int, 'B' as int))
    case 1 =>
      Block(BigEndian('e' as int, 'h' as int, 'o' as int, 'l' as int),
            BigEndian('d' as int, 'e' as int, 'r' as int, 'S' as int))
    case _ =>
      Block(BigEndian('c' as int, 'r' as int, 'y' as int, 'D' as int),
            BigEndian('o' as int, 'u' as int, 'b' as int, 't' as int))
  }

  function BlockBytes(b: Block): (s: seq<Byte>)
    ensures |s| == 8
  {
    [ByteAt(b.l, 3), ByteAt(b.l, 2), ByteAt(b.l, 1), ByteAt(b.l, 0),
     ByteAt(b.r, 3), ByteAt(b.r, 2), ByteAt(b.r, 1), ByteAt(b.r, 0)]
  }

  /** Writing a block as bytes is undone by the reading that the key schedule does. */
  lemma BlockBytesAreBigEndian(b: Block)
    ensures var s := BlockBytes(b);
            Block(BigEndian(s[0], s[1], s[2], s[3]), BigEndian(s[4], s[5], s[6], s[7])) == b
  {
    hide BigEndian, ByteAt;
    WordOfItsBytes(b.l);
    WordOfItsBytes(b.r);
  }

  /** The three magic blocks enciphered under the scheduled key. */
  function Digest(init: Cipher, pwd: seq<Byte>, len: nat, salt: seq<Byte>): (d: seq<Byte>)
    requires init.Valid() && len <= |pwd| && pwd != [] && salt != []
    ensures |d| == CIPHER_OUT
  {
    var c := Schedule(init, pwd, len, salt);
    BlockBytes(Encipher(c, MagicBlock(0))) + BlockBytes(Encipher(c, MagicBlock(1)))
    + BlockBytes(Encipher(c, MagicBlock(2)))
  }

  /** The block that eight bytes spell. */
  function ReadBlock(d: seq<Byte>, at: nat): Block
    requires at + 8 <= |d|
  {
    Block(BigEndian(d[at], d[at + 1], d[at + 2], d[at + 3]), BigEndian(d[at + 4], d[at + 5], d[at + 6], d[at + 7]))
  }

  function Codes(s: string): seq<int> {
    seq(|s|, i requires 0 <= i < |s| => s[i] as int)
  }

  lemma CodesAppend(s: string, t: string)
    ensures Codes(s + t) == Codes(s) + Codes(t)
  {
  }

  /** The blocks of the digest are the three parts of a text, enciphered. */
  lemma DigestBlock(init: Cipher, pwd: seq<Byte>, len: nat, salt: seq<Byte>, k: nat)
    requires init.Valid() && len <= |pwd| && pwd != [] && salt != [] && k < 3
    ensures Decipher(Schedule(init, pwd, len, salt), ReadBlock(Digest(init, pwd, len, salt), 8 * k)) == MagicBlock(k)
  {
    hide Schedule, Encipher, Decipher, BlockBytes, BigEndian, MagicBlock;
    var c := Schedule(init, pwd, len, salt);
    var b0, b1, b2 := Encipher(c, MagicBlock(0)), Encipher(c, MagicBlock(1)), Encipher(c, MagicBlock(2));
    ReadPart(BlockBytes(b0), BlockBytes(b1), BlockBytes(b2), k);
    BlockBytesAreBigEndian(if k == 0 then b0 else if k == 1 then b1 else b2);
    CipherIsBijection(c, MagicBlock(k));
  }

  lemma ReadPart(x: seq<Byte>, y: seq<Byte>, z: seq<Byte>, k: nat)
    requires |x| == |y| == |z| == 8 && k < 3
    ensures ReadBlock(x + y + z, 8 * k) == ReadBlock(if k == 0 then x else if k == 1 then y else z, 0)
  {
    hide BigEndian;
  }

  lemma BytesOfMagic()
    ensures BlockBytes(MagicBlock(0)) == Codes("OrpheanB")
    ensures BlockBytes(MagicBlock(1)) == Codes("eholderS")
    ensures BlockBytes(MagicBlock(2)) == Codes("cryDoubt")
  {
    hide ByteAt, BigEndian;
    BytesOfBigEndian('O' as int, 'r' as int, 'p' as int, 'h' as int);
    BytesOfBigEndian('e' as int, 'a' as int, 'n' as int, 'B' as int);
    BytesOfBigEndian('e' as int, 'h' as int, 'o' as int, 'l' as int);
    BytesOfBigEndian('d' as int, 'e' as int, 'r' as int, 'S' as int);
    BytesOfBigEndian('c' as int, 'r' as int, 'y' as int, 'D' as int);
    BytesOfBigEndian('o' as int, 'u' as int, 'b' as int, 't' as int);
  }

  /** For all tables, passwords and salts, deciphering the digest gives the text that was enciphered. */
  lemma DigestDeciphers(init: Cipher, pwd: seq<Byte>, len: nat, salt: seq<Byte>)
    requires init.Valid() && len <= |pwd| && pwd != [] && salt != []
    ensures var c, d := Schedule(init, pwd, len, salt), Digest(init, pwd, len, salt);
            Codes("OrpheanBeholderScryDoubt")
            == BlockBytes(Decipher(c, ReadBlock(d, 0))) + BlockBytes(Decipher(c, ReadBlock(d, 8)))
               + BlockBytes(Decipher(c, ReadBlock(d, 16)))
  {
    hide Schedule, Digest, Decipher, BlockBytes, ReadBlock, MagicBlock, Codes;
    DigestBlock(init, pwd, len, salt, 0);
    DigestBlock(init, pwd, len, salt, 1);
    DigestBlock(init, pwd, len, salt, 2);
    BytesOfMagic();
    CodesAppend("OrpheanB", "eholderS");
    CodesAppend("OrpheanB" + "eholderS", "cryDoubt");
    assert "OrpheanB" + "eholderS" + "cryDoubt" == "OrpheanBeholderScryDoubt";
  }

  /**
   `bcrypt_hash_internal`. Whatever the number of rounds, the digest is that of one schedule, because
   every round starts again from the initial tables.
   */
  method HashInternal(init: Cipher, pwd: seq<Byte>, len: nat, salt: seq<Byte>, cost: nat, out: array<Byte>)
    requires init.Valid() && len <= |pwd| && pwd != [] && |salt| == SALT_BYTES && cost <= MAX_COST
    requires out.Length == CIPHER_OUT
    modifies out
    ensures out[..] == Digest(init, pwd, len, salt)
  {
    hide Schedule, Encipher, ByteAt;
    var state := new State();
    var rounds := Pow2(cost);
    var i := 0;
    while i < rounds
      invariant 0 <= i <= rounds && (i > 0 ==> state.Value() == Schedule(init, pwd, len, salt))
    {
      state.KeySetup(init, pwd, len, salt);
      i := i + 1;
    }
    ghost var c := state.Value();
    var b0 := EncipherMagic(state, 0);
    var b1 := EncipherMagic(state, 1);
    var b2 := EncipherMagic(state, 2);
    var bytes := BlockBytes(b0) + BlockBytes(b1) + BlockBytes(b2);
    forall k | 0 <= k < CIPHER_OUT { out[k] := bytes[k]; }
    assert out[..] == bytes;
  }

  method EncipherMagic(state: State, k: nat) returns (b: Block)
    requires state.Valid()
    ensures b == Encipher(state.Value(), MagicBlock(k))
  {
    hide Encipher;
    var input := new bv32[2];
    var output := new bv32[2];
    input[0], input[1] := MagicBlock(k).l, MagicBlock(k).r;
    state.BlowfishEncipher(input, output);
    b := Block(output[0], output[1]);
  }

  //////////////////////////////////////////////////////////////////////////////
  // The hash string
  //////////////////////////////////////////////////////////////////////////////

  function Clamp(cost: int): (c: nat)
    ensures 4 <= cost <= 31 ==> c == cost
    ensures cost < 4 ==> c == 4
    ensures cost > 31 ==> c == 31
  {
    if cost < MIN_COST then MIN_COST else if cost > MAX_COST then MAX_COST else cost
  }

  function Truncated(len: nat): nat {
    if len > MAX_PASSWORD then MAX_PASSWORD else len
  }

  /** The zeroed 72-byte buffer with the first bytes of the password copied in. */
  function Buffer(password: seq<Byte>): (b: seq<Byte>)
    ensures |b| == MAX_PASSWORD
  {
    seq(MAX_PASSWORD, i requires 0 <= i < MAX_PASSWORD => if i < |password| then password[i] else 0)
  }

  function PasswordDigest(init: Cipher, password: seq<Byte>, salt: seq<Byte>): (d: seq<Byte>)
    requires init.Valid() && salt != []
    ensures |d| == CIPHER_OUT
  {
    Digest(init, Buffer(password), Truncated(|password|), salt)
  }

  function DigitChar(d: nat): char
    requires d < 10
  {
    ('0' as int + d) as char
  }

  function Header(cost: nat): (h: string)
    requires cost <= MAX_COST
    ensures |h| == 7
  {
    ['$', '2', 'a', '$', DigitChar(cost / 10), DigitChar(cost % 10), '$']
  }

  /** The stored text: header, 22 salt characters, 32 checksum characters. */
  function HashText(init: Cipher, password: seq<Byte>, cost: int, salt: seq<Byte>): (t: string)
    requires init.Valid() && |salt| == SALT_BYTES
  {
    Header(Clamp(cost)) + Codec.Text(Sextets(salt)) + Codec.Text(Sextets(PasswordDigest(init, password, salt)))
  }

  lemma FieldWidths(salt: seq<Byte>, digest: seq<Byte>)
    requires |salt| == SALT_BYTES && |digest| == CIPHER_OUT
    ensures |Sextets(salt)| == 22 && |Sextets(digest)| == 32
    ensures |Codec.Encoded(salt)| == 24 && Codec.Encoded(salt)[..22] == Codec.Text(Sextets(salt))
    ensures Codec.Encoded(digest) == Codec.Text(Sextets(digest))
  {
    hide Sextets, Codec.Text, SextetCount, Third;
    SextetCountTimes3(|salt|);
    SextetCountTimes3(|digest|);
    PositionsAreRemainders(|salt|);
    PositionsAreRemainders(|digest|);
  }

  /** `csilk_bcrypt_hash` with the salt drawn by the caller. */
  method Hash(init: Cipher, password: seq<Byte>, requested: int, salt: seq<Byte>, hash: array<char>)
    requires init.Valid() && |salt| == SALT_BYTES && hash.Length == HASH_LEN
    modifies hash
    ensures hash[..HASH_LEN - 1] == HashText(init, password, requested, salt) && hash[HASH_LEN - 1] == '\0'
  {
    hide Sextets, Codec.Text, Codec.Encoded, Codec.Dots, Digest, Buffer;
    var cost := requested;
    if cost < MIN_COST {
      cost := MIN_COST;
    }
    if cost > MAX_COST {
      cost := MAX_COST;
    }
    var len := |password|;
    if len > MAX_PASSWORD {
      len := MAX_PASSWORD;
    }
    var ciphertext := new Byte[CIPHER_OUT](_ => 0);
    HashInternal(init, Buffer(password), len, salt, cost, ciphertext);
    ghost var digest := ciphertext[..];
    assert digest == PasswordDigest(init, password, salt);
    FieldWidths(salt, digest);
    WriteHeader(hash, cost);
    Codec.Encode(salt, hash, 7);
    ghost var withSalt := hash[..29];
    assert withSalt == hash[..31][..29];
    Codec.Encode(ciphertext[..], hash, 29);
    hash[HASH_LEN - 1] := '\0';
    assert withSalt == Header(cost) + Codec.Text(Sextets(salt));
  }

  method WriteHeader(hash: array<char>, cost: nat)
    requires hash.Length == HASH_LEN && cost <= MAX_COST
    modifies hash
    ensures hash[..7] == Header(cost)
  {
    hash[0] := '$';
    hash[1] := '2';
    hash[2] := 'a';
    hash[3] := '$';
    hash[4] := DigitChar(cost / 10);
    hash[5] := DigitChar(cost % 10);
    hash[6] := '$';
  }

  //////////////////////////////////////////////////////////////////////////////
  // Verification
  //////////////////////////////////////////////////////////////////////////////

  /** `strncpy` of `n` characters from offset `at`: padded with NUL when the string is shorter. */
  function Copied(t: string, at: nat, n: nat): (s: string)
    requires at <= |t|
    ensures |s| == n
  {
    seq(n, i requires 0 <= i < n => if at + i < |t| then t[at + i] else '\0')
  }

  /** A character, or the terminator just after the last one. */
  function At(t: string, i: nat): char
    requires i <= |t|
  {
    if i < |t| then t[i] else '\0'
  }

  /** The value of a C `char`, which is signed on some platforms and not on others. */
  function CharValue(c: char, signed: bool): (v: int)
    ensures (v - c as int) % 256 == 0
    ensures c as int < 256 ==> if signed then -128 <= v < 128 else 0 <= v < 256
  {
    if signed && c as int >= 128 then c as int - 256 else c as int
  }

  function ParsedCost(t: string, signed: bool): int
    requires |t| >= 5
  {
    (CharValue(At(t, 4), signed) - '0' as int) * 10 + (CharValue(At(t, 5), signed) - '0' as int)
  }

  /** Two digits are their decimal number, and a text that ends after the first one is read with its terminator. */
  lemma CostOfText(t: string, signed: bool)
    requires |t| >= 5 && '0' <= t[4] <= '9'
    ensures |t| > 5 && '0' <= t[5] <= '9' ==> ParsedCost(t, signed) == 10 * (t[4] as int - 48) + (t[5] as int - 48)
    ensures |t| == 5 ==> ParsedCost(t, signed) == 10 * (t[4] as int - 48) - 48
  {
  }

  predicate HasPrefix(t: string) {
    |t| >= 2 && t[0] == '$' && t[1] == '2'
  }

  lemma DecodedWidths(t: string)
    ensures |t| == 22 ==> |Codec.Decoded(t)| == SALT_BYTES
    ensures |t| == 32 ==> |Codec.Decoded(t)| == CIPHER_OUT
  {
    hide Codec.Decoded, ByteCount, Quarter, SpareBits;
    Codec.DecodedLength(t);
    WidthCounts(|t|);
  }

  lemma WidthCounts(m: nat)
    ensures m == 22 ==> Quarter(m) == 2 && ByteCount(m) == SALT_BYTES
    ensures m == 32 ==> Quarter(m) == 0 && ByteCount(m) == CIPHER_OUT
  {
    hide ByteCount, Quarter;
    BitsConserved(m);
    PositionsAreRemainders(m);
  }

  function StoredSalt(t: string): (s: seq<Byte>)
    requires |t| >= 29
    ensures |s| == SALT_BYTES
  {
    DecodedWidths(Copied(t, 7, 22));
    Codec.Decoded(Copied(t, 7, 22))
  }

  function StoredDigest(t: string): (s: seq<Byte>)
    requires |t| >= 29
    ensures |s| == CIPHER_OUT
  {
    DecodedWidths(Copied(t, 29, 32));
    Codec.Decoded(Copied(t, 29, 32))
  }

  predicate CostInRange(t: string, signed: bool)
    requires |t| >= 5
  {
    MIN_COST <= ParsedCost(t, signed) <= MAX_COST
  }

  /** The fixed offsets that are read lie within the text and its terminator. */
  predicate Readable(t: string, signed: bool) {
    HasPrefix(t) ==> |t| >= 5 && (CostInRange(t, signed) ==> |t| >= 29)
  }

  /** When a stored text accepts a password. */
  predicate Accepts(init: Cipher, password: seq<Byte>, t: string, signed: bool)
    requires init.Valid() && Readable(t, signed)
  {
    && HasPrefix(t)
    && CostInRange(t, signed)
    && PasswordDigest(init, password, StoredSalt(t)) == StoredDigest(t)
  }

  /**
   `csilk_bcrypt_verify`. `None` is NULL. The code reads fixed offsets without looking at
   the length.
   */
  method Verify(init: Cipher, password: seq<Byte>, hash: Option<string>, signed: bool) returns (r: int)
    requires init.Valid() && (hash.Some? ==> Readable(hash.value, signed))
    ensures r == if hash.Some? && Accepts(init, password, hash.value, signed) then 0 else -1
  {
    hide Digest, Codec.Decoded, Copied, Buffer;
    if hash.None? || !HasPrefix(hash.value) {
      return -1;
    }
    var t := hash.value;
    var cost := ParsedCost(t, signed);
    if cost < MIN_COST || cost > MAX_COST {
      return -1;
    }
    var salt := new Byte[SALT_BYTES](_ => 0);
    DecodedWidths(Copied(t, 7, 22));
    Codec.Decode(Copied(t, 7, 22), salt);
    assert salt[..] == StoredSalt(t);
    var expected := new Byte[CIPHER_OUT](_ => 0);
    DecodedWidths(Copied(t, 29, 32));
    Codec.Decode(Copied(t, 29, 32), expected);
    assert expected[..] == StoredDigest(t);
    var len := |password|;
    if len > MAX_PASSWORD {
      len := MAX_PASSWORD;
    }
    var computed := new Byte[CIPHER_OUT](_ => 0);
    HashInternal(init, Buffer(password), len, salt[..], cost, computed);
    return if computed[..] == expected[..] then 0 else -1;
  }

  //////////////////////////////////////////////////////////////////////////////
  // Hashing and verifying fit together
  //////////////////////////////////////////////////////////////////////////////

  lemma ParsedHeader(cost: nat, rest: string, signed: bool)
    requires MIN_COST <= cost <= MAX_COST
    ensures HasPrefix(Header(cost) + rest) && ParsedCost(Header(cost) + rest, signed) == cost
  {
  }

  /** The fields of a stored text read back as what was written, at the offsets the verifier uses. */
  lemma StoredFields(init: Cipher, password: seq<Byte>, cost: int, salt: seq<Byte>, signed: bool)
    requires init.Valid() && |salt| == SALT_BYTES
    ensures var t := HashText(init, password, cost, salt);
            && |t| == HASH_LEN - 1 && HasPrefix(t) && ParsedCost(t, signed) == Clamp(cost)
            && StoredSalt(t) == salt && StoredDigest(t) == PasswordDigest(init, password, salt)
  {
    hide Digest, Buffer, Sextets, Codec.Text, Codec.Encoded, Codec.Decoded, Header, HasPrefix, ParsedCost;
    var digest := PasswordDigest(init, password, salt);
    var t := HashText(init, password, cost, salt);
    FieldWidths(salt, digest);
    var s, d := Codec.Text(Sextets(salt)), Codec.Text(Sextets(digest));
    ParsedHeader(Clamp(cost), s + d, signed);
    assert t == Header(Clamp(cost)) + (s + d);
    assert Copied(t, 7, 22) == s;
    assert Copied(t, 29, 32) == d;
    Codec.RoundTrip(salt);
    Codec.RoundTrip(digest);
    WholeText(salt, digest);
  }

  lemma WholeText(salt: seq<Byte>, digest: seq<Byte>)
    requires |salt| == SALT_BYTES && |digest| == CIPHER_OUT
    ensures Codec.Encoded(salt)[..SextetCount(|salt|)] == Codec.Text(Sextets(salt))
    ensures Codec.Encoded(digest)[..SextetCount(|digest|)] == Codec.Text(Sextets(digest))
  {
    hide Sextets, Codec.Text;
  }

  /** How every produced text starts: the version, and the clamped cost in two digits. */
  lemma ProducedHeader(init: Cipher, password: seq<Byte>, cost: int, salt: seq<Byte>)
    requires init.Valid() && |salt| == SALT_BYTES
    ensures var t, c := HashText(init, password, cost, salt), Clamp(cost);
            && |t| == 61 && t[..4] == "$2a$" && t[6] == '$'
            && t[4] as int == '0' as int + c / 10 && t[5] as int == '0' as int + c % 10
  {
    hide Digest, Buffer, Sextets, Codec.Text, Codec.Encoded, Clamp;
    FieldWidths(salt, PasswordDigest(init, password, salt));
  }

  /** What is accepted, in literals: the first two characters, a cost from 4 to 31, and an equal digest. */
  lemma AcceptedText(init: Cipher, password: seq<Byte>, t: string, signed: bool)
    requires init.Valid() && Readable(t, signed)
    ensures Accepts(init, password, t, signed)
            <==> && |t| >= 29 && t[0] == '$' && t[1] == '2' && 4 <= ParsedCost(t, signed) <= 31
                 && PasswordDigest(init, password, StoredSalt(t)) == StoredDigest(t)
  {
    hide PasswordDigest, StoredSalt, StoredDigest, ParsedCost;
  }

  /**
   A stored text accepts exactly the passwords that have the hashed password's digest under its salt;
   in particular it accepts the hashed password, for every password, requested cost and salt.
   */
  lemma VerifyOfHash(init: Cipher, password: seq<Byte>, other: seq<Byte>, cost: int, salt: seq<Byte>, signed: bool)
    requires init.Valid() && |salt| == SALT_BYTES
    ensures var t := HashText(init, password, cost, salt);
            && |t| >= 29
            && Accepts(init, password, t, signed)
            && (Accepts(init, other, t, signed)
                <==> PasswordDigest(init, other, salt) == PasswordDigest(init, password, salt))
  {
    hide PasswordDigest, HashText, StoredSalt, StoredDigest, HasPrefix, ParsedCost;
    StoredFields(init, password, cost, salt, signed);
  }

  /** Only the first 72 bytes of a password matter. */
  lemma LongPasswords(init: Cipher, p: seq<Byte>, q: seq<Byte>, salt: seq<Byte>)
    requires init.Valid() && salt != []
    requires |p| >= 72 && |q| >= 72 && p[..72] == q[..72]
    ensures PasswordDigest(init, p, salt) == PasswordDigest(init, q, salt)
  {
    hide Digest;
    forall i | 0 <= i < MAX_PASSWORD ensures p[i] == q[i] {
      assert p[i] == p[..MAX_PASSWORD][i] == q[..MAX_PASSWORD][i];
    }
    assert Buffer(p) == Buffer(q);
  }

  //////////////////////////////////////////////////////////////////////////////
  // Passwords that give the same key
  //////////////////////////////////////////////////////////////////////////////

  /** Byte `k` of the key that the schedule reads from a password. */
  function Key(password: seq<Byte>, k: nat): Byte {
    KeyByte(Buffer(password), Truncated(|password|), k)
  }

  ghost predicate SameKey(p: seq<Byte>, q: seq<Byte>) {
    forall k :: 0 <= k < MAX_PASSWORD ==> Key(p, k) == Key(q, k)
  }

  /** Passwords with the same key have the same digest under every salt. */
  lemma SameKeySameDigest(init: Cipher, p: seq<Byte>, q: seq<Byte>, salt: seq<Byte>)
    requires init.Valid() && salt != [] && SameKey(p, q)
    ensures PasswordDigest(init, p, salt) == PasswordDigest(init, q, salt)
  {
    hide Schedule, Encipher, KeyByte, Buffer;
    forall k | 0 <= k < MAX_PASSWORD
      ensures KeyByte(Buffer(p), Truncated(|p|), k) == KeyByte(Buffer(q), Truncated(|q|), k)
    {
      assert Key(p, k) == Key(q, k);
    }
    ScheduleOfStream(init, Buffer(p), Truncated(|p|), Buffer(q), Truncated(|q|), salt);
  }

  /** A password repeated for ever. */
  function Stream(p: seq<Byte>, k: nat): Byte
    requires p != []
  {
    if k < |p| then p[k] else Stream(p, k - |p|)
  }

  lemma {:induction false} StreamIsCyclic(p: seq<Byte>, k: nat)
    requires p != []
    ensures Stream(p, k) == p[k % |p|]
  {
    if k < |p| {
      RemainderUnique(k, |p|, 0, k);
    } else {
      StreamIsCyclic(p, k - |p|);
      var q, r := (k - |p|) / |p|, (k - |p|) % |p|;
      OneMore(q, |p|);
      RemainderUnique(k, |p|, q + 1, r);
    }
  }

  lemma KeyIsStream(p: seq<Byte>, k: nat)
    requires p != [] && k < MAX_PASSWORD
    ensures Key(p, k) == Stream(p, k)
  {
    hide KeyByte, Stream;
    StreamsAreCyclic(Buffer(p), Truncated(|p|), [0], k);
    StreamIsCyclic(p, k);
    if |p| >= MAX_PASSWORD {
      RemainderUnique(k, MAX_PASSWORD, 0, k);
      RemainderUnique(k, |p|, 0, k);
    }
  }

  /** If `p` and `q` commute, the stream of the longer one also has the period of the shorter one. */
  lemma {:induction false} OtherPeriod(p: seq<Byte>, q: seq<Byte>, k: nat)
    requires p != [] && |p| <= |q| && p + q == q + p && k >= |p|
    ensures Stream(q, k) == Stream(q, k - |p|)
  {
    var m, n := |p|, |q|;
    if k < n {
      assert q[k] == (q + p)[k] == (p + q)[k] == q[k - m];
    } else if k < n + m {
      assert q[k - m] == (p + q)[k] == (q + p)[k] == p[k - n];
      assert q[k - n] == (q + p)[k - n] == (p + q)[k - n] == p[k - n];
    } else {
      OtherPeriod(p, q, k - n);
    }
  }

  lemma {:induction false} CommutingStreams(p: seq<Byte>, q: seq<Byte>, k: nat)
    requires p != [] && q != [] && p + q == q + p
    ensures Stream(p, k) == Stream(q, k)
    decreases |p| > |q|, k
  {
    if |p| > |q| {
      CommutingStreams(q, p, k);
    } else if k < |p| {
      assert p[k] == (p + q)[k] == (q + p)[k] == q[k];
    } else {
      OtherPeriod(p, q, k);
      CommutingStreams(p, q, k - |p|);
    }
  }

  lemma StreamsOfEqualKeys(p: seq<Byte>, q: seq<Byte>)
    requires p != [] && q != []
    requires forall k :: 0 <= k < |p| + |q| ==> Stream(p, k) == Stream(q, k)
    ensures p + q == q + p
  {
    forall k | 0 <= k < |p| + |q| ensures (p + q)[k] == (q + p)[k] {
      assert (p + q)[k] == Stream(p, k) by {
        assert k >= |p| ==> Stream(p, k - |p|) == Stream(q, k - |p|);
      }
      assert (q + p)[k] == Stream(q, k) by {
        assert k >= |q| ==> Stream(p, k - |q|) == Stream(q, k - |q|);
      }
    }
  }

  /** Two short passwords give the same key exactly if they commute, that is, repeat a common word. */
  lemma SameKeyIffCommuting(p: seq<Byte>, q: seq<Byte>)
    requires p != [] && q != [] && |p| + |q| <= MAX_PASSWORD
    ensures SameKey(p, q) <==> p + q == q + p
  {
    hide Key, Stream;
    forall k | 0 <= k < MAX_PASSWORD ensures Key(p, k) == Stream(p, k) && Key(q, k) == Stream(q, k) {
      KeyIsStream(p, k);
      KeyIsStream(q, k);
    }
    if SameKey(p, q) {
      StreamsOfEqualKeys(p, q);
    } else if p + q == q + p {
      CommutingHaveSameKey(p, q);
    }
  }

  /** One half of this holds for passwords of any length. */
  lemma CommutingHaveSameKey(p: seq<Byte>, q: seq<Byte>)
    requires p != [] && q != [] && p + q == q + p
    ensures SameKey(p, q)
  {
    hide Key, Stream;
    forall k | 0 <= k < MAX_PASSWORD ensures Key(p, k) == Key(q, k) {
      KeyIsStream(p, k);
      KeyIsStream(q, k);
      CommutingStreams(p, q, k);
    }
  }

  /** A password and its double are always accepted for each other. */
  lemma DoubledPassword(init: Cipher, p: seq<Byte>, salt: seq<Byte>)
    requires init.Valid() && salt != []
    ensures PasswordDigest(init, p + p, salt) == PasswordDigest(init, p, salt)
  {
    hide PasswordDigest, SameKey;
    if p == [] {
      assert p + p == p;
    } else {
      assert p + (p + p) == (p + p) + p;
      CommutingHaveSameKey(p + p, p);
      SameKeySameDigest(init, p + p, p, salt);
    }
  }

  /** The empty password is the one of a single zero byte. */
  lemma EmptyPassword(init: Cipher, salt: seq<Byte>)
    requires init.Valid() && salt != []
    ensures PasswordDigest(init, [], salt) == PasswordDigest(init, [0], salt)
  {
    hide PasswordDigest;
    forall k | 0 <= k < MAX_PASSWORD ensures Key([], k) == Key([0], k) {
      assert Buffer([])[0] == Buffer([0])[0];
    }
    SameKeySameDigest(init, [], [0], salt);
  }
}
