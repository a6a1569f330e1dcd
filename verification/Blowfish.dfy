/**
 The Blowfish rounds and the Eksblowfish key schedule, after `src/crypto/bcrypt.c:68-230`.

 Everything holds for arbitrary initial tables; the 4 x 256 S-box entries are kept in one array of 1024
 in the order in which C lays them out.
 */
module Blowfish {
  import opened Radix
  import opened Words

  datatype Cipher = Cipher(p: seq<bv32>, s: seq<bv32>) {
    predicate Valid() {
      |p| == 18 && |s| == 1024
    }
  }

  datatype Block = Block(l: bv32, r: bv32)

  /** `fo`: the four bytes of `x` select one entry of each S-box. */
  function Feistel(s: seq<bv32>, x: bv32): bv32
    requires |s| == 1024
  {
    Xor(Xor(Xor(s[ByteAt(x, 0)], s[256 + ByteAt(x, 1)]), s[512 + ByteAt(x, 2)]), s[768 + ByteAt(x, 3)])
  }

  function Round(c: Cipher, i: nat, b: Block): Block
    requires c.Valid() && i < 18
  {
    var x := Xor(b.l, c.p[i]);
    Block(Xor(b.r, Feistel(c.s, x)), x)
  }

  function Rounds(c: Cipher, n: nat, b: Block): Block
    requires c.Valid() && n <= 16
  {
    if n == 0 then b else Round(c, n - 1, Rounds(c, n - 1, b))
  }

  function Whiten(c: Cipher, b: Block): Block
    requires c.Valid()
  {
    Block(Xor(b.l, c.p[16]), Xor(b.r, c.p[17]))
  }

  function Encipher(c: Cipher, b: Block): Block
    requires c.Valid()
  {
    Whiten(c, Rounds(c, 16, b))
  }

  //////////////////////////////////////////////////////////////////////////////
  // The cipher is a bijection
  //////////////////////////////////////////////////////////////////////////////

  function Unround(c: Cipher, i: nat, b: Block): Block
    requires c.Valid() && i < 18
  {
    Block(Xor(b.r, c.p[i]), Xor(b.l, Feistel(c.s, b.r)))
  }

  function Unrounds(c: Cipher, n: nat, b: Block): Block
    requires c.Valid() && n <= 16
  {
    if n == 0 then b else Unrounds(c, n - 1, Unround(c, n - 1, b))
  }

  function Decipher(c: Cipher, b: Block): Block
    requires c.Valid()
  {
    Unrounds(c, 16, Whiten(c, b))
  }

  lemma RoundInverse(c: Cipher, i: nat, b: Block)
    requires c.Valid() && i < 18
    ensures Unround(c, i, Round(c, i, b)) == b && Round(c, i, Unround(c, i, b)) == b
  {
    hide Feistel, Xor;
    var x := Xor(b.l, c.p[i]);
    XorTwice(b.l, c.p[i]);
    XorTwice(b.r, Feistel(c.s, x));
    XorTwice(b.r, c.p[i]);
    XorTwice(b.l, Feistel(c.s, b.r));
  }

  lemma WhitenTwice(c: Cipher, b: Block)
    requires c.Valid()
    ensures Whiten(c, Whiten(c, b)) == b
  {
    hide Xor;
    XorTwice(b.l, c.p[16]);
    XorTwice(b.r, c.p[17]);
  }

  lemma {:induction false} RoundsInverse(c: Cipher, n: nat, b: Block)
    requires c.Valid() && n <= 16
    ensures Unrounds(c, n, Rounds(c, n, b)) == b && Rounds(c, n, Unrounds(c, n, b)) == b
  {
    hide Round, Unround;
    if n > 0 {
      RoundsInverse(c, n - 1, b);
      RoundInverse(c, n - 1, Rounds(c, n - 1, b));
      var u := Unround(c, n - 1, b);
      RoundsInverse(c, n - 1, u);
      RoundInverse(c, n - 1, b);
    }
  }

  /** For every key state the 16 rounds are a bijection on 64-bit blocks, with an explicit inverse. */
  lemma CipherIsBijection(c: Cipher, b: Block)
    requires c.Valid()
    ensures Decipher(c, Encipher(c, b)) == b && Encipher(c, Decipher(c, b)) == b
  {
    hide Whiten, Rounds, Unrounds;
    RoundsInverse(c, 16, b);
    RoundsInverse(c, 16, Whiten(c, b));
    WhitenTwice(c, Rounds(c, 16, b));
    WhitenTwice(c, b);
  }

  //////////////////////////////////////////////////////////////////////////////
  // Cyclic byte streams
  //////////////////////////////////////////////////////////////////////////////

  /** Position reached after `k` steps around a ring of `n` places: k mod n. */
  function Around(n: nat, k: nat): (i: nat)
    requires n > 0
    ensures i < n
  {
    if k == 0 then 0 else var i := Around(n, k - 1); if i + 1 == n then 0 else i + 1
  }

  lemma {:induction false} AroundIsRemainder(n: nat, k: nat)
    requires n > 0
    ensures Around(n, k) == k % n
  {
    if k == 0 {
      assert 0 % n == 0;
    } else {
      AroundIsRemainder(n, k - 1);
      RemainderStep(n, k - 1);
    }
  }

  lemma RemainderStep(n: nat, k: nat)
    requires n > 0
    ensures (k + 1) % n == if k % n + 1 == n then 0 else k % n + 1
  {
    var q, r := k / n, k % n;
    assert k == q * n + r;
    if r + 1 == n {
      assert k + 1 == (q + 1) * n;
      RemainderUnique(k + 1, n, q + 1, 0);
    } else {
      RemainderUnique(k + 1, n, q, r + 1);
    }
  }

  lemma RemainderUnique(k: nat, n: nat, q: nat, r: nat)
    requires n > 0 && k == q * n + r && r < n
    ensures k % n == r
  {
    var q', r' := k / n, k % n;
    assert k == q' * n + r';
    Gap(q, q', n);
    Gap(q', q, n);
  }

  lemma {:induction false} Gap(a: nat, b: nat, n: nat)
    ensures a < b ==> b * n >= a * n + n
  {
    if a < b {
      Gap(a, b - 1, n);
      OneMore(b - 1, n);
    }
  }

  lemma OneMore(a: nat, n: nat)
    ensures (a + 1) * n == a * n + n
  {
  }

  /** Byte `k` of the password repeated for ever; an empty password repeats the first buffer byte. */
  function KeyByte(pwd: seq<Byte>, len: nat, k: nat): Byte
    requires len <= |pwd| && pwd != []
  {
    pwd[Around(if len == 0 then 1 else len, k)]
  }

  /** Byte `k` of the salt repeated for ever. */
  function SaltByte(salt: seq<Byte>, k: nat): Byte
    requires salt != []
  {
    salt[Around(|salt|, k)]
  }

  /** `(w << 8) | b`. */
  function KeyWord(pwd: seq<Byte>, len: nat, i: nat): bv32
    requires len <= |pwd| && pwd != []
  {
    BigEndian(KeyByte(pwd, len, 4 * i), KeyByte(pwd, len, 4 * i + 1),
              KeyByte(pwd, len, 4 * i + 2), KeyByte(pwd, len, 4 * i + 3))
  }

  function SaltWord(salt: seq<Byte>, i: nat): bv32
    requires salt != []
  {
    BigEndian(SaltByte(salt, 4 * i), SaltByte(salt, 4 * i + 1), SaltByte(salt, 4 * i + 2), SaltByte(salt, 4 * i + 3))
  }

  //////////////////////////////////////////////////////////////////////////////
  // What the cipher computes
  //////////////////////////////////////////////////////////////////////////////

  /** The round function of empty boxes is zero. */
  lemma FeistelOfZero(s: seq<bv32>, x: bv32)
    requires |s| == 1024 && forall i :: 0 <= i < 1024 ==> s[i] == 0
    ensures Feistel(s, x) == 0
  {
    hide Xor, ByteAt;
    XorZero(0);
  }

  /**
   Changing entry `k` of box `j` by `d` changes the round function by `d` exactly where digit `j` of its
   argument is `k`, and nowhere else. With `FeistelOfZero` this determines it.
   */
  lemma FeistelDifference(s: seq<bv32>, j: nat, k: nat, d: bv32, x: bv32)
    requires |s| == 1024 && j < 4 && k < 256
    ensures Feistel(s[256 * j + k := Xor(s[256 * j + k], d)], x)
         == Xor(Feistel(s, x), if Digit(WordValue(x), j) == k then d else 0)
  {
    hide Xor, ByteAt, Digit, WordValue;
    var i0, i1, i2, i3 := ByteAt(x, 0), ByteAt(x, 1), ByteAt(x, 2), ByteAt(x, 3);
    ByteIsDigit(x, j);
    XorZero(Feistel(s, x));
    FourWords(s[i0], s[256 + i1], s[512 + i2], s[768 + i3], d);
    OneEntry(s, j, k, Xor(s[256 * j + k], d), i0, i1, i2, i3);
  }

  lemma OneEntry(s: seq<bv32>, j: nat, k: nat, v: bv32, i0: nat, i1: nat, i2: nat, i3: nat)
    requires |s| == 1024 && j < 4 && k < 256 && i0 < 256 && i1 < 256 && i2 < 256 && i3 < 256
    ensures var t := s[256 * j + k := v];
            && t[i0] == (if j == 0 && i0 == k then v else s[i0])
            && t[256 + i1] == (if j == 1 && i1 == k then v else s[256 + i1])
            && t[512 + i2] == (if j == 2 && i2 == k then v else s[512 + i2])
            && t[768 + i3] == (if j == 3 && i3 == k then v else s[768 + i3])
  {
  }

  lemma FourWords(a: bv32, b: bv32, c: bv32, e: bv32, d: bv32)
    ensures Xor(Xor(Xor(Xor(a, d), b), c), e) == Xor(Xor(Xor(Xor(a, b), c), e), d)
    ensures Xor(Xor(Xor(a, Xor(b, d)), c), e) == Xor(Xor(Xor(Xor(a, b), c), e), d)
    ensures Xor(Xor(Xor(a, b), Xor(c, d)), e) == Xor(Xor(Xor(Xor(a, b), c), e), d)
    ensures Xor(Xor(Xor(a, b), c), Xor(e, d)) == Xor(Xor(Xor(Xor(a, b), c), e), d)
  {
    hide Xor;
    var ab := Xor(a, b);
    XorMoves(a, b, d);
    XorMoves(ab, c, d);
    XorMoves(Xor(ab, c), e, d);
    XorAssociates(a, b, d);
    XorAssociates(ab, c, d);
    XorAssociates(Xor(ab, c), e, d);
  }

  /**
   The rounds as the recurrence of a Feistel network, without halves that are exchanged: each word is the
   one two places before it, changed by the round function of the one before it and by its own P word.
   */
  ghost predicate Network(c: Cipher, b: Block, t: seq<bv32>)
    requires c.Valid()
  {
    && 2 <= |t| <= 18 && t[0] == b.r && t[1] == Xor(b.l, c.p[0])
    && forall i :: 2 <= i < |t| ==> t[i] == Xor(Xor(t[i - 2], Feistel(c.s, t[i - 1])), c.p[i - 1])
  }

  lemma {:induction false} RoundsNetwork(c: Cipher, n: nat, b: Block) returns (t: seq<bv32>)
    requires c.Valid() && n <= 16
    ensures |t| == n + 2 && Network(c, b, t) && Rounds(c, n, b) == Block(Xor(t[n + 1], c.p[n]), t[n])
  {
    hide Feistel, Xor;
    if n == 0 {
      t := [b.r, Xor(b.l, c.p[0])];
      XorTwice(b.l, c.p[0]);
    } else {
      var u := RoundsNetwork(c, n - 1, b);
      var left := Xor(u[n - 1], Feistel(c.s, u[n]));
      t := u + [Xor(left, c.p[n])];
      XorTwice(u[n], c.p[n - 1]);
      XorTwice(left, c.p[n]);
    }
  }

  /** The cipher's output is the last word of the network, and the one before it changed by the last P word. */
  lemma EncipherIsNetwork(c: Cipher, b: Block) returns (t: seq<bv32>)
    requires c.Valid()
    ensures |t| == 18 && Network(c, b, t) && Encipher(c, b) == Block(t[17], Xor(t[16], c.p[17]))
  {
    hide Rounds, Feistel, Xor, Network;
    t := RoundsNetwork(c, 16, b);
    XorTwice(t[17], c.p[16]);
  }

  lemma {:induction false} NetworkUnique(c: Cipher, b: Block, t: seq<bv32>, u: seq<bv32>, i: nat)
    requires c.Valid() && Network(c, b, t) && Network(c, b, u) && i < |t| == |u|
    ensures t[i] == u[i]
  {
    hide Feistel, Xor;
    if i >= 2 {
      NetworkUnique(c, b, t, u, i - 1);
      NetworkUnique(c, b, t, u, i - 2);
    }
  }

  /** Changing P word 16 by `d` changes the left output word by `d`, and P word 17 the right one. */
  lemma WhiteningDifference(c: Cipher, b: Block, d: bv32)
    requires c.Valid()
    ensures var out := Encipher(c, b);
            && Encipher(c.(p := c.p[16 := Xor(c.p[16], d)]), b) == Block(Xor(out.l, d), out.r)
            && Encipher(c.(p := c.p[17 := Xor(c.p[17], d)]), b) == Block(out.l, Xor(out.r, d))
  {
    hide Rounds, Xor;
    RoundsReadPrefix(c, c.(p := c.p[16 := Xor(c.p[16], d)]), 16, b);
    RoundsReadPrefix(c, c.(p := c.p[17 := Xor(c.p[17], d)]), 16, b);
    var mid := Rounds(c, 16, b);
    XorAssociates(mid.l, c.p[16], d);
    XorAssociates(mid.r, c.p[17], d);
  }

  lemma {:induction false} RoundsReadPrefix(c: Cipher, c': Cipher, n: nat, b: Block)
    requires c.Valid() && c'.Valid() && n <= 16 && c.s == c'.s && forall i :: 0 <= i < 16 ==> c.p[i] == c'.p[i]
    ensures Rounds(c, n, b) == Rounds(c', n, b)
  {
    hide Feistel, Xor;
    if n > 0 {
      RoundsReadPrefix(c, c', n - 1, b);
    }
  }

  //////////////////////////////////////////////////////////////////////////////
  // What the key schedule computes
  //////////////////////////////////////////////////////////////////////////////

  /** The password words folded into the initial P-array. */
  function Keyed(init: Cipher, pwd: seq<Byte>, len: nat): (c: Cipher)
    requires init.Valid() && len <= |pwd| && pwd != []
    ensures c.Valid()
  {
    init.(p := seq(18, i requires 0 <= i < 18 => Xor(init.p[i], KeyWord(pwd, len, i))))
  }

  /** A block with salt words `i` and `i + 1` folded in. */
  function Salted(b: Block, salt: seq<Byte>, i: nat): Block
    requires salt != []
  {
    Block(Xor(b.l, SaltWord(salt, i)), Xor(b.r, SaltWord(salt, i + 1)))
  }

  function SetPair(t: seq<bv32>, i: nat, b: Block): (t': seq<bv32>)
    requires i + 2 <= |t|
    ensures |t'| == |t|
  {
    t[i := b.l][i + 1 := b.r]
  }

  datatype Phase = Phase(c: Cipher, b: Block)

  function PStep(ph: Phase, n: nat, salt: seq<Byte>): (ph': Phase)
    requires ph.c.Valid() && n < 9 && salt != []
    ensures ph'.c.Valid()
  {
    var b := Encipher(ph.c, Salted(ph.b, salt, 2 * n));
    Phase(ph.c.(p := SetPair(ph.c.p, 2 * n, b)), b)
  }

  /** The first `n` pairs of the P-array replaced, each block chained to the one before. */
  function PPhase(c: Cipher, n: nat, salt: seq<Byte>): (ph: Phase)
    requires c.Valid() && n <= 9 && salt != []
    ensures ph.c.Valid()
  {
    if n == 0 then Phase(c, Block(0, 0)) else PStep(PPhase(c, n - 1, salt), n - 1, salt)
  }

  function SStep(c: Cipher, b: Block, n: nat, salt: seq<Byte>): (c': Cipher)
    requires c.Valid() && n < 512 && salt != []
    ensures c'.Valid()
  {
    c.(s := SetPair(c.s, 2 * n, Encipher(c, Salted(b, salt, 18 + 2 * n))))
  }

  /** The first `n` pairs of the S-boxes replaced; every block starts from the last P block `b`. */
  function SPhase(c: Cipher, b: Block, n: nat, salt: seq<Byte>): (c': Cipher)
    requires c.Valid() && n <= 512 && salt != []
    ensures c'.Valid()
  {
    if n == 0 then c else SStep(SPhase(c, b, n - 1, salt), b, n - 1, salt)
  }

  function Schedule(init: Cipher, pwd: seq<Byte>, len: nat, salt: seq<Byte>): (c: Cipher)
    requires init.Valid() && len <= |pwd| && pwd != [] && salt != []
    ensures c.Valid()
  {
    var ph := PPhase(Keyed(init, pwd, len), 9, salt);
    SPhase(ph.c, ph.b, 512, salt)
  }

  /** Salt and key bytes are indexed by the number of bytes read before, modulo the length. */
  lemma StreamsAreCyclic(pwd: seq<Byte>, len: nat, salt: seq<Byte>, k: nat)
    requires len <= |pwd| && pwd != [] && salt != []
    ensures len > 0 ==> KeyByte(pwd, len, k) == pwd[k % len]
    ensures len == 0 ==> KeyByte(pwd, len, k) == pwd[0]
    ensures SaltByte(salt, k) == salt[k % |salt|]
  {
    if len > 0 {
      AroundIsRemainder(len, k);
    }
    AroundIsRemainder(|salt|, k);
  }

  /** The schedule sees the password only through the first 72 bytes of its cyclic stream. */
  lemma ScheduleOfStream(init: Cipher, p: seq<Byte>, m: nat, q: seq<Byte>, n: nat, salt: seq<Byte>)
    requires init.Valid() && m <= |p| && n <= |q| && p != [] && q != [] && salt != []
    requires forall k :: 0 <= k < 72 ==> KeyByte(p, m, k) == KeyByte(q, n, k)
    ensures Schedule(init, p, m, salt) == Schedule(init, q, n, salt)
  {
    hide PPhase, SPhase, KeyByte, BigEndian, Xor;
    assert Keyed(init, p, m) == Keyed(init, q, n);
  }

  //////////////////////////////////////////////////////////////////////////////
  // The schedule step by step
  //////////////////////////////////////////////////////////////////////////////

  /** Byte `k` of a key of the given length repeated for ever. */
  function KeyAt(pwd: seq<Byte>, len: nat, k: nat): Byte
    requires len <= |pwd| && pwd != []
  {
    if len == 0 then pwd[0] else pwd[k % len]
  }

  function SaltAt(salt: seq<Byte>, k: nat): Byte
    requires salt != []
  {
    salt[k % |salt|]
  }

  /** Block `n` of the salt: its bytes `8n` to `8n + 3` on the left and the next four on the right. */
  function SaltBlock(salt: seq<Byte>, n: nat): Block
    requires salt != []
  {
    Block(BigEndian(SaltAt(salt, 8 * n), SaltAt(salt, 8 * n + 1), SaltAt(salt, 8 * n + 2), SaltAt(salt, 8 * n + 3)),
          BigEndian(SaltAt(salt, 8 * n + 4), SaltAt(salt, 8 * n + 5), SaltAt(salt, 8 * n + 6), SaltAt(salt, 8 * n + 7)))
  }

  function XorBlock(a: Block, b: Block): Block {
    Block(Xor(a.l, b.l), Xor(a.r, b.r))
  }

  /** Step 1: the key is folded into the P-array word by word. */
  ghost predicate KeyFolded(init: Cipher, pwd: seq<Byte>, len: nat, c: Cipher)
    requires init.Valid() && len <= |pwd| && pwd != []
  {
    && c.Valid() && c.s == init.s
    && forall i :: 0 <= i < 18 ==>
         c.p[i] == Xor(init.p[i], BigEndian(KeyAt(pwd, len, 4 * i), KeyAt(pwd, len, 4 * i + 1),
                                            KeyAt(pwd, len, 4 * i + 2), KeyAt(pwd, len, 4 * i + 3)))
  }

  /** Step 2: `b` enciphers the last block and a salt block, and replaces two P words. */
  ghost predicate PReplaced(c: Cipher, last: Block, salt: seq<Byte>, n: nat, c': Cipher, b: Block)
    requires salt != [] && n < 9
  {
    && c.Valid() && c'.Valid()
    && b == Encipher(c, XorBlock(last, SaltBlock(salt, n)))
    && c'.s == c.s && c'.p == c.p[2 * n := b.l][2 * n + 1 := b.r]
  }

  /** Step 3: the same for two S words, always from the last block of step 2. */
  ghost predicate SReplaced(c: Cipher, last: Block, salt: seq<Byte>, n: nat, c': Cipher)
    requires salt != [] && n < 512
  {
    && c.Valid() && c'.Valid()
    && var b := Encipher(c, XorBlock(last, SaltBlock(salt, 9 + n)));
       c'.p == c.p && c'.s == c.s[2 * n := b.l][2 * n + 1 := b.r]
  }

  /** The states and blocks of a whole schedule. */
  ghost predicate Trace(init: Cipher, pwd: seq<Byte>, len: nat, salt: seq<Byte>, cs: seq<Cipher>, bs: seq<Block>)
    requires init.Valid() && len <= |pwd| && pwd != [] && salt != []
  {
    && |cs| == 1 + 9 + 512 && |bs| == 1 + 9 && bs[0] == Block(0, 0)
    && KeyFolded(init, pwd, len, cs[0])
    && (forall n :: 0 < n <= 9 ==> PReplaced(cs[n - 1], bs[n - 1], salt, n - 1, cs[n], bs[n]))
    && (forall n :: 9 < n < 522 ==> SReplaced(cs[n - 1], bs[9], salt, n - 10, cs[n]))
  }

  lemma WordsAreCyclic(pwd: seq<Byte>, len: nat, salt: seq<Byte>, i: nat)
    requires len <= |pwd| && pwd != [] && salt != []
    ensures KeyWord(pwd, len, i) == BigEndian(KeyAt(pwd, len, 4 * i), KeyAt(pwd, len, 4 * i + 1),
                                              KeyAt(pwd, len, 4 * i + 2), KeyAt(pwd, len, 4 * i + 3))
    ensures SaltWord(salt, i) == BigEndian(SaltAt(salt, 4 * i), SaltAt(salt, 4 * i + 1),
                                           SaltAt(salt, 4 * i + 2), SaltAt(salt, 4 * i + 3))
  {
    hide BigEndian, KeyByte, SaltByte;
    StreamsAreCyclic(pwd, len, salt, 4 * i);
    StreamsAreCyclic(pwd, len, salt, 4 * i + 1);
    StreamsAreCyclic(pwd, len, salt, 4 * i + 2);
    StreamsAreCyclic(pwd, len, salt, 4 * i + 3);
  }

  lemma SaltedIsBlock(b: Block, salt: seq<Byte>, n: nat)
    requires salt != []
    ensures Salted(b, salt, 2 * n) == XorBlock(b, SaltBlock(salt, n))
  {
    hide BigEndian, SaltAt, SaltWord, Xor;
    WordsAreCyclic([0], 0, salt, 2 * n);
    WordsAreCyclic([0], 0, salt, 2 * n + 1);
  }

  lemma KeyedIsFolded(init: Cipher, pwd: seq<Byte>, len: nat, c: Cipher)
    requires init.Valid() && len <= |pwd| && pwd != []
    ensures KeyFolded(init, pwd, len, c) <==> c == Keyed(init, pwd, len)
  {
    hide BigEndian, KeyAt, KeyWord, Xor;
    forall i | 0 <= i < 18
      ensures KeyWord(pwd, len, i) == BigEndian(KeyAt(pwd, len, 4 * i), KeyAt(pwd, len, 4 * i + 1),
                                                KeyAt(pwd, len, 4 * i + 2), KeyAt(pwd, len, 4 * i + 3))
    {
      WordsAreCyclic(pwd, len, [0], i);
    }
    if KeyFolded(init, pwd, len, c) {
      assert c.p == Keyed(init, pwd, len).p;
    }
  }

  lemma PStepIsReplaced(c: Cipher, last: Block, salt: seq<Byte>, n: nat, c': Cipher, b: Block)
    requires c.Valid() && salt != [] && n < 9
    ensures PReplaced(c, last, salt, n, c', b) <==> Phase(c', b) == PStep(Phase(c, last), n, salt)
  {
    hide Encipher, SaltBlock, Salted, XorBlock;
    SaltedIsBlock(last, salt, n);
  }

  lemma SStepIsReplaced(c: Cipher, last: Block, salt: seq<Byte>, n: nat, c': Cipher)
    requires c.Valid() && salt != [] && n < 512
    ensures SReplaced(c, last, salt, n, c') <==> c' == SStep(c, last, n, salt)
  {
    hide Encipher, SaltBlock, Salted, XorBlock;
    SaltedIsBlock(last, salt, 9 + n);
    assert 2 * (9 + n) == 18 + 2 * n;
  }

  lemma {:induction false} TraceOfP(init: Cipher, pwd: seq<Byte>, len: nat, salt: seq<Byte>, cs: seq<Cipher>,
                                    bs: seq<Block>, n: nat)
    requires init.Valid() && len <= |pwd| && pwd != [] && salt != [] && Trace(init, pwd, len, salt, cs, bs) && n <= 9
    ensures cs[n].Valid() && PPhase(Keyed(init, pwd, len), n, salt) == Phase(cs[n], bs[n])
  {
    hide KeyFolded, PReplaced, SReplaced, PStep, Keyed;
    KeyedIsFolded(init, pwd, len, cs[0]);
    if n > 0 {
      TraceOfP(init, pwd, len, salt, cs, bs, n - 1);
      PStepIsReplaced(cs[n - 1], bs[n - 1], salt, n - 1, cs[n], bs[n]);
    }
  }

  lemma {:induction false} TraceOfS(init: Cipher, pwd: seq<Byte>, len: nat, salt: seq<Byte>, cs: seq<Cipher>,
                                    bs: seq<Block>, n: nat)
    requires init.Valid() && len <= |pwd| && pwd != [] && salt != [] && Trace(init, pwd, len, salt, cs, bs) && n <= 512
    ensures cs[9].Valid() && cs[9 + n].Valid() && SPhase(cs[9], bs[9], n, salt) == cs[9 + n]
  {
    hide KeyFolded, PReplaced, SReplaced, SStep, Keyed, PPhase;
    TraceOfP(init, pwd, len, salt, cs, bs, 9);
    if n > 0 {
      TraceOfS(init, pwd, len, salt, cs, bs, n - 1);
      var k := 9 + n;
      assert SReplaced(cs[k - 1], bs[9], salt, k - 10, cs[k]);
      SStepIsReplaced(cs[k - 1], bs[9], salt, n - 1, cs[k]);
    }
  }

  /** The schedule is the last state of every trace. */
  lemma ScheduleIsTrace(init: Cipher, pwd: seq<Byte>, len: nat, salt: seq<Byte>, cs: seq<Cipher>, bs: seq<Block>)
    requires init.Valid() && len <= |pwd| && pwd != [] && salt != [] && Trace(init, pwd, len, salt, cs, bs)
    ensures Schedule(init, pwd, len, salt) == cs[521]
  {
    hide Trace, PPhase, SPhase, Keyed;
    TraceOfP(init, pwd, len, salt, cs, bs, 9);
    TraceOfS(init, pwd, len, salt, cs, bs, 512);
  }

  /** There is a trace. */
  lemma TraceExists(init: Cipher, pwd: seq<Byte>, len: nat, salt: seq<Byte>) returns (cs: seq<Cipher>, bs: seq<Block>)
    requires init.Valid() && len <= |pwd| && pwd != [] && salt != []
    ensures Trace(init, pwd, len, salt, cs, bs)
  {
    hide KeyFolded, PReplaced, SReplaced, PStep, SStep, Keyed;
    var c := Keyed(init, pwd, len);
    var ph := PPhase(c, 9, salt);
    cs := seq(522, n requires 0 <= n < 522 => if n <= 9 then PPhase(c, n, salt).c else SPhase(ph.c, ph.b, n - 9, salt));
    bs := seq(10, n requires 0 <= n < 10 => PPhase(c, n, salt).b);
    KeyedIsFolded(init, pwd, len, c);
    forall n | 0 < n <= 9 ensures PReplaced(cs[n - 1], bs[n - 1], salt, n - 1, cs[n], bs[n]) {
      assert Phase(cs[n], bs[n]) == PPhase(c, n, salt) == PStep(PPhase(c, n - 1, salt), n - 1, salt);
      assert Phase(cs[n - 1], bs[n - 1]) == PPhase(c, n - 1, salt);
      PStepIsReplaced(cs[n - 1], bs[n - 1], salt, n - 1, cs[n], bs[n]);
    }
    forall n | 9 < n < 522 ensures SReplaced(cs[n - 1], bs[9], salt, n - 10, cs[n]) {
      assert cs[n - 1] == SPhase(ph.c, ph.b, n - 10, salt);
      assert cs[n] == SPhase(ph.c, ph.b, n - 9, salt) == SStep(SPhase(ph.c, ph.b, n - 10, salt), ph.b, n - 10, salt);
      SStepIsReplaced(cs[n - 1], bs[9], salt, n - 10, cs[n]);
    }
  }

  //////////////////////////////////////////////////////////////////////////////
  // The procedures
  //////////////////////////////////////////////////////////////////////////////

  /** `csilk_bcrypt_state_t`. A new state holds arbitrary words, like the uninitialised C struct. */
  class State {
    const P: array<bv32>
    const S: array<bv32>

    ghost predicate Valid() {
      P.Length == 18 && S.Length == 1024 && P != S
    }

    ghost function Value(): (c: Cipher)
      requires Valid()
      reads P, S
      ensures c.Valid()
    {
      Cipher(P[..], S[..])
    }

    constructor ()
      ensures Valid() && fresh(P) && fresh(S)
    {
      P := new bv32[18];
      S := new bv32[1024];
    }

    /** `blowfish_encipher`; `input` and `output` may be the same array. */
    method BlowfishEncipher(input: array<bv32>, output: array<bv32>)
      requires Valid() && input.Length == 2 && output.Length == 2 && output != P && output != S
      modifies output
      ensures Block(output[0], output[1]) == Encipher(Value(), Block(old(input[0]), old(input[1])))
    {
      hide Feistel, Xor;
      var xl, xr := input[0], input[1];
      ghost var b := Block(xl, xr);
      var i := 0;
      while i < 16
        invariant 0 <= i <= 16 && Block(xl, xr) == Rounds(Value(), i, b)
      {
        xl := Xor(xl, P[i]);
        xr := Xor(xr, Feistel(S[..], xl));
        var tmp := xl;
        xl := xr;
        xr := tmp;
        i := i + 1;
      }
      output[0] := Xor(xl, P[16]);
      output[1] := Xor(xr, P[17]);
    }

    /** `eksblowfish_key_setup`. The outcome does not depend on what the state held before. */
    method KeySetup(init: Cipher, pwd: seq<Byte>, len: nat, salt: seq<Byte>)
      requires Valid() && init.Valid() && len <= |pwd| && pwd != [] && salt != []
      modifies P, S
      ensures Value() == Schedule(init, pwd, len, salt)
    {
      hide Keyed, PPhase, SPhase;
      LoadKey(init, pwd, len);
      var block := new bv32[2](_ => 0);
      var idx := MixP(block, salt);
      MixS(block, salt, idx);
    }

    /** Copies the initial tables and folds the password into the P-array (step 1). */
    method LoadKey(init: Cipher, pwd: seq<Byte>, len: nat)
      requires Valid() && init.Valid() && len <= |pwd| && pwd != []
      modifies P, S
      ensures Value() == Keyed(init, pwd, len)
    {
      hide Xor, KeyWord;
      forall k | 0 <= k < 18 { P[k] := init.p[k]; }
      forall k | 0 <= k < 1024 { S[k] := init.s[k]; }
      var pwdIdx := 0;
      var i := 0;
      while i < 18
        invariant 0 <= i <= 18 && KeyCursor(len, 4 * i, pwdIdx)
        invariant forall k :: 0 <= k < 18 ==> P[k] == if k < i then Xor(init.p[k], KeyWord(pwd, len, k)) else init.p[k]
        invariant S[..] == init.s
      {
        var datal;
        datal, pwdIdx := NextKeyWord(pwd, len, pwdIdx, i);
        P[i] := Xor(P[i], datal);
        i := i + 1;
      }
    }

    /** Encrypts the salted chain through the P-array (step 2); `block` holds `datal` and `datar`. */
    method MixP(block: array<bv32>, salt: seq<Byte>) returns (saltIdx: nat)
      requires Valid() && salt != []
      requires block.Length == 2 && block != P && block != S && block[0] == 0 && block[1] == 0
      modifies P, block
      ensures S[..] == old(S[..])
      ensures Phase(Value(), Block(block[0], block[1])) == PPhase(old(Value()), 9, salt)
      ensures saltIdx == Around(|salt|, 4 * 18)
    {
      hide PStep;
      ghost var start := Value();
      saltIdx := 0;
      var i := 0;
      ghost var n := 0;
      while i < 18
        invariant i == 2 * n && 0 <= n <= 9 && saltIdx == Around(|salt|, 4 * i)
        invariant S[..] == old(S[..])
        invariant Phase(Value(), Block(block[0], block[1])) == PPhase(start, n, salt)
      {
        saltIdx := MixPPair(i, block, salt, saltIdx, n);
        n := n + 1;
        i := i + 2;
      }
    }

    method MixPPair(i: nat, block: array<bv32>, salt: seq<Byte>, idx: nat, ghost n: nat) returns (idx': nat)
      requires Valid() && salt != [] && i == 2 * n && n < 9 && idx == Around(|salt|, 4 * i)
      requires block.Length == 2 && block != P && block != S
      modifies P, block
      ensures S[..] == old(S[..])
      ensures Phase(Value(), Block(block[0], block[1]))
           == PStep(old(Phase(Value(), Block(block[0], block[1]))), n, salt)
      ensures idx' == Around(|salt|, 4 * (i + 2))
    {
      hide Encipher, Xor, SaltWord;
      ghost var c := Value();
      var newL, newR;
      newL, idx' := NextSaltWord(salt, idx, i);
      newR, idx' := NextSaltWord(salt, idx', i + 1);
      block[0], block[1] := Xor(block[0], newL), Xor(block[1], newR);
      BlowfishEncipher(block, block);
      P[i] := block[0];
      P[i + 1] := block[1];
      assert P[..] == SetPair(c.p, i, Block(block[0], block[1]));
    }

    /** Encrypts through the S-boxes (step 3), each block starting from the last P block. */
    method MixS(last: array<bv32>, salt: seq<Byte>, start: nat)
      requires Valid() && salt != [] && start == Around(|salt|, 4 * 18)
      requires last.Length == 2 && last != P && last != S
      modifies S
      ensures P[..] == old(P[..])
      ensures Value() == SPhase(old(Value()), Block(last[0], last[1]), 512, salt)
    {
      hide SStep;
      var datal, datar := last[0], last[1];
      ghost var c, b := Value(), Block(datal, datar);
      var saltIdx := start;
      ghost var n := 0;
      var i := 0;
      while i < 4
        invariant 0 <= i <= 4 && n == 128 * i && saltIdx == Around(|salt|, 4 * (18 + 2 * n))
        invariant P[..] == old(P[..]) && Value() == SPhase(c, b, n, salt)
      {
        var j := 0;
        while j < 256
          invariant 0 <= j <= 256 && 2 * n == 256 * i + j && n <= 512 && saltIdx == Around(|salt|, 4 * (18 + 2 * n))
          invariant P[..] == old(P[..]) && Value() == SPhase(c, b, n, salt)
        {
          saltIdx := MixSPair(256 * i + j, datal, datar, salt, saltIdx, n);
          n := n + 1;
          j := j + 2;
        }
        i := i + 1;
      }
    }

    method MixSPair(at: nat, datal: bv32, datar: bv32, salt: seq<Byte>, idx: nat, ghost n: nat) returns (idx': nat)
      requires Valid() && salt != [] && at == 2 * n && n < 512 && idx == Around(|salt|, 4 * (18 + 2 * n))
      modifies S
      ensures P[..] == old(P[..])
      ensures Value() == SStep(old(Value()), Block(datal, datar), n, salt)
      ensures idx' == Around(|salt|, 4 * (18 + 2 * (n + 1)))
    {
      hide Encipher, Xor, SaltWord;
      ghost var c := Value();
      var newL, newR;
      newL, idx' := NextSaltWord(salt, idx, 18 + 2 * n);
      newR, idx' := NextSaltWord(salt, idx', 18 + 2 * n + 1);
      var block := new bv32[2];
      block[0], block[1] := Xor(datal, newL), Xor(datar, newR);
      BlowfishEncipher(block, block);
      S[at] := block[0];
      S[at + 1] := block[1];
      assert S[..] == SetPair(c.s, at, Block(block[0], block[1]));
    }
  }

  /** The password cursor after `k` bytes: one past the byte read last. */
  ghost predicate KeyCursor(len: nat, k: nat, idx: nat) {
    idx == if k == 0 then 0 else Around(if len == 0 then 1 else len, k - 1) + 1
  }

  /** The inner loop of step 1: four password bytes, wrapping before a read past the end. */
  method NextKeyWord(pwd: seq<Byte>, len: nat, start: nat, ghost i: nat) returns (w: bv32, idx: nat)
    requires len <= |pwd| && pwd != [] && KeyCursor(len, 4 * i, start)
    ensures w == KeyWord(pwd, len, i) && KeyCursor(len, 4 * (i + 1), idx)
  {
    hide Shift8, Packed, BigEndian;
    PackedNone();
    w, idx := 0, start;
    ghost var bytes: seq<Byte> := [];
    var j := 0;
    while j < 4
      invariant 0 <= j <= 4 && KeyCursor(len, 4 * i + j, idx)
      invariant |bytes| == j && forall k :: 0 <= k < j ==> bytes[k] == KeyByte(pwd, len, 4 * i + k)
      invariant w == Packed(bytes)
    {
      var b: Byte;
      if idx < len {
        b := pwd[idx];
        idx := idx + 1;
      } else {
        idx := 0;
        b := pwd[idx];
        idx := idx + 1;
      }
      assert b == KeyByte(pwd, len, 4 * i + j);
      PackedAppend(bytes, b);
      w := Shift8(w, b);
      bytes := bytes + [b];
      j := j + 1;
    }
    PackedFour(bytes);
  }

  /** The inner loops of steps 2 and 3: four salt bytes, wrapping after the last one is read. */
  method NextSaltWord(salt: seq<Byte>, start: nat, ghost i: nat) returns (w: bv32, idx: nat)
    requires salt != [] && start == Around(|salt|, 4 * i)
    ensures w == SaltWord(salt, i) && idx == Around(|salt|, 4 * (i + 1))
  {
    hide Shift8, Packed, BigEndian;
    PackedNone();
    w, idx := 0, start;
    ghost var bytes: seq<Byte> := [];
    var j := 0;
    while j < 4
      invariant 0 <= j <= 4 && idx == Around(|salt|, 4 * i + j)
      invariant |bytes| == j && forall k :: 0 <= k < j ==> bytes[k] == SaltByte(salt, 4 * i + k)
      invariant w == Packed(bytes)
    {
      var b := salt[idx];
      idx := idx + 1;
      if idx >= |salt| {
        idx := 0;
      }
      PackedAppend(bytes, b);
      w := Shift8(w, b);
      bytes := bytes + [b];
      j := j + 1;
    }
    PackedFour(bytes);
  }

  function Packed(s: seq<Byte>): bv32 {
    if s == [] then 0 else Shift8(Packed(s[..|s| - 1]), s[|s| - 1])
  }

  lemma PackedNone()
    ensures Packed([]) == 0
  {
  }

  lemma PackedAppend(s: seq<Byte>, b: Byte)
    ensures Packed(s + [b]) == Shift8(Packed(s), b)
  {
    assert (s + [b])[..|s|] == s;
  }

  lemma PackedFour(s: seq<Byte>)
    requires |s| == 4
    ensures Packed(s) == BigEndian(s[0], s[1], s[2], s[3])
  {
    hide Shift8;
    assert s == (([s[0]] + [s[1]]) + [s[2]]) + [s[3]];
    PackedAppend([], s[0]);
    PackedAppend([s[0]], s[1]);
    PackedAppend([s[0]] + [s[1]], s[2]);
    PackedAppend([s[0]] + [s[1]] + [s[2]], s[3]);
    assert [] + [s[0]] == [s[0]];
  }
}
