/** 32-bit words: exclusive or, their bytes, and the numbers they stand for. */
module Words {
  import opened Radix

  function Xor(x: bv32, y: bv32): bv32 {
    x ^ y
  }

  lemma XorTwice(x: bv32, k: bv32)
    ensures Xor(Xor(x, k), k) == x
  {
  }

  lemma XorAssociates(x: bv32, y: bv32, z: bv32)
    ensures Xor(Xor(x, y), z) == Xor(x, Xor(y, z))
  {
  }

  lemma XorCommutes(x: bv32, y: bv32)
    ensures Xor(x, y) == Xor(y, x)
  {
  }

  lemma XorZero(x: bv32)
    ensures Xor(x, 0) == x && Xor(0, x) == x
  {
  }

  /** The last operand can be moved inside. */
  lemma XorMoves(x: bv32, y: bv32, d: bv32)
    ensures Xor(Xor(x, d), y) == Xor(Xor(x, y), d)
  {
    hide Xor;
    XorAssociates(x, d, y);
    XorCommutes(d, y);
    XorAssociates(x, y, d);
  }

  /** `(w << 8) | b`. */
  function Shift8(w: bv32, b: Byte): bv32 {
    Join(w, Low(b))
  }

  function Join(w: bv32, x: bv8): bv32 {
    (w << 8) | (x as bv32)
  }

  function Low(b: Byte): bv8 {
    b as bv8
  }

  /** The lowest byte of a word. */
  function Index(x: bv32): (i: nat)
    ensures i < 256
  {
    ByteValue(LowByte(x))
  }

  /** `(x >> 8 * j) & 0xFF`. */
  function ByteAt(x: bv32, j: nat): (i: nat)
    ensures i < 256
  {
    match j
    case 0 => Index(x)
    case 1 => Index(x >> 8)
    case 2 => Index(x >> 16)
    case _ => Index(x >> 24)
  }

  function LowByte(x: bv32): bv8 {
    (x & 0xFF) as bv8
  }

  function ByteValue(x: bv8): (v: nat)
    ensures v < 256
  {
    x as int
  }

  function WordValue(x: bv32): nat {
    x as int
  }

  /** A word from four bytes, the most significant first. */
  function BigEndian(b0: Byte, b1: Byte, b2: Byte, b3: Byte): bv32 {
    Shift8(Shift8(Shift8(Shift8(0, b0), b1), b2), b3)
  }

  //////////////////////////////////////////////////////////////////////////////
  // Words as numbers
  //////////////////////////////////////////////////////////////////////////////

  lemma LowOfValue(x: bv8)
    ensures Low(ByteValue(x)) == x
  {
  }

  lemma Successor(x: bv8)
    requires x < 255
    ensures (x + 1) as int == x as int + 1
  {
  }

  lemma {:induction false} ByteExists(b: Byte) returns (x: bv8)
    ensures ByteValue(x) == b
    decreases b
  {
    if b == 0 {
      x := 0;
    } else {
      var y := ByteExists(b - 1);
      BelowLast(y);
      Successor(y);
      x := y + 1;
    }
  }

  lemma BelowLast(x: bv8)
    ensures ByteValue(x) < 255 ==> x < 255
  {
  }

  lemma LowValue(b: Byte)
    ensures ByteValue(Low(b)) == b
  {
    hide Low, ByteValue;
    var x := ByteExists(b);
    LowOfValue(x);
  }

  /** A word that has `n` bytes. */
  predicate Fits(w: bv32, n: nat) {
    match n
    case 0 => w == 0
    case 1 => w < 0x100
    case 2 => w < 0x1_0000
    case 3 => w < 0x100_0000
    case _ => true
  }

  lemma ShiftedValue(w: bv32)
    requires w < 0x100_0000
    ensures (w << 8) as int == w as int * 256
  {
  }

  lemma JoinedValue(w: bv32, x: bv8)
    ensures ((w << 8) | (x as bv32)) as int == (w << 8) as int + x as int
  {
  }

  lemma JoinValue(w: bv32, x: bv8)
    requires Fits(w, 3)
    ensures WordValue(Join(w, x)) == WordValue(w) * 256 + ByteValue(x)
  {
    JoinedValue(w, x);
    ShiftedValue(w);
  }

  lemma JoinFits(w: bv32, x: bv8, n: nat)
    requires Fits(w, n)
    ensures Fits(Join(w, x), n + 1)
  {
  }

  lemma ZeroValue()
    ensures WordValue(0) == 0 && Fits(0, 0)
  {
  }

  lemma Shift8Value(w: bv32, b: Byte)
    requires Fits(w, 3)
    ensures WordValue(Shift8(w, b)) == WordValue(w) * 256 + b
  {
    hide Join, Low, ByteValue, WordValue, Fits;
    LowValue(b);
    JoinValue(w, Low(b));
  }

  lemma Shift8Fits(w: bv32, b: Byte, n: nat)
    requires Fits(w, n)
    ensures Fits(Shift8(w, b), n + 1)
  {
    hide Join, Low, Fits;
    JoinFits(w, Low(b), n);
  }

  lemma FewerFit(w: bv32, n: nat)
    requires n <= 3 && Fits(w, n)
    ensures Fits(w, 3)
  {
  }

  /** One more byte after at most three. */
  lemma NextByte(w: bv32, b: Byte, n: nat)
    requires n <= 3 && Fits(w, n)
    ensures WordValue(Shift8(w, b)) == WordValue(w) * 256 + b && Fits(Shift8(w, b), n + 1)
  {
    hide *;
    FewerFit(w, n);
    Shift8Value(w, b);
    Shift8Fits(w, b, n);
  }

  lemma BigEndianValue(b0: Byte, b1: Byte, b2: Byte, b3: Byte)
    ensures WordValue(BigEndian(b0, b1, b2, b3)) == b0 * 0x100_0000 + b1 * 0x1_0000 + b2 * 0x100 + b3
  {
    hide Shift8, WordValue, Fits;
    var w0 := Shift8(0, b0);
    var w1 := Shift8(w0, b1);
    var w2 := Shift8(w1, b2);
    ZeroValue();
    NextByte(0, b0, 0);
    NextByte(w0, b1, 1);
    NextByte(w1, b2, 2);
    NextByte(w2, b3, 3);
  }

  lemma JoinedBytes(x: bv32)
    ensures Join(Join(Join(Join(0, LowByte(x >> 24)), LowByte(x >> 16)), LowByte(x >> 8)), LowByte(x)) == x
  {
  }

  /** A word is its four bytes. */
  lemma WordOfItsBytes(x: bv32)
    ensures BigEndian(ByteAt(x, 3), ByteAt(x, 2), ByteAt(x, 1), ByteAt(x, 0)) == x
  {
    hide Join, Low, LowByte, ByteValue;
    JoinedBytes(x);
    LowOfValue(LowByte(x >> 24));
    LowOfValue(LowByte(x >> 16));
    LowOfValue(LowByte(x >> 8));
    LowOfValue(LowByte(x));
  }

  /** Digit `j` of a number in base 256, the least significant being digit 0. */
  function Digit(x: nat, j: nat): nat {
    if j == 0 then x % 256 else Digit(x / 256, j - 1)
  }

  lemma LowDigit(x: nat, high: nat, low: Byte)
    requires x == high * 256 + low
    ensures Digit(x, 0) == low && forall j: nat :: Digit(x, j + 1) == Digit(high, j)
  {
    assert x % 256 == low && x / 256 == high;
  }

  lemma DigitsOf(b3: Byte, b2: Byte, b1: Byte, b0: Byte, x: nat)
    requires x == b3 * 0x100_0000 + b2 * 0x1_0000 + b1 * 0x100 + b0
    ensures Digit(x, 0) == b0 && Digit(x, 1) == b1 && Digit(x, 2) == b2 && Digit(x, 3) == b3
  {
    hide Digit;
    var y, z: nat := b3 * 0x1_0000 + b2 * 0x100 + b1, b3 * 0x100 + b2;
    LowDigit(x, y, b0);
    LowDigit(y, z, b1);
    LowDigit(z, b3, b2);
    LowDigit(b3, 0, b3);
    assert Digit(x, 0 + 1) == Digit(y, 0) && Digit(x, 1 + 1) == Digit(y, 0 + 1) == Digit(z, 0);
    assert Digit(x, 2 + 1) == Digit(y, 1 + 1) == Digit(z, 0 + 1) == Digit(b3, 0);
  }

  /** Byte `j` of a word is digit `j` of its number. */
  lemma ByteIsDigit(x: bv32, j: nat)
    requires j < 4
    ensures ByteAt(x, j) == Digit(WordValue(x), j)
  {
    hide ByteAt, BigEndian, Digit, WordValue;
    WordOfItsBytes(x);
    BigEndianValue(ByteAt(x, 3), ByteAt(x, 2), ByteAt(x, 1), ByteAt(x, 0));
    DigitsOf(ByteAt(x, 3), ByteAt(x, 2), ByteAt(x, 1), ByteAt(x, 0), WordValue(x));
  }

  /** The bytes of a word that was read from bytes. */
  lemma BytesOfBigEndian(b3: Byte, b2: Byte, b1: Byte, b0: Byte)
    ensures var w := BigEndian(b3, b2, b1, b0);
            ByteAt(w, 0) == b0 && ByteAt(w, 1) == b1 && ByteAt(w, 2) == b2 && ByteAt(w, 3) == b3
  {
    hide ByteAt, BigEndian, Digit, WordValue;
    var w := BigEndian(b3, b2, b1, b0);
    BigEndianValue(b3, b2, b1, b0);
    DigitsOf(b3, b2, b1, b0, WordValue(w));
    ByteIsDigit(w, 0);
    ByteIsDigit(w, 1);
    ByteIsDigit(w, 2);
    ByteIsDigit(w, 3);
  }
}
