/**
 * FIPS-197 as a specification for a 128-bit key: field arithmetic (section 4.2), the forward
 * cipher (5.1), key expansion (5.2) and the inverse cipher (5.3), with the theorem that the
 * inverse cipher undoes the forward cipher state by state.
 */
module Fips197 {
  import opened CipherTables

  /** A column of the state, or a word of the key schedule. */
  datatype Word = Word(b0: bv8, b1: bv8, b2: bv8, b3: bv8)

  /** The state, or a key, by columns: in the byte order of the input, column c holds bytes 4c to 4c+3. */
  datatype State = State(c0: Word, c1: Word, c2: Word, c3: Word)

  // ---------- section 3.4: the order of the bytes ----------

  function ColumnOfBytes(b: seq<bv8>, c: nat): Word
    requires |b| == 16 && c < 4
  {
    Word(b[4 * c], b[4 * c + 1], b[4 * c + 2], b[4 * c + 3])
  }

  /** Sixteen bytes as a state. */
  function FromBytes(b: seq<bv8>): State
    requires |b| == 16
  {
    State(ColumnOfBytes(b, 0), ColumnOfBytes(b, 1), ColumnOfBytes(b, 2), ColumnOfBytes(b, 3))
  }

  // ---------- sections 4.1 and 4.2: arithmetic in GF(2^8) ----------

  function GfAdd(x: bv8, y: bv8): bv8 {
    x ^ y
  }

  function XTime(x: bv8): bv8 {
    (x << 1) ^ (if x & 0x80 != 0 then 0x1b else 0)
  }

  function Scaled(bit: bool, x: bv8): bv8 {
    if bit then x else 0
  }

  function GfMul(x: bv8, y: bv8): bv8 {
    var x1 := XTime(x);
    var x2 := XTime(x1);
    var x3 := XTime(x2);
    var x4 := XTime(x3);
    var x5 := XTime(x4);
    var x6 := XTime(x5);
    var x7 := XTime(x6);
    Scaled(y & 0x01 != 0, x) ^ Scaled(y & 0x02 != 0, x1) ^ Scaled(y & 0x04 != 0, x2) ^ Scaled(y & 0x08 != 0, x3) ^
    Scaled(y & 0x10 != 0, x4) ^ Scaled(y & 0x20 != 0, x5) ^ Scaled(y & 0x40 != 0, x6) ^ Scaled(y & 0x80 != 0, x7)
  }

  lemma XTimeIsLinear(x: bv8, y: bv8)
    ensures XTime(GfAdd(x, y)) == GfAdd(XTime(x), XTime(y))
  {
    assert (x ^ y) << 1 == (x << 1) ^ (y << 1);
    if x & 0x80 == 0 && y & 0x80 == 0 {
      assert (x ^ y) & 0x80 == 0;
    } else if x & 0x80 == 0 {
      assert (x ^ y) & 0x80 != 0;
    } else if y & 0x80 == 0 {
      assert (x ^ y) & 0x80 != 0;
    } else {
      assert (x ^ y) & 0x80 == 0;
    }
  }

  // ---------- section 5.1.1: the substitution box ----------

  /** The affine map of section 5.1.1, by rotations of its argument. */
  function Affine(b: bv8): bv8 {
    b ^ ((b << 1) | (b >> 7)) ^ ((b << 2) | (b >> 6)) ^ ((b << 3) | (b >> 5)) ^ ((b << 4) | (b >> 4)) ^ 0x63
  }

  /** The preimage of a byte under Affine. */
  function InvAffine(b: bv8): bv8 {
    ((b << 1) | (b >> 7)) ^ ((b << 3) | (b >> 5)) ^ ((b << 6) | (b >> 2)) ^ 0x05
  }

  lemma InverseByProduct(x: bv8)
    requires x != 0
    ensures GfMul(x, InvAffine(SBox(x))) == 1
  {}

  lemma AffineOfInvAffine(x: bv8)
    ensures Affine(InvAffine(x)) == x
  {}

  /** Every table entry is the affine image of the field inverse of its index ({00} is its own inverse). */
  lemma SBoxIsAffineOfInverse(x: bv8)
    ensures exists y :: SBox(x) == Affine(y) && (if x == 0 then y == 0 else GfMul(x, y) == 1)
  {
    var y := InvAffine(SBox(x));
    AffineOfInvAffine(SBox(x));
    if x != 0 {
      InverseByProduct(x);
    }
    assert SBox(x) == Affine(y);
  }

  // ---------- section 5.1: the forward transformations ----------

  function SubWord(w: Word): Word {
    Word(SBox(w.b0), SBox(w.b1), SBox(w.b2), SBox(w.b3))
  }

  function SubBytes(s: State): State {
    State(SubWord(s.c0), SubWord(s.c1), SubWord(s.c2), SubWord(s.c3))
  }

  /** The word with row r taken from the r-th argument. */
  function Diagonal(w0: Word, w1: Word, w2: Word, w3: Word): Word {
    Word(w0.b0, w1.b1, w2.b2, w3.b3)
  }

  /** Row r moves left by r columns. */
  function ShiftRows(s: State): State {
    State(Diagonal(s.c0, s.c1, s.c2, s.c3), Diagonal(s.c1, s.c2, s.c3, s.c0),
          Diagonal(s.c2, s.c3, s.c0, s.c1), Diagonal(s.c3, s.c0, s.c1, s.c2))
  }

  function MixByte(a: bv8, b: bv8, c: bv8, d: bv8): bv8 {
    GfAdd(GfAdd(GfMul(a, 0x02), GfMul(b, 0x03)), GfAdd(c, d))
  }

  function MixWord(w: Word): Word {
    Word(MixByte(w.b0, w.b1, w.b2, w.b3), MixByte(w.b1, w.b2, w.b3, w.b0),
         MixByte(w.b2, w.b3, w.b0, w.b1), MixByte(w.b3, w.b0, w.b1, w.b2))
  }

  function MixColumns(s: State): State {
    State(MixWord(s.c0), MixWord(s.c1), MixWord(s.c2), MixWord(s.c3))
  }

  function XorWord(v: Word, w: Word): Word {
    Word(GfAdd(v.b0, w.b0), GfAdd(v.b1, w.b1), GfAdd(v.b2, w.b2), GfAdd(v.b3, w.b3))
  }

  function AddRoundKey(s: State, key: State, round: nat): State {
    State(XorWord(s.c0, KeyWord(key, 4 * round)), XorWord(s.c1, KeyWord(key, 4 * round + 1)),
          XorWord(s.c2, KeyWord(key, 4 * round + 2)), XorWord(s.c3, KeyWord(key, 4 * round + 3)))
  }

  // ---------- section 5.2: key expansion ----------

  /** The power x^(i-1) of the polynomial x. */
  function RoundConstant(i: nat): bv8 {
    if i <= 1 then 1 else XTime(RoundConstant(i - 1))
  }

  function RotWord(w: Word): Word {
    Word(w.b1, w.b2, w.b3, w.b0)
  }

  /** Word i of the key schedule. */
  function KeyWord(key: State, i: nat): Word {
    if i < 4 then
      (if i == 0 then key.c0 else if i == 1 then key.c1 else if i == 2 then key.c2 else key.c3)
    else if i % 4 == 0 then
      XorWord(KeyWord(key, i - 4),
              XorWord(SubWord(RotWord(KeyWord(key, i - 1))), Word(RoundConstant(i / 4), 0, 0, 0)))
    else
      XorWord(KeyWord(key, i - 4), KeyWord(key, i - 1))
  }

  // ---------- section 5.1: the cipher ----------

  /** The state after round r, for r below the last round. */
  function Forward(p: State, key: State, r: nat): State {
    if r == 0 then AddRoundKey(p, key, 0)
    else AddRoundKey(MixColumns(ShiftRows(SubBytes(Forward(p, key, r - 1)))), key, r)
  }

  function Cipher(p: State, key: State): State {
    AddRoundKey(ShiftRows(SubBytes(Forward(p, key, 9))), key, 10)
  }

  // ---------- section 5.3: the inverse cipher ----------

  function InvSubWord(w: Word): Word {
    Word(InvSBox(w.b0), InvSBox(w.b1), InvSBox(w.b2), InvSBox(w.b3))
  }

  function InvSubBytes(s: State): State {
    State(InvSubWord(s.c0), InvSubWord(s.c1), InvSubWord(s.c2), InvSubWord(s.c3))
  }

  /** Row r moves right by r columns. */
  function InvShiftRows(s: State): State {
    State(Diagonal(s.c0, s.c3, s.c2, s.c1), Diagonal(s.c1, s.c0, s.c3, s.c2),
          Diagonal(s.c2, s.c1, s.c0, s.c3), Diagonal(s.c3, s.c2, s.c1, s.c0))
  }

  function InvMixByte(a: bv8, b: bv8, c: bv8, d: bv8): bv8 {
    GfAdd(GfAdd(GfMul(a, 0x0e), GfMul(b, 0x0b)), GfAdd(GfMul(c, 0x0d), GfMul(d, 0x09)))
  }

  function InvMixWord(w: Word): Word {
    Word(InvMixByte(w.b0, w.b1, w.b2, w.b3), InvMixByte(w.b1, w.b2, w.b3, w.b0),
         InvMixByte(w.b2, w.b3, w.b0, w.b1), InvMixByte(w.b3, w.b0, w.b1, w.b2))
  }

  function InvMixColumns(s: State): State {
    State(InvMixWord(s.c0), InvMixWord(s.c1), InvMixWord(s.c2), InvMixWord(s.c3))
  }

  /** The state when rounds 10 down to r+1 have been undone: what the inverse round r starts from. */
  function Backward(c: State, key: State, r: nat): State
    requires r < 10
    decreases 10 - r
  {
    if r == 9 then AddRoundKey(c, key, 10)
    else InvMixColumns(AddRoundKey(InvSubBytes(InvShiftRows(Backward(c, key, r + 1))), key, r + 1))
  }

  function InvCipher(c: State, key: State): State {
    AddRoundKey(InvSubBytes(InvShiftRows(Backward(c, key, 0))), key, 0)
  }

  // ---------- each transformation is undone ----------

  lemma SubWordInverse(w: Word)
    ensures InvSubWord(SubWord(w)) == w
  {
    hide SBox, InvSBox;
    InvSBoxUndoesSBox(w.b0);
    InvSBoxUndoesSBox(w.b1);
    InvSBoxUndoesSBox(w.b2);
    InvSBoxUndoesSBox(w.b3);
  }

  lemma SubBytesInverse(s: State)
    ensures InvSubBytes(SubBytes(s)) == s
  {
    hide SubWord, InvSubWord;
    SubWordInverse(s.c0);
    SubWordInverse(s.c1);
    SubWordInverse(s.c2);
    SubWordInverse(s.c3);
  }

  lemma ShiftRowsInverse(s: State)
    ensures InvShiftRows(ShiftRows(s)) == s
    ensures ShiftRows(InvShiftRows(s)) == s
  {}

  lemma XorWordInverse(v: Word, w: Word)
    ensures XorWord(XorWord(v, w), w) == v
  {}

  lemma AddRoundKeyInverse(s: State, key: State, round: nat)
    ensures AddRoundKey(AddRoundKey(s, key, round), key, round) == s
  {
    hide KeyWord, XorWord;
    XorWordInverse(s.c0, KeyWord(key, 4 * round));
    XorWordInverse(s.c1, KeyWord(key, 4 * round + 1));
    XorWordInverse(s.c2, KeyWord(key, 4 * round + 2));
    XorWordInverse(s.c3, KeyWord(key, 4 * round + 3));
  }

  // ---------- the column map: algebra of sums ----------

  lemma AddLaws(x: bv8, y: bv8, z: bv8)
    ensures GfAdd(x, y) == GfAdd(y, x)
    ensures GfAdd(GfAdd(x, y), z) == GfAdd(x, GfAdd(y, z))
    ensures GfAdd(x, x) == 0 && GfAdd(x, 0) == x
  {}

  lemma SwapMiddle(x: bv8, y: bv8, z: bv8, w: bv8)
    ensures GfAdd(GfAdd(x, y), GfAdd(z, w)) == GfAdd(GfAdd(x, z), GfAdd(y, w))
  {
    hide *;
    AddLaws(x, y, GfAdd(z, w));
    AddLaws(y, z, w);
    AddLaws(z, y, w);
    AddLaws(x, z, GfAdd(y, w));
  }

  // Multiplication by the constants of the inverse column map, in powers of x.

  lemma MulBy09(x: bv8)
    ensures GfMul(x, 0x09) == GfAdd(XTime(XTime(XTime(x))), x)
  {}

  lemma MulBy0b(x: bv8)
    ensures GfMul(x, 0x0b) == GfAdd(GfAdd(XTime(XTime(XTime(x))), XTime(x)), x)
  {}

  lemma MulBy0d(x: bv8)
    ensures GfMul(x, 0x0d) == GfAdd(GfAdd(XTime(XTime(XTime(x))), XTime(XTime(x))), x)
  {}

  lemma MulBy0e(x: bv8)
    ensures GfMul(x, 0x0e) == GfAdd(GfAdd(XTime(XTime(XTime(x))), XTime(XTime(x))), XTime(x))
  {}

  lemma Powers(x: bv8, y: bv8)
    ensures XTime(GfAdd(x, y)) == GfAdd(XTime(x), XTime(y))
    ensures XTime(XTime(GfAdd(x, y))) == GfAdd(XTime(XTime(x)), XTime(XTime(y)))
    ensures XTime(XTime(XTime(GfAdd(x, y)))) == GfAdd(XTime(XTime(XTime(x))), XTime(XTime(XTime(y))))
  {
    hide *;
    XTimeIsLinear(x, y);
    XTimeIsLinear(XTime(x), XTime(y));
    XTimeIsLinear(XTime(XTime(x)), XTime(XTime(y)));
  }

  ghost predicate InverseCoefficient(k: bv8) {
    k == 0x09 || k == 0x0b || k == 0x0d || k == 0x0e
  }

  /** A sum of three linear terms is linear. */
  lemma ThreeTerms(x1: bv8, y1: bv8, x2: bv8, y2: bv8, x3: bv8, y3: bv8)
    ensures GfAdd(GfAdd(GfAdd(x1, y1), GfAdd(x2, y2)), GfAdd(x3, y3)) ==
            GfAdd(GfAdd(GfAdd(x1, x2), x3), GfAdd(GfAdd(y1, y2), y3))
  {
    hide *;
    SwapMiddle(x1, y1, x2, y2);
    SwapMiddle(GfAdd(x1, x2), GfAdd(y1, y2), x3, y3);
  }

  lemma MulIsLinear(x: bv8, y: bv8, k: bv8)
    requires InverseCoefficient(k)
    ensures GfMul(GfAdd(x, y), k) == GfAdd(GfMul(x, k), GfMul(y, k))
  {
    hide XTime, GfMul, GfAdd;
    Powers(x, y);
    var x1, x2, x3 := XTime(x), XTime(XTime(x)), XTime(XTime(XTime(x)));
    var y1, y2, y3 := XTime(y), XTime(XTime(y)), XTime(XTime(XTime(y)));
    if k == 0x09 {
      MulBy09(x); MulBy09(y); MulBy09(GfAdd(x, y));
      SwapMiddle(x3, y3, x, y);
    } else if k == 0x0b {
      MulBy0b(x); MulBy0b(y); MulBy0b(GfAdd(x, y));
      ThreeTerms(x3, y3, x1, y1, x, y);
    } else if k == 0x0d {
      MulBy0d(x); MulBy0d(y); MulBy0d(GfAdd(x, y));
      ThreeTerms(x3, y3, x2, y2, x, y);
    } else {
      MulBy0e(x); MulBy0e(y); MulBy0e(GfAdd(x, y));
      ThreeTerms(x3, y3, x2, y2, x1, y1);
    }
  }

  /** A product distributes over the four terms of a mixed byte. */
  lemma MulOfSum(p: bv8, q: bv8, r: bv8, s: bv8, k: bv8)
    requires InverseCoefficient(k)
    ensures GfMul(GfAdd(GfAdd(p, q), GfAdd(r, s)), k) ==
            GfAdd(GfAdd(GfMul(p, k), GfMul(q, k)), GfAdd(GfMul(r, k), GfMul(s, k)))
  {
    hide *;
    MulIsLinear(GfAdd(p, q), GfAdd(r, s), k);
    MulIsLinear(p, q, k);
    MulIsLinear(r, s, k);
  }

  // What each byte of a column contributes to byte 0 of the column mixed and unmixed.

  lemma ContributionOfSelf(a: bv8)
    ensures GfAdd(GfAdd(GfMul(GfMul(a, 0x02), 0x0e), GfMul(a, 0x0b)),
                  GfAdd(GfMul(a, 0x0d), GfMul(GfMul(a, 0x03), 0x09))) == a
  {}

  lemma ContributionOfNext(b: bv8)
    ensures GfAdd(GfAdd(GfMul(GfMul(b, 0x03), 0x0e), GfMul(GfMul(b, 0x02), 0x0b)),
                  GfAdd(GfMul(b, 0x0d), GfMul(b, 0x09))) == 0
  {}

  lemma ContributionOfSecond(c: bv8)
    ensures GfAdd(GfAdd(GfMul(c, 0x0e), GfMul(GfMul(c, 0x03), 0x0b)),
                  GfAdd(GfMul(GfMul(c, 0x02), 0x0d), GfMul(c, 0x09))) == 0
  {}

  lemma ContributionOfThird(d: bv8)
    ensures GfAdd(GfAdd(GfMul(d, 0x0e), GfMul(d, 0x0b)),
                  GfAdd(GfMul(GfMul(d, 0x03), 0x0d), GfMul(GfMul(d, 0x02), 0x09))) == 0
  {}

  /** Four sums of four terms, regrouped term by term. */
  lemma Transpose(a1: bv8, b1: bv8, c1: bv8, d1: bv8, a2: bv8, b2: bv8, c2: bv8, d2: bv8,
                  a3: bv8, b3: bv8, c3: bv8, d3: bv8, a4: bv8, b4: bv8, c4: bv8, d4: bv8)
    ensures GfAdd(GfAdd(GfAdd(GfAdd(a1, b1), GfAdd(c1, d1)), GfAdd(GfAdd(a2, b2), GfAdd(c2, d2))),
                  GfAdd(GfAdd(GfAdd(a3, b3), GfAdd(c3, d3)), GfAdd(GfAdd(a4, b4), GfAdd(c4, d4)))) ==
            GfAdd(GfAdd(GfAdd(GfAdd(a1, a2), GfAdd(a3, a4)), GfAdd(GfAdd(b1, b2), GfAdd(b3, b4))),
                  GfAdd(GfAdd(GfAdd(c1, c2), GfAdd(c3, c4)), GfAdd(GfAdd(d1, d2), GfAdd(d3, d4))))
  {
    hide *;
    SwapMiddle(GfAdd(a1, b1), GfAdd(c1, d1), GfAdd(a2, b2), GfAdd(c2, d2));
    SwapMiddle(GfAdd(a3, b3), GfAdd(c3, d3), GfAdd(a4, b4), GfAdd(c4, d4));
    SwapMiddle(a1, b1, a2, b2);
    SwapMiddle(c1, d1, c2, d2);
    SwapMiddle(a3, b3, a4, b4);
    SwapMiddle(c3, d3, c4, d4);
    SwapMiddle(GfAdd(GfAdd(a1, a2), GfAdd(b1, b2)), GfAdd(GfAdd(c1, c2), GfAdd(d1, d2)),
               GfAdd(GfAdd(a3, a4), GfAdd(b3, b4)), GfAdd(GfAdd(c3, c4), GfAdd(d3, d4)));
    SwapMiddle(GfAdd(a1, a2), GfAdd(b1, b2), GfAdd(a3, a4), GfAdd(b3, b4));
    SwapMiddle(GfAdd(c1, c2), GfAdd(d1, d2), GfAdd(c3, c4), GfAdd(d3, d4));
  }

  lemma Rotate(x: bv8, y: bv8, z: bv8, w: bv8)
    ensures GfAdd(GfAdd(x, y), GfAdd(z, w)) == GfAdd(GfAdd(w, x), GfAdd(y, z))
    ensures GfAdd(GfAdd(x, y), GfAdd(z, w)) == GfAdd(GfAdd(z, w), GfAdd(x, y))
    ensures GfAdd(GfAdd(x, y), GfAdd(z, w)) == GfAdd(GfAdd(y, z), GfAdd(w, x))
  {
    hide *;
    AddLaws(GfAdd(x, y), GfAdd(z, w), 0);
    AddLaws(z, w, 0);
    AddLaws(x, y, 0);
    SwapMiddle(w, z, x, y);
    AddLaws(z, y, 0);
    SwapMiddle(y, x, z, w);
    AddLaws(x, w, 0);
  }

  /** Mixing a column and unmixing it gives back its first byte; the other bytes follow by rotation. */
  lemma UnmixOfMix(a: bv8, b: bv8, c: bv8, d: bv8)
    ensures InvMixByte(MixByte(a, b, c, d), MixByte(b, c, d, a), MixByte(c, d, a, b), MixByte(d, a, b, c)) == a
  {
    hide GfMul, GfAdd;
    var a1, b1, c1, d1 := GfMul(GfMul(a, 0x02), 0x0e), GfMul(GfMul(b, 0x03), 0x0e), GfMul(c, 0x0e), GfMul(d, 0x0e);
    var a2, b2, c2, d2 := GfMul(a, 0x0b), GfMul(GfMul(b, 0x02), 0x0b), GfMul(GfMul(c, 0x03), 0x0b), GfMul(d, 0x0b);
    var a3, b3, c3, d3 := GfMul(a, 0x0d), GfMul(b, 0x0d), GfMul(GfMul(c, 0x02), 0x0d), GfMul(GfMul(d, 0x03), 0x0d);
    var a4, b4, c4, d4 := GfMul(GfMul(a, 0x03), 0x09), GfMul(b, 0x09), GfMul(c, 0x09), GfMul(GfMul(d, 0x02), 0x09);
    MulOfSum(GfMul(a, 0x02), GfMul(b, 0x03), c, d, 0x0e);
    MulOfSum(GfMul(b, 0x02), GfMul(c, 0x03), d, a, 0x0b);
    MulOfSum(GfMul(c, 0x02), GfMul(d, 0x03), a, b, 0x0d);
    MulOfSum(GfMul(d, 0x02), GfMul(a, 0x03), b, c, 0x09);
    Rotate(b2, c2, d2, a2);
    Rotate(c3, d3, a3, b3);
    Rotate(d4, a4, b4, c4);
    Transpose(a1, b1, c1, d1, a2, b2, c2, d2, a3, b3, c3, d3, a4, b4, c4, d4);
    ContributionOfSelf(a);
    ContributionOfNext(b);
    ContributionOfSecond(c);
    ContributionOfThird(d);
    AddLaws(a, 0, 0);
    AddLaws(0, 0, 0);
  }

  lemma MixWordInverse(w: Word)
    ensures InvMixWord(MixWord(w)) == w
  {
    hide MixByte, InvMixByte;
    UnmixOfMix(w.b0, w.b1, w.b2, w.b3);
    UnmixOfMix(w.b1, w.b2, w.b3, w.b0);
    UnmixOfMix(w.b2, w.b3, w.b0, w.b1);
    UnmixOfMix(w.b3, w.b0, w.b1, w.b2);
  }

  lemma MixColumnsInverse(s: State)
    ensures InvMixColumns(MixColumns(s)) == s
  {
    hide MixWord, InvMixWord;
    MixWordInverse(s.c0);
    MixWordInverse(s.c1);
    MixWordInverse(s.c2);
    MixWordInverse(s.c3);
  }

  // ---------- the inverse cipher walks back through the forward cipher ----------

  /** Undoing rounds 10 down to r+1 of an encryption reaches the forward state of round r, substituted and shifted. */
  lemma {:induction false} BackwardMeetsForward(p: State, key: State, r: nat)
    requires r < 10
    ensures Backward(Cipher(p, key), key, r) == ShiftRows(SubBytes(Forward(p, key, r)))
    decreases 10 - r
  {
    hide SubBytes, InvSubBytes, ShiftRows, InvShiftRows, MixColumns, InvMixColumns, AddRoundKey;
    if r == 9 {
      AddRoundKeyInverse(ShiftRows(SubBytes(Forward(p, key, 9))), key, 10);
    } else {
      BackwardMeetsForward(p, key, r + 1);
      var next := Forward(p, key, r + 1);
      ShiftRowsInverse(SubBytes(next));
      SubBytesInverse(next);
      var mixed := ShiftRows(SubBytes(Forward(p, key, r)));
      AddRoundKeyInverse(MixColumns(mixed), key, r + 1);
      MixColumnsInverse(mixed);
    }
  }

  /** The inverse cipher undoes the cipher, for every key and block. */
  lemma InvCipherUndoesCipher(p: State, key: State)
    ensures InvCipher(Cipher(p, key), key) == p
  {
    hide SubBytes, InvSubBytes, ShiftRows, InvShiftRows, MixColumns, InvMixColumns, AddRoundKey;
    BackwardMeetsForward(p, key, 0);
    var first := Forward(p, key, 0);
    ShiftRowsInverse(SubBytes(first));
    SubBytesInverse(first);
    AddRoundKeyInverse(p, key, 0);
  }
}
