/**
 * The decryption routine of the node, working in place on global byte arrays, proved against
 * the inverse cipher of FIPS-197.
 */
module EcbDecrypt {
  import opened CipherTables
  import opened Fips197

  // ---------- the multiplication macros, in 32-bit integer arithmetic ----------

  /** xtime: the result is not cut to a byte. */
  function MacroXTime(x: bv32): bv32 {
    (x << 1) ^ (((x >> 7) & 1) * 0x1b)
  }

  function MacroMultiply(x: bv32, y: bv32): bv32 {
    ((y & 1) * x) ^
    (((y >> 1) & 1) * MacroXTime(x)) ^
    (((y >> 2) & 1) * MacroXTime(MacroXTime(x))) ^
    (((y >> 3) & 1) * MacroXTime(MacroXTime(MacroXTime(x)))) ^
    (((y >> 4) & 1) * MacroXTime(MacroXTime(MacroXTime(MacroXTime(x)))))
  }

  /** Assignment to an unsigned char keeps the low eight bits. */
  function Cut(x: bv32): bv8 {
    (x & 0xff) as bv8
  }

  function Xor4(p: bv32, q: bv32, r: bv32, s: bv32): bv32 {
    p ^ q ^ r ^ s
  }

  lemma CutOfXor4(p: bv32, q: bv32, r: bv32, s: bv32)
    ensures Cut(Xor4(p, q, r, s)) == GfAdd(GfAdd(Cut(p), Cut(q)), GfAdd(Cut(r), Cut(s)))
  {}

  /** For the four coefficients of the inverse column map the macro, cut to a byte, is the field product. */
  lemma MacroMultiplyIsGfMul(x: bv8, y: bv8)
    requires InverseCoefficient(y)
    ensures Cut(MacroMultiply(x as bv32, y as bv32)) == GfMul(x, y)
  {
    if y == 0x09 {
    } else if y == 0x0b {
    } else if y == 0x0d {
    } else {
    }
  }

  /** One assigned byte of the in-place column map, summed in int arithmetic and cut once. */
  function MacroRow(a: bv8, b: bv8, c: bv8, d: bv8, ka: bv32, kb: bv32, kc: bv32, kd: bv32): bv8 {
    Cut(Xor4(MacroMultiply(a as bv32, ka), MacroMultiply(b as bv32, kb),
             MacroMultiply(c as bv32, kc), MacroMultiply(d as bv32, kd)))
  }

  lemma MacroRowIsSum(a: bv8, b: bv8, c: bv8, d: bv8, ka: bv8, kb: bv8, kc: bv8, kd: bv8)
    requires InverseCoefficient(ka) && InverseCoefficient(kb) && InverseCoefficient(kc) && InverseCoefficient(kd)
    ensures MacroRow(a, b, c, d, ka as bv32, kb as bv32, kc as bv32, kd as bv32) ==
            GfAdd(GfAdd(GfMul(a, ka), GfMul(b, kb)), GfAdd(GfMul(c, kc), GfMul(d, kd)))
  {
    hide MacroMultiply, Cut, GfMul, GfAdd, Xor4;
    CutOfXor4(MacroMultiply(a as bv32, ka as bv32), MacroMultiply(b as bv32, kb as bv32),
              MacroMultiply(c as bv32, kc as bv32), MacroMultiply(d as bv32, kd as bv32));
    MacroMultiplyIsGfMul(a, ka);
    MacroMultiplyIsGfMul(b, kb);
    MacroMultiplyIsGfMul(c, kc);
    MacroMultiplyIsGfMul(d, kd);
  }

  /** The four assignments of the column map compute the inverse column map of the standard. */
  lemma MacroRowsAreInvMixWord(a: bv8, b: bv8, c: bv8, d: bv8)
    ensures Word(MacroRow(a, b, c, d, 0x0e, 0x0b, 0x0d, 0x09), MacroRow(a, b, c, d, 0x09, 0x0e, 0x0b, 0x0d),
                 MacroRow(a, b, c, d, 0x0d, 0x09, 0x0e, 0x0b), MacroRow(a, b, c, d, 0x0b, 0x0d, 0x09, 0x0e)) ==
            InvMixWord(Word(a, b, c, d))
  {
    hide MacroRow, GfMul, GfAdd;
    MacroRowIsSum(a, b, c, d, 0x0e, 0x0b, 0x0d, 0x09);
    MacroRowIsSum(a, b, c, d, 0x09, 0x0e, 0x0b, 0x0d);
    MacroRowIsSum(a, b, c, d, 0x0d, 0x09, 0x0e, 0x0b);
    MacroRowIsSum(a, b, c, d, 0x0b, 0x0d, 0x09, 0x0e);
    Rotate(GfMul(a, 0x09), GfMul(b, 0x0e), GfMul(c, 0x0b), GfMul(d, 0x0d));
    Rotate(GfMul(a, 0x0d), GfMul(b, 0x09), GfMul(c, 0x0e), GfMul(d, 0x0b));
    Rotate(GfMul(a, 0x0b), GfMul(b, 0x0d), GfMul(c, 0x09), GfMul(d, 0x0e));
  }

  /** The round constants read from the table are the powers of x. */
  lemma TableHoldsRoundConstants(i: nat)
    requires 1 <= i <= 10
    ensures RCON[i] == RoundConstant(i)
  {
    assert RCON[0..3] == [0x8d, 0x01, 0x02];
    if i >= 2 {
      TableHoldsRoundConstants(i - 1);
      assert RCON[i] == XTime(RCON[i - 1]);
    }
  }

  /** Without the recursion of the standard: the table starts with 1 and each entry is twice the one before. */
  lemma TableDoubles()
    ensures RCON[1] == 1
    ensures forall i :: 1 <= i < 10 ==> RCON[i + 1] == GfMul(RCON[i], 0x02)
  {
    hide GfMul;
    forall i | 1 <= i < 10
      ensures RCON[i + 1] == GfMul(RCON[i], 0x02)
    {
      MulBy02(RCON[i]);
    }
  }

  lemma MulBy02(x: bv8)
    ensures GfMul(x, 0x02) == XTime(x)
  {}

  lemma NextKeyWord(key: State, i: nat)
    requires 4 <= i
    ensures var last := KeyWord(key, i - 1);
            KeyWord(key, i) == XorWord(KeyWord(key, i - 4),
              if i % 4 != 0 then last
              else Word(GfAdd(SBox(last.b1), RoundConstant(i / 4)), SBox(last.b2), SBox(last.b3), SBox(last.b0)))
  {
    hide SBox, RoundConstant, GfAdd;
    var last := KeyWord(key, i - 1);
    AddLaws(SBox(last.b1), 0, 0);
    AddLaws(SBox(last.b2), 0, 0);
    AddLaws(SBox(last.b3), 0, 0);
    AddLaws(SBox(last.b0), 0, 0);
  }

  lemma FirstKeyWords(b: seq<bv8>, i: nat)
    requires |b| == 16 && i < 4
    ensures KeyWord(FromBytes(b), i) == ColumnOfBytes(b, i)
  {}

  // ---------- the routine ----------

  class Decryptor {
    const roundKey: array<bv8>
    const key: array<bv8>
    const input: array<bv8>
    const output: array<bv8>
    const state: array2<bv8>

    ghost predicate Valid() {
      && roundKey.Length == 240 && key.Length == 16 && input.Length == 16 && output.Length == 16
      && state.Length0 == 4 && state.Length1 == 4
      && roundKey != key && roundKey != input && roundKey != output
      && key != input && key != output && input != output
    }

    constructor ()
      ensures Valid()
      ensures fresh(roundKey) && fresh(key) && fresh(input) && fresh(output) && fresh(state)
    {
      roundKey, key, input, output := new bv8[240], new bv8[16], new bv8[16], new bv8[16];
      state := new bv8[4, 4];
    }

    ghost function StateColumn(c: nat): Word
      requires Valid() && c < 4
      reads state
    {
      Word(state[0, c], state[1, c], state[2, c], state[3, c])
    }

    /** The state matrix. */
    ghost function CurrentState(): State
      requires Valid()
      reads state
    {
      State(StateColumn(0), StateColumn(1), StateColumn(2), StateColumn(3))
    }

    ghost function CurrentKey(): State
      requires Valid()
      reads key
    {
      FromBytes(key[..])
    }

    ghost function RoundKeyWord(w: nat): Word
      requires Valid() && w < 60
      reads roundKey
    {
      Word(roundKey[4 * w], roundKey[4 * w + 1], roundKey[4 * w + 2], roundKey[4 * w + 3])
    }

    /** The first 44 round key words are the key schedule of the current key. */
    ghost predicate Expanded()
      requires Valid()
      reads roundKey, key
    {
      forall w :: 0 <= w < 44 ==> RoundKeyWord(w) == KeyWord(CurrentKey(), w)
    }

    /** The first loop of the expansion: the first round key is the key itself. */
    method CopyFirstRoundKey()
      requires Valid()
      modifies roundKey
      ensures forall w :: 0 <= w < 4 ==> RoundKeyWord(w) == KeyWord(CurrentKey(), w)
    {
      hide KeyWord;
      var i := 0;
      while i < 4
        invariant 0 <= i <= 4
        invariant forall m :: 0 <= m < 4 * i ==> roundKey[m] == key[m]
      {
        roundKey[i * 4] := key[i * 4];
        roundKey[i * 4 + 1] := key[i * 4 + 1];
        roundKey[i * 4 + 2] := key[i * 4 + 2];
        roundKey[i * 4 + 3] := key[i * 4 + 3];
        i := i + 1;
      }
      forall w | 0 <= w < 4
        ensures RoundKeyWord(w) == KeyWord(CurrentKey(), w)
      {
        FirstKeyWords(key[..], w);
      }
    }

    method KeyExpansion()
      requires Valid()
      modifies roundKey
      ensures Expanded()
    {
      hide SBox, RoundConstant, XorWord, GfAdd, KeyWord;
      CopyFirstRoundKey();
      var i := 4;
      while i < 44
        invariant 4 <= i <= 44
        invariant forall w :: 0 <= w < i ==> RoundKeyWord(w) == KeyWord(CurrentKey(), w)
      {
        var temp0, temp1 := roundKey[(i - 1) * 4], roundKey[(i - 1) * 4 + 1];
        var temp2, temp3 := roundKey[(i - 1) * 4 + 2], roundKey[(i - 1) * 4 + 3];
        assert Word(temp0, temp1, temp2, temp3) == RoundKeyWord(i - 1);
        if i % 4 == 0 {
          // RotWord
          var k := temp0;
          temp0 := temp1;
          temp1 := temp2;
          temp2 := temp3;
          temp3 := k;
          // SubWord
          temp0, temp1, temp2, temp3 := SBox(temp0), SBox(temp1), SBox(temp2), SBox(temp3);
          TableHoldsRoundConstants(i / 4);
          temp0 := GfAdd(temp0, RCON[i / 4]);
        }
        NextKeyWord(CurrentKey(), i);
        StoreXored(i, temp0, temp1, temp2, temp3);
        i := i + 1;
      }
    }

    /** The last four assignments of the expansion loop. */
    method StoreXored(i: nat, temp0: bv8, temp1: bv8, temp2: bv8, temp3: bv8)
      requires Valid() && 4 <= i < 44
      modifies roundKey
      ensures RoundKeyWord(i) == XorWord(old(RoundKeyWord(i - 4)), Word(temp0, temp1, temp2, temp3))
      ensures forall w :: 0 <= w < i ==> RoundKeyWord(w) == old(RoundKeyWord(w))
    {
      hide GfAdd;
      roundKey[i * 4 + 0] := GfAdd(roundKey[(i - 4) * 4 + 0], temp0);
      roundKey[i * 4 + 1] := GfAdd(roundKey[(i - 4) * 4 + 1], temp1);
      roundKey[i * 4 + 2] := GfAdd(roundKey[(i - 4) * 4 + 2], temp2);
      roundKey[i * 4 + 3] := GfAdd(roundKey[(i - 4) * 4 + 3], temp3);
    }

    method AddRoundKey(round: nat)
      requires Valid() && Expanded() && round <= 10
      modifies state
      ensures CurrentState() == Fips197.AddRoundKey(old(CurrentState()), CurrentKey(), round)
    {
      hide KeyWord, XorWord;
      var i := 0;
      while i < 4
        invariant 0 <= i <= 4
        invariant forall c :: 0 <= c < i ==> StateColumn(c) == XorWord(old(StateColumn(c)), RoundKeyWord(4 * round + c))
        invariant forall c :: i <= c < 4 ==> StateColumn(c) == old(StateColumn(c))
      {
        AddRoundKeyColumn(round, i);
        i := i + 1;
      }
    }

    /** The inner loop over one column. */
    method AddRoundKeyColumn(round: nat, i: nat)
      requires Valid() && round <= 10 && i < 4
      modifies state
      ensures StateColumn(i) == XorWord(old(StateColumn(i)), RoundKeyWord(4 * round + i))
      ensures forall c :: 0 <= c < 4 && c != i ==> StateColumn(c) == old(StateColumn(c))
    {
      hide GfAdd;
      var j := 0;
      while j < 4
        invariant 0 <= j <= 4
        invariant forall r, c :: 0 <= r < 4 && 0 <= c < 4 ==>
          state[r, c] == if c == i && r < j then GfAdd(old(state[r, c]), roundKey[round * 16 + i * 4 + r])
                         else old(state[r, c])
      {
        state[j, i] := GfAdd(state[j, i], roundKey[round * 16 + i * 4 + j]);
        j := j + 1;
      }
    }

    method InvSubBytes()
      requires Valid()
      modifies state
      ensures CurrentState() == Fips197.InvSubBytes(old(CurrentState()))
    {
      hide InvSBox;
      var i := 0;
      while i < 4
        invariant 0 <= i <= 4
        invariant forall r, c :: 0 <= r < 4 && 0 <= c < 4 ==>
          state[r, c] == (if r < i then InvSBox(old(state[r, c])) else old(state[r, c]))
      {
        var j := 0;
        while j < 4
          invariant 0 <= j <= 4
          invariant forall r, c :: 0 <= r < 4 && 0 <= c < 4 ==>
            state[r, c] == (if r < i || (r == i && c < j) then InvSBox(old(state[r, c])) else old(state[r, c]))
        {
          state[i, j] := InvSBox(state[i, j]);
          j := j + 1;
        }
        i := i + 1;
      }
    }

    method InvShiftRows()
      requires Valid()
      modifies state
      ensures CurrentState() == Fips197.InvShiftRows(old(CurrentState()))
    {
      RotateRowOne();
      RotateRowTwo();
      RotateRowThree();
    }

    method RotateRowOne()
      requires Valid()
      modifies state
      ensures state[1, 0] == old(state[1, 3]) && state[1, 1] == old(state[1, 0])
      ensures state[1, 2] == old(state[1, 1]) && state[1, 3] == old(state[1, 2])
      ensures forall r, c :: 0 <= r < 4 && 0 <= c < 4 && r != 1 ==> state[r, c] == old(state[r, c])
    {
      var temp := state[1, 3];
      state[1, 3] := state[1, 2];
      state[1, 2] := state[1, 1];
      state[1, 1] := state[1, 0];
      state[1, 0] := temp;
    }

    method RotateRowTwo()
      requires Valid()
      modifies state
      ensures state[2, 0] == old(state[2, 2]) && state[2, 1] == old(state[2, 3])
      ensures state[2, 2] == old(state[2, 0]) && state[2, 3] == old(state[2, 1])
      ensures forall r, c :: 0 <= r < 4 && 0 <= c < 4 && r != 2 ==> state[r, c] == old(state[r, c])
    {
      var temp := state[2, 0];
      state[2, 0] := state[2, 2];
      state[2, 2] := temp;
      temp := state[2, 1];
      state[2, 1] := state[2, 3];
      state[2, 3] := temp;
    }

    method RotateRowThree()
      requires Valid()
      modifies state
      ensures state[3, 0] == old(state[3, 1]) && state[3, 1] == old(state[3, 2])
      ensures state[3, 2] == old(state[3, 3]) && state[3, 3] == old(state[3, 0])
      ensures forall r, c :: 0 <= r < 4 && 0 <= c < 4 && r != 3 ==> state[r, c] == old(state[r, c])
    {
      var temp := state[3, 0];
      state[3, 0] := state[3, 1];
      state[3, 1] := state[3, 2];
      state[3, 2] := state[3, 3];
      state[3, 3] := temp;
    }

    method InvMixColumns()
      requires Valid()
      modifies state
      ensures CurrentState() == Fips197.InvMixColumns(old(CurrentState()))
    {
      hide InvMixWord;
      var i := 0;
      while i < 4
        invariant 0 <= i <= 4
        invariant forall c :: i <= c < 4 ==> StateColumn(c) == old(StateColumn(c))
        invariant forall c :: 0 <= c < i ==> StateColumn(c) == InvMixWord(old(StateColumn(c)))
      {
        InvMixColumn(i);
        i := i + 1;
      }
    }

    /** The body of the column loop. */
    method InvMixColumn(i: nat)
      requires Valid() && i < 4
      modifies state
      ensures StateColumn(i) == InvMixWord(old(StateColumn(i)))
      ensures forall c :: 0 <= c < 4 && c != i ==> StateColumn(c) == old(StateColumn(c))
    {
      hide MacroRow, InvMixWord;
      var a, b, c, d := state[0, i], state[1, i], state[2, i], state[3, i];
      MacroRowsAreInvMixWord(a, b, c, d);
      state[0, i] := MacroRow(a, b, c, d, 0x0e, 0x0b, 0x0d, 0x09);
      state[1, i] := MacroRow(a, b, c, d, 0x09, 0x0e, 0x0b, 0x0d);
      state[2, i] := MacroRow(a, b, c, d, 0x0d, 0x09, 0x0e, 0x0b);
      state[3, i] := MacroRow(a, b, c, d, 0x0b, 0x0d, 0x09, 0x0e);
    }

    method LoadState()
      requires Valid()
      modifies state
      ensures CurrentState() == FromBytes(input[..])
    {
      var i := 0;
      while i < 4
        invariant 0 <= i <= 4
        invariant forall c, r :: 0 <= c < i && 0 <= r < 4 ==> state[r, c] == input[c * 4 + r]
      {
        var j := 0;
        while j < 4
          invariant 0 <= j <= 4
          invariant forall c, r :: 0 <= c < i && 0 <= r < 4 ==> state[r, c] == input[c * 4 + r]
          invariant forall r :: 0 <= r < j ==> state[r, i] == input[i * 4 + r]
        {
          state[j, i] := input[i * 4 + j];
          j := j + 1;
        }
        i := i + 1;
      }
    }

    method StoreState()
      requires Valid()
      modifies output
      ensures FromBytes(output[..]) == CurrentState()
    {
      var i := 0;
      while i < 4
        invariant 0 <= i <= 4
        invariant forall c, r :: 0 <= c < i && 0 <= r < 4 ==> output[c * 4 + r] == state[r, c]
      {
        var j := 0;
        while j < 4
          invariant 0 <= j <= 4
          invariant forall c, r :: 0 <= c < i && 0 <= r < 4 ==> output[c * 4 + r] == state[r, c]
          invariant forall r :: 0 <= r < j ==> output[i * 4 + r] == state[r, i]
        {
          output[i * 4 + j] := state[j, i];
          j := j + 1;
        }
        i := i + 1;
      }
    }

    method InvCipher()
      requires Valid() && Expanded()
      modifies state, output
      ensures FromBytes(output[..]) == Fips197.InvCipher(FromBytes(input[..]), CurrentKey())
    {
      hide KeyWord, Fips197.InvMixColumns, Fips197.AddRoundKey, Fips197.InvSubBytes, Fips197.InvShiftRows;
      LoadState();
      AddRoundKey(10);
      var round := 9;
      while round > 0
        invariant 0 <= round <= 9
        invariant CurrentState() == Backward(FromBytes(input[..]), CurrentKey(), round)
      {
        InvShiftRows();
        InvSubBytes();
        AddRoundKey(round);
        InvMixColumns();
        round := round - 1;
      }
      InvShiftRows();
      InvSubBytes();
      AddRoundKey(0);
      StoreState();
    }

    /** An array that is none of the routine's own. */
    ghost predicate Foreign(a: array<bv8>) {
      a != roundKey && a != key && a != input && a != output
    }

    method CopyIn(userKey: array<bv8>, inData: array<bv8>)
      requires Valid() && Foreign(userKey) && Foreign(inData)
      requires userKey.Length >= 16 && inData.Length >= 16
      modifies key, input
      ensures key[..] == userKey[..16] && input[..] == inData[..16]
    {
      var i := 0;
      while i < 16
        invariant 0 <= i <= 16
        invariant key[..i] == userKey[..i] && input[..i] == inData[..i]
      {
        key[i] := userKey[i];
        input[i] := inData[i];
        i := i + 1;
      }
    }

    method CopyOut(outData: array<bv8>)
      requires Valid() && Foreign(outData) && outData.Length >= 16
      modifies outData
      ensures outData[..16] == output[..]
      ensures outData[16..] == old(outData[16..])
    {
      var i := 0;
      while i < 16
        invariant 0 <= i <= 16
        invariant outData[..i] == output[..i] && outData[16..] == old(outData[16..])
      {
        outData[i] := output[i];
        i := i + 1;
      }
    }

    /** For every key and block: what the forward cipher produced is turned back into its input. */
    method Decrypt(userKey: array<bv8>, inData: array<bv8>, outData: array<bv8>)
      requires Valid() && Foreign(userKey) && Foreign(inData) && Foreign(outData)
      requires userKey.Length >= 16 && inData.Length >= 16 && outData.Length >= 16
      modifies key, input, roundKey, state, output, outData
      ensures var k := FromBytes(old(userKey[..16]));
              forall p :: Cipher(p, k) == FromBytes(old(inData[..16])) ==> FromBytes(outData[..16]) == p
      ensures FromBytes(outData[..16]) == Fips197.InvCipher(FromBytes(old(inData[..16])), FromBytes(old(userKey[..16])))
      ensures outData[16..] == old(outData[16..])
    {
      hide Cipher, Fips197.InvCipher;
      CopyIn(userKey, inData);
      assert CurrentKey() == FromBytes(old(userKey[..16])) && FromBytes(input[..]) == FromBytes(old(inData[..16]));
      ghost var k, c := CurrentKey(), FromBytes(input[..]);
      ghost var tail := outData[16..];
      KeyExpansion();
      InvCipher();
      assert outData[16..] == tail;
      CopyOut(outData);
      assert FromBytes(outData[..16]) == Fips197.InvCipher(c, k);
      forall p | Cipher(p, k) == c
        ensures Fips197.InvCipher(c, k) == p
      {
        InvCipherUndoesCipher(p, k);
      }
    }
  }
}
