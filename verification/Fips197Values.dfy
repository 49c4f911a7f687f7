/**
 * The worked examples of FIPS-197: the key expansion of Appendix A.1 and the encryption of
 * Appendix C.1. They fix what no inverse can see: the round constants, the byte order, the
 * direction of the forward transformations and the polynomial of the field.
 */
module Fips197Values {
  import opened Fips197

  // ---------- four words of the schedule, and one round, at a time ----------

  function RoundKey(key: State, r: nat): State {
    State(KeyWord(key, 4 * r), KeyWord(key, 4 * r + 1), KeyWord(key, 4 * r + 2), KeyWord(key, 4 * r + 3))
  }

  function NextRoundKey(k: State, constant: bv8): State {
    var w0 := XorWord(k.c0, XorWord(SubWord(RotWord(k.c3)), Word(constant, 0, 0, 0)));
    var w1 := XorWord(k.c1, w0);
    var w2 := XorWord(k.c2, w1);
    State(w0, w1, w2, XorWord(k.c3, w2))
  }

  lemma RoundKeyFollows(key: State, r: nat)
    ensures RoundKey(key, r + 1) == NextRoundKey(RoundKey(key, r), RoundConstant(r + 1))
  {
    hide XorWord, SubWord, RotWord, RoundConstant;
    var i := 4 * r + 4;
    assert i % 4 == 0 && i / 4 == r + 1;
    assert (i + 1) % 4 == 1 && (i + 2) % 4 == 2 && (i + 3) % 4 == 3;
  }

  function AddState(s: State, k: State): State {
    State(XorWord(s.c0, k.c0), XorWord(s.c1, k.c1), XorWord(s.c2, k.c2), XorWord(s.c3, k.c3))
  }

  function Round(s: State, k: State): State {
    AddState(MixColumns(ShiftRows(SubBytes(s))), k)
  }

  lemma RoundFollows(p: State, key: State, r: nat)
    ensures Forward(p, key, r + 1) == Round(Forward(p, key, r), RoundKey(key, r + 1))
  {
    hide KeyWord, XorWord, SubBytes, ShiftRows, MixColumns;
  }

  /** What the first and the last round do instead. */
  lemma FirstState(p: State, key: State)
    ensures Forward(p, key, 0) == AddState(p, RoundKey(key, 0))
  {
    hide KeyWord, XorWord;
  }

  lemma LastState(p: State, key: State)
    ensures Cipher(p, key) == AddState(ShiftRows(SubBytes(Forward(p, key, 9))), RoundKey(key, 10))
  {
    hide KeyWord, XorWord, Forward, ShiftRows, SubBytes;
  }

  lemma FirstRoundKey(b: seq<bv8>)
    requires |b| == 16
    ensures RoundKey(FromBytes(b), 0) == FromBytes(b)
  {}

  lemma RoundConstants()
    ensures RoundConstant(1) == 0x01
    ensures RoundConstant(2) == 0x02
    ensures RoundConstant(3) == 0x04
    ensures RoundConstant(4) == 0x08
    ensures RoundConstant(5) == 0x10
    ensures RoundConstant(6) == 0x20
    ensures RoundConstant(7) == 0x40
    ensures RoundConstant(8) == 0x80
    ensures RoundConstant(9) == 0x1b
    ensures RoundConstant(10) == 0x36
  {}

  // ---------- Appendix A.1: the expansion of a 128-bit key ----------

  const KEY_A1: seq<bv8> :=
    [0x2b, 0x7e, 0x15, 0x16, 0x28, 0xae, 0xd2, 0xa6,
     0xab, 0xf7, 0x15, 0x88, 0x09, 0xcf, 0x4f, 0x3c]

  // The words of Appendix A.1, four to a round.
  const A1_0 := State(Word(0x2b, 0x7e, 0x15, 0x16), Word(0x28, 0xae, 0xd2, 0xa6),
                      Word(0xab, 0xf7, 0x15, 0x88), Word(0x09, 0xcf, 0x4f, 0x3c))
  const A1_1 := State(Word(0xa0, 0xfa, 0xfe, 0x17), Word(0x88, 0x54, 0x2c, 0xb1),
                      Word(0x23, 0xa3, 0x39, 0x39), Word(0x2a, 0x6c, 0x76, 0x05))
  const A1_2 := State(Word(0xf2, 0xc2, 0x95, 0xf2), Word(0x7a, 0x96, 0xb9, 0x43),
                      Word(0x59, 0x35, 0x80, 0x7a), Word(0x73, 0x59, 0xf6, 0x7f))
  const A1_3 := State(Word(0x3d, 0x80, 0x47, 0x7d), Word(0x47, 0x16, 0xfe, 0x3e),
                      Word(0x1e, 0x23, 0x7e, 0x44), Word(0x6d, 0x7a, 0x88, 0x3b))
  const A1_4 := State(Word(0xef, 0x44, 0xa5, 0x41), Word(0xa8, 0x52, 0x5b, 0x7f),
                      Word(0xb6, 0x71, 0x25, 0x3b), Word(0xdb, 0x0b, 0xad, 0x00))
  const A1_5 := State(Word(0xd4, 0xd1, 0xc6, 0xf8), Word(0x7c, 0x83, 0x9d, 0x87),
                      Word(0xca, 0xf2, 0xb8, 0xbc), Word(0x11, 0xf9, 0x15, 0xbc))
  const A1_6 := State(Word(0x6d, 0x88, 0xa3, 0x7a), Word(0x11, 0x0b, 0x3e, 0xfd),
                      Word(0xdb, 0xf9, 0x86, 0x41), Word(0xca, 0x00, 0x93, 0xfd))
  const A1_7 := State(Word(0x4e, 0x54, 0xf7, 0x0e), Word(0x5f, 0x5f, 0xc9, 0xf3),
                      Word(0x84, 0xa6, 0x4f, 0xb2), Word(0x4e, 0xa6, 0xdc, 0x4f))
  const A1_8 := State(Word(0xea, 0xd2, 0x73, 0x21), Word(0xb5, 0x8d, 0xba, 0xd2),
                      Word(0x31, 0x2b, 0xf5, 0x60), Word(0x7f, 0x8d, 0x29, 0x2f))
  const A1_9 := State(Word(0xac, 0x77, 0x66, 0xf3), Word(0x19, 0xfa, 0xdc, 0x21),
                      Word(0x28, 0xd1, 0x29, 0x41), Word(0x57, 0x5c, 0x00, 0x6e))
  const A1_10 := State(Word(0xd0, 0x14, 0xf9, 0xa8), Word(0xc9, 0xee, 0x25, 0x89),
                       Word(0xe1, 0x3f, 0x0c, 0xc8), Word(0xb6, 0x63, 0x0c, 0xa6))

  lemma FirstA1()
    ensures RoundKey(FromBytes(KEY_A1), 0) == A1_0
  {
    FirstRoundKey(KEY_A1);
    assert FromBytes(KEY_A1) == A1_0;
  }

  lemma FirstHalfA1()
    ensures NextRoundKey(A1_0, 0x01) == A1_1
    ensures NextRoundKey(A1_1, 0x02) == A1_2
    ensures NextRoundKey(A1_2, 0x04) == A1_3
    ensures NextRoundKey(A1_3, 0x08) == A1_4
    ensures NextRoundKey(A1_4, 0x10) == A1_5
  {}

  lemma SecondHalfA1()
    ensures NextRoundKey(A1_5, 0x20) == A1_6
    ensures NextRoundKey(A1_6, 0x40) == A1_7
    ensures NextRoundKey(A1_7, 0x80) == A1_8
    ensures NextRoundKey(A1_8, 0x1b) == A1_9
    ensures NextRoundKey(A1_9, 0x36) == A1_10
  {}

  const ROUND_KEYS_A1: seq<State> := [A1_0, A1_1, A1_2, A1_3, A1_4, A1_5, A1_6, A1_7, A1_8, A1_9, A1_10]

  lemma StepsA1(r: nat)
    requires r < 10
    ensures NextRoundKey(ROUND_KEYS_A1[r], RoundConstant(r + 1)) == ROUND_KEYS_A1[r + 1]
  {
    hide NextRoundKey, RoundConstant;
    RoundConstants();
    FirstHalfA1();
    SecondHalfA1();
  }

  /** Key expansion produces the published words. */
  lemma {:induction false} ScheduleOfA1(r: nat)
    requires r <= 10
    ensures RoundKey(FromBytes(KEY_A1), r) == ROUND_KEYS_A1[r]
  {
    hide FromBytes, RoundKey, NextRoundKey, RoundConstant;
    if r == 0 {
      FirstA1();
    } else {
      ScheduleOfA1(r - 1);
      RoundKeyFollows(FromBytes(KEY_A1), r - 1);
      StepsA1(r - 1);
    }
  }

  // ---------- Appendix C.1: the encryption of one block ----------

  const KEY_C1: seq<bv8> :=
    [0x00, 0x01, 0x02, 0x03, 0x04, 0x05, 0x06, 0x07,
     0x08, 0x09, 0x0a, 0x0b, 0x0c, 0x0d, 0x0e, 0x0f]

  const PLAIN_C1: seq<bv8> :=
    [0x00, 0x11, 0x22, 0x33, 0x44, 0x55, 0x66, 0x77,
     0x88, 0x99, 0xaa, 0xbb, 0xcc, 0xdd, 0xee, 0xff]

  const CIPHERED_C1: seq<bv8> :=
    [0x69, 0xc4, 0xe0, 0xd8, 0x6a, 0x7b, 0x04, 0x30,
     0xd8, 0xcd, 0xb7, 0x80, 0x70, 0xb4, 0xc5, 0x5a]

  // The round keys (k_sch) of Appendix C.1.
  const C1_0 := State(Word(0x00, 0x01, 0x02, 0x03), Word(0x04, 0x05, 0x06, 0x07),
                      Word(0x08, 0x09, 0x0a, 0x0b), Word(0x0c, 0x0d, 0x0e, 0x0f))
  const C1_1 := State(Word(0xd6, 0xaa, 0x74, 0xfd), Word(0xd2, 0xaf, 0x72, 0xfa),
                      Word(0xda, 0xa6, 0x78, 0xf1), Word(0xd6, 0xab, 0x76, 0xfe))
  const C1_2 := State(Word(0xb6, 0x92, 0xcf, 0x0b), Word(0x64, 0x3d, 0xbd, 0xf1),
                      Word(0xbe, 0x9b, 0xc5, 0x00), Word(0x68, 0x30, 0xb3, 0xfe))
  const C1_3 := State(Word(0xb6, 0xff, 0x74, 0x4e), Word(0xd2, 0xc2, 0xc9, 0xbf),
                      Word(0x6c, 0x59, 0x0c, 0xbf), Word(0x04, 0x69, 0xbf, 0x41))
  const C1_4 := State(Word(0x47, 0xf7, 0xf7, 0xbc), Word(0x95, 0x35, 0x3e, 0x03),
                      Word(0xf9, 0x6c, 0x32, 0xbc), Word(0xfd, 0x05, 0x8d, 0xfd))
  const C1_5 := State(Word(0x3c, 0xaa, 0xa3, 0xe8), Word(0xa9, 0x9f, 0x9d, 0xeb),
                      Word(0x50, 0xf3, 0xaf, 0x57), Word(0xad, 0xf6, 0x22, 0xaa))
  const C1_6 := State(Word(0x5e, 0x39, 0x0f, 0x7d), Word(0xf7, 0xa6, 0x92, 0x96),
                      Word(0xa7, 0x55, 0x3d, 0xc1), Word(0x0a, 0xa3, 0x1f, 0x6b))
  const C1_7 := State(Word(0x14, 0xf9, 0x70, 0x1a), Word(0xe3, 0x5f, 0xe2, 0x8c),
                      Word(0x44, 0x0a, 0xdf, 0x4d), Word(0x4e, 0xa9, 0xc0, 0x26))
  const C1_8 := State(Word(0x47, 0x43, 0x87, 0x35), Word(0xa4, 0x1c, 0x65, 0xb9),
                      Word(0xe0, 0x16, 0xba, 0xf4), Word(0xae, 0xbf, 0x7a, 0xd2))
  const C1_9 := State(Word(0x54, 0x99, 0x32, 0xd1), Word(0xf0, 0x85, 0x57, 0x68),
                      Word(0x10, 0x93, 0xed, 0x9c), Word(0xbe, 0x2c, 0x97, 0x4e))
  const C1_10 := State(Word(0x13, 0x11, 0x1d, 0x7f), Word(0xe3, 0x94, 0x4a, 0x17),
                       Word(0xf3, 0x07, 0xa7, 0x8b), Word(0x4d, 0x2b, 0x30, 0xc5))

  lemma FirstC1()
    ensures RoundKey(FromBytes(KEY_C1), 0) == C1_0
  {
    FirstRoundKey(KEY_C1);
    assert FromBytes(KEY_C1) == C1_0;
  }

  lemma FirstHalfC1()
    ensures NextRoundKey(C1_0, 0x01) == C1_1
    ensures NextRoundKey(C1_1, 0x02) == C1_2
    ensures NextRoundKey(C1_2, 0x04) == C1_3
    ensures NextRoundKey(C1_3, 0x08) == C1_4
    ensures NextRoundKey(C1_4, 0x10) == C1_5
  {}

  lemma SecondHalfC1()
    ensures NextRoundKey(C1_5, 0x20) == C1_6
    ensures NextRoundKey(C1_6, 0x40) == C1_7
    ensures NextRoundKey(C1_7, 0x80) == C1_8
    ensures NextRoundKey(C1_8, 0x1b) == C1_9
    ensures NextRoundKey(C1_9, 0x36) == C1_10
  {}

  const ROUND_KEYS_C1: seq<State> := [C1_0, C1_1, C1_2, C1_3, C1_4, C1_5, C1_6, C1_7, C1_8, C1_9, C1_10]

  lemma StepsC1(r: nat)
    requires r < 10
    ensures NextRoundKey(ROUND_KEYS_C1[r], RoundConstant(r + 1)) == ROUND_KEYS_C1[r + 1]
  {
    hide NextRoundKey, RoundConstant;
    RoundConstants();
    FirstHalfC1();
    SecondHalfC1();
  }

  /** The published key schedule of the encryption. */
  lemma {:induction false} ScheduleOfC1(r: nat)
    requires r <= 10
    ensures RoundKey(FromBytes(KEY_C1), r) == ROUND_KEYS_C1[r]
  {
    hide FromBytes, RoundKey, NextRoundKey, RoundConstant;
    if r == 0 {
      FirstC1();
    } else {
      ScheduleOfC1(r - 1);
      RoundKeyFollows(FromBytes(KEY_C1), r - 1);
      StepsC1(r - 1);
    }
  }

  // The states at the start of rounds 1 to 10.
  const START_1 := State(Word(0x00, 0x10, 0x20, 0x30), Word(0x40, 0x50, 0x60, 0x70),
                         Word(0x80, 0x90, 0xa0, 0xb0), Word(0xc0, 0xd0, 0xe0, 0xf0))
  const START_2 := State(Word(0x89, 0xd8, 0x10, 0xe8), Word(0x85, 0x5a, 0xce, 0x68),
                         Word(0x2d, 0x18, 0x43, 0xd8), Word(0xcb, 0x12, 0x8f, 0xe4))
  const START_3 := State(Word(0x49, 0x15, 0x59, 0x8f), Word(0x55, 0xe5, 0xd7, 0xa0),
                         Word(0xda, 0xca, 0x94, 0xfa), Word(0x1f, 0x0a, 0x63, 0xf7))
  const START_4 := State(Word(0xfa, 0x63, 0x6a, 0x28), Word(0x25, 0xb3, 0x39, 0xc9),
                         Word(0x40, 0x66, 0x8a, 0x31), Word(0x57, 0x24, 0x4d, 0x17))
  const START_5 := State(Word(0x24, 0x72, 0x40, 0x23), Word(0x69, 0x66, 0xb3, 0xfa),
                         Word(0x6e, 0xd2, 0x75, 0x32), Word(0x88, 0x42, 0x5b, 0x6c))
  const START_6 := State(Word(0xc8, 0x16, 0x77, 0xbc), Word(0x9b, 0x7a, 0xc9, 0x3b),
                         Word(0x25, 0x02, 0x79, 0x92), Word(0xb0, 0x26, 0x19, 0x96))
  const START_7 := State(Word(0xc6, 0x2f, 0xe1, 0x09), Word(0xf7, 0x5e, 0xed, 0xc3),
                         Word(0xcc, 0x79, 0x39, 0x5d), Word(0x84, 0xf9, 0xcf, 0x5d))
  const START_8 := State(Word(0xd1, 0x87, 0x6c, 0x0f), Word(0x79, 0xc4, 0x30, 0x0a),
                         Word(0xb4, 0x55, 0x94, 0xad), Word(0xd6, 0x6f, 0xf4, 0x1f))
  const START_9 := State(Word(0xfd, 0xe3, 0xba, 0xd2), Word(0x05, 0xe5, 0xd0, 0xd7),
                         Word(0x35, 0x47, 0x96, 0x4e), Word(0xf1, 0xfe, 0x37, 0xf1))
  const START_10 := State(Word(0xbd, 0x6e, 0x7c, 0x3d), Word(0xf2, 0xb5, 0x77, 0x9e),
                          Word(0x0b, 0x61, 0x21, 0x6e), Word(0x8b, 0x10, 0xb6, 0x89))

  lemma RoundsOneToTwo()
    ensures Round(START_1, C1_1) == START_2
    ensures Round(START_2, C1_2) == START_3
  {}

  lemma RoundsThreeToFour()
    ensures Round(START_3, C1_3) == START_4
    ensures Round(START_4, C1_4) == START_5
  {}

  lemma RoundsFiveToSix()
    ensures Round(START_5, C1_5) == START_6
    ensures Round(START_6, C1_6) == START_7
  {}

  lemma RoundsSevenToEight()
    ensures Round(START_7, C1_7) == START_8
    ensures Round(START_8, C1_8) == START_9
  {}

  lemma RoundNine()
    ensures Round(START_9, C1_9) == START_10
  {}

  const STARTS: seq<State> :=
    [START_1, START_2, START_3, START_4, START_5, START_6, START_7, START_8, START_9, START_10]

  lemma RoundSteps(r: nat)
    requires r < 9
    ensures Round(STARTS[r], ROUND_KEYS_C1[r + 1]) == STARTS[r + 1]
  {
    hide Round;
    RoundsOneToTwo();
    RoundsThreeToFour();
    RoundsFiveToSix();
    RoundsSevenToEight();
    RoundNine();
  }

  lemma FirstAndLastState()
    ensures AddState(FromBytes(PLAIN_C1), C1_0) == START_1
    ensures AddState(ShiftRows(SubBytes(START_10)), C1_10) == FromBytes(CIPHERED_C1)
  {}

  /** Round r + 1 starts from the published state. */
  lemma {:induction false} RoundsOfC1(r: nat)
    requires r <= 9
    ensures Forward(FromBytes(PLAIN_C1), FromBytes(KEY_C1), r) == STARTS[r]
  {
    hide FromBytes, RoundKey, Round, AddState, Forward;
    var plain, key := FromBytes(PLAIN_C1), FromBytes(KEY_C1);
    ScheduleOfC1(r);
    if r == 0 {
      FirstState(plain, key);
      FirstAndLastState();
    } else {
      RoundsOfC1(r - 1);
      RoundFollows(plain, key, r - 1);
      RoundSteps(r - 1);
    }
  }

  /** The published plaintext is enciphered to the published ciphertext, and deciphered from it. */
  lemma CipherOfC1(plain: State, key: State)
    requires plain == FromBytes(PLAIN_C1) && key == FromBytes(KEY_C1)
    ensures Cipher(plain, key) == FromBytes(CIPHERED_C1)
    ensures InvCipher(FromBytes(CIPHERED_C1), key) == plain
  {
    hide FromBytes, RoundKey, AddState, Forward, Cipher, InvCipher, SubBytes, ShiftRows;
    RoundsOfC1(9);
    ScheduleOfC1(10);
    LastState(plain, key);
    FirstAndLastState();
    InvCipherUndoesCipher(plain, key);
  }
}
