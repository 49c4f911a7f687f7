/**
 * Byte stuffing and the exclusive-or checksum, which the node and the host daemon share.
 * Only START, ESC and END travel unescaped; every other byte below 0x10 is sent as ESC and
 * the byte with bit 4 flipped.
 */
module SerialLine {
  import opened Bytes

  const START: byte := 0x01
  const ESC: byte := 0x02
  const END: byte := 0x03

  /** What is put on the line for one data byte. */
  function Stuffed(b: byte): seq<byte> {
    if b < 0x10 then [ESC, Xor(b, 0x10)] else [b]
  }

  function StuffedAll(bs: seq<byte>): seq<byte> {
    if bs == [] then [] else StuffedAll(bs[..|bs| - 1]) + Stuffed(bs[|bs| - 1])
  }

  /** A frame carrying the given header and payload bytes. */
  function Frame(bs: seq<byte>): seq<byte> {
    [START] + StuffedAll(bs) + [END]
  }

  function XorAll(bs: seq<byte>): byte {
    if bs == [] then 0 else Xor(XorAll(bs[..|bs| - 1]), bs[|bs| - 1])
  }

  lemma SmallByteFlips(b: byte)
    requires b < 0x10
    ensures Xor(b, 0x10) == b + 0x10
    ensures Xor(Xor(b, 0x10), 0x10) == b
  {
    hide XorBits;
    XorCancels(b, 0x10, 0);
    Pow2Of4();
    XorWithPow2(b, 4);
  }

  lemma {:induction false} XorAllConcat(a: seq<byte>, b: seq<byte>)
    ensures XorAll(a + b) == Xor(XorAll(a), XorAll(b))
  {
    hide Xor;
    if b == [] {
      assert a + b == a;
      XorLaws(XorAll(a), 0, 0);
    } else {
      var front, last := b[..|b| - 1], b[|b| - 1];
      assert (a + b)[..|a + b| - 1] == a + front;
      XorAllConcat(a, front);
      XorLaws(XorAll(a), XorAll(front), last);
    }
  }

  /** Changing exactly one byte changes the checksum. */
  lemma {:induction false} OneChangeChangesXor(bs: seq<byte>, i: nat, v: byte)
    requires i < |bs| && v != bs[i]
    ensures XorAll(bs[i := v]) != XorAll(bs)
  {
    hide Xor;
    var last := |bs| - 1;
    if i == last {
      var x := XorAll(bs[..last]);
      assert bs[i := v][..last] == bs[..last];
      XorLaws(x, bs[i], 0);
      XorLaws(x, v, 0);
      XorCancels(bs[i], v, x);
    } else {
      OneChangeChangesXor(bs[..last], i, v);
      assert bs[i := v][..last] == bs[..last][i := v];
      XorCancels(XorAll(bs[..last]), XorAll(bs[i := v][..last]), bs[last]);
    }
  }

  lemma XorAllPush(bs: seq<byte>, b: byte)
    ensures XorAll(bs + [b]) == Xor(XorAll(bs), b)
  {
    assert (bs + [b])[..|bs|] == bs;
  }

  lemma StuffedPush(bs: seq<byte>, b: byte)
    ensures StuffedAll(bs + [b]) == StuffedAll(bs) + Stuffed(b)
  {
    assert (bs + [b])[..|bs|] == bs;
  }

  lemma {:induction false} StuffedConcat(a: seq<byte>, b: seq<byte>)
    ensures StuffedAll(a + b) == StuffedAll(a) + StuffedAll(b)
  {
    hide Stuffed;
    if b == [] {
      assert a + b == a;
    } else {
      assert (a + b)[..|a + b| - 1] == a + b[..|b| - 1];
      StuffedConcat(a, b[..|b| - 1]);
    }
  }
}
