/**
 * The serial protocol as a specification: a message printer and an incremental parser with
 * persistent state, one received byte at a time. The node and the host daemon speak two
 * dialects of it: the node has a two-byte type, takes lengths below its buffer size and leaves
 * a frame at every END; the daemon has a one-byte type, takes lengths up to its buffer size and
 * stays inside a frame whose checksum is wrong.
 */
module LinkProtocol {
  import opened Bytes
  import opened SerialLine

  datatype Option<+T> = None | Some(value: T)

  datatype Dialect = NodeDialect | HostDialect

  datatype Message = Message(kind: u16, payload: seq<byte>)

  // ---------- the printer ----------

  /** The checksum byte of a message. */
  function Checksum(kind: u16, length: u16, payload: seq<byte>): byte {
    XorAll([Lsb(kind), Msb(kind), Lsb(length), Msb(length)] + payload)
  }

  ghost predicate Sendable(dialect: Dialect, m: Message) {
    |m.payload| < 65536 && (dialect == HostDialect ==> m.kind < 256)
  }

  function TypeBytes(dialect: Dialect): nat {
    if dialect == NodeDialect then 2 else 1
  }

  function Header(dialect: Dialect, m: Message): (h: seq<byte>)
    requires Sendable(dialect, m)
    ensures |h| == TypeBytes(dialect) + 3
  {
    var n := |m.payload|;
    (if dialect == NodeDialect then [Msb(m.kind), Lsb(m.kind)] else [m.kind])
    + [Msb(n), Lsb(n), Checksum(m.kind, n, m.payload)]
  }

  /** The bytes on the line for one message. */
  function Encode(dialect: Dialect, m: Message): seq<byte>
    requires Sendable(dialect, m)
  {
    Frame(Header(dialect, m) + m.payload)
  }

  // ---------- the parser ----------

  datatype RxState = WaitStart | WaitTypeMsb | WaitTypeLsb | WaitLenMsb | WaitLenLsb | WaitCrc | WaitData

  /** The static variables of the parser together with the caller's type, length and message buffer. */
  datatype Receiver = Receiver(dialect: Dialect, state: RxState, crc: byte, bytes: nat, inEsc: bool,
                               kind: u16, length: u16, buffer: seq<byte>)

  /** A parser that expects or stores payload has checked the length against the buffer. */
  ghost predicate Valid(r: Receiver) {
    r.state == WaitCrc || r.state == WaitData ==> r.length <= |r.buffer|
  }

  /** What one unescaped data byte does. */
  function Accept(r: Receiver, b: byte): Receiver
    requires Valid(r)
  {
    match r.state
    case WaitStart => r
    case WaitTypeMsb => r.(kind := b * 256, state := WaitTypeLsb)
    case WaitTypeLsb => r.(kind := if r.dialect == NodeDialect then (r.kind + b) % 65536 else b, state := WaitLenMsb)
    case WaitLenMsb => r.(length := b * 256, state := WaitLenLsb)
    case WaitLenLsb =>
      var n := (r.length + b) % 65536;
      r.(length := n, state := if n > |r.buffer| then WaitStart else WaitCrc)
    case WaitCrc => r.(crc := b, state := WaitData)
    case WaitData =>
      if r.bytes < r.length then r.(buffer := r.buffer[r.bytes := b], bytes := r.bytes + 1) else r
  }

  /** The lengths a dialect delivers. */
  predicate Fits(dialect: Dialect, length: nat, capacity: nat) {
    if dialect == NodeDialect then length < capacity else length <= capacity
  }

  /** What the END byte delivers. */
  function Delivered(r: Receiver): Option<Message> {
    if Fits(r.dialect, r.length, |r.buffer|) && r.crc == Checksum(r.kind, r.length, r.buffer[..r.length])
    then Some(Message(r.kind, r.buffer[..r.length]))
    else None
  }

  /** The parser right after a START byte. */
  function Started(r: Receiver): Receiver {
    r.(bytes := 0, inEsc := false, state := if r.dialect == NodeDialect then WaitTypeMsb else WaitTypeLsb)
  }

  /** The parser right after an END byte. */
  function Ended(r: Receiver): Receiver {
    if r.dialect == NodeDialect || r.length > |r.buffer| || Delivered(r).Some? then r.(state := WaitStart) else r
  }

  /** The parser's state after one received byte. */
  function Next(r: Receiver, b: byte): (r': Receiver)
    requires Valid(r)
    ensures Valid(r') && |r'.buffer| == |r.buffer| && r'.dialect == r.dialect
  {
    if b == START then Started(r)
    else if b == ESC then r.(inEsc := true)
    else if b == END then Ended(r)
    else if r.inEsc then Accept(r.(inEsc := false), Xor(b, 0x10))
    else Accept(r, b)
  }

  /** The message one received byte completes, if any. */
  function Output(r: Receiver, b: byte): Option<Message> {
    if b == END then Delivered(r) else None
  }

  function After(r: Receiver, bs: seq<byte>): (r': Receiver)
    requires Valid(r)
    ensures Valid(r') && |r'.buffer| == |r.buffer| && r'.dialect == r.dialect
  {
    if bs == [] then r else Next(After(r, bs[..|bs| - 1]), bs[|bs| - 1])
  }

  /** What each byte of a run of received bytes delivers. */
  function Outputs(r: Receiver, bs: seq<byte>): (out: seq<Option<Message>>)
    requires Valid(r)
    ensures |out| == |bs|
  {
    if bs == [] then []
    else Outputs(r, bs[..|bs| - 1]) + [Output(After(r, bs[..|bs| - 1]), bs[|bs| - 1])]
  }

  function Nothing(n: nat): (out: seq<Option<Message>>)
    ensures |out| == n
  {
    seq(n, _ => None)
  }

  lemma {:induction false} RunsConcat(r: Receiver, a: seq<byte>, b: seq<byte>)
    requires Valid(r)
    ensures After(r, a + b) == After(After(r, a), b)
    ensures Outputs(r, a + b) == Outputs(r, a) + Outputs(After(r, a), b)
  {
    hide Next, Output;
    if b == [] {
      assert a + b == a;
    } else {
      var front := b[..|b| - 1];
      assert (a + b)[..|a + b| - 1] == a + front;
      RunsConcat(r, a, front);
    }
  }

  /** Bytes other than END deliver nothing. */
  lemma {:induction false} SilentWithoutEnd(r: Receiver, bs: seq<byte>)
    requires Valid(r) && END !in bs
    ensures Outputs(r, bs) == Nothing(|bs|)
  {
    hide Delivered, Next;
    if bs != [] {
      SilentWithoutEnd(r, bs[..|bs| - 1]);
    }
  }

  /** A stuffed byte reaches the parser as the byte it stands for. */
  lemma StuffedByteIsAccepted(r: Receiver, b: byte)
    requires Valid(r) && !r.inEsc
    ensures After(r, Stuffed(b)) == Accept(r, b) && !Accept(r, b).inEsc
    ensures END !in Stuffed(b)
  {
    hide Xor, Accept;
    if b < 0x10 {
      SmallByteFlips(b);
      var e := [ESC, Xor(b, 0x10)];
      assert e[..1] == [ESC] && [ESC][..0] == [];
      assert After(r, [ESC]) == r.(inEsc := true);
      assert After(r, e) == Next(After(r, [ESC]), Xor(b, 0x10));
    } else {
      assert [b][..0] == [];
    }
    assert Accept(r, b).inEsc == r.inEsc by {
      AcceptKeepsEscape(r, b);
    }
  }

  lemma AcceptKeepsEscape(r: Receiver, b: byte)
    requires Valid(r)
    ensures Accept(r, b).inEsc == r.inEsc
    ensures Valid(Accept(r, b)) && |Accept(r, b).buffer| == |r.buffer| && Accept(r, b).dialect == r.dialect
  {}

  function AcceptAll(r: Receiver, bs: seq<byte>): (r': Receiver)
    requires Valid(r)
    ensures Valid(r') && |r'.buffer| == |r.buffer| && r'.dialect == r.dialect
  {
    if bs == [] then r else Accept(AcceptAll(r, bs[..|bs| - 1]), bs[|bs| - 1])
  }

  lemma {:induction false} StuffedBytesAreAccepted(r: Receiver, bs: seq<byte>)
    requires Valid(r) && !r.inEsc
    ensures After(r, StuffedAll(bs)) == AcceptAll(r, bs) && !AcceptAll(r, bs).inEsc
    ensures END !in StuffedAll(bs)
  {
    hide Next, Accept, Stuffed;
    if bs != [] {
      var front, last := bs[..|bs| - 1], bs[|bs| - 1];
      StuffedBytesAreAccepted(r, front);
      StuffedByteIsAccepted(AcceptAll(r, front), last);
      RunsConcat(r, StuffedAll(front), Stuffed(last));
    }
  }

  lemma AcceptTwo(r: Receiver, a: byte, b: byte)
    requires Valid(r)
    ensures AcceptAll(r, [a]) == Accept(r, a)
    ensures AcceptAll(r, [a, b]) == Accept(Accept(r, a), b)
  {
    hide Accept;
    assert [a][..0] == [];
    assert [a, b][..1] == [a];
  }

  /** The receiver once a frame's type has arrived. */
  function Typed(r: Receiver, kind: u16): Receiver {
    Started(r).(kind := kind, state := WaitLenMsb)
  }

  lemma TypeIsAccepted(r: Receiver, t: seq<byte>)
    requires Valid(r) && |t| == TypeBytes(r.dialect)
    ensures AcceptAll(Started(r), t) == Typed(r, TypeOf(t))
  {
    hide AcceptAll;
    if r.dialect == NodeDialect {
      AcceptTwo(Started(r), t[0], t[1]);
      assert t == [t[0], t[1]];
    } else {
      AcceptTwo(Started(r), t[0], t[0]);
      assert t == [t[0]];
    }
  }

  /** Length and checksum bytes lead to the payload, or abandon a frame that is too long. */
  lemma LengthIsAccepted(r: Receiver, kind: u16, l1: byte, l0: byte, c: byte)
    requires Valid(r)
    ensures var r' := AcceptAll(Typed(r, kind), [l1, l0, c]);
            var n := Joined(l1, l0);
            if n <= |r.buffer| then r' == Typed(r, kind).(state := WaitData, length := n, crc := c)
            else r' == Typed(r, kind).(state := WaitStart, length := n)
  {
    hide AcceptAll;
    assert (l1 * 256 + l0) % 65536 == Joined(l1, l0);
    var s2 := Typed(r, kind);
    AcceptTwo(s2, l1, l0);
    AcceptTwo(AcceptAll(s2, [l1, l0]), c, c);
    AcceptAllConcat(s2, [l1, l0], [c]);
    assert [l1, l0, c] == [l1, l0] + [c];
  }

  lemma {:induction false} PayloadIsStored(r: Receiver, bs: seq<byte>)
    requires Valid(r) && r.state == WaitData && r.bytes == 0 && |bs| <= r.length
    ensures var r' := AcceptAll(r, bs);
            r' == r.(bytes := |bs|, buffer := bs + r.buffer[|bs|..])
  {
    if bs == [] {
      assert [] + r.buffer[0..] == r.buffer;
    } else {
      var front, last := bs[..|bs| - 1], bs[|bs| - 1];
      PayloadIsStored(r, front);
      var b' := (front + r.buffer[|front|..])[|front| := last];
      assert b' == bs + r.buffer[|bs|..];
    }
  }

  lemma {:induction false} IdleIgnores(r: Receiver, bs: seq<byte>)
    requires Valid(r) && r.state == WaitStart
    ensures AcceptAll(r, bs) == r
  {
    if bs != [] {
      IdleIgnores(r, bs[..|bs| - 1]);
    }
  }

  lemma {:induction false} AcceptAllConcat(r: Receiver, a: seq<byte>, b: seq<byte>)
    requires Valid(r)
    ensures AcceptAll(r, a + b) == AcceptAll(AcceptAll(r, a), b)
  {
    hide Accept;
    if b == [] {
      assert a + b == a;
    } else {
      assert (a + b)[..|a + b| - 1] == a + b[..|b| - 1];
      AcceptAllConcat(r, a, b[..|b| - 1]);
    }
  }

  // ---------- whole frames ----------

  /** The type, length, checksum and payload bytes of a frame, before stuffing. */
  datatype Content = Content(kind: seq<byte>, l1: byte, l0: byte, crc: byte, payload: seq<byte>)

  /** The length field is right; type, checksum and payload are arbitrary. */
  ghost predicate WellSized(dialect: Dialect, d: Content) {
    |d.kind| == TypeBytes(dialect) && |d.payload| == Joined(d.l1, d.l0)
  }

  function ContentBytes(d: Content): (bs: seq<byte>)
    ensures |bs| == |d.kind| + 3 + |d.payload|
  {
    d.kind + [d.l1, d.l0, d.crc] + d.payload
  }

  function TypeOf(t: seq<byte>): u16
    requires |t| == 1 || |t| == 2
  {
    if |t| == 2 then Joined(t[0], t[1]) else t[0]
  }

  /** A well-sized content is delivered exactly when it fits and its checksum is right. */
  function Verdict(dialect: Dialect, d: Content, capacity: nat): Option<Message>
    requires WellSized(dialect, d)
  {
    if Fits(dialect, |d.payload|, capacity) && d.crc == Checksum(TypeOf(d.kind), |d.payload|, d.payload)
    then Some(Message(TypeOf(d.kind), d.payload)) else None
  }

  /** The state in which END finds the parser. */
  lemma DataBeforeEnd(r: Receiver, d: Content)
    requires Valid(r) && WellSized(r.dialect, d)
    ensures Delivered(AcceptAll(Started(r), ContentBytes(d))) == Verdict(r.dialect, d, |r.buffer|)
  {
    hide Accept, Checksum;
    var n, kind := |d.payload|, TypeOf(d.kind);
    var lengths := [d.l1, d.l0, d.crc];
    var s := AcceptAll(Typed(r, kind), lengths);
    AcceptAllConcat(Started(r), d.kind + lengths, d.payload);
    AcceptAllConcat(Started(r), d.kind, lengths);
    TypeIsAccepted(r, d.kind);
    LengthIsAccepted(r, kind, d.l1, d.l0, d.crc);
    if n <= |r.buffer| {
      PayloadIsStored(s, d.payload);
      assert (d.payload + s.buffer[n..])[..n] == d.payload;
    } else {
      IdleIgnores(s, d.payload);
    }
  }

  /** From any state, a frame delivers its verdict on its END byte and nothing before. */
  lemma FrameOutputs(r: Receiver, d: Content)
    requires Valid(r) && WellSized(r.dialect, d)
    ensures var line := Frame(ContentBytes(d));
            Outputs(r, line) == Nothing(|line| - 1) + [Verdict(r.dialect, d, |r.buffer|)]
  {
    hide Verdict, Delivered, StuffedAll, ContentBytes;
    var bytes := ContentBytes(d);
    var body := [START] + StuffedAll(bytes);
    assert [START][..0] == [];
    assert After(r, [START]) == Started(r);
    RunsConcat(r, [START], StuffedAll(bytes));
    StuffedBytesAreAccepted(Started(r), bytes);
    DataBeforeEnd(r, d);
    SilentWithoutEnd(r, body);
    RunsConcat(r, body, [END]);
    var last := After(r, body);
    assert [END][..0] == [];
    assert Outputs(last, [END]) == [Delivered(last)];
    assert Frame(bytes) == body + [END];
  }

  // ---------- what a frame can store ----------

  /** Since the START only the first r.bytes buffer positions were written, all below the declared length. */
  ghost predicate StoredBelowLength(r: Receiver, before: seq<byte>) {
    && |before| == |r.buffer|
    && r.bytes <= |r.buffer|
    && (r.bytes > 0 ==> r.bytes <= r.length && (r.state == WaitData || r.state == WaitStart))
    && r.buffer[r.bytes..] == before[r.bytes..]
  }

  lemma AcceptStoresBelowLength(r: Receiver, before: seq<byte>, b: byte)
    requires Valid(r) && StoredBelowLength(r, before)
    ensures StoredBelowLength(Accept(r, b), before)
  {
    if r.state == WaitData && r.bytes < r.length {
      var n := r.bytes;
      assert Accept(r, b).buffer[n + 1..] == r.buffer[n..][1..] == before[n + 1..];
    }
  }

  /** Where the frame that a stream ends in began: behind its last START, or at its beginning. */
  function FrameStart(bs: seq<byte>): (k: nat)
    ensures k <= |bs|
  {
    if bs == [] then 0 else if bs[|bs| - 1] == START then |bs| else FrameStart(bs[..|bs| - 1])
  }

  /** The byte is stored nowhere, or in one place below the declared length. */
  ghost predicate StoresBelowLength(r: Receiver, b: byte)
    requires Valid(r)
  {
    var r' := Next(r, b);
    || r'.buffer == r.buffer
    || (r.bytes < r.length <= |r.buffer| && r'.buffer == r.buffer[r.bytes := r'.buffer[r.bytes]])
  }

  lemma ByteStoresBelowLength(r: Receiver, b: byte)
    requires Valid(r)
    ensures StoresBelowLength(r, b)
  {
    hide Xor, Delivered;
  }

  /** A byte other than START keeps what was stored before the frame where the frame has not come. */
  lemma NextStoresBelowLength(r: Receiver, before: seq<byte>, b: byte)
    requires Valid(r) && StoredBelowLength(r, before) && b != START
    ensures StoredBelowLength(Next(r, b), before)
  {
    hide Accept, Delivered, Xor;
    if b != ESC && b != END {
      AcceptStoresBelowLength(r.(inEsc := false), before, if r.inEsc then Xor(b, 0x10) else b);
      AcceptStoresBelowLength(r, before, b);
    }
  }

  /** At the end of every stream only the first positions of its last frame, as many as were counted, have changed. */
  lemma {:induction false} LastFrameStoresBelowLength(r: Receiver, bs: seq<byte>)
    requires Valid(r) && StoredBelowLength(r, r.buffer)
    ensures StoredBelowLength(After(r, bs), After(r, bs[..FrameStart(bs)]).buffer)
  {
    hide Next;
    if bs == [] {
      assert bs[..0] == bs;
    } else {
      var front, b := bs[..|bs| - 1], bs[|bs| - 1];
      if b == START {
        assert bs[..|bs|] == bs;
        StartStoresNothing(After(r, front));
      } else {
        LastFrameStoresBelowLength(r, front);
        assert bs[..FrameStart(bs)] == front[..FrameStart(front)];
        NextStoresBelowLength(After(r, front), After(r, front[..FrameStart(front)]).buffer, b);
      }
    }
  }

  lemma StartStoresNothing(r: Receiver)
    requires Valid(r)
    ensures StoredBelowLength(Next(r, START), Next(r, START).buffer)
  {}

  /**
   * For every stream of bytes, whatever frames are in it: each byte is stored below the declared length and inside the
   * buffer, or not at all; and since the last START only the first positions, as many as were counted, have changed.
   */
  lemma NothingStoredBeyondLength(r: Receiver, bs: seq<byte>)
    requires Valid(r) && StoredBelowLength(r, r.buffer)
    ensures forall k :: 0 <= k < |bs| ==> StoresBelowLength(After(r, bs[..k]), bs[k])
    ensures StoredBelowLength(After(r, bs), After(r, bs[..FrameStart(bs)]).buffer)
  {
    LastFrameStoresBelowLength(r, bs);
    forall k | 0 <= k < |bs|
      ensures StoresBelowLength(After(r, bs[..k]), bs[k])
    {
      ByteStoresBelowLength(After(r, bs[..k]), bs[k]);
    }
  }

  // ---------- streams of messages ----------

  /** A message on the line, after some bytes that belong to no frame. */
  datatype Burst = Burst(noise: seq<byte>, message: Message)

  ghost predicate Harmless(noise: seq<byte>) {
    START !in noise && END !in noise
  }

  ghost predicate Transmittable(dialect: Dialect, bursts: seq<Burst>) {
    forall b <- bursts :: Harmless(b.noise) && Sendable(dialect, b.message)
  }

  function BurstLine(dialect: Dialect, b: Burst): seq<byte>
    requires Sendable(dialect, b.message)
  {
    b.noise + Encode(dialect, b.message)
  }

  function Line(dialect: Dialect, bursts: seq<Burst>): seq<byte>
    requires Transmittable(dialect, bursts)
  {
    if bursts == [] then []
    else Line(dialect, bursts[..|bursts| - 1]) + BurstLine(dialect, bursts[|bursts| - 1])
  }

  /** The message on the last byte of the burst if it fits, and nothing else. */
  function BurstOutputs(dialect: Dialect, b: Burst, capacity: nat): seq<Option<Message>>
    requires Sendable(dialect, b.message)
  {
    Nothing(|BurstLine(dialect, b)| - 1)
    + [if Fits(dialect, |b.message.payload|, capacity) then Some(b.message) else None]
  }

  /** Every message that fits, on its END byte, in order; nothing else. */
  function Expected(dialect: Dialect, bursts: seq<Burst>, capacity: nat): seq<Option<Message>>
    requires Transmittable(dialect, bursts)
  {
    if bursts == [] then []
    else Expected(dialect, bursts[..|bursts| - 1], capacity) + BurstOutputs(dialect, bursts[|bursts| - 1], capacity)
  }

  /** The content of an encoded message. */
  function ContentOf(dialect: Dialect, m: Message): Content
    requires Sendable(dialect, m)
  {
    var n := |m.payload|;
    Content(if dialect == NodeDialect then [Msb(m.kind), Lsb(m.kind)] else [m.kind],
            Msb(n), Lsb(n), Checksum(m.kind, n, m.payload), m.payload)
  }

  lemma EncodedVerdict(dialect: Dialect, m: Message, capacity: nat)
    requires Sendable(dialect, m)
    ensures var d := ContentOf(dialect, m);
            WellSized(dialect, d) && Encode(dialect, m) == Frame(ContentBytes(d))
            && Verdict(dialect, d, capacity) == if Fits(dialect, |m.payload|, capacity) then Some(m) else None
  {
    hide Checksum, Frame;
  }

  /** One burst: its noise is silent and its frame delivers the message if it fits. */
  lemma BurstIsDelivered(r: Receiver, b: Burst)
    requires Valid(r) && Harmless(b.noise) && Sendable(r.dialect, b.message)
    ensures Outputs(r, BurstLine(r.dialect, b)) == BurstOutputs(r.dialect, b, |r.buffer|)
  {
    hide Outputs, After, Frame, Verdict, Header, Encode;
    var code := Encode(r.dialect, b.message);
    RunsConcat(r, b.noise, code);
    SilentWithoutEnd(r, b.noise);
    EncodedVerdict(r.dialect, b.message, |r.buffer|);
    FrameOutputs(After(r, b.noise), ContentOf(r.dialect, b.message));
    assert Nothing(|b.noise|) + Nothing(|code| - 1) == Nothing(|b.noise| + (|code| - 1));
  }

  /** Any list of messages, with noise between them, is delivered exactly, from any receiver state. */
  lemma {:induction false} StreamIsDelivered(r: Receiver, bursts: seq<Burst>)
    requires Valid(r) && Transmittable(r.dialect, bursts)
    ensures Outputs(r, Line(r.dialect, bursts)) == Expected(r.dialect, bursts, |r.buffer|)
  {
    hide Outputs, After, BurstLine, BurstOutputs;
    if bursts == [] {
      assert Outputs(r, []) == [];
    } else {
      var front, b := bursts[..|bursts| - 1], bursts[|bursts| - 1];
      var before := Line(r.dialect, front);
      StreamIsDelivered(r, front);
      RunsConcat(r, before, BurstLine(r.dialect, b));
      BurstIsDelivered(After(r, before), b);
    }
  }

  function Single(m: Option<Message>): seq<Message> {
    match m
    case None => []
    case Some(x) => [x]
  }

  /** The messages that a run of bytes completes. */
  function Completed(outs: seq<Option<Message>>): seq<Message> {
    if outs == [] then [] else Completed(outs[..|outs| - 1]) + Single(outs[|outs| - 1])
  }

  lemma {:induction false} CompletedConcat(a: seq<Option<Message>>, b: seq<Option<Message>>)
    ensures Completed(a + b) == Completed(a) + Completed(b)
  {
    if b == [] {
      assert a + b == a;
    } else {
      assert (a + b)[..|a + b| - 1] == a + b[..|b| - 1];
      CompletedConcat(a, b[..|b| - 1]);
    }
  }

  lemma {:induction false} NothingCompleted(n: nat)
    ensures Completed(Nothing(n)) == []
  {
    if n > 0 {
      assert Nothing(n)[..n - 1] == Nothing(n - 1);
      NothingCompleted(n - 1);
    }
  }

  /** The messages that the receiver takes, in order. */
  function Fitting(dialect: Dialect, bursts: seq<Burst>, capacity: nat): seq<Message> {
    if bursts == [] then []
    else
      var m := bursts[|bursts| - 1].message;
      Fitting(dialect, bursts[..|bursts| - 1], capacity) + if Fits(dialect, |m.payload|, capacity) then [m] else []
  }

  lemma {:induction false} ExpectedIsFitting(dialect: Dialect, bursts: seq<Burst>, capacity: nat)
    requires Transmittable(dialect, bursts)
    ensures Completed(Expected(dialect, bursts, capacity)) == Fitting(dialect, bursts, capacity)
  {
    hide BurstOutputs, Fits, Completed;
    if bursts == [] {
      NothingCompleted(0);
      assert Nothing(0) == [];
    } else {
      var front, b := bursts[..|bursts| - 1], bursts[|bursts| - 1];
      ExpectedIsFitting(dialect, front, capacity);
      CompletedConcat(Expected(dialect, front, capacity), BurstOutputs(dialect, b, capacity));
      BurstCompleted(dialect, b, capacity);
    }
  }

  lemma BurstCompleted(dialect: Dialect, b: Burst, capacity: nat)
    requires Sendable(dialect, b.message)
    ensures Completed(BurstOutputs(dialect, b, capacity))
            == if Fits(dialect, |b.message.payload|, capacity) then [b.message] else []
  {
    hide BurstLine, Fits;
    var n := |BurstOutputs(dialect, b, capacity)| - 1;
    var last := [if Fits(dialect, |b.message.payload|, capacity) then Some(b.message) else None];
    CompletedConcat(Nothing(n), last);
    NothingCompleted(n);
    assert last[..0] == [];
  }

  /** The messages that fit are what the receiver completes, and nothing else. */
  lemma FittingIsCompleted(r: Receiver, bursts: seq<Burst>)
    requires Valid(r) && Transmittable(r.dialect, bursts)
    ensures Completed(Outputs(r, Line(r.dialect, bursts))) == Fitting(r.dialect, bursts, |r.buffer|)
  {
    hide *;
    StreamIsDelivered(r, bursts);
    ExpectedIsFitting(r.dialect, bursts, |r.buffer|);
  }

  // ---------- corruption ----------

  lemma ZeroSumIffEqual(x: byte, y: byte)
    ensures Xor(x, y) == 0 <==> y == x
  {
    hide Xor;
    XorCancels(x, y, y);
    XorLaws(y, y, y);
    XorLaws(y, 0, 0);
    XorLaws(0, y, 0);
  }

  lemma BytesOfWord(msb: byte, lsb: byte)
    ensures Msb(Joined(msb, lsb)) == msb && Lsb(Joined(msb, lsb)) == lsb
  {}

  lemma TypeSum(t: seq<byte>)
    requires |t| == 1 || |t| == 2
    ensures XorAll(t) == Xor(Lsb(TypeOf(t)), Msb(TypeOf(t)))
  {
    hide Xor, XorAll;
    if |t| == 1 {
      assert t == [t[0]];
      XorAllOfOne(t[0]);
      XorLaws(t[0], 0, 0);
    } else {
      assert t == [t[0], t[1]];
      XorAllOfTwo(t[0], t[1]);
      BytesOfWord(t[0], t[1]);
      XorLaws(t[0], t[1], 0);
    }
  }

  /** All bytes of a well-sized content sum to the checksum they should carry and the one they do. */
  lemma SumOfContent(dialect: Dialect, d: Content)
    requires WellSized(dialect, d)
    ensures XorAll(ContentBytes(d)) == Xor(Checksum(TypeOf(d.kind), |d.payload|, d.payload), d.crc)
  {
    hide Xor, XorAll, Joined, Msb, Lsb, TypeOf;
    var k, l1, l0, c, p := XorAll(d.kind), d.l1, d.l0, d.crc, XorAll(d.payload);
    TypeSum(d.kind);
    BytesOfWord(l1, l0);
    var lo, hi := Lsb(TypeOf(d.kind)), Msb(TypeOf(d.kind));
    XorAllConcat([lo, hi, l0, l1], d.payload);
    XorAllOfFour(lo, hi, l0, l1);
    assert Checksum(TypeOf(d.kind), |d.payload|, d.payload) == Xor(Xor(Xor(k, l0), l1), p);
    XorAllConcat(d.kind + [l1, l0, c], d.payload);
    XorAllConcat(d.kind, [l1, l0, c]);
    XorAllOfThree(l1, l0, c);
    assert XorAll(ContentBytes(d)) == Xor(Xor(k, Xor(Xor(l1, l0), c)), p);
    XorRegroup(k, l1, l0, c, p);
  }

  lemma XorRegroup(k: byte, l1: byte, l0: byte, c: byte, p: byte)
    ensures Xor(Xor(k, Xor(Xor(l1, l0), c)), p) == Xor(Xor(Xor(Xor(k, l0), l1), p), c)
  {
    hide Xor;
    var l := Xor(l1, l0);
    XorLaws(l1, l0, 0);
    XorLaws(k, l0, l1);
    XorLaws(k, l, c);
    XorLaws(Xor(k, l), c, p);
    XorLaws(c, p, 0);
    XorLaws(Xor(k, l), p, c);
  }

  /** The bytes of a frame taken apart again. */
  function Parsed(dialect: Dialect, bs: seq<byte>): Content
    requires |bs| >= TypeBytes(dialect) + 3
  {
    var t := TypeBytes(dialect);
    Content(bs[..t], bs[t], bs[t + 1], bs[t + 2], bs[t + 3..])
  }

  /** Changing a byte that is not a length byte leaves a well-sized content. */
  lemma ChangeKeepsSize(dialect: Dialect, d: Content, i: nat, v: byte)
    requires WellSized(dialect, d)
    requires i < |ContentBytes(d)| && i != TypeBytes(dialect) && i != TypeBytes(dialect) + 1
    ensures var d' := Parsed(dialect, ContentBytes(d)[i := v]);
            WellSized(dialect, d') && ContentBytes(d') == ContentBytes(d)[i := v]
  {
    hide Joined;
    var bs := ContentBytes(d);
    var t := TypeBytes(dialect);
    assert bs[t] == d.l1 && bs[t + 1] == d.l0;
    var d' := Parsed(dialect, bs[i := v]);
    assert d'.l1 == d.l1 && d'.l0 == d.l0;
  }

  /** A sent frame with one type, checksum or payload byte changed on the way is never delivered. */
  lemma CorruptionIsRejected(r: Receiver, m: Message, i: nat, v: byte)
    requires Valid(r) && Sendable(r.dialect, m)
    requires i != TypeBytes(r.dialect) && i != TypeBytes(r.dialect) + 1
    requires var sent := ContentBytes(ContentOf(r.dialect, m)); i < |sent| && v != sent[i]
    ensures var line := Frame(ContentBytes(ContentOf(r.dialect, m))[i := v]);
            Outputs(r, line) == Nothing(|line|)
  {
    hide Outputs, After, Frame, XorAll, Checksum, Xor, ContentBytes, Parsed;
    EncodedVerdict(r.dialect, m, |m.payload| + 1);
    var d := ContentOf(r.dialect, m);
    ChangeKeepsSize(r.dialect, d, i, v);
    var d' := Parsed(r.dialect, ContentBytes(d)[i := v]);
    SumOfContent(r.dialect, d);
    SumOfContent(r.dialect, d');
    ZeroSumIffEqual(d.crc, d.crc);
    ZeroSumIffEqual(Checksum(TypeOf(d'.kind), |d'.payload|, d'.payload), d'.crc);
    OneChangeChangesXor(ContentBytes(d), i, v);
    FrameOutputs(r, d');
  }

  lemma XorAllOfOne(a: byte)
    ensures XorAll([a]) == a
  {
    assert [a][..0] == [];
    XorLaws(0, a, 0);
    XorLaws(a, 0, 0);
  }

  lemma XorAllOfFour(a: byte, b: byte, c: byte, d: byte)
    ensures XorAll([a, b, c, d]) == Xor(Xor(Xor(a, b), c), d)
  {
    hide Xor;
    XorAllOfThree(a, b, c);
    assert [a, b, c, d][..3] == [a, b, c];
  }

  lemma XorAllOfTwo(a: byte, b: byte)
    ensures XorAll([a, b]) == Xor(a, b)
  {
    hide Xor;
    XorAllOfOne(a);
    assert [a, b][..1] == [a];
  }

  lemma XorAllOfThree(a: byte, b: byte, c: byte)
    ensures XorAll([a, b, c]) == Xor(Xor(a, b), c)
  {
    hide Xor;
    XorAllOfTwo(a, b);
    assert [a, b, c][..2] == [a, b];
  }

  // ---------- what is on the line ----------

  /** No start or end byte and no other byte below 0x10 but ESC, which a byte from 0x10 to 0x1f follows. */
  ghost predicate Transparent(bs: seq<byte>) {
    forall i :: 0 <= i < |bs| && bs[i] < 0x10 ==> bs[i] == 0x02 && i + 1 < |bs| && 0x10 <= bs[i + 1] < 0x20
  }

  lemma {:induction false} StuffedIsTransparent(bs: seq<byte>)
    ensures Transparent(StuffedAll(bs))
  {
    hide Xor;
    if bs != [] {
      StuffedIsTransparent(bs[..|bs| - 1]);
      var b := bs[|bs| - 1];
      if b < 0x10 {
        SmallByteFlips(b);
      }
    }
  }

  /** Whatever the message: a frame is what stands from a 0x01 to the next 0x03. */
  lemma FrameIsTransparent(dialect: Dialect, m: Message)
    requires Sendable(dialect, m)
    ensures var f := Encode(dialect, m);
            |f| >= 2 && f[0] == 0x01 && f[|f| - 1] == 0x03 && Transparent(f[1..|f| - 1])
  {
    var bytes := Header(dialect, m) + m.payload;
    StuffedIsTransparent(bytes);
    assert Frame(bytes)[1..|Frame(bytes)| - 1] == StuffedAll(bytes);
    hide Header, StuffedAll, Transparent;
  }

  /** The bytes of one message in each dialect: type and length with the high byte first, checksum, payload. */
  lemma FramesOnTheLine()
    ensures Encode(NodeDialect, Message(0x0120, [0x80])) ==
            [0x01] + [0x02, 0x11] + [0x20] + [0x02, 0x10] + [0x02, 0x11] + [0xa0] + [0x80] + [0x03]
    ensures Encode(HostDialect, Message(0x68, [0x80])) ==
            [0x01] + [0x68] + [0x02, 0x10] + [0x02, 0x11] + [0xe9] + [0x80] + [0x03]
  {
    hide StuffedAll, Stuffed, Header, Xor, Checksum;
    KnownSums();
    ChecksumOfOne(0x0120, 0x80);
    ChecksumOfOne(0x68, 0x80);
    HeadersOnTheLine();
    StuffedNode();
    StuffedOfFive(0x68, 0x00, 0x01, 0xe9, 0x80);
    StuffedBytes();
  }

  lemma StuffedNode()
    ensures StuffedAll([0x01] + [0x20, 0x00, 0x01, 0xa0, 0x80])
            == [0x02, 0x11] + [0x20] + [0x02, 0x10] + [0x02, 0x11] + [0xa0] + [0x80]
  {
    hide StuffedAll, Stuffed, Xor;
    StuffedConcat([0x01], [0x20, 0x00, 0x01, 0xa0, 0x80]);
    StuffedOfOne(0x01);
    StuffedOfFive(0x20, 0x00, 0x01, 0xa0, 0x80);
    StuffedBytes();
  }

  lemma StuffedBytes()
    ensures Stuffed(0x00) == [0x02, 0x10] && Stuffed(0x01) == [0x02, 0x11]
    ensures forall b: byte :: b >= 0x10 ==> Stuffed(b) == [b]
  {
    SmallByteFlips(0);
    SmallByteFlips(1);
    hide Xor;
  }

  lemma HeadersOnTheLine()
    ensures Checksum(0x0120, 1, [0x80]) == 0xa0 ==>
              Header(NodeDialect, Message(0x0120, [0x80])) + [0x80] == [0x01] + [0x20, 0x00, 0x01, 0xa0, 0x80]
    ensures Checksum(0x68, 1, [0x80]) == 0xe9 ==>
              Header(HostDialect, Message(0x68, [0x80])) + [0x80] == [0x68, 0x00, 0x01, 0xe9, 0x80]
  {
    hide Checksum;
  }

  lemma KnownSums()
    ensures Xor(Xor(Xor(0x20, 0x01), 0x01), 0x80) == 0xa0
    ensures Xor(Xor(Xor(0x68, 0x00), 0x01), 0x80) == 0xe9
  {
    XorCancels(0x20, 0x01, 0);
    XorLaws(0x68, 0, 0);
    XorBitsHalf(0x68, 1);
    XorBitsCancels(0x34);
    Pow2Of7();
    XorWithPow2(0x20, 7);
    XorWithPow2(0x69, 7);
    hide XorBits;
  }

  lemma Pow2Of7()
    ensures Pow2(7) == 128
  {
    Pow2Of4();
  }

  lemma ChecksumOfOne(kind: u16, p: byte)
    ensures Checksum(kind, 1, [p]) == Xor(Xor(Xor(Lsb(kind), Msb(kind)), 1), p)
  {
    hide Xor;
    var a, b := Lsb(kind), Msb(kind);
    XorAllOfFour(a, b, 1, 0);
    XorAllPush([a, b, 1, 0], p);
    XorLaws(Xor(Xor(a, b), 1), 0, 0);
    hide XorAll;
  }

  lemma StuffedOfOne(a: byte)
    ensures StuffedAll([a]) == Stuffed(a)
  {
    StuffedPush([], a);
    assert [] + [a] == [a];
  }

  lemma StuffedOfFive(a: byte, b: byte, c: byte, d: byte, e: byte)
    ensures StuffedAll([a, b, c, d, e]) == Stuffed(a) + Stuffed(b) + Stuffed(c) + Stuffed(d) + Stuffed(e)
  {
    StuffedOfOne(a);
    StuffedPush([a], b);
    StuffedPush([a, b], c);
    StuffedPush([a, b, c], d);
    StuffedPush([a, b, c, d], e);
    hide Stuffed, StuffedAll;
    assert [a] + [b] == [a, b] && [a, b] + [c] == [a, b, c] && [a, b, c] + [d] == [a, b, c, d];
    assert [a, b, c, d] + [e] == [a, b, c, d, e];
  }

  /** A message is taken exactly when it is shorter than the node's buffer, or no longer than the daemon's. */
  lemma DeliveredIffItFits(r: Receiver, m: Message)
    requires Valid(r) && Sendable(r.dialect, m)
    ensures Completed(Outputs(r, Encode(r.dialect, m))) ==
            if |m.payload| < |r.buffer| || (r.dialect == HostDialect && |m.payload| == |r.buffer|) then [m] else []
  {
    hide Outputs, Encode, Completed;
    var b := Burst([], m);
    BurstIsDelivered(r, b);
    BurstCompleted(r.dialect, b, |r.buffer|);
    assert [] + Encode(r.dialect, m) == Encode(r.dialect, m);
  }

  /** The end of a frame that is sent twice delivers the message twice. */
  lemma SecondEndDeliversAgain(r: Receiver, bs: seq<byte>)
    requires Valid(r)
    ensures Outputs(r, bs + [END, END]) == Outputs(r, bs) + [Delivered(After(r, bs)), Delivered(After(r, bs))]
  {
    hide After, Outputs, Delivered;
    OneEnd(r, bs);
    OneEnd(r, bs + [END]);
    EndKeepsVerdict(After(r, bs));
    assert bs + [END, END] == bs + [END] + [END];
  }

  lemma OneEnd(r: Receiver, bs: seq<byte>)
    requires Valid(r)
    ensures Outputs(r, bs + [END]) == Outputs(r, bs) + [Delivered(After(r, bs))]
    ensures After(r, bs + [END]) == Next(After(r, bs), END)
  {
    assert (bs + [END])[..|bs|] == bs;
  }

  lemma EndKeepsVerdict(r: Receiver)
    requires Valid(r)
    ensures Delivered(Next(r, END)) == Delivered(r)
  {}

  /**
   * An end that comes too early: the daemon goes on with the frame as if nothing had come, unless what it has so far
   * happens to be right; the node drops the frame.
   */
  lemma EarlyEnd(r: Receiver, bs: seq<byte>)
    requires Valid(r)
    ensures var s := After(r, bs);
            After(r, bs + [END]) ==
            if r.dialect == HostDialect && s.length <= |s.buffer| && Delivered(s).None? then s
            else s.(state := WaitStart)
  {
    hide Delivered;
    OneEnd(r, bs);
  }
}
