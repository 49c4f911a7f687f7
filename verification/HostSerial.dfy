/** The serial reader and writer of the 6LoWPAN daemon. */
module HostSerial {
  import opened Bytes
  import opened SerialLine
  import opened LinkProtocol

  class SerialLink {
    // bytes waiting in the serial device, and bytes written to it
    var input: seq<byte>
    var sent: seq<byte>
    // how many more bytes the device takes before writing fails
    var room: nat
    // the reader's static variables
    var rxState: RxState
    var rxCrc: byte
    var rxBytes: nat
    var inEsc: bool
    // the caller's type, length and buffer
    var kind: byte
    var length: u16
    const message: array<byte>

    ghost function CurrentReceiver(): Receiver
      reads this`rxState, this`rxCrc, this`rxBytes, this`inEsc, this`kind, this`length, message
    {
      Receiver(HostDialect, rxState, rxCrc, rxBytes, inEsc, kind, length, message[..])
    }

    ghost predicate Valid()
      reads this`rxState, this`rxCrc, this`rxBytes, this`inEsc, this`kind, this`length, message
    {
      message.Length < 65536 && rxState != WaitTypeMsb && LinkProtocol.Valid(CurrentReceiver())
    }

    constructor (maxLength: u16, room: nat)
      ensures Valid() && message.Length == maxLength && input == [] && sent == []
      ensures fresh(message)
    {
      input, sent, this.room := [], [], room;
      rxState, rxCrc, rxBytes, inEsc := WaitStart, 0, 0, false;
      kind, length, message := 0, 0, new byte[maxLength](_ => 0);
    }

    /** Takes bytes from the device until one completes a valid message or none is left. */
    method ReadMessage() returns (complete: bool)
      requires Valid()
      modifies this`input, this`rxState, this`rxCrc, this`rxBytes, this`inEsc, this`kind, this`length, message
      ensures Valid()
      ensures var (r, rest, delivered) := Call(old(CurrentReceiver()), old(input));
              CurrentReceiver() == r && input == rest && complete == delivered.Some?
              && (complete ==> length <= message.Length && delivered == Some(Message(kind, message[..length])))
    {
      while input != []
        invariant Valid()
        invariant Call(CurrentReceiver(), input) == old(Call(CurrentReceiver(), input))
        decreases |input|
      {
        var data := input[0];
        ghost var r := CurrentReceiver();
        input := input[1..];
        complete := ReadByte(data);
        if complete {
          return;
        }
      }
      return false;
    }

    /** The body of the reading loop. */
    method ReadByte(data: byte) returns (complete: bool)
      requires Valid()
      modifies this`rxState, this`rxCrc, this`rxBytes, this`inEsc, this`kind, this`length, message
      ensures Valid() && CurrentReceiver() == Next(old(CurrentReceiver()), data)
      ensures complete == Output(old(CurrentReceiver()), data).Some?
      ensures complete ==> Output(old(CurrentReceiver()), data) == Some(Message(kind, message[..length]))
    {
      hide Checksum, Xor;
      var b := data;
      if b == START {
        rxBytes := 0;
        inEsc := false;
        rxState := WaitTypeLsb;
      } else if b == ESC {
        inEsc := true;
      } else if b == END {
        if length > message.Length {
          rxState := WaitStart;
        } else {
          var crc := CalculateCrc(kind, length, message[..]);
          assert message[..][..length] == message[..length];
          if rxCrc == crc {
            rxState := WaitStart;
            return true;
          }
        }
      } else {
        if inEsc {
          b := Xor(b, 0x10);
          inEsc := false;
        }
        AcceptByte(b);
      }
      return false;
    }

    /** One data byte, unescaped: the inner switch of the reader. */
    method AcceptByte(b: byte)
      requires Valid()
      modifies this`rxState, this`rxCrc, this`rxBytes, this`kind, this`length, message
      ensures Valid() && CurrentReceiver() == Accept(old(CurrentReceiver()), b)
    {
      match rxState {
        case WaitStart =>
        case WaitTypeLsb =>
          kind := b;
          rxState := WaitLenMsb;
        case WaitLenMsb =>
          length := Joined(b, 0);
          rxState := WaitLenLsb;
        case WaitLenLsb =>
          length := (length + b) % 65536;
          rxState := if length > message.Length then WaitStart else WaitCrc;
        case WaitCrc =>
          rxCrc := b;
          rxState := WaitData;
        case WaitData =>
          if rxBytes < length {
            message[rxBytes] := b;
            rxBytes := rxBytes + 1;
          }
      }
    }

    method CalculateCrc(kind: byte, length: u16, data: seq<byte>) returns (crc: byte)
      requires length <= |data|
      ensures crc == Checksum(kind, length, data[..length])
    {
      hide Xor, XorAll;
      crc := 0;
      crc := Xor(crc, kind);
      crc := Xor(crc, Msb(length));
      crc := Xor(crc, Lsb(length));
      ghost var h := [Lsb(kind), Msb(kind), Lsb(length), Msb(length)];
      HeaderSum(kind, Msb(length), Lsb(length));
      var n := 0;
      assert h + data[..0] == h;
      while n < length
        invariant 0 <= n <= length
        invariant crc == XorAll(h + data[..n])
      {
        XorAllPush(h + data[..n], data[n]);
        assert h + data[..n + 1] == h + data[..n] + [data[n]];
        crc := Xor(crc, data[n]);
        n := n + 1;
      }
    }

    // ---------- sending ----------

    /** serial_write: false when the device refuses the byte. */
    method WriteByte(b: byte) returns (ok: bool)
      modifies this`sent, this`room
      ensures ok == (old(room) > 0)
      ensures if ok then sent == old(sent) + [b] && room == old(room) - 1 else sent == old(sent) && room == old(room)
    {
      ok := room > 0;
      if ok {
        sent := sent + [b];
        room := room - 1;
      }
    }

    method TxByte(special: bool, data: byte) returns (ok: bool)
      modifies this`sent, this`room
      ensures var out := if special then [data] else Stuffed(data);
              ok == (|out| <= old(room)) && sent == old(sent) + Taken(out, old(room))
              && room == old(room) - |Taken(out, old(room))|
    {
      var b := data;
      if !special && b < 0x10 {
        b := Xor(b, 0x10);
        ok := WriteByte(ESC);
        if !ok {
          return;
        }
      }
      ok := WriteByte(b);
    }

    /** Sends one message; when the device fails on the way, what it took is a prefix of the frame. */
    method WriteMessage(kind: byte, length: u16, data: seq<byte>)
      requires length <= |data|
      modifies this`sent, this`room
      ensures sent == old(sent) + Taken(Encode(HostDialect, Message(kind, data[..length])), old(room))
    {
      hide XorAll, Xor, Stuffed, StuffedAll, Checksum, Encode, Frame;
      ghost var m := Message(kind, data[..length]);
      ghost var bytes := Header(HostDialect, m) + m.payload;
      assert Encode(HostDialect, m) == Frame(bytes) by {
        FrameOfMessage(m);
      }
      ghost var before, room0 := sent, room;
      var ok := TxByte(true, START);
      StartTaken(bytes, room0);
      if !ok { return; }
      ok := TxContent(kind, before, bytes, 0, room0);
      if !ok { return; }
      ok := TxContent(Msb(length), before, bytes, 1, room0);
      if !ok { return; }
      ok := TxContent(Lsb(length), before, bytes, 2, room0);
      if !ok { return; }
      var crc := CalculateCrc(kind, length, data);
      ok := TxContent(crc, before, bytes, 3, room0);
      if !ok { return; }
      var n := 0;
      while n < length
        invariant 0 <= n <= length
        invariant SentSoFar(before, bytes, 4 + n, room0)
      {
        ok := TxContent(data[n], before, bytes, 4 + n, room0);
        if !ok { return; }
        n := n + 1;
      }
      ok := TxByte(true, END);
      EndTaken(bytes, room0);
    }

    /** The first n content bytes of a frame have been taken by the device. */
    ghost predicate SentSoFar(before: seq<byte>, bytes: seq<byte>, n: nat, room0: nat)
      requires n <= |bytes|
      reads this`sent, this`room
    {
      var done := [START] + StuffedAll(bytes[..n]);
      |done| <= room0 && sent == before + done && room == room0 - |done|
    }

    method TxContent(data: byte, ghost before: seq<byte>, ghost bytes: seq<byte>, ghost n: nat, ghost room0: nat)
      returns (ok: bool)
      requires n < |bytes| && data == bytes[n] && SentSoFar(before, bytes, n, room0)
      modifies this`sent, this`room
      ensures if ok then SentSoFar(before, bytes, n + 1, room0) else sent == before + Taken(Frame(bytes), room0)
    {
      hide Stuffed, StuffedAll, Frame;
      ghost var done := [START] + StuffedAll(bytes[..n]);
      ok := TxByte(false, data);
      StuffedPush(bytes[..n], data);
      assert bytes[..n + 1] == bytes[..n] + [data];
      if !ok {
        FramePrefix(bytes, n + 1);
        assert done + Stuffed(data) <= Frame(bytes);
        TakenStep(Frame(bytes), done, Stuffed(data), room0);
      }
    }
  }

  lemma FrameOfMessage(m: Message)
    requires Sendable(HostDialect, m)
    ensures Encode(HostDialect, m) == Frame(Header(HostDialect, m) + m.payload)
  {}

  lemma FramePrefix(bytes: seq<byte>, n: nat)
    requires n <= |bytes|
    ensures [START] + StuffedAll(bytes[..n]) <= Frame(bytes)
  {
    hide StuffedAll;
    StuffedConcat(bytes[..n], bytes[n..]);
    assert bytes == bytes[..n] + bytes[n..];
  }

  lemma TakenStep(line: seq<byte>, done: seq<byte>, next: seq<byte>, room: nat)
    requires done + next <= line && |done| <= room < |done| + |next|
    ensures done + Taken(next, room - |done|) == Taken(line, room)
  {}

  lemma StartTaken(bytes: seq<byte>, room: nat)
    ensures StuffedAll(bytes[..0]) == []
    ensures room == 0 ==> Taken([START], room) == [] == Taken(Frame(bytes), room)
  {}

  lemma EndTaken(bytes: seq<byte>, room: nat)
    requires var done := [START] + StuffedAll(bytes[..|bytes|]); |done| <= room
    ensures var done := [START] + StuffedAll(bytes[..|bytes|]);
            done + Taken([END], room - |done|) == Taken(Frame(bytes), room)
  {
    hide StuffedAll;
    assert bytes[..|bytes|] == bytes;
  }

  /** What a device with the given room takes of some bytes. */
  function Taken(out: seq<byte>, room: nat): seq<byte> {
    if |out| <= room then out else out[..room]
  }

  /** The checksum starts from the one type byte and the length, most significant byte first. */
  lemma HeaderSum(kind: byte, l1: byte, l0: byte)
    ensures Xor(Xor(Xor(0, kind), l1), l0) == XorAll([Lsb(kind), Msb(kind), l0, l1])
  {
    hide Xor, XorAll;
    XorAllOfFour(kind, 0, l0, l1);
    XorLaws(0, kind, 0);
    XorLaws(kind, l1, l0);
    XorLaws(kind, l0, l1);
    XorLaws(l0, l1, 0);
    XorLaws(kind, 0, 0);
  }

  // ---------- one call of the reader, and schedules of calls ----------

  /** What one call of the reader leaves: its state, the unread bytes and the message it returned. */
  function Call(r: Receiver, input: seq<byte>): (Receiver, seq<byte>, Option<Message>)
    requires Valid(r)
    decreases |input|
  {
    if input == [] then (r, [], None)
    else if Output(r, input[0]).Some? then (Next(r, input[0]), input[1..], Output(r, input[0]))
    else Call(Next(r, input[0]), input[1..])
  }

  /** All messages a run of bytes completes. */
  function Messages(r: Receiver, bs: seq<byte>): seq<Message>
    requires Valid(r)
    decreases |bs|
  {
    if bs == [] then [] else Single(Output(r, bs[0])) + Messages(Next(r, bs[0]), bs[1..])
  }

  lemma {:induction false} MessagesConcat(r: Receiver, a: seq<byte>, b: seq<byte>)
    requires Valid(r)
    ensures Messages(r, a + b) == Messages(r, a) + Messages(Run(r, a), b)
    ensures Run(r, a + b) == Run(Run(r, a), b)
    decreases |a|
  {
    hide Next, Output;
    if a == [] {
      assert a + b == b;
    } else {
      assert (a + b)[1..] == a[1..] + b;
      MessagesConcat(Next(r, a[0]), a[1..], b);
    }
  }

  /** The state after a run of bytes, taken from the front. */
  function Run(r: Receiver, bs: seq<byte>): (r': Receiver)
    requires Valid(r)
    ensures Valid(r')
    decreases |bs|
  {
    if bs == [] then r else Run(Next(r, bs[0]), bs[1..])
  }

  lemma {:induction false} RunIsAfter(r: Receiver, bs: seq<byte>)
    requires Valid(r)
    ensures Run(r, bs) == After(r, bs)
    decreases |bs|
  {
    hide Next, Output;
    if bs != [] {
      RunIsAfter(Next(r, bs[0]), bs[1..]);
      RunsConcat(r, bs[..1], bs[1..]);
      assert bs == bs[..1] + bs[1..];
      assert bs[..1][..0] == [];
      assert After(r, bs[..1]) == Next(r, bs[0]);
    }
  }

  /** They are what the parser's outputs complete. */
  lemma {:induction false} MessagesAreCompleted(r: Receiver, bs: seq<byte>)
    requires Valid(r)
    ensures Messages(r, bs) == Completed(Outputs(r, bs))
  {
    hide Next, Output;
    if bs != [] {
      var front, b := bs[..|bs| - 1], bs[|bs| - 1];
      MessagesAreCompleted(r, front);
      RunIsAfter(r, front);
      MessagesConcat(r, front, [b]);
      assert bs == front + [b];
      assert [b][1..] == [];
      assert Messages(After(r, front), [b]) == Single(Output(After(r, front), b)) + [];
    }
  }

  /** A call returns the first message of the waiting bytes and leaves the others for later calls. */
  lemma {:induction false} CallTakesFirst(r: Receiver, input: seq<byte>)
    requires Valid(r)
    ensures var (r', rest, m) := Call(r, input);
            Valid(r') && Messages(r, input) == Single(m) + Messages(r', rest)
            && Run(r, input) == Run(r', rest)
            && (m == None ==> rest == [] && Messages(r, input) == [])
    decreases |input|
  {
    hide Next, Output;
    if input != [] && Output(r, input[0]) == None {
      CallTakesFirst(Next(r, input[0]), input[1..]);
    }
  }

  /** The device receives some bytes, or the daemon calls the reader. */
  datatype Event = Arrive(bytes: seq<byte>) | Read

  datatype Session = Session(receiver: Receiver, input: seq<byte>, delivered: seq<Message>)

  function Arrivals(events: seq<Event>): seq<byte> {
    if events == [] then []
    else Arrivals(events[..|events| - 1])
         + (match events[|events| - 1] case Arrive(bytes) => bytes case Read => [])
  }

  function Step(s: Session, e: Event): (s': Session)
    requires Valid(s.receiver)
    ensures Valid(s'.receiver)
  {
    match e
    case Arrive(bytes) => s.(input := s.input + bytes)
    case Read =>
      CallTakesFirst(s.receiver, s.input);
      var (r, rest, m) := Call(s.receiver, s.input);
      Session(r, rest, s.delivered + Single(m))
  }

  function Play(s: Session, events: seq<Event>): (s': Session)
    requires Valid(s.receiver)
    ensures Valid(s'.receiver)
  {
    if events == [] then s else Step(Play(s, events[..|events| - 1]), events[|events| - 1])
  }

  /** However the bytes are split over arrivals and calls, the messages are those of the whole stream. */
  lemma {:induction false} ScheduleIsIrrelevant(r: Receiver, events: seq<Event>)
    requires Valid(r)
    ensures var s := Play(Session(r, [], []), events);
            s.delivered + Messages(s.receiver, s.input) == Messages(r, Arrivals(events))
            && Run(s.receiver, s.input) == Run(r, Arrivals(events))
  {
    hide Next, Output, Call;
    if events != [] {
      var front, e := events[..|events| - 1], events[|events| - 1];
      ScheduleIsIrrelevant(r, front);
      var s := Play(Session(r, [], []), front);
      var got, pending := s.delivered, Messages(s.receiver, s.input);
      match e {
        case Arrive(bytes) =>
          MessagesConcat(s.receiver, s.input, bytes);
          MessagesConcat(r, Arrivals(front), bytes);
          var later := Messages(Run(r, Arrivals(front)), bytes);
          assert got + (pending + later) == (got + pending) + later;
        case Read =>
          CallTakesFirst(s.receiver, s.input);
          var (r', rest, m) := Call(s.receiver, s.input);
          assert got + (Single(m) + Messages(r', rest)) == (got + Single(m)) + Messages(r', rest);
          assert Arrivals(events) == Arrivals(front);
      }
    }
  }

  /**
   * When the bytes that arrive, split in any way, are those of a list of messages with noise between them, the calls
   * return exactly the messages that fit the buffer, in order; what is not returned yet is still to come.
   */
  lemma MessagesAreRead(r: Receiver, events: seq<Event>, bursts: seq<Burst>)
    requires Valid(r) && r.dialect == HostDialect && Transmittable(HostDialect, bursts)
    requires Arrivals(events) == Line(HostDialect, bursts)
    ensures var s := Play(Session(r, [], []), events);
            && s.delivered + Messages(s.receiver, s.input) == Fitting(HostDialect, bursts, |r.buffer|)
            && (s.input == [] ==> s.delivered == Fitting(HostDialect, bursts, |r.buffer|))
  {
    hide Play, Line, Fitting, Arrivals;
    ScheduleIsIrrelevant(r, events);
    MessagesAreCompleted(r, Arrivals(events));
    FittingIsCompleted(r, bursts);
    hide Completed, Outputs;
    var s := Play(Session(r, [], []), events);
    assert s.delivered + [] == s.delivered;
  }
}
