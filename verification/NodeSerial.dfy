/** The serial link routines of the node: byte sender, message writer, byte-driven reader, log ring. */
module NodeSerial {
  import opened Bytes
  import opened SerialLine
  import opened LinkProtocol
  import opened NodeLog

  class SerialLink {
    // bytes handed to the UART
    var sent: seq<byte>
    // the reader's static variables
    var rxState: RxState
    var rxCrc: byte
    var rxBytes: nat
    var inEsc: bool
    // the caller's type, length and buffer
    var kind: u16
    var length: u16
    const message: array<byte>
    // the log ring
    const logBuffer: array<byte>
    var logStart: byte
    var logEnd: byte
    var logging: bool

    ghost function CurrentReceiver(): Receiver
      reads this`rxState, this`rxCrc, this`rxBytes, this`inEsc, this`kind, this`length, message
    {
      Receiver(NodeDialect, rxState, rxCrc, rxBytes, inEsc, kind, length, message[..])
    }

    ghost predicate Valid()
      reads this`rxState, this`rxCrc, this`rxBytes, this`inEsc, this`kind, this`length, message
    {
      message != logBuffer && logBuffer.Length == 256 && message.Length < 65536 && LinkProtocol.Valid(CurrentReceiver())
    }

    constructor (maxLength: u16)
      ensures Valid() && message.Length == maxLength && sent == [] && PendingLog() == [] && !logging
      ensures fresh(message) && fresh(logBuffer)
    {
      sent := [];
      rxState, rxCrc, rxBytes, inEsc := WaitStart, 0, 0, false;
      kind, length, message := 0, 0, new byte[maxLength](_ => 0);
      logBuffer, logStart, logEnd, logging := new byte[256](_ => 0), 0, 0, false;
      new;
      assert PendingLog() == [];
    }

    // ---------- sending ----------

    method TxByte(special: bool, data: byte)
      modifies this`sent
      ensures sent == old(sent) + if special then [data] else Stuffed(data)
    {
      var b := data;
      if !special && b < 0x10 {
        b := Xor(b, 0x10);
        sent := sent + [ESC];
      }
      sent := sent + [b];
    }

    method CalculateCrc(kind: u16, length: u16, data: seq<byte>) returns (crc: byte)
      requires length <= |data|
      ensures crc == Checksum(kind, length, data[..length])
    {
      hide Xor;
      crc := Lsb(kind);
      crc := Xor(crc, Msb(kind));
      crc := Xor(crc, Lsb(length));
      crc := Xor(crc, Msb(length));
      var n := 0;
      ghost var h := [Lsb(kind), Msb(kind), Lsb(length), Msb(length)];
      XorAllOfFour(h[0], h[1], h[2], h[3]);
      assert h + data[..0] == h;
      while n < length
        invariant 0 <= n <= length
        invariant crc == XorAll(h + data[..n])
      {
        crc := Xor(crc, data[n]);
        assert (h + data[..n + 1])[..4 + n] == h + data[..n];
        n := n + 1;
      }
    }

    method WriteMessage(kind: u16, length: u16, data: seq<byte>)
      requires length <= |data|
      modifies this`sent
      ensures sent == old(sent) + Encode(NodeDialect, Message(kind, data[..length]))
    {
      hide XorAll, Stuffed, StuffedAll, Checksum, Encode;
      var crc := CalculateCrc(kind, length, data);
      ghost var body := [];
      StuffedNone();
      TxByte(true, START);
      body := TxData(Msb(kind), old(sent), body);
      body := TxData(Lsb(kind), old(sent), body);
      body := TxData(Msb(length), old(sent), body);
      body := TxData(Lsb(length), old(sent), body);
      body := TxData(crc, old(sent), body);
      ghost var h := Header(NodeDialect, Message(kind, data[..length]));
      assert body == h + data[..0];
      var n := 0;
      while n < length
        invariant 0 <= n <= length
        invariant body == h + data[..n]
        invariant sent == old(sent) + [START] + StuffedAll(body)
      {
        body := TxData(data[n], old(sent), body);
        n := n + 1;
      }
      assert data[..n] == data[..length];
      TxByte(true, END);
      FrameSent(old(sent), Message(kind, data[..length]));
    }

    /** Sends one data byte of the frame that began when `before` had been sent. */
    method TxData(data: byte, ghost before: seq<byte>, ghost body: seq<byte>) returns (ghost body': seq<byte>)
      requires sent == before + [START] + StuffedAll(body)
      modifies this`sent
      ensures body' == body + [data]
      ensures sent == before + [START] + StuffedAll(body')
    {
      hide Stuffed, StuffedAll;
      TxByte(false, data);
      body' := body + [data];
      StuffedPush(body, data);
    }

    // ---------- receiving ----------

    /** One received byte; true when it completes a valid message. */
    method ReadMessage(data: byte) returns (complete: bool)
      requires Valid()
      modifies this`rxState, this`rxCrc, this`rxBytes, this`inEsc, this`kind, this`length, message
      ensures Valid() && CurrentReceiver() == Next(old(CurrentReceiver()), data)
      ensures complete == Output(old(CurrentReceiver()), data).Some?
      ensures complete ==> Output(old(CurrentReceiver()), data) == Some(Message(kind, message[..length]))
    {
      hide Checksum, Xor;
      var b := data;
      if b == START {
        rxBytes := 0;
        inEsc := false;
        rxState := WaitTypeMsb;
      } else if b == ESC {
        inEsc := true;
      } else if b == END {
        rxState := WaitStart;
        if length < message.Length {
          var crc := CalculateCrc(kind, length, message[..]);
          if rxCrc == crc {
            assert message[..][..length] == message[..length];
            return true;
          }
        }
      } else {
        if inEsc {
          b := Xor(b, 0x10);
          inEsc := false;
        }
        AcceptByte(b);
      }
      return false;
    }

    /** One data byte, unescaped: the inner switch of the reader. */
    method AcceptByte(b: byte)
      requires Valid()
      modifies this`rxState, this`rxCrc, this`rxBytes, this`kind, this`length, message
      ensures Valid() && CurrentReceiver() == Accept(old(CurrentReceiver()), b)
    {
      match rxState {
        case WaitStart =>
        case WaitTypeMsb =>
          kind := Joined(b, 0);
          rxState := WaitTypeLsb;
        case WaitTypeLsb =>
          kind := (kind + b) % 65536;
          rxState := WaitLenMsb;
        case WaitLenMsb =>
          length := Joined(b, 0);
          rxState := WaitLenLsb;
        case WaitLenLsb =>
          length := (length + b) % 65536;
          rxState := if length > message.Length then WaitStart else WaitCrc;
        case WaitCrc =>
          rxCrc := b;
          rxState := WaitData;
        case WaitData =>
          if rxBytes < length {
            message[rxBytes] := b;
            rxBytes := rxBytes + 1;
          }
      }
    }

    // ---------- the log ring ----------

    /** The bytes between the two ring indices, across the index wrap. */
    ghost function PendingLog(): seq<byte>
      requires logBuffer.Length == 256
      reads this`logStart, this`logEnd, logBuffer
    {
      var start := logStart;
      seq((logEnd - start) % 256, k requires 0 <= k reads logBuffer => logBuffer[RingAt(start, k)])
    }

    ghost function CurrentLog(): Log
      requires logBuffer.Length == 256
      reads this`logStart, this`logEnd, this`logging, logBuffer
    {
      Log(PendingLog(), logging)
    }

    /** Stores one byte at the end index; with 255 bytes pending the ring becomes empty. */
    method StoreLog(b: byte)
      requires Valid()
      modifies this`logEnd, logBuffer
      ensures Valid()
      ensures PendingLog() == Stored(old(PendingLog()), b)
    {
      ghost var n := |PendingLog()|;
      ghost var was := PendingLog();
      RingIndices(logStart, logEnd);
      logBuffer[logEnd] := b;
      logEnd := (logEnd + 1) % 256;
      assert n < 255 ==> |PendingLog()| == n + 1 && PendingLog()[..n] == was && PendingLog()[n] == b;
    }

    method LogPutch(c: character)
      requires Valid()
      modifies this`logEnd, this`logging, logBuffer
      ensures Valid() && CurrentLog() == Put(old(CurrentLog()), c)
    {
      ghost var was := PendingLog();
      ghost var level := if logging then [] else [if c < 7 then c % 256 else 6];
      hide Stored;
      if !logging {
        if c < 7 {
          StoreLog(c % 256);
        } else {
          StoreLog(6);
        }
      }
      assert PendingLog() == StoreAll(was, level) by {
        assert level != [] ==> level[..0] == [];
      }
      if 0x20 <= c < 0x7f {
        StoreLog(c);
        assert (level + [c])[..|level|] == level;
      }
      logging := true;
    }

    /** Ends an entry; a full ring of 256 bytes reads as empty. */
    method LogFlush()
      requires Valid()
      modifies this`logEnd, this`logging, logBuffer
      ensures Valid() && CurrentLog() == Flush(old(CurrentLog()))
    {
      StoreLog(0);
      logging := false;
    }

    /** The pending bytes after the first j have been taken. */
    lemma PendingSuffix(start: byte, pending: seq<byte>, j: nat)
      requires Valid() && j <= |pending| == (logEnd - start) % 256
      requires forall k :: 0 <= k < |pending| ==> pending[k] == logBuffer[RingAt(start, k)]
      requires logStart == RingAt(start, j)
      ensures PendingLog() == pending[j..]
    {
      hide RingAt;
      RingRest(start, logEnd, j);
      forall k | 0 <= k < |pending| - j
        ensures PendingLog()[k] == pending[j + k]
      {
        RingSum(start, j, k);
      }
    }

    /** Sends every pending entry as a LOG message, in the order they were written, and empties the ring. */
    method LogSend()
      requires Valid() && Terminated(PendingLog())
      modifies this`sent, this`logStart
      ensures Valid() && CurrentLog() == old(CurrentLog()).(pending := [])
      ensures sent == old(sent) + LogFrames(Split(old(PendingLog())))
    {
      hide Encode, Flat, LogFrames, Split, Terminated, Entries;
      ghost var entries := Split(PendingLog());
      SplitIsFlat(PendingLog());
      SendEntries(entries);
    }

    /** The sending loop. */
    method SendEntries(ghost entries: seq<seq<byte>>)
      requires Valid() && Entries(entries) && PendingLog() == Flat(entries)
      modifies this`sent, this`logStart
      ensures Valid() && PendingLog() == []
      ensures sent == old(sent) + LogFrames(entries)
    {
      hide Encode, Flat, LogFrames;
      ghost var todo := 0;
      FlatNext(entries, 0);
      NoFrames();
      assert entries[0..] == entries && entries[..0] == [];
      while logEnd - logStart != 0
        invariant Valid() && 0 <= todo <= |entries|
        invariant PendingLog() == Flat(entries[todo..])
        invariant sent == old(sent) + LogFrames(entries[..todo])
        decreases |PendingLog()|
      {
        assert |PendingLog()| > 0;
        FlatNext(entries, todo);
        FramesNext(entries, todo);
        LogSendEntry(entries[todo], Flat(entries[todo + 1..]));
        todo := todo + 1;
      }
      assert PendingLog() == [];
      FlatNext(entries, todo);
      assert entries[..todo] == entries;
    }

    /** The body of the sending loop: one message out of the ring. */
    method LogSendEntry(ghost e: seq<byte>, ghost rest: seq<byte>)
      requires Valid() && Entry(e) && PendingLog() == e + [0] + rest
      modifies this`sent, this`logStart
      ensures Valid() && PendingLog() == rest
      ensures |e| < 256 && sent == old(sent) + Encode(NodeDialect, Message(LOG, e))
    {
      hide Stuffed, StuffedAll, Encode, Header;
      ghost var body := [];
      var n;
      n, body := SendLogHeader(e, rest);
      body := SendEntryBytes(n, e, rest, old(sent), body);
      TxByte(true, END);
      FrameSent(old(sent), Message(LOG, e));
    }

    method SendLogHeader(ghost e: seq<byte>, ghost rest: seq<byte>) returns (n: byte, ghost body: seq<byte>)
      requires Valid() && Entry(e) && PendingLog() == e + [0] + rest
      modifies this`sent
      ensures n == |e| && body == Header(NodeDialect, Message(LOG, e))
      ensures sent == old(sent) + [START] + StuffedAll(body)
    {
      hide XorAll, Xor, Stuffed, StuffedAll, Checksum;
      body := [];
      StuffedNone();
      TxByte(true, START);
      body := TxData(Msb(LOG), old(sent), body);
      body := TxData(Lsb(LOG), old(sent), body);
      var crc;
      n, crc := MeasureEntry(e, rest);
      RunningChecksum(e);
      crc := Xor(crc, 0);
      crc := Xor(crc, n);
      body := TxData(0, old(sent), body);
      body := TxData(n, old(sent), body);
      body := TxData(crc, old(sent), body);
    }

    /** The first inner loop: finds the terminator and sums the bytes before it. */
    method MeasureEntry(ghost e: seq<byte>, ghost rest: seq<byte>) returns (n: byte, crc: byte)
      requires Valid() && Entry(e) && PendingLog() == e + [0] + rest
      ensures n == |e| && crc == XorAll([Msb(LOG), Lsb(LOG)] + e)
    {
      hide XorAll, Xor, RingAt;
      ghost var p := PendingLog();
      ghost var kind := [Msb(LOG), Lsb(LOG)];
      crc := Xor(Msb(LOG), Lsb(LOG));
      XorAllOfTwo(Msb(LOG), Lsb(LOG));
      n := 0;
      assert kind + e[..0] == kind;
      assert p[|e|] == 0 && forall k :: 0 <= k < |e| ==> p[k] == e[k] && p[k] != 0;
      while logBuffer[RingAt(logStart, n)] != 0
        invariant 0 <= n <= |e|
        invariant crc == XorAll(kind + e[..n])
        decreases |e| - n
      {
        assert logBuffer[RingAt(logStart, n)] == p[n];
        assert p[n] == e[n];
        XorAllPush(kind + e[..n], e[n]);
        assert kind + e[..n + 1] == kind + e[..n] + [e[n]];
        crc := Xor(crc, logBuffer[RingAt(logStart, n)]);
        n := n + 1;
      }
      assert logBuffer[RingAt(logStart, n)] == p[n];
      assert n == |e|;
      assert e[..n] == e;
    }

    /** The second inner loop: sends the payload and steps over the terminator. */
    method SendEntryBytes(n: byte, ghost e: seq<byte>, ghost rest: seq<byte>, ghost before: seq<byte>,
                          ghost header: seq<byte>)
      returns (ghost body: seq<byte>)
      requires Valid() && n == |e| && PendingLog() == e + [0] + rest
      requires sent == before + [START] + StuffedAll(header)
      modifies this`sent, this`logStart
      ensures Valid() && PendingLog() == rest
      ensures body == header + e && sent == before + [START] + StuffedAll(body)
    {
      hide StuffedAll, RingAt;
      ghost var start, p := logStart, PendingLog();
      assert forall k :: 0 <= k < |p| ==> p[k] == logBuffer[RingAt(start, k)];
      body := header;
      assert header + e[..0] == header;
      RingSum(start, 0, 0);
      var i := 0;
      while i < n
        invariant 0 <= i <= n
        invariant body == header + e[..i]
        invariant sent == before + [START] + StuffedAll(body)
        invariant logStart == RingAt(start, i)
      {
        assert logBuffer[RingAt(start, i)] == p[i];
        assert p[i] == e[i];
        body := TxData(logBuffer[logStart], before, body);
        assert header + e[..i + 1] == header + e[..i] + [e[i]];
        RingStep(start, i);
        logStart := (logStart + 1) % 256;
        i := i + 1;
      }
      assert e[..n] == e;
      RingStep(start, n);
      logStart := (logStart + 1) % 256;
      PendingSuffix(start, p, n + 1);
      assert p[n + 1..] == rest;
    }
  }

  function RingAt(start: byte, k: nat): byte {
    (start + k) % 256
  }

  lemma RingSum(start: byte, j: nat, k: nat)
    ensures RingAt(RingAt(start, j), k) == RingAt(start, j + k)
    ensures RingAt(start, 0) == start
  {}

  lemma RingStep(start: byte, k: nat)
    ensures (RingAt(start, k) + 1) % 256 == RingAt(start, k + 1)
  {}

  lemma RingRest(start: byte, end: byte, j: nat)
    requires j <= (end - start) % 256
    ensures (end - RingAt(start, j)) % 256 == (end - start) % 256 - j
  {}

  /** Where the pending bytes lie in the ring, and that the end index is none of them. */
  lemma RingIndices(start: byte, end: byte)
    ensures var n := (end - start) % 256;
            RingAt(start, n) == end
            && (if n < 255 then (end + 1 - start) % 256 == n + 1 && ((end + 1) % 256 - start) % 256 == n + 1
                else ((end + 1) % 256 - start) % 256 == 0)
            && forall k :: 0 <= k < n ==> RingAt(start, k) != end
  {}

  lemma FrameSent(before: seq<byte>, m: Message)
    requires Sendable(NodeDialect, m)
    ensures before + [START] + StuffedAll(Header(NodeDialect, m) + m.payload) + [END] == before + Encode(NodeDialect, m)
  {
    hide StuffedAll, Header;
  }

  lemma StuffedNone()
    ensures StuffedAll([]) == []
  {}
}
