/**
 * What the node's log ring holds and what its sender puts on the line: entries of non-zero
 * bytes, each ended by a zero byte, sent as one LOG message each.
 */
module NodeLog {
  import opened Bytes
  import opened SerialLine
  import opened LinkProtocol

  const LOG: u16 := 0x8001

  /** A character of the debug module: negative where char is signed, up to 255 where it is not. */
  type character = c: int | -128 <= c < 256

  /** What one character adds to the ring; the first one of an entry is preceded by its level byte. */
  function LogText(logging: bool, c: character): seq<byte> {
    (if logging then [] else [if c < 7 then c % 256 else 6])
    + (if 0x20 <= c < 0x7f then [c] else [])
  }

  function Flat(entries: seq<seq<byte>>): seq<byte> {
    if entries == [] then [] else entries[0] + [0] + Flat(entries[1..])
  }

  ghost predicate Entry(e: seq<byte>) {
    0 !in e
  }

  ghost predicate Entries(es: seq<seq<byte>>) {
    forall e <- es :: Entry(e) && Sendable(NodeDialect, Message(LOG, e))
  }

  function LogFrames(entries: seq<seq<byte>>): seq<byte>
    requires Entries(entries)
  {
    if entries == [] then []
    else LogFrames(entries[..|entries| - 1]) + Encode(NodeDialect, Message(LOG, entries[|entries| - 1]))
  }

  lemma FlatNext(entries: seq<seq<byte>>, k: nat)
    requires k <= |entries|
    ensures if k < |entries| then Flat(entries[k..]) == entries[k] + [0] + Flat(entries[k + 1..])
            else Flat(entries[k..]) == []
  {
    if k < |entries| {
      assert entries[k..][1..] == entries[k + 1..];
    }
  }

  lemma FramesNext(entries: seq<seq<byte>>, k: nat)
    requires k < |entries| && Entries(entries)
    ensures LogFrames(entries[..k + 1]) == LogFrames(entries[..k]) + Encode(NodeDialect, Message(LOG, entries[k]))
  {
    assert entries[..k + 1][..k] == entries[..k];
  }

  /** Only a leading zero character puts a zero byte into an entry. */
  lemma LogTextIsEntry(logging: bool, c: character)
    ensures Entry(LogText(logging, c)) <==> logging || c != 0
  {}

  /** The sender's running checksum is the checksum of the message. */
  lemma RunningChecksum(e: seq<byte>)
    requires |e| < 256
    ensures Xor(Xor(XorAll([Msb(LOG), Lsb(LOG)] + e), 0), |e|) == Checksum(LOG, |e|, e)
  {
    hide Xor, XorAll;
    var hi, lo, n, x := Msb(LOG), Lsb(LOG), |e|, XorAll(e);
    XorAllConcat([hi, lo], e);
    XorAllConcat([lo, hi, n, 0], e);
    XorAllOfFour(lo, hi, n, 0);
    XorAllOfTwo(hi, lo);
    var h := Xor(hi, lo);
    XorLaws(hi, lo, 0);
    XorLaws(Xor(h, x), 0, 0);
    XorLaws(Xor(h, n), 0, 0);
    XorLaws(h, x, n);
    XorLaws(x, n, 0);
    XorLaws(h, n, x);
  }

  /** The bytes on the line for a log of one entry of one byte. */
  lemma LogOnTheLine()
    ensures Entries([[0x40]])
    ensures LogFrames([[0x40]]) ==
            [0x01] + [0x80] + [0x02, 0x11] + [0x02, 0x10] + [0x02, 0x11] + [0xc0] + [0x40] + [0x03]
  {
    hide StuffedAll, Stuffed, Header, Xor, Checksum;
    ChecksumOfOne(0x8001, 0x40);
    LogSum();
    LogHeader();
    StuffedConcat([0x80], [0x01, 0x00, 0x01, 0xc0, 0x40]);
    StuffedOfOne(0x80);
    StuffedOfFive(0x01, 0x00, 0x01, 0xc0, 0x40);
    StuffedBytes();
    var one: seq<seq<byte>> := [[0x40]];
    assert one[..0] == [];
    FramesNext(one, 0);
    assert one[..1] == one;
  }

  lemma LogSum()
    ensures Xor(Xor(Xor(0x01, 0x80), 0x01), 0x40) == 0xc0
  {
    XorLaws(0x01, 0x80, 0x01);
    XorCancels(0x80, 0x01, 0);
    XorLaws(0x80, 0x40, 0);
    Pow2Of7();
    assert Pow2(7) == 2 * Pow2(6);
    XorWithPow2(0x40, 7);
    hide XorBits;
  }

  lemma LogHeader()
    ensures Checksum(0x8001, 1, [0x40]) == 0xc0 ==>
              Header(NodeDialect, Message(LOG, [0x40])) + [0x40] == [0x80] + [0x01, 0x00, 0x01, 0xc0, 0x40]
  {
    hide Checksum;
  }

  /** The log entries as bursts on an otherwise quiet line. */
  function LogBursts(entries: seq<seq<byte>>): seq<Burst> {
    if entries == [] then []
    else LogBursts(entries[..|entries| - 1]) + [Burst([], Message(LOG, entries[|entries| - 1]))]
  }

  lemma {:induction false} LogFramesAreBursts(entries: seq<seq<byte>>)
    requires Entries(entries)
    ensures Transmittable(NodeDialect, LogBursts(entries))
    ensures LogFrames(entries) == Line(NodeDialect, LogBursts(entries))
  {
    hide Encode;
    if entries != [] {
      var front := LogBursts(entries[..|entries| - 1]);
      LogFramesAreBursts(entries[..|entries| - 1]);
      assert LogBursts(entries)[..|LogBursts(entries)| - 1] == front;
      var m := Message(LOG, entries[|entries| - 1]);
      assert [] + Encode(NodeDialect, m) == Encode(NodeDialect, m);
    }
  }

  /** A receiver fed with what the sender sends gets the entries that fit, in order, and nothing else. */
  lemma LogIsDelivered(r: Receiver, entries: seq<seq<byte>>)
    requires Valid(r) && r.dialect == NodeDialect && Entries(entries)
    ensures Transmittable(NodeDialect, LogBursts(entries))
    ensures Outputs(r, LogFrames(entries)) == Expected(NodeDialect, LogBursts(entries), |r.buffer|)
  {
    hide *;
    LogFramesAreBursts(entries);
    StreamIsDelivered(r, LogBursts(entries));
  }

  // ---------- what the debug module's calls leave in the ring ----------

  /** The pending bytes, and whether an entry has begun. */
  datatype Log = Log(pending: seq<byte>, logging: bool)

  /** One more byte in the ring; the 256th makes its indices equal, so that it reads as empty. */
  function Stored(p: seq<byte>, b: byte): (p': seq<byte>)
    ensures |p| <= 255 ==> |p'| <= 255
  {
    if |p| < 255 then p + [b] else []
  }

  function StoreAll(p: seq<byte>, bs: seq<byte>): (p': seq<byte>)
    ensures |p| <= 255 ==> |p'| <= 255
  {
    if bs == [] then p else Stored(StoreAll(p, bs[..|bs| - 1]), bs[|bs| - 1])
  }

  /** vLogPutch */
  function Put(l: Log, c: character): Log {
    Log(StoreAll(l.pending, LogText(l.logging, c)), true)
  }

  /** vLogFlush */
  function Flush(l: Log): Log {
    Log(Stored(l.pending, 0), false)
  }

  function PutAll(l: Log, text: seq<character>): (l': Log)
    ensures |l.pending| <= 255 ==> |l'.pending| <= 255
  {
    if text == [] then l else Put(PutAll(l, text[..|text| - 1]), text[|text| - 1])
  }

  /** The bytes that a text puts into the ring. */
  function TextBytes(text: seq<character>): (bs: seq<byte>)
    ensures text != [] ==> bs != []
  {
    if text == [] then []
    else TextBytes(text[..|text| - 1]) + LogText(|text| > 1, text[|text| - 1])
  }

  /** The entries that a text makes: one, and an empty one before it if the text begins with a zero character. */
  function EntriesOf(text: seq<character>): seq<seq<byte>> {
    if text != [] && text[0] == 0 then [[], TextBytes(text)[1..]] else [TextBytes(text)]
  }

  /** A text is put character by character and flushed, or the pending entries are sent. */
  datatype Event = Text(text: seq<character>) | Send

  /** The ring after some events, from an empty one on. */
  function RingAfter(events: seq<Event>): (l: Log)
    ensures |l.pending| <= 255
  {
    if events == [] then Log([], false)
    else
      var l := RingAfter(events[..|events| - 1]);
      match events[|events| - 1]
      case Text(text) => Flush(PutAll(l, text))
      case Send => l.(pending := [])
  }

  /** The entries of the texts since the last send. */
  function Since(events: seq<Event>): seq<seq<byte>> {
    if events == [] then []
    else
      match events[|events| - 1]
      case Text(text) => Since(events[..|events| - 1]) + EntriesOf(text)
      case Send => []
  }

  /** The entries of all texts before the last send. */
  function Meant(events: seq<Event>): seq<seq<byte>> {
    if events == [] then []
    else Meant(events[..|events| - 1]) + if events[|events| - 1].Send? then Since(events[..|events| - 1]) else []
  }

  /** How many bytes come before the first zero byte. */
  function EntryLength(p: seq<byte>): (n: nat)
    ensures n <= |p| && Entry(p[..n]) && (n < |p| ==> p[n] == 0)
  {
    if p == [] || p[0] == 0 then 0
    else
      assert forall n :: 0 <= n < |p| ==> p[..n + 1] == [p[0]] + p[1..][..n];
      1 + EntryLength(p[1..])
  }

  /** The entries that some bytes are read as: each ends at a zero byte. */
  function Split(p: seq<byte>): (es: seq<seq<byte>>)
    ensures |p| < 65536 ==> Entries(es)
  {
    if p == [] then []
    else
      var n := EntryLength(p);
      [p[..n]] + if n < |p| then Split(p[n + 1..]) else []
  }

  /** The entries that are sent, as the ring holds them. */
  function SentEntries(events: seq<Event>): (es: seq<seq<byte>>)
    ensures Entries(es)
  {
    if events == [] then []
    else
      SentEntries(events[..|events| - 1])
      + if events[|events| - 1].Send? then Split(RingAfter(events[..|events| - 1]).pending) else []
  }

  /** What the sends put on the line. */
  function LineAfter(events: seq<Event>): seq<byte> {
    if events == [] then []
    else
      LineAfter(events[..|events| - 1])
      + if events[|events| - 1].Send? then LogFrames(Split(RingAfter(events[..|events| - 1]).pending)) else []
  }

  /** The ring has room for all that is put into it between two sends. */
  predicate Fitted(events: seq<Event>) {
    events == [] ||
    (&& Fitted(events[..|events| - 1])
     && (events[|events| - 1].Send? ==> |Flat(Since(events[..|events| - 1]))| <= 255))
  }

  lemma {:induction false} StoreAllConcat(p: seq<byte>, a: seq<byte>, b: seq<byte>)
    ensures StoreAll(p, a + b) == StoreAll(StoreAll(p, a), b)
  {
    if b == [] {
      assert a + b == a;
    } else {
      assert (a + b)[..|a + b| - 1] == a + b[..|b| - 1];
      StoreAllConcat(p, a, b[..|b| - 1]);
    }
  }

  /** The ring holds all that was stored exactly if that is no more than 255 bytes. */
  lemma {:induction false} StoreAllIff(p: seq<byte>, bs: seq<byte>)
    requires |p| <= 255
    ensures |StoreAll(p, bs)| == (|p| + |bs|) % 256
    ensures StoreAll(p, bs) == p + bs <==> |p| + |bs| <= 255
  {
    if bs != [] {
      StoreAllIff(p, bs[..|bs| - 1]);
    }
  }

  lemma {:induction false} PutsText(l: Log, text: seq<character>)
    requires !l.logging
    ensures PutAll(l, text) == Log(StoreAll(l.pending, TextBytes(text)), text != [])
  {
    hide LogText;
    if text != [] {
      var front := text[..|text| - 1];
      PutsText(l, front);
      StoreAllConcat(l.pending, TextBytes(front), LogText(|text| > 1, text[|text| - 1]));
    }
  }

  /** The characters from space to tilde. */
  function Printable(text: seq<character>): seq<byte> {
    if text == [] then []
    else
      var front, c := Printable(text[..|text| - 1]), text[|text| - 1];
      if 32 <= c <= 126 then front + [c] else front
  }

  /** The log of a text: its first character cut to a level of at most 6, then its printable characters in order. */
  lemma {:induction false} TextIsLevelAndPrintable(text: seq<character>)
    requires text != []
    ensures var level := if text[0] < 0 then text[0] + 256 else if text[0] <= 6 then text[0] else 6;
            TextBytes(text) == [level] + Printable(text)
  {
    var front, c := text[..|text| - 1], text[|text| - 1];
    if front == [] {
      assert text == [c];
      assert TextBytes(front) == [] && Printable(front) == [];
    } else {
      TextIsLevelAndPrintable(front);
      assert front[0] == text[0];
    }
  }

  /** An entry is free of zero bytes, but for a leading one that a leading zero character puts there. */
  lemma {:induction false} EntryIff(text: seq<character>)
    ensures Entry(TextBytes(text)) <==> text == [] || text[0] != 0
    ensures text != [] && text[0] == 0 ==>
              var e := TextBytes(text); e != [] && e[0] == 0 && Entry(e[1..])
  {
    hide LogText;
    if text != [] {
      var front, c := text[..|text| - 1], text[|text| - 1];
      EntryIff(front);
      LogTextIsEntry(|text| > 1, c);
      if |text| == 1 {
        ZeroText();
        assert TextBytes(text) == LogText(false, c);
      } else {
        assert text[0] == front[0];
      }
    }
  }

  lemma ZeroText()
    ensures LogText(false, 0) == [0]
  {}

  lemma {:induction false} FlatConcat(a: seq<seq<byte>>, b: seq<seq<byte>>)
    ensures Flat(a + b) == Flat(a) + Flat(b)
  {
    if a == [] {
      assert a + b == b;
    } else {
      FlatConcat(a[1..], b);
      assert (a + b)[1..] == a[1..] + b;
    }
  }

  lemma FlatOfText(text: seq<character>)
    ensures Flat(EntriesOf(text)) == TextBytes(text) + [0]
  {
    EntryIff(text);
    hide TextBytes;
    var es := EntriesOf(text);
    FlatOfOne(es[|es| - 1]);
    if |es| == 2 {
      assert es[1..] == [es[1]];
      assert TextBytes(text) == [0] + TextBytes(text)[1..];
    }
  }

  lemma FlatOfOne(e: seq<byte>)
    ensures Flat([e]) == e + [0]
  {
    assert |[e][1..]| == 0;
  }

  /** The ring has stored the entries since the last send, byte by byte. */
  lemma {:induction false} RingStores(events: seq<Event>)
    ensures RingAfter(events) == Log(StoreAll([], Flat(Since(events))), false)
  {
    hide EntriesOf, TextBytes, StoreAll, Stored, Flat;
    NothingStored();
    if events != [] {
      var front := events[..|events| - 1];
      var l := RingAfter(front);
      RingStores(front);
      if events[|events| - 1].Text? {
        var text := events[|events| - 1].text;
        PutsText(l, text);
        FlatConcat(Since(front), EntriesOf(text));
        FlatOfText(text);
        StoreAllConcat([], Flat(Since(front)), TextBytes(text) + [0]);
        StoreAllConcat(l.pending, TextBytes(text), [0]);
        OneStored(StoreAll(l.pending, TextBytes(text)));
      }
    }
  }

  lemma NothingStored()
    ensures Flat([]) == [] && StoreAll([], []) == []
  {}

  lemma OneStored(p: seq<byte>)
    ensures StoreAll(p, [0]) == Stored(p, 0)
  {
    assert [0][..0] == [];
  }

  lemma {:induction false} EntriesAreClean(events: seq<Event>)
    ensures forall e <- Since(events) :: Entry(e)
  {
    hide TextBytes;
    if events != [] && events[|events| - 1].Text? {
      EntriesAreClean(events[..|events| - 1]);
      EntryIff(events[|events| - 1].text);
    }
  }

  /**
   * Whatever texts are put and flushed and whenever the entries are sent, the ring holds exactly the terminated entries
   * of the texts since the last send if and only if these are no more than 255 bytes.
   */
  lemma TextsArePendingIff(events: seq<Event>)
    ensures RingAfter(events) == Log(Flat(Since(events)), false) <==> |Flat(Since(events))| <= 255
    ensures |RingAfter(events).pending| <= |Flat(Since(events))|
  {
    hide Flat, StoreAll, Since, RingAfter;
    RingStores(events);
    StoreAllIff([], Flat(Since(events)));
    var nothing: seq<byte> := [];
    assert nothing + Flat(Since(events)) == Flat(Since(events));
  }

  // ---------- what is sent ----------

  /** Bytes that end with the end of an entry. */
  predicate Terminated(p: seq<byte>) {
    p == [] || p[|p| - 1] == 0
  }

  lemma {:induction false} FlatIsTerminated(entries: seq<seq<byte>>)
    ensures Terminated(Flat(entries))
  {
    if entries != [] {
      FlatIsTerminated(entries[1..]);
    }
  }

  /** The ring ends with the end of an entry, even after bytes have been lost. */
  lemma PendingIsTerminated(events: seq<Event>)
    ensures Terminated(RingAfter(events).pending)
  {
    RingStores(events);
    FlatIsTerminated(Since(events));
    hide Flat, Since, RingAfter;
  }

  lemma FlatCons(e: seq<byte>, entries: seq<seq<byte>>)
    ensures Flat([e] + entries) == e + [0] + Flat(entries)
  {
    assert ([e] + entries)[1..] == entries;
  }

  lemma {:induction false} SplitIsFlat(p: seq<byte>)
    requires Terminated(p)
    ensures Flat(Split(p)) == p
  {
    if p != [] {
      FirstEntry(p);
      hide Flat, Split, Terminated;
      var n := EntryLength(p);
      SplitIsFlat(p[n + 1..]);
      FlatCons(p[..n], Split(p[n + 1..]));
    }
  }

  lemma FirstEntry(p: seq<byte>)
    requires Terminated(p) && p != []
    ensures var n := EntryLength(p);
            n < |p| && p == p[..n] + [0] + p[n + 1..] && Terminated(p[n + 1..])
            && Split(p) == [p[..n]] + Split(p[n + 1..])
  {
    hide *;
    var n := EntryLength(p);
    if n == |p| {
      EntryEndsIt(p);
    }
    AroundZero(p, n);
    SplitFirst(p);
  }

  lemma AroundZero(p: seq<byte>, n: nat)
    requires n < |p| && p[n] == 0 && Terminated(p)
    ensures p == p[..n] + [0] + p[n + 1..] && Terminated(p[n + 1..])
  {}

  lemma SplitFirst(p: seq<byte>)
    requires p != []
    ensures var n := EntryLength(p); n < |p| ==> Split(p) == [p[..n]] + Split(p[n + 1..])
  {
    hide EntryLength, Entry, Entries;
  }

  lemma EntryEndsIt(p: seq<byte>)
    requires p != [] && EntryLength(p) == |p|
    ensures !Terminated(p)
  {
    assert p[..|p|] == p && p[|p| - 1] in p;
  }

  lemma {:induction false} EntryEnds(e: seq<byte>, rest: seq<byte>)
    requires Entry(e)
    ensures EntryLength(e + [0] + rest) == |e|
  {
    var p := e + [0] + rest;
    if e == [] {
      assert p[0] == 0;
    } else {
      assert p[0] == e[0] && e[0] in e && p[1..] == e[1..] + [0] + rest;
      EntryEnds(e[1..], rest);
    }
  }

  /** Clean entries are read as they were written. */
  lemma {:induction false} FlatIsSplit(entries: seq<seq<byte>>)
    requires forall e <- entries :: Entry(e)
    ensures Split(Flat(entries)) == entries
  {
    if entries != [] {
      var e, rest := entries[0], Flat(entries[1..]);
      FlatIsSplit(entries[1..]);
      EntryEnds(e, rest);
      var p := e + [0] + rest;
      assert p[..|e|] == e && p[|e| + 1..] == rest;
    }
  }

  /** What is sent is what was meant if and only if the ring always had room; otherwise it is shorter. */
  lemma {:induction false} TextsAreSentIff(events: seq<Event>)
    ensures SentEntries(events) == Meant(events) <==> Fitted(events)
    ensures |Flat(SentEntries(events))| <= |Flat(Meant(events))|
    ensures !Fitted(events) ==> |Flat(SentEntries(events))| < |Flat(Meant(events))|
  {
    hide Flat, Split, RingAfter, Since, Entries;
    if events != [] {
      var front := events[..|events| - 1];
      TextsAreSentIff(front);
      if events[|events| - 1].Send? {
        OneSend(front);
        FlatConcat(SentEntries(front), Split(RingAfter(front).pending));
        FlatConcat(Meant(front), Since(front));
      } else {
        assert SentEntries(front) + [] == SentEntries(front) && Meant(front) + [] == Meant(front);
      }
    }
  }

  lemma OneSend(events: seq<Event>)
    ensures var sent, meant := Split(RingAfter(events).pending), Since(events);
            && |Flat(sent)| <= |Flat(meant)|
            && (if |Flat(meant)| <= 255 then sent == meant else |Flat(sent)| < |Flat(meant)|)
  {
    TextsArePendingIff(events);
    PendingIsTerminated(events);
    SplitIsFlat(RingAfter(events).pending);
    EntriesAreClean(events);
    FlatIsSplit(Since(events));
    hide *;
  }

  // ---------- what is received ----------

  /** The LOG messages of the entries that a receiver takes. */
  function LogMessages(entries: seq<seq<byte>>, capacity: nat): seq<Message> {
    if entries == [] then []
    else
      var e := entries[|entries| - 1];
      LogMessages(entries[..|entries| - 1], capacity) + if |e| < capacity then [Message(LOG, e)] else []
  }

  lemma {:induction false} LogMessagesFit(entries: seq<seq<byte>>, capacity: nat)
    ensures Fitting(NodeDialect, LogBursts(entries), capacity) == LogMessages(entries, capacity)
  {
    if entries != [] {
      var front := entries[..|entries| - 1];
      LogMessagesFit(front, capacity);
      assert LogBursts(entries)[..|LogBursts(entries)| - 1] == LogBursts(front);
    }
  }

  lemma {:induction false} FramesConcat(a: seq<seq<byte>>, b: seq<seq<byte>>)
    requires Entries(a) && Entries(b)
    ensures Entries(a + b) && LogFrames(a + b) == LogFrames(a) + LogFrames(b)
  {
    hide Encode, Entry, Sendable;
    EntriesConcat(a, b);
    if b == [] {
      assert a + b == a;
    } else {
      var front := b[..|b| - 1];
      assert (a + b)[..|a + b| - 1] == a + front;
      hide Entries;
      EntriesFront(b);
      FramesConcat(a, front);
    }
  }

  lemma EntriesConcat(a: seq<seq<byte>>, b: seq<seq<byte>>)
    requires Entries(a) && Entries(b)
    ensures Entries(a + b)
  {}

  lemma EntriesFront(a: seq<seq<byte>>)
    requires Entries(a) && a != []
    ensures Entries(a[..|a| - 1])
  {}

  lemma {:induction false} LineIsFrames(events: seq<Event>)
    ensures LineAfter(events) == LogFrames(SentEntries(events))
  {
    hide Split, RingAfter, LogFrames, Entries;
    if events == [] {
      NoFrames();
    } else {
      var front := events[..|events| - 1];
      LineIsFrames(front);
      if events[|events| - 1].Send? {
        FramesConcat(SentEntries(front), Split(RingAfter(front).pending));
      } else {
        assert SentEntries(front) + [] == SentEntries(front);
      }
    }
  }

  lemma NoFrames()
    ensures LogFrames([]) == []
  {}

  /**
   * In every run of texts and sends, a receiver gets one LOG message for each entry sent that it takes, in order and
   * nothing else; and these are the entries of all texts before the last send if the ring always had room for them.
   */
  lemma TextsAreDelivered(r: Receiver, events: seq<Event>)
    requires Valid(r) && r.dialect == NodeDialect
    ensures Completed(Outputs(r, LineAfter(events))) == LogMessages(SentEntries(events), |r.buffer|)
    ensures Fitted(events) ==> Completed(Outputs(r, LineAfter(events))) == LogMessages(Meant(events), |r.buffer|)
  {
    hide *;
    var entries := SentEntries(events);
    LineIsFrames(events);
    LogFramesAreBursts(entries);
    FittingIsCompleted(r, LogBursts(entries));
    LogMessagesFit(entries, |r.buffer|);
    TextsAreSentIff(events);
  }
}
