/**
 * The node's side of saving and loading a record: what it sends and takes from the link, for any
 * messages that arrive, and what a host makes of it.
 */
module PdmTraffic {
  import opened Bytes
  import opened LinkProtocol
  import opened PdmBlocks

  const MAX_PACKET_SIZE: nat := 256

  /** A message taken from the link: its type, and the receive buffer, whose tail may be stale. */
  datatype Received = Received(kind: u16, buffer: Packet)

  type Packet = s: seq<byte> | |s| == MAX_PACKET_SIZE witness seq(MAX_PACKET_SIZE, _ => 0)

  /** The receive buffer begins with the payload of the message. */
  ghost predicate Carries(r: Received, m: Message) {
    r.kind == m.kind && m.payload <= r.buffer
  }

  datatype Traffic = Sent(message: Message) | Got(received: Received)

  function SentOf(t: Traffic): seq<Message> {
    if t.Sent? then [t.message] else []
  }

  function GotOf(t: Traffic): seq<Received> {
    if t.Got? then [t.received] else []
  }

  function SentIn(ts: seq<Traffic>): seq<Message> {
    if ts == [] then [] else SentOf(ts[0]) + SentIn(ts[1..])
  }

  function GotIn(ts: seq<Traffic>): seq<Received> {
    if ts == [] then [] else GotOf(ts[0]) + GotIn(ts[1..])
  }

  lemma Associates<T>(a: seq<T>, b: seq<T>, c: seq<T>)
    ensures a + b + c == a + (b + c)
  {}

  lemma OneMore(t: Traffic, ts: seq<Traffic>)
    ensures SentIn([t] + ts) == SentOf(t) + SentIn(ts) && GotIn([t] + ts) == GotOf(t) + GotIn(ts)
  {
    hide SentOf, GotOf;
    assert ([t] + ts)[1..] == ts;
  }

  lemma {:induction false} TrafficConcat(a: seq<Traffic>, b: seq<Traffic>)
    ensures SentIn(a + b) == SentIn(a) + SentIn(b) && GotIn(a + b) == GotIn(a) + GotIn(b)
  {
    if a == [] {
      assert a + b == b;
    } else {
      hide SentIn, GotIn, SentOf, GotOf;
      var t, ts := a[0], a[1..];
      assert a == [t] + ts;
      TrafficConcat(ts, b);
      Associates([t], ts, b);
      OneMore(t, ts);
      OneMore(t, ts + b);
      Associates(SentOf(t), SentIn(ts), SentIn(b));
      Associates(GotOf(t), GotIn(ts), GotIn(b));
    }
  }

  // ---------- saving ----------

  /** What one operation sends and takes, what it leaves in the inbox, and whether it came to its end. */
  datatype Run = Run(traffic: seq<Traffic>, rest: seq<Received>, done: bool)

  /** The run that begins with some traffic and goes on as r. */
  function Then(before: seq<Traffic>, r: Run): Run {
    r.(traffic := before + r.traffic)
  }

  lemma ThenAssociates(a: seq<Traffic>, b: seq<Traffic>, r: Run)
    ensures Then(a, Then(b, r)) == Then(a + b, r) && Then([], r) == r
  {
    assert a + (b + r.traffic) == a + b + r.traffic;
    assert [] + r.traffic == r.traffic;
  }

  /** Takes messages until the host's answer to a block has come. */
  function AwaitAck(inbox: seq<Received>): Run {
    if inbox == [] then Run([], [], false)
    else if inbox[0].kind == SAVE_RESPONSE then Run([Got(inbox[0])], inbox[1..], true)
    else Then([Got(inbox[0])], AwaitAck(inbox[1..]))
  }

  /** PDM_vSaveRecord over the blocks that are left. */
  function Save(bs: seq<Block>, inbox: seq<Received>): Run
    requires AllSized(bs)
  {
    if bs == [] then Run([], inbox, true)
    else
      var ack := AwaitAck(inbox);
      var first := [Sent(SaveMessage(bs[0]))] + ack.traffic;
      if !ack.done then Run(first, ack.rest, false) else Then(first, Save(bs[1..], ack.rest))
  }

  /** The save of a record from block k on. */
  lemma SaveUnfolds(id: u16, data: seq<byte>, k: nat, inbox: seq<Received>)
    requires Storable(data) && k < BlockCount(|data|)
    ensures Sized(BlockAt(id, data, k))
    ensures var ack := AwaitAck(inbox);
            var first := [Sent(SaveMessage(BlockAt(id, data, k)))] + ack.traffic;
            Save(BlocksFrom(id, data, k), inbox)
            == if ack.done then Then(first, Save(BlocksFrom(id, data, k + 1), ack.rest))
               else Run(first, ack.rest, false)
  {
    hide AwaitAck, SaveMessage, BlockAt, Then;
    var bs := BlocksFrom(id, data, k);
    assert BlockAt(id, data, k) in bs;
    assert bs[1..] == BlocksFrom(id, data, k + 1);
  }

  lemma SaveNothing(id: u16, data: seq<byte>, before: seq<Traffic>, inbox: seq<Received>)
    requires Storable(data)
    ensures Then(before, Save(BlocksFrom(id, data, BlockCount(|data|)), inbox)) == Run(before, inbox, true)
  {
    NothingFollows(before, inbox);
  }

  lemma NothingFollows(before: seq<Traffic>, inbox: seq<Received>)
    ensures Then(before, Run([], inbox, true)) == Run(before, inbox, true)
  {}

  lemma SaveStops(before: seq<Traffic>, first: seq<Traffic>, inbox: seq<Received>)
    ensures Then(before, Run(first, inbox, false)) == Run(before + first, inbox, false)
  {}

  /** Stop and wait: a message is sent only when the one before it has been answered. */
  predicate StopAndWait(ts: seq<Traffic>, unanswered: bool) {
    ts == [] ||
    (match ts[0]
     case Sent(m) => !unanswered && StopAndWait(ts[1..], true)
     case Got(r) => StopAndWait(ts[1..], unanswered && r.kind != SAVE_RESPONSE))
  }

  function AckCount(inbox: seq<Received>): nat {
    if inbox == [] then 0 else (if inbox[0].kind == SAVE_RESPONSE then 1 else 0) + AckCount(inbox[1..])
  }

  /** Waiting sends nothing and loses nothing, and ends exactly when an answer comes. */
  lemma {:induction false} AwaitAckTakesOne(inbox: seq<Received>)
    ensures var r := AwaitAck(inbox);
            && SentIn(r.traffic) == [] && GotIn(r.traffic) + r.rest == inbox
            && r.done == (AckCount(inbox) > 0)
            && (r.done ==> AckCount(r.rest) == AckCount(inbox) - 1)
  {
    if inbox != [] {
      hide SentIn, GotIn;
      var got := [Got(inbox[0])];
      OneMore(Got(inbox[0]), []);
      assert got + [] == got && SentIn([]) == [] && GotIn([]) == [] by {
        NoTraffic();
      }
      if inbox[0].kind != SAVE_RESPONSE {
        var r := AwaitAck(inbox[1..]);
        AwaitAckTakesOne(inbox[1..]);
        OneMore(Got(inbox[0]), r.traffic);
        Associates([inbox[0]], GotIn(r.traffic), r.rest);
      }
    }
  }

  lemma NoTraffic()
    ensures SentIn([]) == [] && GotIn([]) == []
  {}

  /** After the answer, what follows decides. */
  lemma {:induction false} AwaitAckAnswers(inbox: seq<Received>, ts: seq<Traffic>)
    ensures var r := AwaitAck(inbox);
            StopAndWait(r.traffic, true)
            && (r.done ==> StopAndWait(r.traffic + ts, true) == StopAndWait(ts, false))
  {
    if inbox != [] {
      var r := AwaitAck(inbox);
      assert (r.traffic + ts)[1..] == r.traffic[1..] + ts;
      if inbox[0].kind != SAVE_RESPONSE {
        AwaitAckAnswers(inbox[1..], ts);
      } else {
        assert r.traffic[1..] + ts == ts;
      }
    }
  }

  /**
   * Whatever arrives: the blocks are sent in order, each after the answer to the one before; the save
   * ends exactly when as many answers have come as there are blocks, and nothing received is lost.
   */
  lemma {:induction false} SaveSends(bs: seq<Block>, inbox: seq<Received>)
    requires AllSized(bs)
    ensures var r := Save(bs, inbox);
            && StopAndWait(r.traffic, false)
            && GotIn(r.traffic) + r.rest == inbox
            && SentIn(r.traffic) <= SaveMessages(bs)
            && (r.done <==> AckCount(inbox) >= |bs|)
            && (r.done ==> SentIn(r.traffic) == SaveMessages(bs))
  {
    hide SaveMessage;
    if bs != [] {
      var ack := AwaitAck(inbox);
      var r := if ack.done then Save(bs[1..], ack.rest) else Run([], ack.rest, false);
      var first := [Sent(SaveMessage(bs[0]))] + ack.traffic;
      if ack.done {
        SaveSends(bs[1..], ack.rest);
      }
      assert first + [] == first;
      assert Save(bs, inbox) == Run(first + r.traffic, r.rest, r.done);
      assert SaveMessages(bs) == [SaveMessage(bs[0])] + SaveMessages(bs[1..]);
      AwaitAckTakesOne(inbox);
      OneBlockWaits(SaveMessage(bs[0]), inbox, r.traffic);
      OneBlockSends(SaveMessage(bs[0]), inbox, r.traffic);
      assert !ack.done ==> SentIn(r.traffic) == [] && GotIn(r.traffic) == [];
      hide Save, AwaitAck, SaveMessages, SentIn, GotIn, StopAndWait, AckCount;
      Associates(GotIn(ack.traffic), GotIn(r.traffic), r.rest);
    }
  }

  lemma OneBlockWaits(m: Message, inbox: seq<Received>, ts: seq<Traffic>)
    requires StopAndWait(ts, false) && (!AwaitAck(inbox).done ==> ts == [])
    ensures StopAndWait([Sent(m)] + AwaitAck(inbox).traffic + ts, false)
  {
    var ack := AwaitAck(inbox);
    var all := [Sent(m)] + ack.traffic + ts;
    assert all[0] == Sent(m) && all[1..] == ack.traffic + ts;
    AwaitAckAnswers(inbox, ts);
    if !ack.done {
      assert ack.traffic + ts == ack.traffic;
    }
  }

  lemma OneBlockSends(m: Message, inbox: seq<Received>, ts: seq<Traffic>)
    ensures var first := [Sent(m)] + AwaitAck(inbox).traffic;
            SentIn(first + ts) == [m] + SentIn(ts) && GotIn(first + ts) == GotIn(AwaitAck(inbox).traffic) + GotIn(ts)
  {
    hide SentIn, GotIn, AwaitAck;
    var ack := AwaitAck(inbox);
    AwaitAckTakesOne(inbox);
    Associates([Sent(m)], ack.traffic, ts);
    OneMore(Sent(m), ack.traffic + ts);
    TrafficConcat(ack.traffic, ts);
  }

  // ---------- loading ----------

  datatype RecoveryState = NotRecovered | Recovered

  /** What PDM_eLoadRecord has copied, the state of the descriptor, and whether it has come to its end. */
  datatype Loader = Loader(copied: seq<byte>, state: RecoveryState, done: bool)

  /** What a message means to the load of one record. */
  datatype Meaning = Ignored | NoRecord | Part(block: Block)

  function MeaningOf(id: u16, r: Received): Meaning {
    if r.kind != LOAD_RESPONSE then Ignored
    else if r.buffer[0] == NO_RECORD then NoRecord
    else if ReadBlock(r.buffer[1..]).id != id then Ignored
    else Part(ReadBlock(r.buffer[1..]))
  }

  function Take(l: Loader, m: Meaning): Loader {
    match m
    case Ignored => l
    case NoRecord => l.(done := true, state := NotRecovered)
    case Part(b) => Loader(l.copied + b.data, if b.total == b.index then Recovered else l.state, b.total == b.index)
  }

  /** PDM_eLoadRecord from the moment the request has been sent. */
  function Load(l: Loader, id: u16, inbox: seq<Received>): Loader
    decreases |inbox|
  {
    if l.done || inbox == [] then l else Load(Take(l, MeaningOf(id, inbox[0])), id, inbox[1..])
  }

  /** A block of the record lies inside the receive buffer and in the room left for it. */
  ghost predicate FitsIn(id: u16, r: Received, room: int) {
    MeaningOf(id, r).Part? ==> Complete(r.buffer[1..]) && |ReadBlock(r.buffer[1..]).data| <= room
  }

  /** All blocks of the record that are loaded do; the node itself does not check this. */
  ghost predicate AllFit(id: u16, inbox: seq<Received>, room: int)
    decreases |inbox|
  {
    inbox == [] ||
    (&& FitsIn(id, inbox[0], room)
     && var l := Take(Loader([], NotRecovered, false), MeaningOf(id, inbox[0]));
     l.done || AllFit(id, inbox[1..], room - |l.copied|))
  }

  /** The status message that answers a load response; its last byte is left over from the buffer. */
  function Acknowledge(r: Received, filler: byte): seq<Traffic> {
    if r.kind == LOAD_RESPONSE then [Sent(Message(STATUS, [0, 0, Msb(LOAD_REQUEST), filler]))] else []
  }

  function LoadTraffic(l: Loader, id: u16, inbox: seq<Received>, filler: byte): Run
    decreases |inbox|
  {
    if l.done || inbox == [] then Run([], inbox, l.done)
    else
      Then([Got(inbox[0])] + Acknowledge(inbox[0], filler),
           LoadTraffic(Take(l, MeaningOf(id, inbox[0])), id, inbox[1..], filler))
  }

  lemma LoadUnfolds(l: Loader, id: u16, inbox: seq<Received>, filler: byte, before: seq<Traffic>)
    requires !l.done && inbox != []
    ensures var l', first := Take(l, MeaningOf(id, inbox[0])), [Got(inbox[0])] + Acknowledge(inbox[0], filler);
            Load(l, id, inbox) == Load(l', id, inbox[1..])
            && Then(before, LoadTraffic(l, id, inbox, filler))
               == Then(before + first, LoadTraffic(l', id, inbox[1..], filler))
  {
    hide Take, MeaningOf, Then, Acknowledge;
    var l', first := Take(l, MeaningOf(id, inbox[0])), [Got(inbox[0])] + Acknowledge(inbox[0], filler);
    ThenAssociates(before, first, LoadTraffic(l', id, inbox[1..], filler));
  }

  lemma FitUnfolds(l: Loader, id: u16, inbox: seq<Received>, room: int)
    requires !l.done && inbox != [] && AllFit(id, inbox, room)
    ensures var l' := Take(l, MeaningOf(id, inbox[0]));
            FitsIn(id, inbox[0], room) && (!l'.done ==> AllFit(id, inbox[1..], room - (|l'.copied| - |l.copied|)))
  {
    hide MeaningOf, FitsIn;
  }

  lemma LoadEnds(l: Loader, id: u16, inbox: seq<Received>, filler: byte, before: seq<Traffic>)
    requires l.done || inbox == []
    ensures Load(l, id, inbox) == l && Then(before, LoadTraffic(l, id, inbox, filler)) == Run(before, inbox, l.done)
  {}

  function ResponseCount(rs: seq<Received>): nat {
    if rs == [] then 0 else (if rs[0].kind == LOAD_RESPONSE then 1 else 0) + ResponseCount(rs[1..])
  }

  /** Each load response taken is answered once, of whatever record it is, and nothing received is lost. */
  lemma {:induction false} LoadAnswersEach(l: Loader, id: u16, inbox: seq<Received>, filler: byte)
    ensures var r := LoadTraffic(l, id, inbox, filler);
            && GotIn(r.traffic) + r.rest == inbox
            && |SentIn(r.traffic)| == ResponseCount(GotIn(r.traffic))
            && (forall m <- SentIn(r.traffic) :: m == Message(0x8000, [0x00, 0x00, 0x02, filler]))
            && r.done == Load(l, id, inbox).done
            && (!r.done ==> r.rest == [])
    decreases |inbox|
  {
    if !l.done && inbox != [] {
      var l' := Take(l, MeaningOf(id, inbox[0]));
      var r := LoadTraffic(l', id, inbox[1..], filler);
      var first := [Got(inbox[0])] + Acknowledge(inbox[0], filler);
      assert LoadTraffic(l, id, inbox, filler) == Then(first, r);
      assert Load(l, id, inbox) == Load(l', id, inbox[1..]);
      hide MeaningOf, Take, Acknowledge, SentIn, GotIn, Load, LoadTraffic, ResponseCount;
      LoadAnswersEach(l', id, inbox[1..], filler);
      AnswerOfOne(inbox[0], filler);
      TrafficConcat(first, r.traffic);
      OneMoreResponse(inbox[0], GotIn(r.traffic));
      Associates([inbox[0]], GotIn(r.traffic), r.rest);
    }
  }

  lemma OneMoreResponse(r: Received, rs: seq<Received>)
    ensures ResponseCount([r] + rs) == (if r.kind == LOAD_RESPONSE then 1 else 0) + ResponseCount(rs)
  {
    assert ([r] + rs)[1..] == rs;
  }

  lemma AnswerOfOne(r: Received, filler: byte)
    ensures var first := [Got(r)] + Acknowledge(r, filler);
            && GotIn(first) == [r] && |SentIn(first)| == (if r.kind == LOAD_RESPONSE then 1 else 0)
            && (forall m <- SentIn(first) :: m == Message(0x8000, [0x00, 0x00, 0x02, filler]))
  {
    OneMore(Got(r), Acknowledge(r, filler));
    if r.kind == LOAD_RESPONSE {
      var s := Acknowledge(r, filler)[0];
      assert Acknowledge(r, filler) == [s] + [];
      OneMore(s, []);
    }
  }

  /** The messages that a load of the record does not ignore. */
  function Counting(id: u16, inbox: seq<Received>): seq<Received> {
    if inbox == [] then []
    else
      (if MeaningOf(id, inbox[0]).Ignored? then [] else [inbox[0]])
      + Counting(id, inbox[1..])
  }

  /** Messages of other types and blocks of other records do no harm, wherever they come. */
  lemma {:induction false} OthersAreHarmless(l: Loader, id: u16, inbox: seq<Received>)
    ensures Load(l, id, inbox) == Load(l, id, Counting(id, inbox))
    decreases |inbox|
  {
    hide MeaningOf;
    if inbox != [] && !l.done {
      OthersAreHarmless(Take(l, MeaningOf(id, inbox[0])), id, inbox[1..]);
      var c := Counting(id, inbox);
      if !MeaningOf(id, inbox[0]).Ignored? {
        assert c[0] == inbox[0] && c[1..] == Counting(id, inbox[1..]);
      } else {
        assert c == Counting(id, inbox[1..]);
      }
    }
  }

  /** That the host has no record ends any load, even when it was said of another record. */
  lemma NoRecordEndsAnyLoad(l: Loader, id: u16, inbox: seq<Received>)
    requires !l.done && inbox != [] && inbox[0].kind == LOAD_RESPONSE && inbox[0].buffer[0] == NO_RECORD
    ensures Load(l, id, inbox) == Loader(l.copied, NotRecovered, true)
  {
    assert Load(Take(l, NoRecord), id, inbox[1..]) == Take(l, NoRecord);
  }

  /** The received messages carry the given ones, one for one. */
  ghost predicate CarryAll(rs: seq<Received>, ms: seq<Message>) {
    |rs| == |ms| && forall i :: 0 <= i < |ms| ==> Carries(rs[i], ms[i])
  }

  lemma CarriedBlock(r: Received, status: byte, b: Block)
    requires Sized(b) && Carries(r, LoadResponse(status, b))
    ensures r.buffer[0] == status && Complete(r.buffer[1..]) && ReadBlock(r.buffer[1..]) == b
  {
    var p := [status] + Payload(b);
    var rest := r.buffer[|p|..];
    assert r.buffer == p + rest;
    assert r.buffer[1..] == Payload(b) + rest;
    PayloadRoundTrip(b, rest);
    hide Payload;
  }

  /** The messages mean the parts of a record, in order. */
  ghost predicate MeanBlocks(id: u16, rs: seq<Received>, bs: seq<Block>) {
    |rs| == |bs| && forall i :: 0 <= i < |rs| ==> MeaningOf(id, rs[i]) == Part(bs[i])
  }

  lemma CarriedBlocks(id: u16, data: seq<byte>, rs: seq<Received>)
    requires Storable(data)
    requires CarryAll(rs, LoadResponses(Blocks(id, data)))
    ensures MeanBlocks(id, rs, Blocks(id, data))
    ensures forall r <- rs :: Complete(r.buffer[1..])
  {
    var bs := Blocks(id, data);
    forall i | 0 <= i < |rs|
      ensures MeaningOf(id, rs[i]) == Part(bs[i]) && Complete(rs[i].buffer[1..])
    {
      ResponseAt(bs, i);
      BlocksIndex(id, data, 0, i);
      assert bs[i] in bs;
      CarriedBlock(rs[i], RECOVERED, bs[i]);
    }
  }

  lemma {:induction false} ResponseAt(bs: seq<Block>, i: nat)
    requires AllSized(bs) && i < |bs|
    ensures bs[i] in bs && LoadResponses(bs)[i] == LoadResponse(RECOVERED, bs[i])
  {
    hide LoadResponse;
    if i > 0 {
      ResponseAt(bs[1..], i - 1);
    }
  }

  lemma {:induction false} BlocksIndex(id: u16, data: seq<byte>, k: nat, i: nat)
    requires Storable(data) && k + i < BlockCount(|data|)
    ensures BlocksFrom(id, data, k)[i] == BlockAt(id, data, k + i)
    decreases i
  {
    hide BlockAt;
    if i > 0 {
      BlocksIndex(id, data, k + 1, i - 1);
    }
  }

  // ---------- refusals among the answers ----------

  /** A response that says that the host has no record; it does not matter which. */
  predicate Refuses(r: Received) {
    r.kind == LOAD_RESPONSE && r.buffer[0] == NO_RECORD
  }

  predicate NoneRefuses(inbox: seq<Received>) {
    inbox == [] || (!Refuses(inbox[0]) && NoneRefuses(inbox[1..]))
  }

  lemma {:induction false} NoneRefusesIff(inbox: seq<Received>)
    ensures NoneRefuses(inbox) <==> forall k :: 0 <= k < |inbox| ==> !Refuses(inbox[k])
  {
    hide Refuses;
    if inbox != [] {
      NoneRefusesIff(inbox[1..]);
      assert forall k :: 0 < k < |inbox| ==> inbox[k] == inbox[1..][k - 1];
    }
  }

  /** The message, if it carries a block of the record. */
  function PartOf(id: u16, r: Received): seq<Received> {
    if MeaningOf(id, r).Part? then [r] else []
  }

  /** The messages that carry a block of the record. */
  function Parts(id: u16, inbox: seq<Received>): seq<Received> {
    if inbox == [] then [] else PartOf(id, inbox[0]) + Parts(id, inbox[1..])
  }

  lemma RefusalIsNoRecord(id: u16, r: Received)
    ensures Refuses(r) <==> MeaningOf(id, r) == NoRecord
  {}

  lemma {:induction false} PartIsAmong(id: u16, inbox: seq<Received>)
    requires inbox != [] && MeaningOf(id, inbox[|inbox| - 1]).Part?
    ensures Parts(id, inbox) != []
  {
    hide MeaningOf;
    if |inbox| > 1 {
      PartIsAmong(id, inbox[1..]);
    }
  }

  /** What the first message of the inbox is to the blocks from k on. */
  lemma FirstPart(id: u16, data: seq<byte>, k: nat, inbox: seq<Received>)
    requires Storable(data) && k < BlockCount(|data|) && inbox != []
    requires MeanBlocks(id, Parts(id, inbox), BlocksFrom(id, data, k))
    ensures match MeaningOf(id, inbox[0])
            case Part(b) =>
              b == BlockAt(id, data, k) && MeanBlocks(id, Parts(id, inbox[1..]), BlocksFrom(id, data, k + 1))
            case _ => Parts(id, inbox[1..]) == Parts(id, inbox)
  {
    hide MeaningOf, BlockAt;
    BlocksFromNext(id, data, k);
    var ps := Parts(id, inbox);
    if MeaningOf(id, inbox[0]).Part? {
      assert ps[0] == inbox[0] && ps[1..] == Parts(id, inbox[1..]);
    }
  }

  /** The load ended early: a part of the record, not the whole, has been copied. */
  ghost predicate Refused(l: Loader, data: seq<byte>) {
    l.done && l.state == NotRecovered && l.copied <= data && |l.copied| < |data|
  }

  ghost predicate Ends(l: Loader, data: seq<byte>, restored: bool) {
    if restored then l == Loader(data, Recovered, true) else Refused(l, data)
  }

  /** The load has copied the first k blocks of the record. */
  ghost predicate Midway(l: Loader, data: seq<byte>, k: nat) {
    l.copied == data[..Cut(k, |data|)]
  }

  /** From block k on, when the last message carries a block. */
  lemma {:induction false} RestoresFromIff(l: Loader, id: u16, data: seq<byte>, k: nat, inbox: seq<Received>)
    requires Storable(data) && k < BlockCount(|data|) && !l.done && Midway(l, data, k)
    requires MeanBlocks(id, Parts(id, inbox), BlocksFrom(id, data, k))
    requires inbox != [] && MeaningOf(id, inbox[|inbox| - 1]).Part?
    ensures Ends(Load(l, id, inbox), data, NoneRefuses(inbox))
    decreases |inbox|
  {
    hide *;
    var m, rest := MeaningOf(id, inbox[0]), inbox[1..];
    FirstPart(id, data, k, inbox);
    TakenMidway(l, id, data, k, m);
    FirstOutcome(l, id, inbox);
    var l' := Take(l, m);
    if m.Ignored? {
      RestoresFromIff(l, id, data, k, rest);
    } else if m.NoRecord? {
      NothingMore(l', id, rest);
    } else if k + 1 < BlockCount(|data|) {
      PartsLeft(id, data, k + 1, rest);
      RestoresFromIff(l', id, data, k + 1, rest);
    } else {
      NothingMore(l', id, rest);
      NoPartsLeft(id, data, rest);
      NoneRefusesIff(rest);
    }
  }

  lemma FirstOutcome(l: Loader, id: u16, inbox: seq<Received>)
    requires !l.done && inbox != []
    ensures Load(l, id, inbox) == Load(Take(l, MeaningOf(id, inbox[0])), id, inbox[1..])
    ensures NoneRefuses(inbox) <==> !MeaningOf(id, inbox[0]).NoRecord? && NoneRefuses(inbox[1..])
  {
    hide Take;
    RefusalIsNoRecord(id, inbox[0]);
  }

  lemma TakenMidway(l: Loader, id: u16, data: seq<byte>, k: nat, m: Meaning)
    requires Storable(data) && k < BlockCount(|data|) && !l.done && Midway(l, data, k)
    requires m.Part? ==> m.block == BlockAt(id, data, k)
    ensures match m
            case Ignored => Take(l, m) == l
            case NoRecord => Take(l, m).done && Ends(Take(l, m), data, false)
            case Part(_) =>
              if k + 1 < BlockCount(|data|) then !Take(l, m).done && Midway(Take(l, m), data, k + 1)
              else Take(l, m).done && Ends(Take(l, m), data, true)
  {
    CutBounds(k, |data|);
  }

  lemma NothingMore(l: Loader, id: u16, inbox: seq<Received>)
    requires l.done
    ensures Load(l, id, inbox) == l
  {}

  lemma PartsLeft(id: u16, data: seq<byte>, k: nat, inbox: seq<Received>)
    requires Storable(data) && k < BlockCount(|data|) && MeanBlocks(id, Parts(id, inbox), BlocksFrom(id, data, k))
    ensures inbox != []
  {}

  lemma NoPartsLeft(id: u16, data: seq<byte>, inbox: seq<Received>)
    requires Storable(data) && MeanBlocks(id, Parts(id, inbox), BlocksFrom(id, data, BlockCount(|data|)))
    requires inbox != [] ==> MeaningOf(id, inbox[|inbox| - 1]).Part?
    ensures inbox == []
  {
    hide MeaningOf;
    if inbox != [] {
      PartIsAmong(id, inbox);
    }
  }

  lemma {:induction false} EndedStays(l: Loader, id: u16, inbox: seq<Received>, more: seq<Received>)
    requires Load(l, id, inbox).done
    ensures Load(l, id, inbox + more) == Load(l, id, inbox)
    decreases |inbox|
  {
    hide Take, MeaningOf;
    if !l.done {
      assert (inbox + more)[1..] == inbox[1..] + more;
      EndedStays(Take(l, MeaningOf(id, inbox[0])), id, inbox[1..], more);
    }
  }

  /**
   * Let the blocks of a record come in order, the last one as the last message, with any messages of any type and any
   * record between them, and anything after them. The load restores the record if and only if no response among them
   * says that there is no record, whichever it is about; otherwise it ends with a part of it, not recovered.
   */
  lemma LoadRestoresIff(id: u16, data: seq<byte>, inbox: seq<Received>, more: seq<Received>)
    requires Storable(data) && data != [] && MeanBlocks(id, Parts(id, inbox), Blocks(id, data))
    requires inbox != [] && MeaningOf(id, inbox[|inbox| - 1]).Part?
    ensures var l := Load(Loader([], NotRecovered, false), id, inbox + more);
            && (l == Loader(data, Recovered, true) <==> forall k :: 0 <= k < |inbox| ==> !Refuses(inbox[k]))
            && (Refused(l, data) <==> exists k :: 0 <= k < |inbox| && Refuses(inbox[k]))
  {
    var start := Loader([], NotRecovered, false);
    hide Load, MeanBlocks, Parts, MeaningOf, Refuses, NoneRefuses;
    RestoresFromIff(start, id, data, 0, inbox);
    EndedStays(start, id, inbox, more);
    NoneRefusesIff(inbox);
  }

  /** Of a record that the host has, one refusal of another record before the last block spoils the load. */
  lemma ForeignRefusalSpoils(id: u16, data: seq<byte>, rs: seq<Received>, k: nat, r: Received, other: u16)
    requires Storable(data) && data != [] && CarryAll(rs, LoadResponses(Blocks(id, data))) && k < |rs|
    requires other != id && Carries(r, LoadResponse(NO_RECORD, Block(other, 0, 0, 0, [])))
    ensures Load(Loader([], NotRecovered, false), id, rs) == Loader(data, Recovered, true)
    ensures Refused(Load(Loader([], NotRecovered, false), id, rs[..k] + [r] + rs[k..]), data)
  {
    AnswersAreParts(id, data, rs);
    CarriedBlock(r, NO_RECORD, Block(other, 0, 0, 0, []));
    hide CarryAll, Carries, LoadResponses, LoadResponse, Blocks;
    InsertedSpoils(id, data, rs, k, r);
  }

  lemma InsertedSpoils(id: u16, data: seq<byte>, rs: seq<Received>, k: nat, r: Received)
    requires Storable(data) && data != [] && MeanBlocks(id, rs, Blocks(id, data)) && Parts(id, rs) == rs
    requires forall i :: 0 <= i < |rs| ==> MeaningOf(id, rs[i]).Part? && !Refuses(rs[i])
    requires k < |rs| && Refuses(r)
    ensures Load(Loader([], NotRecovered, false), id, rs) == Loader(data, Recovered, true)
    ensures Refused(Load(Loader([], NotRecovered, false), id, rs[..k] + [r] + rs[k..]), data)
  {
    hide MeanBlocks, Refuses, Load, Parts, Refused, MeaningOf;
    RefusalIsNoRecord(id, r);
    InsertedIsNoPart(id, rs, k, r);
    var spoiled := rs[..k] + [r] + rs[k..];
    assert spoiled[k] == r && spoiled[|spoiled| - 1] == rs[|rs| - 1];
    LoadRestoresIff(id, data, spoiled, []);
    LoadRestoresIff(id, data, rs, []);
    assert spoiled + [] == spoiled && rs + [] == rs;
  }

  /** The host's answers are the parts of the record, and none of them refuses. */
  lemma AnswersAreParts(id: u16, data: seq<byte>, rs: seq<Received>)
    requires Storable(data) && CarryAll(rs, LoadResponses(Blocks(id, data)))
    ensures MeanBlocks(id, rs, Blocks(id, data)) && Parts(id, rs) == rs
    ensures forall i :: 0 <= i < |rs| ==> MeaningOf(id, rs[i]).Part? && !Refuses(rs[i])
  {
    CarriedBlocks(id, data, rs);
    hide MeaningOf, Refuses, CarryAll;
    forall i | 0 <= i < |rs|
      ensures MeaningOf(id, rs[i]).Part? && !Refuses(rs[i])
    {
      RefusalIsNoRecord(id, rs[i]);
    }
    AllParts(id, rs);
  }

  lemma {:induction false} AllParts(id: u16, rs: seq<Received>)
    requires forall i :: 0 <= i < |rs| ==> MeaningOf(id, rs[i]).Part?
    ensures Parts(id, rs) == rs
  {
    hide MeaningOf;
    if rs != [] {
      AllParts(id, rs[1..]);
    }
  }

  lemma {:induction false} PartsConcat(id: u16, a: seq<Received>, b: seq<Received>)
    ensures Parts(id, a + b) == Parts(id, a) + Parts(id, b)
  {
    hide PartOf;
    if a == [] {
      assert a + b == b;
    } else {
      PartsConcat(id, a[1..], b);
      assert (a + b)[1..] == a[1..] + b;
      Associates(PartOf(id, a[0]), Parts(id, a[1..]), Parts(id, b));
    }
  }

  lemma InsertedIsNoPart(id: u16, rs: seq<Received>, k: nat, r: Received)
    requires k <= |rs| && !MeaningOf(id, r).Part?
    ensures Parts(id, rs[..k] + [r] + rs[k..]) == Parts(id, rs)
  {
    var a, b := rs[..k], rs[k..];
    assert a + b == rs && a + [r] + b == a + ([r] + b);
    assert Parts(id, [r] + b) == [] + Parts(id, b) by {
      assert ([r] + b)[1..] == b;
    }
    hide Parts, MeaningOf;
    PartsConcat(id, a, [r] + b);
    PartsConcat(id, a, b);
  }

  /** The host's answers, with any harmless messages between them, restore the record. */
  lemma LoadRestores(id: u16, data: seq<byte>, inbox: seq<Received>, l: Loader)
    requires Storable(data) && data != [] && !l.done && l.copied == []
    requires CarryAll(Counting(id, inbox), LoadResponses(Blocks(id, data)))
    ensures Load(l, id, inbox) == Loader(data, Recovered, true)
  {
    var c := Counting(id, inbox);
    OthersAreHarmless(l, id, inbox);
    AnswersAreParts(id, data, c);
    assert Midway(l, data, 0);
    hide MeaningOf, Refuses, NoneRefuses, Load, MeanBlocks, Parts, Counting, Midway, CarryAll;
    NoneRefusesIff(c);
    PartsLeft(id, data, 0, c);
    RestoresFromIff(l, id, data, 0, c);
  }

  // ---------- what fits the caller's buffer ----------

  lemma FirstFits(id: u16, inbox: seq<Received>, room: int)
    requires inbox != []
    ensures var m := MeaningOf(id, inbox[0]);
            AllFit(id, inbox, room) <==>
            match m
            case Ignored => AllFit(id, inbox[1..], room)
            case NoRecord => true
            case Part(b) =>
              Complete(inbox[0].buffer[1..]) && |b.data| <= room
              && (b.total == b.index || AllFit(id, inbox[1..], room - |b.data|))
  {
    hide Complete, ReadBlock;
  }

  ghost predicate AllComplete(rs: seq<Received>) {
    forall r <- rs :: Complete(r.buffer[1..])
  }

  /** What the first message of the inbox is to the answers from block k on. */
  lemma FirstAnswer(id: u16, data: seq<byte>, k: nat, inbox: seq<Received>)
    requires Storable(data) && k < BlockCount(|data|)
    requires MeanBlocks(id, Counting(id, inbox), BlocksFrom(id, data, k)) && AllComplete(Counting(id, inbox))
    ensures inbox != [] && AllComplete(Counting(id, inbox[1..]))
    ensures if MeaningOf(id, inbox[0]).Ignored? then Counting(id, inbox[1..]) == Counting(id, inbox)
            else
              && MeaningOf(id, inbox[0]) == Part(BlockAt(id, data, k)) && Complete(inbox[0].buffer[1..])
              && MeanBlocks(id, Counting(id, inbox[1..]), BlocksFrom(id, data, k + 1))
  {
    hide MeaningOf, BlockAt, Complete;
    BlocksFromNext(id, data, k);
    var c := Counting(id, inbox);
    assert c[0] in c;
    if !MeaningOf(id, inbox[0]).Ignored? {
      assert c[0] == inbox[0] && c[1..] == Counting(id, inbox[1..]);
    }
  }

  lemma BlockLength(id: u16, data: seq<byte>, k: nat)
    requires Storable(data) && k < BlockCount(|data|)
    ensures var b := BlockAt(id, data, k);
            && |b.data| == Cut(k + 1, |data|) - Cut(k, |data|) && Cut(k + 1, |data|) <= |data|
            && (b.total == b.index <==> k + 1 == BlockCount(|data|))
            && (k + 1 == BlockCount(|data|) ==> Cut(k + 1, |data|) == |data|)
  {
    CutBounds(k, |data|);
  }

  /** From block k on the answers fit exactly when there is room for what is left of the record. */
  lemma {:induction false} AnswersFitFrom(id: u16, data: seq<byte>, k: nat, inbox: seq<Received>, room: int)
    requires Storable(data) && k < BlockCount(|data|)
    requires MeanBlocks(id, Counting(id, inbox), BlocksFrom(id, data, k)) && AllComplete(Counting(id, inbox))
    ensures AllFit(id, inbox, room) <==> |data| - Cut(k, |data|) <= room
    decreases |inbox|
  {
    hide *;
    FirstAnswer(id, data, k, inbox);
    BlockLength(id, data, k);
    FirstFits(id, inbox, room);
    if MeaningOf(id, inbox[0]).Ignored? {
      AnswersFitFrom(id, data, k, inbox[1..], room);
    } else if k + 1 < BlockCount(|data|) {
      AnswersFitFrom(id, data, k + 1, inbox[1..], room - |BlockAt(id, data, k).data|);
    }
  }

  /**
   * What the host answers for a record is written inside the caller's buffer exactly if the record is no larger
   * than the buffer; of a larger one some block is copied behind its end.
   */
  lemma AnswersFitIff(id: u16, data: seq<byte>, inbox: seq<Received>, room: nat)
    requires Storable(data) && data != []
    requires CarryAll(Counting(id, inbox), LoadResponses(Blocks(id, data)))
    ensures AllFit(id, inbox, room) <==> |data| <= room
  {
    CarriedBlocks(id, data, Counting(id, inbox));
    hide AllFit, MeanBlocks, CarryAll, Complete;
    AnswersFitFrom(id, data, 0, inbox, room);
  }

  /**
   * Round trip: whatever arrives while the record is saved, once the save has ended, the host has the
   * record and every other record as before; and whatever harmless messages arrive between its
   * answers, loading the record again restores the same bytes.
   */
  lemma SaveThenLoad(host: Store, id: u16, data: seq<byte>, inbox: seq<Received>, later: seq<Received>)
    requires Storable(data) && data != [] && Save(Blocks(id, data), inbox).done
    ensures var host' := ServeAll(host, SentIn(Save(Blocks(id, data), inbox).traffic));
            host' == host[id := data]
            && (CarryAll(Counting(id, later), Answers(host', id)) ==>
                  Load(Loader([], NotRecovered, false), id, later) == Loader(data, Recovered, true))
  {
    hide Save, Load, ServeAll, Counting, CarryAll;
    SaveSends(Blocks(id, data), inbox);
    HostStores(host, id, data);
    if CarryAll(Counting(id, later), LoadResponses(Blocks(id, data))) {
      LoadRestores(id, data, later, Loader([], NotRecovered, false));
    }
  }

  /** A record that the host does not have leaves nothing copied. */
  lemma LoadOfMissing(host: Store, id: u16, inbox: seq<Received>, l: Loader)
    requires id !in host && !l.done && CarryAll(Counting(id, inbox), Answers(host, id))
    ensures Load(l, id, inbox) == Loader(l.copied, NotRecovered, true)
  {
    OthersAreHarmless(l, id, inbox);
    var c := Counting(id, inbox);
    assert Carries(c[0], Answers(host, id)[0]);
    CarriedBlock(c[0], NO_RECORD, Block(id, 0, 0, 0, []));
    NoRecordEndsAnyLoad(l, id, c);
  }

  // ---------- from the line into the buffer ----------

  /** The message that is complete in the node's receive buffer. */
  function TakenNow(r: Receiver, m: Option<Message>): seq<Received>
    requires |r.buffer| == MAX_PACKET_SIZE
  {
    match m
    case None => []
    case Some(x) => [Received(x.kind, r.buffer)]
  }

  /** What the node's reader takes off the line, each message with the buffer as it is then. */
  function TakenOff(r: Receiver, line: seq<byte>): seq<Received>
    requires LinkProtocol.Valid(r) && |r.buffer| == MAX_PACKET_SIZE
  {
    if line == [] then []
    else
      var front := line[..|line| - 1];
      TakenOff(r, front) + TakenNow(After(r, line), Output(After(r, front), line[|line| - 1]))
  }

  /** The payload of a completed message is in the buffer, whatever else is. */
  lemma CompletedIsCarried(r: Receiver, b: byte)
    requires LinkProtocol.Valid(r) && |r.buffer| == MAX_PACKET_SIZE
    ensures CarryAll(TakenNow(Next(r, b), Output(r, b)), Single(Output(r, b)))
  {
    hide Checksum, Xor;
  }

  lemma CarryAllConcat(a: seq<Received>, b: seq<Received>, ms: seq<Message>, ns: seq<Message>)
    requires CarryAll(a, ms) && CarryAll(b, ns)
    ensures CarryAll(a + b, ms + ns)
  {
    hide Carries;
  }

  lemma {:induction false} TakenOffCarries(r: Receiver, line: seq<byte>)
    requires LinkProtocol.Valid(r) && |r.buffer| == MAX_PACKET_SIZE
    ensures CarryAll(TakenOff(r, line), Completed(Outputs(r, line)))
  {
    hide Next, Output, TakenNow, Single, Carries;
    if line != [] {
      var front, b := line[..|line| - 1], line[|line| - 1];
      TakenOffCarries(r, front);
      CompletedIsCarried(After(r, front), b);
      assert Outputs(r, line)[..|front|] == Outputs(r, front);
      CarryAllConcat(TakenOff(r, front), TakenNow(After(r, line), Output(After(r, front), b)),
                     Completed(Outputs(r, front)), Single(Output(After(r, front), b)));
    }
  }

  /** A load response holds the whole of the block that its header announces. */
  predicate Readable(m: Message) {
    m.kind == LOAD_RESPONSE ==> |m.payload| > HEADER && Complete(m.payload[1..])
  }

  ghost predicate AllReadable(ms: seq<Message>) {
    forall m <- ms :: Readable(m)
  }

  /** What a message says to the load of one record. */
  function Says(id: u16, m: Message): Meaning
    requires Readable(m)
  {
    if m.kind != LOAD_RESPONSE then Ignored
    else if m.payload[0] == NO_RECORD then NoRecord
    else if ReadBlock(m.payload[1..]).id != id then Ignored
    else Part(ReadBlock(m.payload[1..]))
  }

  /** The blocks of the record among some messages. */
  function Said(id: u16, ms: seq<Message>): seq<Block>
    requires AllReadable(ms)
  {
    if ms == [] then []
    else
      assert ms[0] in ms && forall m <- ms[1..] :: m in ms;
      (match Says(id, ms[0]) case Part(b) => [b] case _ => []) + Said(id, ms[1..])
  }

  /** A block is read the same whatever follows it. */
  lemma ReadPrefix(p: seq<byte>, rest: seq<byte>)
    requires |p| >= HEADER && Complete(p)
    ensures Complete(p + rest) && ReadBlock(p + rest) == ReadBlock(p)
  {
    hide ReadWord16, ReadWord32;
    var q := p + rest;
    assert q[..2] == p[..2] && q[2..6] == p[2..6] && q[6..10] == p[6..10] && q[10..14] == p[10..14];
    assert q[14..18] == p[14..18];
    var n := DataLength(p);
    assert q[HEADER..HEADER + n] == p[HEADER..HEADER + n];
  }

  lemma CarriedMeans(id: u16, r: Received, m: Message)
    requires Carries(r, m) && Readable(m)
    ensures MeaningOf(id, r) == Says(id, m)
  {
    if m.kind == LOAD_RESPONSE {
      var rest := r.buffer[|m.payload|..];
      assert r.buffer == m.payload + rest;
      assert r.buffer[1..] == m.payload[1..] + rest;
      ReadPrefix(m.payload[1..], rest);
      hide ReadBlock, Complete;
    }
  }

  lemma EachMeans(id: u16, rs: seq<Received>, ms: seq<Message>)
    requires CarryAll(rs, ms) && AllReadable(ms)
    ensures |rs| == |ms| && forall k :: 0 <= k < |ms| ==>
              Readable(ms[k]) && MeaningOf(id, rs[k]) == Says(id, ms[k])
              && (Refuses(rs[k]) <==> Says(id, ms[k]) == NoRecord)
  {
    hide MeaningOf, Says, Carries, Readable, Refuses;
    forall k | 0 <= k < |ms|
      ensures Readable(ms[k]) && MeaningOf(id, rs[k]) == Says(id, ms[k])
      ensures Refuses(rs[k]) <==> Says(id, ms[k]) == NoRecord
    {
      CarriedMeans(id, rs[k], ms[k]);
      RefusalIsNoRecord(id, rs[k]);
    }
  }

  lemma {:induction false} SaidAreParts(id: u16, rs: seq<Received>, ms: seq<Message>)
    requires CarryAll(rs, ms) && AllReadable(ms)
    ensures MeanBlocks(id, Parts(id, rs), Said(id, ms))
    decreases |rs|
  {
    hide MeaningOf, Says, Carries, Readable;
    if rs != [] {
      assert Carries(rs[0], ms[0]) && ms[0] in ms && forall m <- ms[1..] :: m in ms;
      CarriedMeans(id, rs[0], ms[0]);
      SaidAreParts(id, rs[1..], ms[1..]);
    }
  }

  lemma {:induction false} TakenOffConcat(r: Receiver, a: seq<byte>, b: seq<byte>)
    requires LinkProtocol.Valid(r) && |r.buffer| == MAX_PACKET_SIZE
    ensures TakenOff(r, a + b) == TakenOff(r, a) + TakenOff(After(r, a), b)
  {
    hide TakenNow, Next, Output;
    if b == [] {
      assert a + b == a;
    } else {
      var front, last := b[..|b| - 1], b[|b| - 1];
      assert (a + b)[..|a + b| - 1] == a + front;
      TakenOffConcat(r, a, front);
      RunsConcat(r, a, front);
      RunsConcat(r, a, b);
    }
  }

  /**
   * Let the blocks of a record come over the line in order, framed, with noise, with messages of any type and blocks of
   * any record between them, and with any bytes after the last. What the node's reader takes off the line, whatever
   * state it is in, restores the record if and only if no response among them says that there is no record; otherwise
   * the load ends with a part of it, not recovered.
   */
  lemma LineRestoresIff(r: Receiver, id: u16, data: seq<byte>, bursts: seq<Burst>, later: seq<byte>)
    requires LinkProtocol.Valid(r) && r.dialect == NodeDialect && |r.buffer| == MAX_PACKET_SIZE
    requires Transmittable(NodeDialect, bursts) && Storable(data) && data != []
    requires var ms := Fitting(NodeDialect, bursts, MAX_PACKET_SIZE);
             AllReadable(ms) && Said(id, ms) == Blocks(id, data) && ms != [] && Says(id, ms[|ms| - 1]).Part?
    ensures var ms := Fitting(NodeDialect, bursts, MAX_PACKET_SIZE);
            var l := Load(Loader([], NotRecovered, false), id, TakenOff(r, Line(NodeDialect, bursts) + later));
            && (l == Loader(data, Recovered, true) <==> forall k :: 0 <= k < |ms| ==> Says(id, ms[k]) != NoRecord)
            && (Refused(l, data) <==> exists k :: 0 <= k < |ms| && Says(id, ms[k]) == NoRecord)
  {
    hide *;
    var ms, line := Fitting(NodeDialect, bursts, MAX_PACKET_SIZE), Line(NodeDialect, bursts);
    var taken := TakenOff(r, line);
    TakenOffCarries(r, line);
    FittingIsCompleted(r, bursts);
    TakenOffConcat(r, line, later);
    SaidAreParts(id, taken, ms);
    EachMeans(id, taken, ms);
    LoadRestoresIff(id, data, taken, TakenOff(After(r, line), later));
  }

  /** The host's answers say just that: the blocks of the record, in order. */
  lemma {:induction false} AnswersSay(id: u16, bs: seq<Block>)
    requires AllSized(bs) && forall b <- bs :: b.id == id
    ensures AllReadable(LoadResponses(bs)) && Said(id, LoadResponses(bs)) == bs
  {
    EachAnswerSays(id, bs);
    if bs != [] {
      var ms, rest := LoadResponses(bs), LoadResponses(bs[1..]);
      AnswersSay(id, bs[1..]);
      hide LoadResponse, Says, Readable;
      assert ms[1..] == rest && ms[0] in ms;
    }
  }

  lemma EachAnswerSays(id: u16, bs: seq<Block>)
    requires AllSized(bs) && forall b <- bs :: b.id == id
    ensures var ms := LoadResponses(bs);
            AllReadable(ms) && forall k :: 0 <= k < |ms| ==> ms[k] in ms && Says(id, ms[k]) == Part(bs[k])
  {
    var ms := LoadResponses(bs);
    hide LoadResponse, Says, Readable, LoadResponses;
    forall k | 0 <= k < |ms|
      ensures Readable(ms[k]) && Says(id, ms[k]) == Part(bs[k])
    {
      ResponseAt(bs, k);
      AnswerSays(id, bs[k]);
    }
  }

  /** So the framed answers of a host that has the record restore it. */
  lemma HostAnswersRestore(r: Receiver, id: u16, data: seq<byte>, bursts: seq<Burst>, later: seq<byte>)
    requires LinkProtocol.Valid(r) && r.dialect == NodeDialect && |r.buffer| == MAX_PACKET_SIZE
    requires Transmittable(NodeDialect, bursts) && Storable(data) && data != []
    requires Fitting(NodeDialect, bursts, MAX_PACKET_SIZE) == LoadResponses(Blocks(id, data))
    ensures Load(Loader([], NotRecovered, false), id, TakenOff(r, Line(NodeDialect, bursts) + later))
            == Loader(data, Recovered, true)
  {
    hide *;
    BlocksAreOf(id, data);
    AnswersSay(id, Blocks(id, data));
    EachAnswerSays(id, Blocks(id, data));
    LineRestoresIff(r, id, data, bursts, later);
  }

  lemma BlocksAreOf(id: u16, data: seq<byte>)
    requires Storable(data)
    ensures forall b <- Blocks(id, data) :: b.id == id
    ensures data != [] ==> Blocks(id, data) != []
  {
    var bs := Blocks(id, data);
    forall k | 0 <= k < |bs|
      ensures bs[k].id == id
    {
      BlocksIndex(id, data, 0, k);
    }
  }

  lemma AnswerSays(id: u16, b: Block)
    requires Sized(b) && b.id == id
    ensures var m := LoadResponse(RECOVERED, b); Readable(m) && Says(id, m) == Part(b)
  {
    PayloadRoundTrip(b, []);
    assert Payload(b) + [] == Payload(b);
    assert ([RECOVERED] + Payload(b))[1..] == Payload(b);
    hide Payload;
  }

  // ---------- saving every record ----------

  datatype Record = Record(id: u16, data: seq<byte>)

  ghost predicate Recordable(records: seq<Record>) {
    forall r <- records :: Storable(r.data)
  }

  /** PDM_vSave over the records that are left. */
  function SaveAll(records: seq<Record>, inbox: seq<Received>): Run
    requires Recordable(records)
  {
    if records == [] then Run([], inbox, true)
    else
      var first := Save(Blocks(records[0].id, records[0].data), inbox);
      if !first.done then first else Then(first.traffic, SaveAll(records[1..], first.rest))
  }

  /** The save of all records from record k on. */
  lemma SaveAllUnfolds(records: seq<Record>, k: nat, inbox: seq<Received>)
    requires Recordable(records) && k < |records|
    ensures var first := Save(Blocks(records[k].id, records[k].data), inbox);
            SaveAll(records[k..], inbox)
            == if first.done then Then(first.traffic, SaveAll(records[k + 1..], first.rest)) else first
  {
    hide Save, Blocks, Then;
    assert records[k..][0] == records[k] && records[k..][1..] == records[k + 1..];
  }

  lemma SaveAllNothing(records: seq<Record>, k: nat, before: seq<Traffic>, inbox: seq<Received>)
    requires Recordable(records) && k == |records|
    ensures Then(before, SaveAll(records[k..], inbox)) == Run(before, inbox, true)
  {
    NothingFollows(before, inbox);
  }

  ghost predicate DistinctIds(records: seq<Record>) {
    forall i, j :: 0 <= i < j < |records| ==> records[i].id != records[j].id
  }

  /** The host with every record that is not empty; of two under one id the later counts. */
  function Stored(host: Store, records: seq<Record>): Store
    decreases |records|
  {
    if records == [] then host
    else Stored(if records[0].data == [] then host else host[records[0].id := records[0].data], records[1..])
  }

  lemma {:induction false} ServeAllConcat(host: Store, a: seq<Message>, b: seq<Message>)
    ensures ServeAll(host, a + b) == ServeAll(ServeAll(host, a), b)
    decreases |a|
  {
    if a == [] {
      assert a + b == b;
    } else {
      assert (a + b)[1..] == a[1..] + b;
      ServeAllConcat(Serve(host, a[0]), a[1..], b);
    }
  }

  /** Once all are saved the host has them all. */
  lemma {:induction false} SaveAllStores(host: Store, records: seq<Record>, inbox: seq<Received>)
    requires Recordable(records) && SaveAll(records, inbox).done
    ensures ServeAll(host, SentIn(SaveAll(records, inbox).traffic)) == Stored(host, records)
    decreases |records|
  {
    if records != [] {
      var r := records[0];
      assert Storable(r.data);
      var bs := Blocks(r.id, r.data);
      var first := Save(bs, inbox);
      SaveSends(bs, inbox);
      hide Save, ServeAll, Serve, Blocks, SentIn;
      var host' := ServeAll(host, SentIn(first.traffic));
      assert host' == if r.data == [] then host else host[r.id := r.data] by {
        if r.data == [] {
          NothingStored(host, r.id);
        } else {
          HostStores(host, r.id, r.data);
        }
      }
      SaveAllStores(host', records[1..], first.rest);
      var rest := SaveAll(records[1..], first.rest);
      TrafficConcat(first.traffic, rest.traffic);
      ServeAllConcat(host, SentIn(first.traffic), SentIn(rest.traffic));
    }
  }

  lemma NothingStored(host: Store, id: u16)
    ensures Blocks(id, []) == [] && SaveMessages([]) == [] && ServeAll(host, []) == host
  {}

  /** With distinct ids each record that is not empty is at its id, and all other ids are as before. */
  lemma {:induction false} StoredHasEach(host: Store, records: seq<Record>, id: u16)
    requires DistinctIds(records)
    ensures forall i :: 0 <= i < |records| && records[i].id == id && records[i].data != [] ==>
              id in Stored(host, records) && Stored(host, records)[id] == records[i].data
    ensures (forall r <- records :: r.id == id ==> r.data == []) ==>
              (id in Stored(host, records) <==> id in host)
              && (id in host ==> Stored(host, records)[id] == host[id])
    decreases |records|
  {
    if records != [] {
      var host' := if records[0].data == [] then host else host[records[0].id := records[0].data];
      StoredHasEach(host', records[1..], id);
      assert Stored(host, records) == Stored(host', records[1..]);
      hide Stored;
      assert forall i :: 0 < i < |records| ==> records[i] == records[1..][i - 1];
      if records[0].id == id {
        assert forall r <- records[1..] :: r.id != id;
      }
    }
  }
}
