/** The persistent data manager of the node, which keeps its records on the host. */
module PdmHost {
  import opened Bytes
  import opened LinkProtocol
  import opened PdmBlocks
  import opened PdmTraffic

  datatype Status = Ok | InvalidParameter

  /** A record descriptor; its data pointer is null until a record has been loaded into it. */
  class Descriptor {
    var userId: u16
    var data: array?<byte>
    var size: u32
    var state: RecoveryState
    var next: Descriptor?

    constructor ()
      ensures data == null && size == 0 && next == null
    {
      userId, data, size, state, next := 0, null, 0, NotRecovered, null;
    }

    /** The descriptor's data lies inside its array. */
    ghost predicate Usable()
      reads this
    {
      data != null && size <= data.Length
    }

    ghost function CurrentRecord(): (r: Record)
      requires Usable()
      reads this, data
      ensures Storable(r.data)
    {
      Record(userId, data[..size])
    }
  }

  class Pdm {
    var head: Descriptor?
    // messages that the link will deliver, and all that has been sent and taken
    var inbox: seq<Received>
    var traffic: seq<Traffic>
    // what an unset byte of a message buffer happens to hold
    const filler: byte
    // the descriptors from the head on
    ghost var list: seq<Descriptor>

    /** The descriptor at a position, or the null pointer behind the last. */
    static ghost function At(list: seq<Descriptor>, i: nat): Descriptor? {
      if i < |list| then list[i] else null
    }

    ghost predicate Valid()
      reads this`head, this`list, list
    {
      && head == At(list, 0)
      && (forall i :: 0 <= i < |list| ==> list[i].next == At(list, i + 1))
      && (forall i, j :: 0 <= i < j < |list| ==> list[i] != list[j])
    }

    ghost predicate AllUsable()
      reads this`list, list
    {
      forall d <- list :: d.Usable()
    }

    static ghost function RecordsOf(ds: seq<Descriptor>): (rs: seq<Record>)
      requires forall d <- ds :: d.Usable()
      reads ds, set d <- ds :: d.data
      ensures |rs| == |ds| && Recordable(rs)
    {
      if ds == [] then [] else [ds[0].CurrentRecord()] + RecordsOf(ds[1..])
    }

    static lemma RecordAt(ds: seq<Descriptor>, k: nat)
      requires (forall d <- ds :: d.Usable()) && k < |ds|
      ensures RecordsOf(ds)[k] == ds[k].CurrentRecord()
    {
      if k > 0 {
        RecordAt(ds[1..], k - 1);
      }
    }

    constructor (filler: byte)
      ensures Valid() && list == [] && inbox == [] && traffic == []
    {
      head, inbox, traffic, list := null, [], [], [];
      this.filler := filler;
    }

    method WriteMessage(m: Message)
      modifies this`traffic
      ensures traffic == old(traffic) + [Sent(m)]
    {
      traffic := traffic + [Sent(m)];
    }

    /** Takes the next message off the link. */
    method ReadMessage() returns (r: Received)
      requires inbox != []
      modifies this`inbox, this`traffic
      ensures old(inbox) == [r] + inbox && traffic == old(traffic) + [Got(r)]
    {
      r := inbox[0];
      inbox := inbox[1..];
      traffic := traffic + [Got(r)];
    }

    // ---------- saving ----------

    /** Waits for the host's answer to a block; false while none has come. */
    method AwaitResponse() returns (acked: bool)
      modifies this`inbox, this`traffic
      ensures var r := AwaitAck(old(inbox));
              traffic == old(traffic) + r.traffic && inbox == r.rest && acked == r.done
    {
      acked := false;
      ghost var taken := [];
      while !acked && inbox != []
        invariant traffic == old(traffic) + taken
        invariant AwaitAck(old(inbox)) == if acked then Run(taken, inbox, true) else Then(taken, AwaitAck(inbox))
        decreases |inbox|, !acked
      {
        ghost var before := AwaitAck(inbox);
        var r := ReadMessage();
        if r.kind == SAVE_RESPONSE {
          acked := true;
        } else {
          ThenAssociates(taken, [Got(r)], AwaitAck(inbox));
        }
        taken := taken + [Got(r)];
      }
    }

    /** Writes one block: the header fields one after the other, then its part of the data. */
    method SendBlock(desc: Descriptor, total: u32, count: u32)
      requires desc.Usable() && total == BlockCount(desc.size) && 0 < count <= total
      modifies this`traffic
      ensures traffic == old(traffic) + [Sent(SaveMessage(BlockAt(desc.userId, desc.data[..desc.size], count - 1)))]
    {
      CutBounds(count - 1, desc.size);
      var offset := (count - 1) * BLOCK;
      var size := desc.size - offset;
      if size > BLOCK {
        size := BLOCK;
      }
      var buffer := Word16(desc.userId);
      buffer := buffer + Word32(desc.size);
      buffer := buffer + Word32(total);
      buffer := buffer + Word32(count);
      buffer := buffer + Word32(size);
      buffer := buffer + desc.data[offset..offset + size];
      assert desc.data[offset..offset + size] == desc.data[..desc.size][offset..offset + size];
      WriteMessage(Message(SAVE, buffer));
    }

    /** PDM_vSaveRecord; false while an answer of the host is missing. */
    method SaveRecord(desc: Descriptor) returns (complete: bool)
      requires desc.Usable()
      modifies this`inbox, this`traffic
      ensures var r := Save(Blocks(desc.userId, desc.data[..desc.size]), old(inbox));
              traffic == old(traffic) + r.traffic && inbox == r.rest && complete == r.done
    {
      hide AwaitAck, SaveMessage, BlockAt, Save, Then, BlocksFrom;
      var total := desc.size / 128 + if desc.size % 128 > 0 then 1 else 0;
      ghost var id, data := desc.userId, desc.data[..desc.size];
      if total == 0 {
        SaveNothing(id, data, [], inbox);
        ThenAssociates([], [], Save(Blocks(id, data), inbox));
        return true;
      }
      ghost var whole := Save(Blocks(id, data), inbox);
      ghost var sent := [];
      ThenAssociates([], [], whole);
      var count := 0;
      while count != total
        invariant 0 <= count <= total == BlockCount(desc.size)
        invariant traffic == old(traffic) + sent
        invariant whole == Then(sent, Save(BlocksFrom(id, data, count), inbox))
      {
        SaveUnfolds(id, data, count, inbox);
        ghost var ack := AwaitAck(inbox);
        ghost var first := [Sent(SaveMessage(BlockAt(id, data, count)))] + ack.traffic;
        count := count + 1;
        SendBlock(desc, total, count);
        var acked := AwaitResponse();
        if !acked {
          SaveStops(sent, first, inbox);
          return false;
        }
        ThenAssociates(sent, first, Save(BlocksFrom(id, data, count), inbox));
        sent := sent + first;
      }
      SaveNothing(id, data, sent, inbox);
      return true;
    }

    /** One round of PDM_vSave, as part of the run `whole` of which `sent` has been done since `base`. */
    method SaveNext(desc: Descriptor, ghost records: seq<Record>, ghost k: nat, ghost base: seq<Traffic>,
                    ghost sent: seq<Traffic>, ghost whole: Run)
      returns (saved: bool, ghost sent': seq<Traffic>)
      requires Recordable(records) && k < |records| && desc.Usable() && desc.CurrentRecord() == records[k]
      requires traffic == base + sent && Then(sent, SaveAll(records[k..], inbox)) == whole
      modifies this`inbox, this`traffic
      ensures traffic == base + sent'
      ensures if saved then Then(sent', SaveAll(records[k + 1..], inbox)) == whole
              else whole == Run(sent', inbox, false)
    {
      SaveAllUnfolds(records, k, inbox);
      ghost var first := Save(Blocks(records[k].id, records[k].data), inbox);
      hide *;
      saved := SaveRecord(desc);
      sent' := sent + first.traffic;
      if saved {
        ThenAssociates(sent, first.traffic, SaveAll(records[k + 1..], inbox));
      } else {
        SaveStops(sent, first.traffic, inbox);
      }
    }

    /** PDM_vSave; false while an answer of the host is missing. */
    method SaveAllRecords() returns (complete: bool)
      requires Valid() && AllUsable()
      modifies this`inbox, this`traffic
      ensures var r := SaveAll(old(RecordsOf(list)), old(inbox));
              traffic == old(traffic) + r.traffic && inbox == r.rest && complete == r.done
    {
      ghost var ds, records, base := list, RecordsOf(list), traffic;
      ghost var whole := SaveAll(records, inbox);
      ghost var sent := [];
      var walk := head;
      ghost var k: nat := 0;
      ThenAssociates([], [], whole);
      assert records[0..] == records;
      assert Recordable(records);
      Facts();
      hide Valid, RecordsOf, Save, SaveAll, Then, Recordable, AllUsable;
      while walk != null
        invariant k <= |ds| && walk == At(ds, k)
        invariant traffic == base + sent && Then(sent, SaveAll(records[k..], inbox)) == whole
        decreases |ds| - k
      {
        assert walk == ds[k] && walk.next == At(ds, k + 1);
        var saved;
        saved, sent := SaveNext(walk, records, k, base, sent, whole);
        if !saved {
          return false;
        }
        walk := walk.next;
        k := k + 1;
      }
      SaveAllNothing(records, k, sent, inbox);
      return true;
    }

    /** What the list and its records are, position by position. */
    lemma Facts()
      requires Valid() && AllUsable()
      ensures head == At(list, 0)
      ensures forall i :: 0 <= i < |list| ==> list[i].next == At(list, i + 1) && list[i].Usable()
      ensures forall i :: 0 <= i < |list| ==>
        var d := list[i];
        d.data != null && d.size <= d.data.Length && RecordsOf(list)[i] == Record(d.userId, d.data[..d.size])
    {
      forall i | 0 <= i < |list|
        ensures RecordsOf(list)[i] == list[i].CurrentRecord()
      {
        RecordAt(list, i);
      }
    }

    // ---------- loading ----------

    /** bCheckPdmRecordsList */
    method IsListed(desc: Descriptor) returns (listed: bool)
      requires Valid()
      ensures listed == (desc in list)
    {
      var walk := head;
      ghost var k := 0;
      while walk != null
        invariant 0 <= k <= |list| && walk == At(list, k)
        invariant desc !in list[..k]
        decreases |list| - k
      {
        if walk == desc {
          return true;
        }
        walk := walk.next;
        k := k + 1;
      }
      assert list[..k] == list;
      return false;
    }

    /** Puts a descriptor at the head of the list unless it is there already. */
    method Enlist(desc: Descriptor)
      requires Valid()
      modifies this`head, this`list, desc`next
      ensures Valid()
      ensures list == if desc in old(list) then old(list) else [desc] + old(list)
    {
      var listed := IsListed(desc);
      if !listed {
        ghost var others := list;
        desc.next := head;
        head := desc;
        list := [desc] + others;
        forall i | 0 <= i < |list|
          ensures list[i].next == At(list, i + 1)
          ensures i > 0 ==> list[i] == others[i - 1] && list[i] != desc
        {
          if i > 0 {
            assert others[i - 1] in others;
            assert old(others[i - 1].next) == At(others, i);
          }
        }
      }
    }

    /** Copies the data of a block that arrived behind what has been loaded so far. */
    method TakeBlock(desc: Descriptor, offset: nat, r: Received) returns (done: bool, size: nat)
      requires desc.data != null && Complete(r.buffer[1..])
      requires offset + |ReadBlock(r.buffer[1..]).data| <= desc.data.Length
      modifies desc`state, desc.data
      ensures var b := ReadBlock(r.buffer[1..]);
              && size == |b.data| && done == (b.total == b.index)
              && desc.data[..] == old(desc.data[..offset]) + b.data + old(desc.data[offset + size..])
              && desc.state == if done then Recovered else old(desc.state)
    {
      ResponseFields(r);
      hide ReadBlock, ReadWord16, ReadWord32, Complete, DataLength;
      var total, index := ReadWord32(r.buffer[7..11]), ReadWord32(r.buffer[11..15]);
      size := ReadWord32(r.buffer[15..19]);
      CopyBlock(desc.data, offset, r.buffer[19..19 + size]);
      done := total == index;
      if done {
        desc.state := Recovered;
      }
    }

    /** One message taken while loading, and the answer to it. */
    method HandleResponse(desc: Descriptor, offset: nat, r: Received) returns (done: bool, size: nat)
      requires desc.data != null && offset <= desc.data.Length && FitsIn(desc.userId, r, desc.data.Length - offset)
      modifies desc`state, desc.data, this`traffic
      ensures traffic == old(traffic) + Acknowledge(r, filler)
      ensures offset + size <= desc.data.Length
      ensures Loader(desc.data[..offset + size], desc.state, done)
              == Take(Loader(old(desc.data[..offset]), old(desc.state), false), MeaningOf(desc.userId, r))
      ensures desc.data[offset + size..] == old(desc.data[offset + size..])
    {
      done, size := false, 0;
      if r.kind != LOAD_RESPONSE {
        return;
      }
      ResponseFields(r);
      hide ReadBlock, ReadWord16, Complete;
      var status := r.buffer[0];
      var id := ReadWord16(r.buffer[1..3]);
      if status != NO_RECORD && id == desc.userId {
        done, size := TakeBlock(desc, offset, r);
        CopiedBehind(old(desc.data[..]), offset, ReadBlock(r.buffer[1..]).data, desc.data[..]);
      }
      if status == NO_RECORD {
        done := true;
        desc.state := NotRecovered;
      }
      WriteMessage(Message(STATUS, [0, 0, Msb(LOAD_REQUEST), filler]));
    }

    static lemma CopiedBehind(before: seq<byte>, offset: nat, block: seq<byte>, after: seq<byte>)
      requires offset + |block| <= |before| && after == before[..offset] + block + before[offset + |block|..]
      ensures after[..offset + |block|] == before[..offset] + block
      ensures after[offset + |block|..] == before[offset + |block|..]
    {}

    /** The fields of a load response lie one byte further than those of a block. */
    static lemma ResponseFields(r: Received)
      ensures var b := ReadBlock(r.buffer[1..]);
              && b.id == ReadWord16(r.buffer[1..3]) && b.total == ReadWord32(r.buffer[7..11])
              && b.index == ReadWord32(r.buffer[11..15])
              && (Complete(r.buffer[1..]) ==>
                    var n := ReadWord32(r.buffer[15..19]); 19 + n <= |r.buffer| && b.data == r.buffer[19..19 + n])
    {
      var p := r.buffer[1..];
      hide ReadWord16, ReadWord32;
      assert p[..2] == r.buffer[1..3] && p[6..10] == r.buffer[7..11] && p[10..14] == r.buffer[11..15];
      assert p[14..18] == r.buffer[15..19];
      if Complete(p) {
        assert p[HEADER..HEADER + DataLength(p)] == r.buffer[19..19 + DataLength(p)];
      }
    }

    /** PDM_eLoadRecord; complete is false while the end of the record is missing. */
    method LoadRecord(desc: Descriptor?, id: u16, data: array?<byte>, size: u32)
      returns (status: Status, complete: bool)
      requires Valid()
      requires desc != null && data != null && size != 0 ==> size <= data.Length && AllFit(id, inbox, data.Length)
      modifies this`head, this`list, this`inbox, this`traffic, desc, data
      ensures Valid()
      ensures desc == null || data == null || size == 0 ==>
                status == InvalidParameter && complete && unchanged(this) && (desc != null ==> unchanged(desc))
                && (data != null ==> unchanged(data))
      ensures desc != null && data != null && size != 0 ==>
                && status == Ok
                && list == (if desc in old(list) then old(list) else [desc] + old(list))
                && desc.userId == id && desc.data == data && desc.size == size
                && var start := Loader([], NotRecovered, false);
                var r, l := LoadTraffic(start, id, old(inbox), filler), Load(start, id, old(inbox));
                && traffic == old(traffic) + [Sent(Message(LOAD_REQUEST, Word16(id)))] + r.traffic && inbox == r.rest
                && complete == l.done && desc.state == l.state
                && |l.copied| <= data.Length && data[..] == l.copied + old(data[|l.copied|..])
    {
      if desc == null || data == null || size == 0 {
        return InvalidParameter, true;
      }
      desc.userId := id;
      desc.data := data;
      desc.size := size;
      desc.state := NotRecovered;
      Enlist(desc);
      WriteMessage(Message(LOAD_REQUEST, Word16(id)));
      complete := ReceiveRecord(desc);
      return Ok, complete;
    }

    /** The loop of PDM_eLoadRecord. */
    method ReceiveRecord(desc: Descriptor) returns (complete: bool)
      requires desc.data != null && desc.state == NotRecovered && AllFit(desc.userId, inbox, desc.data.Length)
      modifies desc`state, desc.data, this`inbox, this`traffic
      ensures var start := Loader([], NotRecovered, false);
              var r := LoadTraffic(start, desc.userId, old(inbox), filler);
              var l := Load(start, desc.userId, old(inbox));
              && traffic == old(traffic) + r.traffic && inbox == r.rest
              && complete == l.done && desc.state == l.state
              && |l.copied| <= desc.data.Length && desc.data[..] == l.copied + old(desc.data[|l.copied|..])
    {
      hide Load, LoadTraffic, Take, Then, FitsIn, AllFit, Acknowledge;
      var offset: nat := 0;
      complete := false;
      ghost var start := Loader([], NotRecovered, false);
      ghost var id, pile := desc.userId, [];
      ThenAssociates([], [], LoadTraffic(start, id, inbox, filler));
      while !complete && inbox != []
        invariant desc.data == old(desc.data) && offset <= desc.data.Length
        invariant !complete ==> AllFit(id, inbox, desc.data.Length - offset)
        invariant traffic == old(traffic) + pile
        invariant desc.data[offset..] == old(desc.data[offset..])
        invariant var l := Loader(desc.data[..offset], desc.state, complete);
                  Load(l, id, inbox) == Load(start, id, old(inbox))
                  && Then(pile, LoadTraffic(l, id, inbox, filler)) == LoadTraffic(start, id, old(inbox), filler)
        decreases |inbox|
      {
        ghost var l := Loader(desc.data[..offset], desc.state, complete);
        ghost var waiting := inbox;
        ghost var room := desc.data.Length - offset;
        var r := ReadMessage();
        assert waiting[0] == r && waiting[1..] == inbox;
        LoadUnfolds(l, id, waiting, filler, pile);
        FitUnfolds(l, id, waiting, room);
        var done, size := HandleResponse(desc, offset, r);
        complete := done;
        offset := offset + size;
        pile := pile + ([Got(r)] + Acknowledge(r, filler));
      }
      LoadEnds(Loader(desc.data[..offset], desc.state, complete), id, inbox, filler, pile);
    }

    static method CopyBlock(target: array<byte>, offset: nat, block: seq<byte>)
      requires offset + |block| <= target.Length
      modifies target
      ensures target[..] == old(target[..offset]) + block + old(target[offset + |block|..])
    {
      var i := 0;
      while i < |block|
        invariant 0 <= i <= |block|
        invariant target[offset..offset + i] == block[..i]
        invariant target[..offset] == old(target[..offset])
        invariant target[offset + i..] == old(target[offset + i..])
      {
        target[offset + i] := block[i];
        i := i + 1;
      }
      assert block[..i] == block;
      Reassemble(target, offset, i);
    }

    static lemma Reassemble(target: array<byte>, offset: nat, n: nat)
      requires offset + n <= target.Length
      ensures target[..] == target[..offset] + target[offset..offset + n] + target[offset + n..]
    {}
  }
}
