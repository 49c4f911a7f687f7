/**
 * Records of the persistent data manager on their way to the host and back: the blocks of a
 * record, their bytes in a message, and a host that keeps them.
 */
module PdmBlocks {
  import opened Bytes
  import opened LinkProtocol

  const BLOCK: nat := 128
  const SAVE: u16 := 0x0200
  const SAVE_RESPONSE: u16 := 0x8200
  const LOAD_REQUEST: u16 := 0x0201
  const LOAD_RESPONSE: u16 := 0x8201
  const STATUS: u16 := 0x8000

  /** Status of a load response; anything else means that the host has the record. */
  const NO_RECORD: byte := 0
  const RECOVERED: byte := 2

  // ---------- blocks ----------

  /** Block `index` of `total`, counted from one, of a record of `size` bytes. */
  datatype Block = Block(id: u16, size: u32, total: u32, index: u32, data: seq<byte>)

  const HEADER: nat := 18

  ghost predicate Sized(b: Block) {
    |b.data| <= BLOCK
  }

  ghost predicate AllSized(bs: seq<Block>) {
    forall b <- bs :: Sized(b)
  }

  function Payload(b: Block): (p: seq<byte>)
    requires Sized(b)
    ensures |p| == HEADER + |b.data|
  {
    Word16(b.id) + Word32(b.size) + Word32(b.total) + Word32(b.index) + Word32(|b.data|) + b.data
  }

  /** The length of a block's data, as its header in a buffer says. */
  function DataLength(p: seq<byte>): u32
    requires |p| >= HEADER
  {
    ReadWord32(p[14..18])
  }

  /** The buffer holds all of the data that its header announces. */
  predicate Complete(p: seq<byte>)
    requires |p| >= HEADER
  {
    HEADER + DataLength(p) <= |p|
  }

  /** Reads a block from the start of a buffer, no further than its end. */
  function ReadBlock(p: seq<byte>): Block
    requires |p| >= HEADER
  {
    Block(ReadWord16(p[..2]), ReadWord32(p[2..6]), ReadWord32(p[6..10]), ReadWord32(p[10..14]),
          if Complete(p) then p[HEADER..HEADER + DataLength(p)] else p[HEADER..])
  }

  lemma Fields(a: seq<byte>, b: seq<byte>, c: seq<byte>, d: seq<byte>, e: seq<byte>, f: seq<byte>)
    requires |a| == 2 && |b| == 4 && |c| == 4 && |d| == 4 && |e| == 4
    ensures var p := a + b + c + d + e + f;
            && |p| == HEADER + |f| && p[..2] == a && p[2..6] == b && p[6..10] == c && p[10..14] == d && p[14..18] == e
            && p[18..] == f
  {}

  /** Where the header of a block holds its fields, by the weight of each byte. */
  lemma HeaderLayout(b: Block)
    requires Sized(b)
    ensures var p := Payload(b);
            && |p| == 18 + |b.data| && p[18..] == b.data
            && Number(p[0], p[1]) == b.id && Number(p[2], p[3]) * 65536 + Number(p[4], p[5]) == b.size
            && Number(p[6], p[7]) * 65536 + Number(p[8], p[9]) == b.total
            && Number(p[10], p[11]) * 65536 + Number(p[12], p[13]) == b.index
            && Number(p[14], p[15]) * 65536 + Number(p[16], p[17]) == |b.data|
  {
    hide Word32, Word16;
    WordIsNumber(b.id, 0);
    Fields(Word16(b.id), Word32(b.size), Word32(b.total), Word32(b.index), Word32(|b.data|), b.data);
    WordIsNumber(0, b.size);
    WordIsNumber(0, b.total);
    WordIsNumber(0, b.index);
    WordIsNumber(0, |b.data|);
  }

  /** What is written is read back, whatever follows it in the buffer. */
  lemma PayloadRoundTrip(b: Block, rest: seq<byte>)
    requires Sized(b)
    ensures var p := Payload(b) + rest;
            Complete(p) && ReadBlock(p) == b
  {
    hide Word16, Word32, ReadWord16, ReadWord32;
    var p := Payload(b) + rest;
    var n := |b.data|;
    assert p == Word16(b.id) + Word32(b.size) + Word32(b.total) + Word32(b.index) + Word32(n) + (b.data + rest) by {
      var w := Word16(b.id) + Word32(b.size) + Word32(b.total) + Word32(b.index) + Word32(n);
      assert (w + b.data) + rest == w + (b.data + rest);
    }
    Fields(Word16(b.id), Word32(b.size), Word32(b.total), Word32(b.index), Word32(n), b.data + rest);
    hide Payload;
    WordsRoundTrip(b.id, b.size);
    WordsRoundTrip(0, b.total);
    WordsRoundTrip(0, b.index);
    WordsRoundTrip(0, n);
    assert p[18..18 + n] == p[18..][..n] == (b.data + rest)[..n] == b.data;
  }

  /** The number of blocks, rounded up. */
  function BlockCount(size: nat): nat {
    size / BLOCK + if size % BLOCK > 0 then 1 else 0
  }

  /** The end of the first k blocks in a record. */
  function Cut(k: nat, size: nat): nat {
    if k * BLOCK < size then k * BLOCK else size
  }

  lemma CutBounds(k: nat, size: nat)
    requires k < BlockCount(size)
    ensures Cut(k, size) < Cut(k + 1, size) <= Cut(k, size) + BLOCK && Cut(k, size) == k * BLOCK
    ensures Cut(k + 1, size) == size <==> k + 1 == BlockCount(size)
    ensures Cut(k + 1, size) < size ==> Cut(k + 1, size) == Cut(k, size) + BLOCK
  {}

  ghost predicate Storable(data: seq<byte>) {
    |data| < 0x1_0000_0000
  }

  /** Block k of a record, k counted from zero. */
  function BlockAt(id: u16, data: seq<byte>, k: nat): Block
    requires Storable(data) && k < BlockCount(|data|)
  {
    Block(id, |data|, BlockCount(|data|), k + 1, data[Cut(k, |data|)..Cut(k + 1, |data|)])
  }

  /** The blocks of a record from block k on. */
  function BlocksFrom(id: u16, data: seq<byte>, k: nat): (bs: seq<Block>)
    requires Storable(data) && k <= BlockCount(|data|)
    ensures |bs| == BlockCount(|data|) - k && AllSized(bs)
    decreases BlockCount(|data|) - k
  {
    if k == BlockCount(|data|) then []
    else
      CutBounds(k, |data|);
      [BlockAt(id, data, k)] + BlocksFrom(id, data, k + 1)
  }

  function Blocks(id: u16, data: seq<byte>): (bs: seq<Block>)
    requires Storable(data)
    ensures AllSized(bs)
  {
    BlocksFrom(id, data, 0)
  }

  function Concat(bs: seq<Block>): seq<byte> {
    if bs == [] then [] else bs[0].data + Concat(bs[1..])
  }

  /** Every block has 1 to 128 bytes, every one but the last exactly 128. */
  lemma BlockSizes(id: u16, data: seq<byte>, k: nat)
    requires Storable(data) && k < BlockCount(|data|)
    ensures var n := |BlockAt(id, data, k).data|;
            0 < n <= 128 && (k + 1 < BlockCount(|data|) ==> n == 128)
    ensures |Blocks(id, data)| == (|data| + 127) / 128
  {
    CutBounds(k, |data|);
  }

  lemma {:induction false} BlocksFromConcat(id: u16, data: seq<byte>, k: nat)
    requires Storable(data) && k <= BlockCount(|data|)
    ensures Concat(BlocksFrom(id, data, k)) == data[Cut(k, |data|)..]
    decreases BlockCount(|data|) - k
  {
    if k < BlockCount(|data|) {
      BlocksFromConcat(id, data, k + 1);
      CutBounds(k, |data|);
      var bs := BlocksFrom(id, data, k);
      assert bs[1..] == BlocksFrom(id, data, k + 1);
      var a, b := Cut(k, |data|), Cut(k + 1, |data|);
      hide *;
      assert data[a..] == data[a..b] + data[b..];
    }
  }

  /** The payloads of the blocks concatenate to the record. */
  lemma BlocksConcat(id: u16, data: seq<byte>)
    requires Storable(data)
    ensures Concat(Blocks(id, data)) == data
  {
    BlocksFromConcat(id, data, 0);
  }

  // ---------- the host ----------

  type Store = map<u16, seq<byte>>

  function SaveMessage(b: Block): Message
    requires Sized(b)
  {
    Message(SAVE, Payload(b))
  }

  /** The first block of a record replaces what the host has, any other is appended. */
  function StoreBlock(host: Store, b: Block): Store {
    host[b.id := (if b.index == 1 || b.id !in host then [] else host[b.id]) + b.data]
  }

  /** The host takes the messages that carry a block, and no others. */
  function Serve(host: Store, m: Message): Store {
    if m.kind == SAVE && |m.payload| >= HEADER && Complete(m.payload)
    then StoreBlock(host, ReadBlock(m.payload))
    else host
  }

  function ServeAll(host: Store, ms: seq<Message>): Store
    decreases |ms|
  {
    if ms == [] then host else ServeAll(Serve(host, ms[0]), ms[1..])
  }

  function SaveMessages(bs: seq<Block>): (ms: seq<Message>)
    requires AllSized(bs)
    ensures |ms| == |bs|
  {
    if bs == [] then [] else [SaveMessage(bs[0])] + SaveMessages(bs[1..])
  }

  lemma ServeTakesBlock(host: Store, b: Block)
    requires Sized(b)
    ensures Serve(host, SaveMessage(b)) == StoreBlock(host, b)
  {
    PayloadRoundTrip(b, []);
    assert Payload(b) + [] == Payload(b);
    hide *;
    hide Payload, ReadBlock, DataLength, StoreBlock;
  }

  /** One block extends the stored prefix of the record. */
  lemma StoresOne(host: Store, id: u16, data: seq<byte>, k: nat)
    requires Storable(data) && k < BlockCount(|data|)
    requires k > 0 ==> id in host && host[id] == data[..Cut(k, |data|)]
    ensures StoreBlock(host, BlockAt(id, data, k)) == host[id := data[..Cut(k + 1, |data|)]]
  {
    CutBounds(k, |data|);
    var a, b := Cut(k, |data|), Cut(k + 1, |data|);
    assert data[..a] + data[a..b] == data[..b];
    hide BlockCount, Cut;
  }

  lemma ServeNext(host: Store, bs: seq<Block>)
    requires AllSized(bs) && bs != []
    ensures ServeAll(host, SaveMessages(bs)) == ServeAll(StoreBlock(host, bs[0]), SaveMessages(bs[1..]))
  {
    hide Serve, SaveMessage, StoreBlock;
    ServeTakesBlock(host, bs[0]);
    assert SaveMessages(bs)[1..] == SaveMessages(bs[1..]);
  }

  lemma StoresLast(host: Store, id: u16, data: seq<byte>, k: nat)
    requires Storable(data) && data != [] && k == BlockCount(|data|)
    requires id in host && host[id] == data[..Cut(k, |data|)]
    ensures ServeAll(host, SaveMessages(BlocksFrom(id, data, k))) == host[id := data]
  {
    assert data[..Cut(k, |data|)] == data && host[id := data] == host;
  }

  lemma BlocksFromNext(id: u16, data: seq<byte>, k: nat)
    requires Storable(data) && k < BlockCount(|data|)
    ensures BlocksFrom(id, data, k) == [BlockAt(id, data, k)] + BlocksFrom(id, data, k + 1)
    ensures BlocksFrom(id, data, k)[1..] == BlocksFrom(id, data, k + 1)
  {}

  lemma {:induction false} HostStoresFrom(host: Store, id: u16, data: seq<byte>, k: nat)
    requires Storable(data) && k <= BlockCount(|data|)
    requires k > 0 ==> id in host && host[id] == data[..Cut(k, |data|)]
    requires data != []
    ensures ServeAll(host, SaveMessages(BlocksFrom(id, data, k))) == host[id := data]
    decreases BlockCount(|data|) - k
  {
    assert BlockCount(|data|) > 0;
    hide *;
    if k == BlockCount(|data|) {
      StoresLast(host, id, data, k);
    } else {
      BlocksFromNext(id, data, k);
      ServeNext(host, BlocksFrom(id, data, k));
      StoresOne(host, id, data, k);
      HostStoresFrom(host[id := data[..Cut(k + 1, |data|)]], id, data, k + 1);
      Overwritten(host, id, data[..Cut(k + 1, |data|)], data);
    }
  }

  lemma Overwritten(host: Store, id: u16, a: seq<byte>, b: seq<byte>)
    ensures host[id := a][id := b] == host[id := b]
  {}

  /** The host that gets the blocks of a record has that record, and what it had before under other ids. */
  lemma HostStores(host: Store, id: u16, data: seq<byte>)
    requires Storable(data) && data != []
    ensures ServeAll(host, SaveMessages(Blocks(id, data))) == host[id := data]
  {
    HostStoresFrom(host, id, data, 0);
  }

  // ---------- the host's answers ----------

  function LoadResponse(status: byte, b: Block): Message
    requires Sized(b)
  {
    Message(LOAD_RESPONSE, [status] + Payload(b))
  }

  function LoadResponses(bs: seq<Block>): (ms: seq<Message>)
    requires AllSized(bs)
    ensures |ms| == |bs|
  {
    if bs == [] then [] else [LoadResponse(RECOVERED, bs[0])] + LoadResponses(bs[1..])
  }

  /** The answer to a load request: the record block by block, or that there is none. */
  function Answers(host: Store, id: u16): seq<Message>
    requires id in host ==> Storable(host[id])
  {
    if id in host then LoadResponses(Blocks(id, host[id]))
    else [LoadResponse(NO_RECORD, Block(id, 0, 0, 0, []))]
  }
}
