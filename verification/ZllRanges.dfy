/**
 * The address and group ranges of a touchlink node: what it gives to a target when it starts a
 * network or lets the target join, in 16-bit arithmetic, and what the target adopts.
 */
module ZllRanges {
  import opened Bytes
  import opened Division

  const GROUPS_REQUIRED: nat := 16

  /** sZllState; a low address of zero means that the node owns no addresses. */
  datatype Zll = Zll(factoryNew: bool, channel: byte, myAddr: u16,
                     addrLow: u16, addrHigh: u16, groupLow: u16, groupHigh: u16)

  /** What a start or join request assigns to its target; zero where nothing is assigned. */
  datatype Grant = Grant(addr: u16, addrBegin: u16, addrEnd: u16, groupBegin: u16, groupEnd: u16,
                         freeGroupBegin: u16, freeGroupEnd: u16)

  function Add(x: u16, n: int): u16 {
    (x + n) % 65536
  }

  /** The first identifier that a split gives away. */
  function Middle(low: u16, high: u16): u16 {
    (low + high - 1) / 2 % 65536
  }

  /** vSendStartRequest: the initiator takes the lowest address and gives the target the next one. */
  function StartRequest(z: Zll): (Zll, Grant) {
    (z.(groupLow := Add(z.groupLow, GROUPS_REQUIRED), myAddr := z.addrLow, addrLow := Add(z.addrLow, 2)),
     Grant(Add(z.addrLow, 1), 0, 0, 0, 0, 0, 0))
  }

  /** The part of a join request that depends on the address range. */
  function AssignRanges(z: Zll, assign: bool, random: u16): (Zll, Grant) {
    if z.addrLow == 0 then (z, Grant(random, 0, 0, 0, 0, 0, 0))
    else
      var low := Add(z.addrLow, 1);
      if !assign then (z.(addrLow := low), Grant(z.addrLow, 0, 0, 0, 0, 0, 0))
      else
        var begin, groupBegin := Middle(low, z.addrHigh), Middle(z.groupLow, z.groupHigh);
        (z.(addrLow := low, addrHigh := Add(begin, -1), groupHigh := Add(groupBegin, -1)),
         Grant(z.addrLow, begin, z.addrHigh, 0, 0, groupBegin, z.groupHigh))
  }

  /** vSendRouterJoinRequest and vSendEndDeviceJoinRequest, for a target that asks for some group ids. */
  function JoinRequest(z: Zll, assign: bool, groupCount: byte, random: u16): (Zll, Grant) {
    var (z1, g) := AssignRanges(z, assign, random);
    if groupCount == 0 then (z1, g)
    else (z1.(groupLow := Add(z1.groupLow, groupCount)),
          g.(groupBegin := z1.groupLow, groupEnd := Add(z1.groupLow, groupCount - 1)))
  }

  /** The ranges that vHandleRouterJoinRequest and the start of a router take over. */
  function Adopt(z: Zll, g: Grant): Zll {
    z.(myAddr := g.addr, addrLow := g.addrBegin, addrHigh := g.addrEnd,
       groupLow := g.freeGroupBegin, groupHigh := g.freeGroupEnd)
  }

  // ---------- one range-assigning join ----------

  /** Number of identifiers from low to high. */
  function Count(low: int, high: int): int {
    high - low + 1
  }

  ghost predicate Within(low: int, high: int, x: int) {
    low <= x <= high
  }

  /** The assigned address, the kept part and the given part are a partition of the old range. */
  ghost predicate Partitions(z: Zll, z': Zll, g: Grant) {
    && (forall x :: Within(z.addrLow, z.addrHigh, x) <==>
                    x == g.addr || Within(z'.addrLow, z'.addrHigh, x) || Within(g.addrBegin, g.addrEnd, x))
    && !Within(z'.addrLow, z'.addrHigh, g.addr) && !Within(g.addrBegin, g.addrEnd, g.addr)
    && (forall x :: Within(z'.addrLow, z'.addrHigh, x) ==> !Within(g.addrBegin, g.addrEnd, x))
  }

  /** A join that assigns a range partitions the old one exactly when three addresses were free. */
  lemma JoinPartitionsIff(z: Zll, groupCount: byte, random: u16)
    requires z.addrLow != 0
    ensures var (z', g) := JoinRequest(z, true, groupCount, random);
            Partitions(z, z', g) <==> Count(z.addrLow, z.addrHigh) >= 3
  {
    var (z', g) := JoinRequest(z, true, groupCount, random);
    var n := Count(z.addrLow, z.addrHigh);
    assert g.addr == z.addrLow && g.addrEnd == z.addrHigh && z'.addrLow == Add(z.addrLow, 1);
    assert g.addrBegin == Middle(z'.addrLow, z.addrHigh) && z'.addrHigh == Add(g.addrBegin, -1);
    if n >= 1 {
      EvenSplit(z.addrLow, z.addrHigh);
    } else {
      assert !Within(z.addrLow, z.addrHigh, g.addr);
    }
  }

  /** The arithmetic of one split, free of wrap-around when the range is not empty. */
  lemma EvenSplit(low: u16, high: u16)
    requires 0 < low <= high
    ensures Middle(Add(low, 1), high) == (if low < 65535 then (low + high) / 2 else 32767)
    ensures var begin := Middle(Add(low, 1), high);
            if high - low >= 2 then low + 1 <= begin <= high && Add(begin, -1) == begin - 1 && Add(low, 1) == low + 1
            else begin <= low <= high
  {}

  /** The node after k range-assigning joins. */
  function AfterJoins(z: Zll, k: nat): Zll {
    if k == 0 then z else JoinRequest(AfterJoins(z, k - 1), true, 0, 0).0
  }

  /** All of the first k range-assigning joins find the three addresses they need. */
  ghost predicate CanServe(z: Zll, k: nat) {
    forall j :: 0 <= j < k ==> Count(AfterJoins(z, j).addrLow, AfterJoins(z, j).addrHigh) >= 3
  }

  lemma OneJoinHalves(z: Zll)
    requires z.addrLow != 0 && Count(z.addrLow, z.addrHigh) >= 3
    ensures var z' := AfterJoins(z, 1);
            z' == JoinRequest(z, true, 0, 0).0 && z'.addrLow != 0
            && Count(z'.addrLow, z'.addrHigh) + 3 == (Count(z.addrLow, z.addrHigh) + 3) / 2
  {
    assert AfterJoins(z, 0) == z;
    EvenSplit(z.addrLow, z.addrHigh);
    hide Middle;
  }

  lemma PowPositive(k: nat)
    ensures Pow2(k) > 0
  {
    if k > 0 {
      PowPositive(k - 1);
    }
  }

  lemma HalvingsCompose(n: nat, k: nat)
    ensures Pow2(k) > 0 && Pow2(k + 1) > 0 && n / Pow2(k) / 2 == n / Pow2(k + 1)
  {
    PowPositive(k);
    var p := Pow2(k);
    var h := n / p / 2;
    QuotientBounds(n, p, 2 * h);
    QuotientBounds(n, p, 2 * h + 2);
    QuotientBounds(n, 2 * p, h);
    QuotientBounds(n, 2 * p, h + 1);
    assert 2 * h * p == h * (2 * p);
    assert (2 * h + 2) * p == (h + 1) * (2 * p);
  }

  /** After k joins from size S the kept size is floor((S+3)/2^k) - 3. */
  lemma {:induction false} KeptSize(z: Zll, k: nat)
    requires z.addrLow != 0 && z.addrLow <= z.addrHigh + 1 && CanServe(z, k)
    ensures AfterJoins(z, k).addrLow != 0 && Pow2(k) > 0
    ensures var s := Count(z.addrLow, z.addrHigh);
            Count(AfterJoins(z, k).addrLow, AfterJoins(z, k).addrHigh) == (s + 3) / Pow2(k) - 3
  {
    var s := Count(z.addrLow, z.addrHigh);
    if k > 0 {
      KeptSize(z, k - 1);
      var prev := AfterJoins(z, k - 1);
      assert Count(prev.addrLow, prev.addrHigh) >= 3;
      OneJoinHalves(prev);
      assert AfterJoins(prev, 1) == AfterJoins(z, k);
      HalvingsCompose(s + 3, k - 1);
    }
  }

  /** A node with S free addresses can serve exactly the k joins with 3 * 2^k <= S + 3. */
  lemma {:induction false} ServesExactly(z: Zll, k: nat)
    requires z.addrLow != 0 && z.addrLow <= z.addrHigh + 1
    ensures CanServe(z, k) <==> 3 * Pow2(k) <= Count(z.addrLow, z.addrHigh) + 3
  {
    var s := Count(z.addrLow, z.addrHigh);
    PowPositive(k);
    if k > 0 {
      ServesExactly(z, k - 1);
      if CanServe(z, k - 1) {
        KeptSize(z, k - 1);
        var p := Pow2(k - 1);
        assert CanServe(z, k) <==> (s + 3) / p - 3 >= 3;
        QuotientBounds(s + 3, p, 6);
      } else {
        assert !CanServe(z, k);
      }
    }
  }
}
