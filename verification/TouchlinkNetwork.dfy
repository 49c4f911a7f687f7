/**
 * A network grown by touchlink from one founder. Start and join requests travel as letters, each
 * adopted by one device or never; a device that adopts a grant takes its ranges in place of its
 * own, and leaves the network if the grant is one of another network. Addresses and group ids are
 * accounted for in two ledgers, each under its own condition.
 */
module TouchlinkNetwork {
  import opened Bytes
  import opened ZllRanges
  import opened RangeLedger

  /** A device that has not adopted a grant of this network last owns nothing of it, whatever its own ranges are. */
  datatype Device = Outside | Inside(zll: Zll)

  datatype Letter = Flying(grant: Grant) | Opened

  /** Devices, letters in the order they were sent, and the addresses and group ids handed out from ranges. */
  datatype Net = Net(devices: seq<Device>, air: seq<Letter>, addrs: seq<int>, groups: seq<int>)

  datatype Step =
    | Start(device: nat)
    | JoinTarget(device: nat, assign: bool, groupCount: byte, random: u16)
    | Deliver(letter: nat, device: nat)
    | Leave(device: nat)

  predicate IsRequest(step: Step) {
    step.Start? || step.JoinTarget?
  }

  /** Zero is no group id. */
  function GroupRange(low: int, high: int): Range {
    Range(if low == 0 then 1 else low, high)
  }

  function DeviceAddrs(d: Device): Range {
    match d
    case Outside => NOTHING
    case Inside(z) => Range(z.addrLow, z.addrHigh)
  }

  function DeviceGroups(d: Device): Range {
    match d
    case Outside => NOTHING
    case Inside(z) => GroupRange(z.groupLow, z.groupHigh)
  }

  function LetterAddrs(l: Letter): Range {
    match l
    case Opened => NOTHING
    case Flying(g) => Range(g.addrBegin, g.addrEnd)
  }

  function LetterGroups(l: Letter): Range {
    match l
    case Opened => NOTHING
    case Flying(g) => GroupRange(g.freeGroupBegin, g.freeGroupEnd)
  }

  function AddrLedger(net: Net): Ledger {
    Ledger(seq(|net.devices|, i requires 0 <= i < |net.devices| => DeviceAddrs(net.devices[i]))
           + seq(|net.air|, k requires 0 <= k < |net.air| => LetterAddrs(net.air[k])), net.addrs)
  }

  function GroupLedger(net: Net): Ledger {
    Ledger(seq(|net.devices|, i requires 0 <= i < |net.devices| => DeviceGroups(net.devices[i]))
           + seq(|net.air|, k requires 0 <= k < |net.air| => LetterGroups(net.air[k])), net.groups)
  }

  // ---------- steps ----------

  /** Any device of the network may send, and any device at all may adopt what is in the air, here or elsewhere. */
  predicate Possible(net: Net, step: Step) {
    && step.device < |net.devices|
    && (step.Deliver? ==> step.letter < |net.air| && net.air[step.letter].Flying?)
    && (IsRequest(step) ==> net.devices[step.device].Inside?)
  }

  /** The group ids that a grant hands to a target that asked for some: from its begin up to its end, in 16 bits. */
  function GrantedGroups(g: Grant, asked: bool): seq<int> {
    if asked then seq(Add(g.groupEnd, 1 - g.groupBegin), k => Add(g.groupBegin, k)) else []
  }

  const BLANK := Zll(false, 0, 0, 0, 0, 0, 0)

  function Apply(net: Net, step: Step): Net
    requires Possible(net, step)
  {
    match step
    case Start(i) =>
      var z := net.devices[i].zll;
      var (z', g) := StartRequest(z);
      Net(net.devices[i := Inside(z')], net.air + [Flying(g)], net.addrs + [z'.myAddr, g.addr],
          net.groups + seq(GROUPS_REQUIRED, k => z.groupLow + k))
    case JoinTarget(i, assign, groupCount, random) =>
      var z := net.devices[i].zll;
      var (z', g) := JoinRequest(z, assign, groupCount, random);
      Net(net.devices[i := Inside(z')], net.air + [Flying(g)],
          if z.addrLow == 0 then net.addrs else net.addrs + [g.addr],
          net.groups + GrantedGroups(g, groupCount > 0))
    case Deliver(k, i) =>
      net.(devices := net.devices[i := Inside(Adopt(BLANK, net.air[k].grant))], air := net.air[k := Opened])
    case Leave(i) =>
      net.(devices := net.devices[i := Outside])
  }

  predicate PossibleRun(net: Net, steps: seq<Step>)
    decreases |steps|
  {
    steps == [] || (Possible(net, steps[0]) && PossibleRun(Apply(net, steps[0]), steps[1..]))
  }

  function Run(net: Net, steps: seq<Step>): Net
    requires PossibleRun(net, steps)
    decreases |steps|
  {
    if steps == [] then net else Run(Apply(net, steps[0]), steps[1..])
  }

  lemma {:induction false} RunConcat(net: Net, a: seq<Step>, b: seq<Step>)
    requires PossibleRun(net, a) && PossibleRun(Run(net, a), b)
    ensures PossibleRun(net, a + b) && Run(net, a + b) == Run(Run(net, a), b)
    decreases |a|
  {
    hide Possible, Apply;
    if a == [] {
      assert a + b == b;
    } else {
      assert (a + b)[1..] == a[1..] + b;
      RunConcat(Apply(net, a[0]), a[1..], b);
    }
  }

  /** A founder with its own address and all that there is to give, and any number of devices outside. */
  function Founder(own: u16, addrs: Range, groups: Range, outside: nat): Net
    requires 0 < addrs.low <= addrs.high < 65535 && 0 < groups.low <= groups.high < 65535
  {
    Net([Inside(Zll(false, 0, own, addrs.low, addrs.high, groups.low, groups.high))]
        + seq(outside, _ => Outside), [], [], [])
  }

  // ---------- what the code does not check ----------

  /** The request finds the addresses that it gives away. */
  predicate AddrEnough(z: Zll, step: Step) {
    match step
    case Start(_) => z.addrLow != 0 && Count(z.addrLow, z.addrHigh) >= 2
    case JoinTarget(_, assign, _, _) => z.addrLow != 0 ==> Count(z.addrLow, z.addrHigh) >= if assign then 3 else 1
    case _ => true
  }

  /** A join splits the group ids of a node that owns addresses, for a target that can assign them. */
  predicate SplitsGroups(z: Zll, assign: bool) {
    z.addrLow != 0 && assign
  }

  /** The group ids that the requesting node keeps before it gives any to its target. */
  function KeptGroups(z: Zll, assign: bool): Range {
    if SplitsGroups(z, assign) then Range(z.groupLow, (z.groupLow + z.groupHigh - 1) / 2 - 1)
    else Range(z.groupLow, z.groupHigh)
  }

  /** The request finds the group ids that it gives away. */
  predicate GroupEnough(z: Zll, step: Step) {
    match step
    case Start(_) => Size(Range(z.groupLow, z.groupHigh)) >= GROUPS_REQUIRED
    case JoinTarget(_, assign, groupCount, _) =>
      && (SplitsGroups(z, assign) ==> z.groupLow != 0 && Count(z.groupLow, z.groupHigh) >= 2)
      && (groupCount > 0 ==> Size(KeptGroups(z, assign)) >= groupCount)
    case _ => true
  }

  predicate AddrMet(net: Net, step: Step)
    requires Possible(net, step)
  {
    !IsRequest(step) || AddrEnough(net.devices[step.device].zll, step)
  }

  predicate GroupMet(net: Net, step: Step)
    requires Possible(net, step)
  {
    !IsRequest(step) || GroupEnough(net.devices[step.device].zll, step)
  }

  predicate AllAddrMet(net: Net, steps: seq<Step>)
    requires PossibleRun(net, steps)
    decreases |steps|
  {
    steps == [] || (AddrMet(net, steps[0]) && AllAddrMet(Apply(net, steps[0]), steps[1..]))
  }

  predicate AllGroupMet(net: Net, steps: seq<Step>)
    requires PossibleRun(net, steps)
    decreases |steps|
  {
    steps == [] || (GroupMet(net, steps[0]) && AllGroupMet(Apply(net, steps[0]), steps[1..]))
  }

  /** No device that owns addresses adopts a grant in place of them, of this network or another. */
  predicate NoAddrOwnerAdopts(net: Net, steps: seq<Step>)
    requires PossibleRun(net, steps)
    decreases |steps|
  {
    steps == [] ||
    (&& (!IsRequest(steps[0]) ==> Size(DeviceAddrs(net.devices[steps[0].device])) <= 0)
     && NoAddrOwnerAdopts(Apply(net, steps[0]), steps[1..]))
  }

  /** No device that owns group ids adopts a grant in place of them, of this network or another. */
  predicate NoGroupOwnerAdopts(net: Net, steps: seq<Step>)
    requires PossibleRun(net, steps)
    decreases |steps|
  {
    steps == [] ||
    (&& (!IsRequest(steps[0]) ==> Size(DeviceGroups(net.devices[steps[0].device])) <= 0)
     && NoGroupOwnerAdopts(Apply(net, steps[0]), steps[1..]))
  }

  // ---------- shape of the ranges ----------

  /** A range is absent, or ends below the 16-bit limit and is at worst just used up. */
  predicate Proper(low: int, high: int) {
    if low == 0 then high == 0 else 0 < low <= high + 1 && high < 65535
  }

  predicate ProperAddrs(net: Net) {
    && (forall d <- net.devices :: d.Inside? ==> Proper(d.zll.addrLow, d.zll.addrHigh))
    && (forall l <- net.air :: l.Flying? ==> Proper(l.grant.addrBegin, l.grant.addrEnd))
  }

  predicate ProperGroups(net: Net) {
    && (forall d <- net.devices :: d.Inside? ==> Proper(d.zll.groupLow, d.zll.groupHigh))
    && (forall l <- net.air :: l.Flying? ==> Proper(l.grant.freeGroupBegin, l.grant.freeGroupEnd))
  }

  lemma LedgersOfRequest(net: Net, i: nat, z': Zll, g: Grant, addrs: seq<int>, groups: seq<int>)
    requires i < |net.devices|
    ensures var net' := Net(net.devices[i := Inside(z')], net.air + [Flying(g)], addrs, groups);
            && AddrLedger(net').free
               == AddrLedger(net).free[i := Range(z'.addrLow, z'.addrHigh)] + [Range(g.addrBegin, g.addrEnd)]
            && GroupLedger(net').free
               == GroupLedger(net).free[i := GroupRange(z'.groupLow, z'.groupHigh)]
                  + [GroupRange(g.freeGroupBegin, g.freeGroupEnd)]
  {}

  lemma DeliveryMoves(net: Net, k: nat, i: nat)
    requires Possible(net, Deliver(k, i))
    ensures var net' := Apply(net, Deliver(k, i)); var from := |net.devices| + k;
            && AddrLedger(net') == Move(AddrLedger(net), from, i)
            && GroupLedger(net') == Move(GroupLedger(net), from, i)
  {
    var net' := Apply(net, Deliver(k, i));
    assert AddrLedger(net').free == Move(AddrLedger(net), |net.devices| + k, i).free;
    assert GroupLedger(net').free == Move(GroupLedger(net), |net.devices| + k, i).free;
  }

  lemma LeavingDrops(net: Net, i: nat)
    requires Possible(net, Leave(i))
    ensures var net' := Apply(net, Leave(i));
            && AddrLedger(net') == Drop(AddrLedger(net), i) && GroupLedger(net') == Drop(GroupLedger(net), i)
  {
    var net' := Apply(net, Leave(i));
    assert AddrLedger(net').free == Drop(AddrLedger(net), i).free;
    assert GroupLedger(net').free == Drop(GroupLedger(net), i).free;
  }

  // ---------- the values of one request ----------

  lemma JoinAddrs(z: Zll, assign: bool, groupCount: byte, random: u16)
    ensures var (z', g) := JoinRequest(z, assign, groupCount, random);
            if z.addrLow == 0 then z'.addrLow == 0 && z'.addrHigh == z.addrHigh && g.addrBegin == g.addrEnd == 0
            else
              && g.addr == z.addrLow && z'.addrLow == Add(z.addrLow, 1)
              && (if assign then
                    g.addrBegin == Middle(Add(z.addrLow, 1), z.addrHigh) && g.addrEnd == z.addrHigh
                    && z'.addrHigh == Add(g.addrBegin, -1)
                  else z'.addrHigh == z.addrHigh && g.addrBegin == g.addrEnd == 0)
  {}

  lemma JoinGroups(z: Zll, assign: bool, groupCount: byte, random: u16)
    ensures var (z', g) := JoinRequest(z, assign, groupCount, random);
            && (if SplitsGroups(z, assign) then
                  g.freeGroupBegin == Middle(z.groupLow, z.groupHigh) && g.freeGroupEnd == z.groupHigh
                  && z'.groupHigh == Add(g.freeGroupBegin, -1)
                else z'.groupHigh == z.groupHigh && g.freeGroupBegin == g.freeGroupEnd == 0)
            && z'.groupLow == Add(z.groupLow, groupCount) && (groupCount > 0 ==> g.groupBegin == z.groupLow)
  {}

  /**
   * Short of a wrap-around the grant spans the ids asked for and ends right below the first one that the sender
   * has left; a target that asks for none gets none.
   */
  lemma GrantEndsBelowRest(z: Zll, assign: bool, groupCount: byte, random: u16)
    ensures var (z', g) := JoinRequest(z, assign, groupCount, random);
            if groupCount == 0 then g.groupBegin == g.groupEnd == 0 && z'.groupLow == z.groupLow
            else z.groupLow + groupCount < 65536 ==>
              && g.groupBegin == z.groupLow && g.groupEnd - g.groupBegin + 1 == groupCount
              && g.groupEnd + 1 == z'.groupLow
  {}

  /** The granted ids, one by one. */
  lemma GrantedIds(z: Zll, assign: bool, groupCount: byte, random: u16)
    ensures var g := JoinRequest(z, assign, groupCount, random).1;
            GrantedGroups(g, groupCount > 0) == seq(groupCount, k => Add(z.groupLow, k))
  {
    var g := JoinRequest(z, assign, groupCount, random).1;
    assert groupCount > 0 ==> g.groupBegin == z.groupLow && g.groupEnd == Add(z.groupLow, groupCount - 1);
    hide JoinRequest;
  }

  lemma IdsWithoutWrap(low: u16, count: nat)
    requires low + count <= 65536
    ensures seq(count, k => Add(low, k)) == seq(count, k => low + k)
  {}

  lemma GroupMiddle(low: u16, high: u16)
    requires 0 < low < high
    ensures Middle(low, high) == (low + high - 1) / 2 && low <= Middle(low, high) < high
    ensures Add(Middle(low, high), -1) == Middle(low, high) - 1
  {}

  /** The group values of a splitting join, free of wrap-around. */
  lemma SplittingValues(z: Zll, groupCount: byte, random: u16)
    requires z.addrLow != 0 && z.groupLow != 0 && Count(z.groupLow, z.groupHigh) >= 2 && z.groupHigh < 65535
    ensures var (z', g) := JoinRequest(z, true, groupCount, random);
            var middle := (z.groupLow + z.groupHigh - 1) / 2;
            && z.groupLow <= middle < z.groupHigh && z'.groupHigh == middle - 1
            && g.freeGroupBegin == middle && g.freeGroupEnd == z.groupHigh
            && (groupCount > 0 ==> g.groupBegin == z.groupLow)
            && (groupCount <= middle - z.groupLow ==> z'.groupLow == z.groupLow + groupCount)
  {
    hide JoinRequest, Middle, Add;
    JoinGroups(z, true, groupCount, random);
    GroupMiddle(z.groupLow, z.groupHigh);
    NoWrap(z.groupLow, groupCount);
  }

  lemma WithoutWrap(x: u16, n: nat)
    requires x + n < 65536
    ensures Add(x, n) == x + n
  {}

  lemma NoWrap(x: u16, n: byte)
    ensures x + n < 65536 ==> Add(x, n) == x + n
  {}

  /** A start takes two addresses; what it gives carries none. */
  lemma StartAddrs(net: Net, i: nat)
    requires Possible(net, Start(i)) && ProperAddrs(net) && AddrMet(net, Start(i))
    ensures AddrLedger(Apply(net, Start(i))) == Join(Take(AddrLedger(net), i, 2), NOTHING)
  {
    var z := net.devices[i].zll;
    var (z', g) := StartRequest(z);
    assert net.devices[i] in net.devices;
    var net' := Apply(net, Start(i));
    LedgersOfRequest(net, i, z', g, net'.addrs, net'.groups);
    assert [z'.myAddr, g.addr] == seq(2, k => z.addrLow + k);
  }

  lemma StartGroups(net: Net, i: nat)
    requires Possible(net, Start(i)) && ProperGroups(net) && GroupMet(net, Start(i))
    ensures GroupLedger(Apply(net, Start(i))) == Join(Take(GroupLedger(net), i, 16), Range(1, 0))
  {
    var z := net.devices[i].zll;
    var (z', g) := StartRequest(z);
    assert net.devices[i] in net.devices;
    var net' := Apply(net, Start(i));
    LedgersOfRequest(net, i, z', g, net'.addrs, net'.groups);
    assert GroupRange(z'.groupLow, z'.groupHigh) == Range(z.groupLow + GROUPS_REQUIRED, z.groupHigh);
  }

  /** A join that gives no range takes one address, or none when the node owns none. */
  lemma PlainJoinAddrs(net: Net, step: Step)
    requires Possible(net, step) && step.JoinTarget? && ProperAddrs(net) && AddrMet(net, step)
    requires !step.assign || net.devices[step.device].zll.addrLow == 0
    ensures var n := if net.devices[step.device].zll.addrLow == 0 then 0 else 1;
            AddrLedger(Apply(net, step)) == Join(Take(AddrLedger(net), step.device, n), NOTHING)
  {
    var i := step.device;
    var z := net.devices[i].zll;
    var (z', g) := JoinRequest(z, step.assign, step.groupCount, step.random);
    assert net.devices[i] in net.devices;
    JoinAddrs(z, step.assign, step.groupCount, step.random);
    var net' := Apply(net, step);
    hide JoinRequest;
    LedgersOfRequest(net, i, z', g, net'.addrs, net'.groups);
    var n := if z.addrLow == 0 then 0 else 1;
    assert Range(z'.addrLow, z'.addrHigh) == Range(z.addrLow + n, z.addrHigh);
    assert net'.addrs == net.addrs + seq(n, k => z.addrLow + k);
  }

  /** A join that gives ranges takes one address and splits what is left at its middle. */
  lemma AssigningJoinAddrs(net: Net, step: Step)
    requires Possible(net, step) && step.JoinTarget? && ProperAddrs(net) && AddrMet(net, step)
    requires step.assign && net.devices[step.device].zll.addrLow != 0
    ensures var z := net.devices[step.device].zll;
            var middle := (z.addrLow + z.addrHigh) / 2;
            && z.addrLow + 1 <= middle <= z.addrHigh
            && AddrLedger(Apply(net, step)) == Split(Take(AddrLedger(net), step.device, 1), step.device, middle)
  {
    var i := step.device;
    var z := net.devices[i].zll;
    var (z', g) := JoinRequest(z, step.assign, step.groupCount, step.random);
    assert net.devices[i] in net.devices;
    JoinAddrs(z, step.assign, step.groupCount, step.random);
    EvenSplit(z.addrLow, z.addrHigh);
    var net' := Apply(net, step);
    hide JoinRequest, Middle;
    LedgersOfRequest(net, i, z', g, net'.addrs, net'.groups);
    assert [g.addr] == seq(1, k => z.addrLow + k);
  }

  /** A join that does not split the group ids takes those that the target asks for. */
  lemma PlainJoinGroups(net: Net, step: Step)
    requires Possible(net, step) && step.JoinTarget? && ProperGroups(net) && GroupMet(net, step)
    requires !SplitsGroups(net.devices[step.device].zll, step.assign)
    ensures GroupLedger(Apply(net, step)) == Join(Take(GroupLedger(net), step.device, step.groupCount), Range(1, 0))
  {
    var i, c := step.device, step.groupCount;
    var z := net.devices[i].zll;
    var (z', g) := JoinRequest(z, step.assign, c, step.random);
    assert net.devices[i] in net.devices;
    JoinGroups(z, step.assign, c, step.random);
    GrantedIds(z, step.assign, c, step.random);
    IdsWithoutWrap(z.groupLow, c);
    var net' := Apply(net, step);
    hide JoinRequest;
    LedgersOfRequest(net, i, z', g, net'.addrs, net'.groups);
    var r := DeviceGroups(net.devices[i]);
    assert GroupRange(z'.groupLow, z'.groupHigh) == Range(r.low + c, r.high);
    assert c > 0 ==> r.low == z.groupLow;
    assert GrantedGroups(g, c > 0) == seq(c, k => r.low + k);
  }

  /** A join that does splits them first, and takes from the part that is kept. */
  lemma SplittingJoinGroups(net: Net, step: Step)
    requires Possible(net, step) && step.JoinTarget? && ProperGroups(net) && GroupMet(net, step)
    requires SplitsGroups(net.devices[step.device].zll, step.assign)
    ensures var z := net.devices[step.device].zll;
            var middle := (z.groupLow + z.groupHigh - 1) / 2;
            && z.groupLow <= middle <= z.groupHigh
            && GroupLedger(Apply(net, step))
               == Take(Split(GroupLedger(net), step.device, middle), step.device, step.groupCount)
  {
    var i, c := step.device, step.groupCount;
    var z := net.devices[i].zll;
    var (z', g) := JoinRequest(z, true, c, step.random);
    assert net.devices[i] in net.devices;
    SplittingValues(z, c, step.random);
    GrantedIds(z, true, c, step.random);
    IdsWithoutWrap(z.groupLow, c);
    var middle := g.freeGroupBegin;
    assert z'.groupLow == z.groupLow + c;
    var net' := Apply(net, step);
    assert net'.groups == net.groups + GrantedGroups(g, c > 0);
    hide JoinRequest;
    LedgersOfRequest(net, i, z', g, net'.addrs, net'.groups);
    GroupRangeAt(net, i);
    assert GrantedGroups(g, c > 0) == seq(c, k => z.groupLow + k);
    hide GroupLedger, Apply, GroupMet, ProperGroups;
    SplitThenTake(GroupLedger(net), GroupLedger(net'), i, middle, c);
  }

  lemma SplitThenTake(l: Ledger, l': Ledger, i: nat, middle: int, c: nat)
    requires i < |l.free| && l'.taken == l.taken + seq(c, k => l.free[i].low + k)
    requires l'.free == l.free[i := Range(l.free[i].low + c, middle - 1)] + [Range(middle, l.free[i].high)]
    ensures l' == Take(Split(l, i, middle), i, c)
  {
    assert l'.free == Take(Split(l, i, middle), i, c).free;
  }

  // ---------- each step keeps the ledgers, under its own condition ----------

  /** The ledger is safe and has the same identifiers, except those that an adopting device gives up. */
  ghost predicate Follows(l: Ledger, l': Ledger, step: Step)
    requires !IsRequest(step) ==> step.device < |l.free|
  {
    Safe(l') && forall x :: Has(l', x) <==> Has(l, x) && !(!IsRequest(step) && In(l.free[step.device], x))
  }

  lemma AddrStepFollows(net: Net, step: Step)
    requires Possible(net, step) && ProperAddrs(net) && AddrMet(net, step) && Safe(AddrLedger(net))
    ensures Follows(AddrLedger(net), AddrLedger(Apply(net, step)), step)
  {
    hide Safe, Apply, Has, AddrLedger, Join, Take, Split, Move, Drop;
    var l, i := AddrLedger(net), step.device;
    AddrRangeAt(net, i);
    match step {
      case Start(_) =>
        StartAddrs(net, i);
        TakeKeeps(l, i, 2);
        JoinKeeps(Take(l, i, 2), NOTHING);
      case JoinTarget(_, assign, groupCount, random) =>
        var z := net.devices[i].zll;
        if assign && z.addrLow != 0 {
          AssigningJoinAddrs(net, step);
          TakeKeeps(l, i, 1);
          TakenRange(l, i, 1);
          SplitKeeps(Take(l, i, 1), i, (z.addrLow + z.addrHigh) / 2);
        } else {
          var n := if z.addrLow == 0 then 0 else 1;
          PlainJoinAddrs(net, step);
          TakeKeeps(l, i, n);
          JoinKeeps(Take(l, i, n), NOTHING);
        }
      case Deliver(k, _) =>
        DeliveryMoves(net, k, i);
        MoveKeeps(l, |net.devices| + k, i);
      case Leave(_) =>
        LeavingDrops(net, i);
        DropKeeps(l, i);
    }
  }

  lemma GroupStepFollows(net: Net, step: Step)
    requires Possible(net, step) && ProperGroups(net) && GroupMet(net, step) && Safe(GroupLedger(net))
    ensures Follows(GroupLedger(net), GroupLedger(Apply(net, step)), step)
  {
    hide Safe, Apply, Has, GroupLedger, Join, Take, Split, Move, Drop;
    var l, i := GroupLedger(net), step.device;
    GroupRangeAt(net, i);
    match step {
      case Start(_) =>
        StartGroups(net, i);
        TakeKeeps(l, i, GROUPS_REQUIRED);
        JoinKeeps(Take(l, i, GROUPS_REQUIRED), Range(1, 0));
      case JoinTarget(_, assign, groupCount, random) =>
        var z := net.devices[i].zll;
        if SplitsGroups(z, assign) {
          var middle := (z.groupLow + z.groupHigh - 1) / 2;
          SplittingJoinGroups(net, step);
          SplitKeeps(l, i, middle);
          KeptRange(l, i, middle);
          TakeKeeps(Split(l, i, middle), i, groupCount);
        } else {
          PlainJoinGroups(net, step);
          TakeKeeps(l, i, groupCount);
          JoinKeeps(Take(l, i, groupCount), Range(1, 0));
        }
      case Deliver(k, _) =>
        DeliveryMoves(net, k, i);
        MoveKeeps(l, |net.devices| + k, i);
      case Leave(_) =>
        LeavingDrops(net, i);
        DropKeeps(l, i);
    }
  }

  lemma AddrRangeAt(net: Net, i: nat)
    requires i < |net.devices|
    ensures |AddrLedger(net).free| == |net.devices| + |net.air|
    ensures AddrLedger(net).free[i] == DeviceAddrs(net.devices[i]) && net.devices[i] in net.devices
  {}

  lemma GroupRangeAt(net: Net, i: nat)
    requires i < |net.devices|
    ensures |GroupLedger(net).free| == |net.devices| + |net.air|
    ensures GroupLedger(net).free[i] == DeviceGroups(net.devices[i]) && net.devices[i] in net.devices
  {}

  lemma TakenRange(l: Ledger, i: nat, n: nat)
    requires i < |l.free|
    ensures |Take(l, i, n).free| == |l.free| && Take(l, i, n).free[i] == Range(l.free[i].low + n, l.free[i].high)
  {}

  lemma KeptRange(l: Ledger, i: nat, middle: int)
    requires i < |l.free|
    ensures i < |Split(l, i, middle).free| && Split(l, i, middle).free[i] == Range(l.free[i].low, middle - 1)
  {}

  lemma AddrStepProper(net: Net, step: Step)
    requires Possible(net, step) && ProperAddrs(net) && AddrMet(net, step)
    ensures ProperAddrs(Apply(net, step))
  {
    assert net.devices[step.device] in net.devices;
    if step.Deliver? {
      assert net.air[step.letter] in net.air;
    } else if IsRequest(step) {
      RequestKeepsAddrs(net.devices[step.device].zll, step);
      hide Proper, StartRequest, JoinRequest, AddrEnough;
    }
  }

  lemma RequestKeepsAddrs(z: Zll, step: Step)
    requires IsRequest(step) && Proper(z.addrLow, z.addrHigh) && AddrEnough(z, step)
    ensures var (z', g) := Requested(z, step);
            Proper(z'.addrLow, z'.addrHigh) && Proper(g.addrBegin, g.addrEnd)
  {
    if step.JoinTarget? {
      JoinAddrs(z, step.assign, step.groupCount, step.random);
      if step.assign && z.addrLow != 0 {
        EvenSplit(z.addrLow, z.addrHigh);
      }
      hide JoinRequest, Middle;
    }
  }

  /** The range and the grant that a request leaves. */
  function Requested(z: Zll, step: Step): (Zll, Grant)
    requires IsRequest(step)
  {
    match step
    case Start(_) => StartRequest(z)
    case JoinTarget(_, assign, groupCount, random) => JoinRequest(z, assign, groupCount, random)
  }

  lemma RequestKeepsProper(z: Zll, step: Step)
    requires IsRequest(step) && Proper(z.groupLow, z.groupHigh) && GroupEnough(z, step)
    ensures var (z', g) := Requested(z, step);
            Proper(z'.groupLow, z'.groupHigh) && Proper(g.freeGroupBegin, g.freeGroupEnd)
  {
    if step.JoinTarget? {
      if SplitsGroups(z, step.assign) {
        SplittingValues(z, step.groupCount, step.random);
        hide Add;
      } else {
        JoinGroups(z, step.assign, step.groupCount, step.random);
      }
      hide JoinRequest, Middle;
    }
  }

  lemma GroupStepProper(net: Net, step: Step)
    requires Possible(net, step) && ProperGroups(net) && GroupMet(net, step)
    ensures ProperGroups(Apply(net, step))
  {
    assert net.devices[step.device] in net.devices;
    if step.Deliver? {
      assert net.air[step.letter] in net.air;
    } else if IsRequest(step) {
      RequestKeepsProper(net.devices[step.device].zll, step);
      hide Proper, StartRequest, JoinRequest, GroupEnough;
    }
  }

  // ---------- whole runs ----------

  /** The identifiers of all later ledgers are among those of earlier ones, so that what is lost stays lost. */
  ghost predicate Fewer(l: Ledger, l': Ledger) {
    forall x :: Has(l', x) ==> Has(l, x)
  }

  lemma {:induction false} AddrRunFollows(net: Net, steps: seq<Step>, all: Range)
    requires PossibleRun(net, steps) && AllAddrMet(net, steps) && ProperAddrs(net) && Safe(AddrLedger(net))
    ensures ProperAddrs(Run(net, steps))
    ensures var l, l' := AddrLedger(net), AddrLedger(Run(net, steps));
            && Safe(l') && Fewer(l, l')
            && (Among(l, all) && Complete(l, all) ==> (Complete(l', all) <==> NoAddrOwnerAdopts(net, steps)))
    decreases |steps|
  {
    hide Safe, AddrLedger, Has, Apply, AddrMet, ProperAddrs;
    if steps != [] {
      var step, next := steps[0], Apply(net, steps[0]);
      AddrStepProper(net, step);
      AddrStepFollows(net, step);
      AddrRangeAt(net, step.device);
      AddrRunFollows(next, steps[1..], all);
      StepCompletes(AddrLedger(net), AddrLedger(next), step, all);
      LostStaysLost(AddrLedger(next), AddrLedger(Run(next, steps[1..])), all);
    }
  }

  lemma {:induction false} GroupRunFollows(net: Net, steps: seq<Step>, all: Range)
    requires PossibleRun(net, steps) && AllGroupMet(net, steps) && ProperGroups(net) && Safe(GroupLedger(net))
    ensures var l, l' := GroupLedger(net), GroupLedger(Run(net, steps));
            && Safe(l') && Fewer(l, l')
            && (Among(l, all) && Complete(l, all) ==> (Complete(l', all) <==> NoGroupOwnerAdopts(net, steps)))
    decreases |steps|
  {
    hide Safe, GroupLedger, Has, Apply, GroupMet, ProperGroups;
    if steps != [] {
      var step, next := steps[0], Apply(net, steps[0]);
      GroupStepProper(net, step);
      GroupStepFollows(net, step);
      GroupRangeAt(net, step.device);
      GroupRunFollows(next, steps[1..], all);
      StepCompletes(GroupLedger(net), GroupLedger(next), step, all);
      LostStaysLost(GroupLedger(next), GroupLedger(Run(next, steps[1..])), all);
    }
  }

  /** One step from a complete ledger leaves it complete exactly when no owner adopts. */
  lemma StepCompletes(l: Ledger, l': Ledger, step: Step, all: Range)
    requires (!IsRequest(step) ==> step.device < |l.free|) && Follows(l, l', step)
    ensures Fewer(l, l') && (Among(l, all) ==> Among(l', all))
    ensures Among(l, all) && Complete(l, all) ==>
              (Complete(l', all) <==> (!IsRequest(step) ==> Size(l.free[step.device]) <= 0))
  {
    hide Has;
    if !IsRequest(step) && Size(l.free[step.device]) > 0 {
      var r := l.free[step.device];
      assert In(r, r.low);
      assert Has(l, r.low) by {
        HasFree(l, step.device, r.low);
      }
    }
  }

  lemma HasFree(l: Ledger, i: nat, x: int)
    requires i < |l.free| && In(l.free[i], x)
    ensures Has(l, x)
  {}

  lemma LostStaysLost(l: Ledger, l': Ledger, all: Range)
    requires Fewer(l, l')
    ensures Complete(l', all) ==> Complete(l, all)
    ensures Among(l, all) ==> Among(l', all)
  {
    hide Has;
  }

  lemma FounderIsExact(own: u16, addrs: Range, groups: Range, outside: nat)
    requires 0 < addrs.low <= addrs.high < 65535 && 0 < groups.low <= groups.high < 65535
    ensures var net := Founder(own, addrs, groups, outside);
            && ProperAddrs(net) && Exact(AddrLedger(net), addrs) && ProperGroups(net) && Exact(GroupLedger(net), groups)
  {
    var net := Founder(own, addrs, groups, outside);
    var a, g := AddrLedger(net), GroupLedger(net);
    assert a.free[0] == addrs && forall i :: 0 < i < |a.free| ==> a.free[i] == NOTHING;
    assert g.free[0] == groups && forall i :: 0 < i < |g.free| ==> g.free[i] == NOTHING;
    assert forall x :: In(addrs, x) ==> In(a.free[0], x);
    assert forall x :: In(groups, x) ==> In(g.free[0], x);
  }

  /**
   * In every run grown from one founder whose requests find the addresses that they give away, however many
   * group ids there are: the addresses handed out are distinct, the address ranges of all devices and letters
   * are disjoint, and no handed-out address is in a range. None is lost if and only if no device that owns
   * addresses adopts a grant in place of them.
   */
  lemma AddressesAreSafe(own: u16, addrs: Range, groups: Range, outside: nat, steps: seq<Step>)
    requires 0 < addrs.low <= addrs.high < 65535 && 0 < groups.low <= groups.high < 65535
    requires var net := Founder(own, addrs, groups, outside); PossibleRun(net, steps) && AllAddrMet(net, steps)
    ensures var net := Founder(own, addrs, groups, outside);
            var l := AddrLedger(Run(net, steps));
            Safe(l) && Among(l, addrs) && (Complete(l, addrs) <==> NoAddrOwnerAdopts(net, steps))
  {
    hide Safe, Among, Complete, AddrLedger, Fewer, Run, AllAddrMet, PossibleRun;
    var net := Founder(own, addrs, groups, outside);
    FounderIsExact(own, addrs, groups, outside);
    AddrRunFollows(net, steps, addrs);
    LostStaysLost(AddrLedger(net), AddrLedger(Run(net, steps)), addrs);
  }

  /** The same for group ids, however many addresses there are. */
  lemma GroupsAreSafe(own: u16, addrs: Range, groups: Range, outside: nat, steps: seq<Step>)
    requires 0 < addrs.low <= addrs.high < 65535 && 0 < groups.low <= groups.high < 65535
    requires var net := Founder(own, addrs, groups, outside); PossibleRun(net, steps) && AllGroupMet(net, steps)
    ensures var net := Founder(own, addrs, groups, outside);
            var l := GroupLedger(Run(net, steps));
            Safe(l) && Among(l, groups) && (Complete(l, groups) <==> NoGroupOwnerAdopts(net, steps))
  {
    hide Safe, Among, Complete, GroupLedger, Fewer, Run, AllGroupMet, PossibleRun;
    var net := Founder(own, addrs, groups, outside);
    FounderIsExact(own, addrs, groups, outside);
    GroupRunFollows(net, steps, groups);
    LostStaysLost(GroupLedger(net), GroupLedger(Run(net, steps)), groups);
  }

  /**
   * An owner does adopt when the answer to its start is lost and the router that it started, which owns no range,
   * lets it join: every address but the two that the start handed out is then lost.
   */
  lemma FounderLosesAll(own: u16, addrs: Range, groups: Range, outside: nat, assign: bool, groupCount: byte,
                        random: u16)
    requires 0 < addrs.low && addrs.low + 2 <= addrs.high < 65535 && 0 < groups.low <= groups.high < 65535
    requires outside > 0
    ensures var net := Founder(own, addrs, groups, outside);
            var steps := [Start(0), Deliver(0, 1), JoinTarget(1, assign, groupCount, random), Deliver(1, 0)];
            && PossibleRun(net, steps) && AllAddrMet(net, steps)
            && forall x :: Has(AddrLedger(Run(net, steps)), x) <==> x == addrs.low || x == addrs.low + 1
  {
    var net := Founder(own, addrs, groups, outside);
    var s0, s1, s2, s3 := Start(0), Deliver(0, 1), JoinTarget(1, assign, groupCount, random), Deliver(1, 0);
    var (z, g) := StartRequest(net.devices[0].zll);
    var n1, n2 := Apply(net, s0), Apply(Apply(net, s0), s1);
    assert n1.devices[1] == Outside && n1.air == [Flying(g)];
    assert n2.devices[0] == Inside(z) && n2.devices[1] == Inside(Adopt(BLANK, g));
    JoinAddrs(Adopt(BLANK, g), assign, groupCount, random);
    var (z', g') := JoinRequest(Adopt(BLANK, g), assign, groupCount, random);
    hide StartRequest, JoinRequest;
    var n3 := Apply(n2, s2);
    assert n3.devices[1] == Inside(z') && n3.air == [Opened, Flying(g')];
    var n4 := Apply(n3, s3);
    assert n4.devices[0] == Inside(Adopt(BLANK, g')) && n4.addrs == [addrs.low, addrs.low + 1];
    FourSteps(net, s0, s1, s2, s3);
    OnlyTwoLeft(n4, addrs.low, addrs.low + 1);
    hide AddrLedger, Has, PossibleRun, AllAddrMet, Run;
  }

  /** A network in which nobody owns addresses has those that were handed out. */
  lemma OnlyTwoLeft(net: Net, a: int, b: int)
    requires net.addrs == [a, b]
    requires forall d <- net.devices :: DeviceAddrs(d).low == 0
    requires forall l <- net.air :: LetterAddrs(l).low == 0
    ensures forall x :: Has(AddrLedger(net), x) <==> x == a || x == b
  {
    var l := AddrLedger(net);
    hide DeviceAddrs, LetterAddrs;
    forall i | 0 <= i < |l.free|
      ensures l.free[i].low == 0
    {
      assert if i < |net.devices| then net.devices[i] in net.devices else net.air[i - |net.devices|] in net.air;
    }
    assert l.taken[0] in l.taken && l.taken[1] in l.taken;
  }

  lemma FourSteps(net: Net, s0: Step, s1: Step, s2: Step, s3: Step)
    requires Possible(net, s0)
    requires Possible(Apply(net, s0), s1)
    requires Possible(Apply(Apply(net, s0), s1), s2)
    requires Possible(Apply(Apply(Apply(net, s0), s1), s2), s3)
    ensures var steps := [s0, s1, s2, s3];
            var n1 := Apply(net, s0); var n2 := Apply(n1, s1); var n3 := Apply(n2, s2);
            && PossibleRun(net, steps) && Run(net, steps) == Apply(n3, s3)
            && (AllAddrMet(net, steps) <==> AddrMet(net, s0) && AddrMet(n1, s1) && AddrMet(n2, s2) && AddrMet(n3, s3))
  {
    hide Possible, Apply, AddrMet;
    var n1 := Apply(net, s0);
    var n2 := Apply(n1, s1);
    var n3 := Apply(n2, s2);
    assert [s0, s1, s2, s3][1..] == [s1, s2, s3] && [s1, s2, s3][1..] == [s2, s3] && [s2, s3][1..] == [s3];
    assert PossibleRun(Apply(n3, s3), []) && Run(Apply(n3, s3), []) == Apply(n3, s3) && AllAddrMet(Apply(n3, s3), []);
    assert PossibleRun(n3, [s3]) && Run(n3, [s3]) == Apply(n3, s3) && (AllAddrMet(n3, [s3]) <==> AddrMet(n3, s3));
    assert PossibleRun(n2, [s2, s3]) && Run(n2, [s2, s3]) == Apply(n3, s3);
    assert AllAddrMet(n2, [s2, s3]) <==> AddrMet(n2, s2) && AddrMet(n3, s3);
    assert PossibleRun(n1, [s1, s2, s3]) && Run(n1, [s1, s2, s3]) == Apply(n3, s3);
    assert AllAddrMet(n1, [s1, s2, s3]) <==> AddrMet(n1, s1) && AddrMet(n2, s2) && AddrMet(n3, s3);
  }

  // ---------- the conditions are exact ----------

  /** A request from an exact network keeps the addresses exact if and only if it finds those that it gives away. */
  lemma AddrExactIff(net: Net, step: Step, all: Range)
    requires Possible(net, step) && IsRequest(step) && ProperAddrs(net) && Exact(AddrLedger(net), all)
    ensures Exact(AddrLedger(Apply(net, step)), all) <==> AddrMet(net, step)
  {
    hide Safe, Apply, Has, AddrLedger;
    if AddrMet(net, step) {
      AddrStepFollows(net, step);
      StepCompletes(AddrLedger(net), AddrLedger(Apply(net, step)), step, all);
    } else if step.Start? {
      ShortStart(net, step, all);
    } else {
      ShortJoin(net, step, all);
    }
  }

  lemma ShortStart(net: Net, step: Step, all: Range)
    requires Possible(net, step) && step.Start? && ProperAddrs(net) && Exact(AddrLedger(net), all)
    requires !AddrMet(net, step)
    ensures !Exact(AddrLedger(Apply(net, step)), all)
  {
    var i := step.device;
    var z := net.devices[i].zll;
    var (z', g) := StartRequest(z);
    var net' := Apply(net, step);
    AddrRangeAt(net, i);
    LedgersOfRequest(net, i, z', g, net'.addrs, net'.groups);
    var l, l' := AddrLedger(net), AddrLedger(net');
    hide Exact, AddrLedger;
    var more := l'.taken[|l.taken|..];
    assert more == [z'.myAddr, g.addr] && more[0] in more && more[1] in more;
    OvertakingBreaks(l, l', all, i, if In(l.free[i], z.addrLow) then g.addr else z.addrLow);
  }

  lemma ShortJoin(net: Net, step: Step, all: Range)
    requires Possible(net, step) && step.JoinTarget? && ProperAddrs(net) && Exact(AddrLedger(net), all)
    requires !AddrMet(net, step)
    ensures !Exact(AddrLedger(Apply(net, step)), all)
  {
    var i := step.device;
    var z := net.devices[i].zll;
    var (z', g) := JoinRequest(z, step.assign, step.groupCount, step.random);
    var net' := Apply(net, step);
    AddrRangeAt(net, i);
    JoinAddrs(z, step.assign, step.groupCount, step.random);
    LedgersOfRequest(net, i, z', g, net'.addrs, net'.groups);
    var l, l' := AddrLedger(net), AddrLedger(net');
    hide Exact, AddrLedger, JoinRequest;
    assert l'.taken[|l.taken|..] == [z.addrLow] && z.addrLow in [z.addrLow];
    if Count(z.addrLow, z.addrHigh) == 0 {
      OvertakingBreaks(l, l', all, i, z.addrLow);
    } else {
      EvenSplit(z.addrLow, z.addrHigh);
      hide Middle;
      BothBreaks(l', all, |l.free|, z.addrLow);
    }
  }

  /** A request from an exact network keeps the group ids exact if and only if it finds those that it gives away. */
  lemma GroupExactIff(net: Net, step: Step, all: Range)
    requires Possible(net, step) && IsRequest(step) && ProperGroups(net) && Exact(GroupLedger(net), all)
    ensures Exact(GroupLedger(Apply(net, step)), all) <==> GroupMet(net, step)
  {
    hide Safe, Apply, Has, GroupLedger;
    var z := net.devices[step.device].zll;
    if GroupMet(net, step) {
      GroupStepFollows(net, step);
      StepCompletes(GroupLedger(net), GroupLedger(Apply(net, step)), step, all);
    } else if step.JoinTarget? && SplitsGroups(z, step.assign) {
      if z.groupLow != 0 && Count(z.groupLow, z.groupHigh) >= 2 {
        ShortAfterSplit(net, step, all);
      } else {
        ShortSplit(net, step, all);
      }
    } else {
      ShortGroups(net, step, all);
    }
  }

  /** More group ids are handed out than the device has. */
  lemma ShortGroups(net: Net, step: Step, all: Range)
    requires Possible(net, step) && IsRequest(step) && ProperGroups(net) && Exact(GroupLedger(net), all)
    requires !GroupMet(net, step) && (step.JoinTarget? ==> !SplitsGroups(net.devices[step.device].zll, step.assign))
    ensures !Exact(GroupLedger(Apply(net, step)), all)
  {
    var i := step.device;
    var z := net.devices[i].zll;
    var net' := Apply(net, step);
    var c := if step.Start? then 16 else step.groupCount;
    GroupRangeAt(net, i);
    RequestedGroups(net, step);
    RequestedIds(net, step);
    var n := MissingGroup(z, step, c);
    var l, l' := GroupLedger(net), GroupLedger(net');
    var more := net'.groups[|net.groups|..];
    hide *;
    assert more[n] == z.groupLow + n && more[n] in more;
    OvertakingBreaks(l, l', all, i, z.groupLow + n);
  }

  /** The first id that such a request hands out without having it. */
  lemma MissingGroup(z: Zll, step: Step, c: nat) returns (n: nat)
    requires Proper(z.groupLow, z.groupHigh) && IsRequest(step) && !GroupEnough(z, step)
    requires step.JoinTarget? ==> !SplitsGroups(z, step.assign)
    requires c == if step.Start? then 16 else step.groupCount
    ensures n < c && z.groupLow + n < 65536 && !In(GroupRange(z.groupLow, z.groupHigh), z.groupLow + n)
  {
    n := if z.groupLow == 0 then 0 else Count(z.groupLow, z.groupHigh);
  }

  /** What a request leaves of the ledger of group ids. */
  lemma RequestedGroups(net: Net, step: Step)
    requires Possible(net, step) && IsRequest(step)
    ensures var net' := Apply(net, step);
            var l, l' := GroupLedger(net), GroupLedger(net');
            && l.taken == net.groups && l'.taken == net'.groups && |l.free| <= |l'.free|
            && (forall j :: 0 <= j < |l.free| && j != step.device ==> l'.free[j] == l.free[j])
  {
    var (z', g) := Requested(net.devices[step.device].zll, step);
    var net' := Apply(net, step);
    assert net'.devices == net.devices[step.device := Inside(z')] && net'.air == net.air + [Flying(g)];
    hide Apply, Requested;
    LedgersOfRequest(net, step.device, z', g, net'.addrs, net'.groups);
  }

  /** The group ids that it hands out. */
  lemma RequestedIds(net: Net, step: Step)
    requires Possible(net, step) && IsRequest(step)
    ensures var net', c := Apply(net, step), if step.Start? then 16 else step.groupCount;
            var z, more := net.devices[step.device].zll, net'.groups[|net.groups|..];
            && net.groups <= net'.groups && |more| == c
            && forall k :: 0 <= k < c && z.groupLow + k < 65536 ==> more[k] == z.groupLow + k
  {
    var z := net.devices[step.device].zll;
    if step.JoinTarget? {
      GrantedIds(z, step.assign, step.groupCount, step.random);
      hide JoinRequest, GrantedGroups, Add;
      var more := Apply(net, step).groups[|net.groups|..];
      forall k | 0 <= k < step.groupCount && z.groupLow + k < 65536
        ensures more[k] == z.groupLow + k
      {
        WithoutWrap(z.groupLow, k);
      }
    }
  }

  /** A range of fewer than two ids is split, which gives away or keeps an id that the device does not have. */
  lemma ShortSplit(net: Net, step: Step, all: Range)
    requires Possible(net, step) && step.JoinTarget? && ProperGroups(net) && Exact(GroupLedger(net), all)
    requires var z := net.devices[step.device].zll;
             SplitsGroups(z, step.assign) && (z.groupLow == 0 || Count(z.groupLow, z.groupHigh) < 2)
    ensures !Exact(GroupLedger(Apply(net, step)), all)
  {
    var i, c := step.device, step.groupCount;
    var z := net.devices[i].zll;
    var (z', g) := JoinRequest(z, step.assign, c, step.random);
    var net' := Apply(net, step);
    GroupRangeAt(net, i);
    ShortValues(z, c, step.random);
    LedgersOfRequest(net, i, z', g, net'.addrs, net'.groups);
    var l, l' := GroupLedger(net), GroupLedger(net');
    hide Exact, GroupLedger, JoinRequest, In, GroupRange, ProperGroups;
    if g.freeGroupBegin == 0 || z.groupLow == 0 {
      GainingBreaks(l, l', all, i, i, z'.groupHigh);
    } else {
      GainingBreaks(l, l', all, i, |l.free|, g.freeGroupBegin);
    }
  }

  /** The id that such a split keeps or gives without having it. */
  lemma ShortValues(z: Zll, c: byte, random: u16)
    requires Proper(z.groupLow, z.groupHigh) && SplitsGroups(z, true)
    requires z.groupLow == 0 || Count(z.groupLow, z.groupHigh) < 2
    ensures var (z', g) := JoinRequest(z, true, c, random);
            var own := GroupRange(z.groupLow, z.groupHigh);
            if g.freeGroupBegin == 0 || z.groupLow == 0 then
              In(GroupRange(z'.groupLow, z'.groupHigh), z'.groupHigh) && !In(own, z'.groupHigh)
            else
              In(GroupRange(g.freeGroupBegin, g.freeGroupEnd), g.freeGroupBegin) && !In(own, g.freeGroupBegin)
  {
    JoinGroups(z, true, c, random);
    ShortMiddle(z.groupLow, z.groupHigh);
    hide JoinRequest, Middle;
  }

  /** What a split of fewer than two ids computes: an id below them, or an end at the 16-bit limit. */
  lemma ShortMiddle(low: u16, high: u16)
    requires Proper(low, high) && (low == 0 || Count(low, high) < 2)
    ensures var begin := Middle(low, high);
            if low == 0 then Add(begin, -1) == 65534
            else begin == low - 1 && begin <= high
                 && (begin == 0 ==> low == 1 && Add(begin, -1) == 65535)
  {}

  /** The ids kept in a split do not suffice, and one is both handed out and given away. */
  lemma ShortAfterSplit(net: Net, step: Step, all: Range)
    requires Possible(net, step) && step.JoinTarget? && ProperGroups(net) && !GroupMet(net, step)
    requires var z := net.devices[step.device].zll;
             SplitsGroups(z, step.assign) && z.groupLow != 0 && Count(z.groupLow, z.groupHigh) >= 2
    ensures !Exact(GroupLedger(Apply(net, step)), all)
  {
    var i, c := step.device, step.groupCount;
    var z := net.devices[i].zll;
    var (z', g) := JoinRequest(z, step.assign, c, step.random);
    var net' := Apply(net, step);
    GroupRangeAt(net, i);
    SplittingValues(z, c, step.random);
    GrantedIds(z, true, c, step.random);
    LedgersOfRequest(net, i, z', g, net'.addrs, net'.groups);
    var l, l' := GroupLedger(net), GroupLedger(net');
    hide Exact, GroupLedger, JoinRequest, GrantedGroups, Add;
    var middle := g.freeGroupBegin;
    var more := l'.taken[|l.taken|..];
    WithoutWrap(z.groupLow, middle - z.groupLow);
    assert more == seq(c, k => Add(z.groupLow, k)) && more[middle - z.groupLow] == middle;
    assert l'.taken[|l.taken| + (middle - z.groupLow)] == middle;
    BothBreaks(l', all, |l.free|, middle);
  }
}
