/**
 * The addresses that the devices of a touchlink network use: when they stay distinct, although a device without a
 * range draws the addresses that it assigns at random.
 */
module TouchlinkAddresses {
  import opened Bytes
  import opened ZllRanges
  import opened RangeLedger
  import opened TouchlinkNetwork

  /** The device or letter stands for an address: that of the device itself, or the one that the letter assigns. */
  datatype Holder = Holding(addr: int) | Nobody

  function DeviceHolder(d: Device): Holder {
    match d
    case Outside => Nobody
    case Inside(z) => Holding(z.myAddr)
  }

  function LetterHolder(l: Letter): Holder {
    match l
    case Opened => Nobody
    case Flying(g) => Holding(g.addr)
  }

  function Holders(net: Net): (hs: seq<Holder>)
    ensures |hs| == |net.devices| + |net.air|
  {
    seq(|net.devices|, i requires 0 <= i < |net.devices| => DeviceHolder(net.devices[i]))
    + seq(|net.air|, k requires 0 <= k < |net.air| => LetterHolder(net.air[k]))
  }

  /** No two stand for the same address. */
  ghost predicate Distinct(hs: seq<Holder>) {
    forall i, j :: 0 <= i < j < |hs| && hs[i].Holding? ==> hs[i] != hs[j]
  }

  /** A device or letter can still hand the address out. */
  ghost predicate Free(net: Net, x: int) {
    SomeoneHas(AddrLedger(net).free, x)
  }

  ghost predicate NoneFree(net: Net, hs: seq<Holder>) {
    forall i :: 0 <= i < |hs| && hs[i].Holding? ==> !Free(net, hs[i].addr)
  }

  /** The addresses in use are distinct, and none of them can be handed out again. */
  ghost predicate Sound(net: Net) {
    Distinct(Holders(net)) && NoneFree(net, Holders(net))
  }

  /** If the step is a join by a device without a range, the number drawn is neither in use nor free anywhere. */
  ghost predicate DrawIsNew(net: Net, step: Step)
    requires Possible(net, step)
  {
    step.JoinTarget? && net.devices[step.device].zll.addrLow == 0 ==>
      Holding(step.random) !in Holders(net) && !Free(net, step.random)
  }

  ghost predicate DrawsAreNew(net: Net, steps: seq<Step>)
    requires PossibleRun(net, steps)
    decreases |steps|
  {
    steps == [] || (DrawIsNew(net, steps[0]) && DrawsAreNew(Apply(net, steps[0]), steps[1..]))
  }

  // ---------- who holds what after a step ----------

  lemma HoldersOfRequest(net: Net, step: Step)
    requires Possible(net, step) && IsRequest(step)
    ensures var (z, g) := Requested(net.devices[step.device].zll, step);
            Holders(Apply(net, step)) == Holders(net)[step.device := Holding(z.myAddr)] + [Holding(g.addr)]
  {
    hide StartRequest, JoinRequest;
  }

  lemma HoldersOfDelivery(net: Net, k: nat, i: nat)
    requires Possible(net, Deliver(k, i))
    ensures var hs, from := Holders(net), |net.devices| + k;
            Holders(Apply(net, Deliver(k, i))) == hs[i := hs[from]][from := Nobody]
  {
    var hs, from := Holders(net), |net.devices| + k;
    assert Holders(Apply(net, Deliver(k, i))) == hs[i := hs[from]][from := Nobody];
  }

  lemma HoldersOfLeaving(net: Net, i: nat)
    requires Possible(net, Leave(i))
    ensures Holders(Apply(net, Leave(i))) == Holders(net)[i := Nobody]
  {
    assert Holders(Apply(net, Leave(i))) == Holders(net)[i := Nobody];
  }

  /** The addresses of a request: a start renumbers its sender. */
  lemma RequestedAddrs(z: Zll, step: Step)
    requires IsRequest(step) && Proper(z.addrLow, z.addrHigh) && AddrEnough(z, step)
    ensures var (z', g) := Requested(z, step);
            if step.Start? then z'.myAddr == z.addrLow && g.addr == z.addrLow + 1
            else z'.myAddr == z.myAddr && g.addr == if z.addrLow == 0 then step.random else z.addrLow
  {}

  // ---------- what is free after a step ----------

  /** Nothing becomes free, and what is handed out was free and is no more. */
  lemma FreeShrinks(net: Net, step: Step)
    requires Possible(net, step) && ProperAddrs(net) && AddrMet(net, step) && Safe(AddrLedger(net))
    ensures forall x :: Free(Apply(net, step), x) ==> Free(net, x)
    ensures IsRequest(step) ==>
              var z := net.devices[step.device].zll;
              z.addrLow != 0 ==>
                && Free(net, z.addrLow) && !Free(Apply(net, step), z.addrLow)
                && (step.Start? ==> Free(net, z.addrLow + 1) && !Free(Apply(net, step), z.addrLow + 1))
  {
    var l, l', i := AddrLedger(net), AddrLedger(Apply(net, step)), step.device;
    AddrStepFollows(net, step);
    AddrRangeAt(net, i);
    Handed(net, step);
    hide AddrLedger, Apply;
    forall x | Free(Apply(net, step), x)
      ensures Free(net, x)
    {
      assert x !in l'.taken && Has(l', x) && l.taken <= l'.taken;
      assert forall k :: 0 <= k < |l.taken| ==> l.taken[k] == l'.taken[k] && l'.taken[k] in l'.taken;
    }
    if IsRequest(step) && net.devices[i].zll.addrLow != 0 {
      var low := net.devices[i].zll.addrLow;
      assert In(l.free[i], low) && (step.Start? ==> In(l.free[i], low + 1));
    }
  }

  lemma Handed(net: Net, step: Step)
    requires Possible(net, step) && ProperAddrs(net) && AddrMet(net, step)
    ensures var l, l' := AddrLedger(net), AddrLedger(Apply(net, step));
            l.taken <= l'.taken
            && (IsRequest(step) ==>
                  var z := net.devices[step.device].zll;
                  z.addrLow != 0 ==> z.addrLow in l'.taken && (step.Start? ==> z.addrLow + 1 in l'.taken))
  {
    if IsRequest(step) {
      var z := net.devices[step.device].zll;
      assert net.devices[step.device] in net.devices;
      RequestedAddrs(z, step);
      hide StartRequest, JoinRequest;
      var more := Apply(net, step).addrs[|net.addrs|..];
      assert z.addrLow != 0 ==> more[0] in more && more[|more| - 1] in more;
    }
  }

  /** A join by a device without a range leaves everything free that was. */
  lemma RandomJoinTakesNothing(net: Net, step: Step, x: int)
    requires Possible(net, step) && step.JoinTarget? && net.devices[step.device].zll.addrLow == 0 && ProperAddrs(net)
    requires Free(net, x)
    ensures Free(Apply(net, step), x)
  {
    var l, l' := AddrLedger(net), AddrLedger(Apply(net, step));
    PlainJoinAddrs(net, step);
    AddrRangeAt(net, step.device);
    hide AddrLedger, Apply;
    var k :| 0 <= k < |l.free| && In(l.free[k], x);
    assert In(l'.free[k], x);
  }

  // ---------- one step ----------

  /** Holder i keeps its address or gets one that is not in use, and so does a new holder. */
  lemma NewHolders(hs: seq<Holder>, i: nat, a: int, b: int)
    requires Distinct(hs) && i < |hs| && hs[i].Holding?
    requires (hs[i].addr == a || Holding(a) !in hs) && Holding(b) !in hs && a != b
    ensures Distinct(hs[i := Holding(a)] + [Holding(b)])
  {}

  /** Who is not free stays so. */
  lemma NoneFreeAfter(net: Net, net': Net, hs: seq<Holder>, hs': seq<Holder>, more: seq<int>)
    requires NoneFree(net, hs) && forall x :: Free(net', x) ==> Free(net, x)
    requires forall x <- more :: !Free(net', x)
    requires forall k :: 0 <= k < |hs'| && hs'[k].Holding? ==> hs'[k] in hs || hs'[k].addr in more
    ensures NoneFree(net', hs')
  {
    hide Free;
  }

  lemma NotFreeNotHeld(net: Net, x: int)
    requires NoneFree(net, Holders(net)) && Free(net, x)
    ensures Holding(x) !in Holders(net)
  {
    hide Free, Holders;
  }

  lemma RequestKeepsSound(net: Net, step: Step)
    requires Possible(net, step) && IsRequest(step) && ProperAddrs(net) && AddrMet(net, step)
    requires Safe(AddrLedger(net)) && Sound(net) && DrawIsNew(net, step)
    ensures Sound(Apply(net, step))
  {
    var z, hs, i, net' := net.devices[step.device].zll, Holders(net), step.device, Apply(net, step);
    AddrRangeAt(net, i);
    HoldersOfRequest(net, step);
    RequestedAddrs(z, step);
    FreeShrinks(net, step);
    assert hs[i] == Holding(z.myAddr) && hs[i] in hs;
    var (z', g) := Requested(z, step);
    hide AddrLedger, Holders, Requested, Apply, Safe, Distinct, Free, NoneFree;
    if z.addrLow != 0 {
      NotFreeNotHeld(net, z.addrLow);
      if step.Start? {
        NotFreeNotHeld(net, z.addrLow + 1);
      }
    }
    NewHolders(hs, i, z'.myAddr, g.addr);
    NoneFreeAfter(net, net', hs, Holders(net'), if step.Start? then [z'.myAddr, g.addr] else [g.addr]);
  }

  lemma StepKeepsSound(net: Net, step: Step)
    requires Possible(net, step) && ProperAddrs(net) && AddrMet(net, step)
    requires Safe(AddrLedger(net)) && Sound(net) && DrawIsNew(net, step)
    ensures Sound(Apply(net, step))
  {
    if IsRequest(step) {
      RequestKeepsSound(net, step);
    } else {
      var hs, i := Holders(net), step.device;
      FreeShrinks(net, step);
      if step.Deliver? {
        HoldersOfDelivery(net, step.letter, i);
      } else {
        HoldersOfLeaving(net, i);
      }
      hide Holders, Apply, AddrLedger, Safe, Free, NoneFree;
      NoneFreeAfter(net, Apply(net, step), hs, Holders(Apply(net, step)), []);
    }
  }

  /** A draw that is in use makes two addresses the same, and one that is free somewhere can be handed out again. */
  lemma OldDrawBreaksSound(net: Net, step: Step)
    requires Possible(net, step) && ProperAddrs(net) && AddrMet(net, step) && !DrawIsNew(net, step)
    ensures !Sound(Apply(net, step))
  {
    var z, hs, x := net.devices[step.device].zll, Holders(net), step.random;
    AddrRangeAt(net, step.device);
    HoldersOfRequest(net, step);
    RequestedAddrs(z, step);
    var hs' := Holders(Apply(net, step));
    assert hs' == hs + [Holding(x)] by {
      assert hs[step.device] == Holding(z.myAddr);
    }
    if Free(net, x) {
      RandomJoinTakesNothing(net, step, x);
    }
    hide Holders, Apply, Free, Requested;
    if Holding(x) in hs {
      var k :| 0 <= k < |hs| && hs[k] == Holding(x);
      assert hs'[k] == hs'[|hs|];
    } else {
      assert hs'[|hs|] == Holding(x);
    }
  }

  /** A step of a sound network leaves it sound if and only if what it draws, if it draws, is new. */
  lemma StepIsSoundIff(net: Net, step: Step)
    requires Possible(net, step) && ProperAddrs(net) && AddrMet(net, step) && Safe(AddrLedger(net)) && Sound(net)
    ensures Sound(Apply(net, step)) <==> DrawIsNew(net, step)
  {
    if DrawIsNew(net, step) {
      StepKeepsSound(net, step);
    } else {
      OldDrawBreaksSound(net, step);
    }
  }

  // ---------- whole runs ----------

  /** The network is sound at every moment of the run. */
  ghost predicate SoundThroughout(net: Net, steps: seq<Step>)
    requires PossibleRun(net, steps)
    decreases |steps|
  {
    Sound(net) && (steps == [] || SoundThroughout(Apply(net, steps[0]), steps[1..]))
  }

  /**
   * From any sound network, in every run whose requests find the addresses that they give away: the network is
   * sound at every moment, so that the addresses in use are distinct, if and only if every number that is drawn at
   * random is new.
   */
  lemma {:induction false} AddressesStaySoundIff(net: Net, steps: seq<Step>)
    requires PossibleRun(net, steps) && AllAddrMet(net, steps)
    requires ProperAddrs(net) && Safe(AddrLedger(net)) && Sound(net)
    ensures SoundThroughout(net, steps) <==> DrawsAreNew(net, steps)
    ensures DrawsAreNew(net, steps) ==> Sound(Run(net, steps))
    decreases |steps|
  {
    hide Safe, AddrLedger, Has, Apply, AddrMet, ProperAddrs, Sound, DrawIsNew;
    if steps != [] {
      var next := Apply(net, steps[0]);
      StepIsSoundIff(net, steps[0]);
      if DrawIsNew(net, steps[0]) {
        AddrStepProper(net, steps[0]);
        AddrStepFollows(net, steps[0]);
        AddressesStaySoundIff(next, steps[1..]);
      } else {
        SoundNow(next, steps[1..]);
      }
    }
  }

  lemma SoundNow(net: Net, steps: seq<Step>)
    requires PossibleRun(net, steps)
    ensures SoundThroughout(net, steps) ==> Sound(net)
  {}

  /** A founder's network is sound from its start on, and before it if its own address is none of its range. */
  lemma FounderIsSoundIff(own: u16, addrs: Range, groups: Range, outside: nat)
    requires 0 < addrs.low <= addrs.high < 65535 && 0 < groups.low <= groups.high < 65535
    ensures var net := Founder(own, addrs, groups, outside);
            && ProperAddrs(net) && Safe(AddrLedger(net)) && Possible(net, Start(0))
            && (Sound(net) <==> !In(addrs, own))
            && (AddrMet(net, Start(0)) ==>
                  var net' := Apply(net, Start(0));
                  ProperAddrs(net') && Safe(AddrLedger(net')) && Sound(net'))
  {
    var net := Founder(own, addrs, groups, outside);
    FounderIsExact(own, addrs, groups, outside);
    FounderHolds(own, addrs, groups, outside);
    hide AddrLedger, Has, Safe, Founder, Free;
    if AddrMet(net, Start(0)) {
      var z := net.devices[0].zll;
      AddrStepProper(net, Start(0));
      AddrStepFollows(net, Start(0));
      HoldersOfRequest(net, Start(0));
      RequestedAddrs(z, Start(0));
      FreeShrinks(net, Start(0));
      hide Holders;
    }
  }

  lemma FounderHolds(own: u16, addrs: Range, groups: Range, outside: nat)
    requires 0 < addrs.low <= addrs.high < 65535 && 0 < groups.low <= groups.high < 65535
    ensures var net := Founder(own, addrs, groups, outside);
            && net.devices[0].Inside? && net.devices[0].zll.addrLow == addrs.low
            && net.devices[0].zll.addrHigh == addrs.high
            && Holders(net)[0] == Holding(own) && (forall i :: 0 < i < |Holders(net)| ==> Holders(net)[i] == Nobody)
            && forall x :: Free(net, x) <==> In(addrs, x)
  {
    var net := Founder(own, addrs, groups, outside);
    var free := AddrLedger(net).free;
    assert free[0] == addrs && forall i :: 0 < i < |free| ==> free[i] == NOTHING;
    assert forall x :: In(addrs, x) ==> In(free[0], x);
  }

  // ---------- what an old draw leads to ----------

  /** Ordinary joins by one device. */
  function Joins(device: nat, n: nat): (steps: seq<Step>)
    ensures |steps| == n
  {
    if n == 0 then [] else [JoinTarget(device, false, 0, 0)] + Joins(device, n - 1)
  }

  /** An address that is in use and still free at a device is handed out again by that device's ordinary joins. */
  lemma {:induction false} UsedAddressIsHandedOut(net: Net, i: nat, x: int, h: nat)
    requires ProperAddrs(net) && i < |net.devices| && net.devices[i].Inside? && In(DeviceAddrs(net.devices[i]), x)
    requires h < |Holders(net)| && Holders(net)[h] == Holding(x)
    ensures var steps := Joins(i, x - net.devices[i].zll.addrLow + 1);
            && PossibleRun(net, steps) && AllAddrMet(net, steps) && DrawsAreNew(net, steps)
            && !Distinct(Holders(Run(net, steps)))
    decreases x - net.devices[i].zll.addrLow
  {
    var z, step := net.devices[i].zll, JoinTarget(i, false, 0, 0);
    var steps := Joins(i, x - z.addrLow + 1);
    var net', rest := Apply(net, step), Joins(i, x - z.addrLow);
    assert steps == [step] + rest && steps[0] == step && steps[1..] == rest;
    OneJoin(net, i, x, h);
    AddrStepProper(net, step);
    hide Holders, Apply, DrawIsNew, ProperAddrs, Distinct;
    if x == z.addrLow {
      NoSteps(net');
      assert rest == [];
    } else {
      UsedAddressIsHandedOut(net', i, x, h);
    }
  }

  lemma NoSteps(net: Net)
    ensures PossibleRun(net, []) && AllAddrMet(net, []) && DrawsAreNew(net, []) && Run(net, []) == net
  {}

  lemma OneJoin(net: Net, i: nat, x: int, h: nat)
    requires ProperAddrs(net) && i < |net.devices| && net.devices[i].Inside? && In(DeviceAddrs(net.devices[i]), x)
    requires h < |Holders(net)| && Holders(net)[h] == Holding(x)
    ensures var z, step := net.devices[i].zll, JoinTarget(i, false, 0, 0);
            && Possible(net, step) && AddrMet(net, step) && DrawIsNew(net, step)
            && var net' := Apply(net, step);
            && i < |net'.devices| && net'.devices[i].Inside? && net'.devices[i].zll.addrLow == z.addrLow + 1
            && net'.devices[i].zll.addrHigh == z.addrHigh
            && h < |Holders(net')| && Holders(net')[h] == Holding(x)
            && (x == z.addrLow ==> !Distinct(Holders(net')))
  {
    var z, step := net.devices[i].zll, JoinTarget(i, false, 0, 0);
    assert net.devices[i] in net.devices;
    HoldersOfRequest(net, step);
    RequestedAddrs(z, step);
    assert Holders(net)[i] == Holding(z.myAddr);
    var hs' := Holders(Apply(net, step));
    assert hs'[|Holders(net)|] == Holding(z.addrLow) && hs'[h] == Holders(net)[h];
  }

  /**
   * The router that a start creates owns no range. If it lets another device join and draws an address that the founder
   * still has, the founder hands the same address out at its next join, although each step finds what it needs and the
   * number drawn was no address in use.
   */
  lemma FreeDrawIsHandedOut(own: u16, addrs: Range, groups: Range, outside: nat)
    requires 0 < addrs.low && addrs.low + 2 <= addrs.high < 65535 && 0 < groups.low <= groups.high < 65535
    requires outside > 0
    ensures var net := Founder(own, addrs, groups, outside);
            var s3 := JoinTarget(1, false, 0, addrs.low + 2);
            var steps := [Start(0), Deliver(0, 1), s3, JoinTarget(0, false, 0, 0)];
            && PossibleRun(net, steps) && AllAddrMet(net, steps)
            && var n2 := Apply(Apply(net, Start(0)), Deliver(0, 1));
            && Possible(n2, s3) && Holding(addrs.low + 2) !in Holders(n2) && Free(n2, addrs.low + 2)
            && Distinct(Holders(Apply(n2, s3))) && !Distinct(Holders(Run(net, steps)))
  {
    var net := Founder(own, addrs, groups, outside);
    var s1, s2, s3, s4 := Start(0), Deliver(0, 1), JoinTarget(1, false, 0, addrs.low + 2), JoinTarget(0, false, 0, 0);
    StartDelivered(own, addrs, groups, outside);
    var n2 := Apply(Apply(net, s1), s2);
    RouterLetsJoin(n2, addrs, addrs.low + 2);
    OneJoin(Apply(n2, s3), 0, addrs.low + 2, |Holders(n2)|);
    FourSteps(net, s1, s2, s3, s4);
    hide Apply, Holders, Run, PossibleRun, AllAddrMet, Free, Distinct, ProperAddrs;
  }

  /** The founder's start has reached its target. */
  ghost predicate Delivered(net: Net, addrs: Range) {
    && |net.devices| > 1 && net.devices[0].Inside? && net.devices[1].Inside? && net.air == [Opened]
    && (forall i :: 2 <= i < |net.devices| ==> net.devices[i].Outside?)
    && var a, b := net.devices[0].zll, net.devices[1].zll;
       && a.myAddr == addrs.low && b.myAddr == addrs.low + 1 && b.addrLow == b.addrHigh == 0
       && a.addrLow == addrs.low + 2 && a.addrHigh == addrs.high
  }

  lemma StartDelivered(own: u16, addrs: Range, groups: Range, outside: nat)
    requires 0 < addrs.low && addrs.low + 2 <= addrs.high < 65535 && 0 < groups.low <= groups.high < 65535
    requires outside > 0
    ensures var net := Founder(own, addrs, groups, outside);
            && Possible(net, Start(0)) && AddrMet(net, Start(0))
            && var n1 := Apply(net, Start(0));
            Possible(n1, Deliver(0, 1)) && Delivered(Apply(n1, Deliver(0, 1)), addrs)
  {
    var net := Founder(own, addrs, groups, outside);
    var n1 := Apply(net, Start(0));
    assert n1.air[0].Flying? && n1.devices[1] == Outside;
  }

  lemma RouterLetsJoin(net: Net, addrs: Range, x: u16)
    requires Delivered(net, addrs) && 0 < addrs.low && addrs.low + 2 <= x <= addrs.high < 65535
    ensures var step := JoinTarget(1, false, 0, x);
            && Possible(net, step) && AddrMet(net, step) && Holding(x) !in Holders(net) && Free(net, x)
            && var net' := Apply(net, step);
            && ProperAddrs(net') && Distinct(Holders(net')) && |Holders(net')| == |Holders(net)| + 1
            && Holders(net')[|Holders(net)|] == Holding(x)
            && net'.devices[0] == net.devices[0] && |net'.devices| == |net.devices|
  {
    var step := JoinTarget(1, false, 0, x);
    var hs := Holders(net);
    assert hs[0] == Holding(addrs.low) && hs[1] == Holding(addrs.low + 1);
    assert forall k :: 2 <= k < |hs| ==> hs[k] == Nobody;
    HoldersOfRequest(net, step);
    RequestedAddrs(net.devices[1].zll, step);
    assert Holders(Apply(net, step)) == hs + [Holding(x)];
    assert In(AddrLedger(net).free[0], x);
  }
}
