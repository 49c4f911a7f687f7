/**
 * Two nodes that touch: the messages that one commissioning task sends are what the other receives, and
 * at the end both are in the same network, at the addresses that each knows of the other.
 */
module TouchlinkExchange {
  import opened Bytes
  import opened ZllRanges
  import opened Commissioning
  import opened ScanResults

  /** What the other node makes of a message on the air. */
  function Received(o: Output): Command {
    match o
    case StartRequested(grant, channel) => StartReq(StartParams(grant, channel, 0, 0))
    case StartAnswer(success, net) => StartRsp(success, net.channel, net.extPan, net.updateId, net.pan)
    case JoinRequested(router, grant, net) =>
      if router then JoinRouterReq(grant, net.channel, net.pan, net.updateId) else JoinEndDeviceReq
    case JoinAnswer(router, _) => if router then JoinRouterRsp else JoinEndDeviceRsp
    case NwkUpdate(net, nwkAddr) => NwkUpdateReq(net.extPan, net.pan, net.updateId, nwkAddr)
    case DeviceInfoRequest => DeviceInfoReq
    case DeviceInfoAnswer => DeviceInfoRsp
    case FactoryReset => FactoryResetReq
    case _ => OtherCommand
  }

  /** What a node has sent last, as another node receives it. */
  function Spoken(n: Node): Command {
    if n.out == [] then OtherCommand else Received(n.out[|n.out| - 1])
  }

  /** The last thing the node did was to tell its application of a touched device. */
  predicate Reports(n: Node, nwkAddr: u16, source: nat) {
    n.out != [] && n.out[|n.out| - 1] == Touched(nwkAddr, source)
  }

  /** The node handles the message that the other has sent last, in the transaction of the scan. */
  function Hear(n: Node, tid: nat, other: Node, draw: Draw): Node {
    Step(n, Msg(255, tid, Spoken(other)), draw)
  }

  /** An initiator whose target has described itself, and that target, both in one transaction. */
  ghost predicate Touching(a: Node, b: Node) {
    && !a.ctl.halted && a.ctl.state == ScanWaitInfo && !a.session.resetOverAir
    && !b.ctl.halted && b.ctl.state == Active && b.session.tid == a.session.tid
  }

  /** The initiator goes on when the description of its target has come. */
  function Initiate(a: Node, draw: Draw): Node {
    Step(a, Msg(255, a.session.tid, DeviceInfoRsp), draw)
  }

  lemma InitiatorStarts(a: Node, draw: Draw)
    requires !a.ctl.halted && a.ctl.state == ScanWaitInfo && !a.session.resetOverAir && a.zll.factoryNew
    ensures var a' := Initiate(a, draw); var (z, g) := StartRequest(a.zll);
            && a'.out == a.out + [StartRequested(g, DEFAULT_CHANNEL)] && a'.zll == z && a'.session.touched == g.addr
            && a'.ctl == a.ctl.(state := WaitStartRsp, timer := true) && a'.session.target == a.session.target
  {}

  /** The target's part of a start: the request, the end of the discovery, the start of the router. */
  lemma TargetStarts(b: Node, grant: Grant, extPan: nat, pan: u16, draw: Draw)
    requires !b.ctl.halted && b.ctl.state == Active && b.zll.factoryNew
    ensures var b1 := Step(b, Msg(255, b.session.tid, StartReq(StartParams(grant, DEFAULT_CHANNEL, 0, 0))), draw);
            var b2 := Step(b1, DiscoveryDone(extPan, pan), draw);
            var b3 := Step(b2, TimerExpired, draw);
            && b2.out == b.out + [StartAnswer(true, NetParams(extPan, pan, 0, DEFAULT_CHANNEL))]
            && b3.nib == Nib(extPan, pan, b.nib.updateId, grant.addr) && b3.zll.channel == DEFAULT_CHANNEL
            && b3.zll.myAddr == grant.addr && !b3.zll.factoryNew && b3.ctl.state == Idle
  {
    hide HandleNwkUpdateRequest, HandleJoinRouterReq, InIdle, InScanning, InScanDone, InScanWaitInfo, Await;
    hide Finish, Inform;
  }

  /** The initiator's part of a start after the target's answer. */
  lemma InitiatorFinishes(a: Node, net: NetParams, draw: Draw)
    requires !a.ctl.halted && a.ctl.state == WaitStartRsp
    ensures var a2 := Step(a, Msg(255, a.session.tid, Received(StartAnswer(true, net))), draw);
            var a3 := Step(a2, TimerExpired, draw);
            var a4 := Step(a3, TimerExpired, draw);
            && a3.nib == Nib(net.extPan, net.pan, net.updateId, a.zll.myAddr)
            && a3.zll == a.zll.(channel := net.channel, factoryNew := false)
            && a4.nib == a3.nib && a4.zll == a3.zll && a4.ctl.state == Idle
            && (a.session.touched > 0 ==> a4.out == a.out + [Touched(a.session.touched, a.session.target.rsp.source)])
  {
    hide InIdle, InScanning, InScanDone, InScanWaitInfo, InActive, Await, AnswerStart, RunRouter;
  }

  lemma StartAddresses(z: Zll)
    ensures var (z', g) := StartRequest(z); z'.myAddr == z.addrLow && g.addr == Add(z.addrLow, 1) != z.addrLow
  {}

  /**
   * Two factory new nodes: whatever network the target finds, after the start both are in it, on the same
   * channel; they have different addresses, and the initiator reports the address that its target has.
   */
  lemma StartAgrees(a: Node, b: Node, extPan: nat, pan: u16, draw: Draw)
    requires Touching(a, b) && a.zll.factoryNew && b.zll.factoryNew
    ensures var a1 := Initiate(a, draw);
            var b2 := Step(Hear(b, a.session.tid, a1, draw), DiscoveryDone(extPan, pan), draw);
            var b3 := Step(b2, TimerExpired, draw);
            var a3 := Step(Hear(a1, a1.session.tid, b2, draw), TimerExpired, draw);
            var a4 := Step(a3, TimerExpired, draw);
            && a4.nib.extPan == b3.nib.extPan == extPan && a4.nib.pan == b3.nib.pan == pan
            && a4.zll.channel == b3.zll.channel
            && a4.nib.nwkAddr == a4.zll.myAddr == a.zll.addrLow && b3.nib.nwkAddr == b3.zll.myAddr
            && a4.nib.nwkAddr != b3.nib.nwkAddr
            && (b3.nib.nwkAddr > 0 ==> Reports(a4, b3.nib.nwkAddr, a.session.target.rsp.source))
            && !a4.zll.factoryNew && !b3.zll.factoryNew && a4.ctl.state == Idle && b3.ctl.state == Idle
  {
    var a1 := Initiate(a, draw);
    var (_, g) := StartRequest(a.zll);
    InitiatorStarts(a, draw);
    TargetStarts(b, g, extPan, pan, draw);
    InitiatorFinishes(a1, NetParams(extPan, pan, 0, DEFAULT_CHANNEL), draw);
    StartAddresses(a.zll);
    hide Step, StartRequest;
    assert Spoken(a1) == StartReq(StartParams(g, DEFAULT_CHANNEL, 0, 0));
  }

  /** The scan target is factory new or in another network, so that a node of a network lets it join. */
  predicate LetsJoin(a: Node) {
    var rsp := a.session.target.rsp;
    !a.zll.factoryNew && (rsp.factoryNew || rsp.extPan != a.nib.extPan)
  }

  /** Its request is one for a router, unless the target is a factory new end device. */
  predicate ForRouter(a: Node) {
    var rsp := a.session.target.rsp;
    !(rsp.factoryNew && rsp.endDevice)
  }

  /** The ranges and the grant of the initiator's join request. */
  function Request(a: Node, draw: Draw): (Zll, Grant) {
    var rsp := a.session.target.rsp;
    JoinRequest(a.zll, rsp.assign, rsp.groupCount, draw.addr)
  }

  lemma InitiatorJoins(a: Node, draw: Draw)
    requires !a.ctl.halted && a.ctl.state == ScanWaitInfo && !a.session.resetOverAir && LetsJoin(a)
    ensures var a' := Initiate(a, draw);
            var (z, g) := Request(a, draw);
            && a'.out == a.out + [JoinRequested(ForRouter(a), g, NetworkOf(a))] && a'.zll == z
            && a'.ctl == a.ctl.(state := if ForRouter(a) then WaitJoinRtrRsp else WaitJoinZedRsp, timer := true)
            && a'.nib == a.nib && a'.session.touched == g.addr && a'.session.target == a.session.target
  {
    hide JoinRequest, StartRequest;
  }

  lemma TargetJoins(b: Node, grant: Grant, net: NetParams, draw: Draw)
    requires !b.ctl.halted && b.ctl.state == Active
    ensures var b1 := Step(b, Msg(255, b.session.tid, Received(JoinRequested(true, grant, net))), draw);
            var b2 := Step(b1, TimerExpired, draw);
            && b1.out == b.out + [JoinAnswer(true, b.zll.factoryNew)]
            && (if b.zll.factoryNew then
                  && b1.zll == Adopt(b.zll, grant).(channel := net.channel)
                  && b2.nib == b.nib.(pan := net.pan, nwkAddr := grant.addr, updateId := net.updateId)
                  && b2.zll == Adopt(b.zll, grant).(channel := net.channel, factoryNew := false)
                else b1 == b.(out := b1.out))
  {
    hide HandleNwkUpdateRequest, HandleStartReq, InIdle, InScanning, InScanDone, InScanWaitInfo, Await, Inform, Adopt;
  }

  /** Any answer to the join request takes the initiator on to the report of its target. */
  lemma InitiatorReports(a: Node, router: bool, success: bool, draw: Draw)
    requires !a.ctl.halted && a.ctl.state == if router then WaitJoinRtrRsp else WaitJoinZedRsp
    ensures var a2 := Step(a, Msg(255, a.session.tid, Received(JoinAnswer(router, success))), draw);
            var a4 := Step(Step(a2, TimerExpired, draw), TimerExpired, draw);
            && a4.nib == a.nib && a4.zll == a.zll.(factoryNew := false) && a4.ctl.state == Idle
            && (a.session.touched > 0 ==> a4.out == a.out + [Touched(a.session.touched, a.session.target.rsp.source)])
  {
    hide InIdle, InScanning, InScanDone, InScanWaitInfo, InActive, AnswerStart, RunRouter;
  }

  /** The initiator once the target's answer has come and its two pauses are over. */
  function Finished(a1: Node, b1: Node, draw: Draw): Node {
    Step(Step(Hear(a1, a1.session.tid, b1, draw), TimerExpired, draw), TimerExpired, draw)
  }

  /**
   * A node of a network and a factory new router: after the join both are on the same PAN and channel with the
   * same update id, the target owns exactly the ranges it was granted, and the initiator reports its address.
   */
  lemma JoinAgrees(a: Node, b: Node, draw: Draw)
    requires Touching(a, b) && LetsJoin(a) && ForRouter(a) && b.zll.factoryNew
    ensures var a1 := Initiate(a, draw);
            var b1 := Hear(b, a.session.tid, a1, draw);
            var b2, a4 := Step(b1, TimerExpired, draw), Finished(a1, b1, draw);
            var (z, g) := Request(a, draw);
            && a4.nib.pan == b2.nib.pan == a.nib.pan && a4.nib.updateId == b2.nib.updateId == a.nib.updateId
            && a4.zll.channel == b2.zll.channel == z.channel && a4.zll == z.(factoryNew := false)
            && b2.zll == Adopt(b.zll, g).(channel := a.zll.channel, factoryNew := false)
            && b2.nib.nwkAddr == b2.zll.myAddr == g.addr
            && (g.addr > 0 ==> Reports(a4, b2.nib.nwkAddr, a.session.target.rsp.source))
  {
    var a1 := Initiate(a, draw);
    var rsp := a.session.target.rsp;
    InitiatorJoins(a, draw);
    TargetJoins(b, Request(a, draw).1, NetworkOf(a), draw);
    InitiatorReports(a1, true, true, draw);
    JoinKeepsChannel(a.zll, rsp.assign, rsp.groupCount, draw.addr);
    hide Step, JoinRequest;
  }

  lemma JoinKeepsChannel(z: Zll, assign: bool, groupCount: byte, random: u16)
    ensures var z' := JoinRequest(z, assign, groupCount, random).0;
            z'.channel == z.channel && z'.factoryNew == z.factoryNew && z'.myAddr == z.myAddr
  {}

  /**
   * Whatever its scan target is, the initiator ends without the ranges that it gave away, and reports the address
   * that it gave as joined; but the target takes them over, and says so, if and only if it is factory new.
   */
  lemma GrantIsAdoptedIff(a: Node, b: Node, draw: Draw)
    requires Touching(a, b) && LetsJoin(a) && ForRouter(a)
    ensures var a1 := Initiate(a, draw);
            var b1 := Hear(b, a.session.tid, a1, draw);
            var a4 := Finished(a1, b1, draw);
            var (z, g) := Request(a, draw);
            && a4.zll == z.(factoryNew := false) && (g.addr > 0 ==> Reports(a4, g.addr, a.session.target.rsp.source))
            && (b.zll.factoryNew <==>
                b1.zll == Adopt(b.zll, g).(channel := a.zll.channel) && b1.out == b.out + [JoinAnswer(true, true)])
            && (!b.zll.factoryNew <==> b1 == b.(out := b.out + [JoinAnswer(true, false)]))
  {
    var a1 := Initiate(a, draw);
    InitiatorJoins(a, draw);
    TargetJoins(b, Request(a, draw).1, NetworkOf(a), draw);
    InitiatorReports(a1, true, b.zll.factoryNew, draw);
    AnswersDiffer(b.out);
    hide Step, JoinRequest;
  }

  lemma AnswersDiffer(out: seq<Output>)
    ensures out + [JoinAnswer(true, true)] != out + [JoinAnswer(true, false)]
  {
    assert (out + [JoinAnswer(true, true)])[|out|] != (out + [JoinAnswer(true, false)])[|out|];
  }

  /**
   * A router of another network that truthfully says so is asked to join. It refuses and keeps its ranges and its
   * identity; but the initiator does not look at the answer's status: it has given up the ranges and reports the
   * address as joined.
   */
  lemma RefusedJoinIsReported(a: Node, b: Node, draw: Draw)
    requires Touching(a, b) && !a.zll.factoryNew && !b.zll.factoryNew
    requires var rsp := a.session.target.rsp; !rsp.factoryNew && rsp.extPan == b.nib.extPan != a.nib.extPan
    ensures var a1 := Initiate(a, draw);
            var b1 := Hear(b, a.session.tid, a1, draw);
            var a4 := Finished(a1, b1, draw);
            var (z, g) := Request(a, draw);
            && b1 == b.(out := b.out + [JoinAnswer(true, false)])
            && a4.zll == z.(factoryNew := false) && (g.addr > 0 ==> Reports(a4, g.addr, a.session.target.rsp.source))
            && a4.nib.extPan != b1.nib.extPan
  {
    var a1 := Initiate(a, draw);
    InitiatorJoins(a, draw);
    TargetJoins(b, Request(a, draw).1, NetworkOf(a), draw);
    InitiatorReports(a1, true, false, draw);
    hide Step, JoinRequest;
  }

  /**
   * A target that has announced itself as a factory new end device: any task refuses, factory new or not, and the
   * initiator reports it all the same.
   */
  lemma EndDeviceJoinIsRefused(a: Node, b: Node, draw: Draw)
    requires Touching(a, b) && LetsJoin(a) && !ForRouter(a)
    ensures var a1 := Initiate(a, draw);
            var b1 := Hear(b, a.session.tid, a1, draw);
            var a4 := Finished(a1, b1, draw);
            var (z, g) := Request(a, draw);
            && b1 == b.(out := b.out + [JoinAnswer(false, false)])
            && a4.zll == z.(factoryNew := false) && (g.addr > 0 ==> Reports(a4, g.addr, a.session.target.rsp.source))
  {
    var a1 := Initiate(a, draw);
    InitiatorJoins(a, draw);
    EndDeviceRequestIsRefused(b, draw);
    InitiatorReports(a1, false, false, draw);
    hide Step, JoinRequest;
  }

  lemma EndDeviceRequestIsRefused(b: Node, draw: Draw)
    requires !b.ctl.halted && b.ctl.state == Active
    ensures Step(b, Msg(255, b.session.tid, JoinEndDeviceReq), draw) == b.(out := b.out + [JoinAnswer(false, false)])
  {}

  /**
   * The initiator of a start whose answer is lost is still factory new: a node that owns no range, as the router that
   * it started, can let it join, and what it adopts then is no range in place of all its own.
   */
  lemma LostStartIsOverwritten(a: Node, z: Zll, rsp: ScanRsp, net: NetParams, lqi: byte, tid: nat, draw: Draw)
    requires !a.ctl.halted && a.ctl.state == WaitStartRsp && a.zll.factoryNew
    requires z.addrLow == z.addrHigh == 0 && lqi >= SCAN_LQI_MIN
    ensures var (_, g) := JoinRequest(z, rsp.assign, rsp.groupCount, draw.addr);
            var a1 := Step(a, TimerExpired, draw);
            var a2 := Step(a1, Msg(lqi, tid, ScanReq(false)), draw);
            var a3 := Step(a2, Msg(lqi, tid, Received(JoinRequested(true, g, net))), draw);
            && a3.out == a.out + [Description(a, draw.radio), JoinAnswer(true, true)]
            && a3.zll == a.zll.(channel := net.channel, myAddr := g.addr,
                                addrLow := 0, addrHigh := 0, groupLow := 0, groupHigh := 0)
  {
    hide HandleNwkUpdateRequest, HandleStartReq, InScanning, InScanDone, InScanWaitInfo, Inform;
  }

  // ---------- the exchange from the scan request on ----------

  /** A scan answer as it is received; source: the extended address that it comes from. */
  function Response(o: Output, source: nat): ScanRsp
    requires o.ScanAnswer?
  {
    ScanRsp(source, 0, true, o.net.extPan, o.net.pan, o.net.updateId, o.net.channel, false, o.factoryNew, true,
            o.groupCount, o.nwkAddr)
  }

  /** What node b says of itself. */
  function SelfDescription(b: Node, source: nat, radio: byte): ScanRsp {
    Response(Description(b, radio), source)
  }

  /** The node handles some expiries of its timer. */
  function Timeouts(n: Node, m: nat, draw: Draw): Node
    decreases m
  {
    if m == 0 then n else Timeouts(Step(n, TimerExpired, draw), m - 1, draw)
  }

  /** How many expiries end the pass of a scan that has sent its first k requests. */
  function ToGo(a: Node, k: nat): int {
    (if a.ctl.second then 20 else 8) - k + 1
  }

  /** Node a scans, and an idle node b is in reach: a will hear its answer and take it for its best. */
  ghost predicate Meeting(a: Node, b: Node, k: nat, lqi: byte, source: nat, radio: byte) {
    var rsp := SelfDescription(b, source, radio);
    && OnPlan(a, k) && a.ctl.state == Scanning && !a.session.resetOverAir
    && !b.ctl.halted && b.ctl.state == Idle
    && Heard(a, lqi, rsp) && a.session.target.lqi < lqi && !(SameNetwork(a, rsp) && a.nib.updateId != rsp.updateId)
  }

  /** Both nodes when b has answered the scan, the scan is over, and b has described its device. */
  function AfterScan(a: Node, b: Node, k: nat, lqi: byte, source: nat, draw: Draw): (Node, Node)
    requires OnPlan(a, k) && a.ctl.state == Scanning && !b.ctl.halted && b.ctl.state == Idle && lqi >= SCAN_LQI_MIN
  {
    var b1 := Step(b, Msg(lqi, a.session.tid, ScanReq(a.zll.factoryNew)), draw);
    IdleAnswers(b, lqi, a.session.tid, a.zll.factoryNew, draw);
    var rsp := Response(b1.out[|b1.out| - 1], source);
    var a1 := Step(a, Msg(lqi, a.session.tid, ScanResponse(rsp)), draw);
    var a2 := Timeouts(a1, ToGo(a, k) + 2, draw);
    (a2, Hear(b1, a.session.tid, a2, draw))
  }

  lemma IdleAnswers(b: Node, lqi: byte, tid: nat, theirsNew: bool, draw: Draw)
    requires !b.ctl.halted && b.ctl.state == Idle && lqi >= SCAN_LQI_MIN
    ensures var b1 := Step(b, Msg(lqi, tid, ScanReq(theirsNew)), draw);
            b1 == b.(ctl := b.ctl.(state := Active, timer := true), session := b.session.(tid := tid),
                     out := b.out + [Description(b, draw.radio)])
            && b1.out[|b1.out| - 1] == Description(b, draw.radio)
  {}

  lemma ScannerTakes(a: Node, lqi: byte, rsp: ScanRsp, draw: Draw)
    requires !a.ctl.halted && a.ctl.state == Scanning && Heard(a, lqi, rsp) && !rsp.endDevice && rsp.rssi == 0
    requires a.session.target.lqi < lqi && !(SameNetwork(a, rsp) && a.nib.updateId != rsp.updateId)
    ensures Step(a, Msg(lqi, a.session.tid, ScanResponse(rsp)), draw)
            == a.(session := a.session.(target := Target(lqi, rsp)))
  {}

  /** The two nodes differ in how far the scan is and in what has been sent. */
  ghost predicate SameButScan(a: Node, a': Node) {
    a' == a.(ctl := a'.ctl, out := a'.out) && !a'.ctl.halted
  }

  lemma ScanTimer(a: Node, k: nat, draw: Draw)
    requires OnPlan(a, k) && a.ctl.state == Scanning
    ensures var a' := Step(a, TimerExpired, draw);
            && SameButScan(a, a') && a'.ctl.second == a.ctl.second
            && (if ToGo(a, k) == 1 then a'.ctl.state == ScanDone
                else ToGo(a, k) > 1 && a'.ctl.state == Scanning && OnPlan(a', k + 1))
  {
    hide NextSecondary;
    if 8 <= k < 20 {
      SecondaryFollows(k - 8);
    }
  }

  lemma {:induction false} ScanFinishes(a: Node, k: nat, m: nat, draw: Draw)
    requires OnPlan(a, k) && a.ctl.state == Scanning && ToGo(a, k) == m
    ensures m > 0 && SameButScan(a, Timeouts(a, m, draw)) && Timeouts(a, m, draw).ctl.state == ScanDone
    decreases m
  {
    ScanTimer(a, k, draw);
    hide Step, OnPlan;
    if m > 1 {
      ScanFinishes(Step(a, TimerExpired, draw), k + 1, m - 1, draw);
    }
  }

  lemma {:induction false} TimeoutsAdd(n: Node, m: nat, draw: Draw)
    ensures Timeouts(n, m + 2, draw) == Step(Step(Timeouts(n, m, draw), TimerExpired, draw), TimerExpired, draw)
    decreases m
  {
    hide Step;
    var n1 := Step(n, TimerExpired, draw);
    if m > 0 {
      TimeoutsAdd(n1, m - 1, draw);
    } else {
      assert Timeouts(n1, 1, draw) == Timeouts(Step(n1, TimerExpired, draw), 0, draw);
    }
  }

  lemma ScanIsFollowedUp(a: Node, draw: Draw)
    requires !a.ctl.halted && a.ctl.state == ScanDone && a.session.target.lqi != 0 && !a.session.target.rsp.endDevice
    ensures var a' := Step(Step(a, TimerExpired, draw), TimerExpired, draw);
            && SameButScan(a, a') && a'.ctl.state == ScanWaitInfo && Spoken(a') == DeviceInfoReq
  {}

  lemma TargetDescribes(b: Node, draw: Draw)
    requires !b.ctl.halted && b.ctl.state == Active
    ensures Step(b, Msg(255, b.session.tid, DeviceInfoReq), draw) == b.(out := b.out + [DeviceInfoAnswer])
  {}

  /** An idle node that hears the scan becomes its target, and the initiator knows of it exactly what it is. */
  lemma ScanMeets(a: Node, b: Node, k: nat, lqi: byte, source: nat, draw: Draw)
    requires Meeting(a, b, k, lqi, source, draw.radio)
    ensures lqi >= SCAN_LQI_MIN
    ensures var (a2, b2) := AfterScan(a, b, k, lqi, source, draw);
            && Touching(a2, b2) && a2.zll == a.zll && a2.nib == a.nib && b2.zll == b.zll && b2.nib == b.nib
            && a2.session.target.rsp == SelfDescription(b, source, draw.radio) && a2.session.tid == a.session.tid
  {
    var rsp := SelfDescription(b, source, draw.radio);
    HeardIsStrong(a, lqi, rsp);
    IdleAnswers(b, lqi, a.session.tid, a.zll.factoryNew, draw);
    ScannerTakes(a, lqi, rsp, draw);
    var a1 := a.(session := a.session.(target := Target(lqi, rsp)));
    assert OnPlan(a1, k);
    var m := ToGo(a, k);
    ScanFinishes(a1, k, m, draw);
    TimeoutsAdd(a1, m, draw);
    ScanIsFollowedUp(Timeouts(a1, m, draw), draw);
    var b1 := Step(b, Msg(lqi, a.session.tid, ScanReq(a.zll.factoryNew)), draw);
    TargetDescribes(b1, draw);
    hide Step, Timeouts, OnPlan, Heard, SameNetwork, Description;
  }

  lemma HeardIsStrong(a: Node, lqi: byte, rsp: ScanRsp)
    requires Heard(a, lqi, rsp) && rsp.rssi == 0
    ensures lqi >= SCAN_LQI_MIN
  {}

  /**
   * From the scan on, a node of a network and any node in reach: if that is factory new or in another network, it is
   * asked to join and takes over the ranges of the request if and only if it is factory new, while the initiator
   * reports the address it gave in any case; if it is in the same network, only its address is reported.
   */
  lemma JoinFromScan(a: Node, b: Node, k: nat, lqi: byte, source: nat, draw: Draw)
    requires Meeting(a, b, k, lqi, source, draw.radio) && !a.zll.factoryNew && lqi >= SCAN_LQI_MIN
    ensures var (a2, b2) := AfterScan(a, b, k, lqi, source, draw);
            var a3 := Initiate(a2, draw);
            var b3 := Hear(b2, a.session.tid, a3, draw);
            if b.zll.factoryNew || b.nib.extPan != a.nib.extPan then
              var (z, g) := JoinRequest(a.zll, true, b.groupCount, draw.addr);
              var a5 := Finished(a3, b3, draw);
              && a5.zll == z.(factoryNew := false) && (g.addr > 0 ==> Reports(a5, g.addr, source))
              && b3.out == b2.out + [JoinAnswer(true, b.zll.factoryNew)]
              && b3.zll == if b.zll.factoryNew then Adopt(b.zll, g).(channel := a.zll.channel) else b.zll
            else
              && a3.zll == a.zll && a3.out == a2.out
              && (b.nib.nwkAddr > 0 ==> Reports(Step(a3, TimerExpired, draw), b.nib.nwkAddr, source))
  {
    ScanMeets(a, b, k, lqi, source, draw);
    var (a2, b2) := AfterScan(a, b, k, lqi, source, draw);
    DescriptionIsTrue(b, source, draw.radio);
    if b.zll.factoryNew || b.nib.extPan != a.nib.extPan {
      GrantIsAdoptedIff(a2, b2, draw);
    } else {
      MemberIsReported(a2, draw);
    }
    hide Step, JoinRequest, AfterScan, Meeting, Description, Finished;
  }

  lemma DescriptionIsTrue(b: Node, source: nat, radio: byte)
    ensures var rsp := SelfDescription(b, source, radio);
            && rsp.source == source && rsp.factoryNew == b.zll.factoryNew && !rsp.endDevice && rsp.assign
            && rsp.groupCount == b.groupCount
            && (!b.zll.factoryNew ==> rsp.extPan == b.nib.extPan && rsp.nwkAddr == b.nib.nwkAddr)
  {}

  /** A target in the same network is reported with the address that it said it has. */
  lemma MemberIsReported(a: Node, draw: Draw)
    requires !a.ctl.halted && a.ctl.state == ScanWaitInfo && !a.session.resetOverAir && !a.zll.factoryNew
    requires var rsp := a.session.target.rsp; !rsp.factoryNew && rsp.extPan == a.nib.extPan
    ensures var a' := Initiate(a, draw);
            var rsp := a.session.target.rsp;
            && a'.zll == a.zll && a'.out == a.out
            && (rsp.nwkAddr > 0 ==> Reports(Step(a', TimerExpired, draw), rsp.nwkAddr, rsp.source))
  {
    hide JoinRequest, StartRequest, InIdle, InScanning, InScanDone, InActive, Await, AnswerStart, RunRouter;
  }

  /**
   * From the scan on, a factory new node and any node in reach: the initiator sends a start request and gives up two
   * addresses; a factory new target and it end in one network, and any other target refuses and stays as it is.
   */
  lemma StartFromScan(a: Node, b: Node, k: nat, lqi: byte, source: nat, extPan: nat, pan: u16, draw: Draw)
    requires Meeting(a, b, k, lqi, source, draw.radio) && a.zll.factoryNew && lqi >= SCAN_LQI_MIN
    ensures var (a2, b2) := AfterScan(a, b, k, lqi, source, draw);
            var a3 := Initiate(a2, draw);
            var b3 := Hear(b2, a.session.tid, a3, draw);
            && a3.zll == StartRequest(a.zll).0
            && if b.zll.factoryNew then
              var b4 := Step(b3, DiscoveryDone(extPan, pan), draw);
              var b5 := Step(b4, TimerExpired, draw);
              var a5 := Step(Step(Hear(a3, a.session.tid, b4, draw), TimerExpired, draw), TimerExpired, draw);
              && a5.nib.extPan == b5.nib.extPan == extPan && a5.nib.pan == b5.nib.pan == pan
              && a5.zll.channel == b5.zll.channel && a5.nib.nwkAddr == a.zll.addrLow != b5.nib.nwkAddr
              && (b5.nib.nwkAddr > 0 ==> Reports(a5, b5.nib.nwkAddr, source))
            else
              var a5 := Step(Hear(a3, a.session.tid, b3, draw), TimerExpired, draw);
              && b3.zll == b.zll && b3.nib == b.nib && b3.ctl == b2.ctl
              && b3.out == b2.out + [StartAnswer(false, NetParams(0, 0, 0, 0))]
              && a5.zll == a3.zll && a5.nib == a.nib && a5.ctl.state == Idle && a5.out == a3.out
  {
    ScanMeets(a, b, k, lqi, source, draw);
    var (a2, b2) := AfterScan(a, b, k, lqi, source, draw);
    DescriptionIsTrue(b, source, draw.radio);
    InitiatorStarts(a2, draw);
    if b.zll.factoryNew {
      StartAgrees(a2, b2, extPan, pan, draw);
    } else {
      StartIsRefused(a2, b2, draw);
    }
    InitiatorTid(a2, draw);
    hide Step, StartRequest, AfterScan, Meeting, Description;
  }

  lemma InitiatorTid(a: Node, draw: Draw)
    requires !a.ctl.halted && a.ctl.state == ScanWaitInfo && !a.session.resetOverAir && a.zll.factoryNew
    ensures Initiate(a, draw).session.tid == a.session.tid
  {
    hide StartRequest;
  }

  /** A target that belongs to a network refuses a start; the initiator gives up when no success comes. */
  lemma StartIsRefused(a: Node, b: Node, draw: Draw)
    requires Touching(a, b) && a.zll.factoryNew && !b.zll.factoryNew
    ensures var a1 := Initiate(a, draw);
            var b1 := Hear(b, a.session.tid, a1, draw);
            var a3 := Step(Hear(a1, a.session.tid, b1, draw), TimerExpired, draw);
            && b1.zll == b.zll && b1.nib == b.nib && b1.ctl == b.ctl
            && b1.out == b.out + [StartAnswer(false, NetParams(0, 0, 0, 0))]
            && a3.zll == a1.zll == StartRequest(a.zll).0 && a3.nib == a.nib && a3.ctl.state == Idle && a3.out == a1.out
  {
    var a1 := Initiate(a, draw);
    var (_, g) := StartRequest(a.zll);
    InitiatorStarts(a, draw);
    InitiatorKeepsNib(a, draw);
    RefusesStart(b, StartParams(g, DEFAULT_CHANNEL, 0, 0), draw);
    GivesUp(a1, a.session.tid, NetParams(0, 0, 0, 0), draw);
    hide Step, StartRequest;
    assert Spoken(a1) == StartReq(StartParams(g, DEFAULT_CHANNEL, 0, 0));
  }

  lemma InitiatorKeepsNib(a: Node, draw: Draw)
    requires !a.ctl.halted && a.ctl.state == ScanWaitInfo && !a.session.resetOverAir && a.zll.factoryNew
    ensures Initiate(a, draw).nib == a.nib
  {
    hide StartRequest;
  }

  lemma RefusesStart(b: Node, params: StartParams, draw: Draw)
    requires !b.ctl.halted && b.ctl.state == Active && !b.zll.factoryNew
    ensures Step(b, Msg(255, b.session.tid, StartReq(params)), draw)
            == b.(start := params, out := b.out + [StartAnswer(false, NetParams(0, 0, 0, 0))])
  {}

  lemma GivesUp(a: Node, tid: nat, net: NetParams, draw: Draw)
    requires !a.ctl.halted && a.ctl.state == WaitStartRsp
    ensures var a' := Step(Step(a, Msg(255, tid, Received(StartAnswer(false, net))), draw), TimerExpired, draw);
            a'.zll == a.zll && a'.nib == a.nib && a'.ctl.state == Idle && a'.out == a.out
  {}

  /**
   * Two nodes of one network: a scan response with an older update id is answered with a network update request,
   * and the responder then has the initiator's update id and the address it answered with, if its PAN id does
   * not fit a byte; otherwise nothing changes.
   */
  lemma UpdateSpreadsIff(a: Node, b: Node, lqi: byte, rsp: ScanRsp, draw: Draw)
    requires !a.ctl.halted && a.ctl.state == Scanning && Heard(a, lqi, rsp) && SameNetwork(a, rsp)
    requires a.nib.updateId != rsp.updateId && NewUpdateId(a.nib.updateId, rsp.updateId) == a.nib.updateId
    requires !b.ctl.halted && b.ctl.state == Active && b.session.tid == a.session.tid
    requires b.nib == Nib(rsp.extPan, rsp.pan, rsp.updateId, rsp.nwkAddr)
    ensures var a1 := Step(a, Msg(lqi, a.session.tid, ScanResponse(rsp)), draw);
            a1.out == a.out + [NwkUpdate(NetworkOf(a), rsp.nwkAddr)]
            && Hear(b, a.session.tid, a1, draw).nib
               == if b.nib.pan >= 256 then a.nib.(nwkAddr := b.nib.nwkAddr) else b.nib
  {
    hide HandleJoinRouterReq, HandleStartReq, InIdle, InScanDone, InScanWaitInfo;
  }
}
