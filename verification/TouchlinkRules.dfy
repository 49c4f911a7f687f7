/**
 * What a commissioning task accepts and what it lets pass: which responses can become its target, which requests
 * it answers while it scans itself, whose orders it takes, and what comes of a reset and of a given network.
 */
module TouchlinkRules {
  import opened Bytes
  import opened ZllRanges
  import opened Commissioning
  import opened ScanResults
  import opened TouchlinkExchange

  // ---------- scan responses ----------

  /** The response is strong enough, with the correction that it announces. */
  predicate Strong(h: Answer) {
    h.lqi + h.rsp.rssi >= 110
  }

  /**
   * What can become the target, by the role of the node. A factory new node takes routers that it shares a key with;
   * a node of a network takes what answers from there, unless its update id differs; and from elsewhere, if its
   * network is open to that, what it shares a key with and is factory new or a router.
   */
  lemma PassesByRole(n: Node, h: Answer)
    ensures var rsp := h.rsp;
            Passes(n, h) <==>
              && Strong(h)
              && if n.zll.factoryNew then rsp.commonKey && !rsp.endDevice
                 else if rsp.extPan == n.nib.extPan then rsp.pan != n.nib.pan || rsp.updateId == n.nib.updateId
                 else n.openTrust && rsp.commonKey && (rsp.factoryNew || !rsp.endDevice)
  {}

  /** A scanning node hears a strong response of its own network; the versions are those of the two update ids. */
  ghost predicate HearsOwn(n: Node, rsp: ScanRsp, lqi: byte, ours: nat, theirs: nat) {
    && !n.ctl.halted && n.ctl.state == Scanning && !n.zll.factoryNew && lqi + rsp.rssi >= 110
    && rsp.extPan == n.nib.extPan && rsp.pan == n.nib.pan
    && n.nib.updateId == ours % 256 && rsp.updateId == theirs % 256 && -55 <= ours - theirs <= 55
  }

  /**
   * Of two nodes of one network the one that missed an update follows: a newer id makes the node take it over with
   * its channel, stop scanning and rejoin; an older one makes it send its own network to the other.
   */
  lemma FresherNetworkWins(n: Node, rsp: ScanRsp, lqi: byte, tid: nat, ours: nat, theirs: nat, draw: Draw)
    requires HearsOwn(n, rsp, lqi, ours, theirs) && ours != theirs
    ensures var m := Step(n, Msg(lqi, tid, ScanResponse(rsp)), draw);
            if ours < theirs then
              && m.nib == n.nib.(updateId := rsp.updateId) && m.zll == n.zll.(channel := rsp.channel)
              && m.out == n.out + [Rejoin] && m.ctl.state == Idle && !m.ctl.timer && m.session.tid == 0
            else
              && m.nib == n.nib && m.zll == n.zll && m.ctl == n.ctl && m.session == n.session
              && m.out == n.out + [NwkUpdate(NetParams(n.nib.extPan, n.nib.pan, n.nib.updateId, n.zll.channel),
                                             rsp.nwkAddr)]
  {
    FresherIsSelected(ours, theirs);
    IdsDiffer(ours, theirs);
    hide NewUpdateId;
  }

  lemma IdsDiffer(ours: nat, theirs: nat)
    requires -55 <= ours - theirs <= 55 && ours != theirs
    ensures ours % 256 != theirs % 256
  {}

  // ---------- the scans of others ----------

  /** A scan request that comes in too weak is nothing to a node at rest or on a scan. */
  lemma WeakScanIsIgnored(n: Node, lqi: byte, tid: nat, theirsNew: bool, draw: Draw)
    requires (n.ctl.state == Idle || n.ctl.state == Scanning) && lqi < 110
    ensures Step(n, Msg(lqi, tid, ScanReq(theirsNew)), draw) == n
  {}

  /**
   * Two nodes that scan at once: a factory new one gives up for a node of a network and becomes its target; any other
   * answers the first request of its scan only, and then tells about its device in that transaction and no other.
   */
  lemma RivalScan(n: Node, lqi: byte, tid: nat, theirsNew: bool, other: nat, draw: Draw)
    requires !n.ctl.halted && n.ctl.state == Scanning && lqi >= 110
    ensures var m := Step(n, Msg(lqi, tid, ScanReq(theirsNew)), draw);
            if n.zll.factoryNew && !theirsNew then
              && m.ctl.state == Active && m.ctl.timer && m.session.tid == tid
              && m.out == n.out + [Description(n, draw.radio)]
            else if n.session.responded then m == n
            else
              && m.ctl == n.ctl && m.session.tid == n.session.tid && m.session.target == n.session.target
              && m.out == n.out + [Description(n, draw.radio)]
              && Step(m, Msg(lqi, other, ScanReq(theirsNew)), draw) == m
              && Step(m, Msg(lqi, other, DeviceInfoReq), draw).out
                 == if other == tid then m.out + [DeviceInfoAnswer] else m.out
  {
    hide HandleScanResponse, SendScanRequest, Description;
  }

  /** A target takes orders, and an initiator the description of its target, in the transaction of the scan only. */
  lemma OtherTransactionIsIgnored(n: Node, lqi: byte, tid: nat, command: Command, draw: Draw)
    requires n.ctl.state == Active || n.ctl.state == ScanWaitInfo
    requires tid != n.session.tid
    ensures Step(n, Msg(lqi, tid, command), draw) == n
  {}

  /** What a node listens for while it waits, besides its timer. */
  predicate Awaited(n: Node, e: Event) {
    match n.ctl.state
    case Idle => e.StartTouchlink? || (e.Msg? && e.command.ScanReq?)
    case Active => (e.StartTouchlink? && !n.zll.factoryNew) || e.Msg?
    case ScanWaitInfo => e.Msg? && e.command.DeviceInfoRsp?
    case WaitStartRsp => e.Msg? && e.command.StartRsp?
    case WaitJoinRtrRsp => e.Msg? && e.command.JoinRouterRsp?
    case WaitJoinZedRsp => e.Msg? && e.command.JoinEndDeviceRsp?
    case WaitDiscovery => e.DiscoveryDone?
    case WaitLeaveReset => e.LeaveConfirmed?
    case ScanWaitId => false
    case WaitStartUp => false
    case WaitLeave => false
    case _ => true
  }

  /** A waiting node is deaf to everything else. */
  lemma WaitingNodeIsDeaf(n: Node, e: Event, draw: Draw)
    requires !Awaited(n, e) && !e.TimerExpired?
    ensures Step(n, e, draw) == n
  {
    hide HandleStartRsp, Obey, Proceed, BeginScan, AnswerScan, HandleScanResponse, SendScanRequest;
  }

  /** An expiry of its timer always moves it on, unless it rests, scans, or waits for a discovery or for a leave. */
  lemma ExpiryMovesOn(n: Node, draw: Draw)
    ensures !n.ctl.halted && n.ctl.state !in {Idle, Scanning, WaitDiscovery, WaitLeave, WaitLeaveReset} ==>
              Step(n, TimerExpired, draw).ctl.state != n.ctl.state
  {
    hide HandleStartRsp, InIdle, InScanning, NextSecondary, HandleScanResponse;
  }

  // ---------- orders ----------

  /**
   * An initiator that is to reset its target over the air does only that, and comes to rest as it was; a target of a
   * network leaves it, and is reset when the leave is confirmed or not confirmed in time; a factory new one stays.
   */
  lemma ResetIsObeyed(a: Node, b: Node, next: Event, later: Event, draw: Draw)
    requires !a.ctl.halted && a.ctl.state == ScanWaitInfo && a.session.resetOverAir
    requires !b.ctl.halted && b.ctl.state == Active && b.session.tid == a.session.tid
    ensures var a1 := Initiate(a, draw);
            var a2 := Step(a1, next, draw);
            var b1 := Hear(b, a.session.tid, a1, draw);
            && a1.out == a.out + [FactoryReset] && !a1.session.resetOverAir
            && a2.ctl.state == Idle && a2.zll == a.zll && a2.nib == a.nib && a2.out == a1.out
            && if b.zll.factoryNew then b1 == b
               else
                 && b1.out == b.out + [Leave] && b1.zll == b.zll && b1.nib == b.nib && !b1.ctl.halted
                 && (Step(b1, later, draw).ctl.halted <==> later.LeaveConfirmed? || later.TimerExpired?)
                 && Step(b1, later, draw).out == b1.out
  {
    hide HandleNwkUpdateRequest, HandleJoinRouterReq, HandleStartReq, InIdle, InScanning, InScanDone, Await;
    hide AnswerStart, RunRouter, Finish, Inform, SendStartRequest, SendJoinRequest, Report;
  }

  /**
   * A factory new node that is told which network to start starts that one, on channel 15 if none is given, at the
   * next two events whatever they are; it is then in that network, open to others, at the address it was granted.
   */
  lemma GivenNetworkIsStarted(b: Node, start: StartParams, next: Event, last: Event, draw: Draw)
    requires !b.ctl.halted && b.ctl.state == Active && b.zll.factoryNew && start.extPan != 0 && start.pan != 0
    ensures var channel := if start.channel == 0 then 15 else start.channel;
            var b1 := Step(b, Msg(255, b.session.tid, StartReq(start)), draw);
            var b2 := Step(b1, next, draw);
            var b3 := Step(b2, last, draw);
            && b1.out == b.out && b2.out == b.out + [StartAnswer(true, NetParams(start.extPan, start.pan, 0, channel))]
            && b3.out == b2.out && b3.ctl.state == Idle && !b3.ctl.timer && b3.session.tid == 0 && b3.openTrust
            && b3.nib == Nib(start.extPan, start.pan, b.nib.updateId, start.grant.addr)
            && b3.zll == Adopt(b.zll, start.grant).(channel := channel, factoryNew := false)
  {
    hide HandleNwkUpdateRequest, HandleJoinRouterReq, InIdle, InScanning, InScanDone, InScanWaitInfo, Await;
    hide Finish, Inform, Adopt;
  }

  /** A node that ends its start or join is not factory new any more, but open to others if it was. */
  lemma FinishedIsOpen(n: Node, draw: Draw)
    requires !n.ctl.halted && n.ctl.state == WaitStartUp
    ensures var m := Step(n, TimerExpired, draw);
            && !m.zll.factoryNew && m.openTrust == (n.openTrust || n.zll.factoryNew) && m.nib == n.nib
            && m.zll == n.zll.(factoryNew := false) && m.session.tid == 0 && m.session.touched == n.session.touched
  {}
}
