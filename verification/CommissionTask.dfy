/** The commissioning task with its global structures, statement by statement; an event is one step of Commissioning. */
module CommissionTask {
  import opened Bytes
  import opened ZllRanges
  import opened Commissioning
  import Runs = CommissioningRuns

  class Task {
    const coordinator: bool
    // from the device table
    const groupCount: byte
    // sCommission: the state, the scan position and its timer, and the transaction with the scan target
    var ctl: Control
    var session: Session
    // sZllState
    var zll: Zll
    // what the network layer persists, and whether the trust centre address is all ones
    var nib: Nib
    var openTrust: bool
    // sStartParams
    var start: StartParams
    // commands sent and stack calls made
    var out: seq<Output>

    ghost function Current(): Node
      reads this
    {
      Node(ctl, session, zll, nib, openTrust, start, groupCount, out)
    }

    /** An idle task over the persisted state. */
    constructor (coordinator: bool, groupCount: byte, zll: Zll, nib: Nib, openTrust: bool, start: StartParams,
                 target: Target)
      ensures this.coordinator == coordinator
      ensures Current() == Node(Control(Idle, 0, false, false, false), Session(false, 0, 0, target, 0, false), zll, nib,
                                openTrust, start, groupCount, [])
    {
      this.coordinator, this.groupCount := coordinator, groupCount;
      ctl := Control(Idle, 0, false, false, false);
      session := Session(false, 0, 0, target, 0, false);
      this.zll, this.nib, this.openTrust, this.start, out := zll, nib, openTrust, start, [];
    }

    // ---------- helpers ----------

    method Send(o: Output)
      modifies this`out
      ensures out == old(out) + [o]
    {
      out := out + [o];
    }

    method StartTimer()
      modifies this`ctl
      ensures ctl == old(ctl).(timer := true)
    {
      ctl := ctl.(timer := true);
    }

    method EndCommissioning(next: State, restart: bool)
      modifies this`ctl, this`session
      ensures Current() == End(old(Current()), next, restart)
    {
      ctl := ctl.(state := next);
      session := session.(tid := 0);
      session := session.(responded := false);
      ctl := ctl.(timer := false);
      if restart {
        StartTimer();
      }
    }

    /** The start of a scan, from rest or in place of the one this node is the target of. */
    method StartScan(draw: Draw)
      modifies this`ctl, this`session
      ensures Current() == BeginScan(old(Current()), draw)
    {
      ctl := ctl.(count := 0);
      session := session.(target := session.target.(lqi := 0));
      StartTimer();
      ctl := ctl.(state := Scanning);
      session := session.(tid := draw.tid);
      session := session.(responded := false);
      ctl := ctl.(second := false);
    }

    /** What the node says of itself; the payload is all zero until it is filled in. */
    method SendScanResponse(radio: byte)
      modifies this`out
      ensures out == old(out) + [Description(old(Current()), radio)]
    {
      var extPan, pan, updateId, nwkAddr := 0, 0, 0, 0;
      if zll.factoryNew {
        nwkAddr := 0xFFFF;
      } else {
        extPan := nib.extPan;
        updateId := nib.updateId;
        pan := nib.pan;
        nwkAddr := nib.nwkAddr;
      }
      Send(ScanAnswer(NetParams(extPan, pan, updateId, radio), zll.factoryNew, groupCount, nwkAddr));
    }

    method AnswerScanRequest(transaction: nat, radio: byte)
      modifies this`session, this`out, this`ctl
      ensures Current() == AnswerScan(old(Current()), transaction, radio)
    {
      session := session.(tid := transaction);
      SendScanResponse(radio);
      ctl := ctl.(state := Active);
      StartTimer();
    }

    method SendNextScanRequest()
      modifies this`ctl, this`out
      ensures Current() == SendScanRequest(old(Current()))
    {
      if (ctl.count == 8 && !ctl.second) || (ctl.count == 27 && ctl.second) {
        ctl := ctl.(state := ScanDone);
        StartTimer();
      } else {
        var position := ctl.count;
        ctl := ctl.(count := (ctl.count + 1) % 256);
        if ctl.second && (ctl.count == 11 || ctl.count == 15 || ctl.count == 20 || ctl.count == 25) {
          ctl := ctl.(count := (ctl.count + 1) % 256);
        }
        Send(ScanRequest(ctl.second, position));
        StartTimer();
      }
    }

    // ---------- scan responses ----------

    method NewerUpdateId(id1: byte, id2: byte) returns (id: byte)
      ensures id == NewUpdateId(id1, id2)
    {
      var distance := if id1 < id2 then id2 - id1 else id1 - id2;
      if distance > 200 {
        return if id1 < id2 then id1 else id2;
      }
      return if id1 < id2 then id2 else id1;
    }

    method TakeScanResponse(lqi: byte, rsp: ScanRsp)
      modifies this`out, this`nib, this`zll, this`ctl, this`session
      ensures Current() == HandleScanResponse(old(Current()), lqi, rsp)
    {
      hide NewUpdateId;
      var adjusted := lqi + rsp.rssi;
      if adjusted < SCAN_LQI_MIN {
        return;
      }
      if !zll.factoryNew && rsp.extPan != nib.extPan && !openTrust {
        return;
      }
      if !rsp.commonKey {
        if zll.factoryNew || (!zll.factoryNew && rsp.extPan != nib.extPan) {
          return;
        }
      }
      assert Commissioning.Heard(old(Current()), lqi, rsp);
      if !zll.factoryNew && rsp.extPan == nib.extPan && rsp.pan == nib.pan {
        if nib.updateId != rsp.updateId {
          var newer := NewerUpdateId(nib.updateId, rsp.updateId);
          if nib.updateId == newer {
            Send(NwkUpdate(NetParams(nib.extPan, nib.pan, nib.updateId, zll.channel), rsp.nwkAddr));
            return;
          } else {
            nib := nib.(updateId := rsp.updateId);
            zll := zll.(channel := rsp.channel);
            EndCommissioning(Idle, false);
            Send(Rejoin);
            return;
          }
        }
      }
      if (zll.factoryNew && rsp.endDevice)
         || (!zll.factoryNew && rsp.endDevice && !rsp.factoryNew && rsp.extPan != nib.extPan) {
        return;
      }
      if adjusted > session.target.lqi {
        session := session.(target := Target(adjusted, rsp));
      }
    }

    // ---------- requests to other nodes ----------

    method SendStart()
      modifies this`zll, this`session, this`out
      ensures Current() == SendStartRequest(old(Current()))
    {
      zll := zll.(groupLow := Add(zll.groupLow, GROUPS_REQUIRED));
      zll := zll.(myAddr := zll.addrLow);
      zll := zll.(addrLow := Add(zll.addrLow, 1));
      session := session.(touched := zll.addrLow);
      var given := zll.addrLow;
      zll := zll.(addrLow := Add(zll.addrLow, 1));
      Send(StartRequested(Grant(given, 0, 0, 0, 0, 0, 0), DEFAULT_CHANNEL));
    }

    /** The addresses of a join request, and the ranges when the target can assign addresses itself. */
    method AssignAddresses(draw: Draw) returns (addr: u16, addrBegin: u16, addrEnd: u16, groupBegin: u16, groupEnd: u16)
      modifies this`session, this`zll
      ensures session == old(session).(touched := addr)
      ensures (zll, Grant(addr, addrBegin, addrEnd, 0, 0, groupBegin, groupEnd))
              == AssignRanges(old(zll), session.target.rsp.assign, draw.addr)
    {
      addrBegin, addrEnd, groupBegin, groupEnd := 0, 0, 0, 0;
      if zll.addrLow == 0 {
        session := session.(touched := draw.addr);
        addr := session.touched;
      } else {
        session := session.(touched := zll.addrLow);
        addr := zll.addrLow;
        zll := zll.(addrLow := Add(zll.addrLow, 1));
        if session.target.rsp.assign {
          addrBegin := Middle(zll.addrLow, zll.addrHigh);
          addrEnd := zll.addrHigh;
          zll := zll.(addrHigh := Add(addrBegin, -1));
          groupBegin := Middle(zll.groupLow, zll.groupHigh);
          groupEnd := zll.groupHigh;
          zll := zll.(groupHigh := Add(groupBegin, -1));
        }
      }
    }

    method SendJoin(router: bool, draw: Draw)
      modifies this`session, this`zll, this`out
      ensures Current() == SendJoinRequest(old(Current()), router, draw)
    {
      hide AssignRanges;
      var network := NetParams(nib.extPan, nib.pan, nib.updateId, zll.channel);
      var addr, addrBegin, addrEnd, freeGroupBegin, freeGroupEnd := AssignAddresses(draw);
      var groupBegin, groupEnd := 0, 0;
      var groupCount := session.target.rsp.groupCount;
      if groupCount != 0 {
        groupBegin := zll.groupLow;
        groupEnd := Add(zll.groupLow, groupCount - 1);
        zll := zll.(groupLow := Add(zll.groupLow, groupCount));
      }
      var grant := Grant(addr, addrBegin, addrEnd, groupBegin, groupEnd, freeGroupBegin, freeGroupEnd);
      Send(JoinRequested(router, grant, network));
    }

    // ---------- requests and responses of other nodes ----------

    method TakeNwkUpdateRequest(theirExtPan: nat, theirPan: u16, newId: byte, newAddr: u16)
      modifies this`nib
      ensures Current() == HandleNwkUpdateRequest(old(Current()), theirExtPan, theirPan, newId, newAddr)
    {
      hide NewUpdateId;
      if theirExtPan == nib.extPan && theirPan == nib.pan {
        var newer := NewerUpdateId(nib.pan % 256, theirPan % 256);
        if nib.pan != newer {
          nib := nib.(updateId := newId);
          nib := nib.(nwkAddr := newAddr);
        }
      }
    }

    method TakeStartResponse(c: Command)
      requires c.StartRsp?
      modifies this`zll, this`nib, this`ctl
      ensures Current() == HandleStartRsp(old(Current()), c)
    {
      if c.success {
        zll := zll.(channel := c.channel);
        nib := nib.(extPan := c.extPan);
        nib := nib.(nwkAddr := zll.myAddr);
        nib := nib.(updateId := c.updateId);
        nib := nib.(pan := c.pan);
        StartTimer();
        ctl := ctl.(state := WaitStartUp);
      }
    }

    method TakeStartRequest(params: StartParams, draw: Draw)
      modifies this`start, this`ctl, this`out
      ensures Current() == HandleStartReq(old(Current()), params, draw)
    {
      start := params;
      if zll.factoryNew {
        if start.extPan == 0 || start.pan == 0 {
          if start.extPan == 0 {
            start := start.(extPan := draw.extPan);
          }
          if start.pan == 0 {
            start := start.(pan := draw.pan);
          }
          ctl := ctl.(state := WaitDiscovery);
        } else {
          ctl := ctl.(state := SkipDiscovery);
          StartTimer();
        }
      } else {
        Send(StartAnswer(false, NetParams(0, 0, 0, 0)));
      }
    }

    method AdoptRanges(g: Grant)
      modifies this`zll
      ensures zll == Adopt(old(zll), g)
    {
      zll := zll.(myAddr := g.addr);
      zll := zll.(addrLow := g.addrBegin);
      zll := zll.(addrHigh := g.addrEnd);
      zll := zll.(groupLow := g.freeGroupBegin);
      zll := zll.(groupHigh := g.freeGroupEnd);
    }

    method TakeRouterJoinRequest(c: Command)
      requires c.JoinRouterReq?
      modifies this
      ensures Current() == HandleJoinRouterReq(old(Current()), c)
    {
      Send(JoinAnswer(true, zll.factoryNew));
      if zll.factoryNew {
        AdoptRanges(c.grant);
        zll := zll.(channel := c.channel);
        nib := nib.(pan := c.pan);
        nib := nib.(nwkAddr := zll.myAddr);
        nib := nib.(updateId := c.updateId);
        StartTimer();
        ctl := ctl.(state := WaitStartUp);
      }
    }

    method SendStartAnswer()
      modifies this`start, this`out, this`ctl
      ensures Current() == AnswerStart(old(Current()))
    {
      if start.channel == 0 {
        start := start.(channel := DEFAULT_CHANNEL);
      }
      Send(StartAnswer(true, NetParams(start.extPan, start.pan, 0, start.channel)));
      ctl := ctl.(state := StartRouter);
      StartTimer();
    }

    method BecomeRouter()
      modifies this
      ensures Current() == RunRouter(old(Current()))
    {
      AdoptRanges(start.grant);
      zll := zll.(channel := start.channel);
      zll := zll.(factoryNew := false);
      nib := nib.(nwkAddr := start.grant.addr);
      nib := nib.(pan := start.pan);
      nib := nib.(extPan := start.extPan);
      openTrust := true;
      ctl := ctl.(state := Idle);
      session := session.(tid := 0);
      ctl := ctl.(timer := false);
    }

    // ---------- the states ----------

    method WhileIdle(e: Event, draw: Draw)
      modifies this
      ensures Current() == InIdle(old(Current()), e, draw)
    {
      hide BeginScan, AnswerScan;
      match e {
        case StartTouchlink => StartScan(draw);
        case Msg(lqi, transaction, ScanReq(_)) =>
          if lqi < SCAN_LQI_MIN {
            return;
          }
          AnswerScanRequest(transaction, draw.radio);
        case _ =>
      }
    }

    method WhileScanning(e: Event, draw: Draw)
      modifies this
      ensures Current() == InScanning(old(Current()), e, draw)
    {
      hide AnswerScan, SendScanRequest, HandleScanResponse;
      match e {
        case TimerExpired => SendNextScanRequest();
        case Msg(lqi, transaction, ScanResponse(rsp)) => TakeScanResponse(lqi, rsp);
        case Msg(lqi, transaction, ScanReq(theirsNew)) =>
          if lqi < SCAN_LQI_MIN {
            return;
          }
          if zll.factoryNew && !theirsNew {
            AnswerScanRequest(transaction, draw.radio);
          } else if !session.responded {
            session := session.(responded := true);
            session := session.(theirTid := transaction);
            SendScanResponse(draw.radio);
          }
        case Msg(lqi, transaction, DeviceInfoReq) =>
          if transaction == session.theirTid {
            Send(DeviceInfoAnswer);
          }
        case _ =>
      }
    }

    method ReportTarget()
      modifies this`session, this`ctl
      ensures Current() == Report(old(Current()))
    {
      session := session.(touched := session.target.rsp.nwkAddr);
      EndCommissioning(InformApp, true);
    }

    method WhenScanDone()
      modifies this
      ensures Current() == InScanDone(old(Current()))
    {
      hide Report, End;
      if session.target.lqi != 0 {
        var rsp := session.target.rsp;
        if !zll.factoryNew && !rsp.factoryNew && rsp.endDevice && rsp.extPan == nib.extPan {
          ReportTarget();
          return;
        }
        Send(IdentifyRequest);
        StartTimer();
        ctl := ctl.(state := ScanWaitId);
      } else if ctl.second {
        EndCommissioning(Idle, false);
      } else {
        ctl := ctl.(state := Scanning);
        ctl := ctl.(second := true);
        ctl := ctl.(count := 12);
        StartTimer();
      }
    }

    method ProceedWithTarget(draw: Draw)
      modifies this
      ensures Current() == Proceed(old(Current()), draw)
    {
      hide Report, SendStartRequest, SendJoinRequest;
      if session.resetOverAir {
        session := session.(resetOverAir := false);
        Send(FactoryReset);
        ctl := ctl.(state := ScanWaitResetSent);
        StartTimer();
      } else if zll.factoryNew {
        SendStart();
        ctl := ctl.(state := WaitStartRsp);
        StartTimer();
      } else if session.target.rsp.factoryNew {
        if !session.target.rsp.endDevice {
          SendJoin(true, draw);
          ctl := ctl.(state := WaitJoinRtrRsp);
          StartTimer();
        } else {
          SendJoin(false, draw);
          ctl := ctl.(state := WaitJoinZedRsp);
          StartTimer();
        }
      } else {
        if session.target.rsp.extPan == nib.extPan {
          ReportTarget();
          return;
        }
        SendJoin(true, draw);
        ctl := ctl.(state := WaitJoinRtrRsp);
        StartTimer();
      }
    }

    method WhileWaitingForInfo(e: Event, draw: Draw)
      modifies this
      ensures Current() == InScanWaitInfo(old(Current()), e, draw)
    {
      hide Proceed, End;
      match e {
        case TimerExpired => EndCommissioning(Idle, false);
        case Msg(lqi, transaction, DeviceInfoRsp) =>
          if transaction == session.tid {
            ProceedWithTarget(draw);
          }
        case _ =>
      }
    }

    method TakeCommand(c: Command, draw: Draw)
      modifies this
      ensures Current() == Obey(old(Current()), c, draw)
    {
      hide HandleNwkUpdateRequest, HandleJoinRouterReq, HandleStartReq;
      match c {
        case FactoryResetReq =>
          if !zll.factoryNew {
            ctl := ctl.(state := WaitLeaveReset);
            Send(Leave);
          }
        case NwkUpdateReq(theirExtPan, theirPan, newId, newAddr) =>
          TakeNwkUpdateRequest(theirExtPan, theirPan, newId, newAddr);
        case DeviceInfoReq => Send(DeviceInfoAnswer);
        case JoinRouterReq(_, _, _, _) => TakeRouterJoinRequest(c);
        case StartReq(params) => TakeStartRequest(params, draw);
        case JoinEndDeviceReq => Send(JoinAnswer(false, false));
        case _ =>
      }
    }

    method WhileActive(e: Event, draw: Draw)
      modifies this
      ensures Current() == InActive(old(Current()), e, draw)
    {
      hide Obey, End, BeginScan;
      match e {
        case StartTouchlink =>
          if !zll.factoryNew {
            StartScan(draw);
          }
        case TimerExpired => EndCommissioning(Idle, false);
        case Msg(lqi, transaction, c) =>
          if transaction == session.tid {
            TakeCommand(c, draw);
          }
        case _ =>
      }
    }

    method AwaitAnswer(e: Event, answered: bool)
      modifies this
      ensures Current() == Await(old(Current()), e, answered)
    {
      hide End;
      if answered {
        StartTimer();
        ctl := ctl.(state := WaitStartUp);
      } else if e.TimerExpired? {
        EndCommissioning(Idle, false);
      }
    }

    method WhenStartedUp()
      modifies this
      ensures Current() == Finish(old(Current()))
    {
      if zll.factoryNew {
        openTrust := true;
        zll := zll.(factoryNew := false);
      }
      ctl := ctl.(state := InformApp);
      session := session.(tid := 0);
      session := session.(responded := false);
      StartTimer();
    }

    method InformApplication()
      modifies this`out, this`ctl
      ensures Current() == Inform(old(Current()))
    {
      if session.touched > 0 {
        Send(Touched(session.touched, session.target.rsp.source));
      }
      ctl := ctl.(state := Idle);
    }

    /** The states of a node that scans or is scanned. */
    method HandleWhileScanning(e: Event, draw: Draw)
      requires !ctl.halted
      requires ctl.state in {Idle, Scanning, ScanWaitResetSent, ScanDone, ScanWaitId, ScanWaitInfo, Active}
      modifies this
      ensures Current() == Step(old(Current()), e, draw)
    {
      hide InIdle, InScanning, End, InScanDone, InScanWaitInfo, InActive;
      match ctl.state {
        case Idle => WhileIdle(e, draw);
        case Scanning => WhileScanning(e, draw);
        case ScanWaitResetSent => EndCommissioning(Idle, false);
        case ScanDone => WhenScanDone();
        case ScanWaitId =>
          if e.TimerExpired? {
            Send(DeviceInfoRequest);
            StartTimer();
            ctl := ctl.(state := ScanWaitInfo);
          }
        case ScanWaitInfo => WhileWaitingForInfo(e, draw);
        case Active => WhileActive(e, draw);
      }
    }

    /** The states of a node that joins another to its network, is joined, or is reset. */
    method HandleWhileJoining(e: Event, draw: Draw)
      requires !ctl.halted
      requires ctl.state !in {Idle, Scanning, ScanWaitResetSent, ScanDone, ScanWaitId, ScanWaitInfo, Active}
      modifies this
      ensures Current() == Step(old(Current()), e, draw)
    {
      hide HandleStartRsp, Await, AnswerStart, RunRouter, Finish, Inform;
      match ctl.state {
        case WaitStartRsp =>
          if e.Msg? && e.command.StartRsp? {
            TakeStartResponse(e.command);
          } else {
            AwaitAnswer(e, false);
          }
        case WaitJoinRtrRsp => AwaitAnswer(e, e.Msg? && e.command.JoinRouterRsp?);
        case WaitJoinZedRsp => AwaitAnswer(e, e.Msg? && e.command.JoinEndDeviceRsp?);
        case WaitDiscovery =>
          if !e.DiscoveryDone? {
            return;
          }
          start := start.(extPan := e.extPan, pan := e.pan);
          SendStartAnswer();
        case SkipDiscovery => SendStartAnswer();
        case WaitLeave =>
        case WaitLeaveReset =>
          if e.LeaveConfirmed? || e.TimerExpired? {
            ctl := ctl.(halted := true);
          }
        case StartRouter => BecomeRouter();
        case WaitStartUp =>
          if e.TimerExpired? {
            WhenStartedUp();
          }
        case InformApp => InformApplication();
      }
    }

    /** vCommissionTask: one event off the queue; a coordinator only takes it. */
    method Handle(e: Event, draw: Draw)
      modifies this
      ensures Current() == if coordinator then old(Current()) else Step(old(Current()), e, draw)
    {
      if coordinator || ctl.halted {
        return;
      }
      hide Step;
      if ctl.state in {Idle, Scanning, ScanWaitResetSent, ScanDone, ScanWaitId, ScanWaitInfo, Active} {
        HandleWhileScanning(e, draw);
      } else {
        HandleWhileJoining(e, draw);
      }
    }
  }

  /** The event queue APP_CommissionEvents between the node's tasks. */
  class Queue {
    const task: Task
    var events: seq<Event>

    ghost function State(): Runs.System
      reads this, task
    {
      Runs.System(task.Current(), events)
    }

    constructor (task: Task)
      ensures this.task == task && events == []
    {
      this.task, events := task, [];
    }

    /** The task is activated: it takes the oldest event, if there is one, and handles it. */
    method Activate(draw: Draw)
      modifies this`events, task
      ensures old(events) == [] ==> State() == old(State())
      ensures old(events) != [] && task.coordinator ==> State() == old(Runs.System(task.Current(), events[1..]))
      ensures old(events) != [] && !task.coordinator ==> State() == Runs.Act(old(State()), Runs.Handle(draw))
      ensures old(Runs.Watched(State())) && !task.coordinator ==> Runs.Watched(State())
    {
      hide Runs.Watched, Step;
      if events == [] {
        return;
      }
      ghost var was := State();
      var e := events[0];
      events := events[1..];
      task.Handle(e, draw);
      if !task.coordinator && Runs.Watched(was) {
        Runs.ActKeepsWatched(was, Runs.Handle(draw));
      }
    }

    /** APP_CommissionTimerTask: the armed timer runs out; a node that waits for it is still watched. */
    method Expire()
      requires task.ctl.timer
      modifies this`events, task`ctl
      ensures State() == Runs.Act(old(State()), Runs.Expire)
      ensures old(Runs.Watched(State())) ==> Runs.Watched(State())
    {
      hide Runs.Watched;
      ghost var was := State();
      task.ctl := task.ctl.(timer := false);
      events := events + [TimerExpired];
      if Runs.Watched(was) {
        Runs.ActKeepsWatched(was, Runs.Expire);
      }
    }
  }
}
