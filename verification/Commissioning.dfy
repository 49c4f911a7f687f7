/**
 * The touchlink commissioning task as a specification: one event of the commissioning queue
 * handled in one state of the node. Radio, persistence and random numbers are inputs.
 */
module Commissioning {
  import opened Bytes
  import opened ZllRanges

  const SCAN_LQI_MIN: nat := 110
  const DEFAULT_CHANNEL: byte := 15

  datatype State =
    | Idle | Scanning | ScanDone | ScanWaitId | ScanWaitInfo | WaitStartRsp | WaitJoinRtrRsp | WaitJoinZedRsp
    | WaitDiscovery | ScanWaitResetSent | SkipDiscovery | StartRouter | WaitLeave | WaitLeaveReset
    | WaitStartUp | Active | InformApp

  /** A scan response; commonKey says whether its key mask meets the supported ones. */
  datatype ScanRsp = ScanRsp(source: nat, rssi: byte, commonKey: bool, extPan: nat, pan: u16, updateId: byte,
                             channel: byte, endDevice: bool, factoryNew: bool, assign: bool, groupCount: byte,
                             nwkAddr: u16)

  datatype Target = Target(lqi: nat, rsp: ScanRsp)

  datatype Nib = Nib(extPan: nat, pan: u16, updateId: byte, nwkAddr: u16)

  datatype StartParams = StartParams(grant: Grant, channel: byte, extPan: nat, pan: u16)

  /** What a message says about a network. */
  datatype NetParams = NetParams(extPan: nat, pan: u16, updateId: byte, channel: byte)

  /** What the node puts on the air or tells the application. */
  datatype Output =
    | ScanRequest(second: bool, position: byte)
    | ScanAnswer(net: NetParams, factoryNew: bool, groupCount: byte, nwkAddr: u16)
    | IdentifyRequest | DeviceInfoRequest | DeviceInfoAnswer | FactoryReset
    | StartRequested(grant: Grant, channel: byte)
    | JoinRequested(router: bool, grant: Grant, net: NetParams)
    | StartAnswer(success: bool, net: NetParams) | JoinAnswer(router: bool, success: bool)
    | NwkUpdate(net: NetParams, nwkAddr: u16) | Rejoin | Leave | Touched(nwkAddr: u16, source: nat)

  /** State, position of the scan and pass, timer; halted once the node has been reset. */
  datatype Control = Control(state: State, count: byte, second: bool, timer: bool, halted: bool)

  /** The transaction, the best scan response so far, the address of the touched device, the pending reset command. */
  datatype Session = Session(responded: bool, tid: nat, theirTid: nat, target: Target, touched: u16, resetOverAir: bool)

  /**
   * A node that is not the coordinator; openTrust: the trust centre address is all ones; groupCount: the group ids that
   * its only device asks for, or zero.
   */
  datatype Node = Node(ctl: Control, session: Session, zll: Zll, nib: Nib, openTrust: bool, start: StartParams,
                       groupCount: byte, out: seq<Output>)

  datatype Command =
    | ScanReq(factoryNew: bool) | ScanResponse(rsp: ScanRsp) | DeviceInfoReq | DeviceInfoRsp | IdentifyReq
    | StartReq(params: StartParams) | StartRsp(success: bool, channel: byte, extPan: nat, updateId: byte, pan: u16)
    | JoinRouterReq(grant: Grant, channel: byte, pan: u16, updateId: byte) | JoinRouterRsp
    | JoinEndDeviceReq | JoinEndDeviceRsp | FactoryResetReq
    | NwkUpdateReq(extPan: nat, pan: u16, updateId: byte, nwkAddr: u16) | OtherCommand

  /** DiscoveryDone carries the identifiers that the search for an unused network settled on. */
  datatype Event =
    | StartTouchlink | TimerExpired | Msg(lqi: byte, tid: nat, command: Command)
    | DiscoveryDone(extPan: nat, pan: u16) | LeaveConfirmed | OtherEvent

  /** What one step finds outside the task: the random numbers it may draw, and the channel that the radio is on. */
  datatype Draw = Draw(tid: nat, addr: u16, extPan: nat, pan: u16, radio: byte)

  // ---------- helpers of the task ----------

  function Emit(n: Node, o: Output): Node {
    n.(out := n.out + [o])
  }

  /** Another state, with the timer armed. */
  function Go(n: Node, state: State): Node {
    n.(ctl := n.ctl.(state := state, timer := true))
  }

  /** vEndCommissioning */
  function End(n: Node, state: State, restart: bool): Node {
    n.(ctl := n.ctl.(state := state, timer := restart), session := n.session.(tid := 0, responded := false))
  }

  function BeginScan(n: Node, draw: Draw): Node {
    n.(ctl := n.ctl.(state := Scanning, count := 0, second := false, timer := true),
       session := n.session.(target := n.session.target.(lqi := 0), tid := draw.tid, responded := false))
  }

  /** vSendScanResponse: what a node says of itself; a factory new one names no network. */
  function Description(n: Node, radio: byte): Output {
    if n.zll.factoryNew then ScanAnswer(NetParams(0, 0, 0, radio), true, n.groupCount, 0xFFFF)
    else ScanAnswer(NetParams(n.nib.extPan, n.nib.pan, n.nib.updateId, radio), false, n.groupCount, n.nib.nwkAddr)
  }

  /** The answer to a scan request, from which the node goes on as the target of the scan. */
  function AnswerScan(n: Node, tid: nat, radio: byte): Node {
    Go(Emit(n, Description(n, radio)).(session := n.session.(tid := tid)), Active)
  }

  /** The position that follows on the second pass: the next channel, or the one after a primary one. */
  function NextSecondary(count: byte): byte {
    var c := (count + 1) % 256;
    if c == 11 || c == 15 || c == 20 || c == 25 then (c + 1) % 256 else c
  }

  /** vSendScanRequest */
  function SendScanRequest(n: Node): Node {
    var c := n.ctl;
    if (c.count == 8 && !c.second) || (c.count == 27 && c.second) then Go(n, ScanDone)
    else Emit(n, ScanRequest(c.second, c.count)).(
      ctl := c.(count := if c.second then NextSecondary(c.count) else (c.count + 1) % 256, timer := true))
  }

  // ---------- scan responses ----------

  function AdjustedLqi(lqi: byte, rsp: ScanRsp): nat {
    lqi + rsp.rssi
  }

  /** u8NewUpdateID: which of two network update ids is the fresher. */
  function NewUpdateId(a: byte, b: byte): byte {
    if (if a >= b then a - b else b - a) > 200 then (if a < b then a else b)
    else (if a < b then b else a)
  }

  /** The node's own network. */
  function NetworkOf(n: Node): NetParams {
    NetParams(n.nib.extPan, n.nib.pan, n.nib.updateId, n.zll.channel)
  }

  /** The filters before the update ids are compared. */
  predicate Heard(n: Node, lqi: byte, rsp: ScanRsp) {
    var foreign := rsp.extPan != n.nib.extPan;
    && AdjustedLqi(lqi, rsp) >= SCAN_LQI_MIN
    && !(!n.zll.factoryNew && foreign && !n.openTrust)
    && !(!rsp.commonKey && (n.zll.factoryNew || foreign))
  }

  predicate SameNetwork(n: Node, rsp: ScanRsp) {
    !n.zll.factoryNew && rsp.extPan == n.nib.extPan && rsp.pan == n.nib.pan
  }

  predicate Unsuitable(n: Node, rsp: ScanRsp) {
    rsp.endDevice && (n.zll.factoryNew || (!rsp.factoryNew && rsp.extPan != n.nib.extPan))
  }

  /** vHandleScanResponse */
  function HandleScanResponse(n: Node, lqi: byte, rsp: ScanRsp): Node {
    if !Heard(n, lqi, rsp) then n
    else if SameNetwork(n, rsp) && n.nib.updateId != rsp.updateId then
      if n.nib.updateId == NewUpdateId(n.nib.updateId, rsp.updateId) then
        Emit(n, NwkUpdate(NetworkOf(n), rsp.nwkAddr))
      else
        Emit(End(n, Idle, false), Rejoin).(
          nib := n.nib.(updateId := rsp.updateId), zll := n.zll.(channel := rsp.channel))
    else if !Unsuitable(n, rsp) && AdjustedLqi(lqi, rsp) > n.session.target.lqi then
      n.(session := n.session.(target := Target(AdjustedLqi(lqi, rsp), rsp)))
    else n
  }

  // ---------- requests to and from other nodes ----------

  function Touch(s: Session, addr: u16): Session {
    s.(touched := addr)
  }

  function SendStartRequest(n: Node): Node {
    var (z, g) := StartRequest(n.zll);
    Emit(n, StartRequested(g, DEFAULT_CHANNEL)).(zll := z, session := Touch(n.session, g.addr))
  }

  function SendJoinRequest(n: Node, router: bool, draw: Draw): Node {
    var rsp := n.session.target.rsp;
    var (z, g) := JoinRequest(n.zll, rsp.assign, rsp.groupCount, draw.addr);
    Emit(n, JoinRequested(router, g, NetworkOf(n))).(zll := z, session := Touch(n.session, g.addr))
  }

  /** vHandleNwkUpdateRequest: the freshness test is given PAN ids, of which it keeps the low byte. */
  function HandleNwkUpdateRequest(n: Node, extPan: nat, pan: u16, updateId: byte, nwkAddr: u16): Node {
    if extPan == n.nib.extPan && pan == n.nib.pan && n.nib.pan != NewUpdateId(n.nib.pan % 256, pan % 256)
    then n.(nib := n.nib.(updateId := updateId, nwkAddr := nwkAddr)) else n
  }

  function HandleStartRsp(n: Node, c: Command): Node
    requires c.StartRsp?
  {
    if !c.success then n
    else Go(n, WaitStartUp).(zll := n.zll.(channel := c.channel), nib := Nib(c.extPan, c.pan, c.updateId, n.zll.myAddr))
  }

  /** vHandleNwkStartRequest: a factory new node starts the network, any other refuses. */
  function HandleStartReq(n: Node, params: StartParams, draw: Draw): Node {
    if !n.zll.factoryNew then Emit(n, StartAnswer(false, NetParams(0, 0, 0, 0))).(start := params)
    else if params.extPan == 0 || params.pan == 0 then
      n.(start := params.(extPan := if params.extPan == 0 then draw.extPan else params.extPan,
                          pan := if params.pan == 0 then draw.pan else params.pan),
         ctl := n.ctl.(state := WaitDiscovery))
    else Go(n, SkipDiscovery).(start := params)
  }

  /** vHandleRouterJoinRequest */
  function HandleJoinRouterReq(n: Node, c: Command): Node
    requires c.JoinRouterReq?
  {
    var n' := Emit(n, JoinAnswer(true, n.zll.factoryNew));
    if !n.zll.factoryNew then n'
    else Go(n', WaitStartUp).(zll := Adopt(n.zll, c.grant).(channel := c.channel),
                              nib := n.nib.(pan := c.pan, nwkAddr := c.grant.addr, updateId := c.updateId))
  }

  /** The response to a start request and the pause before the router is started. */
  function AnswerStart(n: Node): Node {
    var s := if n.start.channel == 0 then n.start.(channel := DEFAULT_CHANNEL) else n.start;
    Go(Emit(n, StartAnswer(true, NetParams(s.extPan, s.pan, 0, s.channel))), StartRouter).(start := s)
  }

  function RunRouter(n: Node): Node {
    n.(ctl := n.ctl.(state := Idle, timer := false), session := n.session.(tid := 0),
       zll := Adopt(n.zll, n.start.grant).(channel := n.start.channel, factoryNew := false),
       nib := Nib(n.start.extPan, n.start.pan, n.nib.updateId, n.start.grant.addr), openTrust := true)
  }

  // ---------- one event in each state ----------

  function InScanning(n: Node, e: Event, draw: Draw): Node {
    match e
    case TimerExpired => SendScanRequest(n)
    case Msg(lqi, tid, ScanResponse(rsp)) => HandleScanResponse(n, lqi, rsp)
    case Msg(lqi, tid, ScanReq(theirsNew)) =>
      if lqi < SCAN_LQI_MIN then n
      else if n.zll.factoryNew && !theirsNew then AnswerScan(n, tid, draw.radio)
      else if n.session.responded then n
      else Emit(n, Description(n, draw.radio)).(session := n.session.(responded := true, theirTid := tid))
    case Msg(lqi, tid, DeviceInfoReq) => if tid == n.session.theirTid then Emit(n, DeviceInfoAnswer) else n
    case _ => n
  }

  /** A device that already belongs to this node's network is only reported to the application. */
  function Report(n: Node): Node {
    var n' := End(n, InformApp, true);
    n'.(session := Touch(n'.session, n.session.target.rsp.nwkAddr))
  }

  /** The scan is over; the event itself is not looked at. */
  function InScanDone(n: Node): Node {
    var rsp := n.session.target.rsp;
    if n.session.target.lqi != 0 then
      if !n.zll.factoryNew && !rsp.factoryNew && rsp.endDevice && rsp.extPan == n.nib.extPan then Report(n)
      else Go(Emit(n, IdentifyRequest), ScanWaitId)
    else if n.ctl.second then End(n, Idle, false)
    else n.(ctl := n.ctl.(state := Scanning, second := true, count := 12, timer := true))
  }

  /** The target has described itself: reset it, start a network with it, or let it join. */
  function Proceed(n: Node, draw: Draw): Node {
    var rsp := n.session.target.rsp;
    if n.session.resetOverAir then
      Go(Emit(n, FactoryReset).(session := n.session.(resetOverAir := false)), ScanWaitResetSent)
    else if n.zll.factoryNew then Go(SendStartRequest(n), WaitStartRsp)
    else if rsp.factoryNew && rsp.endDevice then Go(SendJoinRequest(n, false, draw), WaitJoinZedRsp)
    else if !rsp.factoryNew && rsp.extPan == n.nib.extPan then Report(n)
    else Go(SendJoinRequest(n, true, draw), WaitJoinRtrRsp)
  }

  function InScanWaitInfo(n: Node, e: Event, draw: Draw): Node {
    match e
    case TimerExpired => End(n, Idle, false)
    case Msg(lqi, tid, DeviceInfoRsp) => if tid == n.session.tid then Proceed(n, draw) else n
    case _ => n
  }

  /** A message for the scan that this node is the target of. */
  function Obey(n: Node, c: Command, draw: Draw): Node {
    match c
    case FactoryResetReq => if n.zll.factoryNew then n else Emit(n, Leave).(ctl := n.ctl.(state := WaitLeaveReset))
    case NwkUpdateReq(extPan, pan, updateId, nwkAddr) => HandleNwkUpdateRequest(n, extPan, pan, updateId, nwkAddr)
    case DeviceInfoReq => Emit(n, DeviceInfoAnswer)
    case JoinRouterReq(_, _, _, _) => HandleJoinRouterReq(n, c)
    case StartReq(params) => HandleStartReq(n, params, draw)
    case JoinEndDeviceReq => Emit(n, JoinAnswer(false, false))
    case _ => n
  }

  function InActive(n: Node, e: Event, draw: Draw): Node {
    match e
    case StartTouchlink => if n.zll.factoryNew then n else BeginScan(n, draw)
    case TimerExpired => End(n, Idle, false)
    case Msg(lqi, tid, c) => if tid == n.session.tid then Obey(n, c, draw) else n
    case _ => n
  }

  function InIdle(n: Node, e: Event, draw: Draw): Node {
    match e
    case StartTouchlink => BeginScan(n, draw)
    case Msg(lqi, tid, ScanReq(_)) => if lqi < SCAN_LQI_MIN then n else AnswerScan(n, tid, draw.radio)
    case _ => n
  }

  /** The start-up time of a network is over. */
  function Finish(n: Node): Node {
    Go(n, InformApp).(openTrust := n.openTrust || n.zll.factoryNew, zll := n.zll.(factoryNew := false),
                      session := n.session.(tid := 0, responded := false))
  }

  /** The application hears of the touched device; the timer is left as it is. */
  function Inform(n: Node): Node {
    (if n.session.touched > 0 then Emit(n, Touched(n.session.touched, n.session.target.rsp.source)) else n)
    .(ctl := n.ctl.(state := Idle))
  }

  /** A state that waits for one answer and gives up when the timer expires. */
  function Await(n: Node, e: Event, answered: bool): Node {
    if answered then Go(n, WaitStartUp) else if e.TimerExpired? then End(n, Idle, false) else n
  }

  /** vCommissionTask: what one event does. */
  function Step(n: Node, e: Event, draw: Draw): Node {
    if n.ctl.halted then n else
    match n.ctl.state
    case Idle => InIdle(n, e, draw)
    case Scanning => InScanning(n, e, draw)
    case ScanWaitResetSent => End(n, Idle, false)
    case ScanDone => InScanDone(n)
    case ScanWaitId => if e.TimerExpired? then Go(Emit(n, DeviceInfoRequest), ScanWaitInfo) else n
    case ScanWaitInfo => InScanWaitInfo(n, e, draw)
    case WaitStartRsp => if e.Msg? && e.command.StartRsp? then HandleStartRsp(n, e.command) else Await(n, e, false)
    case WaitJoinRtrRsp => Await(n, e, e.Msg? && e.command.JoinRouterRsp?)
    case WaitJoinZedRsp => Await(n, e, e.Msg? && e.command.JoinEndDeviceRsp?)
    case Active => InActive(n, e, draw)
    case WaitDiscovery =>
      if e.DiscoveryDone? then AnswerStart(n.(start := n.start.(extPan := e.extPan, pan := e.pan))) else n
    case SkipDiscovery => AnswerStart(n)
    case WaitLeave => n
    case WaitLeaveReset => if e.LeaveConfirmed? || e.TimerExpired? then n.(ctl := n.ctl.(halted := true)) else n
    case StartRouter => RunRouter(n)
    case WaitStartUp => if e.TimerExpired? then Finish(n) else n
    case InformApp => Inform(n)
  }
}
