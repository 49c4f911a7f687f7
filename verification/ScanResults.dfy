/**
 * What a scan finds: the best of the responses, the channels visited, and the network update id
 * that the node ends up with.
 */
module ScanResults {
  import opened Bytes
  import opened ZllRanges
  import opened Commissioning

  // ---------- runs of the task ----------

  /** An event and the random numbers that its handling draws. */
  datatype Input = Input(event: Event, draw: Draw)

  /** The node after some events, handled one after the other. */
  function AfterEvents(n: Node, inputs: seq<Input>): Node {
    if inputs == [] then n
    else
      var last := inputs[|inputs| - 1];
      Step(AfterEvents(n, inputs[..|inputs| - 1]), last.event, last.draw)
  }

  // ---------- the best response ----------

  datatype Answer = Answer(lqi: byte, rsp: ScanRsp)

  /** The event is a scan response, and the node is scanning. */
  predicate TakesAnswer(n: Node, e: Event) {
    !n.ctl.halted && n.ctl.state == Scanning && e.Msg? && e.command.ScanResponse?
  }

  function AnswerOf(n: Node, e: Event): Answer
    requires TakesAnswer(n, e)
  {
    Answer(e.lqi, e.command.rsp)
  }

  /** The scan responses that come while the node is scanning. */
  function Answers(n: Node, inputs: seq<Input>): seq<Answer> {
    if inputs == [] then []
    else
      var front, e := inputs[..|inputs| - 1], inputs[|inputs| - 1].event;
      var m := AfterEvents(n, front);
      Answers(n, front) + if TakesAnswer(m, e) then [AnswerOf(m, e)] else []
  }

  /** The response passes every filter and may become the target. */
  ghost predicate Passes(n: Node, h: Answer) {
    Heard(n, h.lqi, h.rsp) && !(SameNetwork(n, h.rsp) && n.nib.updateId != h.rsp.updateId) && !Unsuitable(n, h.rsp)
  }

  /** Answer i passes, none that passes is stronger, and none before it is as strong. */
  ghost predicate EarliestBest(n: Node, hs: seq<Answer>, i: nat) {
    && i < |hs| && Passes(n, hs[i])
    && (forall j :: 0 <= j < |hs| && Passes(n, hs[j]) ==>
          AdjustedLqi(hs[j].lqi, hs[j].rsp) <= AdjustedLqi(hs[i].lqi, hs[i].rsp))
    && (forall j :: 0 <= j < i && Passes(n, hs[j]) ==>
          AdjustedLqi(hs[j].lqi, hs[j].rsp) < AdjustedLqi(hs[i].lqi, hs[i].rsp))
  }

  /** What decides about a response is the same in both nodes. */
  ghost predicate SameFilters(n: Node, n': Node) {
    n'.zll == n.zll && n'.nib == n.nib && n'.openTrust == n.openTrust
  }

  lemma SameFiltersSameVerdict(n: Node, n': Node, h: Answer)
    requires SameFilters(n, n')
    ensures Passes(n', h) == Passes(n, h)
  {}

  predicate OnScan(n: Node) {
    !n.ctl.halted && (n.ctl.state == Scanning || n.ctl.state == ScanDone)
  }

  /** The event begins a new scan. */
  predicate BeginsScan(n: Node, e: Event) {
    !n.ctl.halted && e.StartTouchlink? && (n.ctl.state == Idle || (n.ctl.state == Active && !n.zll.factoryNew))
  }

  /**
   * From any node, whatever its last scan found: the new scan stands before the first request of its first pass,
   * with no target and under a transaction of its own; nothing else changes.
   */
  lemma ScanBegins(n: Node, e: Event, draw: Draw)
    requires BeginsScan(n, e)
    ensures var m := Step(n, e, draw);
            && OnScan(m) && m.ctl.state == Scanning && !m.ctl.second && m.ctl.count == 0 && m.ctl.timer
            && m.session.target == Target(0, n.session.target.rsp) && m.session.tid == draw.tid
            && !m.session.responded && m.session.resetOverAir == n.session.resetOverAir
            && SameFilters(n, m) && m.out == n.out
  {}

  /** One response; the scan ends if it shows that the node's update id is out of date. */
  lemma OneResponse(n: Node, h: Answer)
    requires OnScan(n)
    ensures var n' := HandleScanResponse(n, h.lqi, h.rsp);
            && (OnScan(n') ==> SameFilters(n, n'))
            && (n'.session.target ==
                if Passes(n, h) && AdjustedLqi(h.lqi, h.rsp) > n.session.target.lqi
                then Target(AdjustedLqi(h.lqi, h.rsp), h.rsp) else n.session.target)
  {}

  /** Any other event of a scan, and the end of one. */
  lemma OtherScanEvent(n: Node, e: Event, draw: Draw)
    requires OnScan(n) && !TakesAnswer(n, e)
    ensures SameFilters(n, Step(n, e, draw)) && Step(n, e, draw).session.target == n.session.target
  {
    hide HandleScanResponse, NextSecondary;
  }

  /** What was sent before is still there, and nothing after it is a scan request. */
  ghost predicate AsksNothing(n: Node, n': Node) {
    n.out <= n'.out && forall k :: |n.out| <= k < |n'.out| ==> !n'.out[k].ScanRequest?
  }

  /** The node does not scan, and its target is that of the other. */
  ghost predicate StaysOff(n: Node, n': Node) {
    !OnScan(n') && n'.session.target == n.session.target && AsksNothing(n, n')
  }

  /** A node that does not scan keeps its target and asks nobody, and scans again only when it is told to. */
  lemma OffScanStays(n: Node, e: Event, draw: Draw)
    requires !OnScan(n) && !BeginsScan(n, e)
    ensures StaysOff(n, Step(n, e, draw))
  {
    hide InIdle, InActive, InScanWaitInfo, Await, HandleStartRsp, AnswerStart, RunRouter, Finish, Inform, End, Go;
    hide InScanning, InScanDone, Emit, StaysOff;
    MovesKeepTarget(n);
    if n.ctl.halted {
      return;
    }
    HandlersKeepTarget(n, e, draw);
    if e.DiscoveryDone? {
      DiscoveryStaysOff(n, n.start.(extPan := e.extPan, pan := e.pan));
    }
    AwaitStaysOff(n, e, e.Msg? && e.command.JoinRouterRsp?);
    AwaitStaysOff(n, e, e.Msg? && e.command.JoinEndDeviceRsp?);
    AwaitStaysOff(n, e, false);
  }

  lemma HandlersKeepTarget(n: Node, e: Event, draw: Draw)
    requires !OnScan(n) && !n.ctl.halted && !BeginsScan(n, e)
    ensures n.ctl.state == Idle ==> StaysOff(n, InIdle(n, e, draw))
    ensures n.ctl.state == Active ==> StaysOff(n, InActive(n, e, draw))
    ensures n.ctl.state == ScanWaitInfo ==> StaysOff(n, InScanWaitInfo(n, e, draw))
  {
    hide Obey, Proceed;
    ProceedStaysOff(n, draw);
    if e.Msg? {
      ObeyStaysOff(n, e, draw);
    }
  }

  lemma MovesKeepTarget(n: Node)
    ensures StaysOff(n, AnswerStart(n)) && StaysOff(n, RunRouter(n)) && StaysOff(n, Finish(n))
    ensures StaysOff(n, Inform(n)) && StaysOff(n, End(n, Idle, false))
    ensures StaysOff(n, Go(Emit(n, DeviceInfoRequest), ScanWaitInfo))
    ensures StaysOff(n, n.(ctl := n.ctl.(halted := true))) && (!OnScan(n) ==> StaysOff(n, n))
  {}

  lemma DiscoveryStaysOff(n: Node, start: StartParams)
    ensures StaysOff(n, AnswerStart(n.(start := start)))
  {}

  lemma ProceedStaysOff(n: Node, draw: Draw)
    ensures StaysOff(n, Proceed(n, draw))
  {
    hide StartRequest, JoinRequest;
  }

  lemma ObeyStaysOff(n: Node, e: Event, draw: Draw)
    requires e.Msg? && !OnScan(n)
    ensures StaysOff(n, Obey(n, e.command, draw))
  {
    hide NewUpdateId, Adopt;
  }

  lemma AwaitStaysOff(n: Node, e: Event, answered: bool)
    requires !OnScan(n)
    ensures StaysOff(n, Await(n, e, answered))
    ensures e.Msg? && e.command.StartRsp? ==> StaysOff(n, HandleStartRsp(n, e.command))
  {}

  /** No event begins another scan. */
  ghost predicate OneScan(n: Node, inputs: seq<Input>) {
    forall k :: 0 <= k < |inputs| ==> !BeginsScan(AfterEvents(n, inputs[..k]), inputs[k].event)
  }

  lemma OneScanFront(n: Node, inputs: seq<Input>)
    requires OneScan(n, inputs) && inputs != []
    ensures OneScan(n, inputs[..|inputs| - 1])
    ensures !BeginsScan(AfterEvents(n, inputs[..|inputs| - 1]), inputs[|inputs| - 1].event)
  {
    var front := inputs[..|inputs| - 1];
    forall k | 0 <= k < |front|
      ensures !BeginsScan(AfterEvents(n, front[..k]), front[k].event)
    {
      assert front[..k] == inputs[..k];
    }
  }

  lemma AnswerIsHandled(n: Node, e: Event, draw: Draw)
    requires TakesAnswer(n, e)
    ensures Step(n, e, draw) == HandleScanResponse(n, e.lqi, e.command.rsp)
  {}

  /** The target is the earliest best of the answers; its LQI is zero exactly when none of them passes. */
  ghost predicate IsBest(n: Node, hs: seq<Answer>, t: Target) {
    && (t.lqi == 0 <==> forall i :: 0 <= i < |hs| ==> !Passes(n, hs[i]))
    && (t.lqi != 0 ==> exists i: nat ::
          EarliestBest(n, hs, i) && t == Target(AdjustedLqi(hs[i].lqi, hs[i].rsp), hs[i].rsp))
  }

  /** One event of a run that began as n, has come to m, and has had the answers hs. */
  lemma EventKeepsBest(n: Node, m: Node, hs: seq<Answer>, e: Event, draw: Draw)
    requires IsBest(n, hs, m.session.target) && (OnScan(m) ==> SameFilters(n, m)) && !BeginsScan(m, e)
    ensures var m' := Step(m, e, draw);
            && (OnScan(m') ==> SameFilters(n, m'))
            && IsBest(n, if TakesAnswer(m, e) then hs + [AnswerOf(m, e)] else hs, m'.session.target)
            && (m'.session.target.lqi == 0 ==> m'.session.target == m.session.target)
  {
    hide Step, HandleScanResponse, Passes, AdjustedLqi, BeginsScan, IsBest;
    if TakesAnswer(m, e) {
      var h := AnswerOf(m, e);
      SameFiltersSameVerdict(n, m, h);
      OneResponse(m, h);
      AnswerIsHandled(m, e, draw);
      if Passes(n, h) {
        PassingIsStrong(n, h);
      }
      BestWithOneMore(n, hs, h, m.session.target, Step(m, e, draw).session.target);
    } else if OnScan(m) {
      OtherScanEvent(m, e, draw);
    } else {
      OffScanStays(m, e, draw);
    }
  }

  /** From any moment of a scan without a target on. */
  lemma {:induction false} BestSoFar(n: Node, inputs: seq<Input>)
    requires OnScan(n) && n.session.target.lqi == 0 && OneScan(n, inputs)
    ensures IsBest(n, Answers(n, inputs), AfterEvents(n, inputs).session.target)
    ensures var t := AfterEvents(n, inputs).session.target; t.lqi == 0 ==> t == n.session.target
    ensures OnScan(AfterEvents(n, inputs)) ==> SameFilters(n, AfterEvents(n, inputs))
  {
    if inputs == [] {
    } else {
      hide Step, Passes, BeginsScan, OneScan, IsBest, TakesAnswer, OnScan, SameFilters;
      var front, last := inputs[..|inputs| - 1], inputs[|inputs| - 1];
      OneScanFront(n, inputs);
      BestSoFar(n, front);
      EventKeepsBest(n, AfterEvents(n, front), Answers(n, front), last.event, last.draw);
      assert Answers(n, front) + [] == Answers(n, front);
    }
  }

  /** The event e begins a scan, and the inputs come after it and begin no other. */
  ghost predicate ScanOf(n: Node, e: Event, draw: Draw, inputs: seq<Input>) {
    BeginsScan(n, e) && OneScan(Step(n, e, draw), inputs)
  }

  /**
   * From the event that begins a scan, at any node with any old target, until another scan begins, whatever events
   * the task handles: the target is the earliest of greatest adjusted LQI among the responses that came during the
   * scan and pass every filter, and its LQI is zero exactly when none passed.
   */
  lemma TargetIsEarliestBest(n: Node, e: Event, draw: Draw, inputs: seq<Input>)
    requires ScanOf(n, e, draw, inputs)
    ensures var m := Step(n, e, draw);
            && SameFilters(n, m) && IsBest(m, Answers(m, inputs), AfterEvents(m, inputs).session.target)
            && (OnScan(AfterEvents(m, inputs)) ==> SameFilters(m, AfterEvents(m, inputs)))
  {
    hide Step, BeginsScan, OneScan, IsBest;
    ScanBegins(n, e, draw);
    BestSoFar(Step(n, e, draw), inputs);
  }

  /** No response that came since then passes the filters. */
  ghost predicate NonePasses(n: Node, inputs: seq<Input>) {
    forall i :: 0 <= i < |Answers(n, inputs)| ==> !Passes(n, Answers(n, inputs)[i])
  }

  /** The target is an end device that already belongs to the node's network. */
  predicate HasMember(n: Node) {
    var rsp := n.session.target.rsp;
    !n.zll.factoryNew && !rsp.factoryNew && rsp.endDevice && rsp.extPan == n.nib.extPan
  }

  /** What follows a pass, whatever event comes next. */
  ghost predicate Concludes(n: Node, found: bool, n': Node) {
    && n'.zll == n.zll && n'.nib == n.nib && !n'.ctl.halted && n'.session.target == n.session.target
    && if !found && n.ctl.second then n'.ctl.state == Idle && !n'.ctl.timer && n'.session.tid == 0 && n'.out == n.out
       else if !found then
         n'.ctl.state == Scanning && n'.ctl.second && n'.ctl.count == 12 && n'.ctl.timer && n'.out == n.out
       else if HasMember(n) then
         && n'.ctl.state == InformApp && n'.ctl.timer && n'.out == n.out
         && n'.session.touched == n.session.target.rsp.nwkAddr
       else n'.ctl.state == ScanWaitId && n'.ctl.timer && n'.out == n.out + [IdentifyRequest]
  }

  /**
   * A scan in which nothing passed goes on to its second pass, and after that it is at rest; one in which something
   * did pass touches its target, or reports it if it is already a member.
   */
  lemma ScanConcludes(n: Node, e: Event, draw: Draw, inputs: seq<Input>, next: Event, nextDraw: Draw)
    requires ScanOf(n, e, draw, inputs)
    requires var d := AfterEvents(Step(n, e, draw), inputs); !d.ctl.halted && d.ctl.state == ScanDone
    ensures var m := Step(n, e, draw); var d := AfterEvents(m, inputs);
            Concludes(d, !NonePasses(m, inputs), Step(d, next, nextDraw))
  {
    TargetIsEarliestBest(n, e, draw, inputs);
    PassEnds(AfterEvents(Step(n, e, draw), inputs), next, nextDraw);
    hide Step, Passes, Concludes, AfterEvents, OneScan;
  }

  lemma PassEnds(d: Node, next: Event, nextDraw: Draw)
    requires !d.ctl.halted && d.ctl.state == ScanDone
    ensures Concludes(d, d.session.target.lqi != 0, Step(d, next, nextDraw))
  {}

  lemma BestWithOneMore(n: Node, hs: seq<Answer>, h: Answer, before: Target, t: Target)
    requires IsBest(n, hs, before)
    requires t == if Passes(n, h) && AdjustedLqi(h.lqi, h.rsp) > before.lqi
                  then Target(AdjustedLqi(h.lqi, h.rsp), h.rsp) else before
    ensures IsBest(n, hs + [h], t)
  {
    hide Passes, AdjustedLqi;
    var all := hs + [h];
    assert all[|hs|] == h && forall i :: 0 <= i < |hs| ==> all[i] == hs[i];
    if Passes(n, h) {
      PassingIsStrong(n, h);
    }
    if before.lqi != 0 {
      var i: nat :| EarliestBest(n, hs, i) && before == Target(AdjustedLqi(hs[i].lqi, hs[i].rsp), hs[i].rsp);
      if t == before {
        assert EarliestBest(n, all, i);
      } else {
        assert EarliestBest(n, all, |hs|);
      }
      assert Passes(n, all[i]);
    } else if Passes(n, h) {
      assert EarliestBest(n, all, |hs|);
    }
  }

  lemma PassingIsStrong(n: Node, h: Answer)
    requires Passes(n, h)
    ensures AdjustedLqi(h.lqi, h.rsp) >= SCAN_LQI_MIN
  {}

  // ---------- the channels of a scan ----------

  /** The channels the second pass can use: 11 to 26 without the four primary ones. */
  const SECONDARY: seq<byte> := [12, 13, 14, 16, 17, 18, 19, 21, 22, 23, 24, 26]

  /** Request k of a scan: eight positions of the primary channels, then the secondary channels. */
  function PlanAt(k: nat): Output
    requires k < 20
  {
    if k < 8 then ScanRequest(false, k) else ScanRequest(true, SECONDARY[k - 8])
  }

  function Plan(from: nat, to: nat): (p: seq<Output>)
    requires from <= to <= 20
    ensures |p| == to - from
  {
    seq(to - from, i requires 0 <= i < to - from => PlanAt(from + i))
  }

  /** The scan has sent its first k requests. */
  ghost predicate OnPlan(n: Node, k: nat) {
    && k <= 20 && OnScan(n)
    && (if n.ctl.state == ScanDone then k == if n.ctl.second then 20 else 8
        else if n.ctl.second then k >= 8 && n.ctl.count == (if k < 20 then SECONDARY[k - 8] else 27)
        else k <= 8 && n.ctl.count == k)
  }

  function ScanRequests(out: seq<Output>): seq<Output> {
    if out == [] then []
    else ScanRequests(out[..|out| - 1]) + if out[|out| - 1].ScanRequest? then [out[|out| - 1]] else []
  }

  lemma {:induction false} AskingNothing(a: seq<Output>, b: seq<Output>)
    requires a <= b && forall k :: |a| <= k < |b| ==> !b[k].ScanRequest?
    ensures ScanRequests(b) == ScanRequests(a)
  {
    if a != b {
      AskingNothing(a, b[..|b| - 1]);
    }
  }

  lemma SecondaryIs(c: byte)
    ensures c in SECONDARY <==> 11 <= c <= 26 && c != 11 && c != 15 && c != 20 && c != 25
  {
    assert SECONDARY[0] == 12 && SECONDARY[1] == 13 && SECONDARY[2] == 14 && SECONDARY[3] == 16;
    assert SECONDARY[4] == 17 && SECONDARY[5] == 18 && SECONDARY[6] == 19 && SECONDARY[7] == 21;
    assert SECONDARY[8] == 22 && SECONDARY[9] == 23 && SECONDARY[10] == 24 && SECONDARY[11] == 26;
  }

  lemma SecondaryFollows(k: nat)
    requires k < 12
    ensures SECONDARY[k] < 27 && NextSecondary(SECONDARY[k]) == if k < 11 then SECONDARY[k + 1] else 27
  {
    assert SECONDARY[0] == 12 && SECONDARY[1] == 13 && SECONDARY[2] == 14 && SECONDARY[3] == 16;
    assert SECONDARY[4] == 17 && SECONDARY[5] == 18 && SECONDARY[6] == 19 && SECONDARY[7] == 21;
    assert SECONDARY[8] == 22 && SECONDARY[9] == 23 && SECONDARY[10] == 24 && SECONDARY[11] == 26;
  }

  /** The timer of a scan: the next request, or the end of a pass. */
  lemma TimerFollowsPlan(n: Node, k: nat)
    requires OnPlan(n, k) && n.ctl.state == Scanning
    ensures var n' := SendScanRequest(n);
            || (n'.out == n.out && OnPlan(n', k))
            || (k < 20 && n'.out == n.out + [PlanAt(k)] && OnPlan(n', k + 1))
  {
    hide NextSecondary;
    if 8 <= k < 20 {
      SecondaryFollows(k - 8);
    }
  }

  lemma EventFollowsPlan(n: Node, e: Event, draw: Draw, k: nat)
    requires OnPlan(n, k)
    ensures var n' := Step(n, e, draw);
            || (AsksNothing(n, n') && (OnScan(n') ==> OnPlan(n', k)))
            || (k < 20 && n'.out == n.out + [PlanAt(k)] && OnPlan(n', k + 1))
  {
    hide HandleScanResponse, SendScanRequest;
    if n.ctl.state == Scanning && e.TimerExpired? {
      TimerFollowsPlan(n, k);
    }
    if TakesAnswer(n, e) {
      ResponseAsksNothing(n, e.lqi, e.command.rsp);
    }
    assert SECONDARY[0] == 12;
  }

  lemma ResponseAsksNothing(n: Node, lqi: byte, rsp: ScanRsp)
    ensures var n' := HandleScanResponse(n, lqi, rsp);
            AsksNothing(n, n') && (n'.ctl == n.ctl || n'.ctl == n.ctl.(state := Idle, timer := false))
  {
    hide Heard, SameNetwork, Unsuitable, NewUpdateId, AdjustedLqi;
  }

  /** Since n had sent its first `begun` requests, m has sent those up to k. */
  ghost predicate Followed(n: Node, begun: nat, m: Node, k: nat) {
    && begun <= k <= 20 && ScanRequests(m.out) == ScanRequests(n.out) + Plan(begun, k)
    && (OnScan(m) ==> OnPlan(m, k))
  }

  lemma EventKeepsFollowing(n: Node, begun: nat, m: Node, k: nat, e: Event, draw: Draw) returns (k': nat)
    requires Followed(n, begun, m, k) && !BeginsScan(m, e)
    ensures Followed(n, begun, Step(m, e, draw), k')
  {
    hide Step, OnPlan, PlanAt, BeginsScan, OnScan;
    var m' := Step(m, e, draw);
    k' := k;
    if OnScan(m) {
      EventFollowsPlan(m, e, draw, k);
    } else {
      OffScanStays(m, e, draw);
    }
    if AsksNothing(m, m') && (OnScan(m') ==> OnPlan(m', k)) {
      AskingNothing(m.out, m'.out);
    } else {
      PlanAsks(k);
      assert m'.out[..|m.out|] == m.out && Plan(begun, k + 1) == Plan(begun, k) + [PlanAt(k)];
      k' := k + 1;
    }
  }

  /** From any moment of a scan on, whatever the task handles until another scan begins. */
  lemma {:induction false} RunFollowsPlan(n: Node, begun: nat, inputs: seq<Input>) returns (k: nat)
    requires OnPlan(n, begun) && OneScan(n, inputs)
    ensures Followed(n, begun, AfterEvents(n, inputs), k)
  {
    hide Step, OneScan, OnScan, BeginsScan;
    if inputs == [] {
      k := begun;
      assert Plan(begun, k) == [];
    } else {
      hide Followed;
      var front, last := inputs[..|inputs| - 1], inputs[|inputs| - 1];
      OneScanFront(n, inputs);
      k := RunFollowsPlan(n, begun, front);
      k := EventKeepsFollowing(n, begun, AfterEvents(n, front), k, last.event, last.draw);
    }
  }

  lemma PlanAsks(k: nat)
    requires k < 20
    ensures PlanAt(k).ScanRequest?
  {}

  /**
   * From the event that begins a scan until another one begins, whatever responses, requests and timeouts the task
   * handles, the scan requests that it has sent are the first ones of the plan, and exactly those of its passes when
   * they are over.
   */
  lemma ScanFollowsPlan(n: Node, e: Event, draw: Draw, inputs: seq<Input>)
    requires ScanOf(n, e, draw, inputs)
    ensures var n' := AfterEvents(Step(n, e, draw), inputs);
            var asked, before := ScanRequests(n'.out), ScanRequests(n.out);
            && asked <= before + Plan(0, 20)
            && (OnScan(n') && n'.ctl.state == ScanDone ==> asked == before + Plan(0, if n'.ctl.second then 20 else 8))
  {
    ScanBegins(n, e, draw);
    PlanBegins(Step(n, e, draw));
    hide Step, AfterEvents, ScanRequests, OneScan, BeginsScan;
    var k := RunFollowsPlan(Step(n, e, draw), 0, inputs);
    PlanPrefix(0, k);
    hide Plan;
  }

  lemma PlanBegins(n: Node)
    requires OnScan(n) && n.ctl.state == Scanning && !n.ctl.second && n.ctl.count == 0
    ensures OnPlan(n, 0)
  {}

  function SecondaryRequests(): seq<Output> {
    seq(12, i requires 0 <= i < 12 => ScanRequest(true, SECONDARY[i]))
  }

  /** The second pass asks on each secondary channel once, in order, and on no other, whatever else is handled. */
  lemma SecondPassVisitsSecondaries(n: Node, inputs: seq<Input>)
    requires OnScan(n) && n.ctl.state == Scanning && n.ctl.second && n.ctl.count == 12 && OneScan(n, inputs)
    ensures forall c: byte :: c in SECONDARY <==> 11 <= c <= 26 && c != 11 && c != 15 && c != 20 && c != 25
    ensures forall i, j :: 0 <= i < j < |SECONDARY| ==> SECONDARY[i] != SECONDARY[j]
    ensures var n' := AfterEvents(n, inputs);
            var asked, before := ScanRequests(n'.out), ScanRequests(n.out);
            && asked <= before + SecondaryRequests()
            && (OnScan(n') && n'.ctl.state == ScanDone && n'.ctl.second ==> asked == before + SecondaryRequests())
  {
    Secondaries();
    SecondaryBegins(n);
    hide AfterEvents, ScanRequests, OneScan, OnScan;
    var k := RunFollowsPlan(n, 8, inputs);
    SecondPlan();
    PlanPrefix(8, k);
  }

  lemma SecondPlan()
    ensures Plan(8, 20) == SecondaryRequests()
  {}

  lemma Secondaries()
    ensures forall c: byte :: c in SECONDARY <==> 11 <= c <= 26 && c != 11 && c != 15 && c != 20 && c != 25
    ensures forall i, j :: 0 <= i < j < |SECONDARY| ==> SECONDARY[i] != SECONDARY[j]
  {
    forall c: byte
      ensures c in SECONDARY <==> 11 <= c <= 26 && c != 11 && c != 15 && c != 20 && c != 25
    {
      SecondaryIs(c);
    }
  }

  lemma SecondaryBegins(n: Node)
    requires OnScan(n) && n.ctl.state == Scanning && n.ctl.second && n.ctl.count == 12
    ensures OnPlan(n, 8)
  {
    assert SECONDARY[0] == 12;
  }

  lemma PlanPrefix(from: nat, k: nat)
    requires from <= k <= 20
    ensures Plan(from, k) <= Plan(from, 20)
  {}

  // ---------- freshness of the network update id ----------

  /** For versions less than 256 apart, the byte of the later one is selected exactly in these cases. */
  lemma FresherIsSelectedIff(v: nat, w: nat)
    requires v < w < v + 256
    ensures NewUpdateId(v % 256, w % 256) == w % 256 <==>
            w - v <= if v % 256 < w % 256 then 200 else 55
    ensures NewUpdateId(w % 256, v % 256) == NewUpdateId(v % 256, w % 256)
  {}

  function Max(v: nat, w: nat): nat {
    if v < w then w else v
  }

  lemma FresherIsSelected(v: nat, w: nat)
    requires -55 <= v - w <= 55
    ensures NewUpdateId(v % 256, w % 256) == Max(v, w) % 256
  {
    if v < w {
      FresherIsSelectedIff(v, w);
    } else if w < v {
      FresherIsSelectedIff(w, v);
    }
  }

  /** The newest of the versions the node has had or heard. */
  function Newest(v: nat, versions: seq<nat>): nat {
    if versions == [] then v else Max(Newest(v, versions[..|versions| - 1]), versions[|versions| - 1])
  }

  /** Each version is at most 55 away from the newest one before it. */
  ghost predicate WithinWindow(v: nat, versions: seq<nat>) {
    forall i :: 0 <= i < |versions| ==> -55 <= versions[i] - Newest(v, versions[..i]) <= 55
  }

  /** A response of the node's own network that passes the first filters. */
  predicate TakesOwnAnswer(n: Node, e: Event) {
    TakesAnswer(n, e) && Heard(n, e.lqi, e.command.rsp) && SameNetwork(n, e.command.rsp)
  }

  function IdOf(n: Node, e: Event): byte
    requires TakesOwnAnswer(n, e)
  {
    e.command.rsp.updateId
  }

  /** The update ids that the responses of the node's own network carry. */
  function OwnIds(n: Node, inputs: seq<Input>): seq<byte> {
    if inputs == [] then []
    else
      var front, e := inputs[..|inputs| - 1], inputs[|inputs| - 1].event;
      OwnIds(n, front) + if TakesOwnAnswer(AfterEvents(n, front), e) then [IdOf(AfterEvents(n, front), e)] else []
  }

  /** The ids are the low bytes of the versions. */
  ghost predicate LowBytes(ids: seq<byte>, versions: seq<nat>) {
    |ids| == |versions| && forall i :: 0 <= i < |ids| ==> ids[i] == versions[i] % 256
  }

  /** The node belongs to a network and is not in the middle of a start. */
  predicate Settled(n: Node) {
    && !n.zll.factoryNew
    && n.ctl.state !in {WaitStartRsp, WaitDiscovery, SkipDiscovery, StartRouter}
  }

  predicate IsUpdateRequest(e: Event) {
    e.Msg? && e.command.NwkUpdateReq?
  }

  /** Whatever a settled node handles, only a response of its own network changes its network parameters. */
  lemma SettledStep(n: Node, e: Event, draw: Draw)
    requires Settled(n) && !IsUpdateRequest(e)
    ensures Settled(Step(n, e, draw))
    ensures Step(n, e, draw).nib ==
            if TakesOwnAnswer(n, e) then n.nib.(updateId := NewUpdateId(n.nib.updateId, IdOf(n, e)))
            else n.nib
  {
    hide HandleScanResponse, Heard, SameNetwork, NewUpdateId;
    if TakesAnswer(n, e) {
      AnswerIsHandled(n, e, draw);
      ResponseSettles(n, e.lqi, e.command.rsp);
      hide Step;
    } else {
      SettledOtherwise(n, e, draw);
    }
  }

  lemma SettledOtherwise(n: Node, e: Event, draw: Draw)
    requires Settled(n) && !IsUpdateRequest(e) && !TakesAnswer(n, e)
    ensures Settled(Step(n, e, draw)) && Step(n, e, draw).nib == n.nib
  {
    hide InIdle, InScanning, InScanDone, InActive, InScanWaitInfo, Await, AnswerStart, RunRouter, HandleStartRsp;
    hide Finish, Inform;
    if n.ctl.halted {
      return;
    }
    SettledHandles(n, e, draw);
    SettledWaits(n, e, e.Msg? && e.command.JoinRouterRsp?);
    SettledWaits(n, e, e.Msg? && e.command.JoinEndDeviceRsp?);
  }

  lemma SettledWaits(n: Node, e: Event, answered: bool)
    requires Settled(n)
    ensures Settled(Await(n, e, answered)) && Await(n, e, answered).nib == n.nib
    ensures Settled(Finish(n)) && Finish(n).nib == n.nib && Settled(Inform(n)) && Inform(n).nib == n.nib
  {}

  lemma SettledHandles(n: Node, e: Event, draw: Draw)
    requires Settled(n) && !n.ctl.halted && !IsUpdateRequest(e) && !TakesAnswer(n, e)
    ensures n.ctl.state == Idle ==> Settled(InIdle(n, e, draw)) && InIdle(n, e, draw).nib == n.nib
    ensures n.ctl.state == Scanning ==> Settled(InScanning(n, e, draw)) && InScanning(n, e, draw).nib == n.nib
    ensures n.ctl.state == ScanDone ==> Settled(InScanDone(n)) && InScanDone(n).nib == n.nib
    ensures n.ctl.state == Active ==> Settled(InActive(n, e, draw)) && InActive(n, e, draw).nib == n.nib
    ensures n.ctl.state == ScanWaitInfo ==>
              Settled(InScanWaitInfo(n, e, draw)) && InScanWaitInfo(n, e, draw).nib == n.nib
  {
    hide HandleScanResponse, Proceed, Obey, NextSecondary;
    SettledProceeds(n, draw);
    if e.Msg? {
      SettledObeys(n, e.command, draw);
    }
  }

  lemma ResponseSettles(n: Node, lqi: byte, rsp: ScanRsp)
    requires Settled(n)
    ensures var n' := HandleScanResponse(n, lqi, rsp);
            Settled(n') &&
            n'.nib == if Heard(n, lqi, rsp) && SameNetwork(n, rsp)
                      then n.nib.(updateId := NewUpdateId(n.nib.updateId, rsp.updateId)) else n.nib
  {}

  lemma SettledProceeds(n: Node, draw: Draw)
    requires Settled(n)
    ensures Settled(Proceed(n, draw)) && Proceed(n, draw).nib == n.nib
  {}

  lemma SettledObeys(n: Node, c: Command, draw: Draw)
    requires Settled(n) && !c.NwkUpdateReq?
    ensures Settled(Obey(n, c, draw)) && Obey(n, c, draw).nib == n.nib
  {}

  lemma {:induction false} IdAfterEvents(n: Node, v: nat, inputs: seq<Input>, versions: seq<nat>)
    requires Settled(n) && n.nib.updateId == v % 256
    requires forall i <- inputs :: !IsUpdateRequest(i.event)
    requires LowBytes(OwnIds(n, inputs), versions) && WithinWindow(v, versions)
    ensures Settled(AfterEvents(n, inputs))
    ensures AfterEvents(n, inputs).nib == n.nib.(updateId := Newest(v, versions) % 256)
  {
    hide Step, NewUpdateId, Settled, TakesOwnAnswer, IsUpdateRequest;
    if inputs != [] {
      var front, last := inputs[..|inputs| - 1], inputs[|inputs| - 1];
      var m := AfterEvents(n, front);
      var k := |OwnIds(n, front)|;
      WindowPrefix(v, versions, k);
      IdAfterEvents(n, v, front, versions[..k]);
      assert last in inputs;
      SettledStep(m, last.event, last.draw);
      if TakesOwnAnswer(m, last.event) {
        assert versions[..k] == versions[..|versions| - 1];
        var id := IdOf(m, last.event);
        assert OwnIds(n, inputs)[k] == id == versions[k] % 256;
        FresherIsSelected(Newest(v, versions[..k]), versions[k]);
      } else {
        assert versions[..k] == versions;
      }
    }
  }

  lemma WindowPrefix(v: nat, versions: seq<nat>, k: nat)
    requires WithinWindow(v, versions) && k <= |versions|
    ensures WithinWindow(v, versions[..k])
  {
    forall i | 0 <= i < k
      ensures versions[..k][..i] == versions[..i]
    {}
  }

  /**
   * In every run of a node of a network that is sent no update request, whatever else it handles over any number of
   * scans: if the versions of its own network's responses stay within 55 of the newest so far, its network
   * parameters keep all but the update id, which is at every moment the low byte of the newest version so far; and
   * that never regresses.
   */
  lemma UpdateIdIsNewest(n: Node, v: nat, inputs: seq<Input>, versions: seq<nat>, moment: nat)
    requires Settled(n) && n.nib.updateId == v % 256
    requires forall i <- inputs :: !IsUpdateRequest(i.event)
    requires LowBytes(OwnIds(n, inputs), versions) && WithinWindow(v, versions) && moment <= |inputs|
    ensures AfterEvents(n, inputs).nib == n.nib.(updateId := Newest(v, versions) % 256)
    ensures var k := |OwnIds(n, inputs[..moment])|;
            && k <= |versions| && v <= Newest(v, versions[..k]) <= Newest(v, versions)
            && AfterEvents(n, inputs[..moment]).nib == n.nib.(updateId := Newest(v, versions[..k]) % 256)
  {
    hide Step, WithinWindow, Settled, IsUpdateRequest;
    IdAfterEvents(n, v, inputs, versions);
    OwnIdsPrefix(n, inputs, moment);
    var k := |OwnIds(n, inputs[..moment])|;
    WindowPrefix(v, versions, k);
    IdAfterEvents(n, v, inputs[..moment], versions[..k]);
    NewestGrows(v, versions, k);
    NewestGrows(v, versions[..k], 0);
  }

  lemma {:induction false} OwnIdsPrefix(n: Node, inputs: seq<Input>, moment: nat)
    requires moment <= |inputs|
    ensures OwnIds(n, inputs[..moment]) <= OwnIds(n, inputs)
  {
    hide TakesOwnAnswer, AfterEvents;
    if moment < |inputs| {
      var front := inputs[..|inputs| - 1];
      OwnIdsPrefix(n, front, moment);
      assert front[..moment] == inputs[..moment];
    } else {
      assert inputs[..moment] == inputs;
    }
  }

  lemma {:induction false} NewestGrows(v: nat, versions: seq<nat>, k: nat)
    requires k <= |versions|
    ensures Newest(v, versions[..k]) <= Newest(v, versions)
  {
    if k < |versions| {
      NewestGrows(v, versions[..|versions| - 1], k);
      assert versions[..|versions| - 1][..k] == versions[..k];
    } else {
      assert versions[..k] == versions;
    }
  }

  /**
   * A network update request is not guarded like this: its test compares PAN ids, so any id is taken,
   * fresher or not, exactly when the network is the node's own and its PAN id does not fit a byte.
   */
  lemma UpdateRequestIgnoresFreshness(n: Node, extPan: nat, pan: u16, updateId: byte, nwkAddr: u16)
    ensures var n' := HandleNwkUpdateRequest(n, extPan, pan, updateId, nwkAddr);
            n'.nib == if extPan == n.nib.extPan && pan == n.nib.pan && pan >= 256
                      then n.nib.(updateId := updateId, nwkAddr := nwkAddr) else n.nib
  {}
}
