/**
 * Runs of the commissioning task with its timer and event queue: the timer is never forgotten,
 * and every run comes back to rest after boundedly many timer expiries.
 */
module CommissioningRuns {
  import opened Bytes
  import opened ZllRanges
  import opened Commissioning

  /** How far the two scan passes can have come. */
  ghost predicate Inv(c: Control) {
    && c.state != WaitLeave
    && (c.state == Scanning && !c.second ==> c.count <= 8)
    && (c.state == Scanning && c.second ==> 12 <= c.count <= 27 && c.count != 15 && c.count != 20 && c.count != 25)
  }

  /** Bounds the number of timer expiries until the node is idle. */
  function Rank(c: Control): int {
    match c.state
    case Idle => 0
    case WaitLeave => 0
    case InformApp => 1
    case StartRouter => 1
    case ScanWaitResetSent => 1
    case WaitLeaveReset => 1
    case WaitStartUp => 2
    case SkipDiscovery => 2
    case WaitStartRsp => 3
    case WaitJoinRtrRsp => 3
    case WaitJoinZedRsp => 3
    case WaitDiscovery => 3
    case ScanWaitInfo => 4
    case Active => 4
    case ScanWaitId => 5
    case ScanDone => if c.second then 6 else 23
    case Scanning => if c.second then 34 - c.count else 32 - c.count
  }

  const MAX_RANK := 32

  lemma RankIsBounded(c: Control)
    requires Inv(c)
    ensures 0 <= Rank(c) <= MAX_RANK
    ensures Rank(c) == 0 <==> c.state == Idle
  {}

  /** The node rests: nothing is under way, or it has been reset. */
  predicate AtRest(c: Control) {
    c.halted || c.state == Idle
  }

  /** The states in which no expiry is needed to go on. */
  predicate Unwatched(c: Control) {
    AtRest(c) || c.state == WaitDiscovery
  }

  /** The events that start something: a touchlink command that is accepted, a scan request taken while idle. */
  predicate Restarts(n: Node, e: Event) {
    || (e.StartTouchlink? && (n.ctl.state == Idle || (n.ctl.state == Active && !n.zll.factoryNew)))
    || (n.ctl.state == Idle && e.Msg? && e.command.ScanReq? && e.lqi >= SCAN_LQI_MIN)
  }

  /**
   * What one step does to the rank and the timer. An expiry lowers the rank of a watched node and
   * leaves the timer armed unless the node comes to rest; any other event raises the rank only when
   * it restarts the node, and leaves a node that does not rest with its timer as it was or armed; an
   * unwatched node ignores an expiry.
   */
  ghost predicate Progress(c: Control, e: Event, restarts: bool, c': Control) {
    && Inv(c')
    && (if e.TimerExpired? then
          if Unwatched(c) then c' == c else (c'.halted || Rank(c') < Rank(c)) && (c'.timer || AtRest(c'))
        else
          && (restarts || c'.halted || Rank(c') <= Rank(c))
          && (Unwatched(c') || c'.timer || (!c.timer && !Unwatched(c)))
          && (AtRest(c') || c'.timer || (!c.timer && !AtRest(c))))
  }

  lemma ScanResponseControl(n: Node, lqi: byte, rsp: ScanRsp)
    ensures var c := HandleScanResponse(n, lqi, rsp).ctl;
            c == n.ctl || c == n.ctl.(state := Idle, timer := false)
  {
    hide Heard, SameNetwork, Unsuitable, NewUpdateId, AdjustedLqi;
  }

  lemma ProceedControl(n: Node, draw: Draw)
    ensures var c := Proceed(n, draw).ctl;
            c == n.ctl.(state := c.state, timer := true)
            && c.state in {ScanWaitResetSent, WaitStartRsp, WaitJoinZedRsp, InformApp, WaitJoinRtrRsp}
  {
    hide StartRequest, JoinRequest;
  }

  lemma ScanningProgress(n: Node, e: Event, draw: Draw)
    requires Inv(n.ctl) && !n.ctl.halted && n.ctl.state == Scanning
    ensures Progress(n.ctl, e, Restarts(n, e), InScanning(n, e, draw).ctl)
  {
    hide HandleScanResponse;
    if e.Msg? && e.command.ScanResponse? {
      ScanResponseControl(n, e.lqi, e.command.rsp);
    }
  }

  lemma ScanDoneProgress(n: Node, e: Event)
    requires Inv(n.ctl) && !n.ctl.halted && n.ctl.state == ScanDone
    ensures Progress(n.ctl, e, Restarts(n, e), InScanDone(n).ctl)
  {}

  lemma ScanWaitInfoProgress(n: Node, e: Event, draw: Draw)
    requires Inv(n.ctl) && !n.ctl.halted && n.ctl.state == ScanWaitInfo
    ensures Progress(n.ctl, e, Restarts(n, e), InScanWaitInfo(n, e, draw).ctl)
  {
    hide Proceed;
    ProceedControl(n, draw);
  }

  /** A message to the target of a scan leaves it active or moves it on. */
  lemma ObeyControl(n: Node, c: Command, draw: Draw)
    ensures var k := Obey(n, c, draw).ctl;
            k == n.ctl || k == n.ctl.(state := WaitLeaveReset) || k == n.ctl.(state := WaitDiscovery)
            || k == n.ctl.(state := WaitStartUp, timer := true) || k == n.ctl.(state := SkipDiscovery, timer := true)
  {
    hide Adopt, NewUpdateId;
  }

  lemma ActiveProgress(n: Node, e: Event, draw: Draw)
    requires Inv(n.ctl) && !n.ctl.halted && n.ctl.state == Active
    ensures Progress(n.ctl, e, Restarts(n, e), InActive(n, e, draw).ctl)
  {
    hide Obey;
    if e.Msg? {
      ObeyControl(n, e.command, draw);
    }
  }

  lemma IdleProgress(n: Node, e: Event, draw: Draw)
    requires Inv(n.ctl) && n.ctl.state == Idle
    ensures Progress(n.ctl, e, Restarts(n, e), InIdle(n, e, draw).ctl)
  {}

  /** The states that wait for one answer. */
  lemma AwaitProgress(n: Node, e: Event, answered: bool)
    requires n.ctl.state == WaitStartRsp || n.ctl.state == WaitJoinRtrRsp || n.ctl.state == WaitJoinZedRsp
    requires Inv(n.ctl) && !n.ctl.halted && (answered ==> e.Msg?)
    ensures Progress(n.ctl, e, Restarts(n, e), Await(n, e, answered).ctl)
    ensures answered && e.command.StartRsp? ==> Progress(n.ctl, e, Restarts(n, e), HandleStartRsp(n, e.command).ctl)
  {}

  /** The states that move on whatever the event is. */
  lemma AnyEventProgress(n: Node, e: Event)
    requires Inv(n.ctl) && !n.ctl.halted
    ensures n.ctl.state == SkipDiscovery || (n.ctl.state == WaitDiscovery && e.DiscoveryDone?) ==>
      Progress(n.ctl, e, Restarts(n, e), n.ctl.(state := StartRouter, timer := true))
    ensures n.ctl.state == StartRouter || n.ctl.state == InformApp || n.ctl.state == ScanWaitResetSent ==>
      forall t :: Progress(n.ctl, e, Restarts(n, e), n.ctl.(state := Idle, timer := t))
  {}

  lemma StepMakesProgress(n: Node, e: Event, draw: Draw)
    requires Inv(n.ctl) && !n.ctl.halted
    ensures Progress(n.ctl, e, Restarts(n, e), Step(n, e, draw).ctl)
  {
    hide InIdle, InScanning, InScanDone, InScanWaitInfo, InActive, Await, HandleStartRsp, Adopt;
    match n.ctl.state {
      case Idle => IdleProgress(n, e, draw);
      case Scanning => ScanningProgress(n, e, draw);
      case ScanDone => ScanDoneProgress(n, e);
      case ScanWaitInfo => ScanWaitInfoProgress(n, e, draw);
      case Active => ActiveProgress(n, e, draw);
      case WaitStartRsp => AwaitProgress(n, e, e.Msg? && e.command.StartRsp?); AwaitProgress(n, e, false);
      case WaitJoinRtrRsp => AwaitProgress(n, e, e.Msg? && e.command.JoinRouterRsp?);
      case WaitJoinZedRsp => AwaitProgress(n, e, e.Msg? && e.command.JoinEndDeviceRsp?);
      case WaitDiscovery => AnyEventProgress(n, e);
      case SkipDiscovery => AnyEventProgress(n, e);
      case StartRouter => AnyEventProgress(n, e);
      case InformApp => AnyEventProgress(n, e);
      case ScanWaitResetSent => AnyEventProgress(n, e);
      case _ =>
    }
  }

  // ---------- the node with its timer and event queue ----------

  datatype System = System(node: Node, queue: seq<Event>)

  datatype Action =
    | Expire                  // the armed timer runs out and posts its event
    | Post(event: Event)      // another event is queued
    | Handle(draw: Draw)      // the task handles the oldest event
    | CommandReset            // the host asks that the next touched device be reset

  ghost predicate Possible(s: System, a: Action) {
    match a
    case Expire => s.node.ctl.timer
    case Post(e) => !e.TimerExpired?
    case Handle(_) => s.queue != []
    case CommandReset => true
  }

  function Act(s: System, a: Action): System
    requires Possible(s, a)
  {
    match a
    case Expire => System(s.node.(ctl := s.node.ctl.(timer := false)), s.queue + [TimerExpired])
    case Post(e) => s.(queue := s.queue + [e])
    case Handle(draw) => System(Step(s.node, s.queue[0], draw), s.queue[1..])
    case CommandReset => s.(node := s.node.(session := s.node.session.(resetOverAir := true)))
  }

  ghost predicate PossibleRun(s: System, actions: seq<Action>)
    decreases |actions|
  {
    actions == [] || (Possible(s, actions[0]) && PossibleRun(Act(s, actions[0]), actions[1..]))
  }

  function After(s: System, actions: seq<Action>): System
    requires PossibleRun(s, actions)
    decreases |actions|
  {
    if actions == [] then s else After(Act(s, actions[0]), actions[1..])
  }

  /** A watched node has its timer armed or the expiry queued. */
  ghost predicate Watched(s: System) {
    Inv(s.node.ctl) && (Unwatched(s.node.ctl) || s.node.ctl.timer || TimerExpired in s.queue)
  }

  lemma ActKeepsWatched(s: System, a: Action)
    requires Watched(s) && Possible(s, a)
    ensures Watched(Act(s, a))
  {
    hide Step, Inv, Restarts, Rank;
    if a.Handle? && !s.node.ctl.halted {
      StepMakesProgress(s.node, s.queue[0], a.draw);
      assert s.queue == [s.queue[0]] + s.queue[1..];
    } else if a.Handle? {
      assert Step(s.node, s.queue[0], a.draw) == s.node by {
        HaltedStays(s.node, s.queue[0], a.draw);
      }
    } else if a.Expire? || a.CommandReset? {
      InvIgnoresTimer(s.node.ctl);
    }
  }

  lemma HaltedStays(n: Node, e: Event, draw: Draw)
    requires n.ctl.halted
    ensures Step(n, e, draw) == n
  {}

  lemma InvIgnoresTimer(c: Control)
    ensures Inv(c.(timer := false)) == Inv(c) && Rank(c.(timer := false)) == Rank(c)
  {}

  /** In every run from rest, whatever events come in whatever order, a node on its way is never without its timer. */
  lemma {:induction false} TimerIsNeverForgotten(s: System, actions: seq<Action>)
    requires Watched(s) && PossibleRun(s, actions)
    ensures Watched(After(s, actions))
    decreases |actions|
  {
    hide Watched, Act, Possible;
    if actions != [] {
      ActKeepsWatched(s, actions[0]);
      TimerIsNeverForgotten(Act(s, actions[0]), actions[1..]);
    }
  }

  /** The run neither restarts the node nor waits for a network discovery. */
  ghost predicate Settling(s: System, actions: seq<Action>)
    requires PossibleRun(s, actions)
    decreases |actions|
  {
    && s.node.ctl.state != WaitDiscovery
    && (actions == [] ||
        (&& (actions[0].Handle? ==> !Restarts(s.node, s.queue[0]))
         && Settling(Act(s, actions[0]), actions[1..])))
  }

  /** How many timer expiries the task handles before it is at rest. */
  function ExpiriesHandled(s: System, actions: seq<Action>): nat
    requires PossibleRun(s, actions)
    decreases |actions|
  {
    if actions == [] then 0
    else
      (if actions[0].Handle? && s.queue[0].TimerExpired? && !AtRest(s.node.ctl) then 1 else 0)
      + ExpiriesHandled(Act(s, actions[0]), actions[1..])
  }

  /** What is left of the rank: nothing once the node is reset. */
  function Remaining(c: Control): int {
    if c.halted then 0 else Rank(c)
  }

  lemma ActLowersRemaining(s: System, a: Action)
    requires Watched(s) && Possible(s, a) && s.node.ctl.state != WaitDiscovery
    requires a.Handle? ==> !Restarts(s.node, s.queue[0])
    ensures var spent := if a.Handle? && s.queue[0].TimerExpired? && !AtRest(s.node.ctl) then 1 else 0;
            Remaining(Act(s, a).node.ctl) + spent <= Remaining(s.node.ctl)
  {
    var c := s.node.ctl;
    RankIsBounded(c);
    ActKeepsWatched(s, a);
    RankIsBounded(Act(s, a).node.ctl);
    hide Step, Rank, Inv, Restarts;
    InvIgnoresTimer(c);
    if a.Handle? {
      if c.halted {
        HaltedStays(s.node, s.queue[0], a.draw);
      } else {
        StepMakesProgress(s.node, s.queue[0], a.draw);
        if c.state == Idle && s.queue[0].TimerExpired? {
          IdleIgnoresExpiry(s.node, a.draw);
        }
      }
    }
  }

  lemma IdleIgnoresExpiry(n: Node, draw: Draw)
    requires n.ctl.state == Idle
    ensures Step(n, TimerExpired, draw) == n
  {}

  /**
   * A run that neither restarts the node nor waits for a discovery handles at most as many expiries
   * as its rank before the node is at rest; and while it is not, another expiry is on its way.
   */
  lemma {:induction false} SettlesAfterBoundedExpiries(s: System, actions: seq<Action>)
    requires Watched(s) && PossibleRun(s, actions) && Settling(s, actions)
    ensures ExpiriesHandled(s, actions) + Remaining(After(s, actions).node.ctl) <= Remaining(s.node.ctl) <= MAX_RANK
    ensures var s' := After(s, actions); AtRest(s'.node.ctl) || s'.node.ctl.timer || TimerExpired in s'.queue
    decreases |actions|
  {
    RankIsBounded(s.node.ctl);
    hide Act, Possible, Restarts, Inv, Rank;
    if actions != [] {
      ActLowersRemaining(s, actions[0]);
      ActKeepsWatched(s, actions[0]);
      SettlesAfterBoundedExpiries(Act(s, actions[0]), actions[1..]);
    }
  }

  // ---------- waiting for a discovery ----------

  /** A node that does not rest has its timer armed or the expiry queued, even while it waits for a discovery. */
  ghost predicate StronglyWatched(s: System) {
    Inv(s.node.ctl) && (AtRest(s.node.ctl) || s.node.ctl.timer || TimerExpired in s.queue)
  }

  /** The task handles the last expiry on its way while it waits for a discovery. */
  ghost predicate DropsTheExpiry(s: System, a: Action)
    requires Possible(s, a)
  {
    && a.Handle? && s.queue[0].TimerExpired? && TimerExpired !in s.queue[1..]
    && !s.node.ctl.halted && s.node.ctl.state == WaitDiscovery && !s.node.ctl.timer
  }

  /** The wait for a discovery is the only place where the timer is forgotten, and there only by its last expiry. */
  lemma OnlyDiscoveryForgetsTimer(s: System, a: Action)
    requires StronglyWatched(s) && Possible(s, a)
    ensures StronglyWatched(Act(s, a)) <==> !DropsTheExpiry(s, a)
  {
    hide Step, Inv, Restarts, Rank;
    if a.Handle? && !s.node.ctl.halted {
      StepMakesProgress(s.node, s.queue[0], a.draw);
      assert s.queue == [s.queue[0]] + s.queue[1..];
    } else if a.Handle? {
      HaltedStays(s.node, s.queue[0], a.draw);
    } else if a.Expire? || a.CommandReset? {
      InvIgnoresTimer(s.node.ctl);
    }
  }

  /** The node waits for a discovery, and neither an expiry nor the end of a discovery is on its way. */
  ghost predicate Forgotten(s: System) {
    && !s.node.ctl.halted && s.node.ctl.state == WaitDiscovery && !s.node.ctl.timer
    && forall e <- s.queue :: !e.TimerExpired? && !e.DiscoveryDone?
  }

  /** A scan request, a start request that leaves the network open, and the timeout forget any idle factory new node. */
  lemma DiscoveryCanBeForgotten(n: Node, lqi: byte, tid: nat, theirsNew: bool, params: StartParams, draw: Draw)
    requires !n.ctl.halted && n.ctl.state == Idle && n.zll.factoryNew
    requires lqi >= SCAN_LQI_MIN && (params.extPan == 0 || params.pan == 0)
    ensures var run := [Post(Msg(lqi, tid, ScanReq(theirsNew))), Handle(draw),
                        Post(Msg(lqi, tid, StartReq(params))), Handle(draw), Expire, Handle(draw)];
            PossibleRun(System(n, []), run) && Forgotten(After(System(n, []), run))
  {
    var scan, start := Msg(lqi, tid, ScanReq(theirsNew)), Msg(lqi, tid, StartReq(params));
    var n1 := Step(n, scan, draw);
    var n2 := Step(n1, start, draw);
    var n3 := n2.(ctl := n2.ctl.(timer := false));
    ScanIsAnswered(n, scan, draw);
    StartWaits(n1, start, draw);
    assert Step(n3, TimerExpired, draw) == n3 by {
      DiscoveryIgnoresExpiry(n3, draw);
    }
    hide Step;
    var last := [Handle(draw)];
    assert [Expire, Handle(draw)][1..] == last && last[1..] == [];
    assert PossibleRun(System(n3, []), []) && After(System(n3, []), []) == System(n3, []);
    var s3, s2, s1 := System(n3, [TimerExpired]), System(n2, []), System(n1, []);
    assert PossibleRun(s3, last) && After(s3, last) == System(n3, []) by {
      assert Act(s3, Handle(draw)) == System(n3, []);
    }
    assert Act(s2, Expire) == s3;
    assert PossibleRun(s2, [Expire] + last) && After(s2, [Expire] + last) == System(n3, []) by {
      OneMore(s2, Expire, last);
    }
    PostAndHandle(s1, start, draw, [Expire] + last);
    var rest := [Post(start), Handle(draw)] + ([Expire] + last);
    PostAndHandle(System(n, []), scan, draw, rest);
    assert [Post(scan), Handle(draw)] + rest
           == [Post(scan), Handle(draw), Post(start), Handle(draw), Expire, Handle(draw)];
  }

  lemma ScanIsAnswered(n: Node, e: Event, draw: Draw)
    requires !n.ctl.halted && n.ctl.state == Idle && e.Msg? && e.command.ScanReq? && e.lqi >= SCAN_LQI_MIN
    ensures var n' := Step(n, e, draw);
            !n'.ctl.halted && n'.ctl.state == Active && n'.ctl.timer && n'.zll == n.zll && n'.session.tid == e.tid
  {}

  lemma StartWaits(n: Node, e: Event, draw: Draw)
    requires !n.ctl.halted && n.ctl.state == Active && n.zll.factoryNew
    requires e.Msg? && e.tid == n.session.tid && e.command.StartReq?
    requires e.command.params.extPan == 0 || e.command.params.pan == 0
    ensures Step(n, e, draw).ctl == n.ctl.(state := WaitDiscovery)
  {}

  lemma DiscoveryIgnoresExpiry(n: Node, draw: Draw)
    requires n.ctl.state == WaitDiscovery
    ensures Step(n, TimerExpired, draw) == n
  {}

  lemma OneMore(s: System, a: Action, actions: seq<Action>)
    requires Possible(s, a) && PossibleRun(Act(s, a), actions)
    ensures PossibleRun(s, [a] + actions) && After(s, [a] + actions) == After(Act(s, a), actions)
  {
    assert ([a] + actions)[1..] == actions;
  }

  /** An event that comes while none is waiting, and is handled. */
  lemma PostAndHandle(s: System, e: Event, draw: Draw, actions: seq<Action>)
    requires s.queue == [] && !e.TimerExpired? && PossibleRun(System(Step(s.node, e, draw), []), actions)
    ensures var run := [Post(e), Handle(draw)] + actions;
            PossibleRun(s, run) && After(s, run) == After(System(Step(s.node, e, draw), []), actions)
  {
    hide Step, PossibleRun, After;
    var s1 := System(s.node, [e]);
    assert Act(s, Post(e)) == s1 && Act(s1, Handle(draw)) == System(Step(s.node, e, draw), []);
    assert Possible(s, Post(e)) && Possible(s1, Handle(draw));
    hide Act, Possible;
    OneMore(s1, Handle(draw), actions);
    OneMore(s, Post(e), [Handle(draw)] + actions);
    assert [Post(e)] + ([Handle(draw)] + actions) == [Post(e), Handle(draw)] + actions;
  }

  /** From then on only the end of a discovery moves the node, whatever else happens. */
  lemma {:induction false} ForgottenStays(s: System, actions: seq<Action>)
    requires Forgotten(s) && PossibleRun(s, actions)
    requires forall a <- actions :: a.Post? ==> !a.event.DiscoveryDone?
    ensures Forgotten(After(s, actions)) && After(s, actions).node.ctl == s.node.ctl
    decreases |actions|
  {
    if actions != [] {
      var s' := Act(s, actions[0]);
      assert Forgotten(s') && s'.node.ctl == s.node.ctl by {
        assert actions[0] in actions;
        if actions[0].Handle? {
          WaitIgnores(s.node, s.queue[0], actions[0].draw);
          hide Step;
        }
      }
      hide Act, Forgotten;
      ForgottenStays(s', actions[1..]);
    }
  }

  lemma WaitIgnores(n: Node, e: Event, draw: Draw)
    requires n.ctl.state == WaitDiscovery && !e.DiscoveryDone?
    ensures Step(n, e, draw) == n
  {}
}
