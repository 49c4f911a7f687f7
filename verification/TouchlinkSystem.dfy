/**
 * A network of commissioning tasks: every node runs the task and handles whatever events come to it. The
 * start and join requests that the nodes of the network send are received by at most one node each, at any
 * later time or never; any other grant that a node receives is one of another network. Each step of such a
 * system is at most one step of the network of ranges, so that its safety is that of the nodes' own ranges.
 */
module TouchlinkSystem {
  import opened Bytes
  import opened ZllRanges
  import opened RangeLedger
  import opened Commissioning
  import opened CommissioningGrants
  import N = TouchlinkNetwork
  import A = TouchlinkAddresses

  /** A request is in the air, was received in vain, waits for its receiver to start, or has been adopted. */
  datatype Fate = Air | Dropped | Held(node: nat) | Adopted

  datatype Letter = Letter(grant: Grant, fate: Fate)

  /** Where the start request that a node has accepted comes from. */
  datatype Origin = Elsewhere | FromLetter(k: nat)

  /** inside: the founder and the nodes that own what a grant of the network gave them; holding: the accepted starts. */
  datatype System = System(nodes: seq<Node>, inside: seq<bool>, holding: seq<Origin>, letters: seq<Letter>,
                           addrs: seq<int>, groups: seq<int>)

  /** A node handles an event, or one that carries the grant of a letter. */
  datatype Action =
    | Handle(node: nat, event: Event, draw: Draw)
    | Receive(node: nat, event: Event, draw: Draw, letter: nat)

  predicate CarriesGrant(e: Event) {
    e.Msg? && (e.command.JoinRouterReq? || e.command.StartReq?)
  }

  function GrantOf(e: Event): Grant
    requires CarriesGrant(e)
  {
    if e.command.StartReq? then e.command.params.grant else e.command.grant
  }

  /** A factory new node takes a start request of its running transaction. */
  predicate AcceptsStart(n: Node, e: Event) {
    && !n.ctl.halted && n.ctl.state == Active && n.zll.factoryNew
    && e.Msg? && e.tid == n.session.tid && e.command.StartReq?
  }

  datatype Request = NoRequest | StartSent(grant: Grant) | JoinSent(grant: Grant)

  /** The request that a step has sent, if any. */
  function RequestOf(n: Node, n': Node): Request {
    if |n'.out| <= |n.out| then NoRequest
    else
      match n'.out[|n.out|]
      case StartRequested(g, _) => StartSent(g)
      case JoinRequested(_, g, _) => JoinSent(g)
      case _ => NoRequest
  }

  predicate Shaped(s: System) {
    |s.inside| == |s.nodes| && |s.holding| == |s.nodes|
  }

  function Next(s: System, a: Action): Node
    requires a.node < |s.nodes|
  {
    Step(s.nodes[a.node], a.event, a.draw)
  }

  /** Any node can handle any event; a letter that is still in the air is received with the grant that was sent. */
  predicate Possible(s: System, a: Action) {
    && Shaped(s) && a.node < |s.nodes|
    && (a.Receive? ==>
          CarriesGrant(a.event) && a.letter < |s.letters| && s.letters[a.letter] == Letter(GrantOf(a.event), Air))
  }

  /** The node adopts a grant in this action. */
  predicate Adopting(s: System, a: Action)
    requires Possible(s, a)
  {
    Starting(s.nodes[a.node]) || AcceptsJoin(s.nodes[a.node], a.event)
  }

  /** The letter whose grant it adopts, unless it is one of another network. */
  function AdoptedFrom(s: System, a: Action): Origin
    requires Possible(s, a) && Adopting(s, a)
  {
    if Starting(s.nodes[a.node]) then
      (match s.holding[a.node]
       case Elsewhere => Elsewhere
       case FromLetter(k) => if k < |s.letters| then FromLetter(k) else Elsewhere)
    else if a.Receive? then FromLetter(a.letter)
    else Elsewhere
  }

  /** What a node of the network sends is one of its letters. */
  function Sent(s: System, a: Action): Request
    requires Possible(s, a)
  {
    if s.inside[a.node] then RequestOf(s.nodes[a.node], Next(s, a)) else NoRequest
  }

  // ---------- one action ----------

  function Fated(s: System, a: Action): seq<Letter>
    requires Possible(s, a)
  {
    var n, i := s.nodes[a.node], a.node;
    var kept := if AcceptsStart(n, a.event) then Held(i) else Dropped;
    var read := if a.Receive? then s.letters[a.letter := s.letters[a.letter].(fate := kept)] else s.letters;
    if Adopting(s, a) && AdoptedFrom(s, a).FromLetter? then
      read[AdoptedFrom(s, a).k := read[AdoptedFrom(s, a).k].(fate := Adopted)]
    else read
  }

  /** The addresses that a request hands out of the node's range. */
  function HandedAddrs(r: Request, n: Node, n': Node): seq<int> {
    match r
    case StartSent(g) => [n'.zll.myAddr, g.addr]
    case JoinSent(g) => if n.zll.addrLow == 0 then [] else [g.addr]
    case NoRequest => []
  }

  /** The group ids that a request hands out of the node's range. */
  function HandedGroups(r: Request, n: Node): seq<int> {
    match r
    case StartSent(_) => seq(GROUPS_REQUIRED, k => n.zll.groupLow + k)
    case JoinSent(g) => N.GrantedGroups(g, n.session.target.rsp.groupCount > 0)
    case NoRequest => []
  }

  function Posted(r: Request): seq<Letter> {
    match r
    case StartSent(g) => [Letter(g, Air)]
    case JoinSent(g) => [Letter(g, Air)]
    case NoRequest => []
  }

  function Act(s: System, a: Action): System
    requires Possible(s, a)
  {
    var i := a.node;
    var n, n', r := s.nodes[i], Next(s, a), Sent(s, a);
    System(s.nodes[i := n'],
           s.inside[i := if Adopting(s, a) then AdoptedFrom(s, a).FromLetter? else s.inside[i]],
           s.holding[i := if !AcceptsStart(n, a.event) then s.holding[i]
                          else if a.Receive? then FromLetter(a.letter) else Elsewhere],
           Fated(s, a) + Posted(r), s.addrs + HandedAddrs(r, n, n'), s.groups + HandedGroups(r, n))
  }

  predicate PossibleRun(s: System, actions: seq<Action>)
    decreases |actions|
  {
    actions == [] || (Possible(s, actions[0]) && PossibleRun(Act(s, actions[0]), actions[1..]))
  }

  function After(s: System, actions: seq<Action>): System
    requires PossibleRun(s, actions)
    decreases |actions|
  {
    if actions == [] then s else After(Act(s, actions[0]), actions[1..])
  }

  // ---------- a node that has answered a start holds its letter ----------

  predicate InStart(n: Node) {
    !n.ctl.halted && (n.ctl.state == WaitDiscovery || n.ctl.state == SkipDiscovery || n.ctl.state == StartRouter)
  }

  predicate HoldsLetter(s: System, i: nat)
    requires Shaped(s) && i < |s.nodes|
  {
    InStart(s.nodes[i]) && s.holding[i].FromLetter? ==>
      var k := s.holding[i].k; k < |s.letters| && s.letters[k] == Letter(s.nodes[i].start.grant, Held(i))
  }

  predicate Ordered(s: System) {
    Shaped(s) && forall i :: 0 <= i < |s.nodes| ==> HoldsLetter(s, i)
  }

  /** Only an accepted start request leads into a start, and its grant stays that of the start. */
  lemma StartKeepsGrant(n: Node, e: Event, draw: Draw)
    ensures var n' := Step(n, e, draw);
            InStart(n') ==>
              if AcceptsStart(n, e) then n'.start.grant == GrantOf(e) else InStart(n) && n'.start.grant == n.start.grant
  {
    hide InIdle, InScanning, InScanDone, InScanWaitInfo, Obey, Await, HandleStartRsp, Finish, Inform;
    ScanningNeverStarts(n, e, draw);
    if e.Msg? {
      ObeyStarts(n, e.command, draw);
    }
  }

  lemma ScanningNeverStarts(n: Node, e: Event, draw: Draw)
    ensures n.ctl.state == Idle ==> !InStart(InIdle(n, e, draw))
    ensures n.ctl.state == Scanning ==> !InStart(InScanning(n, e, draw))
    ensures n.ctl.state == ScanDone ==> !InStart(InScanDone(n))
    ensures n.ctl.state == ScanWaitInfo ==> !InStart(InScanWaitInfo(n, e, draw))
    ensures forall answered :: !InStart(n) ==> !InStart(Await(n, e, answered))
    ensures e.Msg? && e.command.StartRsp? && !InStart(n) ==> !InStart(HandleStartRsp(n, e.command))
    ensures !InStart(Finish(n)) && !InStart(Inform(n))
  {
    hide HandleScanResponse, Proceed, NextSecondary;
    ProceedNeverStarts(n, draw);
    if e.Msg? && e.command.ScanResponse? {
      ResponseNeverStarts(n, e.lqi, e.command.rsp);
    }
  }

  lemma ProceedNeverStarts(n: Node, draw: Draw)
    ensures !InStart(Proceed(n, draw))
  {
    hide StartRequest, JoinRequest;
  }

  lemma ResponseNeverStarts(n: Node, lqi: byte, rsp: ScanRsp)
    ensures !InStart(n) ==> !InStart(HandleScanResponse(n, lqi, rsp))
  {
    hide Commissioning.Heard, SameNetwork, Unsuitable, NewUpdateId, AdjustedLqi;
  }

  lemma ObeyStarts(n: Node, c: Command, draw: Draw)
    ensures var n' := Obey(n, c, draw);
            n.ctl.state == Active && InStart(n') ==>
              n.zll.factoryNew && c.StartReq? && n'.start.grant == c.params.grant
  {
    hide NewUpdateId, Adopt;
  }

  lemma ActKeepsOrdered(s: System, a: Action)
    requires Ordered(s) && Possible(s, a)
    ensures Ordered(Act(s, a))
  {
    var n := s.nodes[a.node];
    StartKeepsGrant(n, a.event, a.draw);
    hide Step, Posted, HandedAddrs, HandedGroups, Sent;
    var s' := Act(s, a);
    forall i | 0 <= i < |s'.nodes|
      ensures HoldsLetter(s', i)
    {
      assert HoldsLetter(s, i) && HoldsLetter(s, a.node);
    }
  }

  // ---------- the network that a system is ----------

  /** What counts of a node's ranges. */
  function Strip(z: Zll): Zll {
    z.(factoryNew := false, channel := 0)
  }

  function DeviceOf(inside: bool, n: Node): N.Device {
    if inside then N.Inside(Strip(n.zll)) else N.Outside
  }

  function LetterOf(l: Letter): N.Letter {
    if l.fate.Adopted? then N.Opened else N.Flying(l.grant)
  }

  function Letters(ls: seq<Letter>): (r: seq<N.Letter>)
    ensures |r| == |ls|
  {
    seq(|ls|, k requires 0 <= k < |ls| => LetterOf(ls[k]))
  }

  function Devices(s: System): (r: seq<N.Device>)
    requires Shaped(s)
    ensures |r| == |s.nodes|
  {
    seq(|s.nodes|, i requires 0 <= i < |s.nodes| => DeviceOf(s.inside[i], s.nodes[i]))
  }

  function Network(s: System): N.Net
    requires Shaped(s)
  {
    N.Net(Devices(s), Letters(s.letters), s.addrs, s.groups)
  }

  /** The step of the network that an action is. */
  function NetSteps(s: System, a: Action): seq<N.Step>
    requires Possible(s, a)
  {
    var n, i := s.nodes[a.node], a.node;
    if Adopting(s, a) then
      match AdoptedFrom(s, a)
      case Elsewhere => if s.inside[i] then [N.Leave(i)] else []
      case FromLetter(k) => [N.Deliver(k, i)]
    else
      match Sent(s, a)
      case StartSent(_) => [N.Start(i)]
      case JoinSent(_) => [N.JoinTarget(i, n.session.target.rsp.assign, n.session.target.rsp.groupCount, a.draw.addr)]
      case NoRequest => []
  }

  /** Stripping a node's ranges does not change what it gives away. */
  lemma StripCommutes(z: Zll, assign: bool, groupCount: byte, random: u16, g: Grant)
    ensures StartRequest(Strip(z)) == (Strip(StartRequest(z).0), StartRequest(z).1)
    ensures JoinRequest(Strip(z), assign, groupCount, random)
            == (Strip(JoinRequest(z, assign, groupCount, random).0), JoinRequest(z, assign, groupCount, random).1)
    ensures Strip(Adopt(z, g)) == Adopt(N.BLANK, g)
  {
    hide Middle, Add;
  }

  lemma SameRangesStrip(z: Zll, z': Zll)
    ensures SameRanges(z, z') ==> Strip(z') == Strip(z)
  {}

  lemma NoGrantNoRequest(n: Node, n': Node)
    requires SendsNoGrant(n, n')
    ensures RequestOf(n, n') == NoRequest
  {
    if |n'.out| > |n.out| {
      assert !IsGrant(n'.out[|n.out|]);
    }
  }

  /** One node changes, its letters too. */
  lemma NetworkAfter(s: System, i: nat, n': Node, b: bool, h: Origin, letters: seq<Letter>,
                     addrs: seq<int>, groups: seq<int>)
    requires Shaped(s) && i < |s.nodes|
    ensures var s' := System(s.nodes[i := n'], s.inside[i := b], s.holding[i := h], letters, addrs, groups);
            Shaped(s')
            && Network(s') == N.Net(Network(s).devices[i := DeviceOf(b, n')], Letters(letters), addrs, groups)
  {
    var s' := System(s.nodes[i := n'], s.inside[i := b], s.holding[i := h], letters, addrs, groups);
    assert Devices(s') == Devices(s)[i := DeviceOf(b, n')];
  }

  lemma LettersPosted(ls: seq<Letter>, g: Grant)
    ensures Letters(ls + [Letter(g, Air)]) == Letters(ls) + [N.Flying(g)] && Letters(ls + []) == Letters(ls)
  {
    assert ls + [] == ls;
  }

  lemma LettersFated(ls: seq<Letter>, k: nat, f: Fate)
    requires k < |ls|
    ensures Letters(ls[k := ls[k].(fate := f)])
            == Letters(ls)[k := if f.Adopted? then N.Opened else N.Flying(ls[k].grant)]
    ensures !ls[k].fate.Adopted? ==> Letters(ls)[k] == N.Flying(ls[k].grant)
  {}

  /** What an action does to the letters of the network: it opens the one whose grant is adopted. */
  lemma FatedLetters(s: System, a: Action)
    requires Ordered(s) && Possible(s, a)
    ensures var n, ls := s.nodes[a.node], Letters(s.letters);
            if Adopting(s, a) && AdoptedFrom(s, a).FromLetter? then
              var k := AdoptedFrom(s, a).k;
              && k < |ls| && Letters(Fated(s, a)) == ls[k := N.Opened]
              && ls[k] == N.Flying(if Starting(n) then n.start.grant else GrantOf(a.event))
            else Letters(Fated(s, a)) == ls
  {
    var n, i, ls := s.nodes[a.node], a.node, s.letters;
    assert HoldsLetter(s, i);
    var kept := if AcceptsStart(n, a.event) then Held(i) else Dropped;
    var read := if a.Receive? then ls[a.letter := ls[a.letter].(fate := kept)] else ls;
    if a.Receive? {
      LettersFated(ls, a.letter, kept);
      assert Letters(read) == Letters(ls);
    }
    if Adopting(s, a) && AdoptedFrom(s, a).FromLetter? {
      var k := AdoptedFrom(s, a).k;
      LettersFated(ls, k, Adopted);
      LettersFated(read, k, Adopted);
    }
  }

  lemma ActNetwork(s: System, a: Action)
    requires Possible(s, a)
    ensures var n, n', i, r := s.nodes[a.node], Next(s, a), a.node, Sent(s, a);
            var b := if Adopting(s, a) then AdoptedFrom(s, a).FromLetter? else s.inside[i];
            && Shaped(Act(s, a))
            && Network(Act(s, a))
               == N.Net(Network(s).devices[i := DeviceOf(b, n')], Letters(Fated(s, a) + Posted(r)),
                        s.addrs + HandedAddrs(r, n, n'), s.groups + HandedGroups(r, n))
            && Network(s).devices[i] == DeviceOf(s.inside[i], n)
  {
    var n, n', i, r := s.nodes[a.node], Next(s, a), a.node, Sent(s, a);
    hide Step, Fated, Posted, HandedAddrs, HandedGroups, Sent;
    var b := if Adopting(s, a) then AdoptedFrom(s, a).FromLetter? else s.inside[i];
    var h := if !AcceptsStart(n, a.event) then s.holding[i]
             else if a.Receive? then FromLetter(a.letter) else Elsewhere;
    NetworkAfter(s, i, n', b, h, Fated(s, a) + Posted(r),
                 s.addrs + HandedAddrs(r, n, n'), s.groups + HandedGroups(r, n));
  }

  /** The node adopts a grant, of one of the network's letters or of another network. */
  lemma AdoptionRefines(s: System, a: Action, g: Grant)
    requires Ordered(s) && Possible(s, a) && Adopting(s, a) && Adopts(s.nodes[a.node], Next(s, a), g)
    requires var n := s.nodes[a.node]; g == if Starting(n) then n.start.grant else GrantOf(a.event)
    ensures N.PossibleRun(Network(s), NetSteps(s, a))
    ensures Shaped(Act(s, a)) && N.Run(Network(s), NetSteps(s, a)) == Network(Act(s, a))
  {
    var n, n', i := s.nodes[a.node], Next(s, a), a.node;
    FatedLetters(s, a);
    ActNetwork(s, a);
    NoGrantNoRequest(n, n');
    hide Step, Fated, Act, Adopt, Adopting, AdoptedFrom;
    LettersPosted(Fated(s, a), g);
    StripCommutes(n.zll, false, 0, 0, g);
    SameRangesStrip(Adopt(n.zll, g), n'.zll);
    var net := Network(s);
    if NetSteps(s, a) != [] {
      OneStep(net, NetSteps(s, a)[0]);
    } else {
      assert net.devices[i := net.devices[i]] == net.devices;
    }
    assert s.addrs + [] == s.addrs && s.groups + [] == s.groups;
  }

  /** A node of the network sends a request. */
  lemma RequestRefines(s: System, a: Action)
    requires Ordered(s) && Possible(s, a) && !Adopting(s, a) && s.inside[a.node]
    requires var n, n' := s.nodes[a.node], Next(s, a); Starts(n, n') || Joins(n, n', a.draw)
    ensures N.PossibleRun(Network(s), NetSteps(s, a))
    ensures Shaped(Act(s, a)) && N.Run(Network(s), NetSteps(s, a)) == Network(Act(s, a))
  {
    var n, n', i := s.nodes[a.node], Next(s, a), a.node;
    var rsp := n.session.target.rsp;
    FatedLetters(s, a);
    ActNetwork(s, a);
    hide Step, Fated, Act, StartRequest, JoinRequest, Adopting;
    var g := n'.out[|n.out|].grant;
    LettersPosted(Fated(s, a), g);
    StripCommutes(n.zll, rsp.assign, rsp.groupCount, a.draw.addr, g);
    OneStep(Network(s), NetSteps(s, a)[0]);
  }

  /** The node neither adopts nor sends anything that carries a range of the network. */
  lemma QuietRefines(s: System, a: Action)
    requires Ordered(s) && Possible(s, a) && !Adopting(s, a)
    requires s.inside[a.node] ==> Keeps(s.nodes[a.node], Next(s, a))
    ensures N.PossibleRun(Network(s), NetSteps(s, a))
    ensures Shaped(Act(s, a)) && N.Run(Network(s), NetSteps(s, a)) == Network(Act(s, a))
  {
    var n, n', i := s.nodes[a.node], Next(s, a), a.node;
    FatedLetters(s, a);
    ActNetwork(s, a);
    if s.inside[i] {
      NoGrantNoRequest(n, n');
      SameRangesStrip(n.zll, n'.zll);
    }
    hide Step, Fated, Act, Adopting;
    LettersPosted(Fated(s, a), n.start.grant);
    var devices := Network(s).devices;
    assert devices[i := devices[i]] == devices;
    assert s.addrs + [] == s.addrs && s.groups + [] == s.groups;
  }

  /** Every action of the system is at most one step of its network. */
  lemma ActRefines(s: System, a: Action)
    requires Ordered(s) && Possible(s, a)
    ensures Shaped(Act(s, a)) && N.PossibleRun(Network(s), NetSteps(s, a))
    ensures N.Run(Network(s), NetSteps(s, a)) == Network(Act(s, a))
  {
    var n := s.nodes[a.node];
    StepMovesRanges(n, a.event, a.draw);
    hide Step, Act, NetSteps, Keeps, Starts, Joins, Adopts, N.Run, N.PossibleRun;
    if Starting(n) {
      AdoptionRefines(s, a, n.start.grant);
    } else if AcceptsJoin(n, a.event) {
      AdoptionRefines(s, a, GrantOf(a.event));
    } else if s.inside[a.node] && !Keeps(n, Next(s, a)) {
      RequestRefines(s, a);
    } else {
      QuietRefines(s, a);
    }
  }

  lemma OneStep(net: N.Net, step: N.Step)
    requires N.Possible(net, step)
    ensures N.PossibleRun(net, [step]) && N.Run(net, [step]) == N.Apply(net, step)
  {
    hide N.Apply;
    assert [step][1..] == [];
    assert N.PossibleRun(N.Apply(net, step), []);
  }

  // ---------- whole runs ----------

  function AllNetSteps(s: System, actions: seq<Action>): seq<N.Step>
    requires PossibleRun(s, actions)
    decreases |actions|
  {
    if actions == [] then [] else NetSteps(s, actions[0]) + AllNetSteps(Act(s, actions[0]), actions[1..])
  }

  /** Every run of the system is a run of its network. */
  lemma {:induction false} RunRefines(s: System, actions: seq<Action>)
    requires Ordered(s) && PossibleRun(s, actions)
    ensures N.PossibleRun(Network(s), AllNetSteps(s, actions)) && Shaped(After(s, actions))
    ensures N.Run(Network(s), AllNetSteps(s, actions)) == Network(After(s, actions))
    decreases |actions|
  {
    hide Possible, Act, NetSteps, Network, N.Possible, N.Apply, HoldsLetter;
    if actions == [] {
    } else {
      var next, steps := Act(s, actions[0]), NetSteps(s, actions[0]);
      ActKeepsOrdered(s, actions[0]);
      ActRefines(s, actions[0]);
      RunRefines(next, actions[1..]);
      N.RunConcat(Network(s), steps, AllNetSteps(next, actions[1..]));
    }
  }

  /** One node with the default ranges, any others outside its network, and nothing sent yet. */
  predicate Founding(s: System, addrs: Range, groups: Range) {
    && Shaped(s) && s.nodes != [] && s.letters == [] && s.addrs == [] && s.groups == []
    && (forall i :: 0 <= i < |s.nodes| ==> s.inside[i] == (i == 0) && !InStart(s.nodes[i]))
    && var z := s.nodes[0].zll;
       && z.addrLow == addrs.low && z.addrHigh == addrs.high
       && z.groupLow == groups.low && z.groupHigh == groups.high
  }

  lemma FoundingIsFounder(s: System, addrs: Range, groups: Range)
    requires 0 < addrs.low <= addrs.high < 65535 && 0 < groups.low <= groups.high < 65535
    requires Founding(s, addrs, groups)
    ensures Ordered(s) && Network(s) == N.Founder(s.nodes[0].zll.myAddr, addrs, groups, |s.nodes| - 1)
  {
    var net := N.Founder(s.nodes[0].zll.myAddr, addrs, groups, |s.nodes| - 1);
    assert Devices(s) == net.devices;
    assert Letters([]) == [];
  }

  /**
   * In every run of commissioning tasks around one founder, whatever they hear and in whatever order, from each
   * other or from elsewhere: as long as each request finds the addresses it gives away, no address is handed out
   * or owned twice, and none is lost if and only if no node that owns addresses adopts a grant.
   */
  lemma SystemAddressesAreSafe(s: System, addrs: Range, groups: Range, actions: seq<Action>)
    requires 0 < addrs.low <= addrs.high < 65535 && 0 < groups.low <= groups.high < 65535
    requires Founding(s, addrs, groups) && PossibleRun(s, actions)
    ensures Ordered(s) && Shaped(After(s, actions)) && N.PossibleRun(Network(s), AllNetSteps(s, actions))
    ensures var l := N.AddrLedger(Network(After(s, actions)));
            N.AllAddrMet(Network(s), AllNetSteps(s, actions)) ==>
              Safe(l) && Among(l, addrs)
              && (Complete(l, addrs) <==> N.NoAddrOwnerAdopts(Network(s), AllNetSteps(s, actions)))
  {
    hide Act, Network, After, PossibleRun, N.AllAddrMet, N.AddrLedger, N.Founder, N.Run, N.PossibleRun, AllNetSteps;
    hide Safe, Among, Complete, N.NoAddrOwnerAdopts;
    FoundingIsFounder(s, addrs, groups);
    RunRefines(s, actions);
    if N.AllAddrMet(Network(s), AllNetSteps(s, actions)) {
      N.AddressesAreSafe(s.nodes[0].zll.myAddr, addrs, groups, |s.nodes| - 1, AllNetSteps(s, actions));
    }
  }

  /** The same for group ids. */
  lemma SystemGroupsAreSafe(s: System, addrs: Range, groups: Range, actions: seq<Action>)
    requires 0 < addrs.low <= addrs.high < 65535 && 0 < groups.low <= groups.high < 65535
    requires Founding(s, addrs, groups) && PossibleRun(s, actions)
    ensures Ordered(s) && Shaped(After(s, actions)) && N.PossibleRun(Network(s), AllNetSteps(s, actions))
    ensures var l := N.GroupLedger(Network(After(s, actions)));
            N.AllGroupMet(Network(s), AllNetSteps(s, actions)) ==>
              Safe(l) && Among(l, groups)
              && (Complete(l, groups) <==> N.NoGroupOwnerAdopts(Network(s), AllNetSteps(s, actions)))
  {
    hide Act, Network, After, PossibleRun, N.AllGroupMet, N.GroupLedger, N.Founder, N.Run, N.PossibleRun, AllNetSteps;
    hide Safe, Among, Complete, N.NoGroupOwnerAdopts;
    FoundingIsFounder(s, addrs, groups);
    RunRefines(s, actions);
    if N.AllGroupMet(Network(s), AllNetSteps(s, actions)) {
      N.GroupsAreSafe(s.nodes[0].zll.myAddr, addrs, groups, |s.nodes| - 1, AllNetSteps(s, actions));
    }
  }

  // ---------- no two nodes have the same address ----------

  /** A system whose network is sound: no two addresses in use are the same, and none can be handed out again. */
  ghost predicate Underway(s: System) {
    Ordered(s) && N.ProperAddrs(Network(s)) && Safe(N.AddrLedger(Network(s))) && A.Sound(Network(s))
  }

  lemma {:induction false} RunKeepsOrdered(s: System, actions: seq<Action>)
    requires Ordered(s) && PossibleRun(s, actions)
    ensures Ordered(After(s, actions))
    decreases |actions|
  {
    hide Possible, Act, Ordered;
    if actions != [] {
      ActKeepsOrdered(s, actions[0]);
      RunKeepsOrdered(Act(s, actions[0]), actions[1..]);
    }
  }

  /** A founder that has formed its network at the host's command has its own address outside its range. */
  lemma FormedIsUnderwayIff(s: System, addrs: Range, groups: Range)
    requires 0 < addrs.low <= addrs.high < 65535 && 0 < groups.low <= groups.high < 65535
    requires Founding(s, addrs, groups)
    ensures Underway(s) <==> !In(addrs, s.nodes[0].zll.myAddr)
  {
    FoundingIsFounder(s, addrs, groups);
    A.FounderIsSoundIff(s.nodes[0].zll.myAddr, addrs, groups, |s.nodes| - 1);
  }

  /** Any other founder takes an address of its own when it starts its network, whatever other nodes do before. */
  lemma StartedIsUnderway(s: System, addrs: Range, groups: Range, actions: seq<Action>)
    requires 0 < addrs.low <= addrs.high < 65535 && 0 < groups.low <= groups.high < 65535
    requires Founding(s, addrs, groups) && PossibleRun(s, actions) && AllNetSteps(s, actions) == [N.Start(0)]
    requires N.AddrEnough(s.nodes[0].zll, N.Start(0))
    ensures Underway(After(s, actions))
  {
    var net, own := Network(s), s.nodes[0].zll.myAddr;
    FoundingIsFounder(s, addrs, groups);
    A.FounderIsSoundIff(own, addrs, groups, |s.nodes| - 1);
    A.FounderHolds(own, addrs, groups, |s.nodes| - 1);
    RunRefines(s, actions);
    RunKeepsOrdered(s, actions);
    OneStep(net, N.Start(0));
    hide Act, After, PossibleRun, AllNetSteps, Network, Ordered, Founding, N.Founder, N.Apply, N.Run;
    hide N.AddrLedger, Safe, A.Sound, A.Holders;
  }

  /**
   * From then on, in every run of commissioning tasks whose requests find the addresses that they give away: at every
   * moment no two nodes of the network, and no grant on its way to one, have the same address, and none of these can be
   * handed out again, if and only if every address that a node without a range draws is new.
   */
  lemma SystemAddressesStayDistinctIff(s: System, actions: seq<Action>)
    requires Underway(s) && PossibleRun(s, actions)
    ensures N.PossibleRun(Network(s), AllNetSteps(s, actions)) && Shaped(After(s, actions))
    ensures var net, steps := Network(s), AllNetSteps(s, actions);
            N.AllAddrMet(net, steps) ==>
              && (A.SoundThroughout(net, steps) <==> A.DrawsAreNew(net, steps))
              && (A.DrawsAreNew(net, steps) ==> Underway(After(s, actions)))
  {
    RunRefines(s, actions);
    RunKeepsOrdered(s, actions);
    var net, steps := Network(s), AllNetSteps(s, actions);
    hide Act, Network, After, PossibleRun, AllNetSteps, N.AllAddrMet, N.AddrLedger, N.Run, Ordered, A.Sound;
    if N.AllAddrMet(net, steps) {
      A.AddressesStaySoundIff(net, steps);
      N.AddrRunFollows(net, steps, NOTHING);
    }
  }

  /** Nodes of the network that use the addresses that they were assigned use different ones. */
  lemma UsedAddressesDiffer(s: System, i: nat, j: nat)
    requires Underway(s) && i < j < |s.nodes| && s.inside[i] && s.inside[j]
    requires UsesItsAddress(s.nodes[i]) && UsesItsAddress(s.nodes[j])
    ensures s.nodes[i].nib.nwkAddr != s.nodes[j].nib.nwkAddr
  {
    var hs := A.Holders(Network(s));
    assert hs[i] == A.Holding(s.nodes[i].zll.myAddr) && hs[j] == A.Holding(s.nodes[j].zll.myAddr);
  }
}
