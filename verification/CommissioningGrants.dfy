/**
 * How the commissioning task moves ranges: each step of the task is one of the steps that a network of
 * such nodes is made of, and what it sends is the grant of that step.
 */
module CommissioningGrants {
  import opened Bytes
  import opened ZllRanges
  import opened Commissioning

  predicate IsGrant(o: Output) {
    o.StartRequested? || o.JoinRequested?
  }

  ghost predicate SameRanges(z: Zll, z': Zll) {
    z' == z.(factoryNew := z'.factoryNew, channel := z'.channel)
  }

  /** What was sent before is still there, and nothing after it is a grant. */
  ghost predicate SendsNoGrant(n: Node, n': Node) {
    n.out <= n'.out && forall k :: |n.out| <= k < |n'.out| ==> !IsGrant(n'.out[k])
  }

  /** The ranges stay, and no grant is sent. */
  ghost predicate Keeps(n: Node, n': Node) {
    SameRanges(n.zll, n'.zll) && SendsNoGrant(n, n')
  }

  /** A factory new node starts a network and sends the grant of that start. */
  ghost predicate Starts(n: Node, n': Node) {
    var (z, g) := StartRequest(n.zll);
    && n.zll.factoryNew && n'.zll == z && n'.session.touched == g.addr
    && n'.out == n.out + [StartRequested(g, DEFAULT_CHANNEL)]
  }

  /** A node of a network lets its scan target join and sends the grant of that join. */
  ghost predicate Joins(n: Node, n': Node, draw: Draw) {
    var rsp := n.session.target.rsp;
    var (z, g) := JoinRequest(n.zll, rsp.assign, rsp.groupCount, draw.addr);
    && !n.zll.factoryNew && n'.zll == z && n'.session.touched == g.addr
    && n'.out == n.out + [JoinRequested(!(rsp.factoryNew && rsp.endDevice), g, NetworkOf(n))]
  }

  /** A node starts as the router of the start that it has answered. */
  predicate Starting(n: Node) {
    !n.ctl.halted && n.ctl.state == StartRouter
  }

  /** A factory new node takes a join request of its running transaction. */
  predicate AcceptsJoin(n: Node, e: Event) {
    && !n.ctl.halted && n.ctl.state == Active && n.zll.factoryNew
    && e.Msg? && e.tid == n.session.tid && e.command.JoinRouterReq?
  }

  /** A node takes over the ranges of a grant. */
  ghost predicate Adopts(n: Node, n': Node, g: Grant) {
    SameRanges(Adopt(n.zll, g), n'.zll) && SendsNoGrant(n, n')
  }

  lemma ScanResponseKeeps(n: Node, lqi: byte, rsp: ScanRsp)
    ensures Keeps(n, HandleScanResponse(n, lqi, rsp))
  {
    hide Commissioning.Heard, SameNetwork, Unsuitable, NewUpdateId, AdjustedLqi;
  }

  lemma ScanningKeeps(n: Node, e: Event, draw: Draw)
    ensures Keeps(n, InScanning(n, e, draw)) && Keeps(n, InScanDone(n)) && Keeps(n, InIdle(n, e, draw))
  {
    hide HandleScanResponse, NextSecondary;
    if e.Msg? && e.command.ScanResponse? {
      ScanResponseKeeps(n, e.lqi, e.command.rsp);
    }
  }

  lemma ProceedMoves(n: Node, draw: Draw)
    ensures var n' := Proceed(n, draw); Keeps(n, n') || Starts(n, n') || Joins(n, n', draw)
  {
    hide StartRequest, JoinRequest;
  }

  lemma ObeyMoves(n: Node, e: Event, draw: Draw)
    requires e.Msg?
    ensures var n' := Obey(n, e.command, draw);
            if n.zll.factoryNew && e.command.JoinRouterReq? then Adopts(n, n', e.command.grant) else Keeps(n, n')
  {
    hide NewUpdateId;
  }

  lemma AnswersKeep(n: Node, e: Event, answered: bool)
    ensures Keeps(n, Await(n, e, answered)) && Keeps(n, AnswerStart(n)) && Keeps(n, Finish(n)) && Keeps(n, Inform(n))
    ensures e.Msg? && e.command.StartRsp? ==> Keeps(n, HandleStartRsp(n, e.command))
    ensures Adopts(n, RunRouter(n), n.start.grant)
  {}

  lemma DiscoveryKeeps(n: Node, start: StartParams)
    ensures Keeps(n, AnswerStart(n.(start := start)))
  {}

  /** The states that send nothing, or ask for device information. */
  lemma OtherStatesKeep(n: Node, draw: Draw)
    ensures Keeps(n, n) && Keeps(n, BeginScan(n, draw))
    ensures Keeps(n, Go(Emit(n, DeviceInfoRequest), ScanWaitInfo)) && Keeps(n, End(n, Idle, false))
    ensures Keeps(n, n.(ctl := n.ctl.(halted := true)))
  {}

  lemma GrantIsSent(n: Node, n': Node, draw: Draw)
    ensures SendsNoGrant(n, n') ==> !Starts(n, n') && !Joins(n, n', draw)
  {
    hide StartRequest, JoinRequest;
    if Starts(n, n') || Joins(n, n', draw) {
      assert IsGrant(n'.out[|n.out|]);
    }
  }

  /**
   * Ranges move only by a start request, a join request or an adoption: of the grant of the start that the node
   * has answered, or of a join request that it accepts. Each request sends exactly its grant.
   */
  lemma StepMovesRanges(n: Node, e: Event, draw: Draw)
    ensures var n' := Step(n, e, draw);
            if Starting(n) then Adopts(n, n', n.start.grant)
            else if AcceptsJoin(n, e) then Adopts(n, n', e.command.grant)
            else Keeps(n, n') || Starts(n, n') || Joins(n, n', draw)
    ensures Starts(n, Step(n, e, draw)) || Joins(n, Step(n, e, draw), draw) ==>
              n.ctl.state == ScanWaitInfo && e.Msg? && e.command.DeviceInfoRsp? && e.tid == n.session.tid
  {
    hide InIdle, InScanning, InScanDone, Proceed, Obey, Await, AnswerStart, Finish, Inform, HandleStartRsp, RunRouter;
    hide StartRequest, JoinRequest, Adopt, SendsNoGrant;
    GrantIsSent(n, Step(n, e, draw), draw);
    OtherStatesKeep(n, draw);
    ScanningKeeps(n, e, draw);
    ProceedMoves(n, draw);
    AnswersKeep(n, e, e.Msg? && e.command.JoinRouterRsp?);
    AnswersKeep(n, e, e.Msg? && e.command.JoinEndDeviceRsp?);
    AnswersKeep(n, e, false);
    if e.Msg? {
      ObeyMoves(n, e, draw);
    }
    if e.DiscoveryDone? {
      DiscoveryKeeps(n, n.start.(extPan := e.extPan, pan := e.pan));
    }
  }

  // ---------- the address assigned and the address in use ----------

  /** The node's address in the network layer is the one that it was assigned. */
  predicate UsesItsAddress(n: Node) {
    n.nib.nwkAddr == n.zll.myAddr
  }

  /** A factory new node sends its start request, with which it assigns itself an address. */
  predicate SendsStart(n: Node, e: Event) {
    && !n.ctl.halted && n.ctl.state == ScanWaitInfo && e.Msg? && e.command.DeviceInfoRsp? && e.tid == n.session.tid
    && !n.session.resetOverAir && n.zll.factoryNew
  }

  /** The start of its network has been answered with success. */
  predicate HearsStarted(n: Node, e: Event) {
    !n.ctl.halted && n.ctl.state == WaitStartRsp && e.Msg? && e.command.StartRsp? && e.command.success
  }

  /** An update request of the running transaction that is taken: for the node's network and a PAN id above 255. */
  predicate TakesUpdate(n: Node, e: Event) {
    && !n.ctl.halted && n.ctl.state == Active && e.Msg? && e.tid == n.session.tid && e.command.NwkUpdateReq?
    && e.command.extPan == n.nib.extPan && e.command.pan == n.nib.pan && e.command.pan >= 256
  }

  ghost predicate SameAddresses(n: Node, n': Node) {
    n'.nib.nwkAddr == n.nib.nwkAddr && n'.zll.myAddr == n.zll.myAddr
  }

  lemma ScanKeepsAddresses(n: Node, e: Event, draw: Draw)
    ensures SameAddresses(n, InScanning(n, e, draw)) && SameAddresses(n, InScanDone(n))
    ensures SameAddresses(n, InIdle(n, e, draw))
  {
    hide NewUpdateId, AdjustedLqi, Heard, SameNetwork, Unsuitable, NextSecondary;
  }

  lemma ProceedAddresses(n: Node, draw: Draw)
    ensures var n' := Proceed(n, draw);
            if !n.session.resetOverAir && n.zll.factoryNew
            then n'.nib.nwkAddr == n.nib.nwkAddr && n'.zll.myAddr == n.zll.addrLow
            else SameAddresses(n, n')
  {
    JoinKeepsAddress(n.zll, n.session.target.rsp.assign, n.session.target.rsp.groupCount, draw.addr);
    hide JoinRequest;
  }

  lemma JoinKeepsAddress(z: Zll, assign: bool, groupCount: byte, random: u16)
    ensures JoinRequest(z, assign, groupCount, random).0.myAddr == z.myAddr
  {}

  lemma ObeyAddresses(n: Node, e: Event, draw: Draw)
    requires e.Msg? && !n.ctl.halted && n.ctl.state == Active && e.tid == n.session.tid
    ensures var n' := Obey(n, e.command, draw);
            if AcceptsJoin(n, e) then n'.nib.nwkAddr == n'.zll.myAddr == e.command.grant.addr
            else if TakesUpdate(n, e) then n'.nib.nwkAddr == e.command.nwkAddr && n'.zll.myAddr == n.zll.myAddr
            else SameAddresses(n, n')
  {}

  lemma AnswersAddresses(n: Node, e: Event, answered: bool)
    ensures SameAddresses(n, Await(n, e, answered)) && SameAddresses(n, AnswerStart(n)) && SameAddresses(n, Finish(n))
    ensures SameAddresses(n, Inform(n)) && UsesItsAddress(RunRouter(n))
    ensures e.Msg? && e.command.StartRsp? ==>
              var n' := HandleStartRsp(n, e.command);
              if e.command.success then UsesItsAddress(n') else SameAddresses(n, n')
  {}

  lemma DiscoveryAddresses(n: Node, start: StartParams)
    ensures SameAddresses(n, AnswerStart(n.(start := start)))
  {}

  /**
   * When the address that a node uses is the one that it was assigned: from its start as a router, an accepted join or
   * the answer to its own start on; while the start is unanswered only by chance; and after a network update request
   * that is taken only if that says so. Nothing else makes a difference.
   */
  lemma UsesItsAddressIff(n: Node, e: Event, draw: Draw)
    ensures UsesItsAddress(Step(n, e, draw)) <==>
            if Starting(n) || AcceptsJoin(n, e) || HearsStarted(n, e) then true
            else if SendsStart(n, e) then n.nib.nwkAddr == n.zll.addrLow
            else if TakesUpdate(n, e) then e.command.nwkAddr == n.zll.myAddr
            else UsesItsAddress(n)
  {
    hide InIdle, InScanning, InScanDone, Proceed, Obey, Await, AnswerStart, Finish, Inform, HandleStartRsp, RunRouter;
    ScanKeepsAddresses(n, e, draw);
    ProceedAddresses(n, draw);
    AnswersAddresses(n, e, e.Msg? && e.command.JoinRouterRsp?);
    AnswersAddresses(n, e, e.Msg? && e.command.JoinEndDeviceRsp?);
    AnswersAddresses(n, e, false);
    if e.Msg? && !n.ctl.halted && n.ctl.state == Active && e.tid == n.session.tid {
      ObeyAddresses(n, e, draw);
    }
    if e.DiscoveryDone? {
      DiscoveryAddresses(n, n.start.(extPan := e.extPan, pan := e.pan));
    }
  }
}
