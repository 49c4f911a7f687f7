/**
 * How a module comes to run: what every call of the state machine brings nearer once the run command is
 * sent, what it waits for, how long it asks, and what the module has been sent by then.
 */
module BringUpProgress {
  import opened Bytes
  import opened BringUp
  import opened BringUpRuns

  // ---------- what the messages of the module do ----------

  /** The version that a module reports when it is asked for it is remembered, and the configuration is sent at once. */
  lemma VersionMovesOn(m: Module, length: u16, data: Buffer, stored: bool, pingDue: bool)
    requires m.state == DetermineVersion
    ensures var m' := Step(m, Message(VERSION, length, data, stored, true, pingDue));
            && m'.version == (data[0] as int) * 65536 + (data[1] as int) * 256 + data[2] && m'.flags.versionKnown
            && (m'.flags.supportsPing <==> m.flags.supportsPing || data[0] > 1 || (data[0] == 1 && data[1] >= 1))
            && m'.state == ConfigureSecurity && m'.retries == 0
            && m'.log == m.log + [VersionReported(m'.version)] + [Sent(CONFIG, EncodeConfig(m.net.config))]
  {
    hide EncodeConfig;
  }

  /** The configuration that a module of version 1.1.0 or later reports is remembered, and its address comes next. */
  lemma ConfigMovesOn(m: Module, length: u16, data: Buffer, stored: bool, pingDue: bool)
    requires m.state == DetermineConfiguration && m.version >= Version(1, 1, 0) && length != 3
    ensures var m' := Step(m, Message(CONFIG, length, data, stored, true, pingDue));
            && m'.state == DetermineAddress && !m'.flags.addressKnown && m'.flags.configKnown
            && EncodeConfig(m'.net.config) == data[..16] && m'.log == m.log + [ConfigReported(data[..16])]
  {
    ReceivedConfigRoundTrip(data[..16]);
    hide EncodeConfig, DecodeConfig;
  }

  /** The key that a module of version 1.1.0 or later reports is remembered, and the next security step sends it. */
  lemma KeyIsSentNext(m: Module, length: u16, data: Buffer, stored: bool, pingDue: bool)
    requires m.version >= Version(1, 1, 0)
    ensures var m' := Step(m, Message(SECURITY, length, data, stored, false, pingDue));
            && m'.net.secure && m'.net.key == data[..16] && m'.net.config == m.net.config && m'.state == m.state
            && (m.state == ConfigureSecurity ==>
                  Step(m', Tick(false, pingDue)).log == m.log + [SecurityReported(data[..16])] + [AtSecurity(true)]
                                                        + [Sent(SECURITY, data[..16] + m.options.scheme)])
  {}

  /** What a module of an earlier version says of its network is not heeded. */
  lemma EarlyReportsAreIgnored(m: Module, kind: byte, length: u16, data: Buffer, stored: bool, pingDue: bool)
    requires m.version < Version(1, 1, 0) && length != 3 && (kind == CONFIG || kind == SECURITY)
    ensures Step(m, Message(kind, length, data, stored, false, pingDue)) == m
  {}

  /** A module that asks for its configuration is sent it at once, whatever the driver was about. */
  lemma RequestIsAnswered(m: Module, length: u16, data: Buffer, stored: bool, pingDue: bool)
    ensures var m' := Step(m, Message(CONFIG_REQUEST, length, data, stored, true, pingDue));
            m'.state == ConfigureSecurity && m'.log == m.log + [Sent(CONFIG, EncodeConfig(m.net.config))]
  {
    hide EncodeConfig;
  }

  // ---------- the last step ----------

  /** A stored address takes a module that waits for it into the running state, past its activity LED. */
  lemma AddressEntersRunning(m: Module, length: u16, data: Buffer, pingDue: bool)
    requires m.state == DetermineAddress
    ensures var m' := Step(m, Message(ADDR, length, data, true, true, pingDue));
            var led := if m.version >= Version(1, 3, 0) && m.options.hasLed then [Sent(ACTIVITY_LED, [m.options.led])]
                       else [];
            && m'.state == Running && m'.retries == 0 && m'.version == m.version
            && m'.log == m.log + [Heard(ADDR)] + led + [EnteredRunning]
  {
    hide Version;
  }

  /** Timeouts without an answer. */
  function Silence(k: nat): seq<Event> {
    seq(k, _ => Tick(true, false))
  }

  /** The address is asked for nine times; at the tenth timeout the module is reset and everything starts over. */
  lemma {:induction false} AddressIsAskedNineTimes(m: Module, k: nat)
    requires m.state == DetermineAddress && !m.flags.addressKnown && m.retries == 0 && k <= 10
    ensures var m' := Run(m, Silence(k));
            if k < 10 then m' == m.(retries := k, log := m.log + seq(k, _ => Sent(ADDR, [])))
            else m'.state == DetermineVersion && m'.log == m.log + seq(9, _ => Sent(ADDR, [])) + [Sent(RESET, [])]
  {
    hide ActivityLedStep;
    if k > 0 {
      AddressIsAskedNineTimes(m, k - 1);
      assert Silence(k)[..k - 1] == Silence(k - 1);
      assert seq(k, _ => Sent(ADDR, [])) == seq(k - 1, _ => Sent(ADDR, [])) + [Sent(ADDR, [])];
    } else {
      assert m.log + seq(0, _ => Sent(ADDR, [])) == m.log;
    }
  }

  /** A module that does not tell its version is asked for it twice, and is then configured all the same. */
  lemma VersionIsAskedTwice(m: Module, timeout: bool)
    requires m.state == DetermineVersion && !m.flags.versionKnown && m.retries == 0
    ensures var once := Machine(m, timeout, false);
            var twice := Machine(once, timeout, false);
            && once == m.(retries := 1, log := m.log + [Sent(VERSION_REQUEST, [])])
            && twice == once.(retries := 2, log := once.log + [Sent(VERSION_REQUEST, [])])
            && Machine(twice, timeout, false) == twice.(state := ConfigureNetwork, retries := 0)
  {
    hide NetworkStep;
  }

  /** The configuration is asked for at every timeout, for ever. */
  lemma {:induction false} ConfigurationIsAskedForEver(m: Module, k: nat)
    requires m.state == DetermineConfiguration && !m.flags.configKnown
    ensures Run(m, Silence(k)) == m.(log := m.log + seq(k, _ => Sent(CONFIG_REQUEST, [])))
  {
    hide AddressStep;
    if k > 0 {
      ConfigurationIsAskedForEver(m, k - 1);
      assert Silence(k)[..k - 1] == Silence(k - 1);
      var ask := Sent(CONFIG_REQUEST, []);
      assert seq(k, _ => ask) == seq(k - 1, _ => ask) + [ask];
    } else {
      assert m.log + seq(0, _ => Sent(CONFIG_REQUEST, [])) == m.log;
    }
  }

  /** A running module is sent a ping whenever one is due, if and only if it is known to answer. */
  lemma RunningPingsIff(m: Module, timeout: bool)
    requires m.state == Running
    ensures Step(m, Tick(timeout, false)) == m
    ensures Step(m, Tick(timeout, true)).log == m.log + [Sent(PING, [])] <==> m.flags.supportsPing
  {
    assert (m.log + [Sent(PING, [])])[|m.log|] == Sent(PING, []);
  }

  // ---------- the way there ----------

  /** The states between the run command and the running state. */
  predicate AfterRun(s: State) {
    s == ConfigureFrontEnd || s == DetermineConfiguration || s == DetermineAddress
  }

  /** The timeouts that count towards giving up. */
  function Spent(m: Module): nat {
    if m.state == DetermineVersion then 0 else m.retries
  }

  /** The module is being brought up and has not been given up. */
  predicate Coming(m: Module) {
    && (BeforeRun(m.state) || AfterRun(m.state))
    && m.retries < 0xFFFF_FFFF && Spent(m) < MAX_ADDRESS_RETRIES
  }

  /** Bounds the calls of the state machine until the module runs, apart from waiting for its answers. */
  function Stage(m: Module): nat {
    match m.state
    case ConfigureFrontEnd => 3
    case DetermineConfiguration => 2
    case DetermineAddress => 1
    case _ => Distance(m) + 3
  }

  /** The next call does not have to wait for an answer. */
  predicate GoesOn(m: Module) {
    && (m.state == DetermineConfiguration ==> m.flags.configKnown)
    && (m.state == DetermineAddress ==> m.flags.addressKnown)
  }

  function One(b: bool): nat {
    if b then 1 else 0
  }

  /** The running state has been entered since the log had n entries. */
  predicate EnteredSince(n: nat, log: seq<Entry>) {
    exists k :: n <= k < |log| && log[k] == EnteredRunning
  }

  /** m' is not farther from running than m, and has forgotten nothing that it waits for. */
  predicate Nearer(m: Module, m': Module, timeouts: nat) {
    && Coming(m') && Stage(m') <= Stage(m) && Spent(m') <= Spent(m) + timeouts
    && (m.flags.configKnown ==> m'.flags.configKnown)
  }

  /** What one call of the machine does that does not enter the running state. */
  predicate Advances(m: Module, m': Module, timeout: bool) {
    && Nearer(m, m', One(timeout)) && (GoesOn(m) ==> Stage(m') < Stage(m))
    && m'.version == m.version && (Early(m) ==> Early(m'))
  }

  lemma CallBringsNearer(m: Module, timeout: bool, pingDue: bool)
    requires Coming(m) && Spent(m) + One(timeout) < MAX_ADDRESS_RETRIES
    requires !(m.state == DetermineAddress && m.flags.addressKnown)
    ensures Advances(m, Machine(m, timeout, pingDue), timeout)
  {
    if AfterRun(m.state) {
      CallAfterRun(m, timeout, pingDue);
    } else {
      CallBeforeRun(m, timeout, pingDue);
    }
    hide Machine, Advances;
  }

  lemma CallBeforeRun(m: Module, timeout: bool, pingDue: bool)
    requires Coming(m) && BeforeRun(m.state) && Spent(m) + One(timeout) < MAX_ADDRESS_RETRIES
    ensures Advances(m, Machine(m, timeout, pingDue), timeout)
  {
    hide EncodeConfig, ConfigurationStep, AddressStep, FrontEndStep;
  }

  lemma CallAfterRun(m: Module, timeout: bool, pingDue: bool)
    requires Coming(m) && AfterRun(m.state) && Spent(m) + One(timeout) < MAX_ADDRESS_RETRIES
    requires !(m.state == DetermineAddress && m.flags.addressKnown)
    ensures Advances(m, Machine(m, timeout, pingDue), timeout)
  {
    hide EncodeConfig, ActivityLedStep, Version;
  }

  /** The call that does enter it. */
  lemma LastCallEnters(m: Module, timeout: bool, pingDue: bool)
    requires m.state == DetermineAddress && m.flags.addressKnown
    ensures EnteredSince(|m.log|, Machine(m, timeout, pingDue).log)
  {
    var log := Machine(m, timeout, pingDue).log;
    assert log[|log| - 1] == EnteredRunning && |log| > |m.log|;
  }

  /** A module of a version before 1.1.0, which is not asked for its configuration. */
  predicate Early(m: Module) {
    m.version < Version(1, 1, 0) && m.state != ConfigureFrontEnd && m.state != DetermineConfiguration
  }

  predicate ReportsVersion(e: Event) {
    e.Message? && (e.kind == VERSION || (e.kind == CONFIG && e.length == 3))
  }

  lemma MessageBringsNearer(m: Module, kind: byte, length: u16, data: Buffer, stored: bool)
    requires Coming(m) && kind != CONFIG_REQUEST
    ensures var m' := Take(m, kind, length, data, stored);
            && Nearer(m, m', 0) && m'.state == m.state && Spent(m') == Spent(m) && m.log <= m'.log
            && (!ReportsVersion(Message(kind, length, data, stored, true, true)) && Early(m) ==> Early(m'))
  {
    hide DecodeConfig, Version;
  }

  predicate TimesOut(e: Event) {
    e.Tick? && e.timeout
  }

  lemma StepBringsNearer(m: Module, e: Event)
    requires Coming(m) && Onward(e) && Spent(m) + One(TimesOut(e)) < MAX_ADDRESS_RETRIES
    ensures var m' := Step(m, e);
            || EnteredSince(|m.log|, m'.log)
            || (&& Nearer(m, m', One(TimesOut(e))) && (GoesOn(m) && e.Tick? ==> Stage(m') < Stage(m))
                && (!ReportsVersion(e) && Early(m) ==> Early(m')))
  {
    hide Machine, Take, Stage, Version;
    if e.Tick? {
      if m.state == DetermineAddress && m.flags.addressKnown {
        LastCallEnters(m, e.timeout, e.pingDue);
      } else {
        CallBringsNearer(m, e.timeout, e.pingDue);
      }
    } else {
      var taken := Take(m, e.kind, e.length, e.data, e.stored);
      MessageBringsNearer(m, e.kind, e.length, e.data, e.stored);
      if taken.state == DetermineAddress && taken.flags.addressKnown {
        LastCallEnters(taken, false, e.pingDue);
      } else {
        CallBringsNearer(taken, false, e.pingDue);
      }
    }
  }

  function Timeouts(es: seq<Event>): nat {
    if es == [] then 0 else Timeouts(es[..|es| - 1]) + One(TimesOut(es[|es| - 1]))
  }

  /** Nothing starts over, and the timeouts do not make the module be given up. */
  ghost predicate Undisturbed(m: Module, es: seq<Event>) {
    (forall e <- es :: Onward(e)) && Spent(m) + Timeouts(es) < MAX_ADDRESS_RETRIES
  }

  /** The configuration has come, or is not waited for. */
  ghost predicate ConfigAnswered(m: Module, es: seq<Event>) {
    m.flags.configKnown || (Early(m) && forall e <- es :: !ReportsVersion(e))
  }

  lemma {:induction false} RunBringsNearer(m: Module, es: seq<Event>)
    requires Coming(m) && Undisturbed(m, es)
    ensures m.log <= Run(m, es).log
    ensures EnteredSince(|m.log|, Run(m, es).log) || Nearer(m, Run(m, es), Timeouts(es))
    ensures ConfigAnswered(m, es) ==>
              || EnteredSince(|m.log|, Run(m, es).log)
              || (&& ConfigAnswered(Run(m, es), [])
                  && (Stage(Run(m, es)) <= 1 || Stage(Run(m, es)) + Ticks(es) <= Stage(m)))
  {
    hide Step, Onward, Coming, Early, ReportsVersion;
    if es != [] {
      var front, e := es[..|es| - 1], es[|es| - 1];
      var before := Run(m, front);
      RunBringsNearer(m, front);
      LogGrows(before, e);
      if EnteredSince(|m.log|, before.log) {
        var k :| |m.log| <= k < |before.log| && before.log[k] == EnteredRunning;
        assert Run(m, es).log[k] == EnteredRunning;
      } else {
        StepBringsNearer(before, e);
        WaitsForAddress(before);
        hide Stage;
      }
    }
  }

  /** A configured module that is to go on is one that does not yet wait for its address. */
  lemma WaitsForAddress(m: Module)
    requires Coming(m)
    ensures Stage(m) <= 1 <==> m.state == DetermineAddress
    ensures ConfigAnswered(m, []) && Stage(m) > 1 ==> GoesOn(m)
  {}

  /** The event brings the module's address, and it can be stored. */
  predicate BringsAddress(e: Event) {
    e.Message? && e.kind == ADDR && e.stored && e.uptime
  }

  lemma {:induction false} RunConcat(m: Module, a: seq<Event>, b: seq<Event>)
    ensures Run(m, a + b) == Run(Run(m, a), b)
  {
    hide Step;
    if b == [] {
      assert a + b == a;
    } else {
      RunConcat(m, a, b[..|b| - 1]);
      assert (a + b)[..|a + b| - 1] == a + b[..|b| - 1];
    }
  }

  lemma {:induction false} RunLogGrows(m: Module, es: seq<Event>)
    ensures m.log <= Run(m, es).log
  {
    hide Step;
    if es != [] {
      RunLogGrows(m, es[..|es| - 1]);
      LogGrows(Run(m, es[..|es| - 1]), es[|es| - 1]);
    }
  }

  lemma EnteredEarlier(m: Module, m1: Module, m2: Module)
    requires m.log <= m1.log <= m2.log && (EnteredSince(|m.log|, m1.log) || EnteredSince(|m1.log|, m2.log))
    ensures EnteredSince(|m.log|, m2.log)
  {
    if EnteredSince(|m.log|, m1.log) {
      var k :| |m.log| <= k < |m1.log| && m1.log[k] == EnteredRunning;
      assert m2.log[k] == EnteredRunning;
    }
  }

  /** A module that waits for its address runs once it comes. */
  lemma AddressSuffices(m: Module, before: seq<Event>, e: Event, after: seq<Event>)
    requires Coming(m) && Stage(m) <= 1 && Undisturbed(m, before) && BringsAddress(e)
    ensures EnteredSince(|m.log|, Run(m, before + [e] + after).log)
  {
    hide Stage, Coming, Step, Undisturbed;
    var m1, m2 := Run(m, before), Step(Run(m, before), e);
    RunBringsNearer(m, before);
    RunConcat(m, before, [e]);
    assert [e][..0] == [] && Run(m1, [e]) == m2;
    RunConcat(m, before + [e], after);
    LogGrows(m1, e);
    RunLogGrows(m2, after);
    if !EnteredSince(|m.log|, m1.log) {
      WaitsForAddress(m1);
      AddressEntersRunning(m1, e.length, e.data, e.pingDue);
      assert m2.log[|m2.log| - 1] == EnteredRunning;
    }
    EnteredEarlier(m, m1, m2);
    EnteredEarlier(m, m2, Run(m2, after));
  }

  /**
   * From any moment of the bring-up on, if nothing starts over and the timeouts do not use up the retries: once the
   * configuration has come, or is not waited for, and the machine has been called as often as the stage says, the
   * module enters the running state when its address comes.
   */
  lemma RunningComesInTime(m: Module, a: seq<Event>, b: seq<Event>, c: seq<Event>, e: Event, rest: seq<Event>)
    requires Coming(m) && (forall x <- a :: Onward(x)) && (forall x <- b :: Onward(x)) && (forall x <- c :: Onward(x))
    requires Spent(m) + Timeouts(a) + Timeouts(b) + Timeouts(c) < MAX_ADDRESS_RETRIES
    requires ConfigAnswered(Run(m, a), b) && Ticks(b) + 1 >= Stage(Run(m, a))
    requires BringsAddress(e)
    ensures EnteredSince(|m.log|, Run(m, a + b + (c + [e] + rest)).log)
  {
    hide Stage, Coming, Step, Onward, BringsAddress, ConfigAnswered, Run, EnteredSince, Timeouts, Ticks;
    var m1 := Run(m, a);
    var m2 := Run(m1, b);
    RunBringsNearer(m, a);
    RunConcat(m, a, b);
    RunConcat(m, a + b, c + [e] + rest);
    RunLogGrows(m1, b);
    RunLogGrows(m2, c + [e] + rest);
    if EnteredSince(|m.log|, m1.log) {
      EnteredEarlier(m, m1, m2);
    } else {
      RunBringsNearer(m1, b);
      if EnteredSince(|m1.log|, m2.log) {
        EnteredEarlier(m, m1, m2);
      } else {
        AddressSuffices(m2, c, e, rest);
      }
    }
    EnteredEarlier(m, m2, Run(m2, c + [e] + rest));
  }

  // ---------- what the module has been sent by then ----------

  predicate SentSince(n: nat, log: seq<Entry>, kind: byte, payload: seq<byte>) {
    exists k :: n <= k < |log| && log[k] == Sent(kind, payload)
  }

  /** What a module is due when its run command has been sent, when its front end has been set up, and when it runs. */
  predicate ProfileDue(s: State) {
    s == StartModule || RunDue(s)
  }

  predicate RunDue(s: State) {
    s == ConfigureFrontEnd || FrontEndDue(s)
  }

  predicate FrontEndDue(s: State) {
    s == DetermineConfiguration || s == DetermineAddress || s == Running
  }

  /** What a module of version v in state s has been sent since the log had n entries. */
  ghost predicate Equipped(n: nat, log: seq<Entry>, o: Options, v: nat, s: State) {
    && (ProfileDue(s) && v >= Version(1, 1, 0) ==> SentSince(n, log, PROFILE, [o.profile]))
    && (RunDue(s) && o.mode != UnknownMode ==> SentSince(n, log, RunKind(o.mode), []))
    && (FrontEndDue(s) && v >= Version(1, 4, 0) ==> SentSince(n, log, SET_RADIO_FRONTEND, [o.frontEnd]))
    && (FrontEndDue(s) && v >= Version(1, 4, 0) && o.diversity ==> SentSince(n, log, ENABLE_DIVERSITY, []))
    && (s == Running && v >= Version(1, 3, 0) && o.hasLed ==> SentSince(n, log, ACTIVITY_LED, [o.led]))
  }

  ghost predicate IsEquipped(n: nat, m: Module) {
    n <= |m.log| && m.state != ActivityLed && Equipped(n, m.log, m.options, m.version, m.state)
  }

  lemma SentStays(n: nat, log: seq<Entry>, log': seq<Entry>, kind: byte, payload: seq<byte>)
    requires log <= log' && SentSince(n, log, kind, payload)
    ensures SentSince(n, log', kind, payload)
  {
    var k :| n <= k < |log| && log[k] == Sent(kind, payload);
    assert log'[k] == Sent(kind, payload);
  }

  lemma LastIsSent(n: nat, log: seq<Entry>, kind: byte, payload: seq<byte>)
    requires n <= |log|
    ensures SentSince(n, log + [Sent(kind, payload)], kind, payload)
  {
    assert (log + [Sent(kind, payload)])[|log|] == Sent(kind, payload);
  }

  lemma EquippedStays(n: nat, log: seq<Entry>, log': seq<Entry>, o: Options, v: nat, s: State)
    requires Equipped(n, log, o, v, s) && log <= log'
    ensures Equipped(n, log', o, v, s)
  {
    hide SentSince, Version;
    forall kind, payload | SentSince(n, log, kind, payload)
      ensures SentSince(n, log', kind, payload)
    {
      SentStays(n, log, log', kind, payload);
    }
  }

  lemma ProfileEquips(n: nat, m: Module)
    requires IsEquipped(n, m) && m.state == ConfigureProfile
    ensures IsEquipped(n, ProfileStep(m))
  {
    hide SentSince;
    LastIsSent(n, m.log, PROFILE, [m.options.profile]);
  }

  lemma StartEquips(n: nat, m: Module)
    requires IsEquipped(n, m) && m.state == StartModule
    ensures IsEquipped(n, StartStep(m))
  {
    hide SentSince;
    EquippedStays(n, m.log, StartStep(m).log, m.options, m.version, m.state);
    if m.options.mode != UnknownMode {
      LastIsSent(n, m.log, RunKind(m.options.mode), []);
    }
  }

  lemma FrontEndEquips(n: nat, m: Module)
    requires IsEquipped(n, m) && m.state == ConfigureFrontEnd
    ensures IsEquipped(n, FrontEndStep(m))
  {
    hide SentSince;
    EquippedStays(n, m.log, FrontEndStep(m).log, m.options, m.version, m.state);
    var log := m.log + [Sent(SET_RADIO_FRONTEND, [m.options.frontEnd])];
    LastIsSent(n, m.log, SET_RADIO_FRONTEND, [m.options.frontEnd]);
    LastIsSent(n, log, ENABLE_DIVERSITY, []);
    SentStays(n, log, log + [Sent(ENABLE_DIVERSITY, [])], SET_RADIO_FRONTEND, [m.options.frontEnd]);
  }

  lemma LedEquips(n: nat, m: Module)
    requires IsEquipped(n, m) && m.state == DetermineAddress
    ensures IsEquipped(n, ActivityLedStep(m.(retries := 0)))
  {
    hide SentSince;
    var m' := ActivityLedStep(m.(retries := 0));
    EquippedStays(n, m.log, m'.log, m.options, m.version, m.state);
    var log := m.log + [Sent(ACTIVITY_LED, [m.options.led])];
    LastIsSent(n, m.log, ACTIVITY_LED, [m.options.led]);
    SentStays(n, log, log + [EnteredRunning], ACTIVITY_LED, [m.options.led]);
  }

  lemma CallEquips(n: nat, m: Module, timeout: bool, pingDue: bool)
    requires IsEquipped(n, m)
    ensures IsEquipped(n, Machine(m, timeout, pingDue)) && Machine(m, timeout, pingDue).version == m.version
  {
    hide SentSince, EncodeConfig, ProfileStep, StartStep, FrontEndStep, ActivityLedStep;
    var m' := Machine(m, timeout, pingDue);
    MachineLogGrows(m, timeout, pingDue);
    MachineKeepsOptions(m, timeout, pingDue);
    MachineKeepsVersion(m, timeout, pingDue);
    EquippedStays(n, m.log, m'.log, m.options, m.version, m.state);
    match m.state {
      case ConfigureProfile => ProfileEquips(n, m);
      case StartModule => StartEquips(n, m);
      case ConfigureFrontEnd => FrontEndEquips(n, m);
      case DetermineAddress => LedEquips(n, m);
      case _ =>
    }
  }

  lemma MachineKeepsVersion(m: Module, timeout: bool, pingDue: bool)
    ensures Machine(m, timeout, pingDue).version == m.version
  {
    hide EncodeConfig, Version;
  }

  /** A version that the module reports is the one it has. */
  predicate KeepsVersion(v: nat, e: Event) {
    ReportsVersion(e) ==> Version(e.data[0], e.data[1], e.data[2]) == v
  }

  lemma TakeEquips(n: nat, m: Module, e: Event)
    requires IsEquipped(n, m) && e.Message? && KeepsVersion(m.version, e)
    ensures var m' := Take(m, e.kind, e.length, e.data, e.stored); IsEquipped(n, m') && m'.version == m.version
  {
    hide Equipped, DecodeConfig, Version;
    var m' := Take(m, e.kind, e.length, e.data, e.stored);
    TakeLogGrows(m, e.kind, e.length, e.data, e.stored);
    TakeKeepsOptions(m, e.kind, e.length, e.data, e.stored);
    EquippedStays(n, m.log, m'.log, m.options, m.version, m.state);
    NothingDue(n, m'.log, m.options, m.version, ConfigureNetwork);
  }

  lemma NothingDue(n: nat, log: seq<Entry>, o: Options, v: nat, s: State)
    requires !ProfileDue(s)
    ensures Equipped(n, log, o, v, s)
  {}

  lemma StepEquips(n: nat, m: Module, e: Event)
    requires IsEquipped(n, m) && KeepsVersion(m.version, e)
    ensures IsEquipped(n, Step(m, e)) && Step(m, e).version == m.version
  {
    hide Machine, Take, Equipped, KeepsVersion;
    match e {
      case Restart(pingDue) =>
        NothingDue(n, m.log, m.options, m.version, DetermineVersion);
        CallEquips(n, m.(state := DetermineVersion, flags := Flags(false, false, false, false)), false, pingDue);
      case Tick(timeout, pingDue) => CallEquips(n, m, timeout, pingDue);
      case Message(kind, length, data, stored, _, pingDue) =>
        TakeEquips(n, m, e);
        CallEquips(n, Take(m, kind, length, data, stored), false, pingDue);
    }
  }

  lemma {:induction false} RunEquips(n: nat, m: Module, es: seq<Event>)
    requires IsEquipped(n, m) && forall e <- es :: KeepsVersion(m.version, e)
    ensures IsEquipped(n, Run(m, es)) && Run(m, es).version == m.version
  {
    hide Step, IsEquipped, KeepsVersion;
    if es != [] {
      RunEquips(n, m, es[..|es| - 1]);
      StepEquips(n, Run(m, es[..|es| - 1]), es[|es| - 1]);
    }
  }

  /**
   * A module whose version is settled when it comes to its security step or before: whenever it runs after that,
   * whatever has come in between, it has been sent since then the run command of its mode; from 1.1.0 on its profile;
   * from 1.4.0 on its front end, and the diversity that is asked for; and from 1.3.0 on the LED that is configured.
   */
  lemma RunningIsEquipped(m: Module, es: seq<Event>)
    requires m.state in {DetermineVersion, ConfigureNetwork, ConfigureSecurity}
    requires forall e <- es :: KeepsVersion(m.version, e)
    requires Run(m, es).state == Running
    ensures var n, log, o, v := |m.log|, Run(m, es).log, m.options, m.version;
            && (o.mode == Coordinator ==> SentSince(n, log, RUN_COORDINATOR, []))
            && (o.mode == Router ==> SentSince(n, log, RUN_ROUTER, []))
            && (o.mode == Commissioning ==> SentSince(n, log, RUN_COMMISSIONING, []))
            && (v >= Version(1, 1, 0) ==> SentSince(n, log, PROFILE, [o.profile]))
            && (v >= Version(1, 4, 0) ==> SentSince(n, log, SET_RADIO_FRONTEND, [o.frontEnd]))
            && (v >= Version(1, 4, 0) && o.diversity ==> SentSince(n, log, ENABLE_DIVERSITY, []))
            && (v >= Version(1, 3, 0) && o.hasLed ==> SentSince(n, log, ACTIVITY_LED, [o.led]))
  {
    NothingDue(|m.log|, m.log, m.options, m.version, m.state);
    RunEquips(|m.log|, m, es);
    OptionsAreFixed(m, es);
    hide Run, SentSince, KeepsVersion;
  }
}
