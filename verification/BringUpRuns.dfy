/** What every run of the bring-up keeps, whatever messages, timeouts and configuration requests come. */
module BringUpRuns {
  import opened Bytes
  import opened BringUp

  // ---------- what the log says ----------

  predicate IsRun(e: Entry) {
    e.Sent? && (e.kind == RUN_COORDINATOR || e.kind == RUN_ROUTER || e.kind == RUN_COMMISSIONING)
  }

  predicate IsConfig(e: Entry) {
    e.Sent? && e.kind == CONFIG
  }

  predicate IsSecurity(e: Entry) {
    e.Sent? && e.kind == SECURITY
  }

  /** A configuration was sent at i and no run command since. */
  ghost predicate ConfiguredAt(log: seq<Entry>, i: nat) {
    i < |log| && IsConfig(log[i]) && NoRun(log, i)
  }

  ghost predicate NoRun(log: seq<Entry>, i: nat) {
    forall k :: i <= k < |log| ==> !IsRun(log[k])
  }

  ghost predicate Configured(log: seq<Entry>) {
    exists i: nat :: ConfiguredAt(log, i)
  }

  /** After the configuration at i the security step was taken at j; a secure network sent its security there. */
  ghost predicate SecuredAt(log: seq<Entry>, i: nat, j: nat) {
    && ConfiguredAt(log, i) && i < j < |log| && log[j].AtSecurity?
    && (log[j].secure ==> j + 1 < |log| && IsSecurity(log[j + 1]))
  }

  ghost predicate Secured(log: seq<Entry>) {
    exists i: nat, j: nat :: SecuredAt(log, i, j)
  }

  /** The module's address was heard at i and no run command was sent since. */
  ghost predicate AddressedAt(log: seq<Entry>, i: nat) {
    i < |log| && log[i] == Heard(ADDR) && NoRun(log, i)
  }

  ghost predicate Addressed(log: seq<Entry>) {
    exists i: nat :: AddressedAt(log, i)
  }

  /** The configuration last reported by the module, or else the initial one. */
  function LastConfig(initial: Net, log: seq<Entry>): seq<byte> {
    if log == [] then EncodeConfig(initial.config)
    else if log[|log| - 1].ConfigReported? then log[|log| - 1].config
    else LastConfig(initial, log[..|log| - 1])
  }

  /** The key last reported by the module, or else the initial one. */
  function LastKey(initial: Net, log: seq<Entry>): seq<byte> {
    if log == [] then initial.key
    else if log[|log| - 1].SecurityReported? then log[|log| - 1].key
    else LastKey(initial, log[..|log| - 1])
  }

  /** The network is secure from the start or once the module has reported a key. */
  predicate LastSecure(initial: Net, log: seq<Entry>) {
    initial.secure || exists e <- log :: e.SecurityReported?
  }

  /** The version last reported by the module; zero before the first report. */
  function LastVersion(log: seq<Entry>): nat {
    if log == [] then 0
    else if log[|log| - 1].VersionReported? then log[|log| - 1].version
    else LastVersion(log[..|log| - 1])
  }

  /** The module has reported a version that answers pings. */
  predicate AnswersPings(log: seq<Entry>) {
    exists e <- log :: e.VersionReported? && e.version >= Version(1, 1, 0)
  }

  /** The module's reported version supports the message, and the message carries the configured value. */
  predicate Supported(o: Options, before: seq<Entry>, kind: byte, payload: seq<byte>) {
    && (kind == PROFILE ==> LastVersion(before) >= Version(1, 1, 0) && payload == [o.profile])
    && (kind == ACTIVITY_LED ==> LastVersion(before) >= Version(1, 3, 0) && o.hasLed && payload == [o.led])
    && (kind == SET_RADIO_FRONTEND ==> LastVersion(before) >= Version(1, 4, 0) && payload == [o.frontEnd])
    && (kind == ENABLE_DIVERSITY ==> LastVersion(before) >= Version(1, 4, 0) && o.diversity && payload == [])
    && (kind == PING ==> AnswersPings(before))
    && (IsRun(Sent(kind, payload)) ==> o.mode != UnknownMode && kind == RunKind(o.mode))
  }

  /** What may happen after what has happened before. */
  ghost predicate Allowed(initial: Net, o: Options, before: seq<Entry>, e: Entry) {
    && (IsRun(e) ==> Secured(before))
    && (e.EnteredRunning? ==> Addressed(before))
    && (IsConfig(e) ==> e.payload == LastConfig(initial, before))
    && (IsSecurity(e) ==> e.payload == LastKey(initial, before) + o.scheme)
    && (e.AtSecurity? ==> (e.secure <==> LastSecure(initial, before)))
    && (e.Sent? ==> Supported(o, before, e.kind, e.payload))
  }

  ghost predicate AllAllowed(initial: Net, o: Options, log: seq<Entry>) {
    log == [] ||
    (AllAllowed(initial, o, log[..|log| - 1]) && Allowed(initial, o, log[..|log| - 1], log[|log| - 1]))
  }

  // ---------- the invariant ----------

  ghost predicate Remembers(initial: Net, m: Module) {
    && EncodeConfig(m.net.config) == LastConfig(initial, m.log)
    && m.net.key == LastKey(initial, m.log)
    && (m.net.secure <==> LastSecure(initial, m.log))
    && m.version == LastVersion(m.log)
    && (m.flags.supportsPing ==> AnswersPings(m.log))
  }

  /** How far the log has come in each state. */
  ghost predicate Prepared(m: Module) {
    && m.state != ActivityLed
    && (m.state == ConfigureSecurity ==> Configured(m.log))
    && (m.state == ConfigureProfile || m.state == StartModule ==> Secured(m.log))
    && (m.state == DetermineAddress && m.flags.addressKnown ==> Addressed(m.log))
  }

  ghost predicate Inv(initial: Net, m: Module) {
    Remembers(initial, m) && Prepared(m) && AllAllowed(initial, m.options, m.log)
  }

  // ---------- one more entry ----------

  /** Entries that change nothing that is remembered. */
  predicate Quiet(e: Entry) {
    !e.ConfigReported? && !e.SecurityReported? && !e.VersionReported?
  }

  lemma OneMore(log: seq<Entry>, e: Entry)
    ensures !IsRun(e) ==> (Configured(log) ==> Configured(log + [e])) && (Secured(log) ==> Secured(log + [e]))
                          && (Addressed(log) ==> Addressed(log + [e]))
    ensures IsConfig(e) ==> Configured(log + [e])
    ensures e == Heard(ADDR) ==> Addressed(log + [e])
    ensures e == AtSecurity(false) && Configured(log) ==> Secured(log + [e])
  {
    var log' := log + [e];
    assert log'[|log|] == e && forall k :: 0 <= k < |log| ==> log'[k] == log[k];
    if !IsRun(e) {
      StillConfigured(log, e);
      StillSecured(log, e);
      if Addressed(log) {
        var i: nat :| AddressedAt(log, i);
        assert AddressedAt(log', i);
      }
    }
    if IsConfig(e) {
      assert ConfiguredAt(log', |log|);
    }
    if e == Heard(ADDR) {
      assert AddressedAt(log', |log|);
    }
    if e == AtSecurity(false) && Configured(log) {
      var i: nat :| ConfiguredAt(log, i);
      assert ConfiguredAt(log', i);
      assert SecuredAt(log', i, |log|);
    }
  }

  lemma StillConfigured(log: seq<Entry>, e: Entry)
    requires !IsRun(e)
    ensures forall i: nat :: ConfiguredAt(log, i) ==> ConfiguredAt(log + [e], i)
    ensures Configured(log) ==> Configured(log + [e])
  {
    forall i: nat | ConfiguredAt(log, i)
      ensures ConfiguredAt(log + [e], i)
    {}
    if Configured(log) {
      var i: nat :| ConfiguredAt(log, i);
      assert ConfiguredAt(log + [e], i);
    }
  }

  lemma StillSecured(log: seq<Entry>, e: Entry)
    requires !IsRun(e)
    ensures Secured(log) ==> Secured(log + [e])
  {
    if Secured(log) {
      var i: nat, j: nat :| SecuredAt(log, i, j);
      StillConfigured(log, e);
      assert SecuredAt(log + [e], i, j);
    }
  }

  /** A secure network's security step. */
  lemma SecuritySent(log: seq<Entry>, e: Entry)
    requires Configured(log) && IsSecurity(e)
    ensures Secured(log + [AtSecurity(true)] + [e])
  {
    var i: nat :| ConfiguredAt(log, i);
    StillConfigured(log, AtSecurity(true));
    StillConfigured(log + [AtSecurity(true)], e);
    assert SecuredAt(log + [AtSecurity(true)] + [e], i, |log|);
  }

  /** A reported configuration or key is what is remembered from then on. */
  lemma ReportIsLast(initial: Net, log: seq<Entry>, e: Entry)
    ensures LastConfig(initial, log + [e]) == if e.ConfigReported? then e.config else LastConfig(initial, log)
    ensures LastKey(initial, log + [e]) == if e.SecurityReported? then e.key else LastKey(initial, log)
    ensures LastSecure(initial, log + [e]) <==> (LastSecure(initial, log) || e.SecurityReported?)
    ensures LastVersion(log + [e]) == if e.VersionReported? then e.version else LastVersion(log)
    ensures AnswersPings(log + [e]) <==>
              (AnswersPings(log) || (e.VersionReported? && e.version >= Version(1, 1, 0)))
  {
    hide EncodeConfig;
    assert (log + [e])[..|log|] == log && (log + [e])[|log|] == e;
  }

  lemma AllAllowedGrows(initial: Net, o: Options, log: seq<Entry>, e: Entry)
    requires AllAllowed(initial, o, log) && Allowed(initial, o, log, e)
    ensures AllAllowed(initial, o, log + [e])
  {
    hide Allowed;
    var log' := log + [e];
    assert log'[..|log'| - 1] == log;
  }

  /** An entry that is allowed and remembered leaves the memory and the history in order. */
  lemma LogKeeps(initial: Net, m: Module, e: Entry)
    requires Remembers(initial, m) && AllAllowed(initial, m.options, m.log)
    requires Allowed(initial, m.options, m.log, e) && Quiet(e)
    ensures Remembers(initial, Log(m, e)) && AllAllowed(initial, m.options, Log(m, e).log)
  {
    hide Allowed, AllAllowed, EncodeConfig, LastConfig, LastKey, LastSecure, LastVersion, AnswersPings;
    ReportIsLast(initial, m.log, e);
    AllAllowedGrows(initial, m.options, m.log, e);
  }

  /** Messages of the bring-up other than the run command, the configuration and the security. */
  predicate Ordinary(m: Module, kind: byte, payload: seq<byte>) {
    var e := Sent(kind, payload);
    !IsRun(e) && !IsConfig(e) && !IsSecurity(e) && Supported(m.options, m.log, kind, payload)
  }

  lemma OrdinaryKeeps(initial: Net, m: Module, kind: byte, payload: seq<byte>)
    requires Remembers(initial, m) && AllAllowed(initial, m.options, m.log) && Ordinary(m, kind, payload)
    ensures var m' := Send(m, kind, payload);
            && Remembers(initial, m') && AllAllowed(initial, m.options, m'.log)
            && (Configured(m.log) ==> Configured(m'.log)) && (Secured(m.log) ==> Secured(m'.log))
            && (Addressed(m.log) ==> Addressed(m'.log))
  {
    LogKeeps(initial, m, Sent(kind, payload));
    OneMore(m.log, Sent(kind, payload));
  }

  // ---------- the steps of the state machine ----------

  lemma NetworkKeeps(initial: Net, m: Module)
    requires Remembers(initial, m) && AllAllowed(initial, m.options, m.log)
    ensures Inv(initial, NetworkStep(m))
  {
    hide EncodeConfig, LastConfig, LastKey, LastSecure, LastVersion, AnswersPings;
    hide AllAllowed, Configured, Secured, Addressed;
    var e := Sent(CONFIG, EncodeConfig(m.net.config));
    LogKeeps(initial, m, e);
    OneMore(m.log, e);
  }

  lemma SecurityKeeps(initial: Net, m: Module)
    requires Inv(initial, m) && m.state == ConfigureSecurity
    ensures Inv(initial, SecurityStep(m))
  {
    hide EncodeConfig, LastConfig, LastKey, LastSecure, LastVersion, AnswersPings;
    hide AllAllowed, Configured, Secured, Addressed;
    var e := AtSecurity(m.net.secure);
    LogKeeps(initial, m, e);
    OneMore(m.log, e);
    if m.net.secure {
      var s := Sent(SECURITY, m.net.key + m.options.scheme);
      LogKeeps(initial, Log(m, e), s);
      SecuritySent(m.log, s);
    }
  }

  lemma ProfileKeeps(initial: Net, m: Module)
    requires Inv(initial, m) && m.state == ConfigureProfile
    ensures Inv(initial, ProfileStep(m))
  {
    hide EncodeConfig, LastConfig, LastKey, LastSecure, LastVersion, AnswersPings;
    hide AllAllowed, Configured, Secured, Addressed;
    if m.version >= Version(1, 1, 0) {
      OrdinaryKeeps(initial, m, PROFILE, [m.options.profile]);
    }
  }

  lemma StartKeeps(initial: Net, m: Module)
    requires Inv(initial, m) && m.state == StartModule
    ensures Inv(initial, StartStep(m))
  {
    hide EncodeConfig, LastConfig, LastKey, LastSecure, LastVersion, AnswersPings;
    hide AllAllowed, Configured, Secured, Addressed;
    if m.options.mode != UnknownMode {
      LogKeeps(initial, m, Sent(RunKind(m.options.mode), []));
    }
  }

  lemma FrontEndKeeps(initial: Net, m: Module)
    requires Inv(initial, m) && m.state == ConfigureFrontEnd
    ensures Inv(initial, FrontEndStep(m))
  {
    hide EncodeConfig, LastConfig, LastKey, LastSecure, LastVersion, AnswersPings;
    hide AllAllowed, Configured, Secured, Addressed;
    if m.version >= Version(1, 4, 0) {
      OrdinaryKeeps(initial, m, SET_RADIO_FRONTEND, [m.options.frontEnd]);
      if m.options.diversity {
        OrdinaryKeeps(initial, Send(m, SET_RADIO_FRONTEND, [m.options.frontEnd]), ENABLE_DIVERSITY, []);
      }
    }
  }

  lemma ActivityLedKeeps(initial: Net, m: Module)
    requires Remembers(initial, m) && AllAllowed(initial, m.options, m.log) && Addressed(m.log)
    ensures Inv(initial, ActivityLedStep(m))
  {
    hide EncodeConfig, LastConfig, LastKey, LastSecure, LastVersion, AnswersPings;
    hide AllAllowed, Configured, Secured, Addressed;
    LogKeeps(initial, m, EnteredRunning);
    if m.version >= Version(1, 3, 0) && m.options.hasLed {
      OrdinaryKeeps(initial, m, ACTIVITY_LED, [m.options.led]);
      LogKeeps(initial, Send(m, ACTIVITY_LED, [m.options.led]), EnteredRunning);
    }
  }

  lemma AddressKeeps(initial: Net, m: Module, timeout: bool)
    requires Inv(initial, m) && m.state == DetermineAddress
    ensures Inv(initial, AddressStep(m, timeout))
  {
    hide EncodeConfig, LastConfig, LastKey, LastSecure, LastVersion, AnswersPings, AllAllowed;
    hide Configured, Secured, Addressed, ActivityLedStep;
    if m.flags.addressKnown {
      ActivityLedKeeps(initial, m.(retries := 0));
    } else {
      OrdinaryKeeps(initial, m, ADDR, []);
      OrdinaryKeeps(initial, m, RESET, []);
    }
  }

  lemma ConfigurationKeeps(initial: Net, m: Module, timeout: bool)
    requires Inv(initial, m) && m.state == DetermineConfiguration
    ensures Inv(initial, ConfigurationStep(m, timeout))
  {
    hide EncodeConfig, LastConfig, LastKey, LastSecure, LastVersion, AnswersPings, AllAllowed;
    hide Configured, Secured, Addressed, AddressStep;
    if m.flags.configKnown {
      AddressKeeps(initial, m.(state := DetermineAddress, flags := m.flags.(addressKnown := false)), timeout);
    } else {
      OrdinaryKeeps(initial, m, CONFIG_REQUEST, []);
    }
  }

  lemma VersionKeeps(initial: Net, m: Module)
    requires Inv(initial, m) && m.state == DetermineVersion
    ensures Inv(initial, VersionStep(m))
  {
    hide EncodeConfig, LastConfig, LastKey, LastSecure, LastVersion, AnswersPings, AllAllowed;
    hide Configured, Secured, Addressed, NetworkStep;
    if m.flags.versionKnown {
      NetworkKeeps(initial, m.(retries := 0));
    } else {
      OrdinaryKeeps(initial, m, VERSION_REQUEST, []);
    }
  }

  lemma MachineKeeps(initial: Net, m: Module, timeout: bool, pingDue: bool)
    requires Inv(initial, m)
    ensures Inv(initial, Machine(m, timeout, pingDue))
  {
    hide EncodeConfig, LastConfig, LastKey, LastSecure, LastVersion, AnswersPings;
    hide AllAllowed, Configured, Secured, Addressed;
    hide VersionStep, NetworkStep, SecurityStep, ProfileStep, StartStep, FrontEndStep, ConfigurationStep, AddressStep;
    match m.state {
      case DetermineVersion => VersionKeeps(initial, m);
      case ConfigureNetwork => NetworkKeeps(initial, m);
      case ConfigureSecurity => SecurityKeeps(initial, m);
      case ConfigureProfile => ProfileKeeps(initial, m);
      case StartModule => StartKeeps(initial, m);
      case ConfigureFrontEnd => FrontEndKeeps(initial, m);
      case DetermineConfiguration => ConfigurationKeeps(initial, m, timeout);
      case DetermineAddress => AddressKeeps(initial, m, timeout);
      case Running =>
        if m.flags.supportsPing {
          OrdinaryKeeps(initial, m, PING, []);
        }
      case _ =>
    }
  }

  // ---------- messages ----------

  lemma ReportedIsAllowed(initial: Net, o: Options, log: seq<Entry>, e: Entry)
    requires AllAllowed(initial, o, log) && !Quiet(e)
    ensures AllAllowed(initial, o, log + [e])
  {
    hide Secured, Addressed, LastConfig, LastKey, LastSecure;
    assert (log + [e])[..|log|] == log;
  }

  lemma ReportKeeps(initial: Net, m: Module, e: Entry, net: Net)
    requires Inv(initial, m)
    requires (e.ConfigReported? && net == m.net.(config := net.config) && EncodeConfig(net.config) == e.config)
             || (e.SecurityReported? && net == m.net.(secure := true, key := e.key))
    ensures Inv(initial, Log(m, e).(net := net))
  {
    hide EncodeConfig, Configured, Secured, Addressed, LastConfig, LastKey;
    hide LastSecure, LastVersion, AnswersPings, AllAllowed;
    ReportedIsAllowed(initial, m.options, m.log, e);
    ReportIsLast(initial, m.log, e);
    OneMore(m.log, e);
  }

  lemma TakeVersionKeeps(initial: Net, m: Module, data: Buffer)
    requires Inv(initial, m)
    ensures Inv(initial, TakeVersion(m, data))
  {
    hide EncodeConfig, Version, Configured, Secured, Addressed, LastConfig;
    hide LastKey, LastSecure, LastVersion, AnswersPings;
    hide AllAllowed;
    var e := VersionReported(Version(data[0], data[1], data[2]));
    ReportedIsAllowed(initial, m.options, m.log, e);
    ReportIsLast(initial, m.log, e);
    OneMore(m.log, e);
  }

  lemma TakeKeeps(initial: Net, m: Module, kind: byte, length: u16, data: Buffer, stored: bool)
    requires Inv(initial, m)
    ensures Inv(initial, Take(m, kind, length, data, stored))
  {
    hide EncodeConfig, LastConfig, LastKey, LastSecure, LastVersion, AnswersPings;
    hide AllAllowed, Configured, Secured, Addressed;
    if kind == ADDR {
      LogKeeps(initial, m, Heard(ADDR));
      OneMore(m.log, Heard(ADDR));
    } else if kind == VERSION || (kind == CONFIG && length == 3) {
      TakeVersionKeeps(initial, m, data);
    } else if kind == CONFIG {
      ReceivedConfigRoundTrip(data[..16]);
      ReportKeeps(initial, m, ConfigReported(data[..16]), m.net.(config := DecodeConfig(data[..16])));
    } else if kind == SECURITY {
      ReportKeeps(initial, m, SecurityReported(data[..16]), m.net.(secure := true, key := data[..16]));
    }
  }

  lemma StepKeeps(initial: Net, m: Module, e: Event)
    requires Inv(initial, m)
    ensures Inv(initial, Step(m, e))
  {
    hide Machine, Take, EncodeConfig, LastConfig, LastKey, LastSecure, LastVersion, AnswersPings;
    hide AllAllowed, Configured, Secured, Addressed;
    match e {
      case Restart(pingDue) =>
        var started := m.(state := DetermineVersion, flags := Flags(false, false, false, false));
        MachineKeeps(initial, started, false, pingDue);
      case Tick(timeout, pingDue) => MachineKeeps(initial, m, timeout, pingDue);
      case Message(kind, length, data, stored, _, pingDue) =>
        TakeKeeps(initial, m, kind, length, data, stored);
        MachineKeeps(initial, Take(m, kind, length, data, stored), false, pingDue);
    }
  }

  /** A driver before its first start. */
  predicate Untouched(m: Module) {
    m.log == [] && m.state == BringUp.Idle && m.version == 0 && !m.flags.supportsPing
  }

  lemma {:induction false} RunKeeps(m: Module, es: seq<Event>)
    requires Untouched(m)
    ensures Inv(m.net, Run(m, es))
  {
    hide Step, Inv;
    if es == [] {
      StartsInOrder(m);
    } else {
      RunKeeps(m, es[..|es| - 1]);
      StepKeeps(m.net, Run(m, es[..|es| - 1]), es[|es| - 1]);
    }
  }

  lemma StartsInOrder(m: Module)
    requires Untouched(m)
    ensures Inv(m.net, m)
  {}

  lemma {:induction false} AllowedAt(initial: Net, o: Options, log: seq<Entry>, i: nat)
    requires AllAllowed(initial, o, log) && i < |log|
    ensures Allowed(initial, o, log[..i], log[i])
  {
    hide Allowed;
    var before := log[..|log| - 1];
    if i < |before| {
      AllowedAt(initial, o, before, i);
      assert before[..i] == log[..i];
    }
  }

  /**
   * In every run, of starts, machine calls and messages in any order: before each run command, since
   * the one before it, a configuration was sent and then the security step taken, with the security
   * sent if the network was secure; and the running state is entered only after an address that came
   * after the last run command.
   */
  lemma EveryRunIsPrepared(m: Module, es: seq<Event>, i: nat)
    requires Untouched(m) && i < |Run(m, es).log|
    ensures var log := Run(m, es).log;
            && (IsRun(log[i]) ==> Secured(log[..i]))
            && (log[i].EnteredRunning? ==> Addressed(log[..i]))
  {
    RunKeeps(m, es);
    OptionsAreFixed(m, es);
    AllowedAt(m.net, m.options, Run(m, es).log, i);
    hide Run, Secured, Addressed, AllAllowed;
  }

  /**
   * Every configuration sent is byte for byte the last one that the module has reported before, or the
   * initial one; the security carries the last reported key; and the security step knows of it.
   */
  lemma EveryConfigIsTheLast(m: Module, es: seq<Event>, i: nat)
    requires Untouched(m) && i < |Run(m, es).log|
    ensures var log := Run(m, es).log;
            && (IsConfig(log[i]) ==> log[i].payload == LastConfig(m.net, log[..i]))
            && (IsSecurity(log[i]) ==> log[i].payload == LastKey(m.net, log[..i]) + m.options.scheme)
            && (log[i].AtSecurity? ==> (log[i].secure <==> LastSecure(m.net, log[..i])))
  {
    RunKeeps(m, es);
    OptionsAreFixed(m, es);
    AllowedAt(m.net, m.options, Run(m, es).log, i);
    hide Run, LastConfig, LastKey, LastSecure, LastVersion, AnswersPings, AllAllowed;
  }

  /**
   * No module is sent a message that its reported version does not support: profiles from 1.1.0, the activity
   * LED from 1.3.0, the radio front end from 1.4.0, pings once a version that answers them was reported; and
   * each carries the configured value.
   */
  lemma EveryMessageIsSupported(m: Module, es: seq<Event>, i: nat)
    requires Untouched(m) && i < |Run(m, es).log|
    ensures var log := Run(m, es).log;
            log[i].Sent? ==> Supported(m.options, log[..i], log[i].kind, log[i].payload)
  {
    RunKeeps(m, es);
    OptionsAreFixed(m, es);
    AllowedAt(m.net, m.options, Run(m, es).log, i);
    hide Run, Supported, AllAllowed;
  }

  lemma AddressKeepsOptions(m: Module, timeout: bool)
    ensures AddressStep(m, timeout).options == m.options && ConfigurationStep(m, timeout).options == m.options
  {
    hide Version;
  }

  lemma MachineKeepsOptions(m: Module, timeout: bool, pingDue: bool)
    ensures Machine(m, timeout, pingDue).options == m.options
  {
    hide EncodeConfig, AddressStep, ConfigurationStep, Version;
    AddressKeepsOptions(m, timeout);
  }

  lemma TakeKeepsOptions(m: Module, kind: byte, length: u16, data: Buffer, stored: bool)
    ensures Take(m, kind, length, data, stored).options == m.options
  {
    hide DecodeConfig, Version;
  }

  lemma StepKeepsOptions(m: Module, e: Event)
    ensures Step(m, e).options == m.options
  {
    hide Machine, Take;
    match e {
      case Restart(pingDue) =>
        MachineKeepsOptions(m.(state := DetermineVersion, flags := Flags(false, false, false, false)), false, pingDue);
      case Tick(timeout, pingDue) => MachineKeepsOptions(m, timeout, pingDue);
      case Message(kind, length, data, stored, _, pingDue) =>
        TakeKeepsOptions(m, kind, length, data, stored);
        MachineKeepsOptions(Take(m, kind, length, data, stored), false, pingDue);
    }
  }

  lemma {:induction false} OptionsAreFixed(m: Module, es: seq<Event>)
    ensures Run(m, es).options == m.options
  {
    hide Step;
    if es != [] {
      OptionsAreFixed(m, es[..|es| - 1]);
      StepKeepsOptions(Run(m, es[..|es| - 1]), es[|es| - 1]);
    }
  }

  // ---------- progress ----------

  /** The states before the run command. */
  predicate BeforeRun(s: State) {
    s == DetermineVersion || s == ConfigureNetwork || s == ConfigureSecurity || s == ConfigureProfile
    || s == StartModule
  }

  /** Bounds the calls of the state machine until the run command is sent. */
  function Distance(m: Module): nat {
    match m.state
    case DetermineVersion =>
      if m.flags.versionKnown then 4 else if m.retries < MAX_VERSION_RETRIES then 7 - m.retries else 5
    case ConfigureNetwork => 4
    case ConfigureSecurity => 3
    case ConfigureProfile => 2
    case StartModule => 1
    case _ => 0
  }

  /** The module is to be run, and its retry counter is not about to wrap around. */
  predicate Underway(m: Module) {
    BeforeRun(m.state) && m.options.mode != UnknownMode && m.retries < 0xFFFF_FFFF
  }

  predicate RunSent(m: Module, m': Module) {
    |m'.log| > |m.log| && m'.log[..|m.log|] == m.log && IsRun(m'.log[|m'.log| - 1])
  }

  lemma MachineProgress(m: Module, timeout: bool, pingDue: bool)
    requires Underway(m)
    ensures var m' := Machine(m, timeout, pingDue);
            if m.state == StartModule then RunSent(m, m') else Underway(m') && Distance(m') < Distance(m)
  {
    hide EncodeConfig, Version;
  }

  /** The event neither starts over nor asks for the configuration again. */
  predicate Onward(e: Event) {
    !e.Restart? && !(e.Message? && e.kind == CONFIG_REQUEST)
  }

  /** A handled message leaves the state alone; it may make the version known. */
  lemma TakeProgress(m: Module, kind: byte, length: u16, data: Buffer, stored: bool)
    requires Underway(m) && kind != CONFIG_REQUEST
    ensures var m' := Take(m, kind, length, data, stored);
            Underway(m') && m'.state == m.state && Distance(m') <= Distance(m) && m.log <= m'.log
  {
    hide DecodeConfig, Version;
  }

  predicate RunSince(n: nat, log: seq<Entry>) {
    exists k :: n <= k < |log| && IsRun(log[k])
  }

  lemma StepProgress(m: Module, e: Event)
    requires Underway(m) && Onward(e)
    ensures var m' := Step(m, e);
            RunSince(|m.log|, m'.log) || (Underway(m') && Distance(m') + (if e.Tick? then 1 else 0) <= Distance(m))
    ensures m.log <= Step(m, e).log
  {
    LogGrows(m, e);
    hide Machine, Take, Distance;
    if e.Tick? {
      MachineProgress(m, e.timeout, e.pingDue);
    } else {
      var taken := Take(m, e.kind, e.length, e.data, e.stored);
      TakeProgress(m, e.kind, e.length, e.data, e.stored);
      MachineProgress(taken, false, e.pingDue);
    }
  }

  lemma MachineLogGrows(m: Module, timeout: bool, pingDue: bool)
    ensures m.log <= Machine(m, timeout, pingDue).log
  {
    hide EncodeConfig, Version, AddressStep, ConfigurationStep;
    AddressLogGrows(m, timeout);
  }

  lemma AddressLogGrows(m: Module, timeout: bool)
    ensures m.log <= AddressStep(m, timeout).log && m.log <= ConfigurationStep(m, timeout).log
  {
    hide Version;
  }

  lemma TakeLogGrows(m: Module, kind: byte, length: u16, data: Buffer, stored: bool)
    ensures m.log <= Take(m, kind, length, data, stored).log
  {
    hide DecodeConfig, Version;
  }

  lemma LogGrows(m: Module, e: Event)
    ensures m.log <= Step(m, e).log
  {
    hide Machine, Take;
    match e {
      case Restart(pingDue) =>
        MachineLogGrows(m.(state := DetermineVersion, flags := Flags(false, false, false, false)), false, pingDue);
      case Tick(timeout, pingDue) => MachineLogGrows(m, timeout, pingDue);
      case Message(kind, length, data, stored, _, pingDue) =>
        TakeLogGrows(m, kind, length, data, stored);
        MachineLogGrows(Take(m, kind, length, data, stored), false, pingDue);
    }
  }

  function Ticks(es: seq<Event>): nat {
    if es == [] then 0 else Ticks(es[..|es| - 1]) + if es[|es| - 1].Tick? then 1 else 0
  }

  /** Unless it starts over, the run command has been sent after as many machine calls as the distance. */
  lemma {:induction false} RunComesInTime(m: Module, es: seq<Event>)
    requires Underway(m) && forall e <- es :: Onward(e)
    ensures m.log <= Run(m, es).log
    ensures var m' := Run(m, es);
            RunSince(|m.log|, m'.log) || (Underway(m') && Distance(m') + Ticks(es) <= Distance(m))
    ensures Ticks(es) >= Distance(m) ==> RunSince(|m.log|, Run(m, es).log)
  {
    hide Step, Distance, Onward;
    if es != [] {
      var front, e := es[..|es| - 1], es[|es| - 1];
      var before := Run(m, front);
      RunComesInTime(m, front);
      LogGrows(before, e);
      if RunSince(|m.log|, before.log) {
        var k :| |m.log| <= k < |before.log| && IsRun(before.log[k]);
        assert Run(m, es).log[k] == before.log[k];
      } else {
        StepProgress(before, e);
      }
    }
    if Underway(Run(m, es)) {
      DistanceIsPositive(Run(m, es));
    }
  }

  lemma DistanceIsPositive(m: Module)
    requires Underway(m)
    ensures Distance(m) > 0
  {}
}
