/** The border router daemon's module driver with its global variables, statement by statement. */
module JennicModule {
  import opened Bytes
  import opened BringUp

  datatype Status = Ok | Error | CommsFailed

  /** What sysinfo says of the uptime. */
  datatype Reading = NoReading | Uptime(seconds: int)

  const MODULE_TIMEOUT: int := 60

  /** A module that answers pings is lost when nothing has been heard of it for longer than the timeout. */
  function Health(flags: Flags, lastComms: int, now: Reading): Status {
    if !(flags.versionKnown && flags.supportsPing) then Ok
    else
      match now
      case NoReading => Error
      case Uptime(seconds) => if seconds - lastComms > MODULE_TIMEOUT then CommsFailed else Ok
  }

  /** Only a module that answers pings is ever given up, and it is when nothing has come from it for over a minute. */
  lemma LostAfterOneMinute(flags: Flags, lastComms: int, seconds: int)
    ensures Health(flags, lastComms, Uptime(seconds)) ==
            if flags.versionKnown && flags.supportsPing && seconds > lastComms + 60 then CommsFailed else Ok
  {}

  class Driver {
    const options: Options
    var state: State
    var flags: Flags
    var retries: u32
    var version: nat
    // the remembered network
    var config: Config
    var secure: bool
    var key: seq<byte>
    var log: seq<Entry>
    // the uptime when the module was last heard
    var lastComms: int

    ghost function Current(): Module
      reads this
    {
      Module(state, flags, retries, version, Net(config, secure, key), options, log)
    }

    constructor (options: Options, net: Net)
      ensures Current() == Module(Idle, Flags(false, false, false, false), 0, 0, net, options, [])
    {
      this.options := options;
      state, flags, retries, version := Idle, Flags(false, false, false, false), 0, 0;
      config, secure, key, log, lastComms := net.config, net.secure, net.key, [], 0;
    }

    method WriteMessage(kind: byte, payload: seq<byte>)
      modifies this`log
      ensures log == old(log) + [Sent(kind, payload)]
    {
      log := log + [Sent(kind, payload)];
    }

    /** Writes the configuration in network byte order; no version is left for the error. */
    method WriteConfiguration() returns (status: Status)
      modifies this`log
      ensures status == Ok && Current() == WriteConfig(old(Current()))
    {
      if !flags.versionKnown || version <= Version(1, 0, 255) {
        var bytes := [config.region, config.channel] + Word16(config.pan) + Word32(config.network)
        + Word32(config.prefix / 0x1_0000_0000) + Word32(config.prefix % 0x1_0000_0000);
        WriteMessage(CONFIG, bytes);
      } else if flags.versionKnown && version >= Version(1, 1, 0) {
        var bytes := [config.region, config.channel] + Word16(config.pan) + Word32(config.network)
        + Word32(config.prefix / 0x1_0000_0000) + Word32(config.prefix % 0x1_0000_0000);
        WriteMessage(CONFIG, bytes);
      } else {
        assert false;
      }
      return Ok;
    }

    method WriteSecurity()
      modifies this`log
      ensures Current() == Send(old(Current()), SECURITY, key + options.scheme)
    {
      WriteMessage(SECURITY, key + options.scheme);
    }

    method WriteProfile()
      modifies this`log
      ensures Current() == if version >= Version(1, 1, 0) then Send(old(Current()), PROFILE, [options.profile])
                           else old(Current())
    {
      if version >= Version(1, 1, 0) {
        WriteMessage(PROFILE, [options.profile]);
      }
    }

    method WriteFrontEnd()
      modifies this`log
      ensures Current().(state := DetermineConfiguration) == FrontEndStep(old(Current()))
    {
      if version >= Version(1, 4, 0) {
        WriteMessage(SET_RADIO_FRONTEND, [options.frontEnd]);
        if options.diversity {
          WriteMessage(ENABLE_DIVERSITY, []);
        }
      }
    }

    method WriteActivityLed()
      modifies this`log
      ensures Current() == if options.hasLed then Send(old(Current()), ACTIVITY_LED, [options.led]) else old(Current())
    {
      if options.hasLed {
        WriteMessage(ACTIVITY_LED, [options.led]);
      }
    }

    method RunModule()
      modifies this`log
      ensures Current() == if options.mode == UnknownMode then old(Current())
                           else Send(old(Current()), RunKind(options.mode), [])
    {
      match options.mode {
        case Coordinator => WriteMessage(RUN_COORDINATOR, []);
        case Router => WriteMessage(RUN_ROUTER, []);
        case Commissioning => WriteMessage(RUN_COMMISSIONING, []);
        case UnknownMode =>
      }
    }

    // ---------- the state machine ----------

    /** The states up to the start of the module; falls through from the version to the network. */
    method BeforeStart()
      requires state in {DetermineVersion, ConfigureNetwork, ConfigureSecurity, ConfigureProfile, StartModule}
      modifies this`state, this`flags, this`retries, this`log
      ensures Current() == Machine(old(Current()), false, false)
    {
      hide EncodeConfig, Version;
      if state == DetermineVersion {
        if !flags.versionKnown {
          retries := (retries + 1) % 0x1_0000_0000;
          if retries < MAX_VERSION_RETRIES {
            WriteMessage(VERSION_REQUEST, []);
          } else {
            retries := 0;
            state := ConfigureNetwork;
          }
          return;
        } else {
          retries := 0;
          state := ConfigureNetwork;
        }
      }
      match state {
        case ConfigureNetwork =>
          var _ := WriteConfiguration();
          state := ConfigureSecurity;
        case ConfigureSecurity =>
          log := log + [AtSecurity(secure)];
          if secure {
            WriteSecurity();
          }
          state := if version >= Version(1, 1, 0) then ConfigureProfile else StartModule;
        case ConfigureProfile =>
          WriteProfile();
          state := StartModule;
        case StartModule =>
          RunModule();
          if version >= Version(1, 4, 0) {
            state := ConfigureFrontEnd;
          } else if version >= Version(1, 1, 0) {
            state := DetermineConfiguration;
          } else {
            flags := flags.(addressKnown := false);
            state := DetermineAddress;
          }
      }
    }

    /** The states of a started module; falls through from its configuration to its address to its LED. */
    method AfterStart(timeout: bool, pingDue: bool)
      requires state !in {DetermineVersion, ConfigureNetwork, ConfigureSecurity, ConfigureProfile, StartModule}
      modifies this`state, this`flags, this`retries, this`log
      ensures Current() == Machine(old(Current()), timeout, pingDue)
    {
      hide Version;
      if state == Idle {
        return;
      } else if state == ConfigureFrontEnd {
        WriteFrontEnd();
        state := DetermineConfiguration;
        return;
      } else if state == Running {
        if flags.supportsPing && pingDue {
          WriteMessage(PING, []);
        }
        return;
      }
      if state == DetermineConfiguration {
        if !flags.configKnown {
          if timeout {
            WriteMessage(CONFIG_REQUEST, []);
          }
          return;
        } else {
          state := DetermineAddress;
          flags := flags.(addressKnown := false);
        }
      }
      if state == DetermineAddress {
        FindAddress(timeout);
      } else {
        EnterRunning();
      }
    }

    method FindAddress(timeout: bool)
      requires state == DetermineAddress
      modifies this`state, this`flags, this`retries, this`log
      ensures Current() == AddressStep(old(Current()), timeout)
    {
      hide Version, ActivityLedStep;
      if !flags.addressKnown {
        if timeout {
          retries := (retries + 1) % 0x1_0000_0000;
          if retries < MAX_ADDRESS_RETRIES {
            flags := flags.(addressKnown := false);
            WriteMessage(ADDR, []);
          } else {
            state := DetermineVersion;
            WriteMessage(RESET, []);
          }
        }
      } else {
        retries := 0;
        state := ActivityLed;
        EnterRunning();
        LedIgnoresState(old(Current()).(retries := 0));
      }
    }

    static lemma LedIgnoresState(m: Module)
      ensures ActivityLedStep(m.(state := ActivityLed)) == ActivityLedStep(m)
    {}

    method EnterRunning()
      modifies this`state, this`flags, this`retries, this`log
      ensures Current() == ActivityLedStep(old(Current()))
    {
      if version >= Version(1, 3, 0) {
        WriteActivityLed();
      }
      log := log + [EnteredRunning];
      state := Running;
    }

    /** eJennicModuleStateMachine */
    method StateMachine(timeout: bool, pingDue: bool, now: Reading) returns (status: Status)
      modifies this`state, this`flags, this`retries, this`log
      ensures Current() == Machine(old(Current()), timeout, pingDue)
      ensures status == Health(flags, lastComms, now)
    {
      if state in {DetermineVersion, ConfigureNetwork, ConfigureSecurity, ConfigureProfile, StartModule} {
        BeforeStart();
      } else {
        AfterStart(timeout, pingDue);
      }
      if flags.versionKnown && flags.supportsPing {
        if now.NoReading? {
          return Error;
        }
        if now.seconds - lastComms > MODULE_TIMEOUT {
          return CommsFailed;
        }
      }
      return Ok;
    }

    /** eJennicModuleStart */
    method StartUp(pingDue: bool, now: Reading) returns (status: Status)
      modifies this`state, this`flags, this`retries, this`log
      ensures Current() == Start(old(Current()), pingDue)
      ensures status == Health(flags, lastComms, now)
    {
      hide Machine;
      state := DetermineVersion;
      flags := Flags(false, false, false, false);
      status := StateMachine(false, pingDue, now);
    }

    // ---------- messages ----------

    method ProcessVersion(data: Buffer)
      modifies this`version, this`flags, this`log
      ensures Current() == TakeVersion(old(Current()), data)
    {
      version := Version(data[0], data[1], data[2]);
      flags := flags.(versionKnown := true);
      if version >= Version(1, 1, 0) {
        flags := flags.(supportsPing := true);
      }
      log := log + [VersionReported(version)];
    }

    method ProcessConfig(length: u16, data: Buffer)
      modifies this
      ensures lastComms == old(lastComms)
      ensures Current() == TakeConfig(old(Current()), length, data)
    {
      hide Version, ReadWord16, ReadWord32;
      if length == 3 {
        ProcessVersion(data);
        return;
      }
      if version >= Version(1, 1, 0) {
        var prefix := ReadWord32(data[8..12]) * 0x1_0000_0000 + ReadWord32(data[12..16]);
        ghost var b := data[..16];
        assert b[2..4] == data[2..4] && b[4..8] == data[4..8] && b[8..12] == data[8..12] && b[12..16] == data[12..16];
        config := Config(data[0], data[1], ReadWord16(data[2..4]), ReadWord32(data[4..8]), prefix);
        flags := flags.(configKnown := true);
        log := log + [ConfigReported(data[..16])];
      }
    }

    method ProcessSecurity(data: Buffer)
      modifies this
      ensures lastComms == old(lastComms)
      ensures Current() == TakeSecurity(old(Current()), data)
    {
      if version >= Version(1, 1, 0) {
        secure := true;
        key := data[..16];
        log := log + [SecurityReported(data[..16])];
      }
    }

    /** The handlers of the messages that change the driver. */
    method HandleMessage(kind: byte, length: u16, data: Buffer, stored: bool) returns (status: Status)
      modifies this
      ensures lastComms == old(lastComms)
      ensures Current() == Take(old(Current()), kind, length, data, stored)
      ensures status == if Fails(kind, stored) then Error else Ok
    {
      hide TakeConfig, TakeVersion, TakeSecurity;
      status := Ok;
      if kind == CONFIG {
        ProcessConfig(length, data);
      } else if kind == SECURITY {
        ProcessSecurity(data);
      } else if kind == ADDR {
        if !stored {
          return Error;
        }
        flags := flags.(addressKnown := true);
        log := log + [Heard(ADDR)];
      } else if kind == CONFIG_REQUEST {
        state := ConfigureNetwork;
      } else if kind == VERSION {
        ProcessVersion(data);
      } else if kind == IPV6 && !stored {
        return Error;
      }
    }

    /** eJennicModuleProcessMessage; a message of an unknown type is skipped. */
    method ProcessMessage(kind: byte, length: u16, data: Buffer, stored: bool, heard: Reading, pingDue: bool,
                          now: Reading)
      returns (status: Status)
      modifies this
      ensures Current() == Process(old(Current()), kind, length, data, stored, heard.Uptime?, pingDue)
      ensures lastComms == if Handled(kind) && heard.Uptime? then heard.seconds else old(lastComms)
      ensures status ==
              if !Handled(kind) then Ok
              else if heard.NoReading? || Fails(kind, stored) then Error
              else Health(flags, lastComms, now)
    {
      hide Machine, Take;
      if !Handled(kind) {
        return Ok;
      }
      status := HandleMessage(kind, length, data, stored);
      if heard.NoReading? {
        return Error;
      }
      lastComms := heard.seconds;
      if status == Ok {
        status := StateMachine(false, pingDue, now);
      }
    }
  }
}
