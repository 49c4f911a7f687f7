/**
 * The border router daemon's bring-up of its module as a specification: a version-gated state
 * machine with fall-through, retries and a remembered network configuration, with a log of what was
 * sent and received.
 */
module BringUp {
  import opened Bytes

  // message types of the link
  const VERSION_REQUEST: byte := 0
  const VERSION: byte := 1
  const IPV6: byte := 101
  const CONFIG: byte := 102
  const RUN_COORDINATOR: byte := 103
  const RESET: byte := 104
  const ADDR: byte := 105
  const CONFIG_REQUEST: byte := 106
  const SECURITY: byte := 107
  const LOG: byte := 108
  const PING: byte := 109
  const PROFILE: byte := 110
  const RUN_ROUTER: byte := 111
  const RUN_COMMISSIONING: byte := 112
  const ACTIVITY_LED: byte := 113
  const SET_RADIO_FRONTEND: byte := 114
  const ENABLE_DIVERSITY: byte := 115

  const MAX_VERSION_RETRIES: nat := 3
  const MAX_ADDRESS_RETRIES: nat := 10

  datatype State =
    | Idle | DetermineVersion | ConfigureNetwork | ConfigureSecurity | ConfigureProfile | StartModule
    | ConfigureFrontEnd | DetermineConfiguration | DetermineAddress | ActivityLed | Running

  datatype Mode = Coordinator | Router | Commissioning | UnknownMode

  /** A packed version number. */
  function Version(major: byte, minor: byte, revision: byte): nat {
    major * 65536 + minor * 256 + revision
  }

  // ---------- the network configuration ----------

  datatype Config = Config(region: byte, channel: byte, pan: u16, network: u32, prefix: u64)

  /** The configuration as it is sent: packed and in network byte order. */
  function EncodeConfig(c: Config): (bs: seq<byte>)
    ensures |bs| == 16
  {
    [c.region, c.channel] + Word16(c.pan) + Word32(c.network)
    + Word32(c.prefix / 0x1_0000_0000) + Word32(c.prefix % 0x1_0000_0000)
  }

  function DecodeConfig(bs: seq<byte>): Config
    requires |bs| == 16
  {
    Config(bs[0], bs[1], ReadWord16(bs[2..4]), ReadWord32(bs[4..8]),
           ReadWord32(bs[8..12]) * 0x1_0000_0000 + ReadWord32(bs[12..16]))
  }

  lemma Halves(prefix: u64, msb: u32, lsb: u32)
    ensures prefix / 0x1_0000_0000 * 0x1_0000_0000 + prefix % 0x1_0000_0000 == prefix
    ensures (msb * 0x1_0000_0000 + lsb) / 0x1_0000_0000 == msb && (msb * 0x1_0000_0000 + lsb) % 0x1_0000_0000 == lsb
  {}

  lemma ConfigFields(r: byte, c: byte, a: seq<byte>, b: seq<byte>, d: seq<byte>, e: seq<byte>)
    requires |a| == 2 && |b| == 4 && |d| == 4 && |e| == 4
    ensures var p := [r, c] + a + b + d + e;
            |p| == 16 && p[0] == r && p[1] == c && p[2..4] == a && p[4..8] == b && p[8..12] == d && p[12..16] == e
  {}

  lemma ConfigIsFields(p: seq<byte>)
    requires |p| == 16
    ensures [p[0], p[1]] + p[2..4] + p[4..8] + p[8..12] + p[12..16] == p
  {}

  /** What is remembered from a received configuration is sent again byte for byte. */
  lemma ReceivedConfigRoundTrip(bs: seq<byte>)
    requires |bs| == 16
    ensures EncodeConfig(DecodeConfig(bs)) == bs
  {
    hide Word16, Word32, ReadWord16, ReadWord32;
    Word16ReadBack(bs[2..4]);
    Word32ReadBack(bs[4..8]);
    Word32ReadBack(bs[8..12]);
    Word32ReadBack(bs[12..16]);
    Halves(0, ReadWord32(bs[8..12]), ReadWord32(bs[12..16]));
    ConfigIsFields(bs);
  }

  /** What is sent is understood as the same configuration. */
  lemma SentConfigRoundTrip(c: Config)
    ensures DecodeConfig(EncodeConfig(c)) == c
  {
    hide Word16, Word32, ReadWord16, ReadWord32;
    var msb, lsb := c.prefix / 0x1_0000_0000, c.prefix % 0x1_0000_0000;
    ConfigFields(c.region, c.channel, Word16(c.pan), Word32(c.network), Word32(msb), Word32(lsb));
    WordsRoundTrip(c.pan, c.network);
    WordsRoundTrip(c.pan, msb);
    WordsRoundTrip(c.pan, lsb);
    Halves(c.prefix, msb, lsb);
  }

  /** Where the sent configuration holds its fields, by the weight of each byte. */
  lemma ConfigLayout(c: Config)
    ensures var p := EncodeConfig(c);
            && p[0] == c.region && p[1] == c.channel && Number(p[2], p[3]) == c.pan
            && Number(p[4], p[5]) * 65536 + Number(p[6], p[7]) == c.network
            && Number(p[8], p[9]) * 65536 + Number(p[10], p[11]) == c.prefix / 0x1_0000_0000
            && Number(p[12], p[13]) * 65536 + Number(p[14], p[15]) == c.prefix % 0x1_0000_0000
  {
    hide Word16, Word32, Number;
    var msb, lsb := c.prefix / 0x1_0000_0000, c.prefix % 0x1_0000_0000;
    WordIsNumber(c.pan, c.network);
    WordIsNumber(0, msb);
    WordIsNumber(0, lsb);
  }

  // ---------- the state ----------

  datatype Flags = Flags(versionKnown: bool, addressKnown: bool, configKnown: bool, supportsPing: bool)

  /** What is remembered of the network: its configuration, whether it is secure, and its key. */
  datatype Net = Net(config: Config, secure: bool, key: seq<byte>)

  /** Fixed settings; led is absent when no activity LED is configured, scheme follows the key in a security message. */
  datatype Options = Options(mode: Mode, profile: byte, hasLed: bool, led: byte, frontEnd: byte, diversity: bool,
                             scheme: seq<byte>)

  /** What happened: messages sent and heard, accepted reports, the security step, the entry to the running state. */
  datatype Entry =
    | Sent(kind: byte, payload: seq<byte>) | Heard(heard: byte)
    | VersionReported(version: nat) | ConfigReported(config: seq<byte>) | SecurityReported(key: seq<byte>)
    | AtSecurity(secure: bool) | EnteredRunning

  datatype Module = Module(state: State, flags: Flags, retries: u32, version: nat, net: Net, options: Options,
                           log: seq<Entry>)

  function Log(m: Module, e: Entry): Module {
    m.(log := m.log + [e])
  }

  function Send(m: Module, kind: byte, payload: seq<byte>): Module {
    Log(m, Sent(kind, payload))
  }

  // ---------- the state machine ----------

  /** The two branches of the configuration writer; no version is left for its error branch. */
  predicate WritesOldConfig(m: Module) {
    !m.flags.versionKnown || m.version <= Version(1, 0, 255)
  }

  predicate WritesNewConfig(m: Module) {
    m.flags.versionKnown && m.version >= Version(1, 1, 0)
  }

  lemma WriterNeverFails(m: Module)
    ensures WritesOldConfig(m) || WritesNewConfig(m)
    ensures !(WritesOldConfig(m) && WritesNewConfig(m))
  {}

  function WriteConfig(m: Module): Module {
    Send(m, CONFIG, EncodeConfig(m.net.config))
  }

  function NetworkStep(m: Module): Module {
    WriteConfig(m).(state := ConfigureSecurity)
  }

  function SecurityStep(m: Module): Module {
    var m1 := Log(m, AtSecurity(m.net.secure));
    (if m.net.secure then Send(m1, SECURITY, m.net.key + m.options.scheme) else m1)
    .(state := if m.version >= Version(1, 1, 0) then ConfigureProfile else StartModule)
  }

  function ProfileStep(m: Module): Module {
    (if m.version >= Version(1, 1, 0) then Send(m, PROFILE, [m.options.profile]) else m).(state := StartModule)
  }

  function RunKind(mode: Mode): byte
    requires mode != UnknownMode
  {
    match mode
    case Coordinator => RUN_COORDINATOR
    case Router => RUN_ROUTER
    case Commissioning => RUN_COMMISSIONING
  }

  function StartStep(m: Module): Module {
    var m1 := if m.options.mode == UnknownMode then m else Send(m, RunKind(m.options.mode), []);
    if m.version >= Version(1, 4, 0) then m1.(state := ConfigureFrontEnd)
    else if m.version >= Version(1, 1, 0) then m1.(state := DetermineConfiguration)
    else m1.(state := DetermineAddress, flags := m.flags.(addressKnown := false))
  }

  function FrontEndStep(m: Module): Module {
    (if m.version < Version(1, 4, 0) then m
     else
       var m1 := Send(m, SET_RADIO_FRONTEND, [m.options.frontEnd]);
       if m.options.diversity then Send(m1, ENABLE_DIVERSITY, []) else m1)
    .(state := DetermineConfiguration)
  }

  function ActivityLedStep(m: Module): Module {
    Log(if m.version >= Version(1, 3, 0) && m.options.hasLed then Send(m, ACTIVITY_LED, [m.options.led]) else m,
        EnteredRunning).(state := Running)
  }

  function AddressStep(m: Module, timeout: bool): Module {
    if m.flags.addressKnown then ActivityLedStep(m.(retries := 0))
    else if !timeout then m
    else
      var n := (m.retries + 1) % 0x1_0000_0000;
      if n < MAX_ADDRESS_RETRIES then Send(m.(retries := n), ADDR, [])
      else Send(m.(retries := n, state := DetermineVersion), RESET, [])
  }

  function ConfigurationStep(m: Module, timeout: bool): Module {
    if m.flags.configKnown then
      AddressStep(m.(state := DetermineAddress, flags := m.flags.(addressKnown := false)), timeout)
    else if timeout then Send(m, CONFIG_REQUEST, [])
    else m
  }

  function VersionStep(m: Module): Module {
    if m.flags.versionKnown then NetworkStep(m.(retries := 0))
    else
      var n := (m.retries + 1) % 0x1_0000_0000;
      if n < MAX_VERSION_RETRIES then Send(m.(retries := n), VERSION_REQUEST, [])
      else m.(retries := 0, state := ConfigureNetwork)
  }

  /** eJennicModuleStateMachine; pingDue: the interval between pings has passed. */
  function Machine(m: Module, timeout: bool, pingDue: bool): Module {
    match m.state
    case Idle => m
    case DetermineVersion => VersionStep(m)
    case ConfigureNetwork => NetworkStep(m)
    case ConfigureSecurity => SecurityStep(m)
    case ConfigureProfile => ProfileStep(m)
    case StartModule => StartStep(m)
    case ConfigureFrontEnd => FrontEndStep(m)
    case DetermineConfiguration => ConfigurationStep(m, timeout)
    case DetermineAddress => AddressStep(m, timeout)
    case ActivityLed => ActivityLedStep(m)
    case Running => if m.flags.supportsPing && pingDue then Send(m, PING, []) else m
  }

  /** eJennicModuleStart */
  function Start(m: Module, pingDue: bool): Module {
    Machine(m.(state := DetermineVersion, flags := Flags(false, false, false, false)), false, pingDue)
  }

  // ---------- messages ----------

  const MESSAGE_SIZE: nat := 2048

  /** The receive buffer of the daemon. */
  type Buffer = s: seq<byte> | |s| == MESSAGE_SIZE witness seq(MESSAGE_SIZE, _ => 0)

  function TakeVersion(m: Module, data: Buffer): Module {
    var v := Version(data[0], data[1], data[2]);
    var pings := m.flags.supportsPing || v >= Version(1, 1, 0);
    Log(m, VersionReported(v)).(version := v, flags := m.flags.(versionKnown := true, supportsPing := pings))
  }

  function TakeConfig(m: Module, length: u16, data: Buffer): Module {
    if length == 3 then TakeVersion(m, data)
    else if m.version >= Version(1, 1, 0) then
      Log(m, ConfigReported(data[..16])).(net := m.net.(config := DecodeConfig(data[..16])),
                                          flags := m.flags.(configKnown := true))
    else m
  }

  function TakeSecurity(m: Module, data: Buffer): Module {
    if m.version >= Version(1, 1, 0) then
      Log(m, SecurityReported(data[..16])).(net := m.net.(secure := true, key := data[..16]))
    else m
  }

  /** What the handler of a message does; stored: the module's address could be written to its file. */
  function Take(m: Module, kind: byte, length: u16, data: Buffer, stored: bool): Module {
    if kind == CONFIG then TakeConfig(m, length, data)
    else if kind == SECURITY then TakeSecurity(m, data)
    else if kind == ADDR then (if stored then Log(m, Heard(ADDR)).(flags := m.flags.(addressKnown := true)) else m)
    else if kind == CONFIG_REQUEST then m.(state := ConfigureNetwork)
    else if kind == VERSION then TakeVersion(m, data)
    else m
  }

  predicate Handled(kind: byte) {
    kind == IPV6 || kind == CONFIG || kind == SECURITY || kind == ADDR || kind == CONFIG_REQUEST || kind == LOG
    || kind == VERSION || kind == PING
  }

  /** The handler reports an error: a packet or the address could not be written. */
  predicate Fails(kind: byte, stored: bool) {
    (kind == IPV6 || kind == ADDR) && !stored
  }

  /**
   * eJennicModuleProcessMessage: the handler, and the state machine unless the handler or the query for the uptime
   * failed.
   */
  function Process(m: Module, kind: byte, length: u16, data: Buffer, stored: bool, uptime: bool, pingDue: bool): Module
  {
    if !Handled(kind) then m
    else if !uptime || Fails(kind, stored) then Take(m, kind, length, data, stored)
    else Machine(Take(m, kind, length, data, stored), false, pingDue)
  }

  datatype Event =
    | Restart(pingDue: bool)
    | Tick(timeout: bool, pingDue: bool)
    | Message(kind: byte, length: u16, data: Buffer, stored: bool, uptime: bool, pingDue: bool)

  function Step(m: Module, e: Event): Module {
    match e
    case Restart(pingDue) => Start(m, pingDue)
    case Tick(timeout, pingDue) => Machine(m, timeout, pingDue)
    case Message(kind, length, data, stored, uptime, pingDue) =>
      Process(m, kind, length, data, stored, uptime, pingDue)
  }

  function Run(m: Module, es: seq<Event>): Module {
    if es == [] then m else Step(Run(m, es[..|es| - 1]), es[|es| - 1])
  }
}
