/** ParseConfig and WriteConfig of pkg/lxmf/config.go. */
module Config {
  import opened Basics
  import opened Text
  import opened ConfigText
  import opened ConfigValues

  datatype LXMFConfig = LXMFConfig(
    displayName: Str, announceAtStart: bool, announceInterval: int, deliveryMax: Float, onInbound: Str)

  datatype PropagationConfig = PropagationConfig(
    enableNode: bool, nodeName: Str, authRequired: bool, announceAtStart: bool, announceInterval: int,
    autopeer: bool, autopeerMaxDepth: int, storageLimit: Float, transferMax: Float, messageMax: Float,
    syncMax: Float, stampCostTarget: int, stampCostFlexibility: int, peeringCost: int, remotePeeringCostMax: int,
    prioritise: seq<Str>, controlAllowed: seq<Str>, staticPeers: seq<Str>, maxPeers: int, fromStaticOnly: bool)

  datatype Config = Config(lxmf: LXMFConfig, propagation: PropagationConfig, level: int)

  const STAMP_COST_MIN := 13
  const LOG_CRITICAL := 1
  const LOG_INFO := 4
  const LOG_EXTREME := 7

  // ---------------------------------------------------------------- parsing

  function Word(m: Section, key: string, unset: Str): Str {
    if Lit(key) in m then m[Lit(key)] else unset
  }

  function Flag(m: Section, key: string, unset: bool): bool {
    if Lit(key) in m then ParseBool(m[Lit(key)]) else unset
  }

  function Clamp(n: int, lo: int, hi: int): int {
    if n < lo then lo else if n > hi then hi else n
  }

  /** An integer setting; without a clamp the bounds are those of the type. */
  function Number(m: Section, key: string, unset: int, lo: int, hi: int): int {
    if Lit(key) in m then Clamp(ParseInt(m[Lit(key)]), lo, hi) else unset
  }

  function Size(f: Floats, m: Section, key: string, unset: Float, limit: Float): Float {
    if Lit(key) in m then Limited(f, ParseFloatOrZero(f, m[Lit(key)]), limit) else unset
  }

  function Several(m: Section, key: string): seq<Str> {
    if Lit(key) in m then ListOf(m[Lit(key)]) else []
  }

  function ParseLXMF(f: Floats, m: Section): LXMFConfig {
    LXMFConfig(
      Word(m, "display_name", Lit("Anonymous Peer")),
      Flag(m, "announce_at_start", false),
      Number(m, "announce_interval", 0, INT64_MIN, INT64_MAX),
      Size(f, m, "delivery_transfer_max_accepted_size", f.kb1000, f.min380),
      Word(m, "on_inbound", []))
  }

  function ParsePropagation(f: Floats, m: Section): PropagationConfig {
    PropagationConfig(
      Flag(m, "enable_node", false),
      Word(m, "node_name", []),
      Flag(m, "auth_required", false),
      Flag(m, "announce_at_start", true),
      Number(m, "announce_interval", 360, INT64_MIN, INT64_MAX),
      Flag(m, "autopeer", true),
      Number(m, "autopeer_maxdepth", 6, INT64_MIN, INT64_MAX),
      Size(f, m, "message_storage_limit", f.mb500, f.min5),
      Size(f, m, "propagation_transfer_max_accepted_size", f.kb256, f.min380),
      Size(f, m, "propagation_message_max_accepted_size", f.kb256, f.min380),
      Size(f, m, "propagation_sync_max_accepted_size", f.kb10240, f.min380),
      Number(m, "propagation_stamp_cost_target", 16, STAMP_COST_MIN, INT64_MAX),
      Number(m, "propagation_stamp_cost_flexibility", 3, 0, INT64_MAX),
      Number(m, "peering_cost", 18, 0, INT64_MAX),
      Number(m, "remote_peering_cost_max", 26, 0, INT64_MAX),
      Several(m, "prioritise_destinations"),
      Several(m, "control_allowed"),
      Several(m, "static_peers"),
      Number(m, "max_peers", 20, INT64_MIN, INT64_MAX),
      Flag(m, "from_static_only", false))
  }

  function FromSections(f: Floats, out: Sections): Config {
    Config(ParseLXMF(f, SectionOf(out, Lit("lxmf"))),
           ParsePropagation(f, SectionOf(out, Lit("propagation"))),
           Number(SectionOf(out, Lit("logging")), "loglevel", LOG_INFO, LOG_CRITICAL, LOG_EXTREME))
  }

  /** ParseConfig; None is an error. */
  function Parse(f: Floats, text: Str): Option<Config> {
    match ReadText(START, text) case None => None case Some(end) => Some(FromSections(f, end.out))
  }

  // ---------------------------------------------------------------- printing

  function LXMFPairs(f: Floats, c: LXMFConfig): seq<KV> {
    [KV(Lit("display_name"), c.displayName),
     KV(Lit("announce_at_start"), BoolStr(c.announceAtStart)),
     KV(Lit("announce_interval"), Itoa(c.announceInterval)),
     KV(Lit("delivery_transfer_max_accepted_size"), f.show(c.deliveryMax)),
     KV(Lit("on_inbound"), c.onInbound)]
  }

  /** The names of the [propagation] section in the order in which they are printed. */
  function Name(i: nat): string {
    match i
    case 0 => "enable_node"
    case 1 => "node_name"
    case 2 => "auth_required"
    case 3 => "announce_at_start"
    case 4 => "announce_interval"
    case 5 => "autopeer"
    case 6 => "autopeer_maxdepth"
    case 7 => "message_storage_limit"
    case 8 => "propagation_transfer_max_accepted_size"
    case 9 => "propagation_message_max_accepted_size"
    case 10 => "propagation_sync_max_accepted_size"
    case 11 => "propagation_stamp_cost_target"
    case 12 => "propagation_stamp_cost_flexibility"
    case 13 => "peering_cost"
    case 14 => "remote_peering_cost_max"
    case 15 => "prioritise_destinations"
    case 16 => "control_allowed"
    case 17 => "static_peers"
    case 18 => "max_peers"
    case _ => "from_static_only"
  }

  const NAMES := 20

  function PropagationValue(f: Floats, c: PropagationConfig, i: nat): Str {
    match i
    case 0 => BoolStr(c.enableNode)
    case 1 => c.nodeName
    case 2 => BoolStr(c.authRequired)
    case 3 => BoolStr(c.announceAtStart)
    case 4 => Itoa(c.announceInterval)
    case 5 => BoolStr(c.autopeer)
    case 6 => Itoa(c.autopeerMaxDepth)
    case 7 => f.show(c.storageLimit)
    case 8 => f.show(c.transferMax)
    case 9 => f.show(c.messageMax)
    case 10 => f.show(c.syncMax)
    case 11 => Itoa(c.stampCostTarget)
    case 12 => Itoa(c.stampCostFlexibility)
    case 13 => Itoa(c.peeringCost)
    case 14 => Itoa(c.remotePeeringCostMax)
    case 15 => Join(c.prioritise)
    case 16 => Join(c.controlAllowed)
    case 17 => Join(c.staticPeers)
    case 18 => Itoa(c.maxPeers)
    case _ => BoolStr(c.fromStaticOnly)
  }

  function PropagationPairs(f: Floats, c: PropagationConfig): seq<KV> {
    seq(NAMES, i requires 0 <= i < NAMES => KV(Lit(Name(i)), PropagationValue(f, c, i)))
  }

  function Printed(f: Floats, c: Config): Str {
    Emitted(Lit("lxmf"), LXMFPairs(f, c.lxmf))
    + Emitted(Lit("propagation"), PropagationPairs(f, c.propagation))
    + Emitted(Lit("logging"), [KV(Lit("loglevel"), Itoa(c.level))])
  }

  method WriteConfig(f: Floats, c: Config) returns (text: Str)
    ensures text == Printed(f, c)
  {
    text := EmitSection([], Lit("lxmf"), LXMFPairs(f, c.lxmf));
    text := EmitSection(text, Lit("propagation"), PropagationPairs(f, c.propagation));
    text := EmitSection(text, Lit("logging"), [KV(Lit("loglevel"), Itoa(c.level))]);
  }

  method ParseConfig(f: Floats, text: Str) returns (r: Option<Config>)
    ensures r == Parse(f, text)
  {
    var sections := ReadSectionedKV(text);
    if sections.None? {
      return None;
    }
    return Some(FromSections(f, sections.value));
  }

  // ---------------------------------------------------------------- normal configs

  predicate InRange(n: int, lo: int) {
    lo <= n <= INT64_MAX
  }

  predicate NormalLXMF(f: Floats, c: LXMFConfig) {
    && Clean(c.displayName) && Clean(c.onInbound) && InRange(c.announceInterval, INT64_MIN)
    && !f.less(c.deliveryMax, f.min380)
  }

  predicate NormalPropagation(f: Floats, c: PropagationConfig) {
    && Clean(c.nodeName) && AllItems(c.prioritise) && AllItems(c.controlAllowed) && AllItems(c.staticPeers)
    && InRange(c.announceInterval, INT64_MIN) && InRange(c.autopeerMaxDepth, INT64_MIN)
    && InRange(c.maxPeers, INT64_MIN) && InRange(c.stampCostTarget, STAMP_COST_MIN)
    && InRange(c.stampCostFlexibility, 0) && InRange(c.peeringCost, 0) && InRange(c.remotePeeringCostMax, 0)
    && !f.less(c.storageLimit, f.min5) && !f.less(c.transferMax, f.min380) && !f.less(c.messageMax, f.min380)
    && !f.less(c.syncMax, f.min380)
  }

  /** A config within its limits whose texts fit on a line and whose list entries hold no comma. */
  predicate Normal(f: Floats, c: Config) {
    NormalLXMF(f, c.lxmf) && NormalPropagation(f, c.propagation) && LOG_CRITICAL <= c.level <= LOG_EXTREME
  }
}
