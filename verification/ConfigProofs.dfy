/** What ParseConfig reads, WriteConfig prints back, and the other way round. */
module ConfigProofs {
  import opened Basics
  import opened Text
  import opened ConfigText
  import opened ConfigValues
  import opened Config

  // ---------------------------------------------------------------- the names are different

  /** The place of a name, from its length and its last letter. */
  function Place(s: Str): nat {
    if s == [] then NAMES
    else
      var last := if s[|s| - 1].Rune? then s[|s| - 1].cp else 0;
      match |s|
      case 11 => 0
      case 9 => if last == 'e' as int then 1 else 18
      case 13 => 2
      case 17 => if last == 't' as int then 3 else if last == 'l' as int then 4 else 6
      case 8 => 5
      case 21 => 7
      case 38 => 8
      case 37 => 9
      case 34 => if last == 'e' as int then 10 else 12
      case 29 => 11
      case 12 => if last == 't' as int then 13 else 17
      case 23 => if last == 'x' as int then 14 else 15
      case 15 => 16
      case _ => 19
  }

  lemma FirstPlaces(i: nat)
    requires i < 10
    ensures Place(Lit(Name(i))) == i
  {}

  lemma LastPlaces(i: nat)
    requires 10 <= i < NAMES
    ensures Place(Lit(Name(i))) == i
  {}

  lemma NamesAreDistinct(i: nat, j: nat)
    requires i < j < NAMES
    ensures Lit(Name(i)) != Lit(Name(j))
  {
    if i < 10 {
      FirstPlaces(i);
    } else {
      LastPlaces(i);
    }
    if j < 10 {
      FirstPlaces(j);
    } else {
      LastPlaces(j);
    }
  }

  // ---------------------------------------------------------------- the names can be keys

  predicate Letters(s: string) {
    s != "" && forall i | 0 <= i < |s| :: s[i] == '_' || 'a' <= s[i] <= 'z'
  }

  lemma LitIsGoodKey(s: string)
    requires Letters(s)
    ensures GoodKey(Lit(s))
  {
    var t := Lit(s);
    assert forall i | 0 <= i < |t| :: t[i].cp == 95 || 97 <= t[i].cp <= 122;
  }

  lemma ShortNames()
    ensures Letters("enable_node") && Letters("node_name") && Letters("auth_required") && Letters("autopeer")
    ensures Letters("peering_cost") && Letters("static_peers") && Letters("max_peers") && Letters("control_allowed")
    ensures Letters("loglevel") && Letters("display_name") && Letters("on_inbound")
  {}

  lemma MiddleNames()
    ensures Letters("announce_at_start") && Letters("announce_interval") && Letters("autopeer_maxdepth")
    ensures Letters("message_storage_limit") && Letters("from_static_only")
  {}

  lemma LongNames()
    ensures Letters("remote_peering_cost_max") && Letters("prioritise_destinations")
    ensures Letters("propagation_stamp_cost_target")
  {}

  lemma SizeNames()
    ensures Letters("propagation_transfer_max_accepted_size") && Letters("propagation_message_max_accepted_size")
  {}

  lemma LongestNames()
    ensures Letters("propagation_sync_max_accepted_size") && Letters("propagation_stamp_cost_flexibility")
  {}

  lemma DeliveryName()
    ensures Letters("delivery_transfer_max_accepted_size")
  {}

  lemma NamesAreLetters(i: nat)
    requires i < NAMES
    ensures Letters(Name(i))
  {
    ShortNames();
    MiddleNames();
    LongNames();
    SizeNames();
    LongestNames();
  }

  // ---------------------------------------------------------------- the [propagation] section

  lemma ValueIsClean(f: Floats, c: PropagationConfig, i: nat)
    requires Lawful(f) && NormalPropagation(f, c) && i < NAMES
    ensures Clean(PropagationValue(f, c, i))
  {
    match i
    case 0 => BoolRoundTrip(c.enableNode);
    case 1 =>
    case 2 => BoolRoundTrip(c.authRequired);
    case 3 => BoolRoundTrip(c.announceAtStart);
    case 4 => IntRoundTrip(c.announceInterval);
    case 5 => BoolRoundTrip(c.autopeer);
    case 6 => IntRoundTrip(c.autopeerMaxDepth);
    case 7 => FloatRoundTrip(f, c.storageLimit);
    case 8 => FloatRoundTrip(f, c.transferMax);
    case 9 => FloatRoundTrip(f, c.messageMax);
    case 10 => FloatRoundTrip(f, c.syncMax);
    case 11 => IntRoundTrip(c.stampCostTarget);
    case 12 => IntRoundTrip(c.stampCostFlexibility);
    case 13 => IntRoundTrip(c.peeringCost);
    case 14 => IntRoundTrip(c.remotePeeringCostMax);
    case 15 => ListRoundTrip(c.prioritise);
    case 16 => ListRoundTrip(c.controlAllowed);
    case 17 => ListRoundTrip(c.staticPeers);
    case 18 => IntRoundTrip(c.maxPeers);
    case _ => BoolRoundTrip(c.fromStaticOnly);
  }

  lemma PropagationPairsAreGood(f: Floats, c: PropagationConfig)
    requires Lawful(f) && NormalPropagation(f, c)
    ensures GoodPairs(PropagationPairs(f, c))
  {
    forall i: nat | i < NAMES
      ensures GoodKey(Lit(Name(i))) && Clean(PropagationValue(f, c, i))
    {
      NamesAreLetters(i);
      LitIsGoodKey(Name(i));
      ValueIsClean(f, c, i);
    }
  }

  /** Every printed setting is found again under its name. */
  lemma PropagationAt(f: Floats, c: PropagationConfig, i: nat)
    requires i < NAMES
    ensures var m := Entered(map[], PropagationPairs(f, c));
            Lit(Name(i)) in m && m[Lit(Name(i))] == PropagationValue(f, c, i)
  {
    var kv := PropagationPairs(f, c);
    forall j | i < j < |kv|
      ensures kv[j].k != kv[i].k
    {
      NamesAreDistinct(i, j);
    }
    EnteredAt(map[], kv, i);
  }

  lemma FlagComesBack(m: Section, key: string, b: bool, unset: bool)
    requires Lit(key) in m && m[Lit(key)] == BoolStr(b)
    ensures Flag(m, key, unset) == b
  {
    BoolRoundTrip(b);
  }

  lemma NumberComesBack(m: Section, key: string, n: int, unset: int, lo: int, hi: int)
    requires Lit(key) in m && m[Lit(key)] == Itoa(n) && INT64_MIN <= lo <= n <= hi <= INT64_MAX
    ensures Number(m, key, unset, lo, hi) == n
  {
    IntRoundTrip(n);
  }

  lemma SizeComesBack(m: Section, f: Floats, key: string, x: Float, unset: Float, limit: Float)
    requires Lawful(f) && AtLimit(f, x) && Lit(key) in m && m[Lit(key)] == f.show(x) && !f.less(x, limit)
    ensures Size(f, m, key, unset, limit) == x
  {
    FloatRoundTrip(f, x);
  }

  lemma ListComesBack(m: Section, key: string, items: seq<Str>)
    requires Lit(key) in m && m[Lit(key)] == Join(items) && AllItems(items)
    ensures Several(m, key) == items
  {
    ListRoundTrip(items);
  }

  /** The section holds what was printed for `c`. */
  ghost predicate Holds(m: Section, f: Floats, c: PropagationConfig) {
    forall i: nat | i < NAMES :: HoldsAt(m, f, c, i)
  }

  predicate HoldsAt(m: Section, f: Floats, c: PropagationConfig, i: nat) {
    Lit(Name(i)) in m && m[Lit(Name(i))] == PropagationValue(f, c, i)
  }

  lemma SwitchesComeBack(m: Section, f: Floats, c: PropagationConfig)
    requires HoldsAt(m, f, c, 0) && HoldsAt(m, f, c, 2) && HoldsAt(m, f, c, 5) && HoldsAt(m, f, c, 19)
    ensures Flag(m, "enable_node", false) == c.enableNode && Flag(m, "auth_required", false) == c.authRequired
    ensures Flag(m, "autopeer", true) == c.autopeer && Flag(m, "from_static_only", false) == c.fromStaticOnly
  {
    FlagComesBack(m, "enable_node", c.enableNode, false);
    FlagComesBack(m, "auth_required", c.authRequired, false);
    FlagComesBack(m, "autopeer", c.autopeer, true);
    FlagComesBack(m, "from_static_only", c.fromStaticOnly, false);
  }

  lemma AnnouncingComesBack(m: Section, f: Floats, c: PropagationConfig)
    requires HoldsAt(m, f, c, 1) && HoldsAt(m, f, c, 3) && HoldsAt(m, f, c, 4) && InRange(c.announceInterval, INT64_MIN)
    ensures Word(m, "node_name", []) == c.nodeName && Flag(m, "announce_at_start", true) == c.announceAtStart
    ensures Number(m, "announce_interval", 360, INT64_MIN, INT64_MAX) == c.announceInterval
  {
    FlagComesBack(m, "announce_at_start", c.announceAtStart, true);
    NumberComesBack(m, "announce_interval", c.announceInterval, 360, INT64_MIN, INT64_MAX);
  }

  lemma PeersComeBack(m: Section, f: Floats, c: PropagationConfig)
    requires HoldsAt(m, f, c, 6) && HoldsAt(m, f, c, 18)
    requires InRange(c.autopeerMaxDepth, INT64_MIN) && InRange(c.maxPeers, INT64_MIN)
    ensures Number(m, "autopeer_maxdepth", 6, INT64_MIN, INT64_MAX) == c.autopeerMaxDepth
    ensures Number(m, "max_peers", 20, INT64_MIN, INT64_MAX) == c.maxPeers
  {
    NumberComesBack(m, "autopeer_maxdepth", c.autopeerMaxDepth, 6, INT64_MIN, INT64_MAX);
    NumberComesBack(m, "max_peers", c.maxPeers, 20, INT64_MIN, INT64_MAX);
  }

  lemma StampCostsComeBack(m: Section, f: Floats, c: PropagationConfig)
    requires HoldsAt(m, f, c, 11) && HoldsAt(m, f, c, 12)
    requires InRange(c.stampCostTarget, STAMP_COST_MIN) && InRange(c.stampCostFlexibility, 0)
    ensures Number(m, "propagation_stamp_cost_target", 16, STAMP_COST_MIN, INT64_MAX) == c.stampCostTarget
    ensures Number(m, "propagation_stamp_cost_flexibility", 3, 0, INT64_MAX) == c.stampCostFlexibility
  {
    NumberComesBack(m, "propagation_stamp_cost_target", c.stampCostTarget, 16, STAMP_COST_MIN, INT64_MAX);
    NumberComesBack(m, "propagation_stamp_cost_flexibility", c.stampCostFlexibility, 3, 0, INT64_MAX);
  }

  lemma PeeringCostsComeBack(m: Section, f: Floats, c: PropagationConfig)
    requires HoldsAt(m, f, c, 13) && HoldsAt(m, f, c, 14)
    requires InRange(c.peeringCost, 0) && InRange(c.remotePeeringCostMax, 0)
    ensures Number(m, "peering_cost", 18, 0, INT64_MAX) == c.peeringCost
    ensures Number(m, "remote_peering_cost_max", 26, 0, INT64_MAX) == c.remotePeeringCostMax
  {
    NumberComesBack(m, "peering_cost", c.peeringCost, 18, 0, INT64_MAX);
    NumberComesBack(m, "remote_peering_cost_max", c.remotePeeringCostMax, 26, 0, INT64_MAX);
  }

  lemma LimitsComeBack(m: Section, f: Floats, c: PropagationConfig)
    requires Lawful(f) && HoldsAt(m, f, c, 7) && HoldsAt(m, f, c, 8)
    requires !f.less(c.storageLimit, f.min5) && !f.less(c.transferMax, f.min380)
    ensures Size(f, m, "message_storage_limit", f.mb500, f.min5) == c.storageLimit
    ensures Size(f, m, "propagation_transfer_max_accepted_size", f.kb256, f.min380) == c.transferMax
  {
    SizeComesBack(m, f, "message_storage_limit", c.storageLimit, f.mb500, f.min5);
    SizeComesBack(m, f, "propagation_transfer_max_accepted_size", c.transferMax, f.kb256, f.min380);
  }

  lemma MaximaComeBack(m: Section, f: Floats, c: PropagationConfig)
    requires Lawful(f) && HoldsAt(m, f, c, 9) && HoldsAt(m, f, c, 10)
    requires !f.less(c.messageMax, f.min380) && !f.less(c.syncMax, f.min380)
    ensures Size(f, m, "propagation_message_max_accepted_size", f.kb256, f.min380) == c.messageMax
    ensures Size(f, m, "propagation_sync_max_accepted_size", f.kb10240, f.min380) == c.syncMax
  {
    SizeComesBack(m, f, "propagation_message_max_accepted_size", c.messageMax, f.kb256, f.min380);
    SizeComesBack(m, f, "propagation_sync_max_accepted_size", c.syncMax, f.kb10240, f.min380);
  }

  lemma ListsComeBack(m: Section, f: Floats, c: PropagationConfig)
    requires HoldsAt(m, f, c, 15) && HoldsAt(m, f, c, 16) && HoldsAt(m, f, c, 17)
    requires AllItems(c.prioritise) && AllItems(c.controlAllowed) && AllItems(c.staticPeers)
    ensures Several(m, "prioritise_destinations") == c.prioritise
    ensures Several(m, "control_allowed") == c.controlAllowed && Several(m, "static_peers") == c.staticPeers
  {
    ListComesBack(m, "prioritise_destinations", c.prioritise);
    ListComesBack(m, "control_allowed", c.controlAllowed);
    ListComesBack(m, "static_peers", c.staticPeers);
  }

  lemma HeldComesBack(m: Section, f: Floats, c: PropagationConfig)
    requires Lawful(f) && NormalPropagation(f, c) && Holds(m, f, c)
    ensures ParsePropagation(f, m) == c
  {
    SwitchesComeBack(m, f, c);
    AnnouncingComesBack(m, f, c);
    PeersComeBack(m, f, c);
    StampCostsComeBack(m, f, c);
    PeeringCostsComeBack(m, f, c);
    LimitsComeBack(m, f, c);
    MaximaComeBack(m, f, c);
    ListsComeBack(m, f, c);
  }

  lemma PropagationComesBack(f: Floats, c: PropagationConfig)
    requires Lawful(f) && NormalPropagation(f, c)
    ensures ParsePropagation(f, Entered(map[], PropagationPairs(f, c))) == c
  {
    var m := Entered(map[], PropagationPairs(f, c));
    forall i: nat | i < NAMES
      ensures HoldsAt(m, f, c, i)
    {
      PropagationAt(f, c, i);
    }
    HeldComesBack(m, f, c);
  }

  // ---------------------------------------------------------------- the other sections

  lemma LXMFPairsAreGood(f: Floats, c: LXMFConfig)
    requires Lawful(f) && NormalLXMF(f, c)
    ensures GoodPairs(LXMFPairs(f, c))
  {
    ShortNames();
    MiddleNames();
    DeliveryName();
    LitIsGoodKey("display_name");
    LitIsGoodKey("announce_at_start");
    LitIsGoodKey("announce_interval");
    LitIsGoodKey("delivery_transfer_max_accepted_size");
    LitIsGoodKey("on_inbound");
    BoolRoundTrip(c.announceAtStart);
    IntRoundTrip(c.announceInterval);
    FloatRoundTrip(f, c.deliveryMax);
  }

  lemma LXMFKeysAreDistinct(f: Floats, c: LXMFConfig, i: nat)
    requires i < 5
    ensures var kv := LXMFPairs(f, c); forall j | i < j < 5 :: kv[j].k != kv[i].k
  {
    assert Lit("announce_at_start")[9] == Rune('a' as int) && Lit("announce_interval")[9] == Rune('i' as int);
  }

  lemma LXMFComesBack(f: Floats, c: LXMFConfig)
    requires Lawful(f) && NormalLXMF(f, c)
    ensures ParseLXMF(f, Entered(map[], LXMFPairs(f, c))) == c
  {
    var kv := LXMFPairs(f, c);
    forall i: nat | i < 5
      ensures kv[i].k in Entered(map[], kv) && Entered(map[], kv)[kv[i].k] == kv[i].v
    {
      LXMFKeysAreDistinct(f, c, i);
      EnteredAt(map[], kv, i);
    }
    assert kv[0].k == Lit("display_name") && kv[1].k == Lit("announce_at_start");
    assert kv[2].k == Lit("announce_interval") && kv[3].k == Lit("delivery_transfer_max_accepted_size");
    assert kv[4].k == Lit("on_inbound");
    BoolRoundTrip(c.announceAtStart);
    IntRoundTrip(c.announceInterval);
    FloatRoundTrip(f, c.deliveryMax);
  }

  lemma LevelComesBack(level: int)
    requires LOG_CRITICAL <= level <= LOG_EXTREME
    ensures var kv := [KV(Lit("loglevel"), Itoa(level))];
            && GoodPairs(kv)
            && Number(Entered(map[], kv), "loglevel", LOG_INFO, LOG_CRITICAL, LOG_EXTREME) == level
  {
    var kv := [KV(Lit("loglevel"), Itoa(level))];
    ShortNames();
    LitIsGoodKey("loglevel");
    IntRoundTrip(level);
    EnteredAt(map[], kv, 0);
  }

  // ---------------------------------------------------------------- the laws

  lemma SectionNames()
    ensures GoodName(Lit("lxmf")) && GoodName(Lit("propagation")) && GoodName(Lit("logging"))
    ensures Lit("lxmf") != Lit("propagation") && Lit("lxmf") != Lit("logging") && Lit("propagation") != Lit("logging")
  {
    assert Letters("lxmf") && Letters("propagation") && Letters("logging");
    LitIsGoodKey("lxmf");
    LitIsGoodKey("propagation");
    LitIsGoodKey("logging");
    assert |Lit("lxmf")| == 4 && |Lit("propagation")| == 11 && |Lit("logging")| == 7;
  }

  /** Three printed sections are read as three sections. */
  lemma ReadThree(a: seq<KV>, b: seq<KV>, c: seq<KV>)
    requires GoodPairs(a) && GoodPairs(b) && GoodPairs(c)
    ensures var t := Emitted(Lit("lxmf"), a) + Emitted(Lit("propagation"), b) + Emitted(Lit("logging"), c);
            var r := ReadText(START, t);
            && r.Some? && SectionOf(r.value.out, Lit("lxmf")) == Entered(map[], a)
            && SectionOf(r.value.out, Lit("propagation")) == Entered(map[], b)
            && SectionOf(r.value.out, Lit("logging")) == Entered(map[], c)
  {
    SectionNames();
    var ta, tb, tc := Emitted(Lit("lxmf"), a), Emitted(Lit("propagation"), b), Emitted(Lit("logging"), c);
    assert ta + tb + tc == ta + (tb + (tc + []));
    ReadSection(START, Lit("lxmf"), a, tb + (tc + []));
    var one := Reader(Lit("lxmf"), START.out[Lit("lxmf") := Entered(map[], a)]);
    ReadSection(one, Lit("propagation"), b, tc + []);
    var two := Reader(Lit("propagation"), one.out[Lit("propagation") := Entered(map[], b)]);
    ReadSection(two, Lit("logging"), c, []);
  }

  /** A normal config survives printing and parsing. */
  lemma NormalComesBack(f: Floats, c: Config)
    requires Lawful(f) && Normal(f, c)
    ensures Parse(f, Printed(f, c)) == Some(c)
  {
    LXMFPairsAreGood(f, c.lxmf);
    PropagationPairsAreGood(f, c.propagation);
    LevelComesBack(c.level);
    ReadThree(LXMFPairs(f, c.lxmf), PropagationPairs(f, c.propagation), [KV(Lit("loglevel"), Itoa(c.level))]);
    LXMFComesBack(f, c.lxmf);
    PropagationComesBack(f, c.propagation);
  }

  ghost predicate CleanSection(m: Section) {
    forall k | k in m :: Clean(m[k])
  }

  lemma WordIsClean(m: Section, key: string, unset: Str)
    requires CleanSection(m) && Clean(unset)
    ensures Clean(Word(m, key, unset))
  {}

  lemma SeveralAreItems(m: Section, key: string)
    requires CleanSection(m)
    ensures AllItems(Several(m, key))
  {
    if Lit(key) in m {
      ParsedItems(m[Lit(key)]);
    }
  }

  lemma ParsedLXMFIsNormal(f: Floats, m: Section)
    requires Lawful(f) && CleanSection(m)
    ensures NormalLXMF(f, ParseLXMF(f, m))
  {
    assert Clean(Lit("Anonymous Peer")) by {
      var s := Lit("Anonymous Peer");
      assert s[0] == Rune(65) && s[|s| - 1] == Rune(114);
    }
    WordIsClean(m, "display_name", Lit("Anonymous Peer"));
    WordIsClean(m, "on_inbound", []);
  }

  lemma ParsedPropagationIsNormal(f: Floats, m: Section)
    requires Lawful(f) && CleanSection(m)
    ensures NormalPropagation(f, ParsePropagation(f, m))
  {
    WordIsClean(m, "node_name", []);
    SeveralAreItems(m, "prioritise_destinations");
    SeveralAreItems(m, "control_allowed");
    SeveralAreItems(m, "static_peers");
  }

  /** Every parsed config is normal. */
  lemma ParsedIsNormal(f: Floats, text: Str)
    requires Lawful(f)
    ensures Parse(f, text).Some? ==> Normal(f, Parse(f, text).value)
  {
    ReadTextIsClean(text);
    var r := ReadText(START, text);
    if r.Some? {
      assert CleanSection(SectionOf(r.value.out, Lit("lxmf")));
      assert CleanSection(SectionOf(r.value.out, Lit("propagation")));
      ParsedLXMFIsNormal(f, SectionOf(r.value.out, Lit("lxmf")));
      ParsedPropagationIsNormal(f, SectionOf(r.value.out, Lit("propagation")));
    }
  }

  /** Printing loses nothing exactly when the config is normal. */
  lemma ComesBackIffNormal(f: Floats, c: Config)
    requires Lawful(f)
    ensures Parse(f, Printed(f, c)) == Some(c) <==> Normal(f, c)
  {
    ParsedIsNormal(f, Printed(f, c));
    if Normal(f, c) {
      NormalComesBack(f, c);
    }
  }

  /** Config normal form: printing what a text parses to and parsing again gives the same config. */
  lemma ParsedComesBack(f: Floats, text: Str)
    requires Lawful(f) && Parse(f, text).Some?
    ensures Parse(f, Printed(f, Parse(f, text).value)) == Parse(f, text)
  {
    ParsedIsNormal(f, text);
    NormalComesBack(f, Parse(f, text).value);
  }

  // ---------------------------------------------------------------- one setting at a time

  /** What a section says about setting `i` of [propagation]. */
  function Given(m: Section, i: nat): Option<Str> {
    if Lit(Name(i)) in m then Some(m[Lit(Name(i))]) else None
  }

  function AtLeast(n: int, lo: int): int {
    if n < lo then lo else n
  }

  /** Setting `i` is its default where nothing is given, and else what its parser and its limit make of the text. */
  predicate SettingIs(f: Floats, c: PropagationConfig, i: nat, given: Option<Str>) {
    match i
    case 0 => c.enableNode == if given.None? then false else ParseBool(given.value)
    case 1 => c.nodeName == if given.None? then [] else given.value
    case 2 => c.authRequired == if given.None? then false else ParseBool(given.value)
    case 3 => c.announceAtStart == if given.None? then true else ParseBool(given.value)
    case 4 => c.announceInterval == if given.None? then 360 else ParseInt(given.value)
    case 5 => c.autopeer == if given.None? then true else ParseBool(given.value)
    case 6 => c.autopeerMaxDepth == if given.None? then 6 else ParseInt(given.value)
    case 7 => c.storageLimit == if given.None? then f.mb500 else Limited(f, ParseFloatOrZero(f, given.value), f.min5)
    case 8 => c.transferMax == if given.None? then f.kb256 else Limited(f, ParseFloatOrZero(f, given.value), f.min380)
    case 9 => c.messageMax == if given.None? then f.kb256 else Limited(f, ParseFloatOrZero(f, given.value), f.min380)
    case 10 => c.syncMax == if given.None? then f.kb10240 else Limited(f, ParseFloatOrZero(f, given.value), f.min380)
    case 11 => c.stampCostTarget == if given.None? then 16 else AtLeast(ParseInt(given.value), 13)
    case 12 => c.stampCostFlexibility == if given.None? then 3 else AtLeast(ParseInt(given.value), 0)
    case 13 => c.peeringCost == if given.None? then 18 else AtLeast(ParseInt(given.value), 0)
    case 14 => c.remotePeeringCostMax == if given.None? then 26 else AtLeast(ParseInt(given.value), 0)
    case 15 => c.prioritise == if given.None? then [] else ListOf(given.value)
    case 16 => c.controlAllowed == if given.None? then [] else ListOf(given.value)
    case 17 => c.staticPeers == if given.None? then [] else ListOf(given.value)
    case 18 => c.maxPeers == if given.None? then 20 else ParseInt(given.value)
    case _ => c.fromStaticOnly == if given.None? then false else ParseBool(given.value)
  }

  lemma FirstSettings(f: Floats, m: Section, i: nat)
    requires 0 <= i < 5
    ensures SettingIs(f, ParsePropagation(f, m), i, Given(m, i))
  {}

  lemma SecondSettings(f: Floats, m: Section, i: nat)
    requires 5 <= i < 10
    ensures SettingIs(f, ParsePropagation(f, m), i, Given(m, i))
  {}

  lemma ThirdSettings(f: Floats, m: Section, i: nat)
    requires 10 <= i < 15
    ensures SettingIs(f, ParsePropagation(f, m), i, Given(m, i))
  {}

  lemma LastSettings(f: Floats, m: Section, i: nat)
    requires 15 <= i < 20
    ensures SettingIs(f, ParsePropagation(f, m), i, Given(m, i))
  {}

  /** Every setting depends on the text under its own name and on nothing else. */
  lemma PropagationSettings(f: Floats, m: Section, i: nat)
    requires i < NAMES
    ensures SettingIs(f, ParsePropagation(f, m), i, Given(m, i))
  {
    if i < 5 {
      FirstSettings(f, m, i);
    } else if i < 10 {
      SecondSettings(f, m, i);
    } else if i < 15 {
      ThirdSettings(f, m, i);
    } else {
      LastSettings(f, m, i);
    }
  }

  lemma NamesShort()
    ensures Name(0) == "enable_node"
    ensures Name(1) == "node_name"
    ensures Name(2) == "auth_required"
    ensures Name(3) == "announce_at_start"
    ensures Name(4) == "announce_interval"
    ensures Name(5) == "autopeer"
    ensures Name(6) == "autopeer_maxdepth"
    ensures Name(7) == "message_storage_limit"
  {}

  lemma NamesSize()
    ensures Name(8) == "propagation_transfer_max_accepted_size"
    ensures Name(9) == "propagation_message_max_accepted_size"
    ensures Name(10) == "propagation_sync_max_accepted_size"
  {}

  lemma NamesCost()
    ensures Name(11) == "propagation_stamp_cost_target"
    ensures Name(12) == "propagation_stamp_cost_flexibility"
    ensures Name(13) == "peering_cost"
    ensures Name(14) == "remote_peering_cost_max"
  {}

  lemma NamesPeer()
    ensures Name(15) == "prioritise_destinations"
    ensures Name(16) == "control_allowed"
    ensures Name(17) == "static_peers"
    ensures Name(18) == "max_peers"
    ensures Name(19) == "from_static_only"
  {}

  /** The twenty names. */
  lemma SettingNames()
    ensures Name(0) == "enable_node"
    ensures Name(1) == "node_name"
    ensures Name(2) == "auth_required"
    ensures Name(3) == "announce_at_start"
    ensures Name(4) == "announce_interval"
    ensures Name(5) == "autopeer"
    ensures Name(6) == "autopeer_maxdepth"
    ensures Name(7) == "message_storage_limit"
    ensures Name(8) == "propagation_transfer_max_accepted_size"
    ensures Name(9) == "propagation_message_max_accepted_size"
    ensures Name(10) == "propagation_sync_max_accepted_size"
    ensures Name(11) == "propagation_stamp_cost_target"
    ensures Name(12) == "propagation_stamp_cost_flexibility"
    ensures Name(13) == "peering_cost"
    ensures Name(14) == "remote_peering_cost_max"
    ensures Name(15) == "prioritise_destinations"
    ensures Name(16) == "control_allowed"
    ensures Name(17) == "static_peers"
    ensures Name(18) == "max_peers"
    ensures Name(19) == "from_static_only"
  {
    NamesShort();
    NamesSize();
    NamesCost();
    NamesPeer();
  }

  lemma LXMFSettings(f: Floats, m: Section)
    ensures var c := ParseLXMF(f, m);
            && c.displayName == (if Lit("display_name") in m then m[Lit("display_name")] else Lit("Anonymous Peer"))
            && c.announceAtStart == (Lit("announce_at_start") in m && ParseBool(m[Lit("announce_at_start")]))
            && (c.announceInterval ==
                if Lit("announce_interval") in m then ParseInt(m[Lit("announce_interval")]) else 0)
            && (c.onInbound == if Lit("on_inbound") in m then m[Lit("on_inbound")] else [])
  {}

  lemma DeliverySetting(f: Floats, m: Section)
    ensures ParseLXMF(f, m).deliveryMax ==
            var key := Lit("delivery_transfer_max_accepted_size");
            if key in m then Limited(f, ParseFloatOrZero(f, m[key]), f.min380) else f.kb1000
  {}

  /**
   Whatever text parses: every setting is decided by the last text under its own name in its own section, and
   is the default of DefaultConfig where there is none.
   */
  lemma ParsedSettings(f: Floats, text: Str, i: nat)
    requires Parse(f, text).Some? && i < NAMES
    ensures var c, out := Parse(f, text).value, ReadText(START, text).value.out;
            && SettingIs(f, c.propagation, i, Given(SectionOf(out, Lit("propagation")), i))
            && c.lxmf == ParseLXMF(f, SectionOf(out, Lit("lxmf")))
            && var m := SectionOf(out, Lit("logging"));
               var n := if Lit("loglevel") in m then ParseInt(m[Lit("loglevel")]) else 4;
               c.level == if n < 1 then 1 else if n > 7 then 7 else n
  {
    PropagationSettings(f, SectionOf(ReadText(START, text).value.out, Lit("propagation")), i);
  }

  /** An empty text leaves every default. */
  lemma EmptyTextIsDefault(f: Floats, i: nat)
    requires i < NAMES
    ensures Parse(f, []).Some? && SettingIs(f, Parse(f, []).value.propagation, i, None)
    ensures Parse(f, []).value.lxmf == ParseLXMF(f, map[]) && Parse(f, []).value.level == 4
  {
    assert ReadText(START, []) == Some(START);
    ParsedSettings(f, [], i);
  }

  lemma OneEntered(p: KV)
    ensures Entered(map[], [p]) == map[p.k := p.v]
  {
    assert [p][1..] == [];
  }

  lemma OneLineIsRead(name: Str, p: KV)
    requires GoodName(name) && GoodKey(p.k) && Clean(p.v)
    ensures ReadText(START, Emitted(name, [p])) == Some(Reader(name, map[name := map[p.k := p.v]]))
  {
    ReadSection(START, name, [p], []);
    assert Emitted(name, [p]) + [] == Emitted(name, [p]);
    OneEntered(p);
  }

  lemma OneGiven(i: nat, v: Str, j: nat)
    requires i < NAMES && j < NAMES
    ensures Given(map[Lit(Name(i)) := v], j) == if i == j then Some(v) else None
  {
    if i < j {
      NamesAreDistinct(i, j);
    } else if j < i {
      NamesAreDistinct(j, i);
    }
  }

  /** One line changes one setting: setting `i` is what is written there, every other one keeps its default. */
  lemma OneLineIsOneSetting(f: Floats, i: nat, v: Str, j: nat)
    requires i < NAMES && j < NAMES && Clean(v)
    ensures var c := Parse(f, Emitted(Lit("propagation"), [KV(Lit(Name(i)), v)]));
            && c.Some? && SettingIs(f, c.value.propagation, j, if i == j then Some(v) else None)
            && c.value.lxmf == ParseLXMF(f, map[]) && c.value.level == 4
  {
    var p := KV(Lit(Name(i)), v);
    NamesAreLetters(i);
    LitIsGoodKey(Name(i));
    SectionNames();
    OneLineIsRead(Lit("propagation"), p);
    OneGiven(i, v, j);
    ParsedSettings(f, Emitted(Lit("propagation"), [p]), j);
  }
}
