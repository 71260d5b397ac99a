/** The registry of propagation nodes (pkg/lxmf/propagation.go) and the order in which they are tried. */
module Propagation {
  import opened Basics
  import opened Octets
  import opened Stamps

  const STAMP_COST_MIN := 13

  datatype Node = Node(hash: bytes, name: bytes, stampCost: int, hops: byte)

  // ---------------------------------------------------------------- order of byte strings

  lemma {:induction false} LexTotal(a: bytes, b: bytes)
    ensures LexLeq(a, b) || LexLeq(b, a)
  {
    if a != [] && b != [] {
      LexTotal(a[1..], b[1..]);
    }
  }

  lemma {:induction false} LexAntisymmetric(a: bytes, b: bytes)
    requires LexLeq(a, b) && LexLeq(b, a)
    ensures a == b
  {
    if a != [] {
      LexAntisymmetric(a[1..], b[1..]);
      assert a == [a[0]] + a[1..] && b == [b[0]] + b[1..];
    }
  }

  lemma {:induction false} LexTransitive(a: bytes, b: bytes, c: bytes)
    requires LexLeq(a, b) && LexLeq(b, c)
    ensures LexLeq(a, c)
  {
    if a != [] && a[0] == b[0] == c[0] {
      LexTransitive(a[1..], b[1..], c[1..]);
    }
  }

  /** The strings agree before `k`, and there `a` has the smaller byte. */
  predicate SmallerAt(a: bytes, b: bytes, k: nat) {
    k < |a| && k < |b| && a[..k] == b[..k] && a[k] < b[k]
  }

  lemma SmallerAtTail(a: bytes, b: bytes, k: nat)
    requires a != [] && b != [] && a[0] == b[0]
    ensures SmallerAt(a, b, k + 1) <==> SmallerAt(a[1..], b[1..], k)
  {
    if k < |a| - 1 && k < |b| - 1 {
      assert a[..k + 1] == [a[0]] + a[1..][..k] && b[..k + 1] == [b[0]] + b[1..][..k];
      assert a[..k + 1][1..] == a[1..][..k] && b[..k + 1][1..] == b[1..][..k];
    }
  }

  lemma PrefixTail(a: bytes, b: bytes)
    requires a != [] && b != [] && a[0] == b[0]
    ensures a <= b <==> a[1..] <= b[1..]
  {
    assert a == [a[0]] + a[1..] && b == [b[0]] + b[1..];
  }

  /** The first difference decides, and a proper prefix comes first. */
  lemma {:induction false} LexIff(a: bytes, b: bytes)
    ensures LexLeq(a, b) <==> a <= b || exists k: nat :: SmallerAt(a, b, k)
  {
    if a != [] && b != [] {
      if a[0] == b[0] {
        LexIff(a[1..], b[1..]);
        PrefixTail(a, b);
        if k: nat :| SmallerAt(a, b, k) {
          SmallerAtTail(a, b, k - 1);
        }
        if k: nat :| SmallerAt(a[1..], b[1..], k) {
          SmallerAtTail(a, b, k);
        }
      } else {
        assert a[..0] == b[..0];
        assert SmallerAt(a, b, 0) <==> a[0] < b[0];
        forall k: nat
          ensures SmallerAt(a, b, k) ==> k == 0
        {
          if k > 0 && k < |a| && k < |b| {
            assert a[..k][0] == a[0] && b[..k][0] == b[0];
          }
        }
      }
    }
  }

  /** a < b on Go strings. */
  predicate Less(a: bytes, b: bytes) {
    !LexLeq(b, a)
  }

  // ---------------------------------------------------------------- hexadecimal

  function HexDigit(d: nat): byte
    requires d < 16
  {
    if d < 10 then 48 + d else 87 + d
  }

  /** hex.EncodeToString */
  function Hex(s: bytes): (h: bytes)
    ensures |h| == 2 * |s|
  {
    if s == [] then [] else [HexDigit(s[0] / 16), HexDigit(s[0] % 16)] + Hex(s[1..])
  }

  /** Two lower-case digits a byte. */
  lemma {:induction false} HexAt(s: bytes, i: nat)
    requires i < |s|
    ensures Hex(s)[2 * i] as int == "0123456789abcdef"[s[i] / 16] as int
    ensures Hex(s)[2 * i + 1] as int == "0123456789abcdef"[s[i] % 16] as int
  {
    if i > 0 {
      HexAt(s[1..], i - 1);
    }
  }

  /** Comparing the hex strings is comparing the hashes. */
  lemma {:induction false} HexKeepsOrder(a: bytes, b: bytes)
    ensures LexLeq(Hex(a), Hex(b)) <==> LexLeq(a, b)
  {
    if a != [] && b != [] {
      HexKeepsOrder(a[1..], b[1..]);
      var x, y := Hex(a), Hex(b);
      assert x[1..][1..] == Hex(a[1..]) && y[1..][1..] == Hex(b[1..]);
      assert x[0] == HexDigit(a[0] / 16) && x[1..][0] == HexDigit(a[0] % 16);
      assert y[0] == HexDigit(b[0] / 16) && y[1..][0] == HexDigit(b[0] % 16);
      DigitsKeepOrder(a[0], b[0]);
    }
  }

  lemma DigitsKeepOrder(p: byte, q: byte)
    ensures p < q <==> HexDigit(p / 16) < HexDigit(q / 16)
                       || (HexDigit(p / 16) == HexDigit(q / 16) && HexDigit(p % 16) < HexDigit(q % 16))
    ensures p == q <==> HexDigit(p / 16) == HexDigit(q / 16) && HexDigit(p % 16) == HexDigit(q % 16)
  {
    assert p == 16 * (p / 16) + p % 16 && q == 16 * (q / 16) + q % 16;
  }

  lemma HexIsInjective(a: bytes, b: bytes)
    requires Hex(a) == Hex(b)
    ensures a == b
  {
    LexTotal(Hex(a), Hex(b));
    HexKeepsOrder(a, b);
    HexKeepsOrder(b, a);
    LexAntisymmetric(a, b);
  }

  // ---------------------------------------------------------------- order of nodes

  datatype Ordering = ByName | ByHops

  /** The two comparison functions handed to sort.Slice. */
  predicate Before(ord: Ordering, a: Node, b: Node) {
    match ord
    case ByName => if a.name != b.name then Less(a.name, b.name) else Less(Hex(a.hash), Hex(b.hash))
    case ByHops => if a.hops != b.hops then a.hops < b.hops else Less(Hex(a.hash), Hex(b.hash))
  }

  lemma BeforeTotal(ord: Ordering, a: Node, b: Node)
    requires a.hash != b.hash
    ensures Before(ord, a, b) <==> !Before(ord, b, a)
  {
    LexTotal(a.name, b.name);
    LexTotal(Hex(a.hash), Hex(b.hash));
    if LexLeq(a.name, b.name) && LexLeq(b.name, a.name) {
      LexAntisymmetric(a.name, b.name);
    }
    if LexLeq(Hex(a.hash), Hex(b.hash)) && LexLeq(Hex(b.hash), Hex(a.hash)) {
      LexAntisymmetric(Hex(a.hash), Hex(b.hash));
      HexIsInjective(a.hash, b.hash);
    }
  }

  lemma LessTransitive(a: bytes, b: bytes, c: bytes)
    requires Less(a, b) && Less(b, c)
    ensures Less(a, c) && a != c
  {
    LexTotal(a, b);
    LexTotal(b, c);
    if LexLeq(c, a) {
      LexTransitive(c, a, b);
    }
    LexTotal(a, a);
  }

  lemma BeforeTransitive(ord: Ordering, a: Node, b: Node, c: Node)
    requires Before(ord, a, b) && Before(ord, b, c)
    ensures Before(ord, a, c)
  {
    if Less(a.name, b.name) && Less(b.name, c.name) {
      LessTransitive(a.name, b.name, c.name);
    }
    if Less(Hex(a.hash), Hex(b.hash)) && Less(Hex(b.hash), Hex(c.hash)) {
      LessTransitive(Hex(a.hash), Hex(b.hash), Hex(c.hash));
    }
    LexTotal(a.name, a.name);
  }

  predicate Distinct(s: seq<Node>) {
    forall i, j | 0 <= i < j < |s| :: s[i].hash != s[j].hash
  }

  predicate Ascending(ord: Ordering, s: seq<Node>) {
    forall i, j | 0 <= i < j < |s| :: Before(ord, s[i], s[j])
  }

  /** The same nodes, in another order. */
  ghost predicate SameNodes(s: seq<Node>, t: seq<Node>) {
    |s| == |t| && forall n :: n in s <==> n in t
  }

  function Insert(ord: Ordering, n: Node, s: seq<Node>): seq<Node> {
    if s == [] || Before(ord, n, s[0]) then [n] + s else [s[0]] + Insert(ord, n, s[1..])
  }

  lemma {:induction false} InsertNodes(ord: Ordering, n: Node, s: seq<Node>)
    ensures |Insert(ord, n, s)| == |s| + 1
    ensures forall m :: m in Insert(ord, n, s) <==> m == n || m in s
  {
    if s != [] && !Before(ord, n, s[0]) {
      InsertNodes(ord, n, s[1..]);
      assert s == [s[0]] + s[1..];
    }
  }

  /** A new element before all others keeps a sequence ascending. */
  lemma AscendingCons(ord: Ordering, n: Node, s: seq<Node>)
    requires Ascending(ord, s) && forall m :: m in s ==> Before(ord, n, m)
    ensures Ascending(ord, [n] + s)
  {
    var t := [n] + s;
    forall i, j | 0 <= i < j < |t|
      ensures Before(ord, t[i], t[j])
    {
      assert t[j] == s[j - 1];
      if i > 0 {
        assert t[i] == s[i - 1];
      }
    }
  }

  lemma {:induction false} InsertAscends(ord: Ordering, n: Node, s: seq<Node>)
    requires Ascending(ord, s) && forall m :: m in s ==> m.hash != n.hash
    ensures Ascending(ord, Insert(ord, n, s))
  {
    if s == [] {
    } else if Before(ord, n, s[0]) {
      forall m | m in s
        ensures Before(ord, n, m)
      {
        var i :| 0 <= i < |s| && s[i] == m;
        if i > 0 {
          BeforeTransitive(ord, n, s[0], s[i]);
        }
      }
      AscendingCons(ord, n, s);
    } else {
      BeforeTotal(ord, s[0], n);
      InsertAscends(ord, n, s[1..]);
      InsertNodes(ord, n, s[1..]);
      AscendingCons(ord, s[0], Insert(ord, n, s[1..]));
    }
  }

  /** sort.Slice on nodes with distinct hashes. */
  method SortNodes(ord: Ordering, s: seq<Node>) returns (r: seq<Node>)
    requires Distinct(s)
    ensures SameNodes(r, s) && Ascending(ord, r)
  {
    r := [];
    for i := 0 to |s|
      invariant SameNodes(r, s[..i]) && Ascending(ord, r)
    {
      assert s[..i + 1] == s[..i] + [s[i]];
      InsertNodes(ord, s[i], r);
      InsertAscends(ord, s[i], r);
      r := Insert(ord, s[i], r);
    }
    assert s[..|s|] == s;
  }

  // ---------------------------------------------------------------- the registry

  type Nodes = map<bytes, Node>

  /** Every node is filed under the hex form of its own 16-byte hash and asks for at least the minimal cost. */
  predicate Filed(nodes: Nodes) {
    forall k | k in nodes ::
      k == Hex(nodes[k].hash) && |nodes[k].hash| == DESTINATION_LENGTH && nodes[k].stampCost >= STAMP_COST_MIN
  }

  /** The decoded application data of an announce. */
  datatype AppData = Malformed | AppData(name: Option<bytes>, cost: Option<int>)

  /** `n` is a known node with a path that is not to be skipped. */
  ghost predicate Eligible(nodes: Nodes, hasPath: bytes -> bool, skip: set<bytes>, n: Node) {
    && Hex(n.hash) in nodes && nodes[Hex(n.hash)] == n
    && hasPath(n.hash) && Hex(n.hash) !in skip
  }

  /** Fewer hops first, then the smaller hash. */
  predicate Sooner(a: Node, b: Node) {
    if a.hops != b.hops then a.hops < b.hops else a.hash != b.hash && LexLeq(a.hash, b.hash)
  }

  lemma SoonerIsBefore(a: Node, b: Node)
    ensures Before(ByHops, a, b) <==> Sooner(a, b)
  {
    HexKeepsOrder(a.hash, b.hash);
    HexKeepsOrder(b.hash, a.hash);
    LexTotal(a.hash, b.hash);
    if LexLeq(a.hash, b.hash) && LexLeq(b.hash, a.hash) {
      LexAntisymmetric(a.hash, b.hash);
    }
  }

  /** The preferred node leads the listing. */
  predicate Leads(full: seq<Node>, preferred: bytes) {
    full != [] && full[0].hash == preferred
  }

  /**
   The listing that AttemptOrder cuts from: exactly the eligible nodes, each once, the preferred one first
   if it is eligible, all others by hops and hash.
   */
  ghost predicate IsListing(full: seq<Node>, nodes: Nodes, hasPath: bytes -> bool, preferred: bytes, skip: set<bytes>) {
    && Distinct(full)
    && (forall n :: n in full <==> Eligible(nodes, hasPath, skip, n))
    && ((exists n :: n in full && n.hash == preferred) ==> Leads(full, preferred))
    && (forall i, j | 0 <= i < j < |full| && full[i].hash != preferred :: Sooner(full[i], full[j]))
  }

  function Cut(full: seq<Node>, maxAttempts: int): seq<Node> {
    if maxAttempts > 0 && |full| > maxAttempts then full[..maxAttempts] else full
  }

  // ---------------------------------------------------------------- the loop over the sorted nodes

  /** The nodes whose hex key is not dropped. */
  function Kept(s: seq<Node>, drop: set<bytes>): seq<Node> {
    if s == [] then []
    else Kept(s[..|s| - 1], drop) + (if Hex(s[|s| - 1].hash) in drop then [] else [s[|s| - 1]])
  }

  lemma {:induction false} KeptNodes(s: seq<Node>, drop: set<bytes>)
    ensures forall n :: n in Kept(s, drop) <==> n in s && Hex(n.hash) !in drop
  {
    if s != [] {
      KeptNodes(s[..|s| - 1], drop);
      assert s == s[..|s| - 1] + [s[|s| - 1]];
    }
  }

  lemma {:induction false} KeptAscends(ord: Ordering, s: seq<Node>, drop: set<bytes>)
    requires Ascending(ord, s)
    ensures Ascending(ord, Kept(s, drop))
  {
    if s != [] {
      var init := s[..|s| - 1];
      KeptAscends(ord, init, drop);
      KeptNodes(init, drop);
      var k := Kept(init, drop);
      forall i | 0 <= i < |k|
        ensures Before(ord, k[i], s[|s| - 1])
      {
        assert k[i] in init;
        var j :| 0 <= j < |init| && init[j] == k[i];
        assert s[j] == k[i];
      }
    }
  }

  lemma {:induction false} KeptDistinct(s: seq<Node>, drop: set<bytes>)
    requires Distinct(s)
    ensures Distinct(Kept(s, drop))
  {
    if s != [] {
      var init := s[..|s| - 1];
      KeptDistinct(init, drop);
      KeptNodes(init, drop);
      var k := Kept(init, drop);
      forall i | 0 <= i < |k|
        ensures k[i].hash != s[|s| - 1].hash
      {
        assert k[i] in init;
        var j :| 0 <= j < |init| && init[j] == k[i];
        assert s[j] == k[i];
      }
    }
  }

  /** The closure appendNode of AttemptOrder. */
  function AppendNode(n: Node, skip: set<bytes>, out: seq<Node>, seen: set<bytes>): (seq<Node>, set<bytes>) {
    var key := Hex(n.hash);
    if key in skip || key in seen then (out, seen) else (out + [n], seen + {key})
  }

  function Keys(s: seq<Node>): set<bytes> {
    set i | 0 <= i < |s| :: Hex(s[i].hash)
  }

  lemma KeyIsNew(s: seq<Node>, i: nat)
    requires Distinct(s) && i < |s|
    ensures Hex(s[i].hash) !in Keys(s[..i])
  {
    if Hex(s[i].hash) in Keys(s[..i]) {
      var j :| 0 <= j < |s[..i]| && Hex(s[..i][j].hash) == Hex(s[i].hash);
      HexIsInjective(s[j].hash, s[i].hash);
    }
  }

  class PropagationRegistry {
    var nodes: Nodes

    constructor ()
      ensures nodes == map[] && Valid()
    {
      nodes := map[];
    }

    predicate Valid()
      reads this
    {
      Filed(nodes)
    }

    /** ReceivedAnnounce; `expected` is the propagation hash of the announcing identity, if that is known. */
    method ReceivedAnnounce(destHash: bytes, data: AppData, expected: Option<bytes>, hops: byte)
      requires Valid()
      modifies this
      ensures Valid()
      ensures nodes ==
              if |destHash| == DESTINATION_LENGTH && data.AppData? && expected == Some(destHash) then
                old(nodes)[Hex(destHash) :=
                  Node(destHash, if data.name.Some? then data.name.value else [],
                       if data.cost.Some? && data.cost.value > 13 then data.cost.value else 13,
                       hops)]
              else old(nodes)
    {
      if |destHash| != DESTINATION_LENGTH || data.Malformed? {
        return;
      }
      var name := if data.name.None? then [] else data.name.value;
      var cost := STAMP_COST_MIN;
      if data.cost.Some? {
        cost := data.cost.value;
      }
      if cost < STAMP_COST_MIN {
        cost := STAMP_COST_MIN;
      }
      if expected != Some(destHash) {
        return;
      }
      nodes := nodes[Hex(destHash) := Node(destHash, name, cost, hops)];
    }

    /** List: every known node once, by name and then hash. */
    method List() returns (out: seq<Node>)
      requires Valid()
      ensures Distinct(out) && Ascending(ByName, out)
      ensures forall n :: n in out <==> Hex(n.hash) in nodes && nodes[Hex(n.hash)] == n
    {
      out := [];
      var todo := nodes.Keys;
      while todo != {}
        invariant todo <= nodes.Keys && Distinct(out)
        invariant forall n :: n in out <==> Hex(n.hash) in nodes.Keys - todo && nodes[Hex(n.hash)] == n
        decreases |todo|
      {
        var k :| k in todo;
        out := out + [nodes[k]];
        todo := todo - {k};
      }
      var listed := SortNodes(ByName, out);
      SameNodesDistinct(out, listed, ByName);
      out := listed;
    }

    /** reachable */
    method Reachable(hasPath: bytes -> bool) returns (out: seq<Node>)
      requires Valid()
      ensures Distinct(out)
      ensures forall n :: n in out <==> Eligible(nodes, hasPath, {}, n)
    {
      var listed := List();
      out := [];
      for i := 0 to |listed|
        invariant Distinct(out)
        invariant forall n :: n in out <==> n in listed[..i] && hasPath(n.hash)
      {
        assert listed[..i + 1] == listed[..i] + [listed[i]];
        if hasPath(listed[i].hash) {
          forall j | 0 <= j < |out|
            ensures out[j].hash != listed[i].hash
          {
            assert out[j] in listed[..i];
          }
          out := out + [listed[i]];
        }
      }
      assert listed[..|listed|] == listed;
    }

    /** AttemptOrder */
    method AttemptOrder(hasPath: bytes -> bool, preferred: bytes, skip: set<bytes>, maxAttempts: int)
      returns (r: seq<Node>)
      requires Valid()
      ensures exists full :: IsListing(full, nodes, hasPath, preferred, skip) && r == Cut(full, maxAttempts)
    {
      var found := Reachable(hasPath);
      if found == [] {
        assert IsListing([], nodes, hasPath, preferred, skip);
        assert Cut([], maxAttempts) == [];
        return [];
      }
      var reachable := SortNodes(ByHops, found);
      SameNodesDistinct(found, reachable, ByHops);
      var first, seen := FirstChoice(reachable, preferred, skip);
      var out := Remaining(reachable, skip, first, seen);
      ListingIsComplete(nodes, hasPath, preferred, skip, reachable, first);
      ghost var full := out;
      if maxAttempts > 0 && |out| > maxAttempts {
        out := out[..maxAttempts];
      }
      assert out == Cut(full, maxAttempts);
      return out;
    }
  }

  lemma KeysSnoc(s: seq<Node>, i: nat)
    requires i < |s|
    ensures Keys(s[..i + 1]) == Keys(s[..i]) + {Hex(s[i].hash)}
  {
    var t := s[..i + 1];
    assert Hex(t[i].hash) in Keys(t);
    forall k | k in Keys(s[..i])
      ensures k in Keys(t)
    {
      var j :| 0 <= j < i && Hex(s[..i][j].hash) == k;
      assert Hex(t[j].hash) == k;
    }
    forall k | k in Keys(t)
      ensures k in Keys(s[..i]) + {Hex(s[i].hash)}
    {
      var j :| 0 <= j < i + 1 && Hex(t[j].hash) == k;
      if j < i {
        assert Hex(s[..i][j].hash) == k;
      }
    }
  }

  /** The first loop of AttemptOrder: the preferred node, if it is reachable and not skipped. */
  method FirstChoice(reachable: seq<Node>, preferred: bytes, skip: set<bytes>)
    returns (out: seq<Node>, seen: set<bytes>)
    ensures seen == Keys(out) && IsFirst(preferred, skip, reachable, out)
  {
    out, seen := [], {};
    if |preferred| == DESTINATION_LENGTH {
      for i := 0 to |reachable|
        invariant out == [] && seen == {}
        invariant forall n :: n in reachable[..i] ==> n.hash != preferred
      {
        if reachable[i].hash == preferred {
          var next := AppendNode(reachable[i], skip, out, seen);
          out, seen := next.0, next.1;
          assert out != [] ==> Keys(out) == {Hex(out[0].hash)};
          break;
        }
        assert reachable[..i + 1] == reachable[..i] + [reachable[i]];
      }
      assert reachable[..|reachable|] == reachable;
    }
  }

  /** The second loop of AttemptOrder: all reachable nodes that are neither skipped nor seen. */
  method Remaining(reachable: seq<Node>, skip: set<bytes>, first: seq<Node>, firstSeen: set<bytes>)
    returns (out: seq<Node>)
    requires Distinct(reachable) && firstSeen == Keys(first)
    ensures out == first + Kept(reachable, skip + Keys(first))
  {
    var seen := firstSeen;
    out := first;
    for i := 0 to |reachable|
      invariant Keys(first) <= seen <= Keys(first) + Keys(reachable[..i])
      invariant out == first + Kept(reachable[..i], skip + Keys(first))
    {
      KeyIsNew(reachable, i);
      assert reachable[..i + 1][..i] == reachable[..i];
      KeysSnoc(reachable, i);
      var next := AppendNode(reachable[i], skip, out, seen);
      out, seen := next.0, next.1;
    }
    assert reachable[..|reachable|] == reachable;
  }

  /** `first` is the preferred node if that is eligible, else empty. */
  ghost predicate IsFirst(preferred: bytes, skip: set<bytes>, reachable: seq<Node>, first: seq<Node>) {
    if first == [] then
      |preferred| != DESTINATION_LENGTH || Hex(preferred) in skip || forall n :: n in reachable ==> n.hash != preferred
    else
      |first| == 1 && first[0] in reachable && first[0].hash == preferred && Hex(preferred) !in skip
  }

  lemma SameHashSameNode(s: seq<Node>, a: Node, b: Node)
    requires Distinct(s) && a in s && b in s && a.hash == b.hash
    ensures a == b
  {
    var i :| 0 <= i < |s| && s[i] == a;
    var j :| 0 <= j < |s| && s[j] == b;
    assert i == j;
  }

  lemma RestIsNotFirst(preferred: bytes, skip: set<bytes>, reachable: seq<Node>, first: seq<Node>, n: Node)
    requires |first| == 1 && first[0].hash == preferred
    ensures n in Kept(reachable, skip + Keys(first)) <==> n in reachable && Hex(n.hash) !in skip && n.hash != preferred
  {
    KeptNodes(reachable, skip + Keys(first));
    assert Hex(first[0].hash) in Keys(first);
    if Hex(n.hash) in Keys(first) {
      HexIsInjective(n.hash, preferred);
    }
  }

  lemma ListingMembers(nodes: Nodes, hasPath: bytes -> bool, preferred: bytes, skip: set<bytes>,
                       reachable: seq<Node>, first: seq<Node>, n: Node)
    requires Distinct(reachable) && IsFirst(preferred, skip, reachable, first)
    requires n in reachable <==> Eligible(nodes, hasPath, {}, n)
    ensures n in first + Kept(reachable, skip + Keys(first)) <==> Eligible(nodes, hasPath, skip, n)
  {
    if first == [] {
      assert Keys(first) == {};
      KeptNodes(reachable, skip + Keys(first));
    } else {
      RestIsNotFirst(preferred, skip, reachable, first, n);
      if n in reachable && n.hash == preferred {
        SameHashSameNode(reachable, n, first[0]);
      }
    }
  }

  lemma ListingIsDistinct(preferred: bytes, skip: set<bytes>, reachable: seq<Node>, first: seq<Node>)
    requires Distinct(reachable) && IsFirst(preferred, skip, reachable, first)
    ensures Distinct(first + Kept(reachable, skip + Keys(first)))
  {
    var rest := Kept(reachable, skip + Keys(first));
    KeptDistinct(reachable, skip + Keys(first));
    if first == [] {
      assert first + rest == rest;
    } else {
      forall j | 0 <= j < |rest|
        ensures rest[j].hash != first[0].hash
      {
        assert rest[j] in rest;
        RestIsNotFirst(preferred, skip, reachable, first, rest[j]);
      }
    }
  }

  lemma ListingOrder(preferred: bytes, skip: set<bytes>, reachable: seq<Node>, first: seq<Node>,
                     i: nat, j: nat)
    requires Ascending(ByHops, reachable) && IsFirst(preferred, skip, reachable, first)
    requires i < j < |first + Kept(reachable, skip + Keys(first))|
    requires (first + Kept(reachable, skip + Keys(first)))[i].hash != preferred
    ensures var full := first + Kept(reachable, skip + Keys(first)); Sooner(full[i], full[j])
  {
    var rest := Kept(reachable, skip + Keys(first));
    KeptAscends(ByHops, reachable, skip + Keys(first));
    assert i >= |first|;
    SoonerIsBefore(rest[i - |first|], rest[j - |first|]);
  }

  /** What the loops build is the listing. */
  lemma ListingIsComplete(nodes: Nodes, hasPath: bytes -> bool, preferred: bytes, skip: set<bytes>,
                          reachable: seq<Node>, first: seq<Node>)
    requires Filed(nodes) && Distinct(reachable) && Ascending(ByHops, reachable)
    requires forall n :: n in reachable <==> Eligible(nodes, hasPath, {}, n)
    requires IsFirst(preferred, skip, reachable, first)
    ensures IsListing(first + Kept(reachable, skip + Keys(first)), nodes, hasPath, preferred, skip)
  {
    var full := first + Kept(reachable, skip + Keys(first));
    forall n
      ensures n in full <==> Eligible(nodes, hasPath, skip, n)
    {
      ListingMembers(nodes, hasPath, preferred, skip, reachable, first, n);
    }
    ListingIsDistinct(preferred, skip, reachable, first);
    forall i, j | 0 <= i < j < |full| && full[i].hash != preferred
      ensures Sooner(full[i], full[j])
    {
      ListingOrder(preferred, skip, reachable, first, i, j);
    }
    PreferredLeads(nodes, hasPath, preferred, skip, reachable, first, full);
  }

  lemma PreferredLeads(nodes: Nodes, hasPath: bytes -> bool, preferred: bytes, skip: set<bytes>,
                       reachable: seq<Node>, first: seq<Node>, full: seq<Node>)
    requires Filed(nodes) && first <= full
    requires forall n :: n in reachable <==> Eligible(nodes, hasPath, {}, n)
    requires IsFirst(preferred, skip, reachable, first)
    requires forall n :: n in full <==> Eligible(nodes, hasPath, skip, n)
    ensures (exists n :: n in full && n.hash == preferred) ==> Leads(full, preferred)
  {
    if first == [] {
      forall n | n in full
        ensures n.hash != preferred
      {
        assert n in reachable;
      }
    }
  }

  // ---------------------------------------------------------------- the listing is determined

  /** The order of a listing: the preferred node, then by hops and hash. */
  predicate Ahead(preferred: bytes, a: Node, b: Node) {
    b.hash != preferred && (a.hash == preferred || Sooner(a, b))
  }

  lemma ListingIsAscending(full: seq<Node>, nodes: Nodes, hasPath: bytes -> bool, preferred: bytes, skip: set<bytes>)
    requires IsListing(full, nodes, hasPath, preferred, skip)
    ensures forall i, j | 0 <= i < j < |full| :: Ahead(preferred, full[i], full[j])
  {
    forall i, j | 0 <= i < j < |full|
      ensures Ahead(preferred, full[i], full[j])
    {
      assert full[j] in full;
    }
  }

  lemma AheadIsAsymmetric(preferred: bytes, a: Node, b: Node)
    ensures !(Ahead(preferred, a, b) && Ahead(preferred, b, a))
  {
    if LexLeq(a.hash, b.hash) && LexLeq(b.hash, a.hash) {
      LexAntisymmetric(a.hash, b.hash);
    }
  }

  lemma HeadIsIn(s: seq<Node>)
    ensures s == [] || s[0] in s
  {}

  lemma {:induction false} AscendingIsUnique(f: seq<Node>, g: seq<Node>, preferred: bytes)
    requires forall i, j | 0 <= i < j < |f| :: Ahead(preferred, f[i], f[j])
    requires forall i, j | 0 <= i < j < |g| :: Ahead(preferred, g[i], g[j])
    requires forall n :: n in f <==> n in g
    ensures f == g
  {
    HeadIsIn(g);
    if f != [] {
      assert f[0] in g && g != [];
      assert g[0] in f;
      var i :| 0 <= i < |f| && f[i] == g[0];
      var j :| 0 <= j < |g| && g[j] == f[0];
      AheadIsAsymmetric(preferred, f[0], g[0]);
      assert f[0] == g[0];
      forall n
        ensures n in f[1..] <==> n in g[1..]
      {
        TailWithout(f, n, preferred);
        TailWithout(g, n, preferred);
      }
      AscendingIsUnique(f[1..], g[1..], preferred);
      assert f == [f[0]] + f[1..] && g == [g[0]] + g[1..];
    }
  }

  lemma TailWithout(f: seq<Node>, n: Node, preferred: bytes)
    requires f != [] && forall i, j | 0 <= i < j < |f| :: Ahead(preferred, f[i], f[j])
    ensures n in f[1..] <==> n in f && n != f[0]
  {
    assert f == [f[0]] + f[1..];
    if n in f[1..] {
      var j :| 0 <= j < |f[1..]| && f[1..][j] == n;
      assert Ahead(preferred, f[0], f[j + 1]);
      AheadIsAsymmetric(preferred, f[0], f[0]);
    }
  }

  /** One listing only fits the registry: neither the name order nor the walk over the map shows in it. */
  lemma ListingIsUnique(f: seq<Node>, g: seq<Node>, nodes: Nodes, hasPath: bytes -> bool, preferred: bytes,
                        skip: set<bytes>)
    requires IsListing(f, nodes, hasPath, preferred, skip) && IsListing(g, nodes, hasPath, preferred, skip)
    ensures f == g
  {
    ListingIsAscending(f, nodes, hasPath, preferred, skip);
    ListingIsAscending(g, nodes, hasPath, preferred, skip);
    AscendingIsUnique(f, g, preferred);
  }

  /** The order of List: by name, and between equal names by hash. */
  lemma ByNameIs(a: Node, b: Node)
    ensures Before(ByName, a, b) <==>
              || (a.name != b.name && LexLeq(a.name, b.name))
              || (a.name == b.name && a.hash != b.hash && LexLeq(a.hash, b.hash))
  {
    LexTotal(a.name, b.name);
    if LexLeq(a.name, b.name) && LexLeq(b.name, a.name) {
      LexAntisymmetric(a.name, b.name);
    }
    SoonerIsBefore(a.(hops := 0), b.(hops := 0));
  }

  /** In numbers: behind the preferred node the hops never fall, and between equal hops the hashes rise. */
  lemma ListingInNumbers(full: seq<Node>, nodes: Nodes, hasPath: bytes -> bool, preferred: bytes, skip: set<bytes>,
                         i: nat, j: nat)
    requires Filed(nodes) && IsListing(full, nodes, hasPath, preferred, skip) && i < j < |full|
    ensures full[j].hash != preferred
    ensures full[i].hash != preferred ==>
              || full[i].hops < full[j].hops
              || (full[i].hops == full[j].hops && FromBE(full[i].hash) < FromBE(full[j].hash))
  {
    ListingIsAscending(full, nodes, hasPath, preferred, skip);
    assert Ahead(preferred, full[i], full[j]);
    assert full[i] in full && full[j] in full;
    LexIsNumeric(full[i].hash, full[j].hash);
    LexIsNumeric(full[j].hash, full[i].hash);
    if LexLeq(full[j].hash, full[i].hash) && LexLeq(full[i].hash, full[j].hash) {
      LexAntisymmetric(full[i].hash, full[j].hash);
    }
  }

  /** Who is on it: the known nodes that have a path and are not to be skipped. */
  lemma ListingHolds(full: seq<Node>, nodes: Nodes, hasPath: bytes -> bool, preferred: bytes, skip: set<bytes>, n: Node)
    requires Filed(nodes) && IsListing(full, nodes, hasPath, preferred, skip)
    ensures n in full <==> n in nodes.Values && hasPath(n.hash) && Hex(n.hash) !in skip
    ensures forall i, j | 0 <= i < j < |full| :: full[i] != full[j]
  {
    if n in nodes.Values {
      var k :| k in nodes && nodes[k] == n;
    }
    if n in full {
      assert nodes[Hex(n.hash)] == n;
    }
  }

  /** A positive maximum cuts the listing there, any other leaves it whole. */
  lemma CutInNumbers(full: seq<Node>, maxAttempts: int)
    ensures Cut(full, maxAttempts) <= full
    ensures |Cut(full, maxAttempts)| == if 0 < maxAttempts < |full| then maxAttempts else |full|
  {}

  /** Sorting distinct nodes leaves them distinct. */
  lemma SameNodesDistinct(s: seq<Node>, r: seq<Node>, ord: Ordering)
    requires Distinct(s) && SameNodes(r, s) && Ascending(ord, r)
    ensures Distinct(r)
  {
    forall i, j | 0 <= i < j < |r|
      ensures r[i].hash != r[j].hash
    {
      assert r[i] in s && r[j] in s;
      var a :| 0 <= a < |s| && s[a] == r[i];
      var b :| 0 <= b < |s| && s[b] == r[j];
      if a == b {
        assert Before(ord, r[i], r[i]);
        LexTotal(r[i].name, r[i].name);
        LexTotal(Hex(r[i].hash), Hex(r[i].hash));
      }
    }
  }
}
