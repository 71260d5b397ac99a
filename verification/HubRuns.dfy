/**
 Consequences over whole runs: relay against a brute-force scan, the count of memberships, which
 registration holds a key, what the client sees, and the form of nicknames.
 */
module HubRuns {
  import opened Basics
  import opened Text
  import opened HubModel
  import opened HubIndex
  import RateLimiter

  lemma RunSnoc(cfg: Config, steps: seq<Step>, step: Step)
    ensures Run(cfg, steps + [step]) == Exec(cfg, Run(cfg, steps), step)
  {
    assert (steps + [step])[..|steps|] == steps;
  }

  // ---------------------------------------------------------------- relay

  /** Reading the index gives the same recipients as scanning every session. */
  lemma RecipientsAreScan(h: Hub, p: nat, room: Str)
    requires WellFormed(h) && Agree(h) && Current(h, p)
    ensures forall i: nat :: i in Recipients(h, p, room) <==>
                               i != p && Current(h, i) && room in h.sessions[i].rooms
  {
    forall i: nat | i != p && Current(h, i) && room in h.sessions[i].rooms
      ensures i in Recipients(h, p, room)
    {
      var k := h.sessions[i].key.value;
      assert HeldByCurrent(h, room, k);
      assert Listed(h, room, k);
      assert SessionOk(h.sessions[i]);
    }
    forall i | i in Recipients(h, p, room)
      ensures i != p && Current(h, i) && room in h.sessions[i].rooms
    {
      var k :| k in h.rooms[room] && k != h.sessions[p].key.value && k in h.peers && h.peers[k] == i;
      assert Listed(h, room, k) && RegisteredOk(h, k);
      assert HeldByCurrent(h, room, k);
    }
  }

  /**
   An accepted message of a current session is queued for exactly the other current sessions of its room
   that have an open link, each once, under the sender's registered identity and with the id, time and
   body it came with; the sender's own session only notes the time.
   */
  lemma RelayReachesTheRoom(cfg: Config, h: Hub, p: nat, env: Envelope, now: int)
    requires WellFormed(h) && Agree(h) && Current(h, p)
    requires ContentRefusal(cfg, h, p, env, RateLimiter.Admits(h.sessions[p].times, cfg.rateLimit, now)).None?
    ensures var g := DoRated(cfg, h, p, env, now);
            var room := NormalizeRoom(cfg.lower, env.room);
            && |g.sessions| == |h.sessions| && g.peers == h.peers && g.rooms == h.rooms
            && exists fwd: Envelope ::
                 && fwd.sender == h.sessions[p].key.value && fwd.msgId == env.msgId
                 && fwd.timestamp == env.timestamp && fwd.body == env.body && fwd.room == room && fwd.typ == env.typ
                 && (fwd.nick == if h.sessions[p].nick == [] then None else Some(h.sessions[p].nick))
                 && forall i | 0 <= i < |h.sessions| ::
                      g.sessions[i] ==
                        if i == p then Timed(cfg, h.sessions[i], now)
                        else if Current(h, i) && room in h.sessions[i].rooms
                                && !h.sessions[i].closed && !h.sessions[i].linkDown
                        then h.sessions[i].(outbox := h.sessions[i].outbox + [Relayed(fwd)]) else h.sessions[i]
  {
    var room := NormalizeRoom(cfg.lower, env.room);
    RecipientsAreScan(h, p, room);
    var timed := Put(h, p, Timed(cfg, h.sessions[p], now));
    assert Recipients(timed, p, room) == Recipients(h, p, room);
    var fwd := Forwarded(h.sessions[p], room, env);
    var g := DoRated(cfg, h, p, env, now);
    assert g.sessions == Broadcast(timed.sessions, Recipients(h, p, room), Relayed(fwd));
  }

  /** RoomMembers: the identities listed for a room that are registered. */
  function RoomMembers(cfg: Config, h: Hub, name: Str): set<Key> {
    var room := NormalizeRoom(cfg.lower, name);
    if room !in h.rooms then {} else set k | k in h.rooms[room] && k in h.peers
  }

  lemma RoomMembersAreScan(cfg: Config, h: Hub, name: Str)
    requires WellFormed(h) && Agree(h)
    ensures forall k :: k in RoomMembers(cfg, h, name) <==>
                          exists i | 0 <= i < |h.sessions| ::
                            h.sessions[i].key == Some(k) && Current(h, i)
                            && NormalizeRoom(cfg.lower, name) in h.sessions[i].rooms
  {
    var room := NormalizeRoom(cfg.lower, name);
    forall k
      ensures k in RoomMembers(cfg, h, name) <==>
                exists i | 0 <= i < |h.sessions| ::
                  h.sessions[i].key == Some(k) && Current(h, i) && room in h.sessions[i].rooms
    {
      assert RegisteredOk(h, k);
      assert Listed(h, room, k) <==> HeldByCurrent(h, room, k);
      if HeldByCurrent(h, room, k) {
        assert Current(h, h.peers[k]);
      }
    }
  }

  // ---------------------------------------------------------------- counting memberships

  /** The sum of the sizes of the sets in a table. */
  ghost function Total<A, B>(m: map<A, set<B>>): nat {
    if m == map[] then 0 else
      var a :| a in m;
      |m[a]| + Total(m - {a})
  }

  ghost function Pairs<A(!new), B(!new)>(m: map<A, set<B>>): set<(A, B)> {
    set a, b | a in m && b in m[a] :: (a, b)
  }

  lemma {:induction false} RowSize<A(!new), B(!new)>(a: A, s: set<B>)
    ensures |set b | b in s :: (a, b)| == |s|
  {
    if s != {} {
      var b :| b in s;
      var rest := s - {b};
      RowSize(a, rest);
      assert (set x | x in s :: (a, x)) == (set x | x in rest :: (a, x)) + {(a, b)};
    }
  }

  lemma {:induction false} TotalCountsPairs<A(!new), B(!new)>(m: map<A, set<B>>)
    ensures Total(m) == |Pairs(m)|
    decreases |m|
  {
    if m != map[] {
      var a :| a in m && Total(m) == |m[a]| + Total(m - {a});
      var rest := m - {a};
      assert |rest| < |m| by {
        assert rest.Keys < m.Keys;
        assert m.Keys == rest.Keys + {a};
      }
      TotalCountsPairs(rest);
      var row := set b | b in m[a] :: (a, b);
      RowSize(a, m[a]);
      assert Pairs(m) == Pairs(rest) + row;
    }
  }

  lemma {:induction false} SwapKeepsSize<A(!new), B(!new)>(s: set<(A, B)>)
    ensures |set x | x in s :: (x.1, x.0)| == |s|
  {
    if s != {} {
      var x :| x in s;
      var rest := s - {x};
      SwapKeepsSize(rest);
      assert (set y | y in s :: (y.1, y.0)) == (set y | y in rest :: (y.1, y.0)) + {(x.1, x.0)};
    }
  }

  /** Two tables that are transposes of each other hold equally many memberships. */
  lemma TransposesHaveEqualTotals<A(!new), B(!new)>(m: map<A, set<B>>, n: map<B, set<A>>)
    requires forall a, b :: a in m && b in m[a] <==> b in n && a in n[b]
    ensures Total(m) == Total(n)
  {
    TotalCountsPairs(m);
    TotalCountsPairs(n);
    SwapKeepsSize(Pairs(m));
    var swapped := set x | x in Pairs(m) :: (x.1, x.0);
    forall b, a
      ensures (b, a) in swapped <==> (b, a) in Pairs(n)
    {
      assert (a, b) in Pairs(m) <==> a in m && b in m[a];
      if (b, a) in swapped {
        var x :| x in Pairs(m) && (x.1, x.0) == (b, a);
        assert x == (a, b);
      }
    }
    assert swapped == Pairs(n);
  }

  lemma {:induction false} TotalIsBounded<A, B>(m: map<A, set<B>>, c: nat)
    requires forall a | a in m :: |m[a]| <= c
    ensures Total(m) <= |m| * c
    decreases |m|
  {
    if m != map[] {
      var a :| a in m && Total(m) == |m[a]| + Total(m - {a});
      var rest := m - {a};
      assert m.Keys == rest.Keys + {a};
      assert |m| == |rest| + 1;
      TotalIsBounded(rest, c);
      OneMoreRow(|rest|, c);
    }
  }

  lemma OneMoreRow(n: nat, c: nat)
    ensures (n + 1) * c == n * c + c
  {}

  /** The own room sets of the registered sessions. */
  ghost function SessionSets(h: Hub): map<Key, set<Str>> {
    map k | k in h.peers && h.peers[k] < |h.sessions| :: h.sessions[h.peers[k]].rooms
  }

  predicate Capped(cfg: Config, h: Hub) {
    forall i | 0 <= i < |h.sessions| :: |h.sessions[i].rooms| <= cfg.maxRooms
  }

  lemma JoinKeepsCap(cfg: Config, h: Hub, p: nat, name: Str)
    requires Capped(cfg, h) && p < |h.sessions| && h.sessions[p].key.Some?
    ensures Capped(cfg, DoJoin(cfg, h, p, name))
  {
    var g, room := DoJoin(cfg, h, p, name), NormalizeRoom(cfg.lower, name);
    forall i | 0 <= i < |g.sessions|
      ensures |g.sessions[i].rooms| <= cfg.maxRooms
    {
      if i == p && g.sessions[p].rooms != h.sessions[p].rooms {
        assert g.sessions[p].rooms == h.sessions[p].rooms + {room};
      }
    }
  }

  lemma PartKeepsCap(cfg: Config, h: Hub, p: nat, name: Str)
    requires Capped(cfg, h) && p < |h.sessions| && h.sessions[p].key.Some?
    ensures Capped(cfg, DoPart(cfg, h, p, name))
  {
    var room := NormalizeRoom(cfg.lower, name);
    SubsetSize(h.sessions[p].rooms - {room}, h.sessions[p].rooms);
  }

  lemma QuietKeepsCap(cfg: Config, h: Hub, p: nat, act: Action)
    requires Capped(cfg, h) && p < |h.sessions| && Quiet(act)
    ensures Capped(cfg, Perform(cfg, h, p, act))
  {
    QuietIsSameCore(cfg, h, p, act);
    var g := Perform(cfg, h, p, act);
    forall i | 0 <= i < |g.sessions|
      ensures |g.sessions[i].rooms| <= cfg.maxRooms
    {
      assert SameMembership(h.sessions[i], g.sessions[i]);
    }
  }

  lemma StepKeepsCap(cfg: Config, h: Hub, step: Step)
    requires Capped(cfg, h)
    ensures Capped(cfg, Exec(cfg, h, step))
  {
    if step.On? && step.p < |h.sessions| {
      if Quiet(step.act) {
        QuietKeepsCap(cfg, h, step.p, step.act);
      } else if h.sessions[step.p].key.Some? && step.act.Part? {
        PartKeepsCap(cfg, h, step.p, step.act.name);
      } else if h.sessions[step.p].key.Some? && step.act.Join? {
        JoinKeepsCap(cfg, h, step.p, step.act.name);
      }
    }
  }

  lemma SubsetSize<T>(a: set<T>, b: set<T>)
    requires a <= b
    ensures |a| <= |b|
  {
    assert b == a + (b - a);
  }

  lemma {:induction false} EveryRunIsCapped(cfg: Config, steps: seq<Step>)
    ensures Capped(cfg, Run(cfg, steps))
  {
    if steps != [] {
      EveryRunIsCapped(cfg, steps[..|steps| - 1]);
      StepKeepsCap(cfg, Run(cfg, steps[..|steps| - 1]), steps[|steps| - 1]);
    }
  }

  lemma AgreeingTotals(h: Hub)
    requires WellFormed(h) && Agree(h)
    ensures Total(SessionSets(h)) == Total(h.rooms)
    ensures SessionSets(h).Keys == h.peers.Keys
  {
    var own := SessionSets(h);
    forall k, r
      ensures k in own && r in own[k] <==> r in h.rooms && k in h.rooms[r]
    {
      assert Listed(h, r, k) <==> HeldByCurrent(h, r, k);
    }
    TransposesHaveEqualTotals(own, h.rooms);
    forall k
      ensures k in own <==> k in h.peers
    {
      assert RegisteredOk(h, k);
    }
  }

  /** Memberships counted by session and by room are the same number, and it is bounded. */
  lemma MembershipsAreConserved(cfg: Config, steps: seq<Step>)
    requires GuardedRun(cfg, steps)
    ensures var h := Run(cfg, steps);
            && Total(SessionSets(h)) == Total(h.rooms)
            && Total(h.rooms) <= |h.peers| * cfg.maxRooms
  {
    var h := Run(cfg, steps);
    GuardedRunsAgree(cfg, steps);
    EveryRunIsWellFormed(cfg, steps);
    EveryRunIsCapped(cfg, steps);
    AgreeingTotals(h);
    var own := SessionSets(h);
    TotalIsBounded(own, cfg.maxRooms);
    assert |own| == |own.Keys| == |h.peers.Keys| == |h.peers|;
  }

  // ---------------------------------------------------------------- latest registration wins

  /** Step `i` of the run is the one that registers session `p` as `k`. */
  predicate Registers(cfg: Config, steps: seq<Step>, i: nat, p: nat, k: Key)
    requires i < |steps|
  {
    var h := Run(cfg, steps[..i]);
    steps[i] == On(p, Identify(k)) && |k| == IDENTITY_LENGTH && p < |h.sessions| && h.sessions[p].key.None?
  }

  /** Step `j` ends the registration of session `p`: its own close completes, or the hub closes. */
  predicate Ends(cfg: Config, steps: seq<Step>, j: nat, p: nat)
    requires j < |steps|
  {
    var h := Run(cfg, steps[..j]);
    steps[j] == CloseHub || (steps[j] == On(p, Drop) && p < |h.sessions| && h.sessions[p].dropDue)
  }

  predicate Supersedes(cfg: Config, steps: seq<Step>, j: nat, k: Key)
    requires j < |steps|
  {
    steps[j].On? && Registers(cfg, steps, j, steps[j].p, k)
  }

  /** Since step `i` nobody else registered as `k`, and neither `p` nor the hub closed. */
  predicate UndisturbedSince(cfg: Config, steps: seq<Step>, i: nat, p: nat, k: Key)
    requires i < |steps|
  {
    forall j | i < j < |steps| :: !Ends(cfg, steps, j, p) && !Supersedes(cfg, steps, j, k)
  }

  predicate LatestFor(cfg: Config, steps: seq<Step>, p: nat, k: Key) {
    exists i | 0 <= i < |steps| :: Registers(cfg, steps, i, p, k) && UndisturbedSince(cfg, steps, i, p, k)
  }

  /** The peer table is a function of the history alone, however late the closes of older sessions come. */
  lemma {:induction false} LatestRegistrationWins(cfg: Config, steps: seq<Step>, p: nat, k: Key)
    ensures k in Run(cfg, steps).peers && Run(cfg, steps).peers[k] == p <==> LatestFor(cfg, steps, p, k)
  {
    if steps != [] {
      var n := |steps| - 1;
      var before := steps[..n];
      var step := steps[n];
      var h := Run(cfg, before);
      LatestRegistrationWins(cfg, before, p, k);
      EveryRunIsWellFormed(cfg, before);
      assert RegisteredOk(h, k);
      LatestForStep(cfg, steps, p, k);
      PeersStep(cfg, h, step, p, k);
    }
  }

  /** Registrations and their ends are judged by the steps up to them alone. */
  lemma SameBefore(cfg: Config, steps: seq<Step>, j: nat, p: nat, k: Key)
    requires j + 1 < |steps|
    ensures var before := steps[..|steps| - 1];
            && (Registers(cfg, before, j, p, k) <==> Registers(cfg, steps, j, p, k))
            && (Ends(cfg, before, j, p) <==> Ends(cfg, steps, j, p))
            && (Supersedes(cfg, before, j, k) <==> Supersedes(cfg, steps, j, k))
  {
    var before := steps[..|steps| - 1];
    assert before[..j] == steps[..j] && before[j] == steps[j];
  }

  lemma LatestRemains(cfg: Config, steps: seq<Step>, p: nat, k: Key)
    requires steps != [] && LatestFor(cfg, steps, p, k) && !Registers(cfg, steps, |steps| - 1, p, k)
    ensures var n := |steps| - 1;
            LatestFor(cfg, steps[..n], p, k) && !Ends(cfg, steps, n, p) && !Supersedes(cfg, steps, n, k)
  {
    var n := |steps| - 1;
    var before := steps[..n];
    var i :| 0 <= i < |steps| && Registers(cfg, steps, i, p, k) && UndisturbedSince(cfg, steps, i, p, k);
    SameBefore(cfg, steps, i, p, k);
    forall j | i < j < n
      ensures !Ends(cfg, before, j, p) && !Supersedes(cfg, before, j, k)
    {
      SameBefore(cfg, steps, j, p, k);
    }
    assert UndisturbedSince(cfg, before, i, p, k);
  }

  lemma LatestLasts(cfg: Config, steps: seq<Step>, p: nat, k: Key)
    requires steps != [] && LatestFor(cfg, steps[..|steps| - 1], p, k)
    requires !Ends(cfg, steps, |steps| - 1, p) && !Supersedes(cfg, steps, |steps| - 1, k)
    ensures LatestFor(cfg, steps, p, k)
  {
    var n := |steps| - 1;
    var before := steps[..n];
    var i :| 0 <= i < n && Registers(cfg, before, i, p, k) && UndisturbedSince(cfg, before, i, p, k);
    SameBefore(cfg, steps, i, p, k);
    forall j | i < j < |steps|
      ensures !Ends(cfg, steps, j, p) && !Supersedes(cfg, steps, j, k)
    {
      if j < n {
        SameBefore(cfg, steps, j, p, k);
      }
    }
    assert UndisturbedSince(cfg, steps, i, p, k);
  }

  /** How one more step changes who is the latest registration. */
  lemma LatestForStep(cfg: Config, steps: seq<Step>, p: nat, k: Key)
    requires steps != []
    ensures var n := |steps| - 1;
            LatestFor(cfg, steps, p, k) <==>
              || Registers(cfg, steps, n, p, k)
              || (LatestFor(cfg, steps[..n], p, k) && !Ends(cfg, steps, n, p) && !Supersedes(cfg, steps, n, k))
  {
    var n := |steps| - 1;
    if Registers(cfg, steps, n, p, k) {
      assert UndisturbedSince(cfg, steps, n, p, k);
    } else if LatestFor(cfg, steps, p, k) {
      LatestRemains(cfg, steps, p, k);
    } else if LatestFor(cfg, steps[..n], p, k) && !Ends(cfg, steps, n, p) && !Supersedes(cfg, steps, n, k) {
      LatestLasts(cfg, steps, p, k);
    }
  }

  /** How one step changes the entry of the peer table for `k`. */
  lemma PeersStep(cfg: Config, h: Hub, step: Step, p: nat, k: Key)
    requires WellFormed(h)
    ensures var g := Exec(cfg, h, step);
            var registers := (q: nat) => step == On(q, Identify(k)) && |k| == IDENTITY_LENGTH && q < |h.sessions|
                                         && h.sessions[q].key.None?;
            var ends := step == CloseHub || (step == On(p, Drop) && p < |h.sessions| && h.sessions[p].dropDue);
            k in g.peers && g.peers[k] == p <==>
              || registers(p)
              || (k in h.peers && h.peers[k] == p && !ends && !(step.On? && registers(step.p)))
  {
    assert RegisteredOk(h, k);
    if step.On? && step.p < |h.sessions| {
      match step.act
      case Identify(_) =>
      case Drop =>
      case Hello =>
      case Join(_) =>
      case Part(_) =>
      case _ => QuietIsSameCore(cfg, h, step.p, step.act);
    }
  }

  // ---------------------------------------------------------------- what the client sees

  /** The room set of a client that has handled the messages in order. */
  function ApplyAll(cfg: Config, rooms: set<Str>, ms: seq<HubMessage>): set<Str> {
    if ms == [] then rooms else ClientApply(cfg, ApplyAll(cfg, rooms, ms[..|ms| - 1]), ms[|ms| - 1])
  }

  lemma {:induction false} ApplyFirst(cfg: Config, rooms: set<Str>, ms: seq<HubMessage>)
    requires ms != []
    ensures ApplyAll(cfg, rooms, ms) == ApplyAll(cfg, ClientApply(cfg, rooms, ms[0]), ms[1..])
  {
    if |ms| > 1 {
      var init := ms[..|ms| - 1];
      ApplyFirst(cfg, rooms, init);
      assert init[1..] == ms[1..][..|ms| - 2];
    }
  }

  lemma ApplySnoc(cfg: Config, rooms: set<Str>, ms: seq<HubMessage>, m: HubMessage)
    ensures ApplyAll(cfg, rooms, ms + [m]) == ClientApply(cfg, ApplyAll(cfg, rooms, ms), m)
  {
    assert (ms + [m])[..|ms|] == ms;
  }

  /** What is under way brings the client to the room set that the hub keeps for it. */
  predicate InStep(cfg: Config, sess: Session) {
    !sess.closed && !sess.linkDown ==> ApplyAll(cfg, sess.mirror, sess.outbox) == sess.rooms
  }

  ghost predicate Lowering(cfg: Config) {
    LowerTable(cfg.lower) && cfg.lower(0xFFFD) == 0xFFFD
  }

  /** The messages that say nothing about membership. */
  predicate Neutral(m: HubMessage) {
    m.Welcome? || m.Refused? || m.Relayed?
  }

  lemma NeutralSendInStep(cfg: Config, sess: Session, m: HubMessage)
    requires InStep(cfg, sess) && Neutral(m)
    ensures InStep(cfg, Send(sess, m))
  {
    ApplySnoc(cfg, sess.mirror, sess.outbox, m);
  }

  lemma ContentInStep(cfg: Config, h: Hub, p: nat, env: Envelope, admitted: bool)
    requires p < |h.sessions| && h.sessions[p].key.Some?
    requires forall i | 0 <= i < |h.sessions| :: InStep(cfg, h.sessions[i])
    ensures var g := DoContent(cfg, h, p, env, admitted);
            forall i | 0 <= i < |g.sessions| :: InStep(cfg, g.sessions[i])
  {
    var room := NormalizeRoom(cfg.lower, env.room);
    var g := DoContent(cfg, h, p, env, admitted);
    match ContentRefusal(cfg, h, p, env, admitted)
    case Some(reason) =>
      NeutralSendInStep(cfg, h.sessions[p], Refused(reason));
    case None =>
      var m := Relayed(Forwarded(h.sessions[p], room, env));
      forall i | 0 <= i < |g.sessions|
        ensures InStep(cfg, g.sessions[i])
      {
        NeutralSendInStep(cfg, h.sessions[i], m);
      }
  }

  lemma RatedInStep(cfg: Config, h: Hub, p: nat, env: Envelope, now: int)
    requires p < |h.sessions| && h.sessions[p].key.Some?
    requires forall i | 0 <= i < |h.sessions| :: InStep(cfg, h.sessions[i])
    ensures var g := DoRated(cfg, h, p, env, now);
            forall i | 0 <= i < |g.sessions| :: InStep(cfg, g.sessions[i])
  {
    if NormalizeRoom(cfg.lower, env.room) == [] {
      NeutralSendInStep(cfg, h.sessions[p], Refused("missing room"));
    } else {
      var timed := Put(h, p, Timed(cfg, h.sessions[p], now));
      assert forall i | 0 <= i < |timed.sessions| :: InStep(cfg, timed.sessions[i]) by {
        assert InStep(cfg, h.sessions[p]);
      }
      ContentInStep(cfg, timed, p, env, RateLimiter.Admits(h.sessions[p].times, cfg.rateLimit, now));
    }
  }

  /** Announcing a membership change keeps the client in step with it. */
  lemma JoinedInStep(cfg: Config, sess: Session, room: Str)
    requires InStep(cfg, sess) && NormalizeRoom(cfg.lower, room) == room
    ensures InStep(cfg, Send(sess.(rooms := sess.rooms + {room}), Joined(room)))
  {
    ApplySnoc(cfg, sess.mirror, sess.outbox, Joined(room));
  }

  lemma JoinInStep(cfg: Config, h: Hub, p: nat, name: Str)
    requires Lowering(cfg) && p < |h.sessions| && h.sessions[p].key.Some? && InStep(cfg, h.sessions[p])
    ensures InStep(cfg, DoJoin(cfg, h, p, name).sessions[p])
  {
    var sess := h.sessions[p];
    var room := NormalizeRoom(cfg.lower, name);
    NormalizeRoomIdempotent(cfg.lower, name);
    var next := DoJoin(cfg, h, p, name).sessions[p];
    if room == [] {
      NeutralSendInStep(cfg, sess, Refused("missing room"));
    } else if ByteLen(room) > cfg.maxRoomNameBytes {
      NeutralSendInStep(cfg, sess, Refused("room name too long"));
    } else if room in sess.rooms {
      JoinedInStep(cfg, sess, room);
      assert sess.rooms + {room} == sess.rooms;
    } else if |sess.rooms| >= cfg.maxRooms {
      NeutralSendInStep(cfg, sess, Refused("room limit exceeded"));
    } else {
      JoinedInStep(cfg, sess, room);
    }
  }

  lemma PartInStep(cfg: Config, h: Hub, p: nat, name: Str)
    requires Lowering(cfg) && p < |h.sessions| && h.sessions[p].key.Some? && InStep(cfg, h.sessions[p])
    ensures InStep(cfg, DoPart(cfg, h, p, name).sessions[p])
  {
    var sess := h.sessions[p];
    var room := NormalizeRoom(cfg.lower, name);
    NormalizeRoomIdempotent(cfg.lower, name);
    ApplySnoc(cfg, sess.mirror, sess.outbox, Parted(room));
  }

  /** Apart from content, an action on a session changes no other session's messages and rooms. */
  lemma OthersKeepInStep(cfg: Config, h: Hub, p: nat, act: Action, i: nat)
    requires p < |h.sessions| && i < |h.sessions| && i != p && !act.Content?
    ensures var g := Perform(cfg, h, p, act); |g.sessions| == |h.sessions| && g.sessions[i] == h.sessions[i]
  {}

  /** The actions that change neither the rooms nor the messages of a session. */
  lemma SilentStaysInStep(cfg: Config, h: Hub, p: nat, act: Action)
    requires p < |h.sessions| && InStep(cfg, h.sessions[p])
    requires act.Identify? || act.BufferHello? || act.Close? || act.Drop? || act.LinkDown?
    ensures var g := Perform(cfg, h, p, act); |g.sessions| == |h.sessions| && InStep(cfg, g.sessions[p])
  {
    var g := Perform(cfg, h, p, act);
    var was, now := h.sessions[p], g.sessions[p];
    assert now.mirror == was.mirror && now.outbox == was.outbox && now.rooms == was.rooms;
  }

  lemma OwnStaysInStep(cfg: Config, h: Hub, p: nat, act: Action)
    requires Lowering(cfg) && p < |h.sessions| && InStep(cfg, h.sessions[p]) && !act.Content?
    ensures var g := Perform(cfg, h, p, act); |g.sessions| == |h.sessions| && InStep(cfg, g.sessions[p])
  {
    var sess := h.sessions[p];
    match act
    case Join(name) =>
      if sess.key.Some? && sess.active {
        JoinInStep(cfg, h, p, name);
      }
    case Part(name) =>
      if sess.key.Some? && sess.active {
        PartInStep(cfg, h, p, name);
      }
    case Deliver =>
      if sess.outbox != [] {
        ApplyFirst(cfg, sess.mirror, sess.outbox);
      }
    case SetNick(nick) => NeutralSendInStep(cfg, sess, Refused("nickname too long"));
    case Hello =>
      assert InStep(cfg, sess.(active := true));
      NeutralSendInStep(cfg, sess.(active := true), Welcome);
    case _ => SilentStaysInStep(cfg, h, p, act);
  }

  lemma StepKeepsInStep(cfg: Config, h: Hub, step: Step)
    requires Lowering(cfg) && forall i | 0 <= i < |h.sessions| :: InStep(cfg, h.sessions[i])
    ensures var g := Exec(cfg, h, step);
            forall i | 0 <= i < |g.sessions| :: InStep(cfg, g.sessions[i])
  {
    match step
    case Accept => assert InStep(cfg, FRESH_SESSION);
    case CloseHub =>
    case On(p, act) =>
      if p < |h.sessions| {
        if act.Content? {
          if h.sessions[p].key.Some? && h.sessions[p].active {
            RatedInStep(cfg, h, p, act.env, act.now);
          }
        } else {
          OwnStaysInStep(cfg, h, p, act);
          forall i: nat | i < |h.sessions| && i != p
            ensures InStep(cfg, Perform(cfg, h, p, act).sessions[i])
          {
            OthersKeepInStep(cfg, h, p, act, i);
          }
        }
      }
  }

  lemma {:induction false} EveryRunIsInStep(cfg: Config, steps: seq<Step>)
    requires Lowering(cfg)
    ensures var h := Run(cfg, steps); forall i | 0 <= i < |h.sessions| :: InStep(cfg, h.sessions[i])
  {
    if steps != [] {
      EveryRunIsInStep(cfg, steps[..|steps| - 1]);
      StepKeepsInStep(cfg, Run(cfg, steps[..|steps| - 1]), steps[|steps| - 1]);
    }
  }

  /** A client with nothing in flight on an open session has exactly the rooms the hub has for it. */
  lemma ClientMirrorsHub(cfg: Config, steps: seq<Step>, p: nat)
    requires Lowering(cfg)
    ensures var h := Run(cfg, steps);
            p < |h.sessions| && !h.sessions[p].closed && !h.sessions[p].linkDown ==>
              && ApplyAll(cfg, h.sessions[p].mirror, h.sessions[p].outbox) == h.sessions[p].rooms
              && (h.sessions[p].outbox == [] ==> h.sessions[p].mirror == h.sessions[p].rooms)
  {
    EveryRunIsInStep(cfg, steps);
    var h := Run(cfg, steps);
    if p < |h.sessions| {
      assert InStep(cfg, h.sessions[p]);
    }
  }

  // ---------------------------------------------------------------- nicknames

  predicate NickOk(cfg: Config, sess: Session) {
    CleanNick(sess.nick) && ByteLen(sess.nick) <= cfg.maxNickBytes
  }

  lemma SetNickIsOk(cfg: Config, h: Hub, p: nat, nick: Str)
    requires p < |h.sessions| && NickOk(cfg, h.sessions[p])
    ensures NickOk(cfg, DoSetNick(cfg, h, p, nick).sessions[p])
  {
    SanitizeTwiceIsClean(nick);
    KeptPrintable(TrimSpace(nick));
    SanitizePrintableShrinks(Sanitized(nick));
  }

  lemma ContentKeepsNicks(cfg: Config, h: Hub, p: nat, env: Envelope, admitted: bool)
    requires p < |h.sessions| && h.sessions[p].key.Some?
    ensures var g := DoContent(cfg, h, p, env, admitted);
            |g.sessions| == |h.sessions| && forall i | 0 <= i < |h.sessions| :: g.sessions[i].nick == h.sessions[i].nick
  {}

  lemma RatedKeepsNicks(cfg: Config, h: Hub, p: nat, env: Envelope, now: int)
    requires p < |h.sessions| && h.sessions[p].key.Some?
    ensures var g := DoRated(cfg, h, p, env, now);
            |g.sessions| == |h.sessions| && forall i | 0 <= i < |h.sessions| :: g.sessions[i].nick == h.sessions[i].nick
  {
    if NormalizeRoom(cfg.lower, env.room) != [] {
      ContentKeepsNicks(cfg, Put(h, p, Timed(cfg, h.sessions[p], now)), p, env,
                        RateLimiter.Admits(h.sessions[p].times, cfg.rateLimit, now));
    }
  }

  /** No other action touches a nickname. */
  lemma NicksAreLeftAlone(cfg: Config, h: Hub, p: nat, act: Action)
    requires p < |h.sessions| && !act.SetNick?
    ensures var g := Perform(cfg, h, p, act);
            |g.sessions| == |h.sessions| && forall i | 0 <= i < |h.sessions| :: g.sessions[i].nick == h.sessions[i].nick
  {
    if act.Content? && h.sessions[p].key.Some? && h.sessions[p].active {
      RatedKeepsNicks(cfg, h, p, act.env, act.now);
    }
  }

  lemma StepKeepsNicks(cfg: Config, h: Hub, step: Step)
    requires forall i | 0 <= i < |h.sessions| :: NickOk(cfg, h.sessions[i])
    ensures var g := Exec(cfg, h, step);
            forall i | 0 <= i < |g.sessions| :: NickOk(cfg, g.sessions[i])
  {
    var g := Exec(cfg, h, step);
    match step
    case Accept => assert NickOk(cfg, FRESH_SESSION);
    case CloseHub =>
    case On(p, act) =>
      if p < |h.sessions| {
        if act.SetNick? {
          SetNickIsOk(cfg, h, p, act.nick);
          assert forall i | 0 <= i < |g.sessions| && i != p :: g.sessions[i] == h.sessions[i];
        } else {
          NicksAreLeftAlone(cfg, h, p, act);
          forall i | 0 <= i < |g.sessions|
            ensures NickOk(cfg, g.sessions[i])
          {
            assert NickOk(cfg, h.sessions[i]) && g.sessions[i].nick == h.sessions[i].nick;
          }
        }
      }
  }

  /** Every nickname the hub ever holds is short, free of control characters and trimmed. */
  lemma {:induction false} EveryNickIsClean(cfg: Config, steps: seq<Step>)
    ensures var h := Run(cfg, steps); forall i | 0 <= i < |h.sessions| :: NickOk(cfg, h.sessions[i])
  {
    if steps != [] {
      EveryNickIsClean(cfg, steps[..|steps| - 1]);
      StepKeepsNicks(cfg, Run(cfg, steps[..|steps| - 1]), steps[|steps| - 1]);
    }
  }

  // ---------------------------------------------------------------- without the guard

  lemma RunAt(cfg: Config, steps: seq<Step>, i: nat)
    requires i < |steps|
    ensures Run(cfg, steps[..i + 1]) == Exec(cfg, Run(cfg, steps[..i]), steps[i])
  {
    assert steps[..i + 1][..i] == steps[..i];
  }

  /** Another link of the same identity takes over from an active one. */
  function TakeOver(k: Key): seq<Step> {
    [Accept, On(0, Identify(k)), On(0, Hello), Accept, On(1, Identify(k))]
  }

  /** A superseded session that still joins is listed in a room that its successor is not in. */
  lemma StaleJoinBreaksAgreement(cfg: Config, k: Key, name: Str)
    requires |k| == IDENTITY_LENGTH && cfg.maxRooms > 0
    requires NormalizeRoom(cfg.lower, name) != [] && ByteLen(NormalizeRoom(cfg.lower, name)) <= cfg.maxRoomNameBytes
    ensures !Agree(Run(cfg, TakeOver(k) + [On(0, Join(name))]))
  {
    var room := NormalizeRoom(cfg.lower, name);
    var s := Superseded(cfg, k);
    RunSnoc(cfg, TakeOver(k), On(0, Join(name)));
    var t := Run(cfg, TakeOver(k) + [On(0, Join(name))]);
    assert Listed(t, room, k) && !HeldByCurrent(t, room, k);
  }

  /** The state after the take-over. */
  lemma Superseded(cfg: Config, k: Key) returns (s: Hub)
    requires |k| == IDENTITY_LENGTH
    ensures s == Run(cfg, TakeOver(k))
    ensures |s.sessions| == 2 && s.peers == map[k := 1] && s.rooms == map[]
    ensures s.sessions[0] == FRESH_SESSION.(key := Some(k), active := true, outbox := [Welcome])
    ensures s.sessions[1] == FRESH_SESSION.(key := Some(k))
  {
    var steps := TakeOver(k);
    RunAt(cfg, steps, 0);
    RunAt(cfg, steps, 1);
    RunAt(cfg, steps, 2);
    RunAt(cfg, steps, 3);
    RunAt(cfg, steps, 4);
    assert steps[..0] == [] && steps[..5] == steps;
    s := Run(cfg, steps);
    assert s.rooms == map[];
  }

  /** The same with both sessions joining the same room, each while it is the registered one. */
  function TakeOverInRoom(k: Key, name: Str): seq<Step> {
    [Accept, On(0, Identify(k)), On(0, Hello), On(0, Join(name)),
     Accept, On(1, Identify(k)), On(1, Hello), On(1, Join(name))]
  }

  lemma FirstActive(cfg: Config, k: Key, steps: seq<Step>)
    requires |k| == IDENTITY_LENGTH && |steps| >= 3 && steps[..3] == [Accept, On(0, Identify(k)), On(0, Hello)]
    ensures var s := Run(cfg, steps[..3]);
            && |s.sessions| == 1 && s.peers == map[k := 0] && s.rooms == map[]
            && s.sessions[0] == FRESH_SESSION.(key := Some(k), active := true, outbox := [Welcome])
  {
    assert steps[0] == steps[..3][0] && steps[1] == steps[..3][1] && steps[2] == steps[..3][2];
    RunAt(cfg, steps, 0);
    RunAt(cfg, steps, 1);
    RunAt(cfg, steps, 2);
    assert steps[..0] == [];
  }

  lemma FirstJoined(cfg: Config, k: Key, name: Str)
    requires |k| == IDENTITY_LENGTH && cfg.maxRooms > 0
    requires NormalizeRoom(cfg.lower, name) != [] && ByteLen(NormalizeRoom(cfg.lower, name)) <= cfg.maxRoomNameBytes
    ensures var room := NormalizeRoom(cfg.lower, name);
            var s := Run(cfg, TakeOverInRoom(k, name)[..4]);
            && |s.sessions| == 1 && s.peers == map[k := 0] && s.rooms == map[room := {k}]
            && s.sessions[0] == FRESH_SESSION.(key := Some(k), active := true, rooms := {room},
                                              outbox := [Welcome, Joined(room)])
  {
    var steps := TakeOverInRoom(k, name);
    FirstActive(cfg, k, steps);
    RunAt(cfg, steps, 3);
  }

  lemma SecondRegistered(cfg: Config, k: Key, name: Str)
    requires |k| == IDENTITY_LENGTH && cfg.maxRooms > 0
    requires NormalizeRoom(cfg.lower, name) != [] && ByteLen(NormalizeRoom(cfg.lower, name)) <= cfg.maxRoomNameBytes
    ensures var room := NormalizeRoom(cfg.lower, name);
            var s := Run(cfg, TakeOverInRoom(k, name)[..6]);
            && |s.sessions| == 2 && s.peers == map[k := 1] && s.rooms == map[]
            && s.sessions[0] == FRESH_SESSION.(key := Some(k), active := true, rooms := {room},
                                              outbox := [Welcome, Joined(room)])
            && s.sessions[1] == FRESH_SESSION.(key := Some(k))
  {
    var steps := TakeOverInRoom(k, name);
    FirstJoined(cfg, k, name);
    RunAt(cfg, steps, 4);
    RunAt(cfg, steps, 5);
    assert Run(cfg, steps[..6]).rooms == map[];
  }

  lemma BothJoined(cfg: Config, k: Key, name: Str)
    requires |k| == IDENTITY_LENGTH && cfg.maxRooms > 0
    requires NormalizeRoom(cfg.lower, name) != [] && ByteLen(NormalizeRoom(cfg.lower, name)) <= cfg.maxRoomNameBytes
    ensures var room := NormalizeRoom(cfg.lower, name);
            var s := Run(cfg, TakeOverInRoom(k, name));
            && |s.sessions| == 2 && s.peers == map[k := 1] && s.rooms == map[room := {k}]
            && s.sessions[0] == FRESH_SESSION.(key := Some(k), active := true, rooms := {room},
                                              outbox := [Welcome, Joined(room)])
            && s.sessions[1].rooms == {room} && s.sessions[1].key == Some(k)
  {
    var steps := TakeOverInRoom(k, name);
    SecondRegistered(cfg, k, name);
    RunAt(cfg, steps, 6);
    RunAt(cfg, steps, 7);
    assert steps[..8] == steps;
  }

  /** A superseded session that parts takes its successor out of the room index. */
  lemma StalePartBreaksAgreement(cfg: Config, k: Key, name: Str)
    requires |k| == IDENTITY_LENGTH && cfg.maxRooms > 0
    requires NormalizeRoom(cfg.lower, name) != [] && ByteLen(NormalizeRoom(cfg.lower, name)) <= cfg.maxRoomNameBytes
    ensures !Agree(Run(cfg, TakeOverInRoom(k, name) + [On(0, Part(name))]))
  {
    var room := NormalizeRoom(cfg.lower, name);
    BothJoined(cfg, k, name);
    RunSnoc(cfg, TakeOverInRoom(k, name), On(0, Part(name)));
    var t := Run(cfg, TakeOverInRoom(k, name) + [On(0, Part(name))]);
    assert !Listed(t, room, k) && HeldByCurrent(t, room, k);
  }
}
