/** What one envelope, or one identification, does for the session it comes from and for the others. */
module HubAnswers {
  import opened Basics
  import opened Text
  import opened HubModel
  import opened HubIndex
  import opened HubRuns
  import opened HubServer
  import HubRate
  import RateLimiter

  /** The hub after handlePeer. */
  function Handled(cfg: Config, h: Hub, p: nat, env: Envelope, now: int): Hub
    requires p < |h.sessions|
  {
    RunFrom(cfg, h, EnvelopeScript(cfg, h, p, env, now))
  }

  /** Something sent to this session is queued. */
  predicate Open(s: Session) {
    !s.closed && !s.linkDown
  }

  /** Nothing but session `p` has changed. */
  predicate OnlyChanges(h: Hub, g: Hub, p: nat) {
    && |g.sessions| == |h.sessions| && g.peers == h.peers && g.rooms == h.rooms
    && forall i | 0 <= i < |h.sessions| && i != p :: g.sessions[i] == h.sessions[i]
  }

  // ---------------------------------------------------------------- the nickname

  /** The nickname is too long to be taken. */
  predicate Unfit(cfg: Config, env: Envelope) {
    env.nick.Some? && ByteLen(Sanitized(env.nick.value)) > cfg.maxNickBytes
  }

  /** The hub once the nickname is dealt with. */
  function Named(cfg: Config, h: Hub, p: nat, env: Envelope): Hub {
    RunFrom(cfg, h, NickScript(p, env))
  }

  /**
   A nickname that fits is stored in its clean form, one that is too long is refused and changes nothing else,
   and one that is empty once sanitized is passed over.
   */
  lemma NicknameIsTaken(cfg: Config, h: Hub, p: nat, env: Envelope)
    requires p < |h.sessions| && h.sessions[p].key.Some?
    ensures var g, s := Named(cfg, h, p, env), h.sessions[p];
            && OnlyChanges(h, g, p)
            && g.sessions[p] ==
               s.(nick := if env.nick.None? || Sanitized(env.nick.value) == [] || Unfit(cfg, env) then s.nick
                          else Sanitized(Sanitized(env.nick.value)),
                  outbox := s.outbox + if Unfit(cfg, env) && Open(s) then [Refused("nickname too long")] else [])
  {
    var s := h.sessions[p];
    assert s.outbox + [] == s.outbox;
    if env.nick.Some? {
      RunSingle(cfg, h, On(p, SetNick(env.nick.value)));
    }
  }

  lemma HandledFromNamed(cfg: Config, h: Hub, p: nat, env: Envelope, now: int)
    requires p < |h.sessions|
    ensures Handled(cfg, h, p, env, now) ==
            RunFrom(cfg, Named(cfg, h, p, env), TypeScript(cfg, h, p, env, now))
  {
    RunConcat(cfg, h, NickScript(p, env), TypeScript(cfg, h, p, env, now));
  }

  // ---------------------------------------------------------------- before the HELLO is taken

  /** A first HELLO makes the session active and is answered, unless its link is down; then it is closed. */
  lemma HelloIsAnswered(cfg: Config, h: Hub, p: nat, env: Envelope, now: int)
    requires p < |h.sessions| && h.sessions[p].key.Some? && !h.sessions[p].active
    requires env.typ == 1 && !Unfit(cfg, env)
    ensures var n, g := Named(cfg, h, p, env), Handled(cfg, h, p, env, now);
            && |g.sessions| == |h.sessions| == |n.sessions|
            && (forall i | 0 <= i < |h.sessions| && i != p :: g.sessions[i] == h.sessions[i])
            && var s := n.sessions[p];
               && (Open(s) ==> OnlyChanges(n, g, p)
                               && g.sessions[p] == s.(active := true, outbox := s.outbox + [Welcome]))
               && (!Open(s) ==> g.sessions[p] == s.(active := true, closed := true,
                                                    dropDue := if s.closed then s.dropDue else false))
  {
    NicknameIsTaken(cfg, h, p, env);
    HandledFromNamed(cfg, h, p, env, now);
    var n := Named(cfg, h, p, env);
    assert !(env.nick.Some? && NickTooLong(cfg, env.nick.value));
    GreetingRuns(cfg, n, p);
    assert TypeScript(cfg, h, p, env, now) == HelloScript(n, p);
  }

  lemma GreetingRuns(cfg: Config, n: Hub, p: nat)
    requires p < |n.sessions| && n.sessions[p].key.Some? && !n.sessions[p].active
    ensures var g, s := RunFrom(cfg, n, HelloScript(n, p)), n.sessions[p];
            && |g.sessions| == |n.sessions|
            && (forall i | 0 <= i < |n.sessions| && i != p :: g.sessions[i] == n.sessions[i])
            && (Open(s) ==> OnlyChanges(n, g, p)
                            && g.sessions[p] == s.(active := true, outbox := s.outbox + [Welcome]))
            && (!Open(s) ==> g.sessions[p] == s.(active := true, closed := true,
                                                 dropDue := if s.closed then s.dropDue else false))
  {
    var s := n.sessions[p];
    RunSingle(cfg, n, On(p, Hello));
    assert [On(p, Hello)] + [] == [On(p, Hello)];
    if s.linkDown && !s.closed {
      RunPair(cfg, n, [On(p, Hello)], On(p, Action.Close), On(p, Drop));
    }
  }

  /** A nickname that is too long ends a session that is not active yet. */
  lemma UnfitGreetingEnds(cfg: Config, h: Hub, p: nat, env: Envelope, now: int)
    requires p < |h.sessions| && h.sessions[p].key.Some? && !h.sessions[p].active && Unfit(cfg, env)
    ensures var n, g := Named(cfg, h, p, env), Handled(cfg, h, p, env, now);
            && |g.sessions| == |h.sessions| == |n.sessions|
            && (forall i | 0 <= i < |h.sessions| && i != p :: g.sessions[i] == h.sessions[i])
            && g.sessions[p] == n.sessions[p].(closed := true, dropDue := g.sessions[p].dropDue)
            && (!h.sessions[p].closed ==> !Current(g, p))
  {
    NicknameIsTaken(cfg, h, p, env);
    HandledFromNamed(cfg, h, p, env, now);
    var n := Named(cfg, h, p, env);
    assert TypeScript(cfg, h, p, env, now) == CloseScript(n, p) == [] + CloseScript(n, p);
    if !n.sessions[p].closed {
      RunPair(cfg, n, [], On(p, Action.Close), On(p, Drop));
    }
  }

  /** An inactive session is heard on HELLO only, an active one on JOIN, PART and the three kinds of content. */
  lemma OtherTypesAreIgnored(cfg: Config, h: Hub, p: nat, env: Envelope, now: int)
    requires p < |h.sessions| && h.sessions[p].key.Some?
    requires if h.sessions[p].active then env.typ !in {10, 12, 20, 21, 22} else env.typ != 1 && !Unfit(cfg, env)
    ensures Handled(cfg, h, p, env, now) == Named(cfg, h, p, env)
  {
    HandledFromNamed(cfg, h, p, env, now);
    assert TypeScript(cfg, h, p, env, now) == [];
  }

  // ---------------------------------------------------------------- JOIN and PART

  lemma ActiveRuns(cfg: Config, h: Hub, p: nat, env: Envelope, now: int)
    requires p < |h.sessions| && h.sessions[p].key.Some? && h.sessions[p].active
    ensures var n, g := Named(cfg, h, p, env), Handled(cfg, h, p, env, now);
            && OnlyChanges(h, n, p) && n.sessions[p].key == h.sessions[p].key && n.sessions[p].active
            && (env.typ == 10 ==> g == DoJoin(cfg, n, p, env.room))
            && (env.typ == 12 ==> g == DoPart(cfg, n, p, env.room))
            && (env.typ in {20, 21, 22} ==> g == DoRated(cfg, n, p, env, now))
  {
    NicknameIsTaken(cfg, h, p, env);
    HandledFromNamed(cfg, h, p, env, now);
    var n := Named(cfg, h, p, env);
    assert TypeScript(cfg, h, p, env, now) == TypeScript(cfg, n, p, env, now);
    TypeScriptRuns(cfg, n, p, env, now);
  }

  /** Every JOIN of an active session is answered, and the answer says what became of the two tables. */
  lemma JoinIsAnswered(cfg: Config, h: Hub, p: nat, env: Envelope, now: int)
    requires p < |h.sessions| && h.sessions[p].key.Some? && h.sessions[p].active && env.typ == 10
    ensures var n, g := Named(cfg, h, p, env), Handled(cfg, h, p, env, now);
            && OnlyChanges(h, n, p) && OnlyChanges(n.(rooms := g.rooms), g, p)
            && var s, room := n.sessions[p], NormalizeRoom(cfg.lower, env.room);
               var refusal := if room == [] then "missing room"
                              else if ByteLen(room) > cfg.maxRoomNameBytes then "room name too long"
                              else if room !in s.rooms && |s.rooms| >= cfg.maxRooms then "room limit exceeded" else "";
               var answer := if refusal == "" then Joined(room) else Refused(refusal);
               && g.sessions[p] == s.(rooms := if refusal == "" then s.rooms + {room} else s.rooms,
                                      outbox := if Open(s) then s.outbox + [answer] else s.outbox)
               && g.rooms == if refusal == "" && room !in s.rooms
                             then n.rooms[room := (if room in n.rooms then n.rooms[room] else {}) + {s.key.value}]
                             else n.rooms
  {
    ActiveRuns(cfg, h, p, env, now);
    JoinRuns(cfg, Named(cfg, h, p, env), p, env.room);
  }

  lemma JoinRuns(cfg: Config, n: Hub, p: nat, name: Str)
    requires p < |n.sessions| && n.sessions[p].key.Some?
    ensures var g, s, room := DoJoin(cfg, n, p, name), n.sessions[p], NormalizeRoom(cfg.lower, name);
            var refusal := if room == [] then "missing room"
                           else if ByteLen(room) > cfg.maxRoomNameBytes then "room name too long"
                           else if room !in s.rooms && |s.rooms| >= cfg.maxRooms then "room limit exceeded" else "";
            var answer := if refusal == "" then Joined(room) else Refused(refusal);
            && OnlyChanges(n.(rooms := g.rooms), g, p)
            && g.sessions[p] == s.(rooms := if refusal == "" then s.rooms + {room} else s.rooms,
                                   outbox := if Open(s) then s.outbox + [answer] else s.outbox)
            && g.rooms == if refusal == "" && room !in s.rooms
                          then n.rooms[room := (if room in n.rooms then n.rooms[room] else {}) + {s.key.value}]
                          else n.rooms
  {
    var s, room := n.sessions[p], NormalizeRoom(cfg.lower, name);
    if room in s.rooms {
      assert s.rooms + {room} == s.rooms;
    }
  }

  /** A PART from a room the session is in is answered and takes effect, any other is passed over. */
  lemma PartIsAnswered(cfg: Config, h: Hub, p: nat, env: Envelope, now: int)
    requires p < |h.sessions| && h.sessions[p].key.Some? && h.sessions[p].active && env.typ == 12
    ensures var n, g := Named(cfg, h, p, env), Handled(cfg, h, p, env, now);
            && OnlyChanges(h, n, p) && OnlyChanges(n.(rooms := g.rooms), g, p)
            && var s, room := n.sessions[p], NormalizeRoom(cfg.lower, env.room);
               && (room != [] && room in s.rooms ==>
                     && g.sessions[p] == s.(rooms := s.rooms - {room},
                                            outbox := if Open(s) then s.outbox + [Parted(room)] else s.outbox)
                     && (room in g.rooms ==> s.key.value !in g.rooms[room]))
               && (room == [] || room !in s.rooms ==> g == n)
  {
    ActiveRuns(cfg, h, p, env, now);
  }

  // ---------------------------------------------------------------- content

  /** Why a message is refused, in the words of the answer; the order is that of the tests. */
  function Reason(cfg: Config, s: Session, env: Envelope, now: int): string {
    var room := NormalizeRoom(cfg.lower, env.room);
    var recent := |RateLimiter.After(s.times, now - 60_000_000_000)|;
    if room == [] then "missing room"
    else if cfg.rateLimit > 0 && recent >= cfg.rateLimit then "Rate limit exceeded. Try again later."
    else if env.body == Some(OtherBody) then "invalid message body"
    else if env.body.Some? && env.body.value.TextBody? && ByteLen(env.body.value.text) > cfg.maxBodyBytes
    then "message body too large"
    else if env.body.Some? && env.body.value.RawBody? && |env.body.value.raw| > cfg.maxBodyBytes
    then "message body too large"
    else if room !in s.rooms then "not a member of room"
    else ""
  }

  lemma ReasonIsRefusal(cfg: Config, n: Hub, p: nat, env: Envelope, now: int)
    requires p < |n.sessions| && NormalizeRoom(cfg.lower, env.room) != []
    ensures var r, timed := Reason(cfg, n.sessions[p], env, now), Put(n, p, Timed(cfg, n.sessions[p], now));
            ContentRefusal(cfg, timed, p, env, RateLimiter.Admits(n.sessions[p].times, cfg.rateLimit, now)) ==
            if r == "" then None else Some(r)
  {}

  lemma RefusalRuns(cfg: Config, n: Hub, p: nat, env: Envelope, now: int)
    requires p < |n.sessions| && n.sessions[p].key.Some? && Reason(cfg, n.sessions[p], env, now) != ""
    ensures var g, s := DoRated(cfg, n, p, env, now), n.sessions[p];
            && OnlyChanges(n, g, p)
            && g.sessions[p] == s.(times := g.sessions[p].times,
                                   outbox := if Open(s) then s.outbox + [Refused(Reason(cfg, s, env, now))]
                                             else s.outbox)
  {
    if NormalizeRoom(cfg.lower, env.room) != [] {
      ReasonIsRefusal(cfg, n, p, env, now);
    }
  }

  lemma NicknameDoesNotMatter(cfg: Config, h: Hub, p: nat, env: Envelope, now: int)
    requires p < |h.sessions| && h.sessions[p].key.Some?
    ensures var n := Named(cfg, h, p, env);
            && OnlyChanges(h, n, p) && Reason(cfg, n.sessions[p], env, now) == Reason(cfg, h.sessions[p], env, now)
            && n.sessions[p].key == h.sessions[p].key
            && forall i | 0 <= i < |h.sessions| :: Current(n, i) == Current(h, i)
  {
    NicknameIsTaken(cfg, h, p, env);
  }

  /** A message that is refused is answered with the reason and reaches nobody. */
  lemma RefusedContentIsAnswered(cfg: Config, h: Hub, p: nat, env: Envelope, now: int)
    requires p < |h.sessions| && h.sessions[p].key.Some? && h.sessions[p].active && env.typ in {20, 21, 22}
    requires Reason(cfg, h.sessions[p], env, now) != ""
    ensures var n, g := Named(cfg, h, p, env), Handled(cfg, h, p, env, now);
            && OnlyChanges(h, n, p) && OnlyChanges(n, g, p)
            && var s := n.sessions[p];
               g.sessions[p] == s.(times := g.sessions[p].times,
                                   outbox := if Open(s) then s.outbox + [Refused(Reason(cfg, h.sessions[p], env, now))]
                                             else s.outbox)
  {
    ActiveRuns(cfg, h, p, env, now);
    NicknameDoesNotMatter(cfg, h, p, env, now);
    RefusalRuns(cfg, Named(cfg, h, p, env), p, env, now);
  }

  lemma NamedAgrees(cfg: Config, h: Hub, p: nat, env: Envelope)
    requires WellFormed(h) && Agree(h) && p < |h.sessions|
    ensures WellFormed(Named(cfg, h, p, env)) && Agree(Named(cfg, h, p, env))
  {
    if env.nick.Some? {
      var step := On(p, SetNick(env.nick.value));
      RunSingle(cfg, h, step);
      EveryStepKeepsWellFormed(cfg, h, step);
      GuardedStepKeepsAgree(cfg, h, step);
    }
  }

  /** The forwarded form of an envelope of session `s`. */
  predicate Forwards(cfg: Config, s: Session, env: Envelope, fwd: Envelope) {
    && fwd.typ == env.typ && fwd.msgId == env.msgId && fwd.timestamp == env.timestamp && fwd.body == env.body
    && s.key == Some(fwd.sender) && fwd.room == NormalizeRoom(cfg.lower, env.room)
    && (fwd.nick == if s.nick == [] then None else Some(s.nick))
  }

  lemma RelayRuns(cfg: Config, n: Hub, p: nat, env: Envelope, now: int)
    requires WellFormed(n) && Agree(n) && Current(n, p) && Reason(cfg, n.sessions[p], env, now) == ""
    ensures var g, room := DoRated(cfg, n, p, env, now), NormalizeRoom(cfg.lower, env.room);
            && |g.sessions| == |n.sessions| && g.peers == n.peers && g.rooms == n.rooms
            && g.sessions[p] == n.sessions[p].(times := g.sessions[p].times)
            && exists fwd: Envelope ::
                 && Forwards(cfg, n.sessions[p], env, fwd)
                 && forall i | 0 <= i < |n.sessions| && i != p ::
                      g.sessions[i] ==
                        if Current(n, i) && room in n.sessions[i].rooms && Open(n.sessions[i])
                        then n.sessions[i].(outbox := n.sessions[i].outbox + [Relayed(fwd)]) else n.sessions[i]
  {
    ReasonIsRefusal(cfg, n, p, env, now);
    assert ContentRefusal(cfg, n, p, env, RateLimiter.Admits(n.sessions[p].times, cfg.rateLimit, now)).None?;
    RelayReachesTheRoom(cfg, n, p, env, now);
    var room, g := NormalizeRoom(cfg.lower, env.room), DoRated(cfg, n, p, env, now);
    var fwd := Forwarded(n.sessions[p], room, env);
    assert Forwards(cfg, n.sessions[p], env, fwd);
  }

  /**
   A message that is not refused is queued, once and with the sender's registered identity, for every other
   registered session of the room whose link is open, and for nobody else.
   */
  lemma ContentIsRelayed(cfg: Config, h: Hub, p: nat, env: Envelope, now: int)
    requires WellFormed(h) && Agree(h) && Current(h, p) && h.sessions[p].active && env.typ in {20, 21, 22}
    requires Reason(cfg, h.sessions[p], env, now) == ""
    ensures var n, g := Named(cfg, h, p, env), Handled(cfg, h, p, env, now);
            var room := NormalizeRoom(cfg.lower, env.room);
            && OnlyChanges(h, n, p) && |g.sessions| == |h.sessions| && g.peers == h.peers && g.rooms == h.rooms
            && g.sessions[p] == n.sessions[p].(times := g.sessions[p].times)
            && exists fwd: Envelope ::
                 && Forwards(cfg, n.sessions[p], env, fwd)
                 && forall i | 0 <= i < |h.sessions| && i != p ::
                      g.sessions[i] ==
                        if Current(h, i) && room in h.sessions[i].rooms && Open(h.sessions[i])
                        then h.sessions[i].(outbox := h.sessions[i].outbox + [Relayed(fwd)]) else h.sessions[i]
  {
    ActiveRuns(cfg, h, p, env, now);
    NicknameDoesNotMatter(cfg, h, p, env, now);
    NamedAgrees(cfg, h, p, env);
    RelayRuns(cfg, Named(cfg, h, p, env), p, env, now);
  }

  // ---------------------------------------------------------------- identification

  /** A first identification registers the session, and the session it displaces ends closed. */
  lemma TakeOverEnds(cfg: Config, h: Hub, p: nat, hash: bytes)
    requires WellFormed(h) && p < |h.sessions| && h.sessions[p].key.None? && |hash| == 16
    ensures var t := RunFrom(cfg, h, TakeOverScript(h, p, hash));
            && |t.sessions| == |h.sessions| && t.peers == h.peers[hash := p]
            && t.sessions[p] == h.sessions[p].(key := Some(hash), pendingHello := None)
            && forall i | 0 <= i < |h.sessions| && i != p ::
                 t.sessions[i] == if hash in h.peers && h.peers[hash] == i then Ended(h.sessions[i]) else h.sessions[i]
  {
    var first := [On(p, Identify(hash))];
    RunSingle(cfg, h, first[0]);
    var d := Displaced(h, p, hash);
    assert RegisteredOk(h, hash);
    if d.Some? && !h.sessions[d.value].closed {
      RunPair(cfg, h, first, On(d.value, Action.Close), On(d.value, Drop));
      assert first + [On(d.value, Action.Close), On(d.value, Drop)] == TakeOverScript(h, p, hash);
    } else {
      assert first + [] == first;
    }
  }

  /** An identification acts once and for 16 bytes only, and hands the buffered HELLO on. */
  lemma IdentificationRuns(cfg: Config, h: Hub, p: nat, hash: bytes, now: int)
    requires WellFormed(h) && p < |h.sessions|
    ensures var g := RunFrom(cfg, h, IdentifyScript(cfg, h, p, hash, now));
            if |hash| != 16 || h.sessions[p].key.Some? then g == h
            else
              var t, pending := RunFrom(cfg, h, TakeOverScript(h, p, hash)), h.sessions[p].pendingHello;
              |t.sessions| == |h.sessions| && g == if pending.None? then t else Handled(cfg, t, p, pending.value, now)
  {
    if |hash| == 16 && h.sessions[p].key.None? {
      TakeOverEnds(cfg, h, p, hash);
      var taken := TakeOverScript(h, p, hash);
      var t, pending := RunFrom(cfg, h, taken), h.sessions[p].pendingHello;
      if pending.None? {
        assert taken + [] == taken;
      } else {
        RunConcat(cfg, h, taken, EnvelopeScript(cfg, t, p, pending.value, now));
      }
    }
  }

  /** A HELLO that came too early is answered once the link is identified. */
  lemma BufferedHelloIsAnswered(cfg: Config, h: Hub, p: nat, hash: bytes, now: int)
    requires WellFormed(h) && p < |h.sessions| && h.sessions[p].key.None? && |hash| == 16
    requires !h.sessions[p].active && Open(h.sessions[p])
    requires var e := h.sessions[p].pendingHello; e.Some? && e.value.typ == 1 && !Unfit(cfg, e.value)
    ensures var g, s := RunFrom(cfg, h, IdentifyScript(cfg, h, p, hash, now)), h.sessions[p];
            && |g.sessions| == |h.sessions| && g.peers == h.peers[hash := p]
            && g.sessions[p] == s.(key := Some(hash), pendingHello := None, active := true, nick := g.sessions[p].nick,
                                   outbox := s.outbox + [Welcome])
  {
    IdentificationRuns(cfg, h, p, hash, now);
    TakeOverEnds(cfg, h, p, hash);
    var t, env := RunFrom(cfg, h, TakeOverScript(h, p, hash)), h.sessions[p].pendingHello.value;
    HelloIsAnswered(cfg, t, p, env, now);
    NicknameIsTaken(cfg, t, p, env);
    assert h.sessions[p].outbox + [] == h.sessions[p].outbox;
  }

  lemma IdentifiedStays(cfg: Config, h: Hub, p: nat, hash: bytes, now: int)
    requires WellFormed(h) && p < |h.sessions|
    ensures p < |RunFrom(cfg, h, IdentifyScript(cfg, h, p, hash, now)).sessions|
  {
    IdentificationRuns(cfg, h, p, hash, now);
    if |hash| == 16 && h.sessions[p].key.None? && h.sessions[p].pendingHello.Some? {
      var t, env := RunFrom(cfg, h, TakeOverScript(h, p, hash)), h.sessions[p].pendingHello.value;
      SessionsStay(cfg, t, EnvelopeScript(cfg, t, p, env, now));
    }
  }

  lemma {:induction false} SessionsStay(cfg: Config, h: Hub, steps: seq<Step>)
    ensures |h.sessions| <= |RunFrom(cfg, h, steps).sessions|
  {
    if steps != [] {
      SessionsStay(cfg, h, steps[..|steps| - 1]);
      HubRate.TimesStep(cfg, RunFrom(cfg, h, steps[..|steps| - 1]), steps[|steps| - 1], 0);
    }
  }

  /** A packet of a session that nobody identified is kept if it is a HELLO; all others are handled by identity. */
  lemma PacketIsHandled(cfg: Config, h: Hub, p: nat, env: Envelope, remote: Option<bytes>, now: int)
    requires WellFormed(h) && p < |h.sessions|
    ensures var g, s := RunFrom(cfg, h, InboundScript(cfg, h, p, env, remote, now)), h.sessions[p];
            if s.key.None? && remote.None? then
              && OnlyChanges(h, g, p)
              && g.sessions[p] == s.(pendingHello := if env.typ == 1 then Some(env) else s.pendingHello)
            else
              var i := if remote.None? then h else RunFrom(cfg, h, IdentifyScript(cfg, h, p, remote.value, now));
              && p < |i.sessions|
              && g == if i.sessions[p].key.Some? then Handled(cfg, i, p, env, now) else i
  {
    if h.sessions[p].key.None? && remote.None? {
      RunSingle(cfg, h, On(p, Action.BufferHello(env)));
    } else {
      var first := if remote.None? then [] else IdentifyScript(cfg, h, p, remote.value, now);
      if remote.Some? {
        IdentifiedStays(cfg, h, p, remote.value, now);
      }
      var i := RunFrom(cfg, h, first);
      if i.sessions[p].key.Some? {
        RunConcat(cfg, h, first, EnvelopeScript(cfg, i, p, env, now));
      } else {
        assert first + [] == first;
      }
    }
  }
}
