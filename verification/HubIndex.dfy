/**
 What every run of the hub keeps. The two tables agree in every run in which a session that lost
 its registration joins and parts no more; the weaker facts below hold in every run whatever.
 */
module HubIndex {
  import opened Basics
  import opened Text
  import opened HubModel
  import RateLimiter

  predicate Listed(h: Hub, r: Str, k: Key) {
    r in h.rooms && k in h.rooms[r]
  }

  /** Some session identified as `k` has `r` in its own set. */
  predicate HeldBySome(h: Hub, r: Str, k: Key) {
    exists i | 0 <= i < |h.sessions| :: h.sessions[i].key == Some(k) && r in h.sessions[i].rooms
  }

  /** The session registered as `k` has `r` in its own set. */
  predicate HeldByCurrent(h: Hub, r: Str, k: Key) {
    k in h.peers && h.peers[k] < |h.sessions| && r in h.sessions[h.peers[k]].rooms
  }

  predicate RegisteredOk(h: Hub, k: Key) {
    k in h.peers ==> h.peers[k] < |h.sessions| && h.sessions[h.peers[k]].key == Some(k)
  }

  predicate SessionOk(sess: Session) {
    (sess.key.None? ==> sess.rooms == {} && !sess.active) && (sess.rooms != {} ==> sess.active)
  }

  /** Kept by every run, guarded or not. */
  ghost predicate WellFormed(h: Hub) {
    && (forall k :: RegisteredOk(h, k))
    && (forall i | 0 <= i < |h.sessions| :: SessionOk(h.sessions[i]))
    && (forall r | r in h.rooms :: h.rooms[r] != {})
    && (forall r, k | Listed(h, r, k) :: HeldBySome(h, r, k))
  }

  /** The room index and the sessions' own sets say the same. */
  ghost predicate Agree(h: Hub) {
    forall r, k :: Listed(h, r, k) <==> HeldByCurrent(h, r, k)
  }

  // ---------------------------------------------------------------- table lemmas

  lemma UnlistListed(h: Hub, rooms: map<Str, set<Key>>, key: Key, gone: set<Str>)
    requires rooms == Unlist(h.rooms, key, gone)
    ensures forall r, k :: Listed(h.(rooms := rooms), r, k) <==> Listed(h, r, k) && !(k == key && r in gone)
    ensures (forall r | r in h.rooms :: h.rooms[r] != {}) ==> forall r | r in rooms :: rooms[r] != {}
  {
    var g := h.(rooms := rooms);
    forall r, k
      ensures Listed(g, r, k) <==> Listed(h, r, k) && !(k == key && r in gone)
    {
      if r in h.rooms && r !in rooms {
        assert h.rooms[r] - {key} == {};
        assert k in h.rooms[r] ==> k in h.rooms[r] - {key} || k == key;
      }
    }
  }

  lemma EnlistListed(h: Hub, key: Key, room: Str)
    ensures var rooms := Enlist(h.rooms, key, room);
            && (forall r, k :: Listed(h.(rooms := rooms), r, k) <==> Listed(h, r, k) || (k == key && r == room))
            && ((forall r | r in h.rooms :: h.rooms[r] != {}) ==> forall r | r in rooms :: rooms[r] != {})
  {}

  /** Two states that differ in nothing the tables depend on. */
  predicate SameCore(h: Hub, g: Hub) {
    && |h.sessions| == |g.sessions| && h.peers == g.peers && h.rooms == g.rooms
    && forall i | 0 <= i < |h.sessions| :: SameMembership(h.sessions[i], g.sessions[i])
  }

  predicate SameMembership(a: Session, b: Session) {
    a.key == b.key && a.active == b.active && a.rooms == b.rooms
  }

  lemma SameCoreKeeps(h: Hub, g: Hub)
    requires SameCore(h, g)
    ensures WellFormed(h) ==> WellFormed(g)
    ensures Agree(h) ==> Agree(g)
  {
    assert forall r, k :: Listed(h, r, k) <==> Listed(g, r, k);
    assert forall r, k :: HeldByCurrent(h, r, k) <==> HeldByCurrent(g, r, k);
    assert forall k :: RegisteredOk(h, k) <==> RegisteredOk(g, k);
    forall r, k | HeldBySome(h, r, k)
      ensures HeldBySome(g, r, k)
    {
      var i :| 0 <= i < |h.sessions| && h.sessions[i].key == Some(k) && r in h.sessions[i].rooms;
      assert g.sessions[i].key == Some(k);
    }
  }

  /** The actions that leave the tables and the memberships as they are. */
  predicate Quiet(act: Action) {
    act.BufferHello? || act.Close? || act.SetNick? || act.Content? || act.Deliver? || act.LinkDown?
  }

  lemma ContentIsSameCore(cfg: Config, h: Hub, p: nat, env: Envelope, admitted: bool)
    requires p < |h.sessions| && h.sessions[p].key.Some?
    ensures SameCore(h, DoContent(cfg, h, p, env, admitted))
  {
    var g := DoContent(cfg, h, p, env, admitted);
    forall i | 0 <= i < |h.sessions|
      ensures SameMembership(h.sessions[i], g.sessions[i])
    {
    }
  }

  lemma SameCoreTwice(h: Hub, g: Hub, f: Hub)
    requires SameCore(h, g) && SameCore(g, f)
    ensures SameCore(h, f)
  {
    forall i | 0 <= i < |h.sessions|
      ensures SameMembership(h.sessions[i], f.sessions[i])
    {
      assert SameMembership(h.sessions[i], g.sessions[i]);
    }
  }

  lemma RatedIsSameCore(cfg: Config, h: Hub, p: nat, env: Envelope, now: int)
    requires p < |h.sessions| && h.sessions[p].key.Some?
    ensures SameCore(h, DoRated(cfg, h, p, env, now))
  {
    if NormalizeRoom(cfg.lower, env.room) != [] {
      var timed := Put(h, p, Timed(cfg, h.sessions[p], now));
      ContentIsSameCore(cfg, timed, p, env, RateLimiter.Admits(h.sessions[p].times, cfg.rateLimit, now));
      SameCoreTwice(h, timed, DoRated(cfg, h, p, env, now));
    }
  }

  /** All but one session stay as they are. */
  lemma PutIsSameCore(h: Hub, p: nat, sess: Session)
    requires p < |h.sessions| && SameMembership(h.sessions[p], sess)
    ensures SameCore(h, Put(h, p, sess))
  {}

  lemma QuietIsSameCore(cfg: Config, h: Hub, p: nat, act: Action)
    requires p < |h.sessions| && Quiet(act)
    ensures SameCore(h, Perform(cfg, h, p, act))
  {
    if act.Content? {
      if h.sessions[p].key.Some? && h.sessions[p].active {
        RatedIsSameCore(cfg, h, p, act.env, act.now);
      }
    } else {
      var g := Perform(cfg, h, p, act);
      assert g == Put(h, p, g.sessions[p]) by {
        assert h.sessions[p := h.sessions[p]] == h.sessions;
      }
      PutIsSameCore(h, p, g.sessions[p]);
    }
  }

  // ---------------------------------------------------------------- every step

  /** Every holder of a room is still one after a step in which no session loses a room or an identity. */
  lemma HoldersRemain(h: Hub, g: Hub, r: Str, k: Key)
    requires HeldBySome(h, r, k) && |h.sessions| <= |g.sessions|
    requires forall i | 0 <= i < |h.sessions| ::
               h.sessions[i].key == Some(k) ==> g.sessions[i].key == Some(k)
                                                && (r in h.sessions[i].rooms ==> r in g.sessions[i].rooms)
    ensures HeldBySome(g, r, k)
  {
    var i :| 0 <= i < |h.sessions| && h.sessions[i].key == Some(k) && r in h.sessions[i].rooms;
    assert g.sessions[i].key == Some(k) && r in g.sessions[i].rooms;
  }

  lemma IdentifyKeeps(h: Hub, p: nat, hash: bytes)
    requires WellFormed(h) && p < |h.sessions|
    ensures WellFormed(DoIdentify(h, p, hash))
    ensures Agree(h) ==> Agree(DoIdentify(h, p, hash))
  {
    var g := DoIdentify(h, p, hash);
    var sess := h.sessions[p];
    if |hash| == IDENTITY_LENGTH && sess.key.None? {
      assert RegisteredOk(h, hash) && SessionOk(sess);
      if hash in h.peers && h.peers[hash] != p {
        UnlistListed(h, g.rooms, hash, h.sessions[h.peers[hash]].rooms);
      }
      forall k
        ensures RegisteredOk(g, k)
      {
        assert RegisteredOk(h, k);
      }
      forall r, k
        ensures Listed(g, r, k) ==> HeldBySome(g, r, k)
        ensures Agree(h) ==> (Listed(g, r, k) <==> HeldByCurrent(g, r, k))
      {
        assert RegisteredOk(h, k);
        assert Listed(g, r, k) ==> Listed(h, r, k);
        assert Agree(h) ==> (Listed(h, r, k) <==> HeldByCurrent(h, r, k));
        if Listed(g, r, k) {
          HoldersRemain(h, g, r, k);
        }
      }
    }
  }

  lemma DropKeeps(h: Hub, p: nat)
    requires WellFormed(h) && p < |h.sessions|
    ensures WellFormed(DoDrop(h, p))
    ensures Agree(h) ==> Agree(DoDrop(h, p))
  {
    var g := DropPeerIf(h, p);
    if Current(h, p) {
      var key := h.sessions[p].key.value;
      UnlistListed(h, g.rooms, key, h.sessions[p].rooms);
      forall k
        ensures RegisteredOk(g, k)
      {
        assert RegisteredOk(h, k);
      }
      forall r, k
        ensures Listed(g, r, k) ==> HeldBySome(g, r, k)
        ensures Agree(h) ==> (Listed(g, r, k) <==> HeldByCurrent(g, r, k))
      {
        assert Listed(g, r, k) ==> Listed(h, r, k);
        assert Agree(h) ==> (Listed(h, r, k) <==> HeldByCurrent(h, r, k));
        if Listed(g, r, k) {
          HoldersRemain(h, g, r, k);
        }
      }
    }
    if h.sessions[p].dropDue {
      SameCoreKeeps(g, DoDrop(h, p));
    }
  }

  lemma HelloKeeps(h: Hub, p: nat)
    requires WellFormed(h) && p < |h.sessions| && h.sessions[p].key.Some?
    ensures WellFormed(DoHello(h, p))
    ensures Agree(h) ==> Agree(DoHello(h, p))
  {
    var g := DoHello(h, p);
    assert forall k :: RegisteredOk(h, k) <==> RegisteredOk(g, k);
    assert forall r, k :: Listed(h, r, k) <==> Listed(g, r, k);
    assert forall r, k :: HeldByCurrent(h, r, k) <==> HeldByCurrent(g, r, k);
    forall r, k | Listed(g, r, k)
      ensures HeldBySome(g, r, k)
    {
      HoldersRemain(h, g, r, k);
    }
  }

  /** The room a JOIN adds, if it adds one. */
  predicate JoinAdds(cfg: Config, h: Hub, p: nat, name: Str) {
    var room := NormalizeRoom(cfg.lower, name);
    p < |h.sessions| && h.sessions[p].key.Some? && h.sessions[p].active && room != []
    && ByteLen(room) <= cfg.maxRoomNameBytes && room !in h.sessions[p].rooms && |h.sessions[p].rooms| < cfg.maxRooms
  }

  /** The room a PART takes away, if it takes one. */
  predicate PartRemoves(cfg: Config, h: Hub, p: nat, name: Str) {
    var room := NormalizeRoom(cfg.lower, name);
    p < |h.sessions| && h.sessions[p].key.Some? && h.sessions[p].active && room != [] && room in h.sessions[p].rooms
  }

  lemma JoinTables(cfg: Config, h: Hub, p: nat, name: Str)
    requires JoinAdds(cfg, h, p, name)
    ensures var g := DoJoin(cfg, h, p, name);
            var room := NormalizeRoom(cfg.lower, name);
            var key := h.sessions[p].key.value;
            && (forall r, k :: Listed(g, r, k) <==> Listed(h, r, k) || (k == key && r == room))
            && (forall r, k :: HeldByCurrent(g, r, k) <==>
                                 HeldByCurrent(h, r, k) || (k in h.peers && h.peers[k] == p && r == room))
            && ((forall r | r in h.rooms :: h.rooms[r] != {}) ==> forall r | r in g.rooms :: g.rooms[r] != {})
  {
    EnlistListed(h, h.sessions[p].key.value, NormalizeRoom(cfg.lower, name));
    var g := DoJoin(cfg, h, p, name);
    var g' := h.(rooms := g.rooms);
    assert forall r, k :: Listed(g, r, k) <==> Listed(g', r, k);
  }

  lemma PartTables(cfg: Config, h: Hub, p: nat, name: Str)
    requires PartRemoves(cfg, h, p, name)
    ensures var g := DoPart(cfg, h, p, name);
            var room := NormalizeRoom(cfg.lower, name);
            var key := h.sessions[p].key.value;
            && (forall r, k :: Listed(g, r, k) <==> Listed(h, r, k) && !(k == key && r == room))
            && (forall r, k :: HeldByCurrent(g, r, k) <==>
                                 HeldByCurrent(h, r, k) && !(h.peers[k] == p && r == room))
            && ((forall r | r in h.rooms :: h.rooms[r] != {}) ==> forall r | r in g.rooms :: g.rooms[r] != {})
  {
    var g := DoPart(cfg, h, p, name);
    var g' := h.(rooms := g.rooms);
    UnlistListed(h, g.rooms, h.sessions[p].key.value, {NormalizeRoom(cfg.lower, name)});
    assert forall r, k :: Listed(g, r, k) <==> Listed(g', r, k);
  }

  lemma JoinKeepsWellFormed(cfg: Config, h: Hub, p: nat, name: Str)
    requires WellFormed(h) && JoinAdds(cfg, h, p, name)
    ensures WellFormed(DoJoin(cfg, h, p, name))
  {
    var g := DoJoin(cfg, h, p, name);
    var room := NormalizeRoom(cfg.lower, name);
    JoinTables(cfg, h, p, name);
    assert forall k :: RegisteredOk(h, k) <==> RegisteredOk(g, k);
    forall r, k | Listed(g, r, k)
      ensures HeldBySome(g, r, k)
    {
      if k == h.sessions[p].key.value && r == room {
        assert g.sessions[p].key == Some(k) && r in g.sessions[p].rooms;
      } else {
        HoldersRemain(h, g, r, k);
      }
    }
  }

  lemma PartKeepsWellFormed(cfg: Config, h: Hub, p: nat, name: Str)
    requires WellFormed(h) && PartRemoves(cfg, h, p, name)
    ensures WellFormed(DoPart(cfg, h, p, name))
  {
    var g := DoPart(cfg, h, p, name);
    PartTables(cfg, h, p, name);
    assert forall k :: RegisteredOk(h, k) <==> RegisteredOk(g, k);
    forall r, k | Listed(g, r, k)
      ensures HeldBySome(g, r, k)
    {
      HoldersRemain(h, g, r, k);
    }
  }

  /** From an agreeing state, a JOIN keeps the tables in agreement exactly under this condition. */
  lemma JoinAgreesIff(cfg: Config, h: Hub, p: nat, name: Str)
    requires WellFormed(h) && Agree(h) && p < |h.sessions|
    ensures Agree(Perform(cfg, h, p, Join(name))) <==>
              || !JoinAdds(cfg, h, p, name)
              || Current(h, p)
              || HeldByCurrent(h, NormalizeRoom(cfg.lower, name), h.sessions[p].key.value)
  {
    var g := Perform(cfg, h, p, Join(name));
    var room := NormalizeRoom(cfg.lower, name);
    if JoinAdds(cfg, h, p, name) {
      JoinTables(cfg, h, p, name);
      var key := h.sessions[p].key.value;
      assert forall k :: RegisteredOk(h, k);
      assert RegisteredOk(h, key);
      assert Listed(g, room, key);
      if Current(h, p) || HeldByCurrent(h, room, key) {
        forall r, k
          ensures Listed(g, r, k) <==> HeldByCurrent(g, r, k)
        {
          assert RegisteredOk(h, k);
          assert Listed(h, r, k) <==> HeldByCurrent(h, r, k);
        }
      } else {
        assert !HeldByCurrent(g, room, key);
      }
    } else {
      assert SameCore(h, g);
      SameCoreKeeps(h, g);
    }
  }

  /** From an agreeing state, a PART keeps the tables in agreement exactly under this condition. */
  lemma PartAgreesIff(cfg: Config, h: Hub, p: nat, name: Str)
    requires WellFormed(h) && Agree(h) && p < |h.sessions|
    ensures Agree(Perform(cfg, h, p, Part(name))) <==>
              || !PartRemoves(cfg, h, p, name)
              || Current(h, p)
              || !HeldByCurrent(h, NormalizeRoom(cfg.lower, name), h.sessions[p].key.value)
  {
    var g := Perform(cfg, h, p, Part(name));
    var room := NormalizeRoom(cfg.lower, name);
    if PartRemoves(cfg, h, p, name) {
      PartTables(cfg, h, p, name);
      var key := h.sessions[p].key.value;
      assert RegisteredOk(h, key);
      assert !Listed(g, room, key);
      if Current(h, p) || !HeldByCurrent(h, room, key) {
        forall r, k
          ensures Listed(g, r, k) <==> HeldByCurrent(g, r, k)
        {
          assert RegisteredOk(h, k);
          assert Listed(h, r, k) <==> HeldByCurrent(h, r, k);
        }
      } else {
        assert HeldByCurrent(g, room, key);
      }
    } else {
      assert g == h;
    }
  }

  lemma AcceptKeeps(h: Hub)
    requires WellFormed(h)
    ensures var g := h.(sessions := h.sessions + [FRESH_SESSION]);
            WellFormed(g) && (Agree(h) ==> Agree(g))
  {
    var g := h.(sessions := h.sessions + [FRESH_SESSION]);
    forall k
      ensures RegisteredOk(g, k)
    {
      assert RegisteredOk(h, k);
    }
    forall r, k
      ensures Listed(g, r, k) ==> HeldBySome(g, r, k)
      ensures Agree(h) ==> (Listed(g, r, k) <==> HeldByCurrent(g, r, k))
    {
      assert RegisteredOk(h, k);
      assert Listed(g, r, k) <==> Listed(h, r, k);
      assert HeldByCurrent(g, r, k) <==> HeldByCurrent(h, r, k);
      if Listed(g, r, k) {
        HoldersRemain(h, g, r, k);
      }
    }
  }

  /** No step of any session, current or not, breaks these facts. */
  lemma EveryStepKeepsWellFormed(cfg: Config, h: Hub, step: Step)
    requires WellFormed(h)
    ensures WellFormed(Exec(cfg, h, step))
  {
    match step
    case Accept => AcceptKeeps(h);
    case CloseHub =>
    case On(p, act) =>
      if p < |h.sessions| {
        var g := Perform(cfg, h, p, act);
        match act
        case Identify(hash) => IdentifyKeeps(h, p, hash);
        case Drop => DropKeeps(h, p);
        case Hello =>
          if h.sessions[p].key.Some? && !h.sessions[p].active {
            HelloKeeps(h, p);
          }
        case Join(name) =>
          if JoinAdds(cfg, h, p, name) {
            JoinKeepsWellFormed(cfg, h, p, name);
          } else {
            assert SameCore(h, g);
            SameCoreKeeps(h, g);
          }
        case Part(name) =>
          if PartRemoves(cfg, h, p, name) {
            PartKeepsWellFormed(cfg, h, p, name);
          }
        case _ =>
          QuietIsSameCore(cfg, h, p, act);
          SameCoreKeeps(h, g);
      }
  }

  lemma GuardedStepKeepsAgree(cfg: Config, h: Hub, step: Step)
    requires WellFormed(h) && Agree(h) && Guarded(h, step)
    ensures Agree(Exec(cfg, h, step))
  {
    match step
    case Accept => AcceptKeeps(h);
    case CloseHub =>
    case On(p, act) =>
      if p < |h.sessions| {
        match act
        case Identify(hash) => IdentifyKeeps(h, p, hash);
        case Drop => DropKeeps(h, p);
        case Hello =>
          if h.sessions[p].key.Some? && !h.sessions[p].active {
            HelloKeeps(h, p);
          }
        case Join(name) => JoinAgreesIff(cfg, h, p, name);
        case Part(name) => PartAgreesIff(cfg, h, p, name);
        case _ =>
          QuietIsSameCore(cfg, h, p, act);
          SameCoreKeeps(h, Perform(cfg, h, p, act));
      }
  }

  // ---------------------------------------------------------------- whole runs

  /** In every run at all: registrations are sound, no room is empty, members of rooms are active. */
  lemma {:induction false} EveryRunIsWellFormed(cfg: Config, steps: seq<Step>)
    ensures WellFormed(Run(cfg, steps))
  {
    if steps != [] {
      EveryRunIsWellFormed(cfg, steps[..|steps| - 1]);
      EveryStepKeepsWellFormed(cfg, Run(cfg, steps[..|steps| - 1]), steps[|steps| - 1]);
    }
  }

  /** In every guarded run the room index and the sessions' own sets agree. */
  lemma {:induction false} GuardedRunsAgree(cfg: Config, steps: seq<Step>)
    requires GuardedRun(cfg, steps)
    ensures Agree(Run(cfg, steps))
  {
    if steps != [] {
      var before := steps[..|steps| - 1];
      assert forall i | 0 <= i < |before| :: before[..i] == steps[..i] && before[i] == steps[i];
      GuardedRunsAgree(cfg, before);
      EveryRunIsWellFormed(cfg, before);
      GuardedStepKeepsAgree(cfg, Run(cfg, before), steps[|steps| - 1]);
    }
  }
}
