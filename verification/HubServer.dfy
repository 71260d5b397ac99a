/**
 The hub as pkg/rrc/hub.go and session.go write it: objects whose fields are updated in place.
 Each method is proved to take exactly the step of HubModel that its section stands for.
 */
module HubServer {
  import opened Basics
  import opened Text
  import opened HubModel
  import RateLimiter

  /** A hubPeer together with its session and the link queue towards the client. */
  class HubPeer {
    ghost const id: nat
    var peerHash: Option<Key>
    var active: bool
    var rooms: set<Str>
    var nick: Str
    var pendingHello: Option<Envelope>
    var closed: bool
    var outbox: seq<HubMessage>
    /** The state of the link, which the transport sets. */
    var linkDown: bool
    var msgTimes: seq<int>
    ghost var dropDue: bool
    ghost var mirror: set<Str>

    constructor (ghost id: nat)
      ensures this.id == id && View() == FRESH_SESSION
    {
      this.id := id;
      peerHash, active, rooms, nick := None, false, {}, [];
      pendingHello, closed, outbox := None, false, [];
      linkDown, msgTimes := false, [];
      dropDue, mirror := false, {};
    }

    ghost function View(): Session
      reads this
    {
      Session(peerHash, active, rooms, nick, pendingHello, closed, dropDue, outbox, mirror,
              linkDown, msgTimes)
    }

    /** session.setNick */
    method SetNick(name: Str)
      modifies this`nick
      ensures nick == Sanitized(name)
    {
      nick := SanitizeNick(name);
    }

    /** session.sendEnvelope: a closed session and a link that is not active refuse. */
    method SendMessage(m: HubMessage) returns (ok: bool)
      modifies this`outbox
      ensures View() == Send(old(View()), m) && ok == !(closed || linkDown)
      ensures outbox == if closed || linkDown then old(outbox) else old(outbox) + [m]
    {
      ok := !closed && !linkDown;
      if ok {
        outbox := outbox + [m];
      }
    }

    /** allowRate, on the times as a value; RateLimiter.MessageTimes has them in place. */
    method AllowRate(cfg: Config, now: int) returns (ok: bool)
      modifies this`msgTimes
      ensures View() == Timed(cfg, old(View()), now)
      ensures ok == RateLimiter.Admits(old(msgTimes), cfg.rateLimit, now)
    {
      if cfg.rateLimit == 0 {
        return true;
      }
      msgTimes := RateLimiter.After(msgTimes, now - RateLimiter.MINUTE);
      ok := |msgTimes| < cfg.rateLimit;
      if ok {
        msgTimes := msgTimes + [now];
      }
    }
  }

  /** What session.close makes of a session that is in no table. */
  function Ended(was: Session): Session {
    if was.closed then was else was.(closed := true, dropDue := false)
  }

  ghost function Ids(ps: seq<HubPeer>): (r: seq<nat>)
    ensures |r| == |ps| && forall i | 0 <= i < |ps| :: r[i] == ps[i].id
  {
    seq(|ps|, i requires 0 <= i < |ps| => ps[i].id)
  }

  class HubServer {
    const cfg: Config
    var peers: map<Key, HubPeer>
    var rooms: map<Str, set<Key>>
    ghost var all: seq<HubPeer>

    ghost predicate Valid()
      reads this, all
    {
      && (forall i | 0 <= i < |all| :: all[i].id == i)
      && (forall k | k in peers :: peers[k] in all && peers[k].peerHash == Some(k))
    }

    ghost function View(): Hub
      reads this, all
    {
      Hub(seq(|all|, i requires 0 <= i < |all| reads this, all => all[i].View()),
          map k | k in peers :: peers[k].id, rooms)
    }

    constructor (cfg: Config)
      ensures Valid() && View() == EMPTY_HUB && this.cfg == cfg
    {
      this.cfg := cfg;
      peers, rooms, all := map[], map[], [];
    }

    /** acceptLink up to the callbacks. */
    method AcceptLink() returns (p: HubPeer)
      requires Valid()
      modifies this`all
      ensures Valid() && fresh(p) && all == old(all) + [p]
      ensures View() == Exec(cfg, old(View()), Accept)
    {
      p := new HubPeer(|all|);
      all := all + [p];
      assert View().sessions == old(View()).sessions + [FRESH_SESSION];
    }

    /** The loop that both `register` and dropPeerIf run over a session's rooms. */
    method Delist(key: Key, gone: set<Str>)
      modifies this`rooms
      ensures rooms == Unlist(old(rooms), key, gone)
    {
      var todo := gone;
      assert rooms == Unlist(rooms, key, gone - todo);
      while todo != {}
        invariant todo <= gone
        invariant rooms == Unlist(old(rooms), key, gone - todo)
        decreases todo
      {
        var room :| room in todo;
        if room in rooms {
          var members := rooms[room] - {key};
          rooms := if members == {} then rooms - {room} else rooms[room := members];
        }
        todo := todo - {room};
      }
      assert gone - todo == gone;
    }

    /** Unlists the session that holds `hash` now, if that is another one. */
    method Displace(p: HubPeer, hash: bytes) returns (displaced: Option<HubPeer>)
      requires Valid() && p in all
      modifies this`rooms
      ensures Valid()
      ensures match displaced
              case Some(d) => d in all && d != p && Displaced(old(View()), p.id, hash) == Some(d.id)
                              && rooms == Unlist(old(rooms), hash, d.rooms)
              case None => Displaced(old(View()), p.id, hash).None? && rooms == old(rooms)
    {
      displaced := None;
      if hash in peers && peers[hash] != p {
        displaced := Some(peers[hash]);
        assert View().peers[hash] == displaced.value.id;
        Delist(hash, displaced.value.rooms);
      }
    }

    /** Writes the registration itself. */
    method Enter(p: HubPeer, hash: bytes)
      requires Valid() && p in all
      requires forall k | k in peers && peers[k] == p :: k == hash
      modifies this`peers, p`peerHash, p`pendingHello
      ensures Valid()
      ensures var h := old(View());
              View() == Hub(h.sessions[p.id := old(p.View()).(key := Some(hash), pendingHello := None)],
                            h.peers[hash := p.id], h.rooms)
    {
      ghost var before := View();
      p.peerHash := Some(hash);
      peers := peers[hash := p];
      p.pendingHello := None;
      assert View().sessions == before.sessions[p.id := old(p.View()).(key := Some(hash), pendingHello := None)];
      assert View().peers == before.peers[hash := p.id];
    }

    /** The critical section of `register`; it hands back the session it displaced. */
    method Register(p: HubPeer, hash: bytes) returns (displaced: Option<HubPeer>)
      requires Valid() && p in all
      modifies this`peers, this`rooms, p`peerHash, p`pendingHello
      ensures Valid() && View() == DoIdentify(old(View()), p.id, hash)
      ensures old(p.peerHash).None? && |hash| == IDENTITY_LENGTH ==>
                match displaced
                case Some(d) => d in all && d != p && Displaced(old(View()), p.id, hash) == Some(d.id)
                case None => Displaced(old(View()), p.id, hash).None?
    {
      displaced := None;
      ghost var before := View();
      assert before.sessions[p.id] == p.View();
      if |hash| != IDENTITY_LENGTH || p.peerHash.Some? {
        return;
      }
      displaced := Displace(p, hash);
      assert displaced.Some? ==> before.sessions[displaced.value.id].rooms == displaced.value.rooms;
      assert View() == before.(rooms := rooms);
      Enter(p, hash);
    }

    /** dropPeerIf */
    method DropIf(p: HubPeer)
      requires Valid() && p in all
      modifies this`peers, this`rooms
      ensures Valid() && View() == DropPeerIf(old(View()), p.id)
    {
      ghost var before := View();
      assert before.sessions[p.id] == p.View();
      if p.peerHash.Some? && p.peerHash.value in peers && peers[p.peerHash.value] == p {
        peers := peers - {p.peerHash.value};
        Delist(p.peerHash.value, p.rooms);
        assert View().sessions == before.sessions;
        assert View().peers == before.peers - {p.peerHash.value};
      }
    }

    /** The part of session.close that records the close. */
    method MarkClosed(p: HubPeer)
      requires Valid() && p in all && !p.closed
      modifies p`closed, p`dropDue
      ensures Valid() && View() == DoClose(old(View()), p.id) && p.dropDue
    {
      ghost var before := View();
      assert before.sessions[p.id] == p.View();
      p.closed, p.dropDue := true, true;
      assert View().sessions == DoClose(before, p.id).sessions;
    }

    /** The callback that session.close runs. */
    method RunDrop(p: HubPeer)
      requires Valid() && p in all && p.dropDue
      modifies this`peers, this`rooms, p`dropDue
      ensures Valid() && View() == DoDrop(old(View()), p.id)
    {
      ghost var before := View();
      assert before.sessions[p.id] == p.View();
      DropIf(p);
      p.dropDue := false;
      assert View().sessions == DoDrop(before, p.id).sessions;
    }

    /** session.close: it records the close once and then runs the callback. */
    method CloseSession(p: HubPeer)
      requires Valid() && p in all
      modifies this`peers, this`rooms, p`closed, p`dropDue
      ensures Valid()
      ensures View() == if old(p.closed) then old(View()) else DoDrop(DoClose(old(View()), p.id), p.id)
    {
      if !p.closed {
        MarkClosed(p);
        RunDrop(p);
      }
    }

    /** applyInboundNick, with the refusal that handlePeer sends. */
    method ApplyInboundNick(p: HubPeer, nick: Str) returns (tooLong: bool)
      requires Valid() && p in all
      modifies p`nick, p`outbox
      ensures Valid() && tooLong == NickTooLong(cfg, nick)
      ensures View() == DoSetNick(cfg, old(View()), p.id, nick)
    {
      ghost var before := View();
      assert before.sessions[p.id] == p.View();
      var clean := SanitizeNick(nick);
      tooLong := false;
      if clean == [] {
        return;
      }
      if ByteLen(clean) > cfg.maxNickBytes {
        tooLong := true;
        var _ := p.SendMessage(Refused("nickname too long"));
      } else {
        p.SetNick(clean);
      }
      assert View().sessions == DoSetNick(cfg, before, p.id, nick).sessions;
    }

    method Reply(p: HubPeer, m: HubMessage)
      requires Valid() && p in all
      modifies p`outbox
      ensures Valid() && View() == SendTo(old(View()), p.id, m)
    {
      ghost var before := View();
      assert before.sessions[p.id] == p.View();
      var _ := p.SendMessage(m);
      assert View().sessions == SendTo(before, p.id, m).sessions;
    }

    /** The part of onHello up to the WELCOME. */
    method Greet(p: HubPeer) returns (ok: bool)
      requires Valid() && p in all
      modifies p`active, p`outbox
      ensures Valid() && View() == DoHello(old(View()), p.id)
      ensures ok == !(p.closed || p.linkDown)
    {
      ghost var before := View();
      assert before.sessions[p.id] == p.View();
      p.active := true;
      ok := p.SendMessage(Welcome);
      assert View().sessions == DoHello(before, p.id).sessions;
    }

    /** onHello: a session that cannot be welcomed is closed. */
    method OnHello(p: HubPeer)
      requires Valid() && p in all && p.peerHash.Some? && !p.active
      modifies this`peers, this`rooms, p`active, p`outbox, p`closed, p`dropDue
      ensures Valid()
      ensures View() == RunFrom(cfg, old(View()), HelloScript(old(View()), p.id))
    {
      ghost var before := View();
      ghost var first := [On(p.id, Hello)];
      assert before.sessions[p.id] == p.View();
      RunSingle(cfg, before, first[0]);
      var ok := Greet(p);
      if !ok {
        CloseAfter(before, first, p);
      }
      assert first + [] == first;
    }

    /** The session's own half of a membership. */
    method TakeRoom(p: HubPeer, room: Str)
      requires Valid() && p in all
      modifies p`rooms
      ensures Valid() && View() == Put(old(View()), p.id, old(p.View()).(rooms := old(p.rooms) + {room}))
    {
      ghost var before := View();
      p.rooms := p.rooms + {room};
      assert View().sessions == before.sessions[p.id := p.View()];
    }

    /** The index's half. */
    method EnlistKey(key: Key, room: Str)
      requires Valid()
      modifies this`rooms
      ensures Valid() && View() == old(View()).(rooms := Enlist(old(rooms), key, room))
    {
      ghost var before := View();
      if room !in rooms {
        rooms := rooms[room := {}];
      }
      rooms := rooms[room := rooms[room] + {key}];
      assert View().sessions == before.sessions;
      assert rooms == Enlist(before.rooms, key, room);
    }

    /** The part of onJoin that adds a membership to both tables. */
    method EnterRoom(p: HubPeer, room: Str)
      requires Valid() && p in all && p.peerHash.Some?
      modifies this`rooms, p`rooms, p`outbox
      ensures Valid()
      ensures var h := old(View());
              View() == Put(h, p.id, Send(old(p.View()).(rooms := old(p.rooms) + {room}), Joined(room)))
                          .(rooms := Enlist(h.rooms, p.peerHash.value, room))
    {
      TakeRoom(p, room);
      EnlistKey(p.peerHash.value, room);
      Reply(p, Joined(room));
    }

    method OnJoin(p: HubPeer, name: Str)
      requires Valid() && p in all && p.peerHash.Some?
      modifies this`rooms, p`rooms, p`outbox
      ensures Valid() && View() == DoJoin(cfg, old(View()), p.id, name)
    {
      assert View().sessions[p.id] == p.View();
      var room := NormalizeRoom(cfg.lower, name);
      if room == [] {
        Reply(p, Refused("missing room"));
      } else if ByteLen(room) > cfg.maxRoomNameBytes {
        Reply(p, Refused("room name too long"));
      } else if room in p.rooms {
        Reply(p, Joined(room));
      } else if |p.rooms| >= cfg.maxRooms {
        Reply(p, Refused("room limit exceeded"));
      } else {
        EnterRoom(p, room);
      }
    }

    method OnPart(p: HubPeer, name: Str)
      requires Valid() && p in all && p.peerHash.Some?
      modifies this`rooms, p`rooms, p`outbox
      ensures Valid() && View() == DoPart(cfg, old(View()), p.id, name)
    {
      ghost var before := View();
      assert before.sessions[p.id] == p.View();
      var room := NormalizeRoom(cfg.lower, name);
      if room == [] || room !in p.rooms {
        return;
      }
      p.rooms := p.rooms - {room};
      Delist(p.peerHash.value, {room});
      var _ := p.SendMessage(Parted(room));
      assert View().sessions == DoPart(cfg, before, p.id, name).sessions;
    }

    /** The loop over the room index that picks the sessions to relay to, each once. */
    method CollectMembers(p: HubPeer, room: Str) returns (members: seq<HubPeer>)
      requires Valid() && p in all && p.peerHash.Some?
      ensures forall i, j | 0 <= i < j < |members| :: members[i] != members[j]
      ensures forall q :: q in members <==> q in all && q.id in Recipients(View(), p.id, room)
    {
      members := [];
      var todo := if room in rooms then rooms[room] else {};
      ghost var h := View();
      ghost var index := todo;
      while todo != {}
        invariant todo <= index
        invariant forall i, j | 0 <= i < j < |members| :: members[i] != members[j]
        invariant forall q :: q in members <==>
                                exists k :: k in index - todo && k != p.peerHash.value
                                            && k in peers && peers[k] == q && q.active
        decreases todo
      {
        var k :| k in todo;
        todo := todo - {k};
        if k != p.peerHash.value && k in peers && peers[k].active {
          assert peers[k] !in members;
          members := members + [peers[k]];
        }
      }
      forall q
        ensures q in members <==> q in all && q.id in Recipients(h, p.id, room)
      {
        MemberIsRecipient(q, p, room, h, members);
      }
    }

    lemma MemberIsRecipient(q: HubPeer, p: HubPeer, room: Str, h: Hub, members: seq<HubPeer>)
      requires Valid() && p in all && p.peerHash.Some? && h == View()
      requires q in members <==>
                 exists k :: k in (if room in rooms then rooms[room] else {}) && k != p.peerHash.value && k in peers
                             && peers[k] == q && q.active
      ensures q in members <==> q in all && q.id in Recipients(h, p.id, room)
    {
      assert h.sessions[p.id] == p.View();
      if q in members {
        var k :| k in (if room in rooms then rooms[room] else {}) && k != p.peerHash.value && k in peers
                 && peers[k] == q && q.active;
        assert h.peers[k] == q.id && h.sessions[q.id] == q.View();
      }
      if q in all && q.id in Recipients(h, p.id, room) {
        var k :| k in h.rooms[room] && k != h.sessions[p.id].key.value && k in h.peers
                 && h.peers[k] == q.id && h.sessions[h.peers[k]].active;
        assert peers[k] in all && peers[k].id == q.id;
        assert h.sessions[q.id] == q.View();
      }
    }

    /** The loop that sends the forwarded envelope. */
    method SendAll(members: seq<HubPeer>, m: HubMessage)
      requires Valid() && (forall q | q in members :: q in all)
      requires forall i, j | 0 <= i < j < |members| :: members[i] != members[j]
      modifies (set q | q in members)`outbox
      ensures Valid()
      ensures forall q | q in all :: q.View() == if q in members then Send(old(q.View()), m) else old(q.View())
    {
      for n := 0 to |members|
        invariant forall q | q in all :: q.View() == if q in members[..n] then Send(old(q.View()), m) else old(q.View())
      {
        var _ := members[n].SendMessage(m);
        assert members[..n + 1] == members[..n] + [members[n]];
      }
      assert members[..|members|] == members;
    }

    /** The same as one change of the whole hub. */
    method SendToIds(members: seq<HubPeer>, m: HubMessage, ghost to: set<nat>)
      requires Valid() && (forall q | q in all :: q in members <==> q.id in to) && (forall q | q in members :: q in all)
      requires forall i, j | 0 <= i < j < |members| :: members[i] != members[j]
      modifies all`outbox
      ensures Valid() && View() == old(View()).(sessions := Broadcast(old(View()).sessions, to, m))
    {
      ghost var before := View();
      SendAll(members, m);
      BroadcastDone(before, to, m);
    }

    lemma BroadcastDone(before: Hub, to: set<nat>, m: HubMessage)
      requires Valid() && |before.sessions| == |all| && before.peers == View().peers && before.rooms == rooms
      requires forall q | q in all ::
                 && q.id < |all|
                 && q.View() == if q.id in to then Send(before.sessions[q.id], m) else before.sessions[q.id]
      ensures View() == before.(sessions := Broadcast(before.sessions, to, m))
    {
      forall i | 0 <= i < |all|
        ensures View().sessions[i] == Broadcast(before.sessions, to, m)[i]
      {
        assert all[i] in all && all[i].id == i;
      }
      assert View().sessions == Broadcast(before.sessions, to, m);
    }

    /** The tests of onRoomContent, in the order the source makes them. */
    method CheckContent(p: HubPeer, room: Str, env: Envelope, admitted: bool) returns (reason: Option<string>)
      requires Valid() && p in all && room == NormalizeRoom(cfg.lower, env.room)
      ensures reason == ContentRefusal(cfg, View(), p.id, env, admitted)
    {
      assert View().sessions[p.id] == p.View();
      if room == [] {
        return Some("missing room");
      }
      if !admitted {
        return Some("Rate limit exceeded. Try again later.");
      }
      if env.body.Some? {
        match env.body.value
        case TextBody(text) =>
          if ByteLen(text) > cfg.maxBodyBytes {
            return Some("message body too large");
          }
        case RawBody(raw) =>
          if |raw| > cfg.maxBodyBytes {
            return Some("message body too large");
          }
        case OtherBody =>
          return Some("invalid message body");
      }
      if room !in p.rooms {
        return Some("not a member of room");
      }
      return None;
    }

    /** The part of onRoomContent that forwards to the other members. */
    method RelayContent(p: HubPeer, room: Str, env: Envelope)
      requires Valid() && p in all && p.peerHash.Some?
      modifies all`outbox
      ensures Valid()
      ensures var h := old(View());
              View() == h.(sessions := Broadcast(h.sessions, Recipients(h, p.id, room),
                                                 Relayed(Forwarded(old(p.View()), room, env))))
    {
      ghost var to := Recipients(View(), p.id, room);
      var members := CollectMembers(p, room);
      var nick := p.nick;
      var fwd := Envelope(env.typ, env.msgId, env.timestamp, p.peerHash.value, room, env.body,
                          if nick == [] then None else Some(nick));
      SendToIds(members, Relayed(fwd), to);
    }

    /** onRoomContent after the rate limiter has answered `admitted`. */
    method Judge(p: HubPeer, env: Envelope, admitted: bool)
      requires Valid() && p in all && p.peerHash.Some?
      modifies all`outbox
      ensures Valid() && View() == DoContent(cfg, old(View()), p.id, env, admitted)
    {
      assert View().sessions[p.id] == p.View();
      var room := NormalizeRoom(cfg.lower, env.room);
      var reason := CheckContent(p, room, env, admitted);
      if reason.Some? {
        Reply(p, Refused(reason.value));
      } else {
        RelayContent(p, room, env);
      }
    }

    /** allowRate as one change of the whole hub. */
    method AskLimiter(p: HubPeer, now: int) returns (ok: bool)
      requires Valid() && p in all
      modifies p`msgTimes
      ensures Valid() && View() == Put(old(View()), p.id, Timed(cfg, old(p.View()), now))
      ensures ok == RateLimiter.Admits(old(p.msgTimes), cfg.rateLimit, now)
    {
      ghost var before := View();
      ok := p.AllowRate(cfg, now);
      assert View().sessions == before.sessions[p.id := Timed(cfg, old(p.View()), now)];
    }

    method OnRoomContent(p: HubPeer, env: Envelope, now: int)
      requires Valid() && p in all && p.peerHash.Some?
      modifies p`msgTimes, all`outbox
      ensures Valid() && View() == DoRated(cfg, old(View()), p.id, env, now)
    {
      assert View().sessions[p.id] == p.View();
      if NormalizeRoom(cfg.lower, env.room) == [] {
        Reply(p, Refused("missing room"));
      } else {
        var admitted := AskLimiter(p, now);
        Judge(p, env, admitted);
      }
    }

    /** The switch of handlePeer for a session that has said HELLO. */
    method HandleActive(p: HubPeer, env: Envelope, now: int)
      requires Valid() && p in all && p.peerHash.Some? && p.active
      modifies this`rooms, p`msgTimes, all`rooms, all`outbox
      ensures Valid()
      ensures View() == RunFrom(cfg, old(View()), TypeScript(cfg, old(View()), p.id, env, now))
    {
      assert View().sessions[p.id] == p.View();
      TypeScriptRuns(cfg, View(), p.id, env, now);
      if env.typ == TYPE_JOIN {
        OnJoin(p, env.room);
      } else if env.typ == TYPE_PART {
        OnPart(p, env.room);
      } else if env.typ == TYPE_MSG || env.typ == TYPE_NOTICE || env.typ == TYPE_ACTION {
        OnRoomContent(p, env, now);
      }
    }

    /** The branches of handlePeer for a session that has not said HELLO yet. */
    method HandleInactive(p: HubPeer, env: Envelope, tooLong: bool, ghost now: int)
      requires Valid() && p in all && p.peerHash.Some? && !p.active
      requires tooLong == (env.nick.Some? && NickTooLong(cfg, env.nick.value))
      modifies this`peers, this`rooms, p`active, p`outbox, p`closed, p`dropDue
      ensures Valid()
      ensures View() == RunFrom(cfg, old(View()), TypeScript(cfg, old(View()), p.id, env, now))
    {
      ghost var before := View();
      assert before.sessions[p.id] == p.View();
      if tooLong {
        CloseAfter(before, [], p);
        assert [] + CloseScript(before, p.id) == CloseScript(before, p.id);
      } else if env.typ == TYPE_HELLO {
        OnHello(p);
      }
    }

    /** handlePeer: the nickname, then the section for the envelope's type. */
    method HandlePeer(p: HubPeer, env: Envelope, now: int)
      requires Valid() && p in all && p.peerHash.Some?
      modifies this`peers, this`rooms, p`nick, p`active, p`closed, p`dropDue, p`msgTimes, all`rooms, all`outbox
      ensures Valid()
      ensures View() == RunFrom(cfg, old(View()), EnvelopeScript(cfg, old(View()), p.id, env, now))
    {
      ghost var before := View();
      assert before.sessions[p.id] == p.View();
      var tooLong := false;
      if env.nick.Some? {
        RunSingle(cfg, before, On(p.id, SetNick(env.nick.value)));
        tooLong := ApplyInboundNick(p, env.nick.value);
      }
      ghost var named := View();
      assert named == RunFrom(cfg, before, NickScript(p.id, env));
      assert named.sessions[p.id] == p.View();
      RunConcat(cfg, before, NickScript(p.id, env), TypeScript(cfg, before, p.id, env, now));
      if p.active {
        HandleActive(p, env, now);
      } else {
        HandleInactive(p, env, tooLong, now);
      }
    }

    /** Registers `p` and closes the session it displaces. */
    method TakeOver(p: HubPeer, hash: bytes)
      requires Valid() && p in all
      requires |hash| == IDENTITY_LENGTH && p.peerHash.None?
      modifies this`peers, this`rooms, p`peerHash, p`pendingHello, all`closed, all`dropDue
      ensures Valid() && p.peerHash == Some(hash)
      ensures View() == RunFrom(cfg, old(View()), TakeOverScript(old(View()), p.id, hash))
    {
      ghost var before := View();
      assert before.sessions[p.id] == p.View();
      var displaced := Register(p, hash);
      assert View().sessions[p.id] == p.View();
      ghost var taken := [On(p.id, Identify(hash))];
      RunSingle(cfg, before, taken[0]);
      if displaced.Some? {
        assert before.sessions[displaced.value.id].closed == displaced.value.closed;
        CloseAfter(before, taken, displaced.value);
      } else {
        assert taken + [] == taken;
      }
    }

    /** The whole of `register`: the take-over and then the buffered HELLO; it acts once per session. */
    method IdentifyLink(p: HubPeer, hash: bytes, now: int)
      requires Valid() && p in all
      modifies this`peers, this`rooms, all
      ensures Valid() && all == old(all)
      ensures View() == RunFrom(cfg, old(View()), IdentifyScript(cfg, old(View()), p.id, hash, now))
    {
      ghost var before := View();
      assert before.sessions[p.id] == p.View();
      if |hash| != IDENTITY_LENGTH || p.peerHash.Some? {
        return;
      }
      var pending := p.pendingHello;
      ghost var taken := TakeOverScript(before, p.id, hash);
      TakeOver(p, hash);
      if pending.Some? {
        RunConcat(cfg, before, taken, EnvelopeScript(cfg, View(), p.id, pending.value, now));
        HandlePeer(p, pending.value, now);
      } else {
        assert taken + [] == taken;
      }
    }

    /** Keeps a HELLO that came before the identity. */
    method BufferHello(p: HubPeer, env: Envelope)
      requires Valid() && p in all && p.peerHash.None? && env.typ == TYPE_HELLO
      modifies p`pendingHello
      ensures Valid() && View() == DoBufferHello(old(View()), p.id, env)
    {
      ghost var before := View();
      assert before.sessions[p.id] == p.View();
      p.pendingHello := Some(env);
      assert View().sessions == DoBufferHello(before, p.id, env).sessions;
    }

    /** The packet callback that acceptLink installs; `remote` is the identity the link knows by then. */
    method Inbound(p: HubPeer, env: Envelope, remote: Option<bytes>, now: int)
      requires Valid() && p in all
      modifies this`peers, this`rooms, all
      ensures Valid() && all == old(all)
      ensures View() == RunFrom(cfg, old(View()), InboundScript(cfg, old(View()), p.id, env, remote, now))
    {
      ghost var before := View();
      assert before.sessions[p.id] == p.View();
      ghost var first: seq<Step> := [];
      if p.peerHash.None? && remote.None? {
        if env.typ == TYPE_HELLO {
          RunSingle(cfg, before, On(p.id, Action.BufferHello(env)));
          BufferHello(p, env);
        }
        return;
      }
      if remote.Some? {
        first := IdentifyScript(cfg, before, p.id, remote.value, now);
        IdentifyLink(p, remote.value, now);
      }
      assert View() == RunFrom(cfg, before, first) && View().sessions[p.id] == p.View();
      if p.peerHash.Some? {
        RunConcat(cfg, before, first, EnvelopeScript(cfg, View(), p.id, env, now));
        HandlePeer(p, env, now);
      } else {
        assert first + [] == first;
      }
    }

    /** session.close behind the steps taken so far. */
    method CloseAfter(ghost before: Hub, ghost taken: seq<Step>, d: HubPeer)
      requires Valid() && d in all
      requires View() == RunFrom(cfg, before, taken)
      requires d.id < |before.sessions| && before.sessions[d.id].closed == d.closed
      modifies this`peers, this`rooms, d`closed, d`dropDue
      ensures Valid()
      ensures View() == RunFrom(cfg, before, taken + CloseScript(before, d.id))
    {
      assert View().sessions[d.id] == d.View();
      if d.closed {
        assert taken + [] == taken;
      } else {
        RunPair(cfg, before, taken, On(d.id, Action.Close), On(d.id, Drop));
      }
      CloseSession(d);
    }

    /** Hub.Close: the tables go at once, then every session that was registered is closed. */
    method Close() returns (ghost order: seq<nat>)
      requires Valid()
      modifies this`peers, this`rooms, all`closed, all`dropDue
      ensures Valid()
      ensures DistinctBelow(order, |all|) && forall i :: i in order <==> i in old(View()).peers.Values
      ensures View() == RunFrom(cfg, old(View()), [CloseHub] + CloseAll(old(View()), order))
    {
      ghost var before := View();
      var registered := CollectPeers();
      order := Ids(registered);
      RunSingle(cfg, before, CloseHub);
      Clear();
      CloseEach(before, registered);
    }

    /** The loop that copies the registered sessions. */
    method CollectPeers() returns (registered: seq<HubPeer>)
      requires Valid()
      ensures forall q | q in registered :: q in all
      ensures DistinctBelow(Ids(registered), |all|)
      ensures forall i :: i in Ids(registered) <==> i in View().peers.Values
    {
      registered := [];
      var todo := peers.Keys;
      while todo != {}
        invariant todo <= peers.Keys
        invariant forall q :: q in registered <==> exists k :: k in peers.Keys - todo && peers[k] == q
        invariant forall i, j | 0 <= i < j < |registered| :: registered[i] != registered[j]
        decreases todo
      {
        var k :| k in todo;
        assert peers[k] !in registered;
        registered := registered + [peers[k]];
        todo := todo - {k};
      }
      IdsAreValues(registered);
    }

    lemma IdsAreValues(registered: seq<HubPeer>)
      requires Valid() && forall q :: q in registered <==> exists k :: k in peers && peers[k] == q
      requires forall i, j | 0 <= i < j < |registered| :: registered[i] != registered[j]
      ensures DistinctBelow(Ids(registered), |all|)
      ensures forall i :: i in Ids(registered) <==> i in View().peers.Values
    {
      var order, h := Ids(registered), View();
      forall i
        ensures i in order <==> i in h.peers.Values
      {
        if i in order {
          var j :| 0 <= j < |order| && order[j] == i;
          assert registered[j] in registered;
          var k :| k in peers && peers[k] == registered[j];
          assert h.peers[k] == i;
        }
        if i in h.peers.Values {
          var k :| k in h.peers && h.peers[k] == i;
          assert peers[k] in registered;
          var j :| 0 <= j < |registered| && registered[j] == peers[k];
          assert order[j] == i;
        }
      }
      forall i | 0 <= i < |order|
        ensures order[i] < |all| && forall j | i < j < |order| :: order[i] != order[j]
      {
        assert registered[i] in registered && registered[i] in all;
        forall j | i < j < |order|
          ensures order[i] != order[j]
        {
          assert registered[j] in registered && registered[j] in all;
        }
      }
    }

    /** The loop that closes them. */
    method CloseEach(ghost before: Hub, registered: seq<HubPeer>)
      requires Valid() && (forall q | q in registered :: q in all) && |before.sessions| == |all|
      requires DistinctBelow(Ids(registered), |before.sessions|)
      requires View() == RunFrom(cfg, before, [CloseHub])
      modifies this`peers, this`rooms, all`closed, all`dropDue
      ensures Valid() && View() == RunFrom(cfg, before, [CloseHub] + CloseAll(before, Ids(registered)))
    {
      ghost var order: seq<nat>, script := [], [CloseHub];
      assert script == [CloseHub] + CloseAll(before, []);
      for n := 0 to |registered|
        invariant Valid() && order == Ids(registered)[..n] && script == [CloseHub] + CloseAll(before, order)
        invariant View() == RunFrom(cfg, before, script)
      {
        OneById(registered, n);
        script := CloseNext(before, order, script, registered[n]);
        order := order + [registered[n].id];
      }
      assert order == Ids(registered);
    }

    lemma OneById(registered: seq<HubPeer>, n: nat)
      requires n < |registered| && DistinctBelow(Ids(registered), |all|)
      ensures registered[n] in registered && registered[n].id !in Ids(registered)[..n]
      ensures Ids(registered)[..n] + [registered[n].id] == Ids(registered)[..n + 1]
      ensures DistinctBelow(Ids(registered)[..n], |all|)
    {}

    method CloseNext(ghost before: Hub, ghost order: seq<nat>, ghost script: seq<Step>, q: HubPeer)
      returns (ghost longer: seq<Step>)
      requires Valid() && q in all && |before.sessions| == |all|
      requires DistinctBelow(order, |before.sessions|) && q.id !in order
      requires script == [CloseHub] + CloseAll(before, order) && View() == RunFrom(cfg, before, script)
      modifies this`peers, this`rooms, q`closed, q`dropDue
      ensures Valid() && longer == [CloseHub] + CloseAll(before, order + [q.id])
      ensures View() == RunFrom(cfg, before, longer)
    {
      CloseEndsTheRegistered(cfg, before, order);
      assert View().sessions[q.id] == q.View();
      CloseAllSnoc(before, order, q.id);
      longer := script + CloseScript(before, q.id);
      CloseAfter(before, script, q);
    }

    /** The section of Close that takes the tables away. */
    method Clear()
      requires Valid()
      modifies this`peers, this`rooms
      ensures Valid() && peers == map[] && View() == Exec(cfg, old(View()), CloseHub)
    {
      ghost var before := View();
      peers, rooms := map[], map[];
      assert View().sessions == before.sessions;
    }
  }

  lemma CloseAllSnoc(h: Hub, order: seq<nat>, i: nat)
    requires i < |h.sessions|
    ensures [CloseHub] + CloseAll(h, order + [i]) == [CloseHub] + CloseAll(h, order) + CloseScript(h, i)
  {
    assert (order + [i])[..|order|] == order;
  }

  predicate DistinctBelow(order: seq<nat>, n: nat) {
    && (forall i, j | 0 <= i < j < |order| :: order[i] != order[j])
    && forall i | 0 <= i < |order| :: order[i] < n
  }

  /** Closing a session of a hub without registrations. */
  lemma CloseOne(cfg: Config, g: Hub, p: nat)
    requires p < |g.sessions| && g.peers == map[] && !g.sessions[p].closed
    ensures Exec(cfg, Exec(cfg, g, On(p, Action.Close)), On(p, Drop)) == Put(g, p, Ended(g.sessions[p]))
  {}

  lemma CloseOneMore(cfg: Config, h: Hub, taken: seq<Step>, p: nat)
    requires var g := RunFrom(cfg, h, taken);
             p < |h.sessions| == |g.sessions| && g.peers == map[] && g.sessions[p] == h.sessions[p]
    ensures var g := RunFrom(cfg, h, taken);
            RunFrom(cfg, h, taken + CloseScript(h, p)) == Put(g, p, Ended(g.sessions[p]))
  {
    var g := RunFrom(cfg, h, taken);
    if h.sessions[p].closed {
      assert taken + [] == taken;
      assert g.sessions[p := g.sessions[p]] == g.sessions;
    } else {
      RunPair(cfg, h, taken, On(p, Action.Close), On(p, Drop));
      CloseOne(cfg, g, p);
    }
  }

  /** What Close leaves behind, whatever the order: empty tables and every listed session closed. */
  lemma {:induction false} CloseEndsTheRegistered(cfg: Config, h: Hub, order: seq<nat>)
    requires DistinctBelow(order, |h.sessions|)
    ensures var g := RunFrom(cfg, h, [CloseHub] + CloseAll(h, order));
            && g.peers == map[] && g.rooms == map[] && |g.sessions| == |h.sessions|
            && forall i | 0 <= i < |h.sessions| ::
                 g.sessions[i] == if i in order then Ended(h.sessions[i]) else h.sessions[i]
  {
    if order == [] {
      assert [CloseHub] + CloseAll(h, order) == [CloseHub];
      RunSingle(cfg, h, CloseHub);
    } else {
      var n := |order| - 1;
      var init, last := order[..n], order[n];
      CloseEndsTheRegistered(cfg, h, init);
      assert order == init + [last] && last !in init;
      CloseAllSnoc(h, init, last);
      CloseOneMore(cfg, h, [CloseHub] + CloseAll(h, init), last);
    }
  }

  /** What an envelope of an active session comes to. */
  lemma TypeScriptRuns(cfg: Config, h: Hub, p: nat, env: Envelope, now: int)
    requires p < |h.sessions| && h.sessions[p].key.Some? && h.sessions[p].active
    ensures RunFrom(cfg, h, TypeScript(cfg, h, p, env, now)) ==
            if env.typ == TYPE_JOIN then DoJoin(cfg, h, p, env.room)
            else if env.typ == TYPE_PART then DoPart(cfg, h, p, env.room)
            else if env.typ in {TYPE_MSG, TYPE_NOTICE, TYPE_ACTION} then DoRated(cfg, h, p, env, now)
            else h
  {
    RunSingle(cfg, h, On(p, Join(env.room)));
    RunSingle(cfg, h, On(p, Part(env.room)));
    RunSingle(cfg, h, On(p, Content(env, now)));
  }

  lemma RunSnocFrom(cfg: Config, h: Hub, steps: seq<Step>, step: Step)
    ensures RunFrom(cfg, h, steps + [step]) == Exec(cfg, RunFrom(cfg, h, steps), step)
  {
    assert (steps + [step])[..|steps|] == steps;
  }

  lemma RunSingle(cfg: Config, h: Hub, step: Step)
    ensures RunFrom(cfg, h, [step]) == Exec(cfg, h, step)
  {
    assert [step][..0] == [];
  }

  lemma RunPair(cfg: Config, h: Hub, steps: seq<Step>, a: Step, b: Step)
    ensures RunFrom(cfg, h, steps + [a, b]) == Exec(cfg, Exec(cfg, RunFrom(cfg, h, steps), a), b)
  {
    assert steps + [a, b] == (steps + [a]) + [b];
    RunSnocFrom(cfg, h, steps + [a], b);
    RunSnocFrom(cfg, h, steps, a);
  }

  lemma {:induction false} RunConcat(cfg: Config, h: Hub, a: seq<Step>, b: seq<Step>)
    ensures RunFrom(cfg, h, a + b) == RunFrom(cfg, RunFrom(cfg, h, a), b)
  {
    if b == [] {
      assert a + b == a;
    } else {
      assert (a + b)[..|a + b| - 1] == a + b[..|b| - 1];
      RunConcat(cfg, h, a, b[..|b| - 1]);
    }
  }
}
