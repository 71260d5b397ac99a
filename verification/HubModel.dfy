/**
 The RRC hub of pkg/rrc as a step machine. Every section that the source runs under the hub
 mutex is one step; a run is any sequence of steps of any number of sessions.
 */
module HubModel {
  import opened Basics
  import opened Text
  import RateLimiter

  const IDENTITY_LENGTH := 16

  const TYPE_HELLO := 1
  const TYPE_JOIN := 10
  const TYPE_PART := 12
  const TYPE_MSG := 20
  const TYPE_NOTICE := 21
  const TYPE_ACTION := 22

  /** The identity hash used as the index of both tables. */
  type Key = bytes

  datatype Body = TextBody(text: Str) | RawBody(raw: bytes) | OtherBody

  datatype Envelope = Envelope(typ: nat, msgId: bytes, timestamp: nat, sender: bytes,
                               room: Str, body: Option<Body>, nick: Option<Str>)

  /** What the hub puts on a session's link. */
  datatype HubMessage =
    | Welcome
    | Joined(room: Str)
    | Parted(room: Str)
    | Refused(reason: string)
    | Relayed(env: Envelope)

  datatype Config = Config(lower: nat -> nat, maxNickBytes: nat, maxRooms: nat, maxRoomNameBytes: nat,
                           maxBodyBytes: nat, rateLimit: nat)

  /**
   A hubPeer with its session. `outbox` holds what was sent and not yet delivered, `mirror` the room
   set of the client at the far end. `dropDue` is set between the moment a close is recorded and the
   moment its dropPeerIf section runs, `linkDown` once the link is no longer active. `times` are the
   admission times that the rate limiter keeps.
   */
  datatype Session = Session(key: Option<Key>, active: bool, rooms: set<Str>, nick: Str,
                             pendingHello: Option<Envelope>, closed: bool, dropDue: bool,
                             outbox: seq<HubMessage>, mirror: set<Str>, linkDown: bool, times: seq<int>)

  const FRESH_SESSION := Session(None, false, {}, [], None, false, false, [], {}, false, [])

  datatype Hub = Hub(sessions: seq<Session>, peers: map<Key, nat>, rooms: map<Str, set<Key>>)

  const EMPTY_HUB := Hub([], map[], map[])

  /** What one session, or the link under it, can do. */
  datatype Action =
    | Identify(hash: bytes)
    | BufferHello(env: Envelope)
    | Close
    | Drop
    | SetNick(nick: Str)
    | Hello
    | Join(name: Str)
    | Part(name: Str)
    | Content(env: Envelope, now: int)
    | Deliver
    | LinkDown

  datatype Step = Accept | CloseHub | On(p: nat, act: Action)

  // ---------------------------------------------------------------- the tables

  /** Takes `key` out of the rooms in `gone`; a room left without members loses its entry. */
  function Unlist(rooms: map<Str, set<Key>>, key: Key, gone: set<Str>): map<Str, set<Key>> {
    map r | r in rooms && !(r in gone && rooms[r] - {key} == {}) ::
      if r in gone then rooms[r] - {key} else rooms[r]
  }

  function Enlist(rooms: map<Str, set<Key>>, key: Key, room: Str): map<Str, set<Key>> {
    rooms[room := (if room in rooms then rooms[room] else {}) + {key}]
  }

  function Put(h: Hub, p: nat, sess: Session): Hub
    requires p < |h.sessions|
  {
    h.(sessions := h.sessions[p := sess])
  }

  /** sendEnvelope: a closed session, or one without an active link, swallows what is sent to it. */
  function Send(sess: Session, m: HubMessage): Session {
    if sess.closed || sess.linkDown then sess else sess.(outbox := sess.outbox + [m])
  }

  function SendTo(h: Hub, p: nat, m: HubMessage): Hub
    requires p < |h.sessions|
  {
    Put(h, p, Send(h.sessions[p], m))
  }

  // ---------------------------------------------------------------- the sections

  /** The `register` closure of acceptLink; a session registers once. */
  function DoIdentify(h: Hub, p: nat, hash: bytes): Hub
    requires p < |h.sessions|
  {
    var sess := h.sessions[p];
    if |hash| != IDENTITY_LENGTH || sess.key.Some? then h else
      var d := Displaced(h, p, hash);
      var rooms := if d.Some? then Unlist(h.rooms, hash, h.sessions[d.value].rooms) else h.rooms;
      Hub(h.sessions[p := sess.(key := Some(hash), pendingHello := None)], h.peers[hash := p], rooms)
  }

  function DoBufferHello(h: Hub, p: nat, env: Envelope): Hub
    requires p < |h.sessions|
  {
    var sess := h.sessions[p];
    if sess.key.None? && env.typ == TYPE_HELLO then Put(h, p, sess.(pendingHello := Some(env))) else h
  }

  /** session.close up to the callback; it acts once. */
  function DoClose(h: Hub, p: nat): Hub
    requires p < |h.sessions|
  {
    var sess := h.sessions[p];
    if sess.closed then h else Put(h, p, sess.(closed := true, dropDue := true))
  }

  /** dropPeerIf: a session that is no longer the registered one changes no table. */
  function DropPeerIf(h: Hub, p: nat): Hub
    requires p < |h.sessions|
  {
    var sess := h.sessions[p];
    if sess.key.Some? && sess.key.value in h.peers && h.peers[sess.key.value] == p then
      h.(peers := h.peers - {sess.key.value}, rooms := Unlist(h.rooms, sess.key.value, sess.rooms))
    else h
  }

  function DoDrop(h: Hub, p: nat): Hub
    requires p < |h.sessions|
  {
    if h.sessions[p].dropDue then Put(DropPeerIf(h, p), p, h.sessions[p].(dropDue := false)) else h
  }

  predicate NickTooLong(cfg: Config, nick: Str) {
    Sanitized(nick) != [] && ByteLen(Sanitized(nick)) > cfg.maxNickBytes
  }

  function DoSetNick(cfg: Config, h: Hub, p: nat, nick: Str): Hub
    requires p < |h.sessions|
  {
    if NickTooLong(cfg, nick) then SendTo(h, p, Refused("nickname too long"))
    else if Sanitized(nick) == [] then h
    else Put(h, p, h.sessions[p].(nick := Sanitized(Sanitized(nick))))
  }

  function DoHello(h: Hub, p: nat): Hub
    requires p < |h.sessions|
  {
    Put(h, p, Send(h.sessions[p].(active := true), Welcome))
  }

  function DoJoin(cfg: Config, h: Hub, p: nat, name: Str): Hub
    requires p < |h.sessions| && h.sessions[p].key.Some?
  {
    var sess := h.sessions[p];
    var room := NormalizeRoom(cfg.lower, name);
    if room == [] then SendTo(h, p, Refused("missing room"))
    else if ByteLen(room) > cfg.maxRoomNameBytes then SendTo(h, p, Refused("room name too long"))
    else if room in sess.rooms then SendTo(h, p, Joined(room))
    else if |sess.rooms| >= cfg.maxRooms then SendTo(h, p, Refused("room limit exceeded"))
    else
      Put(h, p, Send(sess.(rooms := sess.rooms + {room}), Joined(room)))
        .(rooms := Enlist(h.rooms, sess.key.value, room))
  }

  function DoPart(cfg: Config, h: Hub, p: nat, name: Str): Hub
    requires p < |h.sessions| && h.sessions[p].key.Some?
  {
    var sess := h.sessions[p];
    var room := NormalizeRoom(cfg.lower, name);
    if room == [] || room !in sess.rooms then h
    else
      Put(h, p, Send(sess.(rooms := sess.rooms - {room}), Parted(room)))
        .(rooms := Unlist(h.rooms, sess.key.value, {room}))
  }

  /** The sessions that a message of `p` to `room` is sent to, read from the room index. */
  function Recipients(h: Hub, p: nat, room: Str): set<nat>
    requires p < |h.sessions| && h.sessions[p].key.Some?
  {
    if room !in h.rooms then {} else
      set k | k in h.rooms[room] && k != h.sessions[p].key.value && k in h.peers
              && h.peers[k] < |h.sessions| && h.sessions[h.peers[k]].active :: h.peers[k]
  }

  /** The forwarded envelope: sender and nickname come from the session, the rest from the wire. */
  function Forwarded(sess: Session, room: Str, env: Envelope): Envelope
    requires sess.key.Some?
  {
    Envelope(env.typ, env.msgId, env.timestamp, sess.key.value, room, env.body,
             if sess.nick == [] then None else Some(sess.nick))
  }

  function Broadcast(sessions: seq<Session>, to: set<nat>, m: HubMessage): seq<Session> {
    seq(|sessions|, i requires 0 <= i < |sessions| => if i in to then Send(sessions[i], m) else sessions[i])
  }

  /** Why onRoomContent refuses an envelope, in the order the source tests. */
  function ContentRefusal(cfg: Config, h: Hub, p: nat, env: Envelope, admitted: bool): Option<string>
    requires p < |h.sessions|
  {
    var room := NormalizeRoom(cfg.lower, env.room);
    if room == [] then Some("missing room")
    else if !admitted then Some("Rate limit exceeded. Try again later.")
    else if env.body.Some? && env.body.value.OtherBody? then Some("invalid message body")
    else if env.body.Some? && env.body.value.TextBody? && ByteLen(env.body.value.text) > cfg.maxBodyBytes
    then Some("message body too large")
    else if env.body.Some? && env.body.value.RawBody? && |env.body.value.raw| > cfg.maxBodyBytes
    then Some("message body too large")
    else if room !in h.sessions[p].rooms then Some("not a member of room")
    else None
  }

  function DoContent(cfg: Config, h: Hub, p: nat, env: Envelope, admitted: bool): Hub
    requires p < |h.sessions| && h.sessions[p].key.Some?
  {
    var room := NormalizeRoom(cfg.lower, env.room);
    match ContentRefusal(cfg, h, p, env, admitted)
    case Some(reason) => SendTo(h, p, Refused(reason))
    case None =>
      h.(sessions := Broadcast(h.sessions, Recipients(h, p, room),
                               Relayed(Forwarded(h.sessions[p], room, env))))
  }

  /** allowRate on the session's own times. */
  function Timed(cfg: Config, sess: Session, now: int): Session {
    sess.(times := RateLimiter.Recorded(sess.times, cfg.rateLimit, now))
  }

  /** onRoomContent: the limiter is asked once the room is known not to be empty. */
  function DoRated(cfg: Config, h: Hub, p: nat, env: Envelope, now: int): Hub
    requires p < |h.sessions| && h.sessions[p].key.Some?
  {
    if NormalizeRoom(cfg.lower, env.room) == [] then SendTo(h, p, Refused("missing room"))
    else
      DoContent(cfg, Put(h, p, Timed(cfg, h.sessions[p], now)), p, env,
                RateLimiter.Admits(h.sessions[p].times, cfg.rateLimit, now))
  }

  /** Client.dispatch on the room set: only JOINED and PARTED touch it. */
  function ClientApply(cfg: Config, rooms: set<Str>, m: HubMessage): set<Str> {
    match m
    case Joined(room) => rooms + {NormalizeRoom(cfg.lower, room)}
    case Parted(room) => rooms - {NormalizeRoom(cfg.lower, room)}
    case _ => rooms
  }

  function DoDeliver(cfg: Config, h: Hub, p: nat): Hub
    requires p < |h.sessions|
  {
    var sess := h.sessions[p];
    if sess.outbox == [] then h
    else Put(h, p, sess.(outbox := sess.outbox[1..], mirror := ClientApply(cfg, sess.mirror, sess.outbox[0])))
  }

  // ---------------------------------------------------------------- runs

  /** Envelopes reach handlePeer only from an identified session, rooms only from an active one. */
  function Perform(cfg: Config, h: Hub, p: nat, act: Action): Hub
    requires p < |h.sessions|
  {
    var sess := h.sessions[p];
    match act
    case Identify(hash) => DoIdentify(h, p, hash)
    case BufferHello(env) => DoBufferHello(h, p, env)
    case Close => DoClose(h, p)
    case Drop => DoDrop(h, p)
    case SetNick(nick) => if sess.key.Some? then DoSetNick(cfg, h, p, nick) else h
    case Hello => if sess.key.Some? && !sess.active then DoHello(h, p) else h
    case Join(name) => if sess.key.Some? && sess.active then DoJoin(cfg, h, p, name) else h
    case Part(name) => if sess.key.Some? && sess.active then DoPart(cfg, h, p, name) else h
    case Content(env, now) => if sess.key.Some? && sess.active then DoRated(cfg, h, p, env, now) else h
    case Deliver => DoDeliver(cfg, h, p)
    case LinkDown => Put(h, p, sess.(linkDown := true))
  }

  function Exec(cfg: Config, h: Hub, step: Step): Hub {
    match step
    case Accept => h.(sessions := h.sessions + [FRESH_SESSION])
    case CloseHub => h.(peers := map[], rooms := map[])
    case On(p, act) => if p < |h.sessions| then Perform(cfg, h, p, act) else h
  }

  function RunFrom(cfg: Config, h: Hub, steps: seq<Step>): Hub {
    if steps == [] then h else Exec(cfg, RunFrom(cfg, h, steps[..|steps| - 1]), steps[|steps| - 1])
  }

  /** The steps of session.close. */
  function CloseScript(h: Hub, p: nat): seq<Step>
    requires p < |h.sessions|
  {
    if h.sessions[p].closed then [] else [On(p, Close), On(p, Drop)]
  }

  function NickScript(p: nat, env: Envelope): seq<Step> {
    if env.nick.Some? then [On(p, SetNick(env.nick.value))] else []
  }

  /** onHello: a session whose link is down cannot be welcomed and is closed. */
  function HelloScript(h: Hub, p: nat): seq<Step>
    requires p < |h.sessions|
  {
    [On(p, Hello)] + (if h.sessions[p].linkDown then CloseScript(h, p) else [])
  }

  /** What follows the nickname, decided by the session's state and the envelope's type. */
  function TypeScript(cfg: Config, h: Hub, p: nat, env: Envelope, now: int): seq<Step>
    requires p < |h.sessions|
  {
    if !h.sessions[p].active then
      if env.nick.Some? && NickTooLong(cfg, env.nick.value) then CloseScript(h, p)
      else if env.typ == TYPE_HELLO then HelloScript(h, p)
      else []
    else if env.typ == TYPE_JOIN then [On(p, Join(env.room))]
    else if env.typ == TYPE_PART then [On(p, Part(env.room))]
    else if env.typ in {TYPE_MSG, TYPE_NOTICE, TYPE_ACTION} then [On(p, Content(env, now))]
    else []
  }

  /** The steps handlePeer takes for one envelope of `p`. */
  function EnvelopeScript(cfg: Config, h: Hub, p: nat, env: Envelope, now: int): seq<Step>
    requires p < |h.sessions|
  {
    NickScript(p, env) + TypeScript(cfg, h, p, env, now)
  }

  /** The session a registration as `hash` displaces. */
  function Displaced(h: Hub, p: nat, hash: bytes): Option<nat> {
    if hash in h.peers && h.peers[hash] != p && h.peers[hash] < |h.sessions| then Some(h.peers[hash]) else None
  }

  /** The steps that put `p` in place of the session it displaces. */
  function TakeOverScript(h: Hub, p: nat, hash: bytes): seq<Step> {
    var d := Displaced(h, p, hash);
    [On(p, Identify(hash))] + (if d.Some? then CloseScript(h, d.value) else [])
  }

  /** The steps of a first identification: the take-over, then the buffered HELLO. */
  function IdentifyScript(cfg: Config, h: Hub, p: nat, hash: bytes, now: int): seq<Step>
    requires p < |h.sessions|
  {
    if |hash| != IDENTITY_LENGTH || h.sessions[p].key.Some? then []
    else
      var taken := TakeOverScript(h, p, hash);
      var pending := h.sessions[p].pendingHello;
      var g := RunFrom(cfg, h, taken);
      taken + (if pending.Some? && p < |g.sessions| then EnvelopeScript(cfg, g, p, pending.value, now) else [])
  }

  /**
   The steps of the packet callback that acceptLink installs: a session that is not identified yet
   registers if the link knows its remote identity by now, and otherwise keeps a HELLO for later.
   */
  function InboundScript(cfg: Config, h: Hub, p: nat, env: Envelope, remote: Option<bytes>, now: int): seq<Step>
    requires p < |h.sessions|
  {
    if h.sessions[p].key.None? && remote.None? then
      if env.typ == TYPE_HELLO then [On(p, BufferHello(env))] else []
    else
      var first := if remote.Some? then IdentifyScript(cfg, h, p, remote.value, now) else [];
      var g := RunFrom(cfg, h, first);
      first + (if p < |g.sessions| && g.sessions[p].key.Some? then EnvelopeScript(cfg, g, p, env, now) else [])
  }

  /** The closes of the listed sessions, one after the other. */
  function CloseAll(h: Hub, order: seq<nat>): seq<Step> {
    if order == [] then []
    else CloseAll(h, order[..|order| - 1])
         + (if order[|order| - 1] < |h.sessions| then CloseScript(h, order[|order| - 1]) else [])
  }

  function Run(cfg: Config, steps: seq<Step>): Hub {
    RunFrom(cfg, EMPTY_HUB, steps)
  }

  /** `p` is the session that the hub has registered for its identity. */
  predicate Current(h: Hub, p: nat) {
    p < |h.sessions| && h.sessions[p].key.Some? && h.sessions[p].key.value in h.peers
    && h.peers[h.sessions[p].key.value] == p
  }

  /** A session that was superseded, dropped or cleared by Close joins and parts no more. */
  predicate Guarded(h: Hub, step: Step) {
    step.On? && (step.act.Join? || step.act.Part?) ==> Current(h, step.p)
  }

  predicate GuardedRun(cfg: Config, steps: seq<Step>) {
    forall i | 0 <= i < |steps| :: Guarded(Run(cfg, steps[..i]), steps[i])
  }
}
