/** The client side of pkg/rrc/client.go, from the moment its link is up. */
module Client {
  import opened Basics
  import opened Text
  import opened HubModel
  import opened HubRuns

  datatype ClientState = Connected | AwaitingWelcome | Active | Disconnected

  datatype SendResult = Sent(room: Str) | NotWelcome | NotMember

  /**
   What happens to a client. HelloSent and WelcomeTaken are the two writes of Dial, which do not look at
   the state they overwrite; the other events can come between them.
   */
  datatype Event = HelloSent | Received(m: HubMessage) | WelcomeTaken | LinkClosed

  datatype View = View(state: ClientState, rooms: set<Str>, welcome: Option<HubMessage>)

  const FRESH := View(Connected, {}, None)

  function OnEvent(cfg: Config, c: View, e: Event): View {
    match e
    case HelloSent => c.(state := AwaitingWelcome)
    case Received(m) =>
      c.(rooms := ClientApply(cfg, c.rooms, m),
         welcome := if m.Welcome? && c.state == AwaitingWelcome && c.welcome.None? then Some(m) else c.welcome)
    case WelcomeTaken => if c.welcome.Some? then c.(state := Active) else c
    case LinkClosed => if c.state == Disconnected then c else c.(state := Disconnected, rooms := {})
  }

  function After(cfg: Config, c: View, es: seq<Event>): View {
    if es == [] then c else OnEvent(cfg, After(cfg, c, es[..|es| - 1]), es[|es| - 1])
  }

  class Client {
    const cfg: Config
    var state: ClientState
    var rooms: set<Str>
    var welcome: Option<HubMessage>

    constructor (cfg: Config)
      ensures this.cfg == cfg && Seen() == FRESH
    {
      this.cfg := cfg;
      state, rooms, welcome := Connected, {}, None;
    }

    function Seen(): View
      reads this
    {
      View(state, rooms, welcome)
    }

    /** Dial: the state is set once the HELLO is out. */
    method SendHello()
      modifies this`state
      ensures Seen() == OnEvent(cfg, old(Seen()), HelloSent)
    {
      state := AwaitingWelcome;
    }

    /** Dial: the WELCOME that dispatch handed over makes the client active. */
    method TakeWelcome() returns (ok: bool)
      modifies this`state
      ensures Seen() == OnEvent(cfg, old(Seen()), WelcomeTaken)
      ensures ok == welcome.Some?
    {
      ok := welcome.Some?;
      if ok {
        state := Active;
      }
    }

    /** dispatch: the first WELCOME that is awaited is kept, JOINED and PARTED move the room set. */
    method Dispatch(m: HubMessage)
      modifies this`rooms, this`welcome
      ensures Seen() == OnEvent(cfg, old(Seen()), Received(m))
    {
      match m
      case Welcome =>
        if state == AwaitingWelcome && welcome.None? {
          welcome := Some(m);
        }
      case Joined(name) =>
        var room := NormalizeRoom(cfg.lower, name);
        rooms := rooms + {room};
      case Parted(name) =>
        var room := NormalizeRoom(cfg.lower, name);
        rooms := rooms - {room};
      case _ =>
    }

    /** A link that delivers in order leaves the client where HubRuns.ApplyAll says. */
    method DispatchAll(ms: seq<HubMessage>)
      modifies this`rooms, this`welcome
      ensures rooms == ApplyAll(cfg, old(rooms), ms)
    {
      for i := 0 to |ms|
        invariant rooms == ApplyAll(cfg, old(rooms), ms[..i])
      {
        ApplySnoc(cfg, old(rooms), ms[..i], ms[i]);
        assert ms[..i + 1] == ms[..i] + [ms[i]];
        Dispatch(ms[i]);
      }
      assert ms[..|ms|] == ms;
    }

    method OnLinkClosed() returns (notify: bool)
      modifies this`state, this`rooms
      ensures Seen() == OnEvent(cfg, old(Seen()), LinkClosed) && notify == (old(state) != Disconnected)
    {
      if state == Disconnected {
        return false;
      }
      state := Disconnected;
      rooms := {};
      return true;
    }

    /** sendRoomContent up to the send. */
    method SendRoomContent(name: Str) returns (r: SendResult)
      ensures r == Sent(NormalizeRoom(cfg.lower, name)) <==> state == Active && NormalizeRoom(cfg.lower, name) in rooms
      ensures r == NotWelcome <==> state != Active
      ensures r.Sent? || r.NotWelcome? || r.NotMember?
    {
      if state != Active {
        return NotWelcome;
      }
      var room := NormalizeRoom(cfg.lower, name);
      if room !in rooms {
        return NotMember;
      }
      return Sent(room);
    }
  }

  // ---------------------------------------------------------------- whole sessions

  /** Since the last HelloSent before the WELCOME, the link did not close. */
  predicate Welcomes(es: seq<Event>, i: nat, j: nat)
    requires i < j < |es|
  {
    es[i] == HelloSent && es[j] == Received(Welcome) && forall m | i < m < j :: es[m] != LinkClosed
  }

  predicate Welcomed(es: seq<Event>) {
    exists i, j | 0 <= i < j < |es| :: Welcomes(es, i, j)
  }

  lemma WelcomedStays(es: seq<Event>, e: Event)
    requires Welcomed(es)
    ensures Welcomed(es + [e])
  {
    var i, j :| 0 <= i < j < |es| && Welcomes(es, i, j);
    assert Welcomes(es + [e], i, j);
  }

  /** A HELLO is out and the link has not closed since. */
  predicate Waiting(es: seq<Event>) {
    exists i | 0 <= i < |es| :: WaitingSince(es, i)
  }

  predicate WaitingSince(es: seq<Event>, i: nat)
    requires i < |es|
  {
    es[i] == HelloSent && forall m | i < m < |es| :: es[m] != LinkClosed
  }

  lemma WaitingStep(es: seq<Event>, e: Event)
    ensures Waiting(es + [e]) <==> e == HelloSent || (e != LinkClosed && Waiting(es))
  {
    var all := es + [e];
    if e == HelloSent {
      assert WaitingSince(all, |es|);
    } else if e != LinkClosed && Waiting(es) {
      var i :| 0 <= i < |es| && WaitingSince(es, i);
      assert WaitingSince(all, i);
    }
    if Waiting(all) && e != HelloSent {
      var i :| 0 <= i < |all| && WaitingSince(all, i);
      assert all[|es|] == e;
      assert forall m | i < m < |es| :: es[m] == all[m];
      assert WaitingSince(es, i);
    }
  }

  lemma WelcomedStep(es: seq<Event>, e: Event)
    ensures Welcomed(es + [e]) <==> Welcomed(es) || (e == Received(Welcome) && Waiting(es))
  {
    var all := es + [e];
    if Welcomed(es) {
      WelcomedStays(es, e);
    }
    if e == Received(Welcome) && Waiting(es) {
      var i :| 0 <= i < |es| && WaitingSince(es, i);
      assert Welcomes(all, i, |es|);
    }
    if Welcomed(all) {
      var i, j :| 0 <= i < j < |all| && Welcomes(all, i, j);
      assert forall m | i <= m < |es| :: es[m] == all[m];
      if j < |es| {
        assert Welcomes(es, i, j);
      } else {
        assert WaitingSince(es, i);
      }
    }
  }

  /** The client was made active at `k`, and nothing has taken that back since. */
  predicate ActiveSince(es: seq<Event>, k: nat)
    requires k < |es|
  {
    es[k] == WelcomeTaken && Welcomed(es[..k]) && forall m | k < m < |es| :: es[m] != LinkClosed && es[m] != HelloSent
  }

  predicate IsActive(es: seq<Event>) {
    exists k | 0 <= k < |es| :: ActiveSince(es, k)
  }

  lemma ActiveStep(es: seq<Event>, e: Event)
    ensures IsActive(es + [e]) <==>
              (e == WelcomeTaken && Welcomed(es)) || (e != LinkClosed && e != HelloSent && IsActive(es))
  {
    var all := es + [e];
    assert all[..|es|] == es;
    if e == WelcomeTaken && Welcomed(es) {
      assert ActiveSince(all, |es|);
    } else if e != LinkClosed && e != HelloSent && IsActive(es) {
      var k :| 0 <= k < |es| && ActiveSince(es, k);
      assert all[..k] == es[..k];
      assert ActiveSince(all, k);
    }
    if IsActive(all) {
      var k :| 0 <= k < |all| && ActiveSince(all, k);
      if k < |es| {
        assert all[|es|] == e && all[..k] == es[..k];
        assert forall m | k < m < |es| :: es[m] == all[m];
        assert ActiveSince(es, k);
      }
    }
  }

  /** The link closed at `k`, and Dial has written no state since. */
  predicate ClosedSince(es: seq<Event>, k: nat)
    requires k < |es|
  {
    && es[k] == LinkClosed
    && forall m | k < m < |es| :: es[m] != HelloSent && !(es[m] == WelcomeTaken && Welcomed(es[..m]))
  }

  predicate IsClosed(es: seq<Event>) {
    exists k | 0 <= k < |es| :: ClosedSince(es, k)
  }

  lemma ClosedStep(es: seq<Event>, e: Event)
    ensures IsClosed(es + [e]) <==>
              e == LinkClosed || (IsClosed(es) && e != HelloSent && !(e == WelcomeTaken && Welcomed(es)))
  {
    var all := es + [e];
    assert all[..|es|] == es;
    if e == LinkClosed {
      assert ClosedSince(all, |es|);
    } else if IsClosed(es) && e != HelloSent && !(e == WelcomeTaken && Welcomed(es)) {
      var k :| 0 <= k < |es| && ClosedSince(es, k);
      assert forall m | k < m < |es| :: all[m] == es[m] && all[..m] == es[..m];
      assert ClosedSince(all, k);
    }
    if IsClosed(all) && e != LinkClosed {
      var k :| 0 <= k < |all| && ClosedSince(all, k);
      assert all[|es|] == e;
      assert forall m | k < m < |es| :: all[m] == es[m] && all[..m] == es[..m];
      assert ClosedSince(es, k);
    }
  }

  /** Before the first WELCOME, nothing but a close stands between a HELLO and the waiting state. */
  lemma {:induction false} UnwelcomedWaits(cfg: Config, es: seq<Event>)
    ensures var c := After(cfg, FRESH, es);
            && (c.welcome == if Welcomed(es) then Some(Welcome) else None)
            && (c.welcome.None? ==> (c.state == AwaitingWelcome <==> Waiting(es)))
  {
    if es != [] {
      var n := |es| - 1;
      UnwelcomedWaits(cfg, es[..n]);
      assert es == es[..n] + [es[n]];
      WaitingStep(es[..n], es[n]);
      WelcomedStep(es[..n], es[n]);
    }
  }

  /**
   Over every sequence of events: the client is active exactly when Dial took the WELCOME that followed a
   HELLO and neither a close nor a HELLO came since, and disconnected exactly when the link closed and
   Dial has written no state since. A close before Dial takes the WELCOME is overwritten.
   */
  lemma {:induction false} StateIff(cfg: Config, es: seq<Event>)
    ensures After(cfg, FRESH, es).state == Active <==> IsActive(es)
    ensures After(cfg, FRESH, es).state == Disconnected <==> IsClosed(es)
  {
    if es != [] {
      var n := |es| - 1;
      StateIff(cfg, es[..n]);
      UnwelcomedWaits(cfg, es[..n]);
      assert es == es[..n] + [es[n]];
      ActiveStep(es[..n], es[n]);
      ClosedStep(es[..n], es[n]);
    }
  }

  /** A close between the WELCOME and Dial taking it leaves an active client on a closed link. */
  lemma CloseIsOverwritten(cfg: Config)
    ensures After(cfg, FRESH, [HelloSent, Received(Welcome), LinkClosed, WelcomeTaken]).state == Active
  {
    var es := [HelloSent, Received(Welcome), LinkClosed, WelcomeTaken];
    assert Welcomes(es[..3], 0, 1);
    assert ActiveSince(es, 3);
    StateIff(cfg, es);
  }

  /** The messages since the last close that had an effect. */
  function Since(cfg: Config, es: seq<Event>): seq<HubMessage> {
    if es == [] then []
    else
      var before, e := es[..|es| - 1], es[|es| - 1];
      if e.Received? then Since(cfg, before) + [e.m]
      else if e == LinkClosed && After(cfg, FRESH, before).state != Disconnected then []
      else Since(cfg, before)
  }

  /** Over every sequence of events the rooms are what the messages since the last close make of none. */
  lemma {:induction false} RoomsFollowTheClose(cfg: Config, es: seq<Event>)
    ensures After(cfg, FRESH, es).rooms == ApplyAll(cfg, {}, Since(cfg, es))
  {
    if es != [] {
      var n := |es| - 1;
      RoomsFollowTheClose(cfg, es[..n]);
      if es[n].Received? {
        ApplySnoc(cfg, {}, Since(cfg, es[..n]), es[n].m);
      }
    }
  }

  predicate Joins(cfg: Config, m: HubMessage, room: Str) {
    m.Joined? && NormalizeRoom(cfg.lower, m.room) == room
  }

  predicate Parts(cfg: Config, m: HubMessage, room: Str) {
    m.Parted? && NormalizeRoom(cfg.lower, m.room) == room
  }

  /** The last word on the room in `ms` is a JOINED. */
  predicate JoinedLast(cfg: Config, ms: seq<HubMessage>, room: Str) {
    exists i | 0 <= i < |ms| :: Joins(cfg, ms[i], room) && forall j | i < j < |ms| :: !Parts(cfg, ms[j], room)
  }

  lemma {:induction false} RoomsAreLastWords(cfg: Config, ms: seq<HubMessage>, room: Str)
    ensures room in ApplyAll(cfg, {}, ms) <==> JoinedLast(cfg, ms, room)
  {
    if ms != [] {
      var n := |ms| - 1;
      var before := ms[..n];
      RoomsAreLastWords(cfg, before, room);
      if Joins(cfg, ms[n], room) {
        assert JoinedLast(cfg, ms, room);
      } else if !Parts(cfg, ms[n], room) {
        LastWordStays(cfg, before, ms[n], room);
        assert before + [ms[n]] == ms;
      }
    }
  }

  lemma LastWordStays(cfg: Config, ms: seq<HubMessage>, m: HubMessage, room: Str)
    requires !Joins(cfg, m, room) && !Parts(cfg, m, room)
    ensures JoinedLast(cfg, ms + [m], room) <==> JoinedLast(cfg, ms, room)
  {
    var all := ms + [m];
    if JoinedLast(cfg, ms, room) {
      var i :| 0 <= i < |ms| && Joins(cfg, ms[i], room) && forall j | i < j < |ms| :: !Parts(cfg, ms[j], room);
      assert Joins(cfg, all[i], room) && forall j | i < j < |all| :: !Parts(cfg, all[j], room);
    }
    if JoinedLast(cfg, all, room) {
      var i :| 0 <= i < |all| && Joins(cfg, all[i], room) && forall j | i < j < |all| :: !Parts(cfg, all[j], room);
      assert Joins(cfg, ms[i], room);
      assert forall j | i < j < |ms| :: ms[j] == all[j];
    }
  }

  /** The room set is empty exactly when every JOINED since the last close was taken back by a PARTED. */
  lemma ClientIsEmptyIff(cfg: Config, es: seq<Event>)
    ensures After(cfg, FRESH, es).rooms == {} <==> forall room :: !JoinedLast(cfg, Since(cfg, es), room)
  {
    RoomsFollowTheClose(cfg, es);
    forall room
      ensures room in ApplyAll(cfg, {}, Since(cfg, es)) <==> JoinedLast(cfg, Since(cfg, es), room)
    {
      RoomsAreLastWords(cfg, Since(cfg, es), room);
    }
  }

  lemma AfterSnoc(cfg: Config, es: seq<Event>, e: Event)
    ensures After(cfg, FRESH, es + [e]) == OnEvent(cfg, After(cfg, FRESH, es), e)
  {
    assert (es + [e])[..|es|] == es;
  }

  /** A JOINED that arrives behind the close, whatever came before, is noted by a disconnected client. */
  lemma LateJoinedIsNoted(cfg: Config, es: seq<Event>, name: Str)
    requires After(cfg, FRESH, es).state != Disconnected
    ensures var c := After(cfg, FRESH, es + [LinkClosed] + [Received(Joined(name))]);
            c.state == Disconnected && c.rooms == {NormalizeRoom(cfg.lower, name)}
  {
    AfterSnoc(cfg, es, LinkClosed);
    AfterSnoc(cfg, es + [LinkClosed], Received(Joined(name)));
  }

  /** With nothing in flight, the client's own membership test and the hub's give the same answer. */
  lemma MembershipTestsAgree(cfg: Config, steps: seq<Step>, p: nat, env: Envelope)
    requires Lowering(cfg)
    requires var h := Run(cfg, steps);
             p < |h.sessions| && !h.sessions[p].closed && !h.sessions[p].linkDown && h.sessions[p].outbox == []
    ensures var h := Run(cfg, steps);
            NormalizeRoom(cfg.lower, env.room) in h.sessions[p].mirror <==>
            NormalizeRoom(cfg.lower, env.room) in h.sessions[p].rooms
    ensures NormalizeRoom(cfg.lower, env.room) in Run(cfg, steps).sessions[p].mirror ==>
              ContentRefusal(cfg, Run(cfg, steps), p, env, true) != Some("not a member of room")
  {
    ClientMirrorsHub(cfg, steps, p);
  }
}
