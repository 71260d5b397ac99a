/** The rate limiter inside the hub: what each session relays over whole runs. */
module HubRate {
  import opened Basics
  import opened Text
  import opened HubModel
  import opened RateLimiter

  /** The step asks the limiter of session `p`. */
  predicate Asks(cfg: Config, h: Hub, step: Step, p: nat) {
    && step.On? && step.p == p && step.act.Content? && p < |h.sessions|
    && h.sessions[p].key.Some? && h.sessions[p].active && NormalizeRoom(cfg.lower, step.act.env.room) != []
  }

  /** The times at which the limiter of `p` was asked. */
  function Calls(cfg: Config, steps: seq<Step>, p: nat): seq<int> {
    if steps == [] then []
    else
      var before := steps[..|steps| - 1];
      var step := steps[|steps| - 1];
      Calls(cfg, before, p) + (if Asks(cfg, Run(cfg, before), step, p) then [step.act.now] else [])
  }

  /** The step relays a message of `p` to its room. */
  predicate Relays(cfg: Config, h: Hub, step: Step, p: nat) {
    && Asks(cfg, h, step, p)
    && ContentRefusal(cfg, h, p, step.act.env, Admits(h.sessions[p].times, cfg.rateLimit, step.act.now)).None?
  }

  /** The times at which a message of `p` was relayed. */
  function RelayTimes(cfg: Config, steps: seq<Step>, p: nat): seq<int> {
    if steps == [] then []
    else
      var before := steps[..|steps| - 1];
      var step := steps[|steps| - 1];
      RelayTimes(cfg, before, p) + (if Relays(cfg, Run(cfg, before), step, p) then [step.act.now] else [])
  }

  /** Both hubs have the same sessions, and session p has noted the same times. */
  predicate SameTimes(h: Hub, g: Hub, p: nat)
    requires p < |h.sessions|
  {
    |g.sessions| == |h.sessions| && g.sessions[p].times == h.sessions[p].times
  }

  lemma MembershipKeepsTimes(cfg: Config, h: Hub, q: nat, act: Action, p: nat)
    requires q < |h.sessions| && p < |h.sessions| && (act.Join? || act.Part?)
    ensures SameTimes(h, Perform(cfg, h, q, act), p)
  {}

  lemma LinkKeepsTimes(cfg: Config, h: Hub, q: nat, act: Action, p: nat)
    requires q < |h.sessions| && p < |h.sessions| && !act.Join? && !act.Part? && !act.Content?
    ensures SameTimes(h, Perform(cfg, h, q, act), p)
  {}

  lemma OtherActionsKeepTimes(cfg: Config, h: Hub, q: nat, act: Action, p: nat)
    requires q < |h.sessions| && p < |h.sessions| && !act.Content?
    ensures SameTimes(h, Perform(cfg, h, q, act), p)
  {
    if act.Join? || act.Part? {
      MembershipKeepsTimes(cfg, h, q, act, p);
    } else {
      LinkKeepsTimes(cfg, h, q, act, p);
    }
  }

  lemma RefusalsAndRelaysKeepTimes(cfg: Config, h: Hub, q: nat, env: Envelope, admitted: bool, p: nat)
    requires q < |h.sessions| && p < |h.sessions| && h.sessions[q].key.Some?
    ensures SameTimes(h, DoContent(cfg, h, q, env, admitted), p)
  {}

  lemma ContentTimes(cfg: Config, h: Hub, q: nat, env: Envelope, now: int, p: nat)
    requires q < |h.sessions| && p < |h.sessions|
    ensures var g := Perform(cfg, h, q, Content(env, now));
            && |g.sessions| == |h.sessions|
            && g.sessions[p].times ==
               if Asks(cfg, h, On(q, Content(env, now)), p) then Recorded(h.sessions[p].times, cfg.rateLimit, now)
               else h.sessions[p].times
  {
    if Asks(cfg, h, On(q, Content(env, now)), q) {
      RefusalsAndRelaysKeepTimes(cfg, Put(h, q, Timed(cfg, h.sessions[q], now)), q, env,
                                 Admits(h.sessions[q].times, cfg.rateLimit, now), p);
    }
  }

  lemma SessionsStay(cfg: Config, h: Hub, q: nat, act: Action)
    requires q < |h.sessions|
    ensures |Perform(cfg, h, q, act).sessions| == |h.sessions|
  {
    if act.Content? {
      ContentTimes(cfg, h, q, act.env, act.now, q);
    } else {
      OtherActionsKeepTimes(cfg, h, q, act, q);
    }
  }

  /** Only a step that asks the limiter changes the times it keeps. */
  lemma TimesStep(cfg: Config, h: Hub, step: Step, p: nat)
    ensures |h.sessions| <= |Exec(cfg, h, step).sessions|
    ensures p < |h.sessions| ==>
              Exec(cfg, h, step).sessions[p].times ==
              if Asks(cfg, h, step, p) then Recorded(h.sessions[p].times, cfg.rateLimit, step.act.now)
              else h.sessions[p].times
    ensures |h.sessions| <= p < |Exec(cfg, h, step).sessions| ==> Exec(cfg, h, step).sessions[p].times == []
  {
    match step
    case Accept =>
    case CloseHub =>
    case On(q, act) =>
      if q < |h.sessions| {
        SessionsStay(cfg, h, q, act);
        if p < |h.sessions| {
          if act.Content? {
            ContentTimes(cfg, h, q, act.env, act.now, p);
          } else {
            OtherActionsKeepTimes(cfg, h, q, act, p);
          }
        }
      }
  }

  /** In every run the times a session keeps are those that its calls leave in the window. */
  lemma {:induction false} TimesAreWindow(cfg: Config, steps: seq<Step>, p: nat)
    ensures var h := Run(cfg, steps);
            && (p < |h.sessions| && cfg.rateLimit > 0 ==>
                  h.sessions[p].times == Window(cfg.rateLimit, Calls(cfg, steps, p)))
            && (p >= |h.sessions| ==> Calls(cfg, steps, p) == [])
  {
    if steps != [] {
      var n := |steps| - 1;
      var before := steps[..n];
      TimesAreWindow(cfg, before, p);
      TimesStep(cfg, Run(cfg, before), steps[n], p);
      var calls := Calls(cfg, before, p);
      if Asks(cfg, Run(cfg, before), steps[n], p) {
        assert (calls + [steps[n].act.now])[..|calls|] == calls;
      } else {
        assert calls + [] == calls;
      }
    }
  }

  lemma AdmittedSnoc(limit: nat, calls: seq<int>, now: int)
    ensures Admitted(limit, calls + [now]) ==
            Admitted(limit, calls) + if Admits(Window(limit, calls), limit, now) then [now] else []
  {
    assert (calls + [now])[..|calls|] == calls;
  }

  /** One more call: what it relays is among what it admits. */
  lemma OneMoreCall(limit: nat, calls: seq<int>, sent: seq<int>, now: int, relayed: bool, lo: int, hi: int)
    requires Within(sent, lo, hi) <= Within(Admitted(limit, calls), lo, hi)
    requires relayed ==> Admits(Window(limit, calls), limit, now)
    ensures Within(sent + (if relayed then [now] else []), lo, hi) <= Within(Admitted(limit, calls + [now]), lo, hi)
  {
    var yes := Admitted(limit, calls);
    AdmittedSnoc(limit, calls, now);
    if relayed {
      WithinSnoc(sent, now, lo, hi);
      WithinSnoc(yes, now, lo, hi);
    } else {
      assert sent + [] == sent;
      if Admits(Window(limit, calls), limit, now) {
        WithinSnoc(yes, now, lo, hi);
      } else {
        assert yes + [] == yes;
      }
    }
  }

  /** A relayed message was admitted by the limiter. */
  lemma RelayedIsAdmitted(cfg: Config, h: Hub, step: Step, p: nat)
    requires Relays(cfg, h, step, p)
    ensures Admits(h.sessions[p].times, cfg.rateLimit, step.act.now)
  {}

  /** What is relayed was admitted. */
  lemma {:induction false} RelaysAreAdmitted(cfg: Config, steps: seq<Step>, p: nat, lo: int, hi: int)
    requires cfg.rateLimit > 0
    ensures Within(RelayTimes(cfg, steps, p), lo, hi) <= Within(Admitted(cfg.rateLimit, Calls(cfg, steps, p)), lo, hi)
  {
    if steps != [] {
      var n := |steps| - 1;
      var before, h := steps[..n], Run(cfg, steps[..n]);
      RelaysAreAdmitted(cfg, before, p, lo, hi);
      var calls, sent := Calls(cfg, before, p), RelayTimes(cfg, before, p);
      var relayed := Relays(cfg, h, steps[n], p);
      if Asks(cfg, h, steps[n], p) {
        TimesAreWindow(cfg, before, p);
        if relayed {
          RelayedIsAdmitted(cfg, h, steps[n], p);
        }
        OneMoreCall(cfg.rateLimit, calls, sent, steps[n].act.now, relayed, lo, hi);
      } else {
        assert calls + [] == calls && sent + [] == sent;
      }
    }
  }

  /**
   The times of one session do not go back. Between sessions nothing is asked: the clock is read before
   the lock is taken.
   */
  predicate ClockForward(steps: seq<Step>, p: nat) {
    forall i, j | 0 <= i < j < |steps| && TakesTime(steps[i], p) && TakesTime(steps[j], p) ::
      steps[i].act.now <= steps[j].act.now
  }

  predicate TakesTime(step: Step, p: nat) {
    step.On? && step.p == p && step.act.Content?
  }

  /** `t` was given by some step. */
  predicate GivenBy(steps: seq<Step>, p: nat, t: int) {
    exists i | 0 <= i < |steps| :: TakesTime(steps[i], p) && steps[i].act.now == t
  }

  lemma GivenEarlier(steps: seq<Step>, p: nat, t: int)
    requires steps != [] && GivenBy(steps[..|steps| - 1], p, t)
    ensures GivenBy(steps, p, t)
    ensures ClockForward(steps, p) && TakesTime(steps[|steps| - 1], p) ==> t <= steps[|steps| - 1].act.now
  {
    var before := steps[..|steps| - 1];
    var i :| 0 <= i < |before| && TakesTime(before[i], p) && before[i].act.now == t;
    assert TakesTime(steps[i], p) && steps[i].act.now == t;
  }

  lemma {:induction false} CallsGoForward(cfg: Config, steps: seq<Step>, p: nat)
    requires ClockForward(steps, p)
    ensures var calls := Calls(cfg, steps, p);
            Forward(calls) && (calls != [] ==> GivenBy(steps, p, calls[|calls| - 1]))
  {
    if steps != [] {
      var n := |steps| - 1;
      var before := steps[..n];
      CallsGoForward(cfg, before, p);
      var calls := Calls(cfg, before, p);
      if calls != [] {
        GivenEarlier(steps, p, calls[|calls| - 1]);
      }
      if Asks(cfg, Run(cfg, before), steps[n], p) {
        assert TakesTime(steps[n], p);
        ForwardPrefix(calls, steps[n].act.now);
      } else {
        assert calls + [] == calls;
      }
    }
  }

  /** In every run of the hub, no session has more messages relayed in a minute than the limit. */
  lemma HubKeepsTheRate(cfg: Config, steps: seq<Step>, p: nat, s: int)
    requires cfg.rateLimit > 0 && ClockForward(steps, p)
    ensures Within(RelayTimes(cfg, steps, p), s, s + MINUTE) <= cfg.rateLimit
  {
    CallsGoForward(cfg, steps, p);
    RelaysAreAdmitted(cfg, steps, p, s, s + MINUTE);
    AllowRateKeepsTheLimit(cfg.rateLimit, Calls(cfg, steps, p), s);
  }
}
