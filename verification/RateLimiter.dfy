/** The per-session sliding window of pkg/rrc/hub.go, allowRate. Times are nanoseconds. */
module RateLimiter {

  /** time.Minute */
  const MINUTE := 60_000_000_000

  /** The entries later than `cutoff`, in order. */
  function After(times: seq<int>, cutoff: int): (r: seq<int>) {
    if times == [] then []
    else
      var rest := After(times[..|times| - 1], cutoff);
      if times[|times| - 1] > cutoff then rest + [times[|times| - 1]] else rest
  }

  /** One call of allowRate on the recorded times: what is recorded afterwards. */
  function Recorded(times: seq<int>, limit: nat, now: int): seq<int> {
    if limit == 0 then times
    else
      var kept := After(times, now - MINUTE);
      if |kept| >= limit then kept else kept + [now]
  }

  predicate Admits(times: seq<int>, limit: nat, now: int) {
    limit == 0 || |After(times, now - MINUTE)| < limit
  }

  // ---------------------------------------------------------------- the object

  /** p.msgTimes: a slice, that is a buffer and the length in use. */
  class MessageTimes {
    var buf: array<int>
    var len: nat

    ghost predicate Valid()
      reads this
    {
      len <= buf.Length
    }

    ghost function Times(): seq<int>
      reads this, buf
      requires Valid()
    {
      buf[..len]
    }

    constructor ()
      ensures Valid() && Times() == [] && fresh(buf)
    {
      buf := new int[8];
      len := 0;
    }

    /** The loop that compacts the slice over itself; an entry is read before its slot is reused. */
    method Compact(cutoff: int)
      requires Valid()
      modifies this`len, buf
      ensures Valid() && buf == old(buf) && Times() == After(old(Times()), cutoff)
    {
      ghost var was := buf[..len];
      var kept := 0;
      for i := 0 to len
        invariant kept <= i && buf == old(buf) && len == old(len)
        invariant buf[..kept] == After(was[..i], cutoff)
        invariant buf[i..len] == was[i..]
      {
        assert was[..i + 1][..i] == was[..i];
        assert buf[i] == was[i];
        if buf[i] > cutoff {
          buf[kept] := buf[i];
          kept := kept + 1;
        }
        assert buf[i + 1..len] == was[i + 1..];
      }
      assert was[..len] == was;
      len := kept;
    }

    /** append: a full buffer is replaced by a larger one. */
    method Append(t: int)
      requires Valid()
      modifies this, buf
      ensures Valid() && (buf == old(buf) || fresh(buf)) && Times() == old(Times()) + [t]
    {
      if len == buf.Length {
        var bigger := new int[2 * len + 1];
        forall i | 0 <= i < len {
          bigger[i] := buf[i];
        }
        buf := bigger;
      }
      buf[len] := t;
      len := len + 1;
    }

    method AllowRate(limit: nat, now: int) returns (ok: bool)
      requires Valid()
      modifies this, buf
      ensures Valid() && (buf == old(buf) || fresh(buf))
      ensures ok == Admits(old(Times()), limit, now)
      ensures Times() == Recorded(old(Times()), limit, now)
    {
      if limit == 0 {
        return true;
      }
      Compact(now - MINUTE);
      if len >= limit {
        return false;
      }
      Append(now);
      return true;
    }
  }

  // ---------------------------------------------------------------- runs

  /** What allowRate has recorded after a run of calls at the given times. */
  function Window(limit: nat, calls: seq<int>): seq<int> {
    if calls == [] then [] else Recorded(Window(limit, calls[..|calls| - 1]), limit, calls[|calls| - 1])
  }

  /** A limiter that never forgets: all the times it has admitted. */
  function History(limit: nat, calls: seq<int>): seq<int> {
    if calls == [] then []
    else
      var before := History(limit, calls[..|calls| - 1]);
      if Admits(before, limit, calls[|calls| - 1]) then before + [calls[|calls| - 1]] else before
  }

  /** The clock never goes back. */
  predicate Forward(calls: seq<int>) {
    |calls| < 2 || (calls[|calls| - 2] <= calls[|calls| - 1] && Forward(calls[..|calls| - 1]))
  }

  lemma AfterSnoc(times: seq<int>, t: int, cutoff: int)
    ensures After(times + [t], cutoff) == if t > cutoff then After(times, cutoff) + [t] else After(times, cutoff)
  {
    assert (times + [t])[..|times|] == times;
  }

  function Max(a: int, b: int): int {
    if a < b then b else a
  }

  lemma {:induction false} AfterBoth(times: seq<int>, a: int, b: int)
    ensures After(After(times, a), b) == After(times, Max(a, b))
  {
    if times != [] {
      var n := |times| - 1;
      AfterBoth(times[..n], a, b);
      AfterSnoc(After(times[..n], a), times[n], b);
    }
  }

  lemma StillRecent(pruned: seq<int>, full: seq<int>, early: int, late: int)
    requires pruned == After(full, early) && early <= late
    ensures After(pruned, late) == After(full, late)
  {
    AfterBoth(full, early, late);
  }

  /** One call on a pruned list and on the full history that agree above the cut-off. */
  lemma PrunedStep(pruned: seq<int>, full: seq<int>, limit: nat, now: int)
    requires limit > 0 && After(pruned, now - MINUTE) == After(full, now - MINUTE)
    ensures Recorded(pruned, limit, now) ==
            After(if Admits(full, limit, now) then full + [now] else full, now - MINUTE)
  {
    AfterSnoc(full, now, now - MINUTE);
  }

  lemma RecentSnoc(limit: nat, before: seq<int>, now: int)
    requires limit > 0
    requires before != [] ==>
               && before[|before| - 1] <= now
               && Window(limit, before) == After(History(limit, before), before[|before| - 1] - MINUTE)
    ensures Window(limit, before + [now]) == After(History(limit, before + [now]), now - MINUTE)
  {
    var pruned, full := Window(limit, before), History(limit, before);
    if before != [] {
      StillRecent(pruned, full, before[|before| - 1] - MINUTE, now - MINUTE);
    }
    assert (before + [now])[..|before|] == before;
    PrunedStep(pruned, full, limit, now);
  }

  lemma {:induction false} RecentRun(limit: nat, before: seq<int>, now: int)
    requires limit > 0 && Forward(before + [now])
    ensures Window(limit, before + [now]) == After(History(limit, before + [now]), now - MINUTE)
    decreases |before|
  {
    ForwardPrefix(before, now);
    if before != [] {
      var init, last := before[..|before| - 1], before[|before| - 1];
      assert init + [last] == before;
      RecentRun(limit, init, last);
    }
    RecentSnoc(limit, before, now);
  }

  /** The pruned list always holds exactly the last minute of the full history. */
  lemma WindowIsRecentHistory(limit: nat, calls: seq<int>)
    requires limit > 0 && calls != [] && Forward(calls)
    ensures Window(limit, calls) == After(History(limit, calls), calls[|calls| - 1] - MINUTE)
  {
    var init, last := calls[..|calls| - 1], calls[|calls| - 1];
    assert init + [last] == calls;
    RecentRun(limit, init, last);
  }

  /** Pruning never changes an answer: each call decides as it would over the full history. */
  lemma PruningIsExact(limit: nat, calls: seq<int>, now: int)
    requires limit > 0 && Forward(calls + [now])
    ensures Admits(Window(limit, calls), limit, now) <==> Admits(History(limit, calls), limit, now)
  {
    if calls != [] {
      ForwardPrefix(calls, now);
      WindowIsRecentHistory(limit, calls);
      StillRecent(Window(limit, calls), History(limit, calls), calls[|calls| - 1] - MINUTE, now - MINUTE);
    }
  }

  lemma ForwardPrefix(calls: seq<int>, now: int)
    ensures Forward(calls + [now]) <==> Forward(calls) && (calls != [] ==> calls[|calls| - 1] <= now)
  {
    assert (calls + [now])[..|calls|] == calls;
  }

  lemma {:induction false} ForwardBetween(calls: seq<int>, j: nat)
    requires Forward(calls) && j < |calls|
    ensures calls[j] <= calls[|calls| - 1]
  {
    if j < |calls| - 1 {
      ForwardBetween(calls[..|calls| - 1], j);
    }
  }

  /** How many entries lie in the half-open interval (lo, hi]. */
  function Within(times: seq<int>, lo: int, hi: int): nat {
    if times == [] then 0
    else Within(times[..|times| - 1], lo, hi) + if lo < times[|times| - 1] <= hi then 1 else 0
  }

  lemma {:induction false} WithinIsAtMostAfter(times: seq<int>, lo: int, hi: int, cutoff: int)
    requires cutoff <= lo
    ensures Within(times, lo, hi) <= |After(times, cutoff)|
  {
    if times != [] {
      WithinIsAtMostAfter(times[..|times| - 1], lo, hi, cutoff);
    }
  }

  lemma WithinSnoc(times: seq<int>, t: int, lo: int, hi: int)
    ensures Within(times + [t], lo, hi) == Within(times, lo, hi) + if lo < t <= hi then 1 else 0
  {
    assert (times + [t])[..|times|] == times;
  }

  /** Over any run of the unpruned limiter, no minute (s, s + 1 min] sees more admissions than the limit. */
  lemma {:induction false} NoMinuteExceedsTheLimit(limit: nat, calls: seq<int>, s: int)
    requires limit > 0
    ensures Within(History(limit, calls), s, s + MINUTE) <= limit
  {
    if calls != [] {
      var n := |calls| - 1;
      var full := History(limit, calls[..n]);
      NoMinuteExceedsTheLimit(limit, calls[..n], s);
      if Admits(full, limit, calls[n]) && s < calls[n] <= s + MINUTE {
        WithinIsAtMostAfter(full, s, s + MINUTE, calls[n] - MINUTE);
      }
      WithinSnoc(full, calls[n], s, s + MINUTE);
    }
  }

  /** The admissions of the object are those of the unpruned limiter. */
  lemma {:induction false} AdmissionsAreHistory(limit: nat, calls: seq<int>)
    requires limit > 0 && Forward(calls)
    ensures Admitted(limit, calls) == History(limit, calls)
  {
    if calls != [] {
      var n := |calls| - 1;
      AdmissionsAreHistory(limit, calls[..n]);
      assert calls[..n] + [calls[n]] == calls;
      PruningIsExact(limit, calls[..n], calls[n]);
    }
  }

  /** The times at which the object answered yes. */
  function Admitted(limit: nat, calls: seq<int>): seq<int> {
    if calls == [] then []
    else
      var n := |calls| - 1;
      Admitted(limit, calls[..n]) + if Admits(Window(limit, calls[..n]), limit, calls[n]) then [calls[n]] else []
  }

  /** The object itself keeps the limit over every minute, while the clock does not go back. */
  lemma AllowRateKeepsTheLimit(limit: nat, calls: seq<int>, s: int)
    requires limit > 0 && Forward(calls)
    ensures Within(Admitted(limit, calls), s, s + MINUTE) <= limit
  {
    AdmissionsAreHistory(limit, calls);
    NoMinuteExceedsTheLimit(limit, calls, s);
  }

  lemma {:induction false} AllUntilNow(times: seq<int>, cutoff: int, now: int)
    requires forall i | 0 <= i < |times| :: times[i] <= now
    ensures Within(times, cutoff, now) == |After(times, cutoff)|
  {
    if times != [] {
      AllUntilNow(times[..|times| - 1], cutoff, now);
    }
  }

  lemma {:induction false} AdmittedAreCalls(limit: nat, calls: seq<int>, i: nat)
    requires i < |Admitted(limit, calls)|
    ensures Admitted(limit, calls)[i] in calls
  {
    var n := |calls| - 1;
    if i < |Admitted(limit, calls[..n])| {
      AdmittedAreCalls(limit, calls[..n], i);
    }
  }

  lemma AdmittedUntilNow(limit: nat, calls: seq<int>, now: int)
    requires Forward(calls + [now])
    ensures forall i | 0 <= i < |Admitted(limit, calls)| :: Admitted(limit, calls)[i] <= now
  {
    forall i | 0 <= i < |Admitted(limit, calls)|
      ensures Admitted(limit, calls)[i] <= now
    {
      AdmittedAreCalls(limit, calls, i);
      var j :| 0 <= j < |calls| && calls[j] == Admitted(limit, calls)[i];
      ForwardBetween(calls + [now], j);
    }
  }

  /** Neither too late nor too early: a call is admitted exactly when the last minute saw fewer than `limit`. */
  lemma AdmittedIff(limit: nat, calls: seq<int>, now: int)
    requires Forward(calls + [now])
    ensures Admits(Window(limit, calls), limit, now) <==>
              limit == 0 || Within(Admitted(limit, calls), now - 60_000_000_000, now) < limit
  {
    if limit > 0 {
      ForwardPrefix(calls, now);
      PruningIsExact(limit, calls, now);
      AdmissionsAreHistory(limit, calls);
      AdmittedUntilNow(limit, calls, now);
      AllUntilNow(Admitted(limit, calls), now - MINUTE, now);
    }
  }

  // ---------------------------------------------------------------- any clock

  /** An admission later than `cut` was pruned by a call that came a minute or more after it. */
  predicate Lost(limit: nat, calls: seq<int>, cut: int) {
    exists j | 0 <= j < |calls| :: LostAt(limit, calls, j, cut)
  }

  predicate LostAt(limit: nat, calls: seq<int>, j: nat, cut: int)
    requires j < |calls|
  {
    HoldsBetween(Admitted(limit, calls[..j]), cut, calls[j] - MINUTE)
  }

  /** Some entry lies in (lo, hi]. */
  predicate HoldsBetween(times: seq<int>, lo: int, hi: int) {
    exists i | 0 <= i < |times| :: lo < times[i] <= hi
  }

  /** Raising the cut-off drops entries exactly when some lie in between. */
  lemma {:induction false} AfterDrops(times: seq<int>, lo: int, hi: int)
    requires lo <= hi
    ensures |After(times, hi)| <= |After(times, lo)|
    ensures |After(times, hi)| == |After(times, lo)| <==> !HoldsBetween(times, lo, hi)
  {
    if times != [] {
      var n := |times| - 1;
      AfterDrops(times[..n], lo, hi);
      if HoldsBetween(times[..n], lo, hi) {
        var i :| 0 <= i < n && lo < times[..n][i] <= hi;
        assert lo < times[i] <= hi;
      }
      if lo < times[n] <= hi {
        assert HoldsBetween(times, lo, hi);
      } else if HoldsBetween(times, lo, hi) {
        var i :| 0 <= i < |times| && lo < times[i] <= hi;
        assert times[..n][i] == times[i];
      }
    }
  }

  /** One more call: loss is loss before it, or an admission that it prunes. */
  lemma LostStep(limit: nat, calls: seq<int>, now: int, cut: int)
    ensures Lost(limit, calls + [now], cut) <==>
              Lost(limit, calls, cut) || HoldsBetween(Admitted(limit, calls), cut, now - MINUTE)
  {
    var all := calls + [now];
    assert all[..|calls|] == calls;
    if Lost(limit, calls, cut) {
      var j :| 0 <= j < |calls| && LostAt(limit, calls, j, cut);
      assert all[..j] == calls[..j];
      assert LostAt(limit, all, j, cut);
    }
    if HoldsBetween(Admitted(limit, calls), cut, now - MINUTE) {
      assert LostAt(limit, all, |calls|, cut);
    }
    if Lost(limit, all, cut) {
      var j :| 0 <= j < |all| && LostAt(limit, all, j, cut);
      if j < |calls| {
        assert all[..j] == calls[..j];
        assert LostAt(limit, calls, j, cut);
      }
    }
  }

  lemma {:induction false} AdmittedPrefix(limit: nat, calls: seq<int>, j: nat, i: nat)
    requires j <= |calls| && i < |Admitted(limit, calls[..j])|
    ensures i < |Admitted(limit, calls)| && Admitted(limit, calls)[i] == Admitted(limit, calls[..j])[i]
  {
    if j < |calls| {
      var n := |calls| - 1;
      assert calls[..n][..j] == calls[..j];
      AdmittedPrefix(limit, calls[..n], j, i);
    } else {
      assert calls[..j] == calls;
    }
  }

  /** A loss above `cut` is one above a later cut-off too, if nothing was admitted in between. */
  lemma LostAbove(limit: nat, calls: seq<int>, cut: int, later: int)
    requires cut <= later && !HoldsBetween(Admitted(limit, calls), cut, later)
    ensures Lost(limit, calls, later) <==> Lost(limit, calls, cut)
  {
    if Lost(limit, calls, later) {
      var j :| 0 <= j < |calls| && LostAt(limit, calls, j, later);
      var i :| 0 <= i < |Admitted(limit, calls[..j])| && later < Admitted(limit, calls[..j])[i] <= calls[j] - MINUTE;
      assert LostAt(limit, calls, j, cut);
    }
    if Lost(limit, calls, cut) {
      var j :| 0 <= j < |calls| && LostAt(limit, calls, j, cut);
      var i :| 0 <= i < |Admitted(limit, calls[..j])| && cut < Admitted(limit, calls[..j])[i] <= calls[j] - MINUTE;
      AdmittedPrefix(limit, calls, j, i);
      assert later < Admitted(limit, calls[..j])[i];
      assert LostAt(limit, calls, j, later);
    }
  }

  lemma WindowSnoc(limit: nat, calls: seq<int>, now: int)
    requires limit > 0
    ensures Window(limit, calls + [now]) ==
            After(Window(limit, calls), now - MINUTE) + (if Admits(Window(limit, calls), limit, now) then [now] else [])
    ensures Admitted(limit, calls + [now]) ==
            Admitted(limit, calls) + (if Admits(Window(limit, calls), limit, now) then [now] else [])
  {
    assert (calls + [now])[..|calls|] == calls;
  }

  /** Counts behind one more call, given those before it. */
  lemma CountStep(w: seq<int>, a: seq<int>, now: int, yes: bool, cut: int)
    ensures var w' := After(w, now - MINUTE) + (if yes then [now] else []);
            var a' := a + (if yes then [now] else []);
            |After(a', cut)| - |After(w', cut)| == |After(a, cut)| - |After(w, Max(now - MINUTE, cut))|
  {
    AfterBoth(w, now - MINUTE, cut);
    AfterSnoc(After(w, now - MINUTE), now, cut);
    AfterSnoc(a, now, cut);
    assert After(w, now - MINUTE) + [] == After(w, now - MINUTE) && a + [] == a;
  }

  /**
   Whatever the clock does: the pruned list holds all admissions later than `cut` exactly when none of
   them was lost, and never more than all.
   */
  lemma {:induction false} PruningIsExactIff(limit: nat, calls: seq<int>, cut: int)
    requires limit > 0
    ensures |After(Window(limit, calls), cut)| <= |After(Admitted(limit, calls), cut)|
    ensures |After(Window(limit, calls), cut)| == |After(Admitted(limit, calls), cut)| <==> !Lost(limit, calls, cut)
    decreases |calls|
  {
    if calls != [] {
      var n := |calls| - 1;
      var before, now := calls[..n], calls[n];
      assert calls == before + [now];
      var w, a := Window(limit, before), Admitted(limit, before);
      var later := Max(now - MINUTE, cut);
      WindowSnoc(limit, before, now);
      CountStep(w, a, now, Admits(w, limit, now), cut);
      PruningIsExactIff(limit, before, later);
      AfterDrops(a, cut, later);
      LostStep(limit, before, now, cut);
      if later == now - MINUTE {
        if !HoldsBetween(a, cut, later) {
          LostAbove(limit, before, cut, later);
        }
      } else {
        assert !HoldsBetween(a, cut, now - MINUTE);
      }
    }
  }

  /** A clock that does not go back loses nothing that still counts. */
  lemma ForwardLosesNothing(limit: nat, calls: seq<int>, now: int)
    requires limit > 0 && Forward(calls + [now])
    ensures !Lost(limit, calls, now - MINUTE)
  {
    var all, cut := calls + [now], now - MINUTE;
    forall j | 0 <= j < |calls|
      ensures !LostAt(limit, calls, j, cut)
    {
      ForwardBetween(all, j);
    }
  }

  lemma OneEntry(t: int, cutoff: int)
    ensures After([t], cutoff) == if t > cutoff then [t] else []
  {
    AfterSnoc([], t, cutoff);
    assert [] + [t] == [t];
  }

  lemma TwoEntries(t: int, u: int, cutoff: int)
    ensures After([t, u], cutoff) == After([t], cutoff) + After([u], cutoff)
  {
    AfterSnoc([t], u, cutoff);
    OneEntry(u, cutoff);
    assert [t] + [u] == [t, u];
  }

  lemma TwoCalls(t: int)
    ensures Window(2, [t, t]) == [t, t] && Admitted(2, [t, t]) == [t, t]
  {
    var none: seq<int> := [];
    assert none + [t] == [t];
    WindowSnoc(2, none, t);
    OneEntry(t, t - MINUTE);
    assert [t] + [t] == [t, t];
    WindowSnoc(2, [t], t);
  }

  lemma CallMuchLater(t: int, u: int)
    requires u >= t + 2 * MINUTE
    ensures Window(2, [t, t, u]) == [u] && Admitted(2, [t, t, u]) == [t, t, u]
  {
    TwoCalls(t);
    OneEntry(t, u - MINUTE);
    TwoEntries(t, t, u - MINUTE);
    assert [t, t] + [u] == [t, t, u];
    WindowSnoc(2, [t, t], u);
  }

  /**
   What Forward is needed for: whenever the clock jumps two minutes ahead and then back, which a
   monotonic clock cannot do, the limit of two lets three messages of one instant through.
   */
  lemma ForwardIsNeeded(t: int, u: int)
    requires u >= t + 2 * MINUTE
    ensures Within(Admitted(2, [t, t, u, t]), t - MINUTE, t) == 3
  {
    CallMuchLater(t, u);
    OneEntry(u, t - MINUTE);
    assert [t, t, u] + [t] == [t, t, u, t];
    WindowSnoc(2, [t, t, u], t);
    ThreeOfFour(t, u);
  }

  lemma ThreeOfFour(t: int, u: int)
    requires u > t
    ensures Within([t, t, u, t], t - MINUTE, t) == 3
  {
    assert [] + [t] == [t] && [t] + [t] == [t, t] && [t, t] + [u] == [t, t, u] && [t, t, u] + [t] == [t, t, u, t];
    WithinSnoc([], t, t - MINUTE, t);
    WithinSnoc([t], t, t - MINUTE, t);
    WithinSnoc([t, t], u, t - MINUTE, t);
    WithinSnoc([t, t, u], t, t - MINUTE, t);
  }
}
