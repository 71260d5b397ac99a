/**
 The parallel search of GenerateStamp (pkg/lxmf/stamper.go): workers, a channel with one slot, a
 context that is cancelled by the caller or by the first finder, a closer that waits for the
 workers, and the receiver. Every interleaving is a sequence of the steps below.
 */
module StampSearch {
  import opened Basics
  import opened Octets
  import opened Stamps

  /** Where a worker is in its loop. */
  datatype Worker =
    | Checking              // at the select on subCtx.Done()
    | Drawing               // past it, about to read a candidate
    | Holding(found: bytes) // at the select that deposits
    | Deposited             // about to call cancel()
    | Finished

  datatype Receiver = Waiting | Got(stamp: bytes) | NotFound

  /** `deposits` records every stamp ever put into the channel. */
  datatype Search = Search(workers: seq<Worker>, slot: Option<bytes>, closed: bool, cancelled: bool,
                           receiver: Receiver, deposits: seq<bytes>)

  datatype Step =
    | Continue(i: nat)                  // default branch: the context is not done
    | Stop(i: nat)                      // <-subCtx.Done()
    | ReadFails(i: nat)                 // rand.Read returns an error
    | Miss(i: nat, candidate: bytes)
    | Hit(i: nat, candidate: bytes)
    | Deposit(i: nat)
    | GiveUp(i: nat)                    // <-subCtx.Done() instead of depositing
    | CancelOthers(i: nat)
    | CallerCancels
    | CloseChannel
    | Receive
    | ReceiveClosed

  /** The test a worker makes on a candidate. */
  datatype Job = Job(c: Crypto, workblock: bytes, cost: int)

  predicate Good(job: Job, candidate: bytes) {
    |candidate| == STAMP_SIZE && Meets(Hashed(job.c, job.workblock, candidate), job.cost)
  }

  predicate Enabled(job: Job, s: Search, step: Step) {
    match step
    case Continue(i) => i < |s.workers| && s.workers[i] == Checking && !s.cancelled
    case Stop(i) => i < |s.workers| && s.workers[i] == Checking && s.cancelled
    case ReadFails(i) => i < |s.workers| && s.workers[i] == Drawing
    case Miss(i, candidate) =>
      i < |s.workers| && s.workers[i] == Drawing && |candidate| == STAMP_SIZE && !Good(job, candidate)
    case Hit(i, candidate) => i < |s.workers| && s.workers[i] == Drawing && Good(job, candidate)
    case Deposit(i) => i < |s.workers| && s.workers[i].Holding? && s.slot.None?
    case GiveUp(i) => i < |s.workers| && s.workers[i].Holding? && s.cancelled
    case CancelOthers(i) => i < |s.workers| && s.workers[i] == Deposited
    case CallerCancels => !s.cancelled
    case CloseChannel => !s.closed && forall i | 0 <= i < |s.workers| :: s.workers[i] == Finished
    case Receive => s.receiver == Waiting && s.slot.Some?
    case ReceiveClosed => s.receiver == Waiting && s.slot.None? && s.closed
  }

  function Next(job: Job, s: Search, step: Step): Search
    requires Enabled(job, s, step)
  {
    match step
    case Continue(i) => s.(workers := s.workers[i := Drawing])
    case Stop(i) => s.(workers := s.workers[i := Finished])
    case ReadFails(i) => s.(workers := s.workers[i := Finished])
    case Miss(i, _) => s.(workers := s.workers[i := Checking])
    case Hit(i, candidate) => s.(workers := s.workers[i := Holding(candidate)])
    case Deposit(i) =>
      s.(workers := s.workers[i := Deposited], slot := Some(s.workers[i].found),
         deposits := s.deposits + [s.workers[i].found])
    case GiveUp(i) => s.(workers := s.workers[i := Finished])
    case CancelOthers(i) => s.(workers := s.workers[i := Finished], cancelled := true)
    case CallerCancels => s.(cancelled := true)
    case CloseChannel => s.(closed := true)
    // the deferred cancel() runs as the function returns
    case Receive => s.(receiver := Got(s.slot.value), slot := None, cancelled := true)
    case ReceiveClosed => s.(receiver := NotFound, cancelled := true)
  }

  function AllChecking(n: nat): (ws: seq<Worker>)
    ensures |ws| == n && forall i | 0 <= i < n :: ws[i] == Checking
  {
    if n == 0 then [] else AllChecking(n - 1) + [Checking]
  }

  function Start(workers: nat): Search {
    Search(AllChecking(workers), None, false, false, Waiting, [])
  }

  /** `trace` is the sequence of states that a run passes through. */
  ghost predicate IsRun(job: Job, workers: nat, trace: seq<Search>) {
    && |trace| > 0 && trace[0] == Start(workers)
    && forall i | 0 < i < |trace| :: CanFollow(job, trace[i - 1], trace[i])
  }

  ghost predicate CanFollow(job: Job, s: Search, t: Search) {
    exists step :: Enabled(job, s, step) && t == Next(job, s, step)
  }

  // ---------------------------------------------------------------- safety

  ghost predicate Safe(job: Job, s: Search) {
    && (forall i | 0 <= i < |s.workers| && s.workers[i].Holding? :: Good(job, s.workers[i].found))
    && (s.slot.Some? ==> s.slot.value in s.deposits)
    && (forall d | d in s.deposits :: Good(job, d))
    && (s.closed ==> forall i | 0 <= i < |s.workers| :: s.workers[i] == Finished)
    && (s.receiver.Got? ==> s.receiver.stamp in s.deposits)
    && (s.receiver == NotFound ==> s.closed && s.deposits == [])
    && (s.receiver == Waiting && s.slot.None? ==> s.deposits == [])
  }

  lemma StepKeepsSafe(job: Job, s: Search, step: Step)
    requires Safe(job, s) && Enabled(job, s, step)
    ensures Safe(job, Next(job, s, step))
  {}

  lemma {:induction false} EveryRunIsSafe(job: Job, workers: nat, trace: seq<Search>, i: nat)
    requires IsRun(job, workers, trace) && i < |trace|
    ensures Safe(job, trace[i])
  {
    if i > 0 {
      EveryRunIsSafe(job, workers, trace, i - 1);
      assert CanFollow(job, trace[i - 1], trace[i]);
      var step :| Enabled(job, trace[i - 1], step) && trace[i] == Next(job, trace[i - 1], step);
      StepKeepsSafe(job, trace[i - 1], step);
    }
  }

  /** A stamp that the search returns meets the target and was deposited by a worker. */
  lemma ReturnedStampIsGood(job: Job, workers: nat, trace: seq<Search>, i: nat)
    requires IsRun(job, workers, trace) && i < |trace| && trace[i].receiver.Got?
    ensures Good(job, trace[i].receiver.stamp) && trace[i].receiver.stamp in trace[i].deposits
    ensures 1 <= job.cost <= 256 ==> StampValid(job.c, trace[i].receiver.stamp, job.cost, job.workblock)
  {
    EveryRunIsSafe(job, workers, trace, i);
  }

  /** Nothing but zeros is at most zero. */
  lemma {:induction false} AtMostZero(d: bytes, z: bytes)
    requires |d| == |z| && LexLeq(d, z) && forall i | 0 <= i < |z| :: z[i] == 0
    ensures d == z
  {
    if d != [] {
      AtMostZero(d[1..], z[1..]);
      assert d == [d[0]] + d[1..] && z == [z[0]] + z[1..];
    }
  }

  /**
   The search takes every positive cost, but what it returns is valid exactly up to cost 256; from
   there on only a digest of zeros satisfies it.
   */
  lemma ReturnedStampIsValidIff(job: Job, workers: nat, trace: seq<Search>, i: nat)
    requires IsRun(job, workers, trace) && i < |trace| && trace[i].receiver.Got? && job.cost >= 1
    ensures StampValid(job.c, trace[i].receiver.stamp, job.cost, job.workblock) <==> job.cost <= 256
    ensures job.cost >= 256 ==> Hashed(job.c, job.workblock, trace[i].receiver.stamp) == ZERO32
  {
    ReturnedStampIsGood(job, workers, trace, i);
    if job.cost >= 256 {
      AtMostZero(Hashed(job.c, job.workblock, trace[i].receiver.stamp), ZERO32);
    }
  }

  /** The run ends with the receiver holding `st`. */
  predicate Returns(trace: seq<Search>, st: bytes) {
    trace != [] && trace[|trace| - 1].receiver == Got(st)
  }

  /** Whatever the job and the number of workers: a candidate that meets the target is returned by some run. */
  lemma SomeRunReturns(job: Job, workers: nat, st: bytes) returns (trace: seq<Search>)
    requires workers >= 1 && Good(job, st)
    ensures IsRun(job, workers, trace) && Returns(trace, st)
  {
    var s0 := Start(workers);
    var s1 := Next(job, s0, Continue(0));
    var s2 := Next(job, s1, Hit(0, st));
    var s3 := Next(job, s2, Deposit(0));
    var s4 := Next(job, s3, Receive);
    trace := [s0, s1, s2, s3, s4];
    assert CanFollow(job, s0, s1) && CanFollow(job, s1, s2) && CanFollow(job, s2, s3) && CanFollow(job, s3, s4);
  }

  /** The runs of the search return exactly the candidates that meet the target. */
  lemma SearchReturnsIff(job: Job, workers: nat, st: bytes)
    requires workers >= 1
    ensures (exists trace :: IsRun(job, workers, trace) && Returns(trace, st)) <==> Good(job, st)
    ensures job.cost >= 1 ==>
              (Good(job, st) <==>
                 |st| == 32 && FromBE(job.c.sha256(job.workblock + st)) <=
                               if job.cost >= 256 then 0 else Pow2(256 - job.cost))
  {
    if job.cost >= 1 {
      MeetsIsNumeric(Hashed(job.c, job.workblock, st), job.cost);
    }
    if Good(job, st) {
      var trace := SomeRunReturns(job, workers, st);
    }
    if trace :| IsRun(job, workers, trace) && Returns(trace, st) {
      ReturnedStampIsGood(job, workers, trace, |trace| - 1);
    }
  }

  /** Above cost 256 they return exactly the candidates that hash to zero, and the check rejects each of them. */
  lemma OverpricedSearchReturnsIff(job: Job, workers: nat, st: bytes)
    requires workers >= 1 && job.cost > 256
    ensures (exists trace :: IsRun(job, workers, trace) && Returns(trace, st)) <==>
              |st| == STAMP_SIZE && Hashed(job.c, job.workblock, st) == ZERO32
    ensures !StampValid(job.c, st, job.cost, job.workblock)
  {
    SearchReturnsIff(job, workers, st);
    LexReflexive(ZERO32);
    if Good(job, st) {
      AtMostZero(Hashed(job.c, job.workblock, st), ZERO32);
    }
  }

  lemma {:induction false} LexReflexive(d: bytes)
    ensures LexLeq(d, d)
  {
    if d != [] {
      LexReflexive(d[1..]);
    }
  }

  /** ErrStampNotFound is returned only when no worker ever deposited a stamp. */
  lemma NotFoundMeansNoDeposit(job: Job, workers: nat, trace: seq<Search>, i: nat)
    requires IsRun(job, workers, trace) && i < |trace| && trace[i].receiver == NotFound
    ensures trace[i].deposits == []
  {
    EveryRunIsSafe(job, workers, trace, i);
  }

  /** Once the channel is closed no send is possible, and it is closed only once. */
  lemma NoSendAfterClose(job: Job, workers: nat, trace: seq<Search>, i: nat, step: Step)
    requires IsRun(job, workers, trace) && i < |trace| && trace[i].closed && Enabled(job, trace[i], step)
    ensures !step.Deposit? && !step.CloseChannel?
  {
    EveryRunIsSafe(job, workers, trace, i);
  }

  // ---------------------------------------------------------------- progress

  /** Whatever candidate is drawn, exactly one of the two outcomes of the test is open. */
  lemma DrawnCandidateDecides(job: Job, s: Search, i: nat, candidate: bytes)
    requires i < |s.workers| && s.workers[i] == Drawing && |candidate| == STAMP_SIZE
    ensures Enabled(job, s, Hit(i, candidate)) <==> Good(job, candidate)
    ensures Enabled(job, s, Miss(i, candidate)) <==> !Good(job, candidate)
  {}

  /** A step that needs neither the caller nor a failing source of randomness. */
  predicate OfItsOwn(step: Step) {
    !step.CallerCancels? && !step.ReadFails?
  }

  /** A worker that is not finished can always move, unless it waits for a full slot. */
  lemma WorkerCanMove(job: Job, s: Search, i: nat)
    requires i < |s.workers| && s.workers[i] != Finished && (s.workers[i].Holding? ==> s.slot.None? || s.cancelled)
    ensures exists step :: Enabled(job, s, step) && OfItsOwn(step)
  {
    match s.workers[i]
    case Checking => assert Enabled(job, s, if s.cancelled then Stop(i) else Continue(i));
    case Drawing =>
      DrawnCandidateDecides(job, s, i, ZERO32);
      assert Enabled(job, s, if Good(job, ZERO32) then Hit(i, ZERO32) else Miss(i, ZERO32));
    case Holding(_) => assert Enabled(job, s, if s.slot.None? then Deposit(i) else GiveUp(i));
    case Deposited => assert Enabled(job, s, CancelOthers(i));
  }

  /** Before it returns, the search is never stuck: some worker, the closer or the receiver can move. */
  lemma NeverStuck(job: Job, workers: nat, trace: seq<Search>, i: nat)
    requires IsRun(job, workers, trace) && i < |trace| && trace[i].receiver == Waiting
    ensures exists step :: Enabled(job, trace[i], step) && OfItsOwn(step)
  {
    var s := trace[i];
    if s.slot.Some? {
      assert Enabled(job, s, Receive);
    } else if s.closed {
      assert Enabled(job, s, ReceiveClosed);
    } else if k :| 0 <= k < |s.workers| && s.workers[k] != Finished {
      WorkerCanMove(job, s, k);
    } else {
      assert Enabled(job, s, CloseChannel);
    }
  }

  /** How many more steps a worker can take once the context is cancelled. */
  function Rank(w: Worker): nat {
    match w
    case Checking => 1
    case Drawing => 4
    case Holding(_) => 3
    case Deposited => 2
    case Finished => 0
  }

  function TotalRank(ws: seq<Worker>): nat {
    if ws == [] then 0 else TotalRank(ws[..|ws| - 1]) + Rank(ws[|ws| - 1])
  }

  function StepsLeft(s: Search): nat {
    TotalRank(s.workers) + (if s.closed then 0 else 1) + (if s.receiver == Waiting then 1 else 0)
  }

  lemma {:induction false} TotalRankUpdate(ws: seq<Worker>, i: nat, w: Worker)
    requires i < |ws|
    ensures TotalRank(ws[i := w]) == TotalRank(ws) - Rank(ws[i]) + Rank(w)
  {
    var n := |ws| - 1;
    if i < n {
      TotalRankUpdate(ws[..n], i, w);
      assert ws[i := w][..n] == ws[..n][i := w];
    } else {
      assert ws[i := w][..n] == ws[..n];
    }
  }

  /** After a cancellation every step, of whichever goroutine, brings the search nearer to its end. */
  lemma CancelledStepsDecrease(job: Job, s: Search, step: Step)
    requires s.cancelled && Enabled(job, s, step)
    ensures Next(job, s, step).cancelled && StepsLeft(Next(job, s, step)) < StepsLeft(s)
  {
    match step
    case Stop(i) => TotalRankUpdate(s.workers, i, Finished);
    case ReadFails(i) => TotalRankUpdate(s.workers, i, Finished);
    case Miss(i, _) => TotalRankUpdate(s.workers, i, Checking);
    case Hit(i, candidate) => TotalRankUpdate(s.workers, i, Holding(candidate));
    case Deposit(i) => TotalRankUpdate(s.workers, i, Deposited);
    case GiveUp(i) => TotalRankUpdate(s.workers, i, Finished);
    case CancelOthers(i) => TotalRankUpdate(s.workers, i, Finished);
    case _ =>
  }

  lemma {:induction false} TotalRankBound(ws: seq<Worker>)
    ensures TotalRank(ws) <= 4 * |ws|
  {
    if ws != [] {
      TotalRankBound(ws[..|ws| - 1]);
    }
  }

  lemma {:induction false} RunAfterCancelIsShort(job: Job, workers: nat, trace: seq<Search>, i: nat, j: nat)
    requires IsRun(job, workers, trace) && i <= j < |trace| && trace[i].cancelled
    ensures trace[j].cancelled && j - i <= StepsLeft(trace[i]) - StepsLeft(trace[j])
  {
    if i < j {
      RunAfterCancelIsShort(job, workers, trace, i, j - 1);
      assert CanFollow(job, trace[j - 1], trace[j]);
      var step :| Enabled(job, trace[j - 1], step) && trace[j] == Next(job, trace[j - 1], step);
      CancelledStepsDecrease(job, trace[j - 1], step);
    }
  }

  lemma {:induction false} WorkerCountIsFixed(job: Job, workers: nat, trace: seq<Search>, i: nat)
    requires IsRun(job, workers, trace) && i < |trace|
    ensures |trace[i].workers| == workers
  {
    if i > 0 {
      WorkerCountIsFixed(job, workers, trace, i - 1);
      assert CanFollow(job, trace[i - 1], trace[i]);
    }
  }

  /**
   After a cancellation no run goes on for more than four steps a worker and two more, and one that
   has not returned can be continued: so the search returns and all its goroutines end.
   */
  lemma CancelledSearchEnds(job: Job, workers: nat, trace: seq<Search>, i: nat, j: nat)
    requires IsRun(job, workers, trace) && i <= j < |trace| && trace[i].cancelled
    ensures j - i <= 4 * workers + 2
    ensures (forall step :: !Enabled(job, trace[j], step)) ==>
              && trace[j].receiver != Waiting && trace[j].closed
              && forall k | 0 <= k < |trace[j].workers| :: trace[j].workers[k] == Finished
  {
    RunAfterCancelIsShort(job, workers, trace, i, j);
    TotalRankBound(trace[i].workers);
    WorkerCountIsFixed(job, workers, trace, i);
    WorkerCountIsFixed(job, workers, trace, j);
    var s := trace[j];
    if forall step :: !Enabled(job, s, step) {
      forall k | 0 <= k < workers
        ensures s.workers[k] == Finished
      {
        if s.workers[k] != Finished {
          WorkerCanMove(job, s, k);
        }
      }
      assert !Enabled(job, s, CloseChannel);
      assert !Enabled(job, s, Receive) && !Enabled(job, s, ReceiveClosed);
    }
  }
}
