/** The reconnect loop of `Subscriber.Run`: a back-off that doubles up to a cap and restarts on success. */
module Backoff {
  import opened Wrappers

  const FIRST := 2  // seconds
  const CAP := 60

  /** One iteration as the environment makes it: seconds from the check of the context to the create request, whether
      that succeeds, seconds until the wait begins (the whole life of the event stream included), by how much the
      timer fires late, and which branch the select takes when both are ready. */
  datatype Turn = Turn(pause: nat, created: bool, busy: nat, late: nat, timerWins: bool)

  /** What one iteration did: when its create request began, its outcome, and the wait it asked for. */
  datatype Round = Round(at: nat, ok: bool, wait: nat)

  function CapDuration(a: nat, b: nat): nat {
    if a < b then a else b
  }

  function Pow2(n: nat): nat {
    if n == 0 then 1 else 2 * Pow2(n - 1)
  }

  /** Completed waits since the last successful create, or since the start, when iteration k comes to wait. */
  function Streak(trace: seq<Round>, k: nat): nat
    requires k < |trace|
  {
    if trace[k].ok || k == 0 then 0 else Streak(trace, k - 1) + 1
  }

  /** The wait after j completed ones. */
  function WaitAfter(j: nat): nat {
    CapDuration(CAP, Pow2(j + 1))
  }

  predicate CancelledBy(cancelAt: Option<nat>, time: nat) {
    cancelAt.Some? && cancelAt.value <= time
  }

  ghost predicate WaitsAsStreak(trace: seq<Round>) {
    forall k | 0 <= k < |trace| :: trace[k].wait == WaitAfter(Streak(trace, k))
  }

  ghost predicate SpacedByWaits(trace: seq<Round>) {
    forall k | 0 <= k < |trace| - 1 :: trace[k].at + trace[k].wait <= trace[k + 1].at
  }

  /** The time when iteration k begins: after everything that came before. */
  function Clock(trace: seq<Round>, turns: seq<Turn>, k: nat): nat
    requires k <= |trace| && k <= |turns|
  {
    if k == 0 then 0 else trace[k - 1].at + turns[k - 1].busy + trace[k - 1].wait + turns[k - 1].late
  }

  /** Every create request begins when its iteration does, no later than its pause. */
  ghost predicate Timed(trace: seq<Round>, turns: seq<Turn>) {
    && |trace| <= |turns|
    && forall k | 0 <= k < |trace| ::
         trace[k].ok == turns[k].created && trace[k].at == Clock(trace, turns, k) + turns[k].pause
  }

  ghost predicate OneAfterCancel(trace: seq<Round>, cancelAt: Option<nat>) {
    forall k | 0 <= k < |trace| - 1 :: !CancelledBy(cancelAt, trace[k].at)
  }

  /** What holds of the iterations so far, at time `now`. */
  ghost predicate Kept(trace: seq<Round>, turns: seq<Turn>, cancelAt: Option<nat>, now: nat) {
    && WaitsAsStreak(trace) && SpacedByWaits(trace) && OneAfterCancel(trace, cancelAt)
    && Timed(trace, turns) && now == Clock(trace, turns, |trace|)
    && forall k | 0 <= k < |trace| :: trace[k].at + trace[k].wait <= now
  }

  /** The streak with which the next iteration comes to wait if its create fails. */
  function NextStreak(trace: seq<Round>): nat {
    if trace == [] then 0 else Streak(trace, |trace| - 1) + 1
  }

  lemma NothingYet(turns: seq<Turn>, cancelAt: Option<nat>)
    ensures Kept([], turns, cancelAt, 0) && WaitAfter(NextStreak([])) == FIRST
  {
  }

  lemma EarlierCancel(trace: seq<Round>, cancelAt: Option<nat>, now: nat)
    requires !CancelledBy(cancelAt, now)
    ensures forall k | 0 <= k < |trace| :: trace[k].at <= now ==> !CancelledBy(cancelAt, trace[k].at)
  {
  }

  lemma {:induction false} StreakPrefix(trace: seq<Round>, r: Round, k: nat)
    requires k < |trace|
    ensures Streak(trace + [r], k) == Streak(trace, k)
  {
    if !trace[k].ok && 0 < k {
      StreakPrefix(trace, r, k - 1);
    }
  }

  lemma StreakSnoc(trace: seq<Round>, r: Round)
    ensures forall k | 0 <= k < |trace| :: Streak(trace + [r], k) == Streak(trace, k)
    ensures Streak(trace + [r], |trace|) == if r.ok || trace == [] then 0 else Streak(trace, |trace| - 1) + 1
  {
    forall k | 0 <= k < |trace| ensures Streak(trace + [r], k) == Streak(trace, k) {
      StreakPrefix(trace, r, k);
    }
  }

  lemma ExtendedWaits(trace: seq<Round>, r: Round)
    requires WaitsAsStreak(trace) && r.wait == WaitAfter(if r.ok then 0 else NextStreak(trace))
    ensures WaitsAsStreak(trace + [r]) && r.wait == WaitAfter(Streak(trace + [r], |trace|))
  {
    hide WaitAfter;
    var longer := trace + [r];
    StreakSnoc(trace, r);
    forall k | 0 <= k < |longer| ensures longer[k].wait == WaitAfter(Streak(longer, k)) {
      if k < |trace| {
        assert longer[k] == trace[k];
      }
    }
  }

  lemma ExtendedTimed(trace: seq<Round>, r: Round, turns: seq<Turn>)
    requires Timed(trace, turns) && |trace| < |turns|
    requires r.ok == turns[|trace|].created && r.at == Clock(trace, turns, |trace|) + turns[|trace|].pause
    ensures Timed(trace + [r], turns)
    ensures var turn := turns[|trace|];
            Clock(trace + [r], turns, |trace| + 1) == r.at + turn.busy + r.wait + turn.late
  {
    var longer := trace + [r];
    assert forall k | 0 <= k <= |trace| :: Clock(longer, turns, k) == Clock(trace, turns, k);
    hide Clock;
    assert forall k | 0 <= k < |trace| :: longer[k] == trace[k];
  }

  lemma {:induction false} Pow2AtLeast(n: nat)
    ensures n + 1 <= Pow2(n)
  {
    if 0 < n {
      Pow2AtLeast(n - 1);
    }
  }

  /** Doubling under the cap moves to the next wait. */
  lemma Doubles(j: nat)
    ensures CapDuration(WaitAfter(j) * 2, CAP) == WaitAfter(j + 1)
    ensures WaitAfter(0) == FIRST && FIRST <= WaitAfter(j) <= CAP
  {
    Pow2AtLeast(j);
  }

  /** One more iteration keeps it. */
  lemma Extended(trace: seq<Round>, r: Round, turns: seq<Turn>, cancelAt: Option<nat>, now: nat, later: nat)
    requires Kept(trace, turns, cancelAt, now) && |trace| < |turns| && !CancelledBy(cancelAt, now)
    requires var turn := turns[|trace|];
             r.at == now + turn.pause && r.ok == turn.created && later == r.at + turn.busy + r.wait + turn.late
    requires r.wait == if r.ok then FIRST else WaitAfter(NextStreak(trace))
    ensures Kept(trace + [r], turns, cancelAt, later)
    ensures CapDuration(r.wait * 2, CAP) == WaitAfter(NextStreak(trace + [r]))
  {
    hide WaitAfter, Streak, WaitsAsStreak, Timed, Clock, CancelledBy;
    var longer := trace + [r];
    Doubles(0);
    ExtendedWaits(trace, r);
    Doubles(Streak(longer, |trace|));
    ExtendedTimed(trace, r, turns);
    assert forall k | 0 <= k < |trace| :: longer[k] == trace[k];
    assert longer[|trace|] == r;
    EarlierCancel(trace, cancelAt, now);
  }

  /** `Run`, for as many iterations as there are turns, until time `end`. Every wait is the capped power of two of its
      streak, attempts are spaced by the waits, at most the last one begins after cancellation, and only a
      cancellation that has happened ends the loop. */
  method Run(eventTypes: nat, turns: seq<Turn>, cancelAt: Option<nat>)
    returns (trace: seq<Round>, returned: bool, end: nat)
    ensures Kept(trace, turns, cancelAt, end)
    ensures eventTypes == 0 ==> trace == [] && returned == cancelAt.Some?
    ensures 0 < eventTypes && returned ==> CancelledBy(cancelAt, end)
    ensures 0 < eventTypes && !returned ==> |trace| == |turns|
  {
    trace, returned, end := [], false, 0;
    NothingYet(turns, cancelAt);
    hide *;
    if eventTypes == 0 { returned := cancelAt.Some?; return; }
    var backoff := FIRST;
    for i := 0 to |turns|
      invariant |trace| == i && Kept(trace, turns, cancelAt, end)
      invariant backoff == WaitAfter(NextStreak(trace))
    {
      if CancelledBy(cancelAt, end) { returned := true; return; }
      var turn := turns[i];
      var at := end + turn.pause;
      if turn.created {
        backoff := FIRST;  // reset on successful connect
      }
      var round := Round(at, turn.created, backoff);
      var later := at + turn.busy + backoff + turn.late;
      Extended(trace, round, turns, cancelAt, end, later);
      trace := trace + [round];
      end := later;
      if CancelledBy(cancelAt, end) && !turn.timerWins { returned := true; return; }
      backoff := CapDuration(backoff * 2, CAP);
    }
  }

  /** The first n waits without a success. */
  function WaitSum(n: nat): nat {
    if n == 0 then 0 else WaitSum(n - 1) + WaitAfter(n - 1)
  }

  lemma {:induction false} Pow2Monotone(a: nat, b: nat)
    requires a <= b
    ensures Pow2(a) <= Pow2(b)
    decreases b - a
  {
    if a < b {
      Pow2Monotone(a, b - 1);
    }
  }

  lemma {:induction false} WaitSumClosed(n: nat)
    ensures WaitSum(n) == if n <= 5 then Pow2(n + 1) - 2 else 62 + 60 * (n - 5)
  {
    if 0 < n {
      WaitSumClosed(n - 1);
      assert Pow2(6) == 64 by { assert Pow2(3) == 8; }
      if 5 < n {
        Pow2Monotone(6, n);
      } else {
        Pow2Monotone(n, 5);
        assert Pow2(5) == 32 by { assert Pow2(3) == 8; }
      }
    }
  }

  /** Seconds waited by iterations i .. j. */
  function Waited(trace: seq<Round>, i: nat, j: nat): nat
    requires i <= j <= |trace|
  {
    if i == j then 0 else Waited(trace, i, j - 1) + trace[j - 1].wait
  }

  lemma {:induction false} AttemptsSpread(trace: seq<Round>, i: nat, j: nat)
    requires SpacedByWaits(trace) && WaitsAsStreak(trace) && i <= j < |trace|
    ensures trace[i].at + Waited(trace, i, j) <= trace[j].at
    ensures FIRST * (j - i) <= Waited(trace, i, j)
    decreases j
  {
    if i < j {
      AttemptsSpread(trace, i, j - 1);
      Doubles(Streak(trace, j - 1));
      assert trace[j - 1].at + trace[j - 1].wait <= trace[j - 1 + 1].at;
    }
  }

  /** The attempts among the first n that fall in the window of T seconds from `start`. */
  function Attempts(trace: seq<Round>, start: nat, T: nat, n: nat): nat
    requires n <= |trace|
  {
    if n == 0 then 0
    else Attempts(trace, start, T, n - 1) + (if start <= trace[n - 1].at <= start + T then 1 else 0)
  }

  lemma {:induction false} LaterAttempts(trace: seq<Round>, start: nat, T: nat, n: nat, j: nat)
    requires SpacedByWaits(trace) && WaitsAsStreak(trace) && n <= j < |trace|
    ensures 0 < Attempts(trace, start, T, n) ==> start + FIRST * Attempts(trace, start, T, n) <= trace[j].at
    decreases n
  {
    if 0 < n {
      LaterAttempts(trace, start, T, n - 1, n - 1);
      LaterAttempts(trace, start, T, n - 1, j);
      AttemptsSpread(trace, n - 1, j);
    }
  }

  /** Any window of T seconds holds at most T/2 + 1 attempts. */
  lemma {:induction false} WindowBound(trace: seq<Round>, start: nat, T: nat, n: nat)
    requires SpacedByWaits(trace) && WaitsAsStreak(trace) && n <= |trace|
    ensures Attempts(trace, start, T, n) <= T / 2 + 1
    decreases n
  {
    if 0 < n {
      WindowBound(trace, start, T, n - 1);
      LaterAttempts(trace, start, T, n - 1, n - 1);
    }
  }

  /** While nothing succeeds the waits are the ladder 2, 4, 8, 16, 32, 60, 60, ... */
  lemma {:induction false} FailingWaits(trace: seq<Round>, n: nat)
    requires WaitsAsStreak(trace) && n <= |trace| && forall k | 0 <= k < n :: !trace[k].ok
    ensures Waited(trace, 0, n) == WaitSum(n)
    ensures 0 < n ==> Streak(trace, n - 1) == n - 1
  {
    if 0 < n {
      FailingWaits(trace, n - 1);
    }
  }

  lemma {:induction false} StreakSince(trace: seq<Round>, i: nat, k: nat)
    requires i <= k < |trace| && (trace[i].ok || i == 0) && forall j | i < j <= k :: !trace[j].ok
    ensures Streak(trace, k) == k - i
    decreases k
  {
    if i < k {
      StreakSince(trace, i, k - 1);
    }
  }

  /** A success sets the wait back to 2 seconds, and each failure since then, or since the start, doubles it up to 60. */
  lemma WaitsSinceSuccess(trace: seq<Round>, i: nat, k: nat)
    requires WaitsAsStreak(trace)
    requires i <= k < |trace| && (trace[i].ok || i == 0) && forall j | i < j <= k :: !trace[j].ok
    ensures trace[k].wait == if 60 < Pow2(k - i + 1) then 60 else Pow2(k - i + 1)
    ensures trace[i].wait == 2
  {
    StreakSince(trace, i, k);
    StreakSince(trace, i, i);
    assert Pow2(1) == 2;
    hide Streak, Pow2;
  }
}
