module Audit {
  // Admission of background audit writes (audit.rs) as an interleaved step system.
  //
  // Every call of `record` takes its atomic steps one at a time, in any interleaving with the other
  // calls and with the writers it has spawned.

  const MAX_IN_FLIGHT := 32

  /**
   Where one call stands: not begun; refused, with its increment still to be taken back; taken back,
   with the drop still to be counted; writing in the background; or at an end.  `Lost` is a writer
   that ended without its final decrement (its task was cancelled or panicked).
   */
  datatype Call = Waiting | Refused | TakenBack | Writing | Finished | Dropped | Lost

  datatype State = State(calls: seq<Call>, inFlight: nat, dropped: nat)

  function Begin(n: nat): State { State(seq(n, _ => Waiting), 0, 0) }

  predicate Ended(c: Call) { c.Finished? || c.Dropped? || c.Lost? }

  /** One atomic step of call `i`. */
  ghost predicate Steps(s: State, t: State, i: nat) {
    i < |s.calls| &&
    match s.calls[i]
    case Waiting =>  // the counter is incremented, and its old value decides
      t == s.(inFlight := s.inFlight + 1, calls := s.calls[i := if s.inFlight >= MAX_IN_FLIGHT then Refused else Writing])
    case Refused => s.inFlight > 0 && t == s.(inFlight := s.inFlight - 1, calls := s.calls[i := TakenBack])
    case TakenBack => t == s.(dropped := s.dropped + 1, calls := s.calls[i := Dropped])
    case Writing =>
      || (s.inFlight > 0 && t == s.(inFlight := s.inFlight - 1, calls := s.calls[i := Finished]))
      || t == s.(calls := s.calls[i := Lost])
    case _ => false
  }

  ghost predicate Step(s: State, t: State) { exists i: nat :: Steps(s, t, i) }

  /** Any sequence of steps from the start. */
  ghost predicate IsRun(n: nat, run: seq<State>) {
    |run| > 0 && run[0] == Begin(n) && forall k, m :: 0 <= k && m == k + 1 && m < |run| ==> Step(run[k], run[m])
  }

  function Count(calls: seq<Call>, c: Call): nat { multiset(calls)[c] }

  function Active(s: State): nat { Count(s.calls, Writing) }

  lemma CountUpdate(calls: seq<Call>, i: nat, to: Call, c: Call)
    requires i < |calls|
    ensures Count(calls[i := to], c) == Count(calls, c) - (if calls[i] == c then 1 else 0) + (if to == c then 1 else 0)
  {}

  /**
   The counter is exactly the active writers, plus the calls between their increment and its
   withdrawal, plus the writers that were lost; and it never admits more than 32 writers at once.
   */
  ghost predicate Accounted(s: State) {
    && s.inFlight == Active(s) + Count(s.calls, Refused) + Count(s.calls, Lost)
    && Active(s) + Count(s.calls, Lost) <= MAX_IN_FLIGHT
    && s.dropped == Count(s.calls, Dropped)
  }

  lemma StepKeepsAccounts(s: State, t: State, i: nat)
    requires Accounted(s) && Steps(s, t, i)
    ensures Accounted(t) && |t.calls| == |s.calls|
  {
    hide Count;
    CountUpdate(s.calls, i, t.calls[i], Writing);
    CountUpdate(s.calls, i, t.calls[i], Refused);
    CountUpdate(s.calls, i, t.calls[i], Lost);
    CountUpdate(s.calls, i, t.calls[i], Dropped);
  }

  lemma {:induction false} CountNone(n: nat, c: Call)
    requires c != Waiting
    ensures Count(Begin(n).calls, c) == 0
  {
    assert c !in Begin(n).calls;
  }

  /** In every interleaving, at every moment, the accounts hold. */
  lemma {:induction false} EveryMomentAccounted(n: nat, run: seq<State>, k: nat)
    requires IsRun(n, run) && k < |run|
    ensures Accounted(run[k]) && |run[k].calls| == n
  {
    if k == 0 {
      CountNone(n, Writing);
      CountNone(n, Refused);
      CountNone(n, Lost);
      CountNone(n, Dropped);
    } else {
      EveryMomentAccounted(n, run, k - 1);
      assert Step(run[k - 1], run[k]);
      var i: nat :| Steps(run[k - 1], run[k], i);
      StepKeepsAccounts(run[k - 1], run[k], i);
    }
  }

  /** The counter never exceeds the calls begun, so it cannot wrap around with fewer than 2^64 calls. */
  lemma CounterIsBounded(n: nat, run: seq<State>, k: nat)
    requires IsRun(n, run) && k < |run|
    ensures run[k].inFlight <= n && Active(run[k]) <= MAX_IN_FLIGHT
  {
    EveryMomentAccounted(n, run, k);
    SumOfCounts(run[k].calls);
  }

  lemma CountFirst(calls: seq<Call>, c: Call)
    requires calls != []
    ensures Count(calls, c) == Count(calls[1..], c) + if calls[0] == c then 1 else 0
  {
    assert calls == [calls[0]] + calls[1..];
  }

  lemma {:induction false} SumOfCounts(calls: seq<Call>)
    ensures Count(calls, Waiting) + Count(calls, Refused) + Count(calls, TakenBack) + Count(calls, Writing)
      + Count(calls, Finished) + Count(calls, Dropped) + Count(calls, Lost) == |calls|
  {
    if calls != [] {
      hide Count;
      SumOfCounts(calls[1..]);
      CountFirst(calls, Waiting);
      CountFirst(calls, Refused);
      CountFirst(calls, TakenBack);
      CountFirst(calls, Writing);
      CountFirst(calls, Finished);
      CountFirst(calls, Dropped);
      CountFirst(calls, Lost);
    } else {
      assert forall c :: Count(calls, c) == 0;
    }
  }

  /**
   When every call has come to its end, each was written, counted as dropped, or lost; and the
   counter is back at zero exactly if no writer was lost.
   */
  lemma AtQuiescence(n: nat, run: seq<State>, k: nat)
    requires IsRun(n, run) && k < |run| && forall c :: c in run[k].calls ==> Ended(c)
    ensures var s := run[k];
      && n == Count(s.calls, Finished) + s.dropped + Count(s.calls, Lost)
      && s.inFlight == Count(s.calls, Lost)
      && (s.inFlight == 0 <==> forall c :: c in s.calls ==> !c.Lost?)
  {
    var s := run[k];
    EveryMomentAccounted(n, run, k);
    SumOfCounts(s.calls);
    assert Waiting !in s.calls && Refused !in s.calls && TakenBack !in s.calls && Writing !in s.calls;
    assert Count(s.calls, Lost) == 0 <==> Lost !in s.calls;
  }

  /** Until every call has ended, some step is possible: no interleaving gets stuck. */
  lemma NeverStuck(n: nat, run: seq<State>, k: nat)
    requires IsRun(n, run) && k < |run| && exists c :: c in run[k].calls && !Ended(c)
    ensures exists t :: Step(run[k], t)
  {
    var s := run[k];
    EveryMomentAccounted(n, run, k);
    var c :| c in s.calls && !Ended(c);
    var i :| 0 <= i < |s.calls| && s.calls[i] == c;
    assert Count(s.calls, c) > 0;
    var t :=
      if c == Waiting then s.(inFlight := s.inFlight + 1, calls := s.calls[i := if s.inFlight >= MAX_IN_FLIGHT then Refused else Writing])
      else if c == Refused then s.(inFlight := s.inFlight - 1, calls := s.calls[i := TakenBack])
      else if c == TakenBack then s.(dropped := s.dropped + 1, calls := s.calls[i := Dropped])
      else s.(inFlight := s.inFlight - 1, calls := s.calls[i := Finished]);
    assert Steps(s, t, i);
    assert Step(s, t);
  }

  /** How many steps a call still has to take at most. */
  function Remaining(c: Call): nat {
    match c
    case Waiting => 3
    case Refused => 2
    case TakenBack => 1
    case Writing => 1
    case _ => 0
  }

  function TotalRemaining(calls: seq<Call>): nat {
    if calls == [] then 0 else Remaining(calls[0]) + TotalRemaining(calls[1..])
  }

  lemma {:induction false} RemainingUpdate(calls: seq<Call>, i: nat, to: Call)
    requires i < |calls|
    ensures TotalRemaining(calls[i := to]) == TotalRemaining(calls) - Remaining(calls[i]) + Remaining(to)
    ensures TotalRemaining(calls) >= Remaining(calls[i])
  {
    if i > 0 {
      assert calls[i := to][1..] == calls[1..][i - 1 := to];
      RemainingUpdate(calls[1..], i - 1, to);
    } else {
      assert calls[0 := to][1..] == calls[1..];
    }
  }

  /** Every interleaving ends: `n` calls take at most `3 n` steps. */
  lemma {:induction false} RunsAreShort(n: nat, run: seq<State>, k: nat)
    requires IsRun(n, run) && k < |run|
    ensures k + TotalRemaining(run[k].calls) <= 3 * n
  {
    if k == 0 {
      BeginRemaining(n);
    } else {
      RunsAreShort(n, run, k - 1);
      assert Step(run[k - 1], run[k]);
      var i: nat :| Steps(run[k - 1], run[k], i);
      RemainingUpdate(run[k - 1].calls, i, run[k].calls[i]);
    }
  }

  lemma {:induction false} BeginRemaining(n: nat)
    ensures TotalRemaining(Begin(n).calls) == 3 * n
  {
    if n > 0 {
      assert Begin(n).calls[1..] == Begin(n - 1).calls;
      BeginRemaining(n - 1);
    }
  }

  /** A call that a closed recorder has not admitted: it waits, or is on its way to being dropped. */
  predicate Unadmitted(c: Call) { c.Waiting? || c.Refused? || c.TakenBack? || c.Dropped? }

  lemma ClosedStaysClosed(s: State, t: State, j: nat, i: nat)
    requires Accounted(s) && Count(s.calls, Lost) == MAX_IN_FLIGHT && Steps(s, t, j)
    requires i < |s.calls| && Unadmitted(s.calls[i])
    ensures Count(t.calls, Lost) == MAX_IN_FLIGHT && i < |t.calls| && Unadmitted(t.calls[i])
  {
    hide Count;
    CountUpdate(s.calls, j, t.calls[j], Lost);
    StepKeepsAccounts(s, t, j);
  }

  /**
   Thirty-two lost writers close the recorder for good: in every continuation they stay lost, and a
   call that was still waiting is never admitted.
   */
  lemma {:induction false} LostWritersCloseAdmission(n: nat, run: seq<State>, j: nat, k: nat, i: nat)
    requires IsRun(n, run) && j <= k < |run| && i < n
    requires Count(run[j].calls, Lost) == MAX_IN_FLIGHT
    requires i < |run[j].calls| && run[j].calls[i].Waiting?
    ensures Count(run[k].calls, Lost) == MAX_IN_FLIGHT
    ensures i < |run[k].calls| && Unadmitted(run[k].calls[i])
    decreases k
  {
    if j < k {
      LostWritersCloseAdmission(n, run, j, k - 1, i);
      EveryMomentAccounted(n, run, k - 1);
      assert Step(run[k - 1], run[k]);
      var m: nat :| Steps(run[k - 1], run[k], m);
      ClosedStaysClosed(run[k - 1], run[k], m, i);
    }
  }

  /**
   A refusal does not mean that 32 writes are active: another call's increment may not have been
   withdrawn yet.  A call is refused exactly when active, lost and refused calls make up 32.
   */
  lemma RefusedIff(s: State, t: State, i: nat)
    requires Accounted(s) && Steps(s, t, i) && s.calls[i].Waiting?
    ensures t.calls[i] == Refused <==> Active(s) + Count(s.calls, Refused) + Count(s.calls, Lost) >= MAX_IN_FLIGHT
  {}

  function Admitted(n: nat, k: nat): State
    requires k <= n
  {
    State(seq(k, _ => Writing) + seq(n - k, _ => Waiting), k, 0)
  }

  lemma {:induction false} CanAdmit(n: nat, k: nat) returns (run: seq<State>)
    requires k <= n && k <= MAX_IN_FLIGHT
    ensures IsRun(n, run) && run[|run| - 1] == Admitted(n, k)
  {
    if k == 0 {
      run := [Begin(n)];
      assert Begin(n).calls == Admitted(n, 0).calls;
    } else {
      var before := CanAdmit(n, k - 1);
      var s, t := Admitted(n, k - 1), Admitted(n, k);
      assert t.calls == s.calls[k - 1 := Writing];
      assert Steps(s, t, k - 1);
      run := Extended(n, before, t);
    }
  }

  lemma Extended(n: nat, run: seq<State>, t: State) returns (longer: seq<State>)
    requires IsRun(n, run) && Step(run[|run| - 1], t)
    ensures IsRun(n, longer) && longer[|longer| - 1] == t
  {
    longer := run + [t];
  }

  /** One admitted writer that is lost leaves the counter at one for good. */
  lemma CounterCanStayUp() returns (run: seq<State>)
    ensures IsRun(1, run) && run[|run| - 1] == State([Lost], 1, 0)
    ensures forall c :: c in run[|run| - 1].calls ==> Ended(c)
  {
    run := CanAdmit(1, 1);
    var s, t := Admitted(1, 1), State([Lost], 1, 0);
    assert t.calls == s.calls[0 := Lost];
    assert Steps(s, t, 0);
    run := Extended(1, run, t);
  }

  /** A call can be refused while fewer than 32 writers are active. */
  lemma RefusedBelowTheCap() returns (run: seq<State>)
    ensures IsRun(34, run) && |run[|run| - 1].calls| == 34
    ensures run[|run| - 1].calls[33] == Refused && Active(run[|run| - 1]) == MAX_IN_FLIGHT - 1
  {
    var full := CanAdmit(34, 32);
    var a := Admitted(34, 32);
    var b := a.(inFlight := 33, calls := a.calls[32 := Refused]);
    var c := b.(inFlight := 32, calls := b.calls[0 := Finished]);
    var d := c.(inFlight := 33, calls := c.calls[33 := Refused]);
    assert Steps(a, b, 32) && Steps(b, c, 0) && Steps(c, d, 33);
    run := Extended(34, full, b);
    run := Extended(34, run, c);
    run := Extended(34, run, d);
    EveryMomentAccounted(34, full, |full| - 1);
    CountUpdate(a.calls, 32, Refused, Writing);
    CountUpdate(b.calls, 0, Finished, Writing);
    CountUpdate(c.calls, 33, Refused, Writing);
    AdmittedCounts(34, 32);
  }

  lemma AdmittedCounts(n: nat, k: nat)
    requires k <= n
    ensures Active(Admitted(n, k)) == k
  {
    AllSame(k, Writing);
    assert Writing !in seq(n - k, _ => Waiting);
  }

  lemma {:induction false} AllSame(k: nat, c: Call)
    ensures multiset(seq(k, _ => c))[c] == k
  {
    if k > 0 {
      assert seq(k, _ => c) == [c] + seq(k - 1, _ => c);
      AllSame(k - 1, c);
    }
  }
}
