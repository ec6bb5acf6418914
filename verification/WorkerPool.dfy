/**
 Phase 3: workers that call the server, count the outcome on their own instance and then on the shared total, until
 they see the stop flag; and the main thread that raises the flag and joins them. Steps of different threads
 interleave in any way. Counters are natural numbers.
 */
module WorkerPool {
  /** Where a worker is: at the loop test, inside the client call, between its two increments, or finished. */
  datatype Place = Testing | Calling | Counted | Finished

  datatype Worker = Worker(place: Place, evaluations: nat, errors: nat)

  datatype Main = Waiting | Joining | Joined

  datatype Pool = Pool(workers: seq<Worker>, total: nat, stop: bool, main: Main)

  datatype Action =
    | Test(i: nat)              // load the stop flag
    | Return(i: nat, ok: bool)  // the call returns and the instance counter is incremented
    | AddTotal(i: nat)          // the shared total is incremented
    | RaiseStop                 // the target is reached or the deadline has passed
    | Join                      // every thread has been joined

  ghost predicate Enabled(p: Pool, a: Action) {
    match a
    case Test(i) => i < |p.workers| && p.workers[i].place == Testing
    case Return(i, _) => i < |p.workers| && p.workers[i].place == Calling
    case AddTotal(i) => i < |p.workers| && p.workers[i].place == Counted
    case RaiseStop => p.main == Waiting
    case Join => p.main == Joining && forall w :: w in p.workers ==> w.place == Finished
  }

  ghost function Next(p: Pool, a: Action): Pool
    requires Enabled(p, a)
  {
    match a
    case Test(i) =>
      p.(workers := p.workers[i := p.workers[i].(place := if p.stop then Finished else Calling)])
    case Return(i, ok) =>
      var w := p.workers[i].(place := Counted);
      p.(workers := p.workers[i := if ok then w.(evaluations := w.evaluations + 1) else w.(errors := w.errors + 1)])
    case AddTotal(i) =>
      p.(workers := p.workers[i := p.workers[i].(place := Testing)], total := p.total + 1)
    case RaiseStop => p.(stop := true, main := Joining)
    case Join => p.(main := Joined)
  }

  ghost predicate Possible(p: Pool, run: seq<Action>)
    decreases |run|
  {
    run == [] || (Enabled(p, run[0]) && Possible(Next(p, run[0]), run[1..]))
  }

  ghost function After(p: Pool, run: seq<Action>): Pool
    requires Possible(p, run)
    decreases |run|
  {
    if run == [] then p else After(Next(p, run[0]), run[1..])
  }

  /** Workers start at the loop test with whatever the earlier phases have counted on their instances. */
  ghost predicate Initial(p: Pool) {
    p.main == Waiting && !p.stop && forall w :: w in p.workers ==> w.place == Testing
  }

  // Sums over the pool

  ghost function SumOf(ws: seq<Worker>, f: Worker -> nat): nat {
    if ws == [] then 0 else f(ws[0]) + SumOf(ws[1..], f)
  }

  lemma {:induction false} SumOfUpdate(ws: seq<Worker>, f: Worker -> nat, i: nat, w: Worker)
    requires i < |ws|
    ensures SumOf(ws[i := w], f) + f(ws[i]) == SumOf(ws, f) + f(w)
  {
    if i == 0 {
      assert ws[i := w][1..] == ws[1..];
    } else {
      assert ws[i := w][1..] == ws[1..][i - 1 := w];
      SumOfUpdate(ws[1..], f, i - 1, w);
    }
  }

  lemma {:induction false} SumOfBound(ws: seq<Worker>, f: Worker -> nat, m: nat)
    requires forall w :: w in ws ==> f(w) <= m
    ensures SumOf(ws, f) <= m * |ws|
  {
    if ws != [] {
      SumOfBound(ws[1..], f, m);
      assert m * |ws| == m + m * |ws[1..]|;
    }
  }

  ghost function CountedBy(w: Worker): nat {
    w.evaluations + w.errors
  }

  ghost function Between(w: Worker): nat {
    if w.place == Counted then 1 else 0
  }

  ghost function InFlight(w: Worker): nat {
    if w.place == Calling || w.place == Counted then 1 else 0
  }

  /** How many steps of its own a worker still takes once the flag is up. */
  ghost function StepsLeft(w: Worker): nat {
    match w.place
    case Finished => 0
    case Testing => 1
    case Counted => 2
    case Calling => 3
  }

  // Conservation

  ghost predicate FlagFollowsMain(p: Pool) {
    && (p.stop <==> p.main != Waiting)
    && (p.main == Joined ==> forall w :: w in p.workers ==> w.place == Finished)
  }

  lemma StepKeepsBalance(p: Pool, a: Action)
    requires Enabled(p, a) && FlagFollowsMain(p)
    ensures var q := Next(p, a);
            && |q.workers| == |p.workers| && FlagFollowsMain(q)
            && SumOf(q.workers, CountedBy) + p.total + SumOf(p.workers, Between)
               == SumOf(p.workers, CountedBy) + q.total + SumOf(q.workers, Between)
  {
    if a.Test? || a.Return? || a.AddTotal? {
      SumOfUpdate(p.workers, CountedBy, a.i, Next(p, a).workers[a.i]);
      SumOfUpdate(p.workers, Between, a.i, Next(p, a).workers[a.i]);
    }
  }

  /**
   Over every interleaving the instance counters and the total move together: their difference is the number of
   workers between their two increments.
   */
  lemma {:induction false} RunKeepsBalance(p: Pool, run: seq<Action>)
    requires Possible(p, run) && FlagFollowsMain(p)
    ensures var q := After(p, run);
            && |q.workers| == |p.workers| && FlagFollowsMain(q)
            && SumOf(q.workers, CountedBy) + p.total + SumOf(p.workers, Between)
               == SumOf(p.workers, CountedBy) + q.total + SumOf(q.workers, Between)
    decreases |run|
  {
    if run != [] {
      StepKeepsBalance(p, run[0]);
      RunKeepsBalance(Next(p, run[0]), run[1..]);
    }
  }

  lemma {:induction false} NoneBetween(ws: seq<Worker>)
    requires forall w :: w in ws ==> w.place != Counted
    ensures SumOf(ws, Between) == 0
  {
    if ws != [] {
      NoneBetween(ws[1..]);
    }
  }

  /** Starting balanced, the counters are balanced at every moment, and exactly equal to the total after the join. */
  lemma CountersAddUp(p: Pool, run: seq<Action>)
    requires Initial(p) && Possible(p, run) && SumOf(p.workers, CountedBy) == p.total
    ensures var q := After(p, run);
            && SumOf(q.workers, CountedBy) == q.total + SumOf(q.workers, Between)
            && (q.main == Joined ==> SumOf(q.workers, CountedBy) == q.total)
  {
    NoneBetween(p.workers);
    RunKeepsBalance(p, run);
    var q := After(p, run);
    if q.main == Joined {
      NoneBetween(q.workers);
    }
  }

  // Successes and errors apart

  ghost function EvaluationsOf(w: Worker): nat {
    w.evaluations
  }

  ghost function ErrorsOf(w: Worker): nat {
    w.errors
  }

  /** How many calls of worker `i` have returned with this outcome. */
  ghost function Returns(run: seq<Action>, i: nat, ok: bool): nat {
    if run == [] then 0 else (if run[0] == Return(i, ok) then 1 else 0) + Returns(run[1..], i, ok)
  }

  ghost function AllReturns(run: seq<Action>, ok: bool): nat {
    if run == [] then 0
    else (if run[0].Return? && run[0].ok == ok then 1 else 0) + AllReturns(run[1..], ok)
  }

  /** Each instance counts its successful calls as evaluations and its failed ones as errors, whatever the others do. */
  lemma {:induction false} OutcomesAreCounted(p: Pool, run: seq<Action>, i: nat)
    requires Possible(p, run) && i < |p.workers|
    ensures var q := After(p, run);
            && |q.workers| == |p.workers|
            && q.workers[i].evaluations == p.workers[i].evaluations + Returns(run, i, true)
            && q.workers[i].errors == p.workers[i].errors + Returns(run, i, false)
    decreases |run|
  {
    if run != [] {
      OutcomesAreCounted(Next(p, run[0]), run[1..], i);
    }
  }

  /** Over the pool the evaluations are all successful calls and the errors all failed ones. */
  lemma {:induction false} AllOutcomesAreCounted(p: Pool, run: seq<Action>)
    requires Possible(p, run)
    ensures var q := After(p, run);
            && SumOf(q.workers, EvaluationsOf) == SumOf(p.workers, EvaluationsOf) + AllReturns(run, true)
            && SumOf(q.workers, ErrorsOf) == SumOf(p.workers, ErrorsOf) + AllReturns(run, false)
    decreases |run|
  {
    if run != [] {
      var a := run[0];
      if a.Test? || a.Return? || a.AddTotal? {
        SumOfUpdate(p.workers, EvaluationsOf, a.i, Next(p, a).workers[a.i]);
        SumOfUpdate(p.workers, ErrorsOf, a.i, Next(p, a).workers[a.i]);
      }
      AllOutcomesAreCounted(Next(p, a), run[1..]);
    }
  }

  /** No worker finishes before the flag goes up. */
  lemma {:induction false} NoneStopsEarly(p: Pool, run: seq<Action>)
    requires Possible(p, run) && !After(p, run).stop
    requires forall w :: w in p.workers ==> w.place != Finished
    ensures forall w :: w in After(p, run).workers ==> w.place != Finished
    decreases |run|
  {
    if run != [] {
      var q := Next(p, run[0]);
      if q.stop {
        StopStays(q, run[1..]);
      }
      forall w | w in q.workers ensures w.place != Finished {
        var k :| 0 <= k < |q.workers| && q.workers[k] == w;
        assert p.workers[k] in p.workers;
      }
      NoneStopsEarly(q, run[1..]);
    }
  }

  lemma {:induction false} StopStays(p: Pool, run: seq<Action>)
    requires Possible(p, run) && p.stop
    ensures After(p, run).stop
    decreases |run|
  {
    if run != [] {
      StopStays(Next(p, run[0]), run[1..]);
    }
  }

  // Stopping

  lemma StepAfterStop(p: Pool, a: Action)
    requires Enabled(p, a) && p.stop
    ensures var q := Next(p, a);
            && q.stop
            && q.total + SumOf(q.workers, InFlight) == p.total + SumOf(p.workers, InFlight)
            && (a.Test? || a.Return? || a.AddTotal? ==>
                  SumOf(q.workers, StepsLeft) + 1 == SumOf(p.workers, StepsLeft))
            && (a.RaiseStop? || a.Join? ==> q.workers == p.workers)
  {
    if a.Test? || a.Return? || a.AddTotal? {
      SumOfUpdate(p.workers, InFlight, a.i, Next(p, a).workers[a.i]);
      SumOfUpdate(p.workers, StepsLeft, a.i, Next(p, a).workers[a.i]);
    }
  }

  ghost function WorkerSteps(run: seq<Action>): nat {
    if run == [] then 0
    else (if run[0].Test? || run[0].Return? || run[0].AddTotal? then 1 else 0) + WorkerSteps(run[1..])
  }

  /** Once the flag is up, every evaluation that is under way is still counted, exactly once, and no new one starts. */
  lemma {:induction false} RunAfterStop(p: Pool, run: seq<Action>)
    requires Possible(p, run) && p.stop
    ensures var q := After(p, run);
            && q.stop && |q.workers| == |p.workers|
            && q.total + SumOf(q.workers, InFlight) == p.total + SumOf(p.workers, InFlight)
            && WorkerSteps(run) + SumOf(q.workers, StepsLeft) == SumOf(p.workers, StepsLeft)
    decreases |run|
  {
    if run != [] {
      StepAfterStop(p, run[0]);
      RunAfterStop(Next(p, run[0]), run[1..]);
    }
  }

  lemma {:induction false} NoneInFlight(ws: seq<Worker>)
    requires forall w :: w in ws ==> w.place == Finished
    ensures SumOf(ws, InFlight) == 0
  {
    if ws != [] {
      NoneInFlight(ws[1..]);
    }
  }

  /**
   The overshoot is known exactly: after the join the total is the total when the flag went up plus the number of
   workers that were inside an evaluation then. So it is at most one per worker.
   */
  lemma OvershootIsBounded(p: Pool, run: seq<Action>)
    requires Possible(p, run) && p.stop
    ensures var q := After(p, run);
            && p.total <= q.total <= p.total + SumOf(p.workers, InFlight) <= p.total + |p.workers|
            && ((forall w :: w in q.workers ==> w.place == Finished) ==>
                  q.total == p.total + SumOf(p.workers, InFlight))
  {
    RunAfterStop(p, run);
    TotalGrows(p, run);
    SumOfBound(p.workers, InFlight, 1);
    var q := After(p, run);
    if forall w :: w in q.workers ==> w.place == Finished {
      NoneInFlight(q.workers);
    }
  }

  lemma {:induction false} TotalGrows(p: Pool, run: seq<Action>)
    requires Possible(p, run)
    ensures p.total <= After(p, run).total
    decreases |run|
  {
    if run != [] {
      TotalGrows(Next(p, run[0]), run[1..]);
    }
  }

  /**
   Workers take at most three steps each once the flag is up, and one that has not finished can always take one (its
   call returns): so every worker finishes and the join completes.
   */
  lemma WorkersFinish(p: Pool, run: seq<Action>)
    requires Possible(p, run) && p.stop
    ensures WorkerSteps(run) <= 3 * |p.workers|
    ensures WorkerSteps(run) == SumOf(p.workers, StepsLeft)
            <==> forall w :: w in After(p, run).workers ==> w.place == Finished
  {
    RunAfterStop(p, run);
    SumOfBound(p.workers, StepsLeft, 3);
    NoStepsLeft(After(p, run).workers);
  }

  lemma {:induction false} NoStepsLeft(ws: seq<Worker>)
    ensures SumOf(ws, StepsLeft) == 0 <==> forall w :: w in ws ==> w.place == Finished
  {
    if ws != [] {
      NoStepsLeft(ws[1..]);
      assert forall w :: w in ws ==> w == ws[0] || w in ws[1..];
    }
  }

  lemma SomeWorkerCanMove(p: Pool) returns (a: Action)
    requires exists w :: w in p.workers && w.place != Finished
    ensures Enabled(p, a) && !a.RaiseStop? && !a.Join?
  {
    var i: nat :| i < |p.workers| && p.workers[i].place != Finished;
    a := match p.workers[i].place
         case Testing => Test(i)
         case Calling => Return(i, true)
         case _ => AddTotal(i);
  }
}
