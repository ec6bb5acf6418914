/**
 Phases 1 and 2 of the pipeline: loops that draw files, evaluate them on the first live instance, and count.
 Which instance is alive and what the server answers are arbitrary inputs. Counters are natural numbers.
 */
module Phases {
  import opened Wrappers
  import opened Sampler

  // Counting

  /** The counters of the instances and the shared total. */
  class Counters {
    const evaluations: array<nat>
    const errors: array<nat>
    var total: nat

    ghost predicate Valid()
      reads this
    {
      evaluations.Length == errors.Length && evaluations != errors
    }

    ghost function Now(): Counts
      reads this, evaluations, errors
    {
      Counts(evaluations[..], errors[..], total)
    }

    constructor (instances: nat)
      ensures Valid() && fresh(evaluations) && fresh(errors) && evaluations.Length == instances
      ensures Now() == Counts(seq(instances, _ => 0), seq(instances, _ => 0), 0)
    {
      evaluations := new nat[instances](_ => 0);
      errors := new nat[instances](_ => 0);
      total := 0;
    }

    method Count(i: nat, ok: bool)
      requires Valid() && i < evaluations.Length
      modifies this`total, evaluations, errors
      ensures Now() == Counted(old(Now()), i, if ok then 1 else 0, if ok then 0 else 1)
    {
      if ok {
        evaluations[i] := evaluations[i] + 1;
      } else {
        errors[i] := errors[i] + 1;
      }
      total := total + 1;
      assert evaluations[..] == old(evaluations[..])[i := old(evaluations[i]) + if ok then 1 else 0];
      assert errors[..] == old(errors[..])[i := old(errors[i]) + if ok then 0 else 1];
    }
  }

  /** All counts at one moment. */
  datatype Counts = Counts(evaluations: seq<nat>, errors: seq<nat>, total: nat)

  /** Successes and errors on one instance, and all of them on the total. */
  ghost function Counted(c: Counts, k: nat, passed: nat, failed: nat): Counts {
    if k < |c.evaluations| == |c.errors| then
      Counts(c.evaluations[k := c.evaluations[k] + passed], c.errors[k := c.errors[k] + failed],
             c.total + passed + failed)
    else c
  }

  /** The answers to one generated test: to the test itself, and to the fallback that is tried when it fails. */
  datatype Answers = Answers(first: bool, fallback: bool)

  /** What happens in one turn: which instance is the first live one, if any, and what it answers. */
  datatype Turn =
    | Attempt(live: Option<nat>, ok: bool)  // phase 1: whether any of the four strategies succeeds
    | Batch(live: Option<nat>, tests: seq<Answers>, trivial: Answers)  // phase 2: the generated tests, the trivial one

  /** A file without generated tests gets the trivial one. */
  function TestsOf(t: Turn): seq<Answers>
    requires t.Batch?
  {
    if t.tests == [] then [t.trivial] else t.tests
  }

  /** How many of the tests succeed, at once or with the fallback. */
  ghost function Passing(tests: seq<Answers>): (n: nat)
    ensures n <= |tests|
  {
    if tests == [] then 0
    else
      var last := tests[|tests| - 1];
      Passing(tests[..|tests| - 1]) + if last.first || last.fallback then 1 else 0
  }

  ghost function PassedIn(t: Turn): nat {
    match t
    case Attempt(_, ok) => if ok then 1 else 0
    case Batch(_, _, _) => Passing(TestsOf(t))
  }

  ghost function FailedIn(t: Turn): nat {
    match t
    case Attempt(_, ok) => if ok then 0 else 1
    case Batch(_, _, _) => |TestsOf(t)| - Passing(TestsOf(t))
  }

  /** The tests that succeed at once or with the fallback. */
  ghost function Successful(tests: seq<Answers>): set<nat> {
    set i: nat | i < |tests| && (tests[i].first || tests[i].fallback)
  }

  /** The tests for which both answers are failures. */
  ghost function Unsuccessful(tests: seq<Answers>): set<nat> {
    set i: nat | i < |tests| && !tests[i].first && !tests[i].fallback
  }

  lemma SuccessfulSnoc(tests: seq<Answers>, t: Answers)
    ensures Successful(tests + [t])
         == if t.first || t.fallback then Successful(tests) + {|tests|} else Successful(tests)
    ensures Unsuccessful(tests + [t])
         == if t.first || t.fallback then Unsuccessful(tests) else Unsuccessful(tests) + {|tests|}
  {
  }

  lemma {:induction false} PassingIsCount(tests: seq<Answers>)
    ensures Passing(tests) == |Successful(tests)| && |tests| - Passing(tests) == |Unsuccessful(tests)|
  {
    if tests == [] {
      assert Successful(tests) == {} && Unsuccessful(tests) == {};
    } else {
      var n := |tests| - 1;
      PassingIsCount(tests[..n]);
      SuccessfulSnoc(tests[..n], tests[n]);
      assert tests == tests[..n] + [tests[n]];
    }
  }

  /**
   What a turn on a live instance counts: an attempt is one evaluation; of generated tests those are successes that
   pass at once or with the fallback, and the others are errors; without generated tests the trivial one is counted.
   */
  lemma TurnIsCounted(t: Turn)
    ensures t.Attempt? ==> PassedIn(t) == (if t.ok then 1 else 0) && FailedIn(t) == (if t.ok then 0 else 1)
    ensures t.Batch? && t.tests != [] ==>
              PassedIn(t) == |Successful(t.tests)| && FailedIn(t) == |Unsuccessful(t.tests)|
    ensures t.Batch? && t.tests != [] ==> PassedIn(t) + FailedIn(t) == |t.tests|
    ensures t.Batch? && t.tests == [] ==> PassedIn(t) + FailedIn(t) == 1
    ensures t.Batch? && t.tests == [] ==> (FailedIn(t) == 1 <==> !t.trivial.first && !t.trivial.fallback)
  {
    if t.Batch? {
      PassingIsCount(TestsOf(t));
    }
  }

  ghost predicate Fit(turns: seq<Turn>, instances: nat) {
    forall i :: 0 <= i < |turns| && turns[i].live.Some? ==> turns[i].live.value < instances
  }

  /** The counts after some turns. A turn without a live instance counts nothing. */
  ghost function Replay(start: Counts, turns: seq<Turn>): Counts {
    if turns == [] then start
    else
      var t, before := turns[|turns| - 1], Replay(start, turns[..|turns| - 1]);
      if t.live.None? then before else Counted(before, t.live.value, PassedIn(t), FailedIn(t))
  }

  ghost function Passed(turns: seq<Turn>): nat {
    if turns == [] then 0 else Passed(turns[..|turns| - 1]) + PassedIn(turns[|turns| - 1])
  }

  ghost function Failed(turns: seq<Turn>): nat {
    if turns == [] then 0 else Failed(turns[..|turns| - 1]) + FailedIn(turns[|turns| - 1])
  }

  /** The answers of all turns in a row; an attempt has no fallback. */
  ghost function AllAnswers(turns: seq<Turn>): seq<Answers> {
    if turns == [] then []
    else
      var t := turns[|turns| - 1];
      AllAnswers(turns[..|turns| - 1])
      + match t
        case Attempt(_, ok) => [Answers(ok, false)]
        case Batch(_, tests, trivial) => if tests == [] then [trivial] else tests
  }

  lemma {:induction false} PassingAppend(a: seq<Answers>, b: seq<Answers>)
    ensures Passing(a + b) == Passing(a) + Passing(b)
  {
    if b == [] {
      assert a + b == a;
    } else {
      var n := |b| - 1;
      PassingAppend(a, b[..n]);
      assert (a + b)[..|a| + n] == a + b[..n];
    }
  }

  lemma {:induction false} PassedIsPassing(turns: seq<Turn>)
    ensures Passed(turns) == Passing(AllAnswers(turns))
    ensures Failed(turns) == |AllAnswers(turns)| - Passing(AllAnswers(turns))
  {
    if turns != [] {
      var front, t := turns[..|turns| - 1], turns[|turns| - 1];
      PassedIsPassing(front);
      var last := if t.Attempt? then [Answers(t.ok, false)] else TestsOf(t);
      PassingAppend(AllAnswers(front), last);
      assert t.Attempt? ==> last[..0] == [];
    }
  }

  /** Over whole phases successes and errors are the answers that pass and those that do not. */
  lemma PassedIsCount(turns: seq<Turn>)
    ensures Passed(turns) == |Successful(AllAnswers(turns))|
    ensures Failed(turns) == |Unsuccessful(AllAnswers(turns))|
  {
    PassedIsPassing(turns);
    PassingIsCount(AllAnswers(turns));
  }

  /** The turns spent on instance `k`. */
  ghost function On(k: nat, turns: seq<Turn>): seq<Turn> {
    if turns == [] then []
    else On(k, turns[..|turns| - 1]) + if turns[|turns| - 1].live == Some(k) then [turns[|turns| - 1]] else []
  }

  lemma PassedSnoc(turns: seq<Turn>, t: Turn)
    ensures Passed(turns + [t]) == Passed(turns) + PassedIn(t)
    ensures Failed(turns + [t]) == Failed(turns) + FailedIn(t)
  {
    assert (turns + [t])[..|turns|] == turns;
  }

  /** Every instance gets exactly what its own turns add up to, and nothing of the others. */
  lemma {:induction false} ReplayShares(start: Counts, turns: seq<Turn>)
    requires |start.evaluations| == |start.errors| && Fit(turns, |start.errors|)
    ensures var end := Replay(start, turns);
            && |end.evaluations| == |end.errors| == |start.errors|
            && forall k :: 0 <= k < |start.errors| ==>
                 && end.evaluations[k] == start.evaluations[k] + Passed(On(k, turns))
                 && end.errors[k] == start.errors[k] + Failed(On(k, turns))
  {
    if turns != [] {
      var front, t := turns[..|turns| - 1], turns[|turns| - 1];
      ReplayShares(start, front);
      forall k | 0 <= k < |start.errors|
        ensures Passed(On(k, turns)) == Passed(On(k, front)) + if t.live == Some(k) then PassedIn(t) else 0
        ensures Failed(On(k, turns)) == Failed(On(k, front)) + if t.live == Some(k) then FailedIn(t) else 0
      {
        PassedSnoc(On(k, front), t);
        assert On(k, front) + [] == On(k, front);
      }
    }
  }

  ghost function Total(s: seq<nat>): nat {
    if s == [] then 0 else Total(s[..|s| - 1]) + s[|s| - 1]
  }

  lemma {:induction false} TotalUpdate(s: seq<nat>, i: nat, x: nat)
    requires i < |s|
    ensures Total(s[i := x]) + s[i] == Total(s) + x
  {
    var n := |s| - 1;
    if i == n {
      assert s[i := x][..n] == s[..n];
    } else {
      assert s[i := x][..n] == s[..n][i := x];
      TotalUpdate(s[..n], i, x);
    }
  }

  /** Every evaluation in the total is on exactly one instance, as a success or as an error. */
  ghost predicate Balanced(c: Counts) {
    Total(c.evaluations) + Total(c.errors) == c.total
  }

  lemma {:induction false} AllZero(n: nat)
    ensures Total(seq(n, _ => 0)) == 0
  {
    if n > 0 {
      AllZero(n - 1);
      assert seq(n, _ => 0)[..n - 1] == seq(n - 1, _ => 0);
    }
  }

  lemma StartsBalanced(instances: nat)
    ensures Balanced(Counts(seq(instances, _ => 0), seq(instances, _ => 0), 0))
  {
    AllZero(instances);
  }

  lemma CountedKeepsBalance(c: Counts, k: nat, passed: nat, failed: nat)
    requires |c.evaluations| == |c.errors|
    ensures Balanced(Counted(c, k, passed, failed)) <==> Balanced(c)
  {
    if k < |c.errors| {
      TotalUpdate(c.evaluations, k, c.evaluations[k] + passed);
      TotalUpdate(c.errors, k, c.errors[k] + failed);
    }
  }

  /** The sum over the instances equals the total after a phase exactly when it did before. */
  lemma {:induction false} ReplayKeepsBalance(start: Counts, turns: seq<Turn>)
    requires |start.evaluations| == |start.errors| && Fit(turns, |start.errors|)
    ensures Balanced(Replay(start, turns)) <==> Balanced(start)
  {
    if turns != [] {
      var front, t := turns[..|turns| - 1], turns[|turns| - 1];
      ReplayKeepsBalance(start, front);
      ReplayShares(start, front);
      if t.live.Some? {
        CountedKeepsBalance(Replay(start, front), t.live.value, PassedIn(t), FailedIn(t));
      }
    }
  }

  /** While instances are alive the total grows by all evaluations of the turns. */
  lemma {:induction false} ReplayTotal(start: Counts, turns: seq<Turn>)
    requires |start.evaluations| == |start.errors| && Fit(turns, |start.errors|)
    requires forall i :: 0 <= i < |turns| ==> turns[i].live.Some?
    ensures Replay(start, turns).total == start.total + Passed(turns) + Failed(turns)
  {
    if turns != [] {
      ReplayTotal(start, turns[..|turns| - 1]);
      ReplayShares(start, turns[..|turns| - 1]);
    }
  }

  /** The turns before the first one that finds no live instance. */
  ghost function LiveFront(turns: seq<Turn>): seq<Turn> {
    if turns == [] then []
    else
      var front := turns[..|turns| - 1];
      if LiveFront(front) == front && turns[|turns| - 1].live.Some? then turns else LiveFront(front)
  }

  lemma {:induction false} LiveFrontStops(turns: seq<Turn>)
    ensures var n := |LiveFront(turns)|;
            && n <= |turns| && LiveFront(turns) == turns[..n]
            && (forall i :: 0 <= i < n ==> turns[i].live.Some?)
            && (n < |turns| ==> turns[n].live.None?)
  {
    if turns != [] {
      var front := turns[..|turns| - 1];
      LiveFrontStops(front);
      assert turns == front + [turns[|turns| - 1]];
    }
  }

  lemma {:induction false} LiveFrontIs(turns: seq<Turn>, n: nat)
    requires n <= |turns| && LiveFront(turns[..n]) == turns[..n]
    requires n < |turns| ==> turns[n].live.None?
    ensures LiveFront(turns) == turns[..n]
  {
    if n < |turns| {
      var m := |turns| - 1;
      var front := turns[..m];
      assert front[..n] == turns[..n];
      LiveFrontIs(front, n);
    } else {
      assert turns[..n] == turns;
    }
  }

  /** One more turn on a live instance. */
  lemma NextTurn(start: Counts, turns: seq<Turn>, i: nat)
    requires i < |turns| && turns[i].live.Some? && LiveFront(turns[..i]) == turns[..i]
    ensures LiveFront(turns[..i + 1]) == turns[..i + 1]
    ensures Passed(turns[..i + 1]) == Passed(turns[..i]) + PassedIn(turns[i])
    ensures Failed(turns[..i + 1]) == Failed(turns[..i]) + FailedIn(turns[i])
    ensures Replay(start, turns[..i + 1])
         == Counted(Replay(start, turns[..i]), turns[i].live.value, PassedIn(turns[i]), FailedIn(turns[i]))
  {
    assert turns[..i + 1][..i] == turns[..i];
  }

  function Min(a: nat, b: nat): nat {
    if a < b then a else b
  }

  // Sampling

  /** These files have been drawn since position `at` of the random stream; their hashes are avoided. */
  ghost predicate Drawing(corpus: CorpusSampler, at: nat, drawn: seq<File>, avoid: seq<string>)
    reads corpus
  {
    && avoid == HashesOf(drawn) && corpus.drawn == at + |drawn|
    && (corpus.files != [] ==> drawn == Draws(corpus.files, corpus.rng, at, |drawn|))
  }

  /** One turn of the sampling loops: draw a file that avoids those drawn before, if it can. */
  method DrawNext(corpus: CorpusSampler, ghost at: nat, drawn: seq<File>, avoid: seq<string>)
    returns (more: seq<File>, moreAvoid: seq<string>)
    requires corpus.files != [] && Drawing(corpus, at, drawn, avoid)
    modifies corpus
    ensures |more| == |drawn| + 1 && Drawing(corpus, at, more, moreAvoid)
  {
    var f := corpus.Sample(avoid);
    more, moreAvoid := drawn + [f.value], avoid + [f.value.hash];
    HashesOfSnoc(drawn, f.value);
    DrawsNext(corpus.files, corpus.rng, at, |drawn|);
  }

  // The phases

  /**
   Phase 1: up to 64 files, one evaluation each on the first live instance. The phase ends early when there is none.
   */
  method Phase1(corpus: CorpusSampler, c: Counters, turns: seq<Turn>) returns (drawn: seq<File>, totalOk: nat)
    requires c.Valid() && |turns| == Min(64, |corpus.files|) && Fit(turns, c.evaluations.Length)
    requires forall i :: 0 <= i < |turns| ==> turns[i].Attempt?
    modifies corpus, c, c.evaluations, c.errors
    ensures |drawn| == Min(|LiveFront(turns)| + 1, |turns|)
    ensures corpus.files != [] ==> drawn == Draws(corpus.files, corpus.rng, old(corpus.drawn), |drawn|)
    ensures c.Now() == Replay(old(c.Now()), LiveFront(turns))
    ensures totalOk == |Successful(AllAnswers(LiveFront(turns)))|
  {
    var avoid := [];
    ghost var start, at := c.Now(), corpus.drawn;
    drawn, totalOk := [], 0;
    var i := 0;
    while i < |turns|
      invariant i <= |turns| && |drawn| == i && Drawing(corpus, at, drawn, avoid)
      invariant c.Valid() && c.Now() == Replay(start, turns[..i]) && totalOk == Passed(turns[..i])
      invariant LiveFront(turns[..i]) == turns[..i]
    {
      drawn, avoid := DrawNext(corpus, at, drawn, avoid);
      var target := turns[i].live;
      if target.None? {
        break;
      }
      NextTurn(start, turns, i);
      if turns[i].ok {
        totalOk := totalOk + 1;
      }
      c.Count(target.value, turns[i].ok);
      i := i + 1;
    }
    LiveFrontIs(turns, i);
    PassedIsCount(LiveFront(turns));
  }

  lemma CountedTwice(c: Counts, k: nat, p: nat, f: nat, q: nat, g: nat)
    ensures Counted(Counted(c, k, p, f), k, q, g) == Counted(c, k, p + q, f + g)
  {
  }

  /** The tests of one file on one instance. */
  method RunTests(c: Counters, target: nat, tests: seq<Answers>)
    returns (localOk: nat, localFail: nat, kernelOk: nat, kernelFail: nat)
    requires c.Valid() && target < c.evaluations.Length
    modifies c, c.evaluations, c.errors
    ensures localOk == kernelOk == |set i: nat | i < |tests| && (tests[i].first || tests[i].fallback)|
    ensures localFail == kernelFail == |set i: nat | i < |tests| && !tests[i].first && !tests[i].fallback|
    ensures localOk == Passing(tests) && localOk + localFail == |tests|
    ensures c.Now() == Counted(old(c.Now()), target, localOk, localFail)
  {
    localOk, localFail, kernelOk, kernelFail := 0, 0, 0, 0;
    for i := 0 to |tests|
      invariant localOk == kernelOk == Passing(tests[..i]) && localFail == kernelFail == i - localOk
      invariant c.Now() == Counted(old(c.Now()), target, localOk, localFail)
    {
      assert tests[..i + 1][..i] == tests[..i];
      var ok := tests[i].first;
      var kernel := ok;
      if !ok && tests[i].fallback {
        kernel, ok := true, true;
      }
      CountedTwice(old(c.Now()), target, localOk, localFail, if ok then 1 else 0, if ok then 0 else 1);
      if kernel {
        kernelOk := kernelOk + 1;
      } else {
        kernelFail := kernelFail + 1;
      }
      if ok {
        localOk := localOk + 1;
      } else {
        localFail := localFail + 1;
      }
      c.Count(target, ok);
    }
    assert tests[..|tests|] == tests;
    PassingIsCount(tests);
  }

  /** The tests of turn `i` on its instance. */
  method RunTurn(c: Counters, ghost start: Counts, turns: seq<Turn>, i: nat)
    returns (ok: nat, fail: nat, kernelOk: nat, kernelFail: nat)
    requires i < |turns| && turns[i].Batch? && turns[i].live.Some? && LiveFront(turns[..i]) == turns[..i]
    requires c.Valid() && c.Now() == Replay(start, turns[..i]) && turns[i].live.value < c.evaluations.Length
    modifies c, c.evaluations, c.errors
    ensures c.Now() == Replay(start, turns[..i + 1]) && LiveFront(turns[..i + 1]) == turns[..i + 1]
    ensures kernelOk == ok && Passed(turns[..i + 1]) == Passed(turns[..i]) + ok
    ensures kernelFail == fail && Failed(turns[..i + 1]) == Failed(turns[..i]) + fail
  {
    var tests := turns[i].tests;
    if tests == [] {
      tests := [turns[i].trivial];
    }
    NextTurn(start, turns, i);
    ok, fail, kernelOk, kernelFail := RunTests(c, turns[i].live.value, tests);
  }

  /** Phase 2: up to 48 files, on the first live instance; each file's tests, or the trivial one if it has none. */
  method Phase2(corpus: CorpusSampler, c: Counters, turns: seq<Turn>)
    returns (drawn: seq<File>, genOk: nat, genFail: nat, kernelOk: nat, kernelFail: nat)
    requires c.Valid() && |turns| == Min(48, |corpus.files|) && Fit(turns, c.evaluations.Length)
    requires forall i :: 0 <= i < |turns| ==> turns[i].Batch?
    modifies corpus, c, c.evaluations, c.errors
    ensures |drawn| == Min(|LiveFront(turns)| + 1, |turns|)
    ensures corpus.files != [] ==> drawn == Draws(corpus.files, corpus.rng, old(corpus.drawn), |drawn|)
    ensures c.Now() == Replay(old(c.Now()), LiveFront(turns))
    ensures genOk == kernelOk == |Successful(AllAnswers(LiveFront(turns)))|
    ensures genFail == kernelFail == |Unsuccessful(AllAnswers(LiveFront(turns)))|
  {
    var avoid := [];
    ghost var start, at := c.Now(), corpus.drawn;
    drawn, genOk, genFail, kernelOk, kernelFail := [], 0, 0, 0, 0;
    var i := 0;
    while i < |turns|
      invariant i <= |turns| && |drawn| == i && Drawing(corpus, at, drawn, avoid)
      invariant c.Valid() && c.Now() == Replay(start, turns[..i]) && LiveFront(turns[..i]) == turns[..i]
      invariant genOk == kernelOk == Passed(turns[..i]) && genFail == kernelFail == Failed(turns[..i])
    {
      drawn, avoid := DrawNext(corpus, at, drawn, avoid);
      if turns[i].live.None? {
        break;
      }
      var ok, fail, kOk, kFail := RunTurn(c, start, turns, i);
      genOk, genFail, kernelOk, kernelFail := genOk + ok, genFail + fail, kernelOk + kOk, kernelFail + kFail;
      i := i + 1;
    }
    LiveFrontIs(turns, i);
    PassedIsCount(LiveFront(turns));
  }
}
