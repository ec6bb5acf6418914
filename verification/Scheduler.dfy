/**
 The scheduler: a FIFO queue of work items and three policies for choosing an instance.
 The pool is seen as a snapshot of instance ids and loads, which do not change during one `try_assign`; the
 round-robin cursor and the assignment count are natural numbers.
 */
module Scheduler {
  import opened Division
  import opened Uint64
  import opened Wrappers

  datatype Policy = RoundRobin | LeastLoad | DagAware

  datatype Item = Item(id: string, instance: int, op: string, source: string, tag: string, priority: int,
                       enqueueMs: nat, dependsOn: string)

  /** `id` and the number of evaluations, a 64-bit counter. */
  datatype Instance = Instance(id: int, load: nat)

  ghost predicate PoolOk(pool: seq<Instance>) {
    && (forall i :: 0 <= i < |pool| ==> pool[i].id >= 0 && pool[i].load <= MAX)
    && (forall i, j :: 0 <= i < j < |pool| ==> pool[i].id != pool[j].id)
  }

  // Choosing

  /** The load a policy compares: DAG_AWARE adds one for items without priority, and the addition can wrap. */
  function Weight(policy: Policy, priority: int, load: nat): (w: nat)
    ensures load < MAX ==> w == load + if policy == DagAware && priority <= 0 then 1 else 0
    ensures load == MAX ==> w == if policy == DagAware && priority <= 0 then 0 else MAX
  {
    WrapSmall(load + 1);
    if policy == DagAware && priority <= 0 then Wrap(load + 1) else load
  }

  /** Position `i` is the first with the least weight, and that weight is below the limit the scan starts from. */
  ghost predicate FirstLeast(pool: seq<Instance>, policy: Policy, priority: int, i: nat) {
    && i < |pool| && Weight(policy, priority, pool[i].load) < MAX
    && (forall j :: 0 <= j < |pool| ==>
          Weight(policy, priority, pool[i].load) <= Weight(policy, priority, pool[j].load))
    && (forall j :: 0 <= j < i ==> Weight(policy, priority, pool[i].load) < Weight(policy, priority, pool[j].load))
  }

  ghost predicate NoLeast(pool: seq<Instance>, policy: Policy, priority: int) {
    forall j :: 0 <= j < |pool| ==> Weight(policy, priority, pool[j].load) >= MAX
  }

  /** What the argmin scan chooses: an id, or -1. */
  ghost predicate Chosen(pool: seq<Instance>, policy: Policy, priority: int, chosen: int) {
    (NoLeast(pool, policy, priority) && chosen == -1)
    || exists i: nat :: FirstLeast(pool, policy, priority, i) && chosen == pool[i].id
  }

  lemma ChosenIsUnique(pool: seq<Instance>, policy: Policy, priority: int, a: int, b: int)
    requires Chosen(pool, policy, priority, a) && Chosen(pool, policy, priority, b)
    ensures a == b
  {
    if !NoLeast(pool, policy, priority) {
      var i: nat :| FirstLeast(pool, policy, priority, i) && a == pool[i].id;
      var j: nat :| FirstLeast(pool, policy, priority, j) && b == pool[j].id;
      assert i <= j && j <= i;
    }
  }

  method Scan(pool: seq<Instance>, policy: Policy, priority: int) returns (chosen: int)
    requires forall i :: 0 <= i < |pool| ==> pool[i].load <= MAX
    ensures Chosen(pool, policy, priority, chosen)
  {
    var best := MAX;
    chosen := -1;
    ghost var at := 0;
    for i := 0 to |pool|
      invariant best == MAX ==> chosen == -1 && NoLeast(pool[..i], policy, priority)
      invariant best <= MAX
      invariant best < MAX ==>
                  at < i && chosen == pool[at].id && best == Weight(policy, priority, pool[at].load)
                  && FirstLeast(pool[..i], policy, priority, at)
    {
      var load := Weight(policy, priority, pool[i].load);
      assert forall j :: 0 <= j < i ==> pool[..i + 1][j] == pool[..i][j];
      if load < best {
        best, chosen, at := load, pool[i].id, i;
      }
    }
    assert pool[..|pool|] == pool;
  }

  /**
   With the same loads DAG_AWARE and LEAST_LOAD make the same choice exactly when the item has priority, the pool is
   empty, or no load is at the limit of the counter and some load is at least two below it.
   */
  lemma DagAwareIsLeastLoad(pool: seq<Instance>, priority: int, a: int, b: int)
    requires PoolOk(pool) && Chosen(pool, LeastLoad, priority, a) && Chosen(pool, DagAware, priority, b)
    ensures a == b <==> priority > 0 || pool == []
                        || ((forall i :: 0 <= i < |pool| ==> pool[i].load < MAX)
                            && exists i :: 0 <= i < |pool| && pool[i].load < MAX - 1)
  {
    if priority > 0 {
      assert forall n :: Weight(DagAware, priority, n) == Weight(LeastLoad, priority, n);
      if FirstAt(pool, LeastLoad, priority, a) {
        var i: nat :| FirstLeast(pool, LeastLoad, priority, i) && a == pool[i].id;
        assert FirstLeast(pool, DagAware, priority, i);
        ChosenIsUnique(pool, DagAware, priority, a, b);
      } else {
        assert NoLeast(pool, DagAware, priority);
      }
    } else if pool != [] {
      DagAwareWithoutPriority(pool, priority, a, b);
    }
  }

  ghost predicate FirstAt(pool: seq<Instance>, policy: Policy, priority: int, chosen: int) {
    exists i: nat :: FirstLeast(pool, policy, priority, i) && chosen == pool[i].id
  }

  lemma DagAwareWithoutPriority(pool: seq<Instance>, priority: int, a: int, b: int)
    requires PoolOk(pool) && priority <= 0 && pool != []
    requires Chosen(pool, LeastLoad, priority, a) && Chosen(pool, DagAware, priority, b)
    ensures a == b <==> (forall i :: 0 <= i < |pool| ==> pool[i].load < MAX)
                        && exists i :: 0 <= i < |pool| && pool[i].load < MAX - 1
  {
    if exists k :: 0 <= k < |pool| && pool[k].load == MAX {
      WrappedLoadWins(pool, priority, a, b);
    } else {
      ShiftedLoads(pool, priority, a, b);
    }
  }

  /** A load at the limit wraps to zero: DAG_AWARE takes it, LEAST_LOAD never does. */
  lemma WrappedLoadWins(pool: seq<Instance>, priority: int, a: int, b: int)
    requires PoolOk(pool) && priority <= 0 && exists k :: 0 <= k < |pool| && pool[k].load == MAX
    requires Chosen(pool, LeastLoad, priority, a) && Chosen(pool, DagAware, priority, b)
    ensures a != b
  {
    var k :| 0 <= k < |pool| && pool[k].load == MAX;
    assert Weight(DagAware, priority, pool[k].load) == 0;
    var j: nat :| FirstLeast(pool, DagAware, priority, j) && b == pool[j].id;
    assert pool[j].load == MAX;
    if FirstAt(pool, LeastLoad, priority, a) {
      var i: nat :| FirstLeast(pool, LeastLoad, priority, i) && a == pool[i].id;
      assert pool[i].load < MAX;
    }
  }

  /** Without wrapping every weight is one higher, and so is the least one. */
  lemma ShiftedLoads(pool: seq<Instance>, priority: int, a: int, b: int)
    requires PoolOk(pool) && priority <= 0 && pool != []
    requires forall i :: 0 <= i < |pool| ==> pool[i].load < MAX
    requires Chosen(pool, LeastLoad, priority, a) && Chosen(pool, DagAware, priority, b)
    ensures a == b <==> exists i :: 0 <= i < |pool| && pool[i].load < MAX - 1
  {
    assert forall i :: 0 <= i < |pool| ==> Weight(DagAware, priority, pool[i].load) == pool[i].load + 1;
    assert Weight(LeastLoad, priority, pool[0].load) < MAX;
    var i: nat :| FirstLeast(pool, LeastLoad, priority, i) && a == pool[i].id;
    if k :| 0 <= k < |pool| && pool[k].load < MAX - 1 {
      assert Weight(LeastLoad, priority, pool[i].load) <= Weight(LeastLoad, priority, pool[k].load);
      assert FirstLeast(pool, DagAware, priority, i);
      ChosenIsUnique(pool, DagAware, priority, a, b);
    } else {
      assert NoLeast(pool, DagAware, priority);
    }
  }

  lemma {:induction false} FirstLeastPosition(ws: seq<nat>) returns (i: nat)
    requires ws != []
    ensures i < |ws| && forall j :: 0 <= j < |ws| ==> ws[i] <= ws[j] && (j < i ==> ws[i] < ws[j])
  {
    if |ws| == 1 {
      i := 0;
    } else {
      var n := |ws| - 1;
      i := FirstLeastPosition(ws[..n]);
      assert forall j :: 0 <= j < n ==> ws[j] == ws[..n][j];
      if ws[n] < ws[i] {
        i := n;
      }
    }
  }

  lemma ChoiceExists(pool: seq<Instance>, policy: Policy, priority: int)
    ensures exists c :: Chosen(pool, policy, priority, c)
  {
    if pool == [] {
      assert Chosen(pool, policy, priority, -1);
    } else {
      var ws := seq(|pool|, i requires 0 <= i < |pool| => Weight(policy, priority, pool[i].load));
      var i := FirstLeastPosition(ws);
      assert forall j :: 0 <= j < |pool| ==> ws[j] == Weight(policy, priority, pool[j].load);
      if ws[i] < MAX {
        assert FirstLeast(pool, policy, priority, i);
        assert Chosen(pool, policy, priority, pool[i].id);
      } else {
        assert Chosen(pool, policy, priority, -1);
      }
    }
  }

  ghost function Choice(pool: seq<Instance>, policy: Policy, priority: int): (c: int)
    ensures Chosen(pool, policy, priority, c)
  {
    ChoiceExists(pool, policy, priority);
    var c :| Chosen(pool, policy, priority, c);
    c
  }

  ghost predicate Present(pool: seq<Instance>, id: int) {
    exists i :: 0 <= i < |pool| && pool[i].id == id
  }

  // The queue

  datatype State = State(queue: seq<Item>, cursor: nat, count: nat)

  function Stamped(item: Item, now: nat): Item {
    if item.enqueueMs == 0 then item.(enqueueMs := now) else item
  }

  /** `try_assign`; an unassigned item is dropped when round-robin finds an empty pool. */
  ghost function AssignStep(policy: Policy, pool: Option<seq<Instance>>, s: State): (State, Option<Item>) {
    if pool.None? || s.queue == [] then (s, None)
    else
      var it, t := s.queue[0], s.(queue := s.queue[1..]);
      if it.instance >= 0 then
        var chosen := if Present(pool.value, it.instance) then it.instance else -1;
        (t.(count := s.count + 1), Some(it.(instance := chosen)))
      else if policy != RoundRobin then
        (t.(count := s.count + 1), Some(it.(instance := Choice(pool.value, policy, it.priority))))
      else if pool.value == [] then (t, None)
      else
        (t.(cursor := s.cursor + 1, count := s.count + 1),
         Some(it.(instance := pool.value[s.cursor % |pool.value|].id)))
  }

  /** Only the time of an item can be changed by submitting it, and only if it had none. */
  lemma StampedIs(item: Item, now: nat)
    ensures item.enqueueMs != 0 ==> Stamped(item, now) == item
    ensures item.enqueueMs == 0 ==> Stamped(item, now) == item.(enqueueMs := now)
  {
  }

  /** Position `i` has the least load, and no earlier one has it. */
  ghost predicate FirstLeastLoad(pool: seq<Instance>, i: nat) {
    && i < |pool|
    && (forall j :: 0 <= j < |pool| ==> pool[i].load <= pool[j].load)
    && (forall j :: 0 <= j < i ==> pool[i].load < pool[j].load)
  }

  ghost predicate NoneAtLimit(pool: seq<Instance>) {
    forall i :: 0 <= i < |pool| ==> pool[i].load < MAX
  }

  ghost predicate LoadsFit(pool: seq<Instance>) {
    forall i :: 0 <= i < |pool| ==> pool[i].load <= MAX
  }

  /** An item with an instance keeps it if the pool has it; nothing but the queue and the count changes. */
  lemma ExplicitIsKept(policy: Policy, pool: seq<Instance>, s: State)
    requires s.queue != [] && s.queue[0].instance >= 0
    ensures var it := s.queue[0];
            AssignStep(policy, Some(pool), s)
            == (State(s.queue[1..], s.cursor, s.count + 1),
                Some(if exists i :: 0 <= i < |pool| && pool[i].id == it.instance then it else it.(instance := -1)))
  {
  }

  /** ROUND_ROBIN takes the instance under the cursor and moves the cursor on. */
  lemma RoundRobinTakesCursor(pool: seq<Instance>, s: State)
    requires s.queue != [] && s.queue[0].instance < 0 && pool != []
    ensures AssignStep(RoundRobin, Some(pool), s)
         == (State(s.queue[1..], s.cursor + 1, s.count + 1),
             Some(s.queue[0].(instance := pool[s.cursor % |pool|].id)))
  {
  }

  /** LEAST_LOAD takes the first instance with the least load, none if all loads are at the limit of the counter. */
  lemma LeastLoadTakesFirst(pool: seq<Instance>, s: State)
    requires s.queue != [] && s.queue[0].instance < 0 && LoadsFit(pool)
    ensures var (t, out) := AssignStep(LeastLoad, Some(pool), s);
            && t == State(s.queue[1..], s.cursor, s.count + 1)
            && (forall i: nat :: FirstLeastLoad(pool, i) && pool[i].load < MAX ==>
                  out == Some(s.queue[0].(instance := pool[i].id)))
            && ((forall i :: 0 <= i < |pool| ==> pool[i].load == MAX) ==> out == Some(s.queue[0].(instance := -1)))
  {
    var p, c := s.queue[0].priority, Choice(pool, LeastLoad, s.queue[0].priority);
    forall i: nat | FirstLeastLoad(pool, i) && pool[i].load < MAX ensures c == pool[i].id {
      assert FirstLeast(pool, LeastLoad, p, i);
      ChosenIsUnique(pool, LeastLoad, p, pool[i].id, c);
    }
    if forall i :: 0 <= i < |pool| ==> pool[i].load == MAX {
      ChosenIsUnique(pool, LeastLoad, p, -1, c);
    }
  }

  /**
   DAG_AWARE takes the first instance with the least load too. For an item without priority the limit is one lower,
   and an instance whose load is at the limit of the counter wraps to zero and comes first.
   */
  lemma DagAwareTakesFirst(pool: seq<Instance>, s: State)
    requires s.queue != [] && s.queue[0].instance < 0 && LoadsFit(pool)
    ensures var (t, out) := AssignStep(DagAware, Some(pool), s);
            var urgent := s.queue[0].priority > 0;
            && t == State(s.queue[1..], s.cursor, s.count + 1)
            && (urgent || NoneAtLimit(pool) ==>
                  forall i: nat :: FirstLeastLoad(pool, i) && pool[i].load < (if urgent then MAX else MAX - 1) ==>
                                     out == Some(s.queue[0].(instance := pool[i].id)))
            && (!urgent ==> forall i: nat :: i < |pool| && pool[i].load == MAX && NoneAtLimit(pool[..i]) ==>
                                               out == Some(s.queue[0].(instance := pool[i].id)))
            && ((forall i :: 0 <= i < |pool| ==> pool[i].load == if urgent then MAX else MAX - 1) ==>
                  out == Some(s.queue[0].(instance := -1)))
  {
    var p := s.queue[0].priority;
    var c := Choice(pool, DagAware, p);
    var limit := if p > 0 then MAX else MAX - 1;
    forall i: nat | FirstLeastLoad(pool, i) && pool[i].load < limit && (p > 0 || NoneAtLimit(pool))
      ensures c == pool[i].id
    {
      assert FirstLeast(pool, DagAware, p, i);
      ChosenIsUnique(pool, DagAware, p, pool[i].id, c);
    }
    forall i: nat | p <= 0 && i < |pool| && pool[i].load == MAX && NoneAtLimit(pool[..i]) ensures c == pool[i].id {
      assert forall j :: 0 <= j < i ==> pool[j] == pool[..i][j];
      assert FirstLeast(pool, DagAware, p, i);
      ChosenIsUnique(pool, DagAware, p, pool[i].id, c);
    }
    if forall i :: 0 <= i < |pool| ==> pool[i].load == limit {
      ChosenIsUnique(pool, DagAware, p, -1, c);
    }
  }

  class Scheduler {
    const policy: Policy
    var q: seq<Item>
    var rrCursor: nat
    var count: nat  // assigned_

    constructor (policy: Policy)
      ensures this.policy == policy && View() == State([], 0, 0)
    {
      this.policy := policy;
      q, rrCursor, count := [], 0, 0;
    }

    ghost function View(): State
      reads this
    {
      State(q, rrCursor, count)
    }

    method Submit(item: Item, now: nat)
      modifies this`q
      ensures View() == old(View()).(queue := old(q) + [Stamped(item, now)])
    {
      var it := item;
      if it.enqueueMs == 0 {
        it := it.(enqueueMs := now);
      }
      q := q + [it];
    }

    method Pending() returns (n: nat)
      ensures n == |q|
    {
      n := |q|;
    }

    method TryAssign(pool: Option<seq<Instance>>) returns (out: Option<Item>)
      requires pool.Some? ==> forall i :: 0 <= i < |pool.value| ==> pool.value[i].load <= MAX
      modifies this
      ensures (View(), out) == AssignStep(policy, pool, old(View()))
    {
      if pool.None? || q == [] {
        return None;
      }
      var it := q[0];
      q := q[1..];
      var chosen := -1;
      if it.instance >= 0 {
        chosen := Find(pool.value, it.instance);
      } else if policy == RoundRobin {
        if pool.value == [] {
          return None;
        }
        chosen := pool.value[rrCursor % |pool.value|].id;
        rrCursor := rrCursor + 1;
      } else {
        chosen := Scan(pool.value, policy, it.priority);
        ChosenIsUnique(pool.value, policy, it.priority, chosen, Choice(pool.value, policy, it.priority));
      }
      it := it.(instance := chosen);
      count := count + 1;
      return Some(it);
    }
  }

  method Find(pool: seq<Instance>, id: int) returns (chosen: int)
    requires id >= 0
    ensures chosen == if Present(pool, id) then id else -1
  {
    chosen := -1;
    for i := 0 to |pool|
      invariant chosen == -1 && forall j :: 0 <= j < i ==> pool[j].id != id
    {
      if pool[i].id == id {
        return pool[i].id;
      }
    }
  }

  // Whole runs

  datatype Op = Submit(item: Item, now: nat) | Assign(pool: Option<seq<Instance>>)

  /** One item leaving the queue, the pool seen then, and what was returned. */
  datatype Leaving = Leaving(item: Item, pool: seq<Instance>, out: Option<Item>)

  ghost function Final(policy: Policy, s: State, ops: seq<Op>): State
    decreases |ops|
  {
    if ops == [] then s
    else match ops[0]
         case Submit(item, now) => Final(policy, s.(queue := s.queue + [Stamped(item, now)]), ops[1..])
         case Assign(pool) => Final(policy, AssignStep(policy, pool, s).0, ops[1..])
  }

  ghost function Leavings(policy: Policy, s: State, ops: seq<Op>): seq<Leaving>
    decreases |ops|
  {
    if ops == [] then []
    else match ops[0]
         case Submit(item, now) => Leavings(policy, s.(queue := s.queue + [Stamped(item, now)]), ops[1..])
         case Assign(pool) =>
           var (t, out) := AssignStep(policy, pool, s);
           (if pool.None? || s.queue == [] then [] else [Leaving(s.queue[0], pool.value, out)])
           + Leavings(policy, t, ops[1..])
  }

  ghost function Submitted(ops: seq<Op>): seq<Item> {
    if ops == [] then []
    else (if ops[0].Submit? then [Stamped(ops[0].item, ops[0].now)] else []) + Submitted(ops[1..])
  }

  ghost function ItemsOf(ls: seq<Leaving>): seq<Item> {
    if ls == [] then [] else [ls[0].item] + ItemsOf(ls[1..])
  }

  ghost function Returned(ls: seq<Leaving>): nat {
    if ls == [] then 0 else (if ls[0].out.Some? then 1 else 0) + Returned(ls[1..])
  }

  /** An item leaves changed in its instance only, or not at all: unassigned, under round-robin, with no instances. */
  ghost predicate Handled(policy: Policy, l: Leaving) {
    match l.out
    case None => l.item.instance < 0 && policy == RoundRobin && l.pool == []
    case Some(it) =>
      && it == l.item.(instance := it.instance)
      && (it.instance == -1 || Present(l.pool, it.instance))
      && (l.item.instance >= 0 ==> it.instance == if Present(l.pool, l.item.instance) then l.item.instance else -1)
      && (l.item.instance < 0 && l.pool == [] ==> policy != RoundRobin)
  }

  ghost predicate Conserved(policy: Policy, s: State, ops: seq<Op>) {
    Balanced(policy, s.queue, s.count, Submitted(ops), Leavings(policy, s, ops), Final(policy, s, ops))
  }

  ghost predicate Balanced(policy: Policy, queue: seq<Item>, count: nat, submitted: seq<Item>, ls: seq<Leaving>,
                           end: State)
  {
    && queue + submitted == ItemsOf(ls) + end.queue
    && (forall l :: l in ls ==> Handled(policy, l))
    && end.count == count + Returned(ls)
  }

  lemma BalancedFront(policy: Policy, queue: seq<Item>, count: nat, submitted: seq<Item>, l: Leaving,
                      ls: seq<Leaving>, end: State)
    requires Handled(policy, l)
    requires Balanced(policy, queue, count + (if l.out.Some? then 1 else 0), submitted, ls, end)
    ensures Balanced(policy, [l.item] + queue, count, submitted, [l] + ls, end)
  {
    assert ([l] + ls)[1..] == ls;
    assert ([l.item] + queue) + submitted == [l.item] + (queue + submitted);
    assert [l.item] + (ItemsOf(ls) + end.queue) == ([l.item] + ItemsOf(ls)) + end.queue;
  }

  lemma SubmitConserves(policy: Policy, s: State, ops: seq<Op>)
    requires ops != [] && ops[0].Submit?
    requires Conserved(policy, s.(queue := s.queue + [Stamped(ops[0].item, ops[0].now)]), ops[1..])
    ensures Conserved(policy, s, ops)
  {
    var x := Stamped(ops[0].item, ops[0].now);
    assert s.queue + ([x] + Submitted(ops[1..])) == (s.queue + [x]) + Submitted(ops[1..]);
  }

  lemma IdleAssignConserves(policy: Policy, s: State, ops: seq<Op>)
    requires ops != [] && ops[0].Assign? && (ops[0].pool.None? || s.queue == [])
    requires Conserved(policy, s, ops[1..])
    ensures Conserved(policy, s, ops)
  {
    assert [] + Leavings(policy, s, ops[1..]) == Leavings(policy, s, ops[1..]);
    assert [] + Submitted(ops[1..]) == Submitted(ops[1..]);
  }

  lemma AssignConserves(policy: Policy, s: State, ops: seq<Op>)
    requires ops != [] && ops[0].Assign? && ops[0].pool.Some? && s.queue != []
    requires Conserved(policy, AssignStep(policy, ops[0].pool, s).0, ops[1..])
    ensures Conserved(policy, s, ops)
  {
    var (t, out) := AssignStep(policy, ops[0].pool, s);
    var l := Leaving(s.queue[0], ops[0].pool.value, out);
    AssignStepHandles(policy, ops[0].pool.value, s);
    BalancedFront(policy, t.queue, s.count, Submitted(ops[1..]), l, Leavings(policy, t, ops[1..]),
                  Final(policy, t, ops[1..]));
    assert s.queue == [l.item] + t.queue;
    assert [] + Submitted(ops[1..]) == Submitted(ops[1..]);
  }

  /**
   Over every run: what was queued and submitted is, in order, what has left followed by what is still queued; items
   leave as `Handled` says; and the assignment count is the number of items returned.
   */
  lemma {:induction false} QueueIsConserved(policy: Policy, s: State, ops: seq<Op>)
    ensures Conserved(policy, s, ops)
    decreases |ops|
  {
    if ops == [] {
      assert s.queue + [] == s.queue == [] + s.queue;
    } else if ops[0].Submit? {
      QueueIsConserved(policy, s.(queue := s.queue + [Stamped(ops[0].item, ops[0].now)]), ops[1..]);
      SubmitConserves(policy, s, ops);
    } else {
      QueueIsConserved(policy, AssignStep(policy, ops[0].pool, s).0, ops[1..]);
      if ops[0].pool.Some? && s.queue != [] {
        AssignConserves(policy, s, ops);
      } else {
        IdleAssignConserves(policy, s, ops);
      }
    }
  }

  lemma AssignStepHandles(policy: Policy, pool: seq<Instance>, s: State)
    requires s.queue != []
    ensures Handled(policy, Leaving(s.queue[0], pool, AssignStep(policy, Some(pool), s).1))
  {
  }

  ghost predicate Roomy(pool: seq<Instance>) {
    PoolOk(pool) && forall i :: 0 <= i < |pool| ==> pool[i].load < MAX - 1
  }

  lemma ChoicesAgree(pool: seq<Instance>, priority: int)
    requires Roomy(pool)
    ensures Choice(pool, DagAware, priority) == Choice(pool, LeastLoad, priority)
  {
    DagAwareIsLeastLoad(pool, priority, Choice(pool, LeastLoad, priority), Choice(pool, DagAware, priority));
    assert pool != [] ==> pool[0].load < MAX - 1;
  }

  /** Whole runs under DAG_AWARE and LEAST_LOAD that see the same loads return the same items. */
  lemma {:induction false} RunsAgree(s: State, ops: seq<Op>)
    requires forall op :: op in ops && op.Assign? && op.pool.Some? ==> Roomy(op.pool.value)
    ensures Leavings(DagAware, s, ops) == Leavings(LeastLoad, s, ops)
    ensures Final(DagAware, s, ops) == Final(LeastLoad, s, ops)
    decreases |ops|
  {
    if ops != [] {
      match ops[0]
      case Submit(item, now) => RunsAgree(s.(queue := s.queue + [Stamped(item, now)]), ops[1..]);
      case Assign(pool) =>
        if pool.Some? && s.queue != [] {
          assert ops[0] in ops;
          ChoicesAgree(pool.value, s.queue[0].priority);
        }
        RunsAgree(AssignStep(LeastLoad, pool, s).0, ops[1..]);
    }
  }

  // Round-robin and least load on an even pool

  /** One more evaluation on the chosen instance. */
  ghost function Bump(pool: seq<Instance>, id: int): seq<Instance> {
    seq(|pool|, i requires 0 <= i < |pool| =>
      if pool[i].id == id then pool[i].(load := pool[i].load + 1) else pool[i])
  }

  /** Serve the whole queue; every assignment is followed by one evaluation on the chosen instance. */
  ghost function Serve(policy: Policy, pool: seq<Instance>, s: State): (seq<int>, seq<Instance>)
    decreases |s.queue|
  {
    if s.queue == [] then ([], pool)
    else
      var (t, out) := AssignStep(policy, Some(pool), s);
      if out.None? then Serve(policy, pool, t)
      else
        var (rest, end) := Serve(policy, Bump(pool, out.value.instance), t);
        ([out.value.instance] + rest, end)
  }

  /** The pool after `t` evaluations dealt out in turn. */
  ghost function Dealt(pool: seq<Instance>, t: nat): seq<Instance>
    requires pool != []
  {
    seq(|pool|, i requires 0 <= i < |pool| =>
      pool[i].(load := t / |pool| + if i < t % |pool| then 1 else 0))
  }

  lemma NextTurn(t: nat, n: nat)
    requires n > 0
    ensures t % n + 1 < n ==> (t + 1) / n == t / n && (t + 1) % n == t % n + 1
    ensures t % n + 1 == n ==> (t + 1) / n == t / n + 1 && (t + 1) % n == 0
  {
    var q, r := t / n, t % n;
    assert t == q * n + r;
    if r + 1 < n {
      Quotient(t + 1, n, q, r + 1);
    } else {
      Distribute(q, n);
      Quotient(t + 1, n, q + 1, 0);
    }
  }

  lemma Distribute(q: nat, n: nat)
    ensures (q + 1) * n == q * n + n
  {
  }

  lemma {:induction false} MultipleBound(q: nat, n: nat)
    requires n > 0
    ensures q <= q * n
  {
    if n > 1 {
      MultipleBound(q, n - 1);
      assert q * n == q * (n - 1) + q;
    }
  }

  lemma QuotientBound(t: nat, n: nat)
    requires n > 0
    ensures t / n <= t
  {
    MultipleBound(t / n, n);
    assert t == (t / n) * n + t % n;
  }

  lemma DealtOneMore(pool: seq<Instance>, t: nat)
    requires PoolOk(pool) && pool != []
    ensures Bump(Dealt(pool, t), pool[t % |pool|].id) == Dealt(pool, t + 1)
  {
    NextTurn(t, |pool|);
    var a, b := Bump(Dealt(pool, t), pool[t % |pool|].id), Dealt(pool, t + 1);
    forall i | 0 <= i < |pool| ensures a[i] == b[i] {
      assert pool[i].id == pool[t % |pool|].id <==> i == t % |pool|;
    }
  }

  lemma LeastIsNext(pool: seq<Instance>, t: nat, priority: int)
    requires PoolOk(pool) && pool != [] && t < MAX
    ensures Choice(Dealt(pool, t), LeastLoad, priority) == pool[t % |pool|].id
  {
    QuotientBound(t, |pool|);
    var d, k := Dealt(pool, t), t % |pool|;
    assert FirstLeast(d, LeastLoad, priority, k);
    ChosenIsUnique(d, LeastLoad, priority, d[k].id, Choice(d, LeastLoad, priority));
  }

  /** Item `k` of the queue goes to instance `(start + k) mod n`. */
  ghost function InTurn(pool: seq<Instance>, start: nat, count: nat): seq<int>
    requires pool != []
  {
    seq(count, k requires 0 <= k < count => pool[(start + k) % |pool|].id)
  }

  ghost predicate AllUnassigned(queue: seq<Item>) {
    forall i :: 0 <= i < |queue| ==> queue[i].instance < 0
  }

  lemma InTurnFront(pool: seq<Instance>, start: nat, count: nat)
    requires pool != [] && count > 0
    ensures InTurn(pool, start, count) == [pool[start % |pool|].id] + InTurn(pool, start + 1, count - 1)
  {
  }

  /** Both policies pick the instance whose turn it is. */
  lemma AssignsNext(policy: Policy, pool: seq<Instance>, t: nat, s: State)
    requires PoolOk(pool) && pool != [] && AllUnassigned(s.queue) && s.queue != [] && t < MAX
    requires policy == LeastLoad || (policy == RoundRobin && s.cursor == t)
    ensures var (u, out) := AssignStep(policy, Some(Dealt(pool, t)), s);
            && out.Some? && out.value.instance == pool[t % |pool|].id && u.queue == s.queue[1..]
            && (policy == RoundRobin ==> u.cursor == t + 1)
  {
    LeastIsNext(pool, t, s.queue[0].priority);
    assert Dealt(pool, t)[t % |pool|].id == pool[t % |pool|].id;
  }

  lemma {:induction false} ServedInTurn(policy: Policy, pool: seq<Instance>, t: nat, s: State)
    requires PoolOk(pool) && pool != [] && AllUnassigned(s.queue) && t + |s.queue| <= MAX
    requires policy == LeastLoad || (policy == RoundRobin && s.cursor == t)
    ensures Serve(policy, Dealt(pool, t), s) == (InTurn(pool, t, |s.queue|), Dealt(pool, t + |s.queue|))
    decreases |s.queue|
  {
    if s.queue == [] {
      assert InTurn(pool, t, 0) == [];
    } else {
      AssignsNext(policy, pool, t, s);
      DealtOneMore(pool, t);
      var u := AssignStep(policy, Some(Dealt(pool, t)), s).0;
      ServedInTurn(policy, pool, t + 1, u);
      InTurnFront(pool, t, |s.queue|);
    }
  }

  /**
   On a fixed pool with counters at zero, LEAST_LOAD picks the same instances as ROUND_ROBIN: each in its turn. The
   loads never differ by more than one.
   */
  lemma LeastLoadIsRoundRobin(pool: seq<Instance>, queue: seq<Item>)
    requires PoolOk(pool) && pool != [] && AllUnassigned(queue) && |queue| <= MAX
    requires forall i :: 0 <= i < |pool| ==> pool[i].load == 0
    ensures var s := State(queue, 0, 0);
            && Serve(LeastLoad, pool, s) == Serve(RoundRobin, pool, s)
            && Serve(RoundRobin, pool, s).0 == InTurn(pool, 0, |queue|)
            && var end := Serve(RoundRobin, pool, s).1;
               forall i, j :: 0 <= i < |end| && 0 <= j < |end| ==> end[i].load <= end[j].load + 1
  {
    var s := State(queue, 0, 0);
    Quotient(0, |pool|, 0, 0);
    assert Dealt(pool, 0) == pool;
    ServedInTurn(LeastLoad, pool, 0, s);
    ServedInTurn(RoundRobin, pool, 0, s);
  }
}
