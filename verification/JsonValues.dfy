/**
 JSON values. A C++ `std::string` is a sequence of bytes; here it is a Dafny `string`, where a byte is the
 character with that code. Every statement holds for all strings, so in particular for all byte strings.
 */
module JsonValues {
  import opened Wrappers

  /** A `double`: one that holds an integer (minus zero is zero), or any other one, known only by a tag. */
  datatype Number = Int(n: int) | Other(tag: nat)

  datatype Json =
    | Null
    | Bool(b: bool)
    | Num(num: Number)
    | Str(s: string)
    | Arr(items: seq<Json>)
    | Obj(members: seq<Member>)  // std::map: members in increasing key order

  datatype Member = Member(key: string, val: Json)

  const EXACT := 0x20_0000_0000_0000  // 2^53: integers up to here are exact as doubles

  /** The order of `std::string` keys. */
  predicate Less(a: string, b: string) {
    b != "" && (a == "" || a[0] < b[0] || (a[0] == b[0] && Less(a[1..], b[1..])))
  }

  lemma {:induction false} LessTransitive(a: string, b: string, c: string)
    requires Less(a, b) && Less(b, c)
    ensures Less(a, c)
  {
    if a != "" && a[0] == b[0] == c[0] {
      LessTransitive(a[1..], b[1..], c[1..]);
    }
  }

  lemma {:induction false} LessTotal(a: string, b: string)
    ensures Less(a, b) || Less(b, a) || a == b
    ensures !(Less(a, b) && Less(b, a))
    ensures a == b ==> !Less(a, b)
  {
    if a != "" && b != "" && a[0] == b[0] {
      LessTotal(a[1..], b[1..]);
      assert a == [a[0]] + a[1..] && b == [b[0]] + b[1..];
    }
  }

  ghost predicate Sorted(ms: seq<Member>) {
    forall i, j :: 0 <= i < j < |ms| ==> Less(ms[i].key, ms[j].key)
  }

  /** Every object inside the value is a map: its keys increase strictly. */
  ghost predicate WellFormed(v: Json) {
    match v
    case Arr(items) => forall i :: 0 <= i < |items| ==> WellFormed(items[i])
    case Obj(ms) => Sorted(ms) && forall i :: 0 <= i < |ms| ==> WellFormed(ms[i].val)
    case _ => true
  }

  /** Every number inside the value has the property. */
  ghost predicate AllNumbers(v: Json, p: Number -> bool) {
    match v
    case Num(x) => p(x)
    case Arr(items) => forall i :: 0 <= i < |items| ==> AllNumbers(items[i], p)
    case Obj(ms) => forall i :: 0 <= i < |ms| ==> AllNumbers(ms[i].val, p)
    case _ => true
  }

  lemma {:induction false} AllNumbersWeaker(v: Json, p: Number -> bool, q: Number -> bool)
    requires AllNumbers(v, p) && forall x :: p(x) ==> q(x)
    ensures AllNumbers(v, q)
    decreases v
  {
    match v
    case Arr(items) =>
      forall i | 0 <= i < |items| ensures AllNumbers(items[i], q) {
        AllNumbersWeaker(items[i], p, q);
      }
    case Obj(ms) =>
      forall i | 0 <= i < |ms| ensures AllNumbers(ms[i].val, q) {
        AllNumbersWeaker(ms[i].val, p, q);
      }
    case _ =>
  }

  /** An integer that a double holds exactly. */
  predicate IsExact(x: Number) {
    x.Int? && -EXACT <= x.n <= EXACT
  }

  ghost predicate IntegersOnly(v: Json) {
    AllNumbers(v, IsExact)
  }

  /** The map a member list stands for. */
  ghost function AsMap(ms: seq<Member>): map<string, Json> {
    if ms == [] then map[] else AsMap(ms[1..])[ms[0].key := ms[0].val]
  }

  /** `std::map::emplace`: a key that is already present keeps its value. */
  function Emplace(ms: seq<Member>, k: string, v: Json): seq<Member> {
    if ms == [] || Less(k, ms[0].key) then [Member(k, v)] + ms
    else if ms[0].key == k then ms
    else [ms[0]] + Emplace(ms[1..], k, v)
  }

  /** Insertion with overwriting, as `set` does it. */
  function Assign(ms: seq<Member>, k: string, v: Json): seq<Member> {
    if ms == [] || Less(k, ms[0].key) then [Member(k, v)] + ms
    else if ms[0].key == k then [Member(k, v)] + ms[1..]
    else [ms[0]] + Assign(ms[1..], k, v)
  }

  lemma {:induction false} SmallerKeyAbsent(ms: seq<Member>, k: string)
    requires Sorted(ms) && (ms != [] ==> Less(k, ms[0].key))
    ensures k !in AsMap(ms)
  {
    if ms != [] {
      LessTotal(k, ms[0].key);
      if |ms| > 1 {
        LessTransitive(k, ms[0].key, ms[1].key);
      }
      SmallerKeyAbsent(ms[1..], k);
    }
  }

  lemma {:induction false} AsMapKeys(ms: seq<Member>, i: nat)
    requires Sorted(ms) && i < |ms|
    ensures ms[i].key in AsMap(ms) && AsMap(ms)[ms[i].key] == ms[i].val
  {
    if i > 0 {
      AsMapKeys(ms[1..], i - 1);
      LessTotal(ms[0].key, ms[i].key);
    }
  }

  lemma {:induction false} EmplaceIsMapInsert(ms: seq<Member>, k: string, v: Json)
    requires Sorted(ms)
    ensures Sorted(Emplace(ms, k, v))
    ensures AsMap(Emplace(ms, k, v)) == if k in AsMap(ms) then AsMap(ms) else AsMap(ms)[k := v]
    ensures Emplace(ms, k, v) != []
    ensures Emplace(ms, k, v)[0].key == k || (ms != [] && Emplace(ms, k, v)[0] == ms[0])
  {
    if ms == [] || Less(k, ms[0].key) {
      SmallerKeyAbsent(ms, k);
      InsertFront(ms, Member(k, v));
    } else if ms[0].key != k {
      EmplaceIsMapInsert(ms[1..], k, v);
      LessTotal(k, ms[0].key);
      InsertFront(Emplace(ms[1..], k, v), ms[0]);
      OtherKey(AsMap(ms[1..]), ms[0].key, ms[0].val, k, v);
    }
  }

  /** Insertions of different keys commute. */
  lemma OtherKey(m: map<string, Json>, k: string, v: Json, l: string, w: Json)
    requires k != l
    ensures m[l := w][k := v] == m[k := v][l := w]
    ensures l in m <==> l in m[k := v]
  {
  }

  lemma {:induction false} AssignIsMapUpdate(ms: seq<Member>, k: string, v: Json)
    requires Sorted(ms)
    ensures Sorted(Assign(ms, k, v))
    ensures AsMap(Assign(ms, k, v)) == AsMap(ms)[k := v]
    ensures Assign(ms, k, v) != []
    ensures Assign(ms, k, v)[0].key == k || (ms != [] && Assign(ms, k, v)[0] == ms[0])
  {
    if ms == [] || Less(k, ms[0].key) {
      InsertFront(ms, Member(k, v));
    } else if ms[0].key == k {
      InsertFront(ms[1..], Member(k, v));
    } else {
      AssignIsMapUpdate(ms[1..], k, v);
      LessTotal(k, ms[0].key);
      InsertFront(Assign(ms[1..], k, v), ms[0]);
      OtherKey(AsMap(ms[1..]), ms[0].key, ms[0].val, k, v);
    }
  }

  lemma InsertFront(ms: seq<Member>, m: Member)
    requires Sorted(ms) && (ms != [] ==> Less(m.key, ms[0].key))
    ensures Sorted([m] + ms) && AsMap([m] + ms) == AsMap(ms)[m.key := m.val]
  {
    assert ([m] + ms)[1..] == ms;
    forall j | 0 < j < |ms| ensures Less(m.key, ms[j].key) {
      LessTransitive(m.key, ms[0].key, ms[j].key);
    }
  }

  /** A sorted member list is determined by its map, so the order of insertions of distinct keys cannot show. */
  lemma {:induction false} SortedListsAreMaps(a: seq<Member>, b: seq<Member>)
    requires Sorted(a) && Sorted(b) && AsMap(a) == AsMap(b)
    ensures a == b
  {
    if a == [] || b == [] {
      if a != [] { AsMapKeys(a, 0); }
      if b != [] { AsMapKeys(b, 0); }
    } else {
      AsMapKeys(a, 0);
      AsMapKeys(b, 0);
      LessTotal(a[0].key, b[0].key);
      if Less(a[0].key, b[0].key) { SmallerKeyAbsent(b, a[0].key); }
      if Less(b[0].key, a[0].key) { SmallerKeyAbsent(a, b[0].key); }
      SmallerThanTail(a);
      SmallerThanTail(b);
      assert AsMap(a[1..]) == AsMap(a) - {a[0].key};
      assert AsMap(b[1..]) == AsMap(b) - {b[0].key};
      SortedListsAreMaps(a[1..], b[1..]);
    }
  }

  lemma SmallerThanTail(ms: seq<Member>)
    requires Sorted(ms) && ms != []
    ensures ms[0].key !in AsMap(ms[1..])
  {
    SmallerKeyAbsent(ms[1..], ms[0].key);
  }

  /** `set`: anything that is not an object is first replaced by an empty one. */
  function Set(v: Json, k: string, w: Json): Json {
    Obj(Assign(if v.Obj? then v.members else [], k, w))
  }

  /** Members read in text order, emplaced one by one. */
  function Collect(ms: seq<Member>, pairs: seq<Member>): seq<Member>
    decreases |pairs|
  {
    if pairs == [] then ms else Collect(Emplace(ms, pairs[0].key, pairs[0].val), pairs[1..])
  }

  /** Reading keeps the first of several members with one key, and keeps the list sorted. */
  lemma {:induction false} CollectKeepsFirst(ms: seq<Member>, pairs: seq<Member>)
    requires Sorted(ms)
    ensures Sorted(Collect(ms, pairs))
    ensures AsMap(Collect(ms, pairs)) == AsMap(pairs) + AsMap(ms)
    decreases |pairs|
  {
    if pairs == [] {
      assert map[] + AsMap(ms) == AsMap(ms);
    } else {
      var p, more := pairs[0], Emplace(ms, pairs[0].key, pairs[0].val);
      EmplaceIsMapInsert(ms, p.key, p.val);
      CollectKeepsFirst(more, pairs[1..]);
      FrontKey(AsMap(pairs[1..]), AsMap(ms), p.key, p.val);
    }
  }

  lemma FrontKey(tail: map<string, Json>, m: map<string, Json>, k: string, v: Json)
    ensures tail[k := v] + m == tail + if k in m then m else m[k := v]
  {
  }

  /** Emplacing members that are already sorted only appends them. */
  lemma {:induction false} CollectSorted(ms: seq<Member>, pairs: seq<Member>)
    requires Sorted(ms + pairs)
    ensures Collect(ms, pairs) == ms + pairs
    decreases |pairs|
  {
    if pairs != [] {
      forall i | 0 <= i < |ms| ensures Less(ms[i].key, pairs[0].key) {
        assert (ms + pairs)[i] == ms[i] && (ms + pairs)[|ms|] == pairs[0];
      }
      EmplaceLargest(ms, pairs[0]);
      assert ms + pairs == (ms + [pairs[0]]) + pairs[1..];
      CollectSorted(ms + [pairs[0]], pairs[1..]);
    }
  }

  lemma {:induction false} EmplaceLargest(ms: seq<Member>, m: Member)
    requires forall i :: 0 <= i < |ms| ==> Less(ms[i].key, m.key)
    ensures Emplace(ms, m.key, m.val) == ms + [m]
  {
    if ms != [] {
      LessTotal(ms[0].key, m.key);
      EmplaceLargest(ms[1..], m);
    }
  }
}
