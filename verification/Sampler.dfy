/**
 The corpus sampler: a random file that is not on the avoid list, or any file when all are on it.
 The random generator is an arbitrary stream of natural numbers.
 */
module Sampler {
  import opened Wrappers

  datatype File = File(path: string, hash: string, source: string)

  /** Positions of the files whose hash is on the list, or is not, in order. */
  ghost function Positions(files: seq<File>, avoid: seq<string>, avoided: bool): seq<nat> {
    if files == [] then []
    else
      var n := |files| - 1;
      Positions(files[..n], avoid, avoided) + if (files[n].hash in avoid) == avoided then [n] else []
  }

  ghost function Candidates(files: seq<File>, avoid: seq<string>): seq<nat> {
    if Positions(files, avoid, false) == [] then Positions(files, avoid, true) else Positions(files, avoid, false)
  }

  lemma {:induction false} PositionsAre(files: seq<File>, avoid: seq<string>, avoided: bool)
    ensures forall k :: k in Positions(files, avoid, avoided)
                        <==> 0 <= k < |files| && (files[k].hash in avoid) == avoided
  {
    if files != [] {
      var n := |files| - 1;
      PositionsAre(files[..n], avoid, avoided);
      assert forall k :: 0 <= k < n ==> files[..n][k] == files[k];
    }
  }

  /** A nonempty corpus has candidates; they are files off the list as long as there is one. */
  lemma CandidatesAre(files: seq<File>, avoid: seq<string>)
    requires files != []
    ensures var c := Candidates(files, avoid);
            && c != [] && (forall k :: k in c ==> k < |files|)
            && ((exists f :: f in files && f.hash !in avoid) ==> forall k :: k in c ==> files[k].hash !in avoid)
  {
    PositionsAre(files, avoid, false);
    PositionsAre(files, avoid, true);
    var p := Positions(files, avoid, false);
    if p == [] {
      assert files[0].hash in avoid;
      assert 0 in Positions(files, avoid, true);
      forall f | f in files ensures f.hash in avoid {
        var k :| 0 <= k < |files| && files[k] == f;
        assert k !in p;
      }
    }
  }

  ghost function Pick(files: seq<File>, avoid: seq<string>, random: nat): File
    requires files != []
  {
    CandidatesAre(files, avoid);
    var c := Candidates(files, avoid);
    var k := c[random % |c|];
    assert k in c;
    files[k]
  }

  /** The file drawn is one of the corpus, and off the list as long as any file is. */
  lemma PickIs(files: seq<File>, avoid: seq<string>, random: nat)
    requires files != []
    ensures Pick(files, avoid, random) in files
    ensures (exists g :: g in files && g.hash !in avoid) ==> Pick(files, avoid, random).hash !in avoid
  {
    CandidatesAre(files, avoid);
    var c := Candidates(files, avoid);
    assert c[random % |c|] in c;
  }

  /** The file may be drawn: it is off the list, or all are on it. */
  ghost predicate Eligible(files: seq<File>, avoid: seq<string>, p: nat) {
    p < |files| && (files[p].hash !in avoid || forall f :: f in files ==> f.hash in avoid)
  }

  /** The eligible positions below `n`. */
  ghost function EligibleBelow(files: seq<File>, avoid: seq<string>, n: nat): set<nat> {
    set p: nat | 0 <= p < n && Eligible(files, avoid, p)
  }

  ghost function OnOrOff(files: seq<File>, avoid: seq<string>, avoided: bool): set<nat> {
    set p: nat | 0 <= p < |files| && (files[p].hash in avoid) == avoided
  }

  lemma {:induction false} PositionsCount(files: seq<File>, avoid: seq<string>, avoided: bool)
    ensures |Positions(files, avoid, avoided)| == |OnOrOff(files, avoid, avoided)|
  {
    if files == [] {
      assert OnOrOff(files, avoid, avoided) == {};
    } else {
      var n := |files| - 1;
      PositionsCount(files[..n], avoid, avoided);
      OnOrOffNext(files, avoid, avoided);
    }
  }

  lemma OnOrOffNext(files: seq<File>, avoid: seq<string>, avoided: bool)
    requires files != []
    ensures var n := |files| - 1;
            var front := OnOrOff(files[..n], avoid, avoided);
            OnOrOff(files, avoid, avoided) == if (files[n].hash in avoid) == avoided then front + {n} else front
  {
  }

  lemma {:induction false} PositionAt(files: seq<File>, avoid: seq<string>, avoided: bool, p: nat)
    requires p < |files| && (files[p].hash in avoid) == avoided
    ensures var k := |Positions(files[..p], avoid, avoided)|;
            k < |Positions(files, avoid, avoided)| && Positions(files, avoid, avoided)[k] == p
  {
    var n := |files| - 1;
    if p < n {
      assert files[..n][..p] == files[..p] && files[..n][p] == files[p];
      PositionAt(files[..n], avoid, avoided, p);
    }
  }

  /**
   The random number chooses fairly among the eligible files: a file with `k` eligible files before it is drawn for
   every number that leaves the remainder `k` when divided by the number of eligible files.
   */
  lemma RandomChooses(files: seq<File>, avoid: seq<string>, p: nat, random: nat)
    requires Eligible(files, avoid, p)
    ensures EligibleBelow(files, avoid, |files|) != {}
    ensures random % |EligibleBelow(files, avoid, |files|)| == |EligibleBelow(files, avoid, p)|
            ==> Pick(files, avoid, random) == files[p]
  {
    var avoided := files[p].hash in avoid;
    CandidatesEligible(files, avoid, p);
    assert p in EligibleBelow(files, avoid, |files|);
    EligibleAre(files, avoid, p, |files|);
    EligibleAre(files, avoid, p, p);
    PositionsCount(files, avoid, avoided);
    PositionsCount(files[..p], avoid, avoided);
    assert files[..|files|] == files;
    PositionAt(files, avoid, avoided, p);
  }

  lemma EligibleAre(files: seq<File>, avoid: seq<string>, p: nat, n: nat)
    requires Eligible(files, avoid, p) && n <= |files|
    ensures EligibleBelow(files, avoid, n) == OnOrOff(files[..n], avoid, files[p].hash in avoid)
  {
    forall q: nat | q < n
      ensures Eligible(files, avoid, q) <==> (files[..n][q].hash in avoid) == (files[p].hash in avoid)
    {
      assert files[q] in files && files[p] in files;
    }
  }

  lemma {:induction false} NoneOff(files: seq<File>, avoid: seq<string>)
    requires forall f :: f in files ==> f.hash in avoid
    ensures Positions(files, avoid, false) == []
  {
    if files != [] {
      NoneOff(files[..|files| - 1], avoid);
    }
  }

  lemma CandidatesEligible(files: seq<File>, avoid: seq<string>, p: nat)
    requires Eligible(files, avoid, p)
    ensures Candidates(files, avoid) == Positions(files, avoid, files[p].hash in avoid)
  {
    PositionsAre(files, avoid, false);
    if files[p].hash in avoid {
      NoneOff(files, avoid);
    } else {
      assert p in Positions(files, avoid, false);
    }
  }

  /** Every eligible file is drawn for some random number. */
  lemma EveryFileCanBeDrawn(files: seq<File>, avoid: seq<string>, p: nat) returns (random: nat)
    requires Eligible(files, avoid, p)
    ensures Pick(files, avoid, random) == files[p]
  {
    random := |EligibleBelow(files, avoid, p)|;
    OneMoreEligible(files, avoid, p);
    RandomChooses(files, avoid, p, random);
    SmallRemainder(random, |EligibleBelow(files, avoid, |files|)|);
  }

  lemma OneMoreEligible(files: seq<File>, avoid: seq<string>, p: nat)
    requires Eligible(files, avoid, p)
    ensures |EligibleBelow(files, avoid, p)| < |EligibleBelow(files, avoid, |files|)|
  {
    var below, all := EligibleBelow(files, avoid, p), EligibleBelow(files, avoid, |files|);
    assert p in all && p !in below;
    SubsetSize(below + {p}, all);
  }

  lemma SmallRemainder(k: nat, n: nat)
    requires k < n
    ensures k % n == k
  {
  }

  class CorpusSampler {
    const files: seq<File>
    const rng: nat -> nat
    var drawn: nat  // how many random numbers have been used

    constructor (files: seq<File>, rng: nat -> nat)
      ensures this.files == files && this.rng == rng && drawn == 0
    {
      this.files, this.rng, drawn := files, rng, 0;
    }

    method Sample(avoid: seq<string>) returns (r: Option<File>)
      modifies this`drawn
      ensures files == [] ==> r == None && drawn == old(drawn)
      ensures files != [] ==> r == Some(Pick(files, avoid, rng(old(drawn)))) && drawn == old(drawn) + 1
    {
      if files == [] {
        return None;
      }
      var prefer, fallback := Partition(avoid);
      CandidatesAre(files, avoid);
      var pool := if prefer == [] then fallback else prefer;
      assert pool == Candidates(files, avoid);
      var idx := pool[rng(drawn) % |pool|];
      assert idx in pool;
      drawn := drawn + 1;
      return Some(files[idx]);
    }

    method Partition(avoid: seq<string>) returns (prefer: seq<nat>, fallback: seq<nat>)
      ensures prefer == Positions(files, avoid, false) && fallback == Positions(files, avoid, true)
    {
      prefer, fallback := [], [];
      for i := 0 to |files|
        invariant prefer == Positions(files[..i], avoid, false)
        invariant fallback == Positions(files[..i], avoid, true)
      {
        PositionsNext(files, i, avoid, false);
        PositionsNext(files, i, avoid, true);
        var found := Contains(avoid, files[i].hash);
        if found {
          fallback := fallback + [i];
        } else {
          prefer := prefer + [i];
        }
      }
      assert files[..|files|] == files;
    }
  }

  lemma PositionsNext(files: seq<File>, i: nat, avoid: seq<string>, avoided: bool)
    requires i < |files|
    ensures Positions(files[..i + 1], avoid, avoided)
         == if (files[i].hash in avoid) == avoided then Positions(files[..i], avoid, avoided) + [i]
            else Positions(files[..i], avoid, avoided)
  {
    assert files[..i + 1][..i] == files[..i];
  }

  method Contains(hashes: seq<string>, h: string) returns (found: bool)
    ensures found == (h in hashes)
  {
    found := false;
    for i := 0 to |hashes|
      invariant h !in hashes[..i]
    {
      if hashes[i] == h {
        return true;
      }
    }
  }

  // Drawing again and again, each time avoiding what has been drawn

  /** `count` files drawn by the accumulate-and-avoid loop, from position `at` of the random stream. */
  ghost function Draws(files: seq<File>, rng: nat -> nat, at: nat, count: nat): (ds: seq<File>)
    requires files != []
    ensures |ds| == count
  {
    if count == 0 then []
    else
      var ds := Draws(files, rng, at, count - 1);
      ds + [Pick(files, HashesOf(ds), rng(at + count - 1))]
  }

  ghost function HashesOf(files: seq<File>): seq<string> {
    seq(|files|, i requires 0 <= i < |files| => files[i].hash)
  }

  ghost function ToSet<T>(s: seq<T>): set<T> {
    set x | x in s
  }

  /** The first `d` entries are pairwise different. */
  ghost predicate DistinctUpTo<T>(s: seq<T>, d: nat) {
    forall i, j :: 0 <= i < j < |s| && j < d ==> s[i] != s[j]
  }

  lemma {:induction false} SetOfSeq<T>(s: seq<T>)
    ensures |ToSet(s)| <= |s|
    ensures DistinctUpTo(s, |s|) ==> |ToSet(s)| == |s|
  {
    if s != [] {
      var n := |s| - 1;
      SetOfSeq(s[..n]);
      assert ToSet(s) == ToSet(s[..n]) + {s[n]};
      if DistinctUpTo(s, |s|) {
        assert forall i :: 0 <= i < n ==> s[..n][i] == s[i];
        assert s[n] !in ToSet(s[..n]);
      }
    }
  }

  lemma {:induction false} SubsetSize<T>(a: set<T>, b: set<T>)
    requires a <= b
    ensures |a| <= |b| && (|a| == |b| ==> a == b)
  {
    if a != {} {
      var x :| x in a;
      SubsetSize(a - {x}, b - {x});
      assert a == (a - {x}) + {x} && b == (b - {x}) + {x};
    }
  }

  ghost function DistinctHashes(files: seq<File>): nat {
    |ToSet(HashesOf(files))|
  }

  /** Fewer avoided hashes than hashes: some file is still off the list. */
  lemma SomeFileLeft(files: seq<File>, avoid: seq<string>)
    requires |avoid| < DistinctHashes(files)
    ensures exists f :: f in files && f.hash !in avoid
  {
    var all := ToSet(HashesOf(files));
    SetOfSeq(avoid);
    if all <= ToSet(avoid) {
      SubsetSize(all, ToSet(avoid));
    }
    var h :| h in all && h !in ToSet(avoid);
    var k :| 0 <= k < |files| && HashesOf(files)[k] == h;
    assert files[k] in files && files[k].hash !in avoid;
  }

  lemma PickStaysDistinct(files: seq<File>, avoid: seq<string>, random: nat)
    requires files != [] && DistinctUpTo(avoid, DistinctHashes(files))
    ensures DistinctUpTo(avoid + [Pick(files, avoid, random).hash], DistinctHashes(files))
  {
    PickIs(files, avoid, random);
    if |avoid| < DistinctHashes(files) {
      SomeFileLeft(files, avoid);
    }
  }

  /** Under every random stream all draws are corpus files. */
  lemma {:induction false} DrawsAreFiles(files: seq<File>, rng: nat -> nat, at: nat, count: nat)
    requires files != []
    ensures forall f :: f in Draws(files, rng, at, count) ==> f in files
  {
    if count > 0 {
      DrawsAreFiles(files, rng, at, count - 1);
      PickIs(files, HashesOf(Draws(files, rng, at, count - 1)), rng(at + count - 1));
    }
  }

  /** As many of the first draws have different hashes as there are different hashes at all. */
  lemma {:induction false} FirstDrawsAreDistinct(files: seq<File>, rng: nat -> nat, at: nat, count: nat)
    requires files != []
    ensures DistinctUpTo(HashesOf(Draws(files, rng, at, count)), DistinctHashes(files))
  {
    if count > 0 {
      var ds := Draws(files, rng, at, count - 1);
      FirstDrawsAreDistinct(files, rng, at, count - 1);
      NextDrawIsDistinct(files, ds, rng(at + count - 1));
      DrawsNext(files, rng, at, count - 1);
    }
  }

  lemma NextDrawIsDistinct(files: seq<File>, ds: seq<File>, random: nat)
    requires files != [] && DistinctUpTo(HashesOf(ds), DistinctHashes(files))
    ensures DistinctUpTo(HashesOf(ds + [Pick(files, HashesOf(ds), random)]), DistinctHashes(files))
  {
    PickStaysDistinct(files, HashesOf(ds), random);
    HashesOfSnoc(ds, Pick(files, HashesOf(ds), random));
  }

  lemma DrawsNext(files: seq<File>, rng: nat -> nat, at: nat, n: nat)
    requires files != []
    ensures var ds := Draws(files, rng, at, n);
            Draws(files, rng, at, n + 1) == ds + [Pick(files, HashesOf(ds), rng(at + n))]
  {
  }

  lemma HashesOfSnoc(ds: seq<File>, f: File)
    ensures HashesOf(ds + [f]) == HashesOf(ds) + [f.hash]
  {
  }

  /** Sampling without replacement: the first draws hit every hash exactly once. */
  lemma FirstDrawsHitAll(files: seq<File>, rng: nat -> nat, at: nat, count: nat)
    requires files != [] && count >= DistinctHashes(files)
    ensures var ds := Draws(files, rng, at, count)[..DistinctHashes(files)];
            DistinctUpTo(HashesOf(ds), |ds|) && ToSet(HashesOf(ds)) == ToSet(HashesOf(files))
  {
    DrawsAreFiles(files, rng, at, count);
    FirstDrawsAreDistinct(files, rng, at, count);
    var ds, d := Draws(files, rng, at, count), DistinctHashes(files);
    assert HashesOf(ds[..d]) == HashesOf(ds)[..d];
    FirstDrawsCover(files, ds[..d]);
  }

  lemma FirstDrawsCover(files: seq<File>, ds: seq<File>)
    requires (forall f :: f in ds ==> f in files) && |ds| == |ToSet(HashesOf(files))|
    requires DistinctUpTo(HashesOf(ds), |ds|)
    ensures ToSet(HashesOf(ds)) == ToSet(HashesOf(files))
  {
    var hs := HashesOf(ds);
    SetOfSeq(hs);
    forall h | h in ToSet(hs) ensures h in ToSet(HashesOf(files)) {
      var i :| 0 <= i < |ds| && hs[i] == h;
      assert ds[i] in files;
      var k :| 0 <= k < |files| && files[k] == ds[i];
      assert HashesOf(files)[k] == h;
    }
    SubsetSize(ToSet(hs), ToSet(HashesOf(files)));
  }
}
