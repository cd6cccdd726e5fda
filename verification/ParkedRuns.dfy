/** The parked segments as the map the reducer keeps. */
module ParkedRuns {
  import opened Wrappers
  import opened RecursionProof
  import opened Segments

  ghost predicate Owns(segs: seq<Seg>, i: int, k: nat) {
    ParkedAt(segs, i) && segs[i].run.start == k
  }

  /** The map holds exactly the parked segments, each under its start. */
  ghost predicate Stores(runs: map<nat, Run>, segs: seq<Seg>) {
    && (forall i :: ParkedAt(segs, i) ==> segs[i].run.start in runs && runs[segs[i].run.start] == segs[i].run)
    && (forall k :: k in runs ==> exists i :: Owns(segs, i, k))
  }

  /** The nearest entry below a delivered label is its left sibling exactly when it ends there. */
  lemma LeftLookup(runs: map<nat, Run>, segs: seq<Seg>, i: nat, n: nat)
    requires Chain(segs, 0, n) && Stores(runs, segs) && i < |segs| && segs[i].flying
    ensures ParkedAt(segs, i - 1) ==>
              var k0 := segs[i - 1].run.start;
              && k0 in runs && k0 < segs[i].run.start
              && runs[k0] == segs[i - 1].run && segs[i - 1].run.end == segs[i].run.start
              && forall k :: k in runs && k < segs[i].run.start ==> k <= k0
    ensures !ParkedAt(segs, i - 1) ==>
              forall k :: k in runs && k < segs[i].run.start ==> runs[k].end != segs[i].run.start
  {
    if i > 0 {
      ChainOrdered(segs, 0, n, i - 1);
    }
    forall k | k in runs && k < segs[i].run.start
      ensures ParkedAt(segs, i - 1) ==> k <= segs[i - 1].run.start
      ensures !ParkedAt(segs, i - 1) ==> runs[k].end != segs[i].run.start
    {
      var j :| Owns(segs, j, k);
      ChainOrdered(segs, 0, n, j);
      ChainOrdered(segs, 0, n, i);
      if j < i - 1 {
        assert segs[j].run.end <= segs[i - 1].run.start;
      }
    }
  }

  /** The entry stored at a delivered label's end is its right sibling. */
  lemma RightLookup(runs: map<nat, Run>, segs: seq<Seg>, i: nat, n: nat)
    requires Chain(segs, 0, n) && Stores(runs, segs) && i < |segs| && segs[i].flying
    ensures segs[i].run.end in runs <==> ParkedAt(segs, i + 1)
    ensures ParkedAt(segs, i + 1) ==> runs[segs[i].run.end] == segs[i + 1].run
  {
    ChainOrdered(segs, 0, n, i);
    var k := segs[i].run.end;
    if k in runs {
      var j :| Owns(segs, j, k);
      ChainOrdered(segs, 0, n, j);
      assert j > i;
      if j > i + 1 {
        ChainOrdered(segs, 0, n, i + 1);
        assert false;
      }
    }
  }

  /** The keys of the delivered segment's siblings. */
  ghost function SiblingKeys(segs: seq<Seg>, i: nat): set<nat>
    requires i < |segs|
  {
    (if ParkedAt(segs, i - 1) then {segs[i - 1].run.start} else {}) +
    (if ParkedAt(segs, i + 1) then {segs[i].run.end} else {})
  }

  lemma RemovedKeys(runs: map<nat, Run>, left: set<nat>, right: nat)
    ensures runs - left - {right} == runs - (left + if right in runs then {right} else {})
  {
  }

  ghost predicate KeyIn(segs: seq<Seg>, lo: nat, hi: nat, k: nat)
    requires lo < hi <= |segs|
  {
    segs[lo].run.start <= k < segs[hi - 1].run.end
  }

  /** A segment's start lies in a span exactly when the segment does. */
  lemma StartInSpan(segs: seq<Seg>, lo: nat, hi: nat, n: nat, j: nat)
    requires Chain(segs, 0, n) && lo < hi <= |segs| && j < |segs|
    ensures KeyIn(segs, lo, hi, segs[j].run.start) <==> lo <= j < hi
  {
    ChainOrdered(segs, 0, n, lo);
    ChainOrdered(segs, 0, n, hi - 1);
    ChainOrdered(segs, 0, n, j);
  }

  lemma StartsDiffer(segs: seq<Seg>, n: nat, i: nat, j: nat)
    requires Chain(segs, 0, n) && i < |segs| && j < |segs|
    ensures segs[i].run.start == segs[j].run.start <==> i == j
  {
    ChainOrdered(segs, 0, n, i);
    ChainOrdered(segs, 0, n, j);
  }

  /** A parked segment has a sibling key exactly when it is in the merged part. */
  lemma SiblingKeyInPart(segs: seq<Seg>, i: nat, n: nat, j: nat)
    requires Chain(segs, 0, n) && i < |segs| && segs[i].flying && ParkedAt(segs, j)
    ensures segs[j].run.start in SiblingKeys(segs, i) <==> Lo(segs, i) <= j < Hi(segs, i)
  {
    if i > 0 {
      StartsDiffer(segs, n, i - 1, j);
    }
    if i + 1 < |segs| {
      StartsDiffer(segs, n, i + 1, j);
    }
    ChainOrdered(segs, 0, n, i);
  }

  /** The sibling keys are exactly the stored keys inside the merged span. */
  lemma SiblingsFillSpan(runs: map<nat, Run>, segs: seq<Seg>, i: nat, n: nat, k: nat)
    requires Chain(segs, 0, n) && Stores(runs, segs) && i < |segs| && segs[i].flying && k in runs
    ensures k in SiblingKeys(segs, i) <==> KeyIn(segs, Lo(segs, i), Hi(segs, i), k)
  {
    var j :| Owns(segs, j, k);
    SiblingKeyInPart(segs, i, n, j);
    StartInSpan(segs, Lo(segs, i), Hi(segs, i), n, j);
  }

  /** The entries outside the span are kept, and those inside are the parked ones of `mid`. */
  ghost predicate Rewrites(runs: map<nat, Run>, segs: seq<Seg>, lo: nat, hi: nat, mid: seq<Seg>, runs': map<nat, Run>)
    requires lo < hi <= |segs|
  {
    && (forall j :: ParkedAt(mid, j) ==> mid[j].run.start in runs' && runs'[mid[j].run.start] == mid[j].run)
    && (forall k :: k in runs && !KeyIn(segs, lo, hi, k) ==> k in runs' && runs'[k] == runs[k])
    && (forall k :: k in runs' ==> (k in runs && !KeyIn(segs, lo, hi, k)) || exists j :: Owns(mid, j, k))
  }

  lemma SplicedEntry(runs: map<nat, Run>, segs: seq<Seg>, lo: nat, hi: nat, mid: seq<Seg>, runs': map<nat, Run>, n: nat,
                     i: nat)
    requires Chain(segs, 0, n) && Stores(runs, segs) && lo < hi <= |segs| && Rewrites(runs, segs, lo, hi, mid, runs')
    requires ParkedAt(segs[..lo] + mid + segs[hi..], i)
    ensures var s := (segs[..lo] + mid + segs[hi..])[i]; s.run.start in runs' && runs'[s.run.start] == s.run
  {
    if i < lo {
      assert ParkedAt(segs, i);
      StartInSpan(segs, lo, hi, n, i);
    } else if i < lo + |mid| {
      assert ParkedAt(mid, i - lo);
    } else {
      assert ParkedAt(segs, i - lo - |mid| + hi);
      StartInSpan(segs, lo, hi, n, i - lo - |mid| + hi);
    }
  }

  lemma SplicedOwner(runs: map<nat, Run>, segs: seq<Seg>, lo: nat, hi: nat, mid: seq<Seg>, runs': map<nat, Run>, n: nat,
                     k: nat)
    requires Chain(segs, 0, n) && Stores(runs, segs) && lo < hi <= |segs| && Rewrites(runs, segs, lo, hi, mid, runs')
    requires k in runs'
    ensures exists i :: Owns(segs[..lo] + mid + segs[hi..], i, k)
  {
    var next := segs[..lo] + mid + segs[hi..];
    if j :| Owns(mid, j, k) {
      assert Owns(next, j + lo, k);
    } else {
      var j :| Owns(segs, j, k);
      StartInSpan(segs, lo, hi, n, j);
      assert Owns(next, if j < lo then j else j - hi + |mid| + lo, k);
    }
  }

  /** Rewriting only the entries inside a span matches splicing the list there. */
  lemma StoresSplice(runs: map<nat, Run>, segs: seq<Seg>, lo: nat, hi: nat, mid: seq<Seg>, runs': map<nat, Run>, n: nat)
    requires Chain(segs, 0, n) && Stores(runs, segs) && lo < hi <= |segs| && Rewrites(runs, segs, lo, hi, mid, runs')
    ensures Stores(runs', segs[..lo] + mid + segs[hi..])
  {
    var next := segs[..lo] + mid + segs[hi..];
    forall i | ParkedAt(next, i)
      ensures next[i].run.start in runs' && runs'[next[i].run.start] == next[i].run
    {
      SplicedEntry(runs, segs, lo, hi, mid, runs', n, i);
    }
    forall k | k in runs'
      ensures exists i :: Owns(next, i, k)
    {
      SplicedOwner(runs, segs, lo, hi, mid, runs', n, k);
    }
  }

  /** The run a replacement parks, if any: always its last segment. */
  ghost function Rest(mid: seq<Seg>): Option<Run> {
    if mid == [] || mid[|mid| - 1].flying then None else Some(mid[|mid| - 1].run)
  }

  ghost function Put(runs: map<nat, Run>, rest: Option<Run>): map<nat, Run> {
    if rest.None? then runs else runs[rest.value.start := rest.value]
  }

  lemma SettleShape(m: Run, r: Round)
    ensures |m.proofs| > r.batch ==>
              var cut := m.start + r.batch;
              && Settle(m, r)[0] == Seg(Run(m.start, cut, [Compress(m.proofs[..r.batch])]), true)
              && Rest(Settle(m, r)) == Some(Run(cut, m.end, m.proofs[r.batch..]))
    ensures |m.proofs| == r.batch || (|m.proofs| < r.batch && FullLabel(m, r.n)) ==>
              && Settle(m, r)[0] == Seg(Run(m.start, m.end, [Compress(m.proofs)]), true)
              && Rest(Settle(m, r)) == None
    ensures |m.proofs| < r.batch && !FullLabel(m, r.n) ==>
              && Settle(m, r)[0] == Seg(m, false)
              && Rest(Settle(m, r)) == Some(m)
  {
  }

  lemma MiddleParksLast(segs: seq<Seg>, i: nat, r: Round)
    requires Inv(segs, r) && r.Valid()
    requires i < |segs| && segs[i].flying && !FullLabel(segs[i].run, r.n)
    ensures var mid := Middle(segs, i, r); var last := |mid| - 1;
            && mid != []
            && (forall j :: ParkedAt(mid, j) ==> j == last)
            && segs[Lo(segs, i)].run.start <= mid[last].run.start < segs[Hi(segs, i) - 1].run.end
  {
    var mid := Middle(segs, i, r);
    MiddleKeeps(segs, i, r);
    ChainOrdered(mid, segs[Lo(segs, i)].run.start, segs[Hi(segs, i) - 1].run.end, |mid| - 1);
  }

  /** Taking out the siblings and parking the rest turns the stored list into the delivered one. */
  lemma AcceptSplices(runs: map<nat, Run>, segs: seq<Seg>, i: nat, r: Round)
    requires Inv(segs, r) && r.Valid() && Stores(runs, segs)
    requires i < |segs| && segs[i].flying && !FullLabel(segs[i].run, r.n)
    ensures Stores(Put(runs - SiblingKeys(segs, i), Rest(Middle(segs, i, r))), Deliver(segs, i, r))
  {
    var lo, hi, mid := Lo(segs, i), Hi(segs, i), Middle(segs, i, r);
    var taken := SiblingKeys(segs, i);
    MiddleParksLast(segs, i, r);
    forall k | k in runs
      ensures k in taken <==> KeyIn(segs, lo, hi, k)
    {
      SiblingsFillSpan(runs, segs, i, r.n, k);
    }
    RestRewrites(runs, segs, lo, hi, taken, mid);
    StoresSplice(runs, segs, lo, hi, mid, Put(runs - taken, Rest(mid)), r.n);
  }

  lemma RestRewrites(runs: map<nat, Run>, segs: seq<Seg>, lo: nat, hi: nat, taken: set<nat>, mid: seq<Seg>)
    requires lo < hi <= |segs| && mid != [] && forall j :: ParkedAt(mid, j) ==> j == |mid| - 1
    requires KeyIn(segs, lo, hi, mid[|mid| - 1].run.start)
    requires forall k :: k in runs ==> (k in taken <==> KeyIn(segs, lo, hi, k))
    ensures Rewrites(runs, segs, lo, hi, mid, Put(runs - taken, Rest(mid)))
  {
    var last := |mid| - 1;
    if !mid[last].flying {
      assert Owns(mid, last, mid[last].run.start);
    }
  }
}
