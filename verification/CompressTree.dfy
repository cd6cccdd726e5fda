/** The reducer: a map of contiguous runs of proofs, merged and split in place. */
module CompressTree {
  import opened Wrappers
  import opened RecursionProof
  import opened Segments
  import opened ReducerRuns
  import opened ParkedRuns
  import opened InFlight

  /** A batch submitted to the workers, with the label its result will come back under. */
  datatype Task = Task(start: nat, end: nat, proofs: seq<Proof>, isComplete: bool)

  /** What is submitted is the first of the segments that replace a delivered one, if that is in flight. */
  ghost predicate Outcome(mid: seq<Seg>, n: nat, task: Option<Task>) {
    && mid != []
    && (task.Some? <==> mid[0].flying)
    && (task.Some? ==>
          && mid[0].run == Run(task.value.start, task.value.end, [Compress(task.value.proofs)])
          && (task.value.isComplete <==> FullLabel(mid[0].run, n)))
  }

  /** Splitting off the excess and then submitting or parking is what settling a run means. */
  lemma Settled(m: Run, r: Round, before: map<nat, Run>, parked: map<nat, Run>, p: Run, after: map<nat, Run>,
                task: Option<Task>)
    requires r.Valid()
    requires |m.proofs| <= r.batch ==> p == m && parked == before
    requires |m.proofs| > r.batch ==>
               var cut := m.start + r.batch;
               && p == Run(m.start, cut, m.proofs[..r.batch])
               && parked == before[cut := Run(cut, m.end, m.proofs[r.batch..])]
    requires task.Some? <==> |p.proofs| == r.batch || FullLabel(p, r.n)
    requires task.Some? ==> after == parked && task.value == Task(p.start, p.end, p.proofs, FullLabel(p, r.n))
    requires task.None? ==> after == parked[p.start := p]
    ensures after == Put(before, Rest(Settle(m, r))) && Outcome(Settle(m, r), r.n, task)
  {
    SettleShape(m, r);
  }

  class RangeProofs {
    var start: nat
    var end: nat
    var proofs: seq<Proof>

    ghost function View(): Run
      reads this
    {
      Run(start, end, proofs)
    }

    constructor (start: nat, end: nat, proofs: seq<Proof>)
      ensures View() == Run(start, end, proofs)
    {
      this.start, this.end, this.proofs := start, end, proofs;
    }

    /** Puts a proof that ends where this run starts in front. */
    method PushRight(m: Message)
      requires m.end == start
      modifies this
      ensures View() == Run(m.start, old(end), [m.proof] + old(proofs))
    {
      start := m.start;
      proofs := [m.proof] + proofs;
    }

    /** Puts a proof that starts where this run ends at the back. */
    method PushLeft(m: Message)
      requires m.start == end
      modifies this
      ensures View() == Run(old(start), m.end, old(proofs) + [m.proof])
    {
      end := m.end;
      proofs := proofs + [m.proof];
    }

    /** Joins this run, a proof that fills the gap, and the run on the other side of it. */
    method PushBoth(middle: Message, right: RangeProofs)
      requires right != this
      requires middle.start == end && right.start == middle.end
      modifies this
      ensures View() == Run(old(start), right.end, old(proofs) + [middle.proof] + right.proofs)
    {
      proofs := proofs + [middle.proof];
      var i := 0;
      while i < |right.proofs|
        invariant i <= |right.proofs|
        invariant start == old(start) && end == old(end)
        invariant right.proofs == old(right.proofs) && right.start == old(right.start) && right.end == old(right.end)
        invariant proofs == old(proofs) + [middle.proof] + right.proofs[..i]
      {
        proofs := proofs + [right.proofs[i]];
        i := i + 1;
      }
      end := right.end;
    }

    /** Keeps the first `at` proofs and hands back the rest, cutting the label by proof count. */
    method SplitOff(at: nat) returns (rest: RangeProofs?)
      modifies this
      ensures at >= |old(proofs)| ==> rest == null && View() == old(View())
      ensures at < |old(proofs)| ==>
                var cut := if old(end) <= old(start) + at then old(end) else old(start) + at;
                && rest != null && fresh(rest)
                && View() == Run(old(start), cut, old(proofs)[..at])
                && rest.View() == Run(cut, old(end), old(proofs)[at..])
    {
      if at >= |proofs| {
        return null;
      }
      var endPoint := if end <= start + at then end else start + at;
      rest := new RangeProofs(endPoint, end, proofs[at..]);
      proofs := proofs[..at];
      end := endPoint;
    }

    /** The batch to submit for this run, flagged complete when the label is the full range. */
    method IntoWitness(n: nat) returns (t: Task)
      ensures t == Task(start, end, proofs, FullLabel(View(), n))
    {
      t := Task(start, end, proofs, start == 0 && end == n);
    }
  }

  datatype Sibling = NoSibling | Left(left: RangeProofs) | Right(right: RangeProofs)
    | Both(left: RangeProofs, right: RangeProofs)

  class CompressTree {
    var runs: map<nat, RangeProofs>
    const batchSize: nat

    ghost var contents: map<nat, Run>  // the stored runs as values
    ghost var repr: set<RangeProofs>  // every run this tree has held

    /** Entries are stored under their start and share no object. */
    ghost predicate Valid()
      reads this, runs.Values
    {
      && contents.Keys == runs.Keys && runs.Values <= repr
      && (forall k :: k in runs ==> runs[k].View() == contents[k] && contents[k].start == k)
      && (forall j, k :: j in runs && k in runs && runs[j] == runs[k] ==> j == k)
    }

    constructor (batchSize: nat)
      ensures Valid() && runs == map[] && contents == map[] && repr == {} && this.batchSize == batchSize
    {
      this.batchSize := batchSize;
      runs, contents, repr := map[], map[], {};
    }

    method Insert(p: RangeProofs)
      requires Valid() && p !in runs.Values
      modifies this
      ensures Valid()
      ensures contents == old(contents)[p.start := p.View()] && repr == old(repr) + {p}
      ensures runs.Values <= old(runs.Values) + {p}
    {
      assert forall k :: k in runs ==> runs[k] in runs.Values;
      runs, contents := runs[p.start := p], contents[p.start := p.View()];
      repr := repr + {p};
    }

    /** Takes the entry stored at `k` out of the map. */
    method Remove(k: nat) returns (p: RangeProofs)
      requires Valid() && k in runs
      modifies this
      ensures Valid() && p == old(runs)[k] && p !in runs.Values
      ensures runs == old(runs) - {k} && repr == old(repr)
      ensures contents == old(contents) - {k}
    {
      p := runs[k];
      runs, contents := runs - {k}, contents - {k};
    }

    /** The nearest entry strictly below `bound`. */
    method NearestBelow(bound: nat) returns (k: Option<nat>)
      ensures k.None? ==> forall j :: j in runs ==> bound <= j
      ensures k.Some? ==> k.value in runs && k.value < bound
      ensures k.Some? ==> forall j :: j in runs && j < bound ==> j <= k.value
    {
      k := None;
      var keys := runs.Keys;
      while keys != {}
        invariant keys <= runs.Keys
        invariant k.None? ==> forall j :: j in runs && j !in keys ==> bound <= j
        invariant k.Some? ==> k.value in runs && k.value < bound
        invariant k.Some? ==> forall j :: j in runs && j !in keys && j < bound ==> j <= k.value
        decreases keys
      {
        var j :| j in keys;
        keys := keys - {j};
        if j < bound && (k.None? || k.value < j) {
          k := Some(j);
        }
      }
    }

    /** The entry that ends where a delivered label starts. */
    method FindLeft(m: Message, ghost segs: seq<Seg>, ghost i: nat, ghost n: nat) returns (k: Option<nat>)
      requires Valid() && Stores(contents, segs) && Chain(segs, 0, n)
      requires i < |segs| && segs[i] == Seg(Run(m.start, m.end, [m.proof]), true)
      ensures k.Some? <==> ParkedAt(segs, i - 1)
      ensures k.Some? ==> k.value in runs && k.value == segs[i - 1].run.start && runs[k.value].View() == segs[i - 1].run
      ensures k.Some? ==> k.value != m.end
    {
      LeftLookup(contents, segs, i, n);
      ChainOrdered(segs, 0, n, i);
      k := NearestBelow(m.start);
      if k.Some? {
        if runs[k.value].end != m.start {
          k := None;
        }
      }
    }

    /** Takes the entries under `left`, if any, and `right`, if stored, out of the map. */
    method RemoveBoth(left: Option<nat>, right: nat) returns (s: Sibling)
      requires Valid() && (left.Some? ==> left.value in runs && left.value != right)
      modifies this
      ensures Valid() && repr == old(repr)
      ensures contents == old(contents) - (if left.Some? then {left.value} else {}) - {right}
      ensures s.NoSibling? <==> left.None? && right !in old(runs)
      ensures s.Left? <==> left.Some? && right !in old(runs)
      ensures s.Right? <==> left.None? && right in old(runs)
      ensures s.Left? || s.Both? ==> s.left == old(runs)[left.value] && s.left in repr && s.left !in runs.Values
      ensures s.Right? || s.Both? ==> s.right == old(runs)[right] && s.right in repr && s.right !in runs.Values
      ensures s.Both? ==> s.left != s.right
    {
      if left.Some? {
        var l := Remove(left.value);
        if right in runs {
          var r := Remove(right);
          return Both(l, r);
        }
        return Left(l);
      }
      if right in runs {
        var r := Remove(right);
        return Right(r);
      }
      return NoSibling;
    }

    /** The neighbours of a delivered proof, held outside the map. */
    ghost predicate Took(s: Sibling, segs: seq<Seg>, i: nat)
      requires i < |segs|
      reads this, if s.Left? || s.Both? then {s.left} else {}, if s.Right? || s.Both? then {s.right} else {}
    {
      && (s.Left? || s.Both? <==> ParkedAt(segs, i - 1))
      && (s.Right? || s.Both? <==> ParkedAt(segs, i + 1))
      && (s.Left? || s.Both? ==> s.left in repr && s.left !in runs.Values && s.left.View() == segs[i - 1].run)
      && (s.Right? || s.Both? ==> s.right in repr && s.right !in runs.Values && s.right.View() == segs[i + 1].run)
      && (s.Both? ==> s.left != s.right)
    }

    /** Takes the neighbours of a delivered proof out of the map. */
    method TakeSibling(m: Message, ghost segs: seq<Seg>, ghost i: nat, ghost n: nat) returns (s: Sibling)
      requires Valid() && Stores(contents, segs) && Chain(segs, 0, n)
      requires i < |segs| && segs[i] == Seg(Run(m.start, m.end, [m.proof]), true)
      modifies this
      ensures Valid() && repr == old(repr)
      ensures contents == old(contents) - SiblingKeys(segs, i)
      ensures Took(s, segs, i)
    {
      RightLookup(contents, segs, i, n);
      var previous := FindLeft(m, segs, i, n);
      RemovedKeys(contents, if previous.Some? then {previous.value} else {}, m.end);
      s := RemoveBoth(previous, m.end);
    }

    /** Joins a delivered proof with the neighbours taken out for it. */
    method Merge(m: Message, s: Sibling, ghost segs: seq<Seg>, ghost i: nat, ghost r: Round) returns (p: RangeProofs)
      requires Inv(segs, r) && i < |segs| && segs[i] == Seg(Run(m.start, m.end, [m.proof]), true)
      requires Valid() && Took(s, segs, i) && !s.NoSibling?
      modifies if s.Right? then {s.right} else {s.left}
      ensures p == if s.Right? then s.right else s.left
      ensures Valid() && p.View() == Merged(segs, i)
    {
      AllProofsOfPart(segs, Lo(segs, i));
      ChainOrdered(segs, 0, r.n, i);
      if ParkedAt(segs, i - 1) {
        ChainOrdered(segs, 0, r.n, i - 1);
      }
      match s {
        case Left(left) =>
          left.PushLeft(m);
          p := left;
        case Right(right) =>
          right.PushRight(m);
          p := right;
        case Both(left, right) =>
          left.PushBoth(m, right);
          p := left;
      }
    }

    /** Parks what exceeds a batch and keeps the rest in the run. */
    method ParkExcess(p: RangeProofs)
      requires Valid() && p !in runs.Values
      requires p.start + |p.proofs| <= p.end
      modifies this, p
      ensures Valid() && p !in runs.Values && old(repr) <= repr && fresh(repr - old(repr))
      ensures |old(p.proofs)| <= batchSize ==> p.View() == old(p.View()) && contents == old(contents)
      ensures |old(p.proofs)| > batchSize ==>
                var cut := old(p.start) + batchSize;
                && p.View() == Run(old(p.start), cut, old(p.proofs)[..batchSize])
                && contents == old(contents)[cut := Run(cut, old(p.end), old(p.proofs)[batchSize..])]
    {
      var split := p.SplitOff(batchSize);
      if split != null {
        Insert(split);
      }
    }

    /** Submits a full or final batch, and parks any other. */
    method SubmitOrPark(p: RangeProofs, n: nat) returns (task: Option<Task>)
      requires Valid() && p !in runs.Values
      modifies this
      ensures Valid() && old(repr) <= repr <= old(repr) + {p}
      ensures task.Some? <==> |p.proofs| == batchSize || FullLabel(p.View(), n)
      ensures task.Some? ==>
              contents == old(contents) && task.value == Task(p.start, p.end, p.proofs, FullLabel(p.View(), n))
      ensures task.None? ==> contents == old(contents)[p.start := p.View()]
    {
      task := None;
      if |p.proofs| == batchSize || (p.start == 0 && p.end == n) {
        var t := p.IntoWitness(n);
        task := Some(t);
      } else {
        Insert(p);
      }
    }

    /** Splits off what exceeds a batch and parks it, then submits or parks the batch itself. */
    method SettleRun(p: RangeProofs, n: nat, ghost r: Round) returns (task: Option<Task>)
      requires Valid() && p in repr && p !in runs.Values && r.Valid() && r.batch == batchSize && r.n == n
      requires 2 <= |p.proofs| < 2 * batchSize && p.start + |p.proofs| <= p.end
      modifies this, p
      ensures Valid() && contents == Put(old(contents), Rest(Settle(old(p.View()), r)))
      ensures old(repr) <= repr && fresh(repr - old(repr))
      ensures Outcome(Settle(old(p.View()), r), n, task)
    {
      ghost var m, before := p.View(), contents;
      ParkExcess(p);
      ghost var parked := contents;
      // The panic on a batch larger than the batch size is unreachable.
      assert |p.proofs| <= batchSize;
      task := SubmitOrPark(p, n);
      Settled(m, r, before, parked, p.View(), contents, task);
    }

    /** Parks a delivered proof alone, or merges it with its neighbours and settles the result. */
    method Resolve(m: Message, s: Sibling, n: nat, ghost segs: seq<Seg>, ghost i: nat, ghost r: Round)
      returns (task: Option<Task>)
      requires Inv(segs, r) && r.Valid() && r.batch == batchSize && r.n == n
      requires i < |segs| && segs[i] == Seg(Run(m.start, m.end, [m.proof]), true)
      requires Valid() && Took(s, segs, i)
      modifies this, repr
      ensures Valid() && contents == Put(old(contents), Rest(Middle(segs, i, r)))
      ensures old(repr) <= repr && fresh(repr - old(repr))
      ensures Outcome(Middle(segs, i, r), n, task)
    {
      if s.NoSibling? {
        var q := new RangeProofs(m.start, m.end, [m.proof]);
        Insert(q);
        task := None;
      } else {
        var p := Merge(m, s, segs, i, r);
        MergedFits(segs, i, r);
        task := SettleRun(p, n, r);
      }
    }

    /** Handles one delivered proof that does not finish the round. */
    method Accept(m: Message, n: nat, ghost segs: seq<Seg>, ghost i: nat, ghost r: Round) returns (task: Option<Task>)
      requires Valid() && Stores(contents, segs) && Inv(segs, r) && r.Valid() && r.batch == batchSize && r.n == n
      requires i < |segs| && segs[i] == Seg(Run(m.start, m.end, [m.proof]), true) && !FullLabel(segs[i].run, n)
      modifies this, repr
      ensures Valid() && Stores(contents, Deliver(segs, i, r))
      ensures old(repr) <= repr && fresh(repr - old(repr))
      ensures Outcome(Middle(segs, i, r), n, task)
    {
      AcceptSplices(contents, segs, i, r);
      var s := TakeSibling(m, segs, i, n);
      task := Resolve(m, s, n, segs, i, r);
    }

    /** Handles one delivered proof and puts the result of what it submits in flight. */
    method Receive(m: Message, n: nat, inFlight: multiset<Message>, ghost segs: seq<Seg>, ghost r: Round)
      returns (remaining: multiset<Message>, ghost next: seq<Seg>, ghost i: nat)
      requires Valid() && Reflects(contents, inFlight, segs, r) && r.batch == batchSize && r.n == n
      requires m in inFlight && !(m.start == 0 && m.end == n)
      modifies this, repr
      ensures Valid() && Reflects(contents, remaining, next, r)
      ensures i < |segs| && segs[i].flying && !FullLabel(segs[i].run, r.n) && next == Deliver(segs, i, r)
      ensures (|AllProofs(segs)|, FlyingCount(segs) decreases to |AllProofs(next)|, FlyingCount(next))
      ensures old(repr) <= repr && fresh(repr - old(repr))
    {
      i := Sender(segs, m);
      next := Deliver(segs, i, r);
      DeliverKeepsInv(segs, i, r);
      DeliverCounts(segs, i, r);
      FlyingAfter(segs, i, r);
      remaining := inFlight - multiset{m};
      var task := Accept(m, n, segs, i, r);
      if task.Some? {
        remaining := remaining + multiset{Message(task.value.start, task.value.end, Compress(task.value.proofs))};
      }
    }

    /** Receives proofs until the finished one arrives. Any in-flight proof may come next. */
    method ReduceProofs(n: nat, ghost ps: seq<Proof>, inFlight: multiset<Message>, ghost r: Round)
      returns (proof: Proof, remaining: multiset<Message>, ghost states: seq<seq<Seg>>, ghost picks: seq<nat>)
      requires Valid() && contents == map[]
      requires n == |ps| && r.Valid() && r.batch == batchSize && r.n == n && r.shards == Frontiers(ps)
      requires forall p <- ps :: AritiesWithin(p, r.arity)
      requires inFlight == multiset(Inputs(ps))
      modifies this, repr
      ensures Frontier(proof) == Frontiers(ps) && AritiesWithin(proof, r.arity)
      ensures IsRunFrom(ps, states, picks, r) && EndsIn(states, n, proof)
      ensures n == 1 ==> proof == ps[0]
      ensures Valid() && contents == map[] && remaining == multiset{}
      ensures old(repr) <= repr && fresh(repr - old(repr))
    {
      ghost var segs := Initial(ps);
      states, picks := [segs], [];
      StartReflects(ps, r);
      remaining := inFlight;
      while true
        invariant Valid() && Reflects(contents, remaining, segs, r)
        invariant RunsTo(ps, states, picks, r, segs)
        invariant old(repr) <= repr && fresh(repr - old(repr))
        decreases |AllProofs(segs)|, FlyingCount(segs)
      {
        SomeMessage(contents, remaining, segs, r);
        var m :| m in remaining;
        if m.start == 0 && m.end == n {
          Concludes(contents, remaining, segs, r, m, ps, states, picks);
          return m.proof, remaining - multiset{m}, states, picks;
        }
        ghost var i;
        remaining, segs, i := Receive(m, n, remaining, segs, r);
        RunSnoc(ps, states, picks, r, i);
        states, picks := states + [segs], picks + [i];
      }
    }
  }
}
