/** The in-flight segments as the multiset of messages on their way to the reducer. */
module InFlight {
  import opened RecursionProof
  import opened Segments
  import opened ReducerRuns
  import opened ParkedRuns

  /** The message a segment has on its way, if it is in flight. */
  ghost function Sent(s: Seg): seq<Message> {
    if s.flying && |s.run.proofs| == 1 then [Message(s.run.start, s.run.end, s.run.proofs[0])] else []
  }

  ghost function Messages(segs: seq<Seg>): seq<Message> {
    if segs == [] then [] else Sent(segs[0]) + Messages(segs[1..])
  }

  ghost function Flying(segs: seq<Seg>): multiset<Message> {
    multiset(Messages(segs))
  }

  /** The first-layer messages: input `i` labelled `i..i + 1`. */
  function Inputs(ps: seq<Proof>): seq<Message> {
    seq(|ps|, i requires 0 <= i < |ps| => Message(i, i + 1, ps[i]))
  }

  lemma {:induction false} MessagesConcat(s: seq<Seg>, t: seq<Seg>)
    ensures Messages(s + t) == Messages(s) + Messages(t)
  {
    if s == [] {
      assert s + t == t;
    } else {
      MessagesConcat(s[1..], t);
      assert (s + t)[1..] == s[1..] + t;
      ConcatAssoc(Sent(s[0]), Messages(s[1..]), Messages(t));
    }
  }

  lemma MessagesConcat3(x: seq<Seg>, y: seq<Seg>, z: seq<Seg>)
    ensures Messages(x + y + z) == Messages(x) + Messages(y) + Messages(z)
  {
    MessagesConcat(x + y, z);
    MessagesConcat(x, y);
  }

  lemma {:induction false} InitialMessages(ps: seq<Proof>, k: nat)
    requires k <= |ps|
    ensures Messages(Initial(ps)[k..]) == Inputs(ps)[k..]
    decreases |ps| - k
  {
    if k < |ps| {
      InitialMessages(ps, k + 1);
      assert Initial(ps)[k..][1..] == Initial(ps)[k + 1..];
    }
  }

  lemma InitialFlying(ps: seq<Proof>)
    ensures Flying(Initial(ps)) == multiset(Inputs(ps))
    ensures Stores(map[], Initial(ps))
  {
    InitialMessages(ps, 0);
    assert Initial(ps)[0..] == Initial(ps) && Inputs(ps)[0..] == Inputs(ps);
  }

  lemma {:induction false} SentIsMessage(segs: seq<Seg>, i: nat)
    requires i < |segs| && Sent(segs[i]) != []
    ensures Messages(segs) != []
  {
    if i > 0 {
      SentIsMessage(segs[1..], i - 1);
    }
  }

  /** A state that has not returned has a message on its way. */
  lemma SomeMessage(runs: map<nat, Run>, inFlight: multiset<Message>, segs: seq<Seg>, r: Round)
    requires Reflects(runs, inFlight, segs, r)
    ensures inFlight != multiset{}
  {
    NotStuck(segs, r);
    var i :| 0 <= i < |segs| && segs[i].flying;
    assert SegOk(segs[i], r);
    SentIsMessage(segs, i);
    assert Messages(segs)[0] in Flying(segs);
  }

  /** The segment a message in flight belongs to. */
  ghost function Sender(segs: seq<Seg>, m: Message): (i: nat)
    requires m in Messages(segs)
    ensures i < |segs| && segs[i] == Seg(Run(m.start, m.end, [m.proof]), true)
  {
    if m in Sent(segs[0]) then 0 else 1 + Sender(segs[1..], m)
  }

  /** Delivering removes the delivered message and adds the result of what was submitted. */
  lemma FlyingAfter(segs: seq<Seg>, i: nat, r: Round)
    requires Inv(segs, r) && r.Valid()
    requires i < |segs| && segs[i].flying && !FullLabel(segs[i].run, r.n)
    ensures Flying(Deliver(segs, i, r)) ==
              Flying(segs) - multiset(Sent(segs[i])) +
              (if Submits(segs, i, r) then multiset(Sent(Middle(segs, i, r)[0])) else multiset{})
  {
    MessagesOfMiddle(segs, i, r);
    MessagesOfPart(segs, i);
    FlyingSpliced(segs, Lo(segs, i), Hi(segs, i), Middle(segs, i, r));
  }

  lemma FlyingSpliced(segs: seq<Seg>, lo: nat, hi: nat, mid: seq<Seg>)
    requires lo <= hi <= |segs|
    ensures Flying(segs[..lo] + mid + segs[hi..]) ==
              Flying(segs) - multiset(Messages(segs[lo..hi])) + multiset(Messages(mid))
  {
    var x, y, z := segs[..lo], segs[lo..hi], segs[hi..];
    assert segs == x + y + z;
    MessagesConcat3(x, y, z);
    MessagesConcat3(x, mid, z);
    Swapped(Messages(x), Messages(y), Messages(mid), Messages(z));
  }

  lemma Swapped<T>(x: seq<T>, y: seq<T>, y': seq<T>, z: seq<T>)
    ensures multiset(x + y' + z) == multiset(x + y + z) - multiset(y) + multiset(y')
  {
  }

  lemma ParkedIsSilent(segs: seq<Seg>)
    requires |segs| <= 1 && forall s <- segs :: !s.flying
    ensures Messages(segs) == []
  {
    if segs != [] {
      assert segs[1..] == [];
    }
  }

  lemma MessagesOfPart(segs: seq<Seg>, i: nat)
    requires i < |segs| && segs[i].flying
    ensures Messages(segs[Lo(segs, i)..Hi(segs, i)]) == Sent(segs[i])
  {
    MessagesAround(segs, Lo(segs, i), i, Hi(segs, i));
  }

  lemma MessagesAround(segs: seq<Seg>, lo: nat, i: nat, hi: nat)
    requires lo <= i < hi <= |segs| && i - 1 <= lo && hi <= i + 2
    requires forall j :: lo <= j < hi && j != i ==> !segs[j].flying
    ensures Messages(segs[lo..hi]) == Sent(segs[i])
  {
    var x, z := segs[lo..i], segs[i + 1..hi];
    ParkedIsSilent(x);
    ParkedIsSilent(z);
    assert segs[lo..hi] == x + [segs[i]] + z;
    LonelyMessage(x, segs[i], z);
  }

  lemma LonelyMessage(x: seq<Seg>, s: Seg, z: seq<Seg>)
    requires Messages(x) == [] && Messages(z) == []
    ensures Messages(x + [s] + z) == Sent(s)
  {
    MessagesConcat3(x, [s], z);
    assert [s][1..] == [];
  }

  lemma MessagesOfMiddle(segs: seq<Seg>, i: nat, r: Round)
    requires Inv(segs, r) && r.Valid()
    requires i < |segs| && segs[i].flying && !FullLabel(segs[i].run, r.n)
    ensures Messages(Middle(segs, i, r)) == if Submits(segs, i, r) then Sent(Middle(segs, i, r)[0]) else []
  {
    var mid := Middle(segs, i, r);
    MiddleKeeps(segs, i, r);
    if |mid| == 1 {
      assert mid[1..] == [];
    } else {
      assert mid[1..] == [mid[1]] && !mid[1].flying;
      assert Messages([mid[1]]) == [];
    }
  }

  /** The map and the in-flight messages together are the list of segments. */
  ghost predicate Reflects(runs: map<nat, Run>, inFlight: multiset<Message>, segs: seq<Seg>, r: Round) {
    r.Valid() && Inv(segs, r) && Stores(runs, segs) && inFlight == Flying(segs)
  }

  lemma StartReflects(ps: seq<Proof>, r: Round)
    requires r.Valid() && r.n == |ps| && r.shards == Frontiers(ps)
    requires forall p <- ps :: AritiesWithin(p, r.arity)
    ensures Reflects(map[], multiset(Inputs(ps)), Initial(ps), r)
  {
    InitialInv(ps, r);
    InitialFlying(ps);
  }

  /** When the finished proof is delivered, the map is empty and nothing else is on its way. */
  lemma Finished(runs: map<nat, Run>, inFlight: multiset<Message>, segs: seq<Seg>, r: Round, m: Message)
    requires Reflects(runs, inFlight, segs, r) && m in inFlight && m.start == 0 && m.end == r.n
    ensures runs == map[] && inFlight == multiset{m} && segs == [Seg(Run(0, r.n, [m.proof]), true)]
    ensures Frontier(m.proof) == r.shards && AritiesWithin(m.proof, r.arity)
  {
    var i := Sender(segs, m);
    FullLabelIffAllShards(segs, i, r);
    assert SegOk(segs[i], r);
    assert segs[i].run.proofs == [segs[i].run.proofs[0]];
    SingleFrontier(segs[i].run.proofs[0]);
    assert forall k :: k !in runs;
    assert segs[1..] == [];
    assert Messages(segs) == [m];
  }

  /** So the run ends in the delivered proof. */
  lemma Concludes(runs: map<nat, Run>, inFlight: multiset<Message>, segs: seq<Seg>, r: Round, m: Message,
                  ps: seq<Proof>, states: seq<seq<Seg>>, picks: seq<nat>)
    requires Reflects(runs, inFlight, segs, r) && m in inFlight && m.start == 0 && m.end == r.n == |ps|
    requires RunsTo(ps, states, picks, r, segs)
    ensures runs == map[] && inFlight - multiset{m} == multiset{}
    ensures Frontier(m.proof) == r.shards && AritiesWithin(m.proof, r.arity)
    ensures IsRunFrom(ps, states, picks, r) && EndsIn(states, r.n, m.proof) && (r.n == 1 ==> m.proof == ps[0])
  {
    Finished(runs, inFlight, segs, r, m);
    if r.n == 1 {
      SingleRun(ps, states, picks, r, m.proof);
    }
  }
}
