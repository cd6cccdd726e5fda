/** Recursion proofs, kept as the tree of compressions that produced them. */
module RecursionProof {

  /** A first-layer proof of one input, or the compression of a batch of proofs. */
  datatype Proof = Leaf(shard: nat) | Compress(children: seq<Proof>)

  /** A proof travelling to the reducer, with the range label it was submitted under. */
  datatype Message = Message(start: nat, end: nat, proof: Proof)

  /** The shards a proof attests, in order. */
  ghost function Frontier(p: Proof): seq<nat>
    decreases p, 0
  {
    match p
    case Leaf(i) => [i]
    case Compress(ps) => Frontiers(ps)
  }

  ghost function Frontiers(ps: seq<Proof>): seq<nat>
    decreases ps, 1
  {
    if ps == [] then [] else Frontier(ps[0]) + Frontiers(ps[1..])
  }

  /** Every compression inside the proof took between 2 and `b` proofs. */
  ghost predicate AritiesWithin(p: Proof, b: nat)
    decreases p, 0
  {
    match p
    case Leaf(_) => true
    case Compress(ps) => 2 <= |ps| <= b && forall c <- ps :: AritiesWithin(c, b)
  }

  /** The sum of (arity - 1) over the compressions inside the proof. */
  ghost function Work(p: Proof): nat
    decreases p, 0
  {
    match p
    case Leaf(_) => 0
    case Compress(ps) => Works(ps) + (if ps == [] then 0 else |ps| - 1)
  }

  ghost function Works(ps: seq<Proof>): nat
    decreases ps, 1
  {
    if ps == [] then 0 else Work(ps[0]) + Works(ps[1..])
  }

  /** The number of compressions inside the proof. */
  ghost function Tasks(p: Proof): nat
    decreases p, 0
  {
    match p
    case Leaf(_) => 0
    case Compress(ps) => 1 + TasksOf(ps)
  }

  ghost function TasksOf(ps: seq<Proof>): nat
    decreases ps, 1
  {
    if ps == [] then 0 else Tasks(ps[0]) + TasksOf(ps[1..])
  }

  /** `[0, 1, ..., n - 1]`. */
  ghost function Iota(n: nat): (s: seq<nat>)
    ensures |s| == n && forall i :: 0 <= i < n ==> s[i] == i
  {
    seq(n, i requires 0 <= i < n => i)
  }

  lemma ConcatAssoc<T>(a: seq<T>, b: seq<T>, c: seq<T>)
    ensures (a + b) + c == a + (b + c)
  {
  }

  lemma {:induction false} FrontiersConcat(a: seq<Proof>, b: seq<Proof>)
    ensures Frontiers(a + b) == Frontiers(a) + Frontiers(b)
  {
    if a == [] {
      assert a + b == b;
    } else {
      FrontiersConcat(a[1..], b);
      assert (a + b)[1..] == a[1..] + b;
      ConcatAssoc(Frontier(a[0]), Frontiers(a[1..]), Frontiers(b));
    }
  }

  lemma {:induction false} WorksConcat(a: seq<Proof>, b: seq<Proof>)
    ensures Works(a + b) == Works(a) + Works(b)
    ensures TasksOf(a + b) == TasksOf(a) + TasksOf(b)
  {
    if a == [] {
      assert a + b == b;
    } else {
      WorksConcat(a[1..], b);
      assert (a + b)[1..] == a[1..] + b;
    }
  }

  /** Compressing trades proofs for work: every proof attests one shard more than its work. */
  lemma {:induction false} FrontierWork(p: Proof, b: nat)
    requires AritiesWithin(p, b)
    ensures |Frontier(p)| == Work(p) + 1
    ensures Tasks(p) <= Work(p)
    decreases p, 0
  {
    match p
    case Leaf(_) =>
    case Compress(ps) => FrontiersWork(ps, b);
  }

  lemma {:induction false} FrontiersWork(ps: seq<Proof>, b: nat)
    requires forall c <- ps :: AritiesWithin(c, b)
    ensures |Frontiers(ps)| == Works(ps) + |ps|
    ensures TasksOf(ps) <= Works(ps)
    decreases ps, 1
  {
    if ps != [] {
      FrontierWork(ps[0], b);
      FrontiersWork(ps[1..], b);
    }
  }
}
