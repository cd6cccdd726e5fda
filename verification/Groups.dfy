/** Abelian groups on the members of a type, and sums in them. */
module Groups {

  datatype Group<!T> = Group(member: T -> bool, unit: T, op: (T, T) -> T, inv: T -> T)

  ghost predicate GroupLaws<T>(G: Group<T>, x: T, y: T, z: T) {
    G.member(x) && G.member(y) && G.member(z) ==>
      && G.member(G.op(x, y)) && G.member(G.inv(x))
      && G.op(x, y) == G.op(y, x)
      && G.op(G.op(x, y), z) == G.op(x, G.op(y, z))
      && G.op(x, G.unit) == x
      && G.op(x, G.inv(x)) == G.unit
  }

  ghost predicate IsGroup<T(!new)>(G: Group<T>) {
    G.member(G.unit) && forall x, y, z :: GroupLaws(G, x, y, z)
  }

  lemma CancelRight<T(!new)>(G: Group<T>, x: T, y: T, z: T)
    requires IsGroup(G) && G.member(x) && G.member(y) && G.member(z)
    ensures G.op(x, z) == G.op(y, z) <==> x == y
    ensures G.op(G.op(x, z), G.inv(z)) == x && G.op(G.op(x, G.inv(z)), z) == x
  {
    assert GroupLaws(G, z, z, z);
    assert GroupLaws(G, x, z, G.inv(z)) && GroupLaws(G, y, z, G.inv(z));
    assert GroupLaws(G, x, G.inv(z), z) && GroupLaws(G, z, G.inv(z), z);
  }

  lemma InverseTwice<T(!new)>(G: Group<T>, x: T)
    requires IsGroup(G) && G.member(x)
    ensures G.member(G.inv(x)) && G.inv(G.inv(x)) == x
  {
    var y := G.inv(x);
    assert GroupLaws(G, x, x, x) && GroupLaws(G, y, x, y) && GroupLaws(G, y, y, y);
    CancelRight(G, G.inv(y), x, y);
    assert GroupLaws(G, G.inv(y), y, y);
  }

  lemma Exchange<T(!new)>(G: Group<T>, x: T, y: T, z: T)
    requires IsGroup(G) && G.member(x) && G.member(y) && G.member(z)
    ensures G.op(x, G.op(y, z)) == G.op(y, G.op(x, z))
  {
    assert GroupLaws(G, x, y, z) && GroupLaws(G, y, x, z);
  }

  ghost predicate Members<T>(G: Group<T>, s: seq<T>) {
    forall x <- s :: G.member(x)
  }

  ghost function Total<T>(G: Group<T>, s: seq<T>): T {
    if s == [] then G.unit else G.op(s[0], Total(G, s[1..]))
  }

  lemma {:induction false} TotalMember<T(!new)>(G: Group<T>, s: seq<T>)
    requires IsGroup(G) && Members(G, s)
    ensures G.member(Total(G, s))
  {
    if s != [] {
      TotalMember(G, s[1..]);
      assert GroupLaws(G, s[0], Total(G, s[1..]), s[0]);
    }
  }

  /** Any element can be taken to the front of a sum. */
  lemma {:induction false} TotalPick<T(!new)>(G: Group<T>, s: seq<T>, i: nat)
    requires IsGroup(G) && Members(G, s) && i < |s|
    ensures Total(G, s) == G.op(s[i], Total(G, s[..i] + s[i + 1..]))
  {
    var t := s[..i] + s[i + 1..];
    if i == 0 {
      assert t == s[1..];
    } else {
      TotalPick(G, s[1..], i - 1);
      var u := s[1..][..i - 1] + s[1..][i..];
      assert t[1..] == u;
      TotalMember(G, u);
      Exchange(G, s[0], s[i], Total(G, u));
    }
  }

  /** A sum depends on its elements, not on their order. */
  lemma {:induction false} TotalPermutes<T(!new)>(G: Group<T>, s: seq<T>, t: seq<T>)
    requires IsGroup(G) && Members(G, s) && multiset(s) == multiset(t)
    ensures Total(G, s) == Total(G, t)
  {
    assert |multiset(s)| == |multiset(t)|;
    if s != [] {
      assert s[0] in multiset(t);
      var i :| 0 <= i < |t| && t[i] == s[0];
      var u := t[..i] + t[i + 1..];
      Removed(s, t, i);
      SameMembers(G, s, t);
      TotalPermutes(G, s[1..], u);
      TotalPick(G, t, i);
    }
  }

  lemma SameMembers<T>(G: Group<T>, s: seq<T>, t: seq<T>)
    requires Members(G, s) && multiset(s) == multiset(t)
    ensures Members(G, t)
  {
    forall x | x in t
      ensures G.member(x)
    {
      assert x in multiset(t);
    }
  }

  lemma Removed<T>(s: seq<T>, t: seq<T>, i: nat)
    requires s != [] && i < |t| && t[i] == s[0] && multiset(s) == multiset(t)
    ensures multiset(s[1..]) == multiset(t[..i] + t[i + 1..])
  {
    var a, b := multiset(s[1..]), multiset(t[..i] + t[i + 1..]);
    assert s == [s[0]] + s[1..];
    assert t == t[..i] + [t[i]] + t[i + 1..];
    assert multiset(s) == multiset{s[0]} + a;
    assert multiset(t) == multiset{s[0]} + b;
    assert a == multiset(s) - multiset{s[0]};
    assert b == multiset(t) - multiset{s[0]};
  }

  lemma {:induction false} TotalSnoc<T(!new)>(G: Group<T>, s: seq<T>, x: T)
    requires IsGroup(G) && Members(G, s) && G.member(x)
    ensures Total(G, s + [x]) == G.op(Total(G, s), x)
  {
    if s == [] {
      assert s + [x] == [x] && [x][1..] == [];
      assert GroupLaws(G, x, G.unit, x);
    } else {
      TotalSnoc(G, s[1..], x);
      TotalMember(G, s[1..]);
      assert (s + [x])[1..] == s[1..] + [x];
      assert GroupLaws(G, s[0], Total(G, s[1..]), x);
    }
  }

  lemma {:induction false} TotalConcat<T(!new)>(G: Group<T>, s: seq<T>, t: seq<T>)
    requires IsGroup(G) && Members(G, s) && Members(G, t)
    ensures Total(G, s + t) == G.op(Total(G, s), Total(G, t))
  {
    TotalMember(G, t);
    if s == [] {
      assert s + t == t;
      assert GroupLaws(G, G.unit, Total(G, t), G.unit) && GroupLaws(G, Total(G, t), G.unit, G.unit);
    } else {
      TotalConcat(G, s[1..], t);
      TotalMember(G, s[1..]);
      assert (s + t)[1..] == s[1..] + t;
      assert GroupLaws(G, s[0], Total(G, s[1..]), Total(G, t));
    }
  }

  lemma {:induction false} TotalCancels<T(!new)>(G: Group<T>, s: seq<T>, t: seq<T>)
    requires IsGroup(G) && Members(G, s) && |s| == |t| && forall i :: 0 <= i < |s| ==> t[i] == G.inv(s[i])
    ensures G.op(Total(G, s), Total(G, t)) == G.unit && Members(G, t)
  {
    assert GroupLaws(G, G.unit, G.unit, G.unit);
    if s != [] {
      TotalCancels(G, s[1..], t[1..]);
      TotalMember(G, s[1..]);
      TotalMember(G, t[1..]);
      var x, y, u, v := s[0], t[0], Total(G, s[1..]), Total(G, t[1..]);
      assert GroupLaws(G, x, x, x);
      assert GroupLaws(G, y, v, v);
      assert GroupLaws(G, x, u, G.op(y, v));
      Exchange(G, u, y, v);
      assert GroupLaws(G, x, y, G.op(u, v));
      forall i | 0 <= i < |t|
        ensures G.member(t[i])
      {
        assert GroupLaws(G, s[i], s[i], s[i]);
      }
    }
  }

  function Mapped<T, U>(f: T --> U, s: seq<T>): seq<U>
    requires forall i :: 0 <= i < |s| ==> f.requires(s[i])
  {
    seq(|s|, i requires 0 <= i < |s| => f(s[i]))
  }

  /** Rearranging a list rearranges what it is mapped to. */
  lemma {:induction false} MappedPermutes<T, U>(f: T --> U, xs: seq<T>, ys: seq<T>)
    requires forall i :: 0 <= i < |xs| ==> f.requires(xs[i])
    requires forall i :: 0 <= i < |ys| ==> f.requires(ys[i])
    requires multiset(xs) == multiset(ys)
    ensures multiset(Mapped(f, xs)) == multiset(Mapped(f, ys))
    decreases xs
  {
    assert |multiset(xs)| == |multiset(ys)|;
    if xs == [] {
      assert xs == ys;
    } else {
      assert xs[0] in multiset(ys);
      var i :| 0 <= i < |ys| && ys[i] == xs[0];
      Removed(xs, ys, i);
      MappedPermutes(f, xs[1..], ys[..i] + ys[i + 1..]);
      MappedPick(f, xs, 0, xs[1..]);
      MappedPick(f, ys, i, ys[..i] + ys[i + 1..]);
    }
  }

  lemma MappedPick<T, U>(f: T --> U, s: seq<T>, i: nat, rest: seq<T>)
    requires i < |s| && rest == s[..i] + s[i + 1..] && forall j :: 0 <= j < |s| ==> f.requires(s[j])
    ensures forall j :: 0 <= j < |rest| ==> f.requires(rest[j])
    ensures multiset(Mapped(f, s)) == multiset{f(s[i])} + multiset(Mapped(f, rest))
  {
    var v := Mapped(f, s);
    assert v == v[..i] + [v[i]] + v[i + 1..];
    assert Mapped(f, rest) == v[..i] + v[i + 1..];
  }
}
