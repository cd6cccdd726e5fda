/** Shapes, their partial order, and the list of maximal shapes kept by repeated insertion. */
module MaximalShapes {

  /** The log heights of the chips a shape mentions. */
  type Shape = map<nat, nat>

  datatype Ordering = Less | Equal | Greater | Incomparable

  /** Every chip of `a` is in `b` and at most as high there, and one is strictly lower. */
  ghost predicate Below(a: Shape, b: Shape) {
    && a.Keys <= b.Keys
    && (forall k :: k in a ==> a[k] <= b[k])
    && exists k :: k in a && a[k] < b[k]
  }

  ghost function Compare(a: Shape, b: Shape): Ordering {
    if a == b then Equal
    else if Below(a, b) then Less
    else if Below(b, a) then Greater
    else Incomparable
  }

  lemma BelowTransitive(a: Shape, b: Shape, c: Shape)
    requires Below(a, b) && Below(b, c)
    ensures Below(a, c)
  {
    var k :| k in a && a[k] < b[k];
    assert k in c && a[k] < c[k];
  }

  /**
   Having fewer chips is not enough to be below: a shape that agrees with another on its own chips
   compares as smaller than it in the component-wise order but not in this one.
   */
  lemma BelowIff(a: Shape, b: Shape)
    requires a.Keys <= b.Keys && (forall k :: k in a ==> a[k] <= b[k]) && a != b
    ensures Compare(a, b) == Less <==> exists k :: k in a && a[k] != b[k]
  {
  }

  lemma FewerChipsExample()
    ensures var a: Shape := map[0 := 3]; var b: Shape := map[0 := 3, 1 := 5];
            a != b && Compare(a, b) == Incomparable && Compare(b, a) == Incomparable
  {
    var a: Shape, b: Shape := map[0 := 3], map[0 := 3, 1 := 5];
    assert 1 in b && 1 !in a;
  }

  /** Which of the two strict comparisons occur on the keys of `keys`. */
  method Seen(keys: set<nat>, a: Shape, b: Shape) returns (less: bool, greater: bool)
    requires keys <= a.Keys && keys <= b.Keys
    ensures less <==> exists k :: k in keys && a[k] < b[k]
    ensures greater <==> exists k :: k in keys && a[k] > b[k]
  {
    less, greater := false, false;
    var rest := keys;
    while rest != {}
      invariant rest <= keys
      invariant less <==> exists k :: k in keys && k !in rest && a[k] < b[k]
      invariant greater <==> exists k :: k in keys && k !in rest && a[k] > b[k]
      decreases rest
    {
      var k :| k in rest;
      if a[k] < b[k] {
        less := true;
      } else if a[k] > b[k] {
        greater := true;
      }
      rest := rest - {k};
    }
  }

  /** The source's comparison: two key-set tests with a scan each. */
  method PartialCmp(a: Shape, b: Shape) returns (o: Ordering)
    ensures o == Compare(a, b)
  {
    if a == b {
      return Equal;
    }
    if a.Keys <= b.Keys {
      var less, greater := Seen(a.Keys, a, b);
      if less && greater {
        return Incomparable;
      }
      if less {
        return Less;
      }
    }
    if b.Keys <= a.Keys {
      var less, greater := Seen(b.Keys, a, b);
      if less && greater {
        return Incomparable;
      }
      if greater {
        return Greater;
      }
    }
    return Incomparable;
  }

  // Lists of shapes.

  ghost function Elements(s: seq<Shape>): set<Shape> {
    set x | x in s
  }

  /** No element equals or is below another. */
  ghost predicate Antichain(s: seq<Shape>) {
    forall i, j :: 0 <= i < |s| && 0 <= j < |s| && i != j ==> Compare(s[i], s[j]) == Incomparable
  }

  ghost predicate IsMaximal(x: Shape, all: set<Shape>) {
    x in all && forall y <- all :: !Below(x, y)
  }

  ghost function Maximal(all: set<Shape>): set<Shape> {
    set x | x in all && IsMaximal(x, all)
  }

  ghost predicate Covered(s: seq<Shape>, e: Shape) {
    exists i :: 0 <= i < |s| && (e == s[i] || Below(e, s[i]))
  }

  /** The elements that are not below `e`, in order. */
  ghost function Surviving(s: seq<Shape>, e: Shape): seq<Shape> {
    if s == [] then [] else (if Below(s[0], e) then [] else [s[0]]) + Surviving(s[1..], e)
  }

  /** What an insertion leaves in the list. */
  ghost function Inserted(s: seq<Shape>, e: Shape): seq<Shape> {
    if Covered(s, e) then s else Surviving(s, e) + [e]
  }

  lemma {:induction false} SurvivingElements(s: seq<Shape>, e: Shape, x: Shape)
    ensures x in Surviving(s, e) <==> x in s && !Below(x, e)
  {
    if s != [] {
      SurvivingElements(s[1..], e, x);
    }
  }

  lemma AntichainCons(x: Shape, s: seq<Shape>)
    requires Antichain(s) && forall y :: y in s ==> Compare(x, y) == Incomparable
    ensures Antichain([x] + s) && Antichain(s + [x])
  {
    forall i | 0 <= i < |s|
      ensures Compare(x, s[i]) == Incomparable && Compare(s[i], x) == Incomparable
    {
      assert s[i] in s;
    }
  }

  lemma {:induction false} SurvivingAntichain(s: seq<Shape>, e: Shape)
    requires Antichain(s)
    ensures Antichain(Surviving(s, e))
  {
    if s != [] {
      var rest := Surviving(s[1..], e);
      assert forall i :: 0 <= i < |s[1..]| ==> s[1..][i] == s[i + 1];
      SurvivingAntichain(s[1..], e);
      forall y | y in rest
        ensures Compare(s[0], y) == Incomparable
      {
        SurvivingElements(s[1..], e, y);
      }
      AntichainCons(s[0], rest);
    }
  }

  /** Insertion keeps the list an antichain. */
  lemma InsertedAntichain(s: seq<Shape>, e: Shape)
    requires Antichain(s)
    ensures Antichain(Inserted(s, e))
  {
    if !Covered(s, e) {
      SurvivingAntichain(s, e);
      forall y | y in Surviving(s, e)
        ensures Compare(e, y) == Incomparable
      {
        SurvivingElements(s, e, y);
        var i :| 0 <= i < |s| && s[i] == y;
      }
      AntichainCons(e, Surviving(s, e));
    }
  }

  // Maximal elements of a finite set.

  ghost function Above(x: Shape, all: set<Shape>): set<Shape> {
    set y | y in all && Below(x, y)
  }

  /** Every element is maximal or below a maximal one. */
  lemma {:induction false} MaximalAbove(x: Shape, all: set<Shape>) returns (m: Shape)
    requires x in all
    ensures IsMaximal(m, all) && (x == m || Below(x, m))
    decreases |Above(x, all)|
  {
    if y :| y in all && Below(x, y) {
      assert y in Above(x, all) && y !in Above(y, all);
      forall z | z in Above(y, all)
        ensures z in Above(x, all)
      {
        BelowTransitive(x, y, z);
      }
      SmallerSet(Above(y, all), Above(x, all));
      m := MaximalAbove(y, all);
      if y != m {
        BelowTransitive(x, y, m);
      }
    } else {
      m := x;
    }
  }

  lemma {:induction false} SmallerSet<T>(a: set<T>, b: set<T>)
    requires a < b
    ensures |a| < |b|
  {
    assert b == a + (b - a);
    assert |b| == |a| + |b - a|;
    assert b - a != {};
  }

  lemma CoveredIff(s: seq<Shape>, all: set<Shape>, e: Shape)
    requires Elements(s) == Maximal(all)
    ensures Covered(s, e) <==> e in all || exists y <- all :: Below(e, y)
  {
    if i :| 0 <= i < |s| && (e == s[i] || Below(e, s[i])) {
      assert s[i] in Elements(s);
    }
    if y :| y in all && (e == y || Below(e, y)) {
      var m := MaximalAbove(y, all);
      if e != y && y != m {
        BelowTransitive(e, y, m);
      }
      assert m in Maximal(all) && m in Elements(s);
      var i :| 0 <= i < |s| && s[i] == m;
    }
  }

  /** If the list holds the maximal elements of a set, it does so after an insertion, of the larger set. */
  lemma InsertKeepsMaximal(s: seq<Shape>, all: set<Shape>, e: Shape)
    requires Elements(s) == Maximal(all)
    ensures Elements(Inserted(s, e)) == Maximal(all + {e})
  {
    CoveredIff(s, all, e);
    forall x
      ensures x in Elements(Inserted(s, e)) <==> x in Maximal(all + {e})
    {
      assert x in Elements(s) <==> x in Maximal(all);
      if Covered(s, e) {
        CoveredMaximal(all, e, x);
      } else {
        SurvivingElements(s, e, x);
        NewMaximal(all, e, x);
      }
    }
  }

  lemma CoveredMaximal(all: set<Shape>, e: Shape, x: Shape)
    requires e in all || exists y <- all :: Below(e, y)
    ensures x in Maximal(all) <==> x in Maximal(all + {e})
  {
    if e in all {
      assert all + {e} == all;
    } else {
      var y :| y in all && Below(e, y);
      if x in Maximal(all) && Below(x, e) {
        BelowTransitive(x, e, y);
      }
      assert y in all + {e};
    }
  }

  lemma NewMaximal(all: set<Shape>, e: Shape, x: Shape)
    requires e !in all && forall y <- all :: !Below(e, y)
    ensures x in Maximal(all + {e}) <==> x == e || (x in Maximal(all) && !Below(x, e))
  {
    assert e in all + {e};
  }

  // Runs of insertions.

  ghost function InsertedAll(s: seq<Shape>, es: seq<Shape>): seq<Shape>
    decreases es
  {
    if es == [] then s else InsertedAll(Inserted(s, es[0]), es[1..])
  }

  /** Any run of insertions from an antichain leaves exactly the maximal elements of everything, once each. */
  lemma {:induction false} InsertedAllMaximal(s: seq<Shape>, all: set<Shape>, es: seq<Shape>)
    requires Antichain(s) && Elements(s) == Maximal(all)
    ensures Antichain(InsertedAll(s, es)) && Elements(InsertedAll(s, es)) == Maximal(all + Elements(es))
    decreases es
  {
    if es == [] {
      assert all + Elements(es) == all;
    } else {
      InsertedAntichain(s, es[0]);
      InsertKeepsMaximal(s, all, es[0]);
      InsertedAllMaximal(Inserted(s, es[0]), all + {es[0]}, es[1..]);
      assert all + {es[0]} + Elements(es[1..]) == all + Elements(es) by {
        assert es == [es[0]] + es[1..];
      }
    }
  }

  lemma AntichainIsMaximal(s: seq<Shape>)
    requires Antichain(s)
    ensures Elements(s) == Maximal(Elements(s))
  {
    forall x, y | x in Elements(s) && y in Elements(s)
      ensures !Below(x, y)
    {
      var i :| 0 <= i < |s| && s[i] == x;
      var j :| 0 <= j < |s| && s[j] == y;
      if i != j {
        assert Compare(s[i], s[j]) == Incomparable;
      }
    }
  }

  /** The set kept does not depend on the order of insertion. */
  lemma OrderIrrelevant(s: seq<Shape>, es: seq<Shape>, fs: seq<Shape>)
    requires Antichain(s) && Elements(es) == Elements(fs)
    ensures Elements(InsertedAll(s, es)) == Elements(InsertedAll(s, fs)) == Maximal(Elements(s) + Elements(es))
  {
    AntichainIsMaximal(s);
    InsertedAllMaximal(s, Elements(s), es);
    InsertedAllMaximal(s, Elements(s), fs);
  }

  // The source's insertion.

  /** `marks` lists, in increasing order, the positions before `n` of elements below `e`. */
  ghost predicate Marks(s: seq<Shape>, e: Shape, marks: seq<nat>, n: nat) {
    && n <= |s|
    && (forall i, j :: 0 <= i < j < |marks| ==> marks[i] < marks[j])
    && (forall i :: 0 <= i < |marks| ==> marks[i] < n && Below(s[marks[i]], e))
    && (forall k :: 0 <= k < n && Below(s[k], e) ==> k in marks)
  }

  lemma {:induction false} SurvivingSlice(s: seq<Shape>, e: Shape, a: nat, b: nat)
    requires a <= b <= |s| && forall k :: a <= k < b ==> !Below(s[k], e)
    ensures Surviving(s[a..], e) == s[a..b] + Surviving(s[b..], e)
    decreases b - a
  {
    if a < b {
      SurvivingSlice(s, e, a + 1, b);
      assert s[a..][1..] == s[a + 1..] && s[a..][0] == s[a];
      assert s[a..b] == [s[a]] + s[a + 1..b];
    }
  }

  /** The state while removing from the back: what follows position `b` has been filtered. */
  ghost function Filtered(s: seq<Shape>, e: Shape, b: nat): seq<Shape>
    requires b <= |s|
  {
    s[..b] + Surviving(s[b..], e)
  }

  lemma FilterOne(s: seq<Shape>, e: Shape, a: nat, b: nat)
    requires a < b <= |s| && Below(s[a], e) && forall k :: a < k < b ==> !Below(s[k], e)
    ensures Filtered(s, e, b)[..a] + Filtered(s, e, b)[a + 1..] == Filtered(s, e, a)
  {
    SurvivingSlice(s, e, a + 1, b);
    assert s[a..][1..] == s[a + 1..];
    var f := Filtered(s, e, b);
    assert f[..a] == s[..a];
    assert f[a + 1..] == s[a + 1..b] + Surviving(s[b..], e);
  }

  class MaximalList {
    var inner: seq<Shape>

    constructor (inner: seq<Shape>)
      ensures this.inner == inner
    {
      this.inner := inner;
    }

    /** Inserts a shape unless it is covered, dropping the shapes below it. */
    method Insert(e: Shape)
      modifies this
      ensures inner == Inserted(old(inner), e)
    {
      var marks: seq<nat> := [];
      for i := 0 to |inner|
        invariant inner == old(inner) && Marks(inner, e, marks, i)
        invariant forall k :: 0 <= k < i ==> e != inner[k] && !Below(e, inner[k])
      {
        var order := PartialCmp(e, inner[i]);
        match order {
          case Greater => marks := marks + [i];
          case Less => return;
          case Equal => return;
          case Incomparable =>
        }
      }
      RemoveMarked(e, marks);
      inner := inner + [e];
    }

    /** Removes the marked positions from the back. */
    method RemoveMarked(ghost e: Shape, marks: seq<nat>)
      requires Marks(inner, e, marks, |inner|)
      modifies this
      ensures inner == Surviving(old(inner), e)
    {
      ghost var s := inner;
      ghost var b := |s|;
      assert Filtered(s, e, b) == s;
      for i := |marks| downto 0
        invariant b == if i == |marks| then |s| else marks[i]
        invariant inner == Filtered(s, e, b)
      {
        MarkIsNext(s, e, marks, i, b);
        FilterOne(s, e, marks[i], b);
        inner := inner[..marks[i]] + inner[marks[i] + 1..];
        b := marks[i];
      }
      SurvivingSlice(s, e, 0, b);
      assert s[0..] == s && s[0..b] == s[..b];
    }

    /** Inserting into an antichain leaves exactly the maximal shapes of everything, once each. */
    method InsertAll(es: seq<Shape>)
      modifies this
      ensures inner == InsertedAll(old(inner), es)
      ensures Antichain(old(inner)) ==>
                Antichain(inner) && Elements(inner) == Maximal(Elements(old(inner)) + Elements(es))
    {
      for i := 0 to |es|
        invariant InsertedAll(inner, es[i..]) == InsertedAll(old(inner), es)
      {
        assert es[i..][1..] == es[i + 1..];
        Insert(es[i]);
      }
      if Antichain(old(inner)) {
        AntichainIsMaximal(old(inner));
        InsertedAllMaximal(old(inner), Elements(old(inner)), es);
      }
    }
  }

  /** Between a mark and the next one nothing is marked. */
  lemma MarkIsNext(s: seq<Shape>, e: Shape, marks: seq<nat>, i: nat, b: nat)
    requires Marks(s, e, marks, |s|) && i < |marks|
    requires b == if i + 1 == |marks| then |s| else marks[i + 1]
    ensures marks[i] < b && forall k :: marks[i] < k < b ==> !Below(s[k], e)
  {
    forall j | 0 <= j < |marks|
      ensures marks[j] <= marks[i] || b <= marks[j]
    {
      if j > i + 1 {
        assert marks[i + 1] < marks[j];
      }
    }
  }
}
