/** Double-and-add over an affine addition and a doubling that may panic. */
module ScalarMul {
  import opened Modular
  import opened Wrappers
  import opened Bits

  datatype Outcome<T> = Panicked | Failed | Done(point: T)

  /** One bit's addition: nothing added yet means the point itself; `None` is a panic. */
  function Joined<T>(add: (T, T) -> Option<T>, result: Option<T>, temp: T, bit: bool): Option<Option<T>> {
    if !bit then Some(result)
    else if result.None? then Some(Some(temp))
    else
      var sum := add(result.value, temp);
      if sum.None? then None else Some(sum)
  }

  /** What the rest of the bits, lowest first, make of the sum so far and the current doubling. */
  function Accumulate<T>(add: (T, T) -> Option<T>, double: T -> Option<T>, result: Option<T>, temp: T, bits: seq<bool>):
    Outcome<T>
    decreases bits
  {
    if bits == [] then if result.None? then Failed else Done(result.value)
    else
      var next, doubled := Joined(add, result, temp, bits[0]), double(temp);
      if next.None? || doubled.None? then Panicked
      else Accumulate(add, double, next.value, doubled.value, bits[1..])
  }

  /** The product by a scalar cut to `n` bits. */
  function Product<T>(add: (T, T) -> Option<T>, double: T -> Option<T>, neutral: Option<T>, n: nat, p: T, scalar: nat):
    Outcome<T>
  {
    Accumulate(add, double, neutral, p, BitsOf(scalar % Pow2(n), n))
  }

  /** Doubling by adding a point to itself. */
  function SelfSum<T>(add: (T, T) -> Option<T>): T -> Option<T> {
    x => add(x, x)
  }

  // The source's loops.

  method DoubleAndAdd<T>(add: (T, T) -> Option<T>, double: T -> Option<T>, neutral: Option<T>, p: T, bits: seq<bool>)
    returns (outcome: Outcome<T>)
    ensures outcome == Accumulate(add, double, neutral, p, bits)
  {
    var result, temp := neutral, p;
    for i := 0 to |bits|
      invariant Accumulate(add, double, neutral, p, bits) == Accumulate(add, double, result, temp, bits[i..])
    {
      assert bits[i..][1..] == bits[i + 1..];
      if bits[i] {
        if result.None? {
          result := Some(temp);
        } else {
          result := add(result.value, temp);
          if result.None? {
            return Panicked;
          }
        }
      }
      var doubled := double(temp);
      if doubled.None? {
        return Panicked;
      }
      temp := doubled.value;
    }
    outcome := if result.None? then Failed else Done(result.value);
  }

  /** The trait's product, which doubles with the curve's addition. */
  method Multiply<T>(add: (T, T) -> Option<T>, neutral: Option<T>, nbScalarBits: nat, p: T, scalar: nat)
    returns (outcome: Outcome<T>)
    ensures outcome == Product(add, SelfSum(add), neutral, nbScalarBits, p, scalar)
    ensures 1 <= nbScalarBits && add(p, p).None? ==> outcome.Panicked?
  {
    var reduced := scalar % Pow2(nbScalarBits);
    var bits := ToBitsLe(reduced, nbScalarBits);
    ModSmall(reduced, Pow2(nbScalarBits));
    BitsOfValue(bits);
    if 1 <= nbScalarBits && add(p, p).None? {
      SelfAdditionPanics(add, neutral, nbScalarBits, p, scalar);
    }
    outcome := DoubleAndAdd(add, SelfSum(add), neutral, p, bits);
  }

  /** The Weierstrass product, which has its own doubling and leaves the cut to the bit conversion. */
  method SwMultiply<T>(add: (T, T) -> Option<T>, double: T -> Option<T>, nbScalarBits: nat, p: T, scalar: nat)
    returns (outcome: Outcome<T>)
    ensures outcome == Product(add, double, None, nbScalarBits, p, scalar)
  {
    var bits := ToBitsLe(scalar, nbScalarBits);
    BitsOfValue(bits);
    outcome := DoubleAndAdd(add, double, None, p, bits);
  }

  /** If adding a point to itself panics, so does every product of it with at least one scalar bit. */
  lemma SelfAdditionPanics<T>(add: (T, T) -> Option<T>, neutral: Option<T>, n: nat, p: T, scalar: nat)
    requires 1 <= n && add(p, p).None?
    ensures Product(add, SelfSum(add), neutral, n, p, scalar).Panicked?
  {
    assert BitsOf(scalar % Pow2(n), n) != [];
    assert SelfSum(add)(p) == None;
  }

  // Sums in a group.

  ghost predicate AssociatesAt<G>(plus: (G, G) -> G, x: G, y: G, z: G) {
    plus(plus(x, y), z) == plus(x, plus(y, z))
  }

  ghost predicate Associative<G(!new)>(plus: (G, G) -> G) {
    forall x, y, z :: AssociatesAt(plus, x, y, z)
  }

  /** `q + q + ... + q`, `n` times. */
  ghost function Multiple<G>(plus: (G, G) -> G, q: G, n: nat): G
    requires n >= 1
  {
    if n == 1 then q else plus(q, Multiple(plus, q, n - 1))
  }

  lemma {:induction false} MultipleAdd<G(!new)>(plus: (G, G) -> G, q: G, m: nat, n: nat)
    requires Associative(plus) && m >= 1 && n >= 1
    ensures Multiple(plus, q, m + n) == plus(Multiple(plus, q, m), Multiple(plus, q, n))
    decreases m
  {
    if m > 1 {
      MultipleAdd(plus, q, m - 1, n);
      assert AssociatesAt(plus, q, Multiple(plus, q, m - 1), Multiple(plus, q, n));
    }
  }

  // Affine additions.

  /** The group a curve's points stand for, and where its affine addition and doubling panic. */
  datatype Reading<!T, !G> = Reading(
    embed: T -> G, plus: (G, G) -> G, undefined: (G, G) -> bool, undoubled: G -> bool)

  /** The addition of `x` and `y` panics or is the group's, as read. */
  ghost predicate AddsAt<T, G>(d: Reading<T, G>, add: (T, T) -> Option<T>, x: T, y: T) {
    && (add(x, y).None? <==> d.undefined(d.embed(x), d.embed(y)))
    && (add(x, y).Some? ==> d.embed(add(x, y).value) == d.plus(d.embed(x), d.embed(y)))
  }

  /** The doubling of `x` panics as read; its value matters only if it is `used`. */
  ghost predicate DoublesAt<T, G>(d: Reading<T, G>, double: T -> Option<T>, x: T, used: bool) {
    && (double(x).None? <==> d.undoubled(d.embed(x)))
    && (used && double(x).Some? ==> d.embed(double(x).value) == d.plus(d.embed(x), d.embed(x)))
  }

  /** A number without its lowest `i` bits. */
  function High(s: nat, i: nat): nat {
    if i == 0 then s else High(s, i - 1) / 2
  }

  predicate BitAt(s: nat, i: nat) {
    High(s, i) % 2 == 1
  }

  /** The lowest `i` bits of a number. */
  function Low(s: nat, i: nat): nat {
    if i == 0 then 0 else Low(s, i - 1) + if BitAt(s, i - 1) then Pow2(i - 1) else 0
  }

  lemma {:induction false} LowHigh(s: nat, i: nat)
    ensures s == Pow2(i) * High(s, i) + Low(s, i) && Low(s, i) < Pow2(i)
  {
    if i > 0 {
      LowHigh(s, i - 1);
      Spread(Pow2(i - 1), High(s, i), High(s, i - 1) % 2, Low(s, i - 1));
    }
  }

  lemma Spread(w: nat, half: nat, bit: nat, low: nat)
    requires bit < 2
    ensures w * (2 * half + bit) + low == 2 * w * half + (low + if bit == 1 then w else 0)
  {
  }

  lemma LowIsRemainder(s: nat, i: nat)
    ensures Low(s, i) == s % Pow2(i)
  {
    LowHigh(s, i);
    DivModUnique(s, Pow2(i), High(s, i), Low(s, i));
  }

  /** Bit `i` is added into a nonempty sum of lower bits. */
  ghost predicate SumMet(s: nat, i: nat) {
    BitAt(s, i) && Low(s, i) > 0
  }

  ghost predicate SumPanics<T, G>(d: Reading<T, G>, q: G, s: nat, i: nat) {
    SumMet(s, i) && d.undefined(Multiple(d.plus, q, Low(s, i)), Multiple(d.plus, q, Pow2(i)))
  }

  ghost predicate StepPanics<T, G>(d: Reading<T, G>, q: G, s: nat, i: nat) {
    SumPanics(d, q, s, i) || d.undoubled(Multiple(d.plus, q, Pow2(i)))
  }

  /** No step before `i` panics. */
  ghost predicate Reaches<T, G>(d: Reading<T, G>, q: G, s: nat, i: nat) {
    forall j: nat :: j < i ==> !StepPanics(d, q, s, j)
  }

  /** The addition is right on the `m`-fold and `n`-fold sums. */
  ghost predicate AddsMultiples<T(!new), G>(d: Reading<T, G>, add: (T, T) -> Option<T>, p: T, m: nat, n: nat)
    requires m >= 1 && n >= 1
  {
    forall x, y {:trigger AddsAt(d, add, x, y)} ::
      d.embed(x) == Multiple(d.plus, d.embed(p), m) && d.embed(y) == Multiple(d.plus, d.embed(p), n) ==>
        AddsAt(d, add, x, y)
  }

  ghost predicate DoublesMultiple<T(!new), G>(d: Reading<T, G>, double: T -> Option<T>, p: T, n: nat, used: bool)
    requires n >= 1
  {
    forall x {:trigger DoublesAt(d, double, x, used)} ::
      d.embed(x) == Multiple(d.plus, d.embed(p), n) ==> DoublesAt(d, double, x, used)
  }

  /** The operations are right on the sums and doublings that the product by `s` meets. */
  ghost predicate RightFor<T(!new), G(!new)>(d: Reading<T, G>, add: (T, T) -> Option<T>, double: T -> Option<T>, p: T,
                                             n: nat, s: nat)
  {
    && Associative(d.plus)
    && forall i: nat :: i < n && Reaches(d, d.embed(p), s, i) ==>
         && (SumMet(s, i) ==> AddsMultiples(d, add, p, Low(s, i), Pow2(i)))
         && (!SumPanics(d, d.embed(p), s, i) ==> DoublesMultiple(d, double, p, Pow2(i), i + 1 < n))
  }

  ghost predicate NeutralAt<T, G>(d: Reading<T, G>, add: (T, T) -> Option<T>, neutral: T, x: T) {
    add(neutral, x).Some? && d.embed(add(neutral, x).value) == d.embed(x)
  }

  /** Adding to the curve's affine neutral point, if it has one, gives the same point. */
  ghost predicate IsNeutral<T(!new), G>(d: Reading<T, G>, add: (T, T) -> Option<T>, neutral: Option<T>) {
    neutral.Some? ==> forall x :: NeutralAt(d, add, neutral.value, x)
  }

  /** The sum so far: the neutral point, if any, or the `n`-fold sum. */
  ghost predicate IsSum<T, G>(d: Reading<T, G>, neutral: Option<T>, p: T, n: nat, result: Option<T>) {
    if n == 0 then result == neutral
    else result.Some? && d.embed(result.value) == Multiple(d.plus, d.embed(p), n)
  }

  // The meaning of a product.

  lemma JoinedMeans<T(!new), G(!new)>(d: Reading<T, G>, add: (T, T) -> Option<T>, neutral: Option<T>, p: T,
                                      m: nat, n: nat, result: Option<T>, temp: T)
    requires Associative(d.plus) && IsNeutral(d, add, neutral) && n >= 1 && (m >= 1 ==> AddsMultiples(d, add, p, m, n))
    requires IsSum(d, neutral, p, m, result) && d.embed(temp) == Multiple(d.plus, d.embed(p), n)
    ensures var sum := Joined(add, result, temp, true); var q := d.embed(p);
            && (sum.None? <==> m >= 1 && d.undefined(Multiple(d.plus, q, m), Multiple(d.plus, q, n)))
            && (sum.Some? ==> IsSum(d, neutral, p, m + n, sum.value))
  {
    if m >= 1 {
      assert AddsAt(d, add, result.value, temp);
      MultipleAdd(d.plus, d.embed(p), m, n);
    } else if neutral.Some? {
      assert NeutralAt(d, add, neutral.value, temp);
    }
  }

  lemma DoublingMeans<T(!new), G(!new)>(d: Reading<T, G>, double: T -> Option<T>, p: T, n: nat, i: nat, temp: T)
    requires Associative(d.plus) && i < n && DoublesMultiple(d, double, p, Pow2(i), i + 1 < n)
    requires d.embed(temp) == Multiple(d.plus, d.embed(p), Pow2(i))
    ensures double(temp).None? <==> d.undoubled(Multiple(d.plus, d.embed(p), Pow2(i)))
    ensures double(temp).Some? && i + 1 < n ==>
              d.embed(double(temp).value) == Multiple(d.plus, d.embed(p), Pow2(i + 1))
  {
    assert DoublesAt(d, double, temp, i + 1 < n);
    MultipleAdd(d.plus, d.embed(p), Pow2(i), Pow2(i));
  }

  ghost predicate Means<T, G>(d: Reading<T, G>, neutral: Option<T>, p: T, n: nat, s: nat, o: Outcome<T>) {
    && (o.Panicked? <==> !Reaches(d, d.embed(p), s, n))
    && (o.Failed? <==> Reaches(d, d.embed(p), s, n) && s == 0 && neutral.None?)
    && (o.Done? ==> IsSum(d, neutral, p, s, Some(o.point)))
  }

  /** The sum of the lower bits and the current doubling, before bit `i` is read. */
  ghost predicate HoldsAt<T, G>(d: Reading<T, G>, neutral: Option<T>, p: T, n: nat, s: nat, i: nat,
                                result: Option<T>, temp: T)
  {
    && Reaches(d, d.embed(p), s, i)
    && IsSum(d, neutral, p, Low(s, i), result)
    && (i < n ==> d.embed(temp) == Multiple(d.plus, d.embed(p), Pow2(i)))
  }

  lemma StepMeans<T(!new), G(!new)>(
      d: Reading<T, G>, add: (T, T) -> Option<T>, double: T -> Option<T>, neutral: Option<T>, p: T, n: nat, s: nat,
      i: nat, result: Option<T>, temp: T)
    requires i < n && RightFor(d, add, double, p, n, s) && IsNeutral(d, add, neutral)
    requires HoldsAt(d, neutral, p, n, s, i, result, temp)
    ensures var next, doubled := Joined(add, result, temp, BitAt(s, i)), double(temp);
            && (next.None? || doubled.None? <==> StepPanics(d, d.embed(p), s, i))
            && (next.Some? && doubled.Some? ==> HoldsAt(d, neutral, p, n, s, i + 1, next.value, doubled.value))
  {
    if BitAt(s, i) {
      JoinedMeans(d, add, neutral, p, Low(s, i), Pow2(i), result, temp);
    }
    if !SumPanics(d, d.embed(p), s, i) {
      DoublingMeans(d, double, p, n, i, temp);
    }
  }

  lemma AccumulateStep<T>(add: (T, T) -> Option<T>, double: T -> Option<T>, result: Option<T>, temp: T, v: nat, n: nat)
    requires n >= 1
    ensures var next, doubled := Joined(add, result, temp, v % 2 == 1), double(temp);
            Accumulate(add, double, result, temp, BitsOf(v, n)) ==
            if next.None? || doubled.None? then Panicked
            else Accumulate(add, double, next.value, doubled.value, BitsOf(v / 2, n - 1))
  {
    assert BitsOf(v, n)[1..] == BitsOf(v / 2, n - 1);
  }

  /** Reading bit `i` panics as predicted or keeps the invariant. */
  ghost predicate StepFits<T>(add: (T, T) -> Option<T>, double: T -> Option<T>, s: nat,
                              holds: (nat, Option<T>, T) -> bool, panics: nat -> bool, i: nat,
                              result: Option<T>, temp: T)
  {
    var next, doubled := Joined(add, result, temp, BitAt(s, i)), double(temp);
    && (next.None? || doubled.None? <==> panics(i))
    && (next.Some? && doubled.Some? ==> holds(i + 1, next.value, doubled.value))
  }

  /** An invariant that every step keeps holds at the end, unless some step panics. */
  lemma {:induction false} AccumulateRuns<T(!new)>(
      add: (T, T) -> Option<T>, double: T -> Option<T>, s: nat, n: nat, holds: (nat, Option<T>, T) -> bool,
      panics: nat -> bool, i: nat, result: Option<T>, temp: T)
    returns (last: Option<T>, end: T)
    requires i <= n && holds(i, result, temp)
    requires forall j: nat, r, t :: j < n && holds(j, r, t) ==> StepFits(add, double, s, holds, panics, j, r, t)
    ensures var o := Accumulate(add, double, result, temp, BitsOf(High(s, i), n - i));
            if o.Panicked? then exists j: nat :: j < n && panics(j)
            else holds(n, last, end) && o == if last.None? then Failed else Done(last.value)
    decreases n - i
  {
    last, end := result, temp;
    if i < n {
      assert StepFits(add, double, s, holds, panics, i, result, temp);
      AccumulateStep(add, double, result, temp, High(s, i), n - i);
      if !panics(i) {
        var next, doubled := Joined(add, result, temp, BitAt(s, i)), double(temp);
        last, end := AccumulateRuns(add, double, s, n, holds, panics, i + 1, next.value, doubled.value);
      }
    }
  }

  lemma WholeLow(s: nat, n: nat)
    requires s < Pow2(n)
    ensures Low(s, n) == s
  {
    LowIsRemainder(s, n);
    ModSmall(s, Pow2(n));
  }

  lemma StartHolds<T, G>(d: Reading<T, G>, neutral: Option<T>, p: T, n: nat, s: nat)
    ensures HoldsAt(d, neutral, p, n, s, 0, neutral, p)
  {
    assert Low(s, 0) == 0 && Pow2(0) == 1;
  }

  lemma EndMeans<T, G>(d: Reading<T, G>, neutral: Option<T>, p: T, n: nat, s: nat, last: Option<T>, end: T)
    requires s < Pow2(n) && HoldsAt(d, neutral, p, n, s, n, last, end)
    ensures Means(d, neutral, p, n, s, if last.None? then Failed else Done(last.value))
  {
    WholeLow(s, n);
  }

  lemma AccumulateMeans<T(!new), G(!new)>(d: Reading<T, G>, add: (T, T) -> Option<T>, double: T -> Option<T>,
                                          neutral: Option<T>, n: nat, p: T, s: nat)
    requires s < Pow2(n) && RightFor(d, add, double, p, n, s) && IsNeutral(d, add, neutral)
    ensures Means(d, neutral, p, n, s, Accumulate(add, double, neutral, p, BitsOf(s, n)))
  {
    var holds := (i: nat, r, t) => HoldsAt(d, neutral, p, n, s, i, r, t);
    var panics := (i: nat) => StepPanics(d, d.embed(p), s, i);
    forall i: nat, r, t | i < n && holds(i, r, t)
      ensures StepFits(add, double, s, holds, panics, i, r, t)
    {
      StepMeans(d, add, double, neutral, p, n, s, i, r, t);
    }
    StartHolds(d, neutral, p, n, s);
    var last, end := AccumulateRuns(add, double, s, n, holds, panics, 0, neutral, p);
    if !Accumulate(add, double, neutral, p, BitsOf(s, n)).Panicked? {
      EndMeans(d, neutral, p, n, s, last, end);
    }
  }

  /**
   A product panics exactly when one of the sums or doublings it meets is undefined, else fails
   exactly when the cut scalar is zero and there is no neutral point, and else is the sum of that
   many copies of the point.
   */
  lemma ProductMeans<T(!new), G(!new)>(d: Reading<T, G>, add: (T, T) -> Option<T>, double: T -> Option<T>,
                                       neutral: Option<T>, n: nat, p: T, scalar: nat)
    requires RightFor(d, add, double, p, n, scalar % Pow2(n)) && IsNeutral(d, add, neutral)
    ensures Means(d, neutral, p, n, scalar % Pow2(n), Product(add, double, neutral, n, p, scalar))
  {
    AccumulateMeans(d, add, double, neutral, n, p, scalar % Pow2(n));
  }

  /** If only equal elements cannot be added and the first 2^n multiples differ, no product panics. */
  lemma DistinctMultiplesSuffice<T, G(!new)>(d: Reading<T, G>, q: G, n: nat, s: nat)
    requires forall x, y :: d.undefined(x, y) ==> x == y
    requires forall i: nat :: i < n ==> !d.undoubled(Multiple(d.plus, q, Pow2(i)))
    requires forall a: nat, b: nat :: 1 <= a < b < Pow2(n) ==> Multiple(d.plus, q, a) != Multiple(d.plus, q, b)
    ensures Reaches(d, q, s, n)
  {
    forall i: nat | i < n
      ensures !StepPanics(d, q, s, i)
    {
      NextPower(n, i);
      LowHigh(s, i);
    }
  }

  /** The loop's next doubling stays within the table of bits. */
  lemma NextPower(n: nat, i: nat)
    requires i < n
    ensures 2 * Pow2(i) == Pow2(i + 1) <= Pow2(n)
  {
    Pow2Grows(i + 1, n - i - 1);
  }
}
