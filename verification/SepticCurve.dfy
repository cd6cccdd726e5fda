/** The source's curve over the septic extension, its constant points and its digests. */
module SepticCurve {
  import opened Algebra
  import opened KoalaBear
  import opened Septic
  import opened SepticArith
  import opened SepticContext
  import opened SepticInverse
  import opened FieldAlgebra
  import opened Curve
  import opened Digest

  function InvOrZero(k: Arith, a: E): E {
    if PowR(k, a).c0 == 0 then k.S.zero else InvSeptic(k, a)
  }

  function SepticFieldOf(k: Arith): Field<E> {
    Field(k.S, a => InvOrZero(k, a))
  }

  /** `y^2 = x^3 + 45 x + 41 z^3`. */
  function SourceCurve(k: Arith): Curve<E> {
    Curve(SepticFieldOf(k), B(45), Septic(0, 0, 0, 41, 0, 0, 0))
  }

  /** The septic extension with the source's inversion is a field. */
  lemma SourceIsField(k: Arith)
    requires Koala(k)
    ensures Valid(SourceCurve(k))
  {
    forall a
      ensures InverseAt(SepticFieldOf(k), a)
    {
      InvCorrect(k, a);
    }
  }

  /** The zero digest. */
  function CumulativeSumStart(): Point<E> {
    Point(Septic(21053971, 90322736, 156256384, 23627556, 34171264, 126183783, 25645942),
          Septic(2020310104, 1513506566, 1843922297, 2003644209, 805967281, 1882435203, 1623804682))
  }

  /** The point digest sums start from. */
  function DigestSumStart(): Point<E> {
    Point(Septic(24322128, 134698632, 124949330, 121922369, 84248355, 107561600, 86325264),
          Septic(1095433104, 7540207, 1124564165, 2035506693, 11121645, 102781365, 398772161))
  }

  /** The padding point. */
  function WitnessDummy(): Point<E> {
    Point(Septic(57770625, 136856976, 72496438, 2651249, 55731748, 158816036, 118044313),
          Septic(1250555984, 1592495468, 656721246, 420301347, 2125819749, 819876460, 17687681))
  }

  lemma CumulativeSumStartCube(S: Ring<E>)
    requires Multiplies(S)
    ensures Cube(S, CumulativeSumStart().x) ==
            Septic(331415199, 2013743702, 1702025064, 1704568352, 745654777, 1788547206, 1580078011)
  {
    Product(S, 21053971, 90322736, 156256384, 23627556, 34171264, 126183783, 25645942,
            21053971, 90322736, 156256384, 23627556, 34171264, 126183783, 25645942,
            117897610, 227660724, 1877443178, 526671222, 1632263916, 258702224, 1938103395);
    Product(S, 117897610, 227660724, 1877443178, 526671222, 1632263916, 258702224, 1938103395,
            21053971, 90322736, 156256384, 23627556, 34171264, 126183783, 25645942,
            331415199, 2013743702, 1702025064, 1704568352, 745654777, 1788547206, 1580078011);
  }

  lemma CumulativeSumStartSquare(S: Ring<E>)
    requires Multiplies(S)
    ensures S.mul(CumulativeSumStart().y, CumulativeSumStart().y) ==
            Septic(1278843894, 1816853956, 210736612, 637101980, 152655224, 1074698142, 603438968)
  {
    Product(S, 2020310104, 1513506566, 1843922297, 2003644209, 805967281, 1882435203, 1623804682,
            2020310104, 1513506566, 1843922297, 2003644209, 805967281, 1882435203, 1623804682,
            1278843894, 1816853956, 210736612, 637101980, 152655224, 1074698142, 603438968);
  }

  lemma CumulativeSumStartMultiple(S: Ring<E>)
    requires Multiplies(S)
    ensures S.mul(CumulativeSumStart().x, B(45)) ==
            Septic(947428695, 1933816687, 639417981, 1063240020, 1537706880, 1416857369, 1154067390)
  {
    Product(S, 21053971, 90322736, 156256384, 23627556, 34171264, 126183783, 25645942,
            45, 0, 0, 0, 0, 0, 0,
            947428695, 1933816687, 639417981, 1063240020, 1537706880, 1416857369, 1154067390);
  }

  lemma CumulativeSumStartSum(S: Ring<E>)
    requires Multiplies(S) && SumsCoefficients(S)
    ensures S.mul(CumulativeSumStart().y, CumulativeSumStart().y) ==
            S.add(S.add(Cube(S, CumulativeSumStart().x), S.mul(CumulativeSumStart().x, B(45))),
              Septic(0, 0, 0, 41, 0, 0, 0))
  {
    CumulativeSumStartCube(S);
    CumulativeSumStartSquare(S);
    CumulativeSumStartMultiple(S);
    SumIs(S, 331415199, 2013743702, 1702025064, 1704568352, 745654777, 1788547206, 1580078011,
          947428695, 1933816687, 639417981, 1063240020, 1537706880, 1416857369, 1154067390,
          1278843894, 1816853956, 210736612, 637101939, 152655224, 1074698142, 603438968);
    SumIs(S, 1278843894, 1816853956, 210736612, 637101939, 152655224, 1074698142, 603438968,
          0, 0, 0, 41, 0, 0, 0,
          1278843894, 1816853956, 210736612, 637101980, 152655224, 1074698142, 603438968);
  }

  lemma DigestSumStartCube(S: Ring<E>)
    requires Multiplies(S)
    ensures Cube(S, DigestSumStart().x) ==
            Septic(2095011999, 640352152, 863215207, 1716890085, 371893445, 800138014, 1918598028)
  {
    Product(S, 24322128, 134698632, 124949330, 121922369, 84248355, 107561600, 86325264,
            24322128, 134698632, 124949330, 121922369, 84248355, 107561600, 86325264,
            790307522, 1298185214, 1419886444, 1210844372, 1795303279, 280418229, 1866327570);
    Product(S, 790307522, 1298185214, 1419886444, 1210844372, 1795303279, 280418229, 1866327570,
            24322128, 134698632, 124949330, 121922369, 84248355, 107561600, 86325264,
            2095011999, 640352152, 863215207, 1716890085, 371893445, 800138014, 1918598028);
  }

  lemma DigestSumStartSquare(S: Ring<E>)
    requires Multiplies(S)
    ensures S.mul(DigestSumStart().y, DigestSumStart().y) ==
            Septic(1058801326, 309671293, 93815758, 811277432, 2032362987, 1378997148, 1541822042)
  {
    Product(S, 1095433104, 7540207, 1124564165, 2035506693, 11121645, 102781365, 398772161,
            1095433104, 7540207, 1124564165, 2035506693, 11121645, 102781365, 398772161,
            1058801326, 309671293, 93815758, 811277432, 2032362987, 1378997148, 1541822042);
  }

  lemma DigestSumStartMultiple(S: Ring<E>)
    requires Multiplies(S)
    ensures S.mul(DigestSumStart().x, B(45)) ==
            Septic(1094495760, 1800025574, 1361306984, 1225093739, 1660469542, 578859134, 1753930447)
  {
    Product(S, 24322128, 134698632, 124949330, 121922369, 84248355, 107561600, 86325264,
            45, 0, 0, 0, 0, 0, 0,
            1094495760, 1800025574, 1361306984, 1225093739, 1660469542, 578859134, 1753930447);
  }

  lemma DigestSumStartSum(S: Ring<E>)
    requires Multiplies(S) && SumsCoefficients(S)
    ensures S.mul(DigestSumStart().y, DigestSumStart().y) ==
            S.add(S.add(Cube(S, DigestSumStart().x), S.mul(DigestSumStart().x, B(45))), Septic(0, 0, 0, 41, 0, 0, 0))
  {
    DigestSumStartCube(S);
    DigestSumStartSquare(S);
    DigestSumStartMultiple(S);
    SumIs(S, 2095011999, 640352152, 863215207, 1716890085, 371893445, 800138014, 1918598028,
          1094495760, 1800025574, 1361306984, 1225093739, 1660469542, 578859134, 1753930447,
          1058801326, 309671293, 93815758, 811277391, 2032362987, 1378997148, 1541822042);
    SumIs(S, 1058801326, 309671293, 93815758, 811277391, 2032362987, 1378997148, 1541822042,
          0, 0, 0, 41, 0, 0, 0,
          1058801326, 309671293, 93815758, 811277432, 2032362987, 1378997148, 1541822042);
  }

  lemma WitnessDummyCube(S: Ring<E>)
    requires Multiplies(S)
    ensures Cube(S, WitnessDummy().x) ==
            Septic(1736444344, 619929429, 169298851, 936913578, 1726397507, 794167045, 242587594)
  {
    Product(S, 57770625, 136856976, 72496438, 2651249, 55731748, 158816036, 118044313,
            57770625, 136856976, 72496438, 2651249, 55731748, 158816036, 118044313,
            248718291, 231209841, 1619701374, 1561377931, 1349633436, 604456808, 15000882);
    Product(S, 248718291, 231209841, 1619701374, 1561377931, 1349633436, 604456808, 15000882,
            57770625, 136856976, 72496438, 2651249, 55731748, 158816036, 118044313,
            1736444344, 619929429, 169298851, 936913578, 1726397507, 794167045, 242587594);
  }

  lemma WitnessDummySquare(S: Ring<E>)
    requires Multiplies(S)
    ensures S.mul(WitnessDummy().y, WitnessDummy().y) ==
            Septic(74709603, 386374050, 1300932128, 1056219824, 2103619734, 1548769366, 1293168813)
  {
    Product(S, 1250555984, 1592495468, 656721246, 420301347, 2125819749, 819876460, 17687681,
            1250555984, 1592495468, 656721246, 420301347, 2125819749, 819876460, 17687681,
            74709603, 386374050, 1300932128, 1056219824, 2103619734, 1548769366, 1293168813);
  }

  lemma WitnessDummyMultiple(S: Ring<E>)
    requires Multiplies(S)
    ensures S.mul(WitnessDummy().x, B(45)) ==
            Septic(468971692, 1897151054, 1131633277, 119306205, 377222227, 754602321, 1050581219)
  {
    Product(S, 57770625, 136856976, 72496438, 2651249, 55731748, 158816036, 118044313,
            45, 0, 0, 0, 0, 0, 0,
            468971692, 1897151054, 1131633277, 119306205, 377222227, 754602321, 1050581219);
  }

  lemma WitnessDummySum(S: Ring<E>)
    requires Multiplies(S) && SumsCoefficients(S)
    ensures S.mul(WitnessDummy().y, WitnessDummy().y) ==
            S.add(S.add(Cube(S, WitnessDummy().x), S.mul(WitnessDummy().x, B(45))), Septic(0, 0, 0, 41, 0, 0, 0))
  {
    WitnessDummyCube(S);
    WitnessDummySquare(S);
    WitnessDummyMultiple(S);
    SumIs(S, 1736444344, 619929429, 169298851, 936913578, 1726397507, 794167045, 242587594,
          468971692, 1897151054, 1131633277, 119306205, 377222227, 754602321, 1050581219,
          74709603, 386374050, 1300932128, 1056219783, 2103619734, 1548769366, 1293168813);
    SumIs(S, 74709603, 386374050, 1300932128, 1056219783, 2103619734, 1548769366, 1293168813,
          0, 0, 0, 41, 0, 0, 0,
          74709603, 386374050, 1300932128, 1056219824, 2103619734, 1548769366, 1293168813);
  }

  /** The three constant points lie on the curve. */
  lemma ConstantPoints(k: Arith)
    requires Koala(k)
    ensures SourceCurve(k).OnCurve(CumulativeSumStart())
    ensures SourceCurve(k).OnCurve(DigestSumStart())
    ensures SourceCurve(k).OnCurve(WitnessDummy())
  {
    CumulativeSumStartSum(k.S);
    DigestSumStartSum(k.S);
    WitnessDummySum(k.S);
  }

  function SourceSetting(k: Arith): Setting<E> {
    Setting(SourceCurve(k), CumulativeSumStart(), DigestSumStart())
  }

  /** The digest laws hold for the source's curve and constants, given that its addition is associative. */
  lemma SourceFits()
    requires Associative(SourceCurve(ArithOver(FpRing())))
    ensures var k := ArithOver(FpRing()); Fits(SourceSetting(k), CurveGroup(SourceCurve(k)))
  {
    SourceIsKoala();
    Assembled(ArithOver(FpRing()));
  }

  lemma Assembled(k: Arith)
    requires Koala(k) && Associative(SourceCurve(k))
    ensures Fits(SourceSetting(k), CurveGroup(SourceCurve(k)))
  {
    SourceIsField(k);
    ConstantPoints(k);
    SettingFits(SourceSetting(k));
  }
}
