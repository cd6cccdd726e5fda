/** The Frobenius maps at the elements where their order is decided, by arithmetic on coefficients. */
module FrobeniusImages {
  import opened Algebra
  import opened Septic
  import opened SepticArith
  import opened FrobeniusTables
  import opened SepticContext

  lemma SecondTableTerm1(S: Ring<E>)
    requires Multiplies(S) && SumsCoefficients(S)
    ensures S.add(Septic(1272123317, 0, 0, 0, 0, 0, 0), S.mul(B(1950759909), ZPowP(1))) ==
            Septic(1649482506, 1003159306, 114595708, 1523148499, 1072637114, 1130785943, 1155347580)
  {
    Product(S, 1950759909, 0, 0, 0, 0, 0, 0,
            1272123317, 1950759909, 1879852731, 746569225, 180350946, 1600835585, 333893434,
            377359189, 1003159306, 114595708, 1523148499, 1072637114, 1130785943, 1155347580);
    SumIs(S, 1272123317, 0, 0, 0, 0, 0, 0,
          377359189, 1003159306, 114595708, 1523148499, 1072637114, 1130785943, 1155347580,
          1649482506, 1003159306, 114595708, 1523148499, 1072637114, 1130785943, 1155347580);
  }

  lemma SecondTableTerm2(S: Ring<E>)
    requires Multiplies(S) && SumsCoefficients(S)
    ensures S.add(Septic(1649482506, 1003159306, 114595708, 1523148499, 1072637114, 1130785943, 1155347580),
                  S.mul(B(1879852731), ZPowP(2))) ==
            Septic(1728303688, 789048386, 358936377, 168084013, 1353908352, 1901516824, 2071675535)
  {
    Product(S, 1879852731, 0, 0, 0, 0, 0, 0,
            129050189, 1749509219, 983995729, 711096547, 1505254548, 639452798, 68186395,
            78821182, 1916595513, 244340669, 775641947, 281271238, 770730881, 916327955);
    SumIs(S, 1649482506, 1003159306, 114595708, 1523148499, 1072637114, 1130785943, 1155347580,
          78821182, 1916595513, 244340669, 775641947, 281271238, 770730881, 916327955,
          1728303688, 789048386, 358936377, 168084013, 1353908352, 1901516824, 2071675535);
  }

  lemma SecondTableTerm3(S: Ring<E>)
    requires Multiplies(S) && SumsCoefficients(S)
    ensures S.add(Septic(1728303688, 789048386, 358936377, 168084013, 1353908352, 1901516824, 2071675535),
                  S.mul(B(746569225), ZPowP(3))) ==
            Septic(527220547, 218307908, 1342920875, 1171651823, 151732992, 859593147, 763174729)
  {
    Product(S, 746569225, 0, 0, 0, 0, 0, 0,
            1911662442, 1095215454, 1794102427, 1173566779, 140526665, 110899104, 1387282150,
            929623292, 1559965955, 983984498, 1003567810, 928531073, 1088782756, 822205627);
    SumIs(S, 1728303688, 789048386, 358936377, 168084013, 1353908352, 1901516824, 2071675535,
          929623292, 1559965955, 983984498, 1003567810, 928531073, 1088782756, 822205627,
          527220547, 218307908, 1342920875, 1171651823, 151732992, 859593147, 763174729);
  }

  lemma SecondTableTerm4(S: Ring<E>)
    requires Multiplies(S) && SumsCoefficients(S)
    ensures S.add(Septic(527220547, 218307908, 1342920875, 1171651823, 151732992, 859593147, 763174729),
                  S.mul(B(180350946), ZPowP(4))) ==
            Septic(1063440130, 393906201, 1143185586, 221293935, 65891085, 1627724549, 909762630)
  {
    Product(S, 180350946, 0, 0, 0, 0, 0, 0,
            1366416596, 1212861, 2104391040, 1447859676, 308944373, 106444152, 1362577042,
            536219583, 175598293, 1930971144, 1180348545, 2044864526, 768131402, 146587901);
    SumIs(S, 527220547, 218307908, 1342920875, 1171651823, 151732992, 859593147, 763174729,
          536219583, 175598293, 1930971144, 1180348545, 2044864526, 768131402, 146587901,
          1063440130, 393906201, 1143185586, 221293935, 65891085, 1627724549, 909762630);
  }

  lemma SecondTableTerm5(S: Ring<E>)
    requires Multiplies(S) && SumsCoefficients(S)
    ensures S.add(Septic(1063440130, 393906201, 1143185586, 221293935, 65891085, 1627724549, 909762630),
                  S.mul(B(1600835585), ZPowP(5))) ==
            Septic(448398747, 1522343738, 629632899, 996697410, 1136152826, 387923871, 557082492)
  {
    Product(S, 1600835585, 0, 0, 0, 0, 0, 0,
            1411781189, 1580508159, 1332301780, 1528790701, 380217034, 1752756730, 989817517,
            1515665050, 1128437537, 1617153746, 775403475, 1070261741, 890905755, 1778026295);
    SumIs(S, 1063440130, 393906201, 1143185586, 221293935, 65891085, 1627724549, 909762630,
          1515665050, 1128437537, 1617153746, 775403475, 1070261741, 890905755, 1778026295,
          448398747, 1522343738, 629632899, 996697410, 1136152826, 387923871, 557082492);
  }

  lemma SecondTableTerm6(S: Ring<E>)
    requires Multiplies(S) && SumsCoefficients(S)
    ensures S.add(Septic(448398747, 1522343738, 629632899, 996697410, 1136152826, 387923871, 557082492),
                  S.mul(B(333893434), ZPowP(6))) ==
            Septic(1330073564, 1724372201, 942213154, 258987814, 1836986639, 566030553, 2086945921)
  {
    Product(S, 333893434, 0, 0, 0, 0, 0, 0,
            37669840, 439102875, 410223214, 964813232, 1250258104, 877333757, 222095778,
            881674817, 202028463, 312580255, 1392996837, 700833813, 178106682, 1529863429);
    SumIs(S, 448398747, 1522343738, 629632899, 996697410, 1136152826, 387923871, 557082492,
          881674817, 202028463, 312580255, 1392996837, 700833813, 178106682, 1529863429,
          1330073564, 1724372201, 942213154, 258987814, 1836986639, 566030553, 2086945921);
  }

  /** The second table starts at the Frobenius image of the first. */
  lemma SecondTable(k: Arith)
    requires Koala(k)
    ensures k.phi(ZPowP(1)) == ZPowP2(1)
  {
    assert SumsAt(k, ZPowP(1));
    SecondTableTerm1(k.S);
    SecondTableTerm2(k.S);
    SecondTableTerm3(k.S);
    SecondTableTerm4(k.S);
    SecondTableTerm5(k.S);
    SecondTableTerm6(k.S);
  }

  lemma FourthImageTerm1(S: Ring<E>)
    requires Multiplies(S) && SumsCoefficients(S)
    ensures S.add(Septic(1330073564, 0, 0, 0, 0, 0, 0), S.mul(B(1724372201), ZPowP2(1))) ==
            Septic(892093668, 1981983911, 84887734, 1795298348, 1166498254, 936120841, 1117306152)
  {
    Product(S, 1724372201, 0, 0, 0, 0, 0, 0,
            1330073564, 1724372201, 942213154, 258987814, 1836986639, 566030553, 2086945921,
            1692726537, 1981983911, 84887734, 1795298348, 1166498254, 936120841, 1117306152);
    SumIs(S, 1330073564, 0, 0, 0, 0, 0, 0,
          1692726537, 1981983911, 84887734, 1795298348, 1166498254, 936120841, 1117306152,
          892093668, 1981983911, 84887734, 1795298348, 1166498254, 936120841, 1117306152);
  }

  lemma FourthImageTerm2(S: Ring<E>)
    requires Multiplies(S) && SumsCoefficients(S)
    ensures S.add(Septic(892093668, 1981983911, 84887734, 1795298348, 1166498254, 936120841, 1117306152),
                  S.mul(B(942213154), ZPowP2(2))) ==
            Septic(171370527, 1904886286, 225881566, 2057135394, 663968777, 1172862631, 332234157)
  {
    Product(S, 942213154, 0, 0, 0, 0, 0, 0,
            473977877, 99096011, 1919717963, 733784355, 1167998744, 19619652, 1354518805,
            1409983292, 2053608808, 140993832, 261837046, 1628176956, 236741790, 1345634438);
    SumIs(S, 892093668, 1981983911, 84887734, 1795298348, 1166498254, 936120841, 1117306152,
          1409983292, 2053608808, 140993832, 261837046, 1628176956, 236741790, 1345634438,
          171370527, 1904886286, 225881566, 2057135394, 663968777, 1172862631, 332234157);
  }

  lemma FourthImageTerm3(S: Ring<E>)
    requires Multiplies(S) && SumsCoefficients(S)
    ensures S.add(Septic(171370527, 1904886286, 225881566, 2057135394, 663968777, 1172862631, 332234157),
                  S.mul(B(258987814), ZPowP2(3))) ==
            Septic(350126622, 1802540500, 1897006913, 804553162, 772217278, 1080412976, 2038306592)
  {
    Product(S, 258987814, 0, 0, 0, 0, 0, 0,
            1040563478, 1866766699, 1875293643, 846885082, 1921678452, 2127718474, 1489297699,
            178756095, 2028360647, 1671125347, 878124201, 108248501, 2038256778, 1706072435);
    SumIs(S, 171370527, 1904886286, 225881566, 2057135394, 663968777, 1172862631, 332234157,
          178756095, 2028360647, 1671125347, 878124201, 108248501, 2038256778, 1706072435,
          350126622, 1802540500, 1897006913, 804553162, 772217278, 1080412976, 2038306592);
  }

  lemma FourthImageTerm4(S: Ring<E>)
    requires Multiplies(S) && SumsCoefficients(S)
    ensures S.add(Septic(350126622, 1802540500, 1897006913, 804553162, 772217278, 1080412976, 2038306592),
                  S.mul(B(1836986639), ZPowP2(4))) ==
            Septic(647332018, 673111320, 1943874105, 414731251, 580045456, 1339310865, 28765442)
  {
    Product(S, 1836986639, 0, 0, 0, 0, 0, 0,
            1350284585, 1583164394, 512913106, 1818487640, 2116891899, 318922921, 1013732863,
            297205396, 1001277253, 46867192, 1740884522, 1938534611, 258897889, 121165283);
    SumIs(S, 350126622, 1802540500, 1897006913, 804553162, 772217278, 1080412976, 2038306592,
          297205396, 1001277253, 46867192, 1740884522, 1938534611, 258897889, 121165283,
          647332018, 673111320, 1943874105, 414731251, 580045456, 1339310865, 28765442);
  }

  lemma FourthImageTerm5(S: Ring<E>)
    requires Multiplies(S) && SumsCoefficients(S)
    ensures S.add(Septic(647332018, 673111320, 1943874105, 414731251, 580045456, 1339310865, 28765442),
                  S.mul(B(566030553), ZPowP2(5))) ==
            Septic(1059437963, 1357606484, 929873589, 1034795366, 1752041958, 1783471941, 460364917)
  {
    Product(S, 566030553, 0, 0, 0, 0, 0, 0,
            887772098, 1971095075, 843183752, 711838602, 1717807390, 521017530, 1548716569,
            412105945, 684495164, 1116705917, 620064115, 1171996502, 444161076, 431599475);
    SumIs(S, 647332018, 673111320, 1943874105, 414731251, 580045456, 1339310865, 28765442,
          412105945, 684495164, 1116705917, 620064115, 1171996502, 444161076, 431599475,
          1059437963, 1357606484, 929873589, 1034795366, 1752041958, 1783471941, 460364917);
  }

  lemma FourthImageTerm6(S: Ring<E>)
    requires Multiplies(S) && SumsCoefficients(S)
    ensures S.add(Septic(1059437963, 1357606484, 929873589, 1034795366, 1752041958, 1783471941, 460364917),
                  S.mul(B(2086945921), ZPowP2(6))) ==
            Septic(1407335172, 651021059, 1283028566, 1468739027, 372470499, 1726522429, 873173944)
  {
    Product(S, 2086945921, 0, 0, 0, 0, 0, 0,
            372606377, 357514301, 335089633, 330400379, 1545190367, 1813349020, 1393941056,
            347897209, 1424121008, 353154977, 433943661, 751134974, 2073756921, 412809027);
    SumIs(S, 1059437963, 1357606484, 929873589, 1034795366, 1752041958, 1783471941, 460364917,
          347897209, 1424121008, 353154977, 433943661, 751134974, 2073756921, 412809027,
          1407335172, 651021059, 1283028566, 1468739027, 372470499, 1726522429, 873173944);
  }

  /** z after four applications. */
  lemma FourthImage(k: Arith)
    requires Koala(k)
    ensures k.phi2(ZPowP2(1)) == Septic(1407335172, 651021059, 1283028566, 1468739027, 372470499, 1726522429, 873173944)
  {
    assert SumsAt(k, ZPowP2(1));
    FourthImageTerm1(k.S);
    FourthImageTerm2(k.S);
    FourthImageTerm3(k.S);
    FourthImageTerm4(k.S);
    FourthImageTerm5(k.S);
    FourthImageTerm6(k.S);
  }

  lemma SixthImageTerm1(S: Ring<E>)
    requires Multiplies(S) && SumsCoefficients(S)
    ensures S.add(Septic(1407335172, 0, 0, 0, 0, 0, 0), S.mul(B(651021059), ZPowP2(1))) ==
            Septic(553552584, 609870006, 2013217694, 681653008, 1609568008, 1151922696, 332026562)
  {
    Product(S, 651021059, 0, 0, 0, 0, 0, 0,
            1330073564, 1724372201, 942213154, 258987814, 1836986639, 566030553, 2086945921,
            1276923845, 609870006, 2013217694, 681653008, 1609568008, 1151922696, 332026562);
    SumIs(S, 1407335172, 0, 0, 0, 0, 0, 0,
          1276923845, 609870006, 2013217694, 681653008, 1609568008, 1151922696, 332026562,
          553552584, 609870006, 2013217694, 681653008, 1609568008, 1151922696, 332026562);
  }

  lemma SixthImageTerm2(S: Ring<E>)
    requires Multiplies(S) && SumsCoefficients(S)
    ensures S.add(Septic(553552584, 609870006, 2013217694, 681653008, 1609568008, 1151922696, 332026562),
                  S.mul(B(1283028566), ZPowP2(2))) ==
            Septic(373715182, 2076262420, 309535190, 573371707, 563770355, 227804592, 2059179444)
  {
    Product(S, 1283028566, 0, 0, 0, 0, 0, 0,
            473977877, 99096011, 1919717963, 733784355, 1167998744, 19619652, 1354518805,
            1950869031, 1466392414, 427023929, 2022425132, 1084908780, 1206588329, 1727152882);
    SumIs(S, 553552584, 609870006, 2013217694, 681653008, 1609568008, 1151922696, 332026562,
          1950869031, 1466392414, 427023929, 2022425132, 1084908780, 1206588329, 1727152882,
          373715182, 2076262420, 309535190, 573371707, 563770355, 227804592, 2059179444);
  }

  lemma SixthImageTerm3(S: Ring<E>)
    requires Multiplies(S) && SumsCoefficients(S)
    ensures S.add(Septic(373715182, 2076262420, 309535190, 573371707, 563770355, 227804592, 2059179444),
                  S.mul(B(1468739027), ZPowP2(3))) ==
            Septic(1450135403, 1034518437, 1213985893, 528521158, 916903530, 1175927912, 811963523)
  {
    Product(S, 1468739027, 0, 0, 0, 0, 0, 0,
            1040563478, 1866766699, 1875293643, 846885082, 1921678452, 2127718474, 1489297699,
            1076420221, 1088962450, 904450703, 2085855884, 353133175, 948123320, 883490512);
    SumIs(S, 373715182, 2076262420, 309535190, 573371707, 563770355, 227804592, 2059179444,
          1076420221, 1088962450, 904450703, 2085855884, 353133175, 948123320, 883490512,
          1450135403, 1034518437, 1213985893, 528521158, 916903530, 1175927912, 811963523);
  }

  lemma SixthImageTerm4(S: Ring<E>)
    requires Multiplies(S) && SumsCoefficients(S)
    ensures S.add(Septic(1450135403, 1034518437, 1213985893, 528521158, 916903530, 1175927912, 811963523),
                  S.mul(B(372470499), ZPowP2(4))) ==
            Septic(82211995, 1861530855, 1393268604, 1803342845, 1430715754, 2006352448, 1107188578)
  {
    Product(S, 372470499, 0, 0, 0, 0, 0, 0,
            1350284585, 1583164394, 512913106, 1818487640, 2116891899, 318922921, 1013732863,
            762783025, 827012418, 179282711, 1274821687, 513812224, 830424536, 295225055);
    SumIs(S, 1450135403, 1034518437, 1213985893, 528521158, 916903530, 1175927912, 811963523,
          762783025, 827012418, 179282711, 1274821687, 513812224, 830424536, 295225055,
          82211995, 1861530855, 1393268604, 1803342845, 1430715754, 2006352448, 1107188578);
  }

  lemma SixthImageTerm5(S: Ring<E>)
    requires Multiplies(S) && SumsCoefficients(S)
    ensures S.add(Septic(82211995, 1861530855, 1393268604, 1803342845, 1430715754, 2006352448, 1107188578),
                  S.mul(B(1726522429), ZPowP2(5))) ==
            Septic(1934887209, 1306004, 926489262, 230251902, 563482598, 1831832950, 860194091)
  {
    Product(S, 1726522429, 0, 0, 0, 0, 0, 0,
            887772098, 1971095075, 843183752, 711838602, 1717807390, 521017530, 1548716569,
            1852675214, 270481582, 1663927091, 557615490, 1263473277, 1956186935, 1883711946);
    SumIs(S, 82211995, 1861530855, 1393268604, 1803342845, 1430715754, 2006352448, 1107188578,
          1852675214, 270481582, 1663927091, 557615490, 1263473277, 1956186935, 1883711946,
          1934887209, 1306004, 926489262, 230251902, 563482598, 1831832950, 860194091);
  }

  lemma SixthImageTerm6(S: Ring<E>)
    requires Multiplies(S) && SumsCoefficients(S)
    ensures S.add(Septic(1934887209, 1306004, 926489262, 230251902, 563482598, 1831832950, 860194091),
                  S.mul(B(873173944), ZPowP2(6))) ==
            Septic(531968304, 1266789219, 265706439, 1098038743, 818733009, 1863182270, 503358915)
  {
    Product(S, 873173944, 0, 0, 0, 0, 0, 0,
            372606377, 357514301, 335089633, 330400379, 1545190367, 1813349020, 1393941056,
            727787528, 1265483215, 1469923610, 867786841, 255250411, 31349320, 1773871257);
    SumIs(S, 1934887209, 1306004, 926489262, 230251902, 563482598, 1831832950, 860194091,
          727787528, 1265483215, 1469923610, 867786841, 255250411, 31349320, 1773871257,
          531968304, 1266789219, 265706439, 1098038743, 818733009, 1863182270, 503358915);
  }

  /** z after six applications. */
  lemma SixthImage(k: Arith)
    requires Koala(k)
    ensures k.phi2(Septic(1407335172, 651021059, 1283028566, 1468739027, 372470499, 1726522429, 873173944)) ==
            Septic(531968304, 1266789219, 265706439, 1098038743, 818733009, 1863182270, 503358915)
  {
    assert SumsAt(k, Septic(1407335172, 651021059, 1283028566, 1468739027, 372470499, 1726522429, 873173944));
    SixthImageTerm1(k.S);
    SixthImageTerm2(k.S);
    SixthImageTerm3(k.S);
    SixthImageTerm4(k.S);
    SixthImageTerm5(k.S);
    SixthImageTerm6(k.S);
  }

  lemma LastImageTerm1(S: Ring<E>)
    requires Multiplies(S) && SumsCoefficients(S)
    ensures S.add(Septic(531968304, 0, 0, 0, 0, 0, 0), S.mul(B(1266789219), ZPowP(1))) ==
            Septic(1794279030, 1483664536, 1755009947, 778742049, 368285630, 1392862898, 219336862)
  {
    Product(S, 1266789219, 0, 0, 0, 0, 0, 0,
            1272123317, 1950759909, 1879852731, 746569225, 180350946, 1600835585, 333893434,
            1262310726, 1483664536, 1755009947, 778742049, 368285630, 1392862898, 219336862);
    SumIs(S, 531968304, 0, 0, 0, 0, 0, 0,
          1262310726, 1483664536, 1755009947, 778742049, 368285630, 1392862898, 219336862,
          1794279030, 1483664536, 1755009947, 778742049, 368285630, 1392862898, 219336862);
  }

  lemma LastImageTerm2(S: Ring<E>)
    requires Multiplies(S) && SumsCoefficients(S)
    ensures S.add(Septic(1794279030, 1483664536, 1755009947, 778742049, 368285630, 1392862898, 219336862),
                  S.mul(B(265706439), ZPowP(2))) ==
            Septic(816651269, 1532896421, 227725765, 1449671479, 1102311146, 929642643, 1428133493)
  {
    Product(S, 265706439, 0, 0, 0, 0, 0, 0,
            129050189, 1749509219, 983995729, 711096547, 1505254548, 639452798, 68186395,
            1153078672, 49231885, 603422251, 670929430, 734025516, 1667486178, 1208796631);
    SumIs(S, 1794279030, 1483664536, 1755009947, 778742049, 368285630, 1392862898, 219336862,
          1153078672, 49231885, 603422251, 670929430, 734025516, 1667486178, 1208796631,
          816651269, 1532896421, 227725765, 1449671479, 1102311146, 929642643, 1428133493);
  }

  lemma LastImageTerm3(S: Ring<E>)
    requires Multiplies(S) && SumsCoefficients(S)
    ensures S.add(Septic(816651269, 1532896421, 227725765, 1449671479, 1102311146, 929642643, 1428133493),
                  S.mul(B(1098038743), ZPowP(3))) ==
            Septic(1505078329, 1188009871, 585036045, 758132934, 774383189, 395725505, 1633902177)
  {
    Product(S, 1098038743, 0, 0, 0, 0, 0, 0,
            1911662442, 1095215454, 1794102427, 1173566779, 140526665, 110899104, 1387282150,
            688427060, 1785819883, 357310280, 1439167888, 1802778476, 1596789295, 205768684);
    SumIs(S, 816651269, 1532896421, 227725765, 1449671479, 1102311146, 929642643, 1428133493,
          688427060, 1785819883, 357310280, 1439167888, 1802778476, 1596789295, 205768684,
          1505078329, 1188009871, 585036045, 758132934, 774383189, 395725505, 1633902177);
  }

  lemma LastImageTerm4(S: Ring<E>)
    requires Multiplies(S) && SumsCoefficients(S)
    ensures S.add(Septic(1505078329, 1188009871, 585036045, 758132934, 774383189, 395725505, 1633902177),
                  S.mul(B(818733009), ZPowP(4))) ==
            Septic(497810256, 1183058269, 1261750774, 1617428964, 1410046709, 660430279, 723519163)
  {
    Product(S, 818733009, 0, 0, 0, 0, 0, 0,
            1366416596, 1212861, 2104391040, 1447859676, 308944373, 106444152, 1362577042,
            1123438360, 2125754831, 676714729, 859296030, 635663520, 264704774, 1220323419);
    SumIs(S, 1505078329, 1188009871, 585036045, 758132934, 774383189, 395725505, 1633902177,
          1123438360, 2125754831, 676714729, 859296030, 635663520, 264704774, 1220323419,
          497810256, 1183058269, 1261750774, 1617428964, 1410046709, 660430279, 723519163);
  }

  lemma LastImageTerm5(S: Ring<E>)
    requires Multiplies(S) && SumsCoefficients(S)
    ensures S.add(Septic(497810256, 1183058269, 1261750774, 1617428964, 1410046709, 660430279, 723519163),
                  S.mul(B(1863182270), ZPowP(5))) ==
            Septic(794131154, 690173498, 1387888626, 1009815069, 182875020, 1305516589, 371538099)
  {
    Product(S, 1863182270, 0, 0, 0, 0, 0, 0,
            1411781189, 1580508159, 1332301780, 1528790701, 380217034, 1752756730, 989817517,
            296320898, 1637821662, 126137852, 1523092538, 903534744, 645086310, 1778725369);
    SumIs(S, 497810256, 1183058269, 1261750774, 1617428964, 1410046709, 660430279, 723519163,
          296320898, 1637821662, 126137852, 1523092538, 903534744, 645086310, 1778725369,
          794131154, 690173498, 1387888626, 1009815069, 182875020, 1305516589, 371538099);
  }

  lemma LastImageTerm6(S: Ring<E>)
    requires Multiplies(S) && SumsCoefficients(S)
    ensures S.add(Septic(794131154, 690173498, 1387888626, 1009815069, 182875020, 1305516589, 371538099),
                  S.mul(B(503358915), ZPowP(6))) ==
            Septic(0, 1, 0, 0, 0, 0, 0)
  {
    Product(S, 503358915, 0, 0, 0, 0, 0, 0,
            37669840, 439102875, 410223214, 964813232, 1250258104, 877333757, 222095778,
            1336575279, 1440532936, 742817807, 1120891364, 1947831413, 825189844, 1759168334);
    SumIs(S, 794131154, 690173498, 1387888626, 1009815069, 182875020, 1305516589, 371538099,
          1336575279, 1440532936, 742817807, 1120891364, 1947831413, 825189844, 1759168334,
          0, 1, 0, 0, 0, 0, 0);
  }

  /** The seventh application brings z back. */
  lemma LastImage(k: Arith)
    requires Koala(k)
    ensures k.phi(Septic(531968304, 1266789219, 265706439, 1098038743, 818733009, 1863182270, 503358915)) == Z
  {
    assert SumsAt(k, Septic(531968304, 1266789219, 265706439, 1098038743, 818733009, 1863182270, 503358915));
    LastImageTerm1(k.S);
    LastImageTerm2(k.S);
    LastImageTerm3(k.S);
    LastImageTerm4(k.S);
    LastImageTerm5(k.S);
    LastImageTerm6(k.S);
  }

  /** Applying Frobenius seven times to z gives z back. */
  lemma SeventhImage(k: Arith)
    requires Koala(k)
    ensures k.phi(k.phi2(k.phi2(ZPowP2(1)))) == Z
  {
    FourthImage(k);
    SixthImage(k);
    LastImage(k);
  }
}
