/**
 The Frobenius tables of the septic extension and their certificates.

 The chains below evaluate z^P and products of table entries one multiplication at a time;
 every number is checked against integer arithmetic.
 */
module FrobeniusTables {
  import opened Algebra
  import opened KoalaBear
  import opened Septic
  import opened SepticArith

  const Z: Septic<Fp> := Septic(0, 1, 0, 0, 0, 0, 0)

  /** The tabulated value of z^(index * P). */
  function ZPowP(index: nat): Septic<Fp>
    requires index < 7
  {
    if index == 0 then Septic(1, 0, 0, 0, 0, 0, 0)
    else if index == 1 then Septic(1272123317, 1950759909, 1879852731, 746569225, 180350946, 1600835585, 333893434)
    else if index == 2 then Septic(129050189, 1749509219, 983995729, 711096547, 1505254548, 639452798, 68186395)
    else if index == 3 then Septic(1911662442, 1095215454, 1794102427, 1173566779, 140526665, 110899104, 1387282150)
    else if index == 4 then Septic(1366416596, 1212861, 2104391040, 1447859676, 308944373, 106444152, 1362577042)
    else if index == 5 then Septic(1411781189, 1580508159, 1332301780, 1528790701, 380217034, 1752756730, 989817517)
    else Septic(37669840, 439102875, 410223214, 964813232, 1250258104, 877333757, 222095778)
  }

  /** The tabulated value of z^(index * P^2). */
  function ZPowP2(index: nat): Septic<Fp>
    requires index < 7
  {
    if index == 0 then Septic(1, 0, 0, 0, 0, 0, 0)
    else if index == 1 then Septic(1330073564, 1724372201, 942213154, 258987814, 1836986639, 566030553, 2086945921)
    else if index == 2 then Septic(473977877, 99096011, 1919717963, 733784355, 1167998744, 19619652, 1354518805)
    else if index == 3 then Septic(1040563478, 1866766699, 1875293643, 846885082, 1921678452, 2127718474, 1489297699)
    else if index == 4 then Septic(1350284585, 1583164394, 512913106, 1818487640, 2116891899, 318922921, 1013732863)
    else if index == 5 then Septic(887772098, 1971095075, 843183752, 711838602, 1717807390, 521017530, 1548716569)
    else Septic(372606377, 357514301, 335089633, 330400379, 1545190367, 1813349020, 1393941056)
  }

  ghost predicate PowersAt(S: Ring<Septic<Fp>>, f: nat -> Septic<Fp>, m: nat, n: nat) {
    f(m + n) == S.mul(f(m), f(n))
  }

  /** `f(n)` is z^n. */
  ghost predicate PowersOfZ(S: Ring<Septic<Fp>>, f: nat -> Septic<Fp>) {
    f(1) == Z && forall m: nat, n: nat :: PowersAt(S, f, m, n)
  }

  lemma PowerSum(S: Ring<Septic<Fp>>, f: nat -> Septic<Fp>, m: nat, n: nat, k: nat)
    requires PowersOfZ(S, f) && k == m + n
    ensures f(k) == S.mul(f(m), f(n))
  {
    assert PowersAt(S, f, m, n);
  }

  lemma ZTo2To1(S: Ring<Septic<Fp>>, f: nat -> Septic<Fp>)
    requires PowersOfZ(S, f) && Multiplies(S)
    ensures f(2) == Septic(0, 0, 1, 0, 0, 0, 0)
  {
    assert f(1) == Z;
    PowerSum(S, f, 1, 1, 2);
    Product(S, 0, 1, 0, 0, 0, 0, 0,
            0, 1, 0, 0, 0, 0, 0,
            0, 0, 1, 0, 0, 0, 0);
  }

  lemma ZTo2To2(S: Ring<Septic<Fp>>, f: nat -> Septic<Fp>)
    requires PowersOfZ(S, f) && Multiplies(S)
    ensures f(4) == Septic(0, 0, 0, 0, 1, 0, 0)
  {
    ZTo2To1(S, f);
    PowerSum(S, f, 2, 2, 4);
    Product(S, 0, 0, 1, 0, 0, 0, 0,
            0, 0, 1, 0, 0, 0, 0,
            0, 0, 0, 0, 1, 0, 0);
  }

  lemma ZTo2To3(S: Ring<Septic<Fp>>, f: nat -> Septic<Fp>)
    requires PowersOfZ(S, f) && Multiplies(S)
    ensures f(8) == Septic(0, 5, 3, 0, 0, 0, 0)
  {
    ZTo2To2(S, f);
    PowerSum(S, f, 4, 4, 8);
    Product(S, 0, 0, 0, 0, 1, 0, 0,
            0, 0, 0, 0, 1, 0, 0,
            0, 5, 3, 0, 0, 0, 0);
  }

  lemma ZTo2To4(S: Ring<Septic<Fp>>, f: nat -> Septic<Fp>)
    requires PowersOfZ(S, f) && Multiplies(S)
    ensures f(16) == Septic(0, 0, 25, 30, 9, 0, 0)
  {
    ZTo2To3(S, f);
    PowerSum(S, f, 8, 8, 16);
    Product(S, 0, 5, 3, 0, 0, 0, 0,
            0, 5, 3, 0, 0, 0, 0,
            0, 0, 25, 30, 9, 0, 0);
  }

  lemma ZTo2To5(S: Ring<Septic<Fp>>, f: nat -> Septic<Fp>)
    requires PowersOfZ(S, f) && Multiplies(S)
    ensures f(32) == Septic(2700, 2025, 243, 0, 625, 1500, 1350)
  {
    ZTo2To4(S, f);
    PowerSum(S, f, 16, 16, 32);
    Product(S, 0, 0, 25, 30, 9, 0, 0,
            0, 0, 25, 30, 9, 0, 0,
            2700, 2025, 243, 0, 625, 1500, 1350);
  }

  lemma ZTo2To6(S: Ring<Septic<Fp>>, f: nat -> Septic<Fp>)
    requires PowersOfZ(S, f) && Multiplies(S)
    ensures f(64) == Septic(38272500, 34758125, 17928000, 26296650, 35496549, 31893750, 19136250)
  {
    ZTo2To5(S, f);
    PowerSum(S, f, 32, 32, 64);
    Product(S, 2700, 2025, 243, 0, 625, 1500, 1350,
            2700, 2025, 243, 0, 625, 1500, 1350,
            38272500, 34758125, 17928000, 26296650, 35496549, 31893750, 19136250);
  }

  lemma ZTo2To7(S: Ring<Septic<Fp>>, f: nat -> Septic<Fp>)
    requires PowersOfZ(S, f) && Multiplies(S)
    ensures f(128) == Septic(97347808, 1351940352, 1405578482, 882104503, 2040122186, 771762849, 1234783505)
  {
    ZTo2To6(S, f);
    PowerSum(S, f, 64, 64, 128);
    Product(S, 38272500, 34758125, 17928000, 26296650, 35496549, 31893750, 19136250,
            38272500, 34758125, 17928000, 26296650, 35496549, 31893750, 19136250,
            97347808, 1351940352, 1405578482, 882104503, 2040122186, 771762849, 1234783505);
  }

  lemma ZTo2To8(S: Ring<Septic<Fp>>, f: nat -> Septic<Fp>)
    requires PowersOfZ(S, f) && Multiplies(S)
    ensures f(256) == Septic(469006064, 1470975161, 1672587050, 2054392544, 1199118895, 428309241, 1450691481)
  {
    ZTo2To7(S, f);
    PowerSum(S, f, 128, 128, 256);
    Product(S, 97347808, 1351940352, 1405578482, 882104503, 2040122186, 771762849, 1234783505,
            97347808, 1351940352, 1405578482, 882104503, 2040122186, 771762849, 1234783505,
            469006064, 1470975161, 1672587050, 2054392544, 1199118895, 428309241, 1450691481);
  }

  lemma ZTo2To9(S: Ring<Septic<Fp>>, f: nat -> Septic<Fp>)
    requires PowersOfZ(S, f) && Multiplies(S)
    ensures f(512) == Septic(87389095, 1594609204, 812812659, 715473753, 1200363215, 1700902092, 1763141289)
  {
    ZTo2To8(S, f);
    PowerSum(S, f, 256, 256, 512);
    Product(S, 469006064, 1470975161, 1672587050, 2054392544, 1199118895, 428309241, 1450691481,
            469006064, 1470975161, 1672587050, 2054392544, 1199118895, 428309241, 1450691481,
            87389095, 1594609204, 812812659, 715473753, 1200363215, 1700902092, 1763141289);
  }

  lemma ZTo2To10(S: Ring<Septic<Fp>>, f: nat -> Septic<Fp>)
    requires PowersOfZ(S, f) && Multiplies(S)
    ensures f(1024) == Septic(1824231780, 1470553177, 935713618, 1069039267, 1320942928, 207657517, 1349866840)
  {
    ZTo2To9(S, f);
    PowerSum(S, f, 512, 512, 1024);
    Product(S, 87389095, 1594609204, 812812659, 715473753, 1200363215, 1700902092, 1763141289,
            87389095, 1594609204, 812812659, 715473753, 1200363215, 1700902092, 1763141289,
            1824231780, 1470553177, 935713618, 1069039267, 1320942928, 207657517, 1349866840);
  }

  lemma ZTo2To11(S: Ring<Septic<Fp>>, f: nat -> Septic<Fp>)
    requires PowersOfZ(S, f) && Multiplies(S)
    ensures f(2048) == Septic(1492276434, 75526737, 1458789454, 83584171, 1620180471, 1413530704, 63587865)
  {
    ZTo2To10(S, f);
    PowerSum(S, f, 1024, 1024, 2048);
    Product(S, 1824231780, 1470553177, 935713618, 1069039267, 1320942928, 207657517, 1349866840,
            1824231780, 1470553177, 935713618, 1069039267, 1320942928, 207657517, 1349866840,
            1492276434, 75526737, 1458789454, 83584171, 1620180471, 1413530704, 63587865);
  }

  lemma ZTo2To12(S: Ring<Septic<Fp>>, f: nat -> Septic<Fp>)
    requires PowersOfZ(S, f) && Multiplies(S)
    ensures f(4096) == Septic(555892438, 753677708, 1017339378, 954844044, 864128938, 885270675, 657019801)
  {
    ZTo2To11(S, f);
    PowerSum(S, f, 2048, 2048, 4096);
    Product(S, 1492276434, 75526737, 1458789454, 83584171, 1620180471, 1413530704, 63587865,
            1492276434, 75526737, 1458789454, 83584171, 1620180471, 1413530704, 63587865,
            555892438, 753677708, 1017339378, 954844044, 864128938, 885270675, 657019801);
  }

  lemma ZTo2To13(S: Ring<Septic<Fp>>, f: nat -> Septic<Fp>)
    requires PowersOfZ(S, f) && Multiplies(S)
    ensures f(8192) == Septic(1974582672, 1298124071, 1822357140, 1190615017, 1581168725, 1181329751, 1692431021)
  {
    ZTo2To12(S, f);
    PowerSum(S, f, 4096, 4096, 8192);
    Product(S, 555892438, 753677708, 1017339378, 954844044, 864128938, 885270675, 657019801,
            555892438, 753677708, 1017339378, 954844044, 864128938, 885270675, 657019801,
            1974582672, 1298124071, 1822357140, 1190615017, 1581168725, 1181329751, 1692431021);
  }

  lemma ZTo2To14(S: Ring<Septic<Fp>>, f: nat -> Septic<Fp>)
    requires PowersOfZ(S, f) && Multiplies(S)
    ensures f(16384) == Septic(1655394231, 1885922182, 119221438, 1436946927, 1535767238, 125198120, 31563079)
  {
    ZTo2To13(S, f);
    PowerSum(S, f, 8192, 8192, 16384);
    Product(S, 1974582672, 1298124071, 1822357140, 1190615017, 1581168725, 1181329751, 1692431021,
            1974582672, 1298124071, 1822357140, 1190615017, 1581168725, 1181329751, 1692431021,
            1655394231, 1885922182, 119221438, 1436946927, 1535767238, 125198120, 31563079);
  }

  lemma ZTo2To15(S: Ring<Septic<Fp>>, f: nat -> Septic<Fp>)
    requires PowersOfZ(S, f) && Multiplies(S)
    ensures f(32768) == Septic(280990506, 1936790334, 1925191786, 1874894208, 129262446, 1786907098, 1223349718)
  {
    ZTo2To14(S, f);
    PowerSum(S, f, 16384, 16384, 32768);
    Product(S, 1655394231, 1885922182, 119221438, 1436946927, 1535767238, 125198120, 31563079,
            1655394231, 1885922182, 119221438, 1436946927, 1535767238, 125198120, 31563079,
            280990506, 1936790334, 1925191786, 1874894208, 129262446, 1786907098, 1223349718);
  }

  lemma ZTo2To16(S: Ring<Septic<Fp>>, f: nat -> Septic<Fp>)
    requires PowersOfZ(S, f) && Multiplies(S)
    ensures f(65536) == Septic(1284554179, 1962272225, 1378965599, 1097540955, 1661851558, 561278168, 1284780247)
  {
    ZTo2To15(S, f);
    PowerSum(S, f, 32768, 32768, 65536);
    Product(S, 280990506, 1936790334, 1925191786, 1874894208, 129262446, 1786907098, 1223349718,
            280990506, 1936790334, 1925191786, 1874894208, 129262446, 1786907098, 1223349718,
            1284554179, 1962272225, 1378965599, 1097540955, 1661851558, 561278168, 1284780247);
  }

  lemma ZTo2To17(S: Ring<Septic<Fp>>, f: nat -> Septic<Fp>)
    requires PowersOfZ(S, f) && Multiplies(S)
    ensures f(131072) == Septic(2066721841, 694611686, 606622040, 1843056760, 1303579227, 378324136, 1803714412)
  {
    ZTo2To16(S, f);
    PowerSum(S, f, 65536, 65536, 131072);
    Product(S, 1284554179, 1962272225, 1378965599, 1097540955, 1661851558, 561278168, 1284780247,
            1284554179, 1962272225, 1378965599, 1097540955, 1661851558, 561278168, 1284780247,
            2066721841, 694611686, 606622040, 1843056760, 1303579227, 378324136, 1803714412);
  }

  lemma ZTo2To18(S: Ring<Septic<Fp>>, f: nat -> Septic<Fp>)
    requires PowersOfZ(S, f) && Multiplies(S)
    ensures f(262144) == Septic(349936646, 1651738338, 894705421, 1302376661, 465901366, 1069271256, 441204165)
  {
    ZTo2To17(S, f);
    PowerSum(S, f, 131072, 131072, 262144);
    Product(S, 2066721841, 694611686, 606622040, 1843056760, 1303579227, 378324136, 1803714412,
            2066721841, 694611686, 606622040, 1843056760, 1303579227, 378324136, 1803714412,
            349936646, 1651738338, 894705421, 1302376661, 465901366, 1069271256, 441204165);
  }

  lemma ZTo2To19(S: Ring<Septic<Fp>>, f: nat -> Septic<Fp>)
    requires PowersOfZ(S, f) && Multiplies(S)
    ensures f(524288) == Septic(1548654594, 1084253747, 1837594177, 2044996396, 1758048128, 2106803121, 1766988041)
  {
    ZTo2To18(S, f);
    PowerSum(S, f, 262144, 262144, 524288);
    Product(S, 349936646, 1651738338, 894705421, 1302376661, 465901366, 1069271256, 441204165,
            349936646, 1651738338, 894705421, 1302376661, 465901366, 1069271256, 441204165,
            1548654594, 1084253747, 1837594177, 2044996396, 1758048128, 2106803121, 1766988041);
  }

  lemma ZTo2To20(S: Ring<Septic<Fp>>, f: nat -> Septic<Fp>)
    requires PowersOfZ(S, f) && Multiplies(S)
    ensures f(1048576) == Septic(486933685, 1268590774, 266238822, 383184408, 916717366, 1590697232, 1664397547)
  {
    ZTo2To19(S, f);
    PowerSum(S, f, 524288, 524288, 1048576);
    Product(S, 1548654594, 1084253747, 1837594177, 2044996396, 1758048128, 2106803121, 1766988041,
            1548654594, 1084253747, 1837594177, 2044996396, 1758048128, 2106803121, 1766988041,
            486933685, 1268590774, 266238822, 383184408, 916717366, 1590697232, 1664397547);
  }

  lemma ZTo2To21(S: Ring<Septic<Fp>>, f: nat -> Septic<Fp>)
    requires PowersOfZ(S, f) && Multiplies(S)
    ensures f(2097152) == Septic(1228032052, 360368271, 618082235, 1043854774, 947155733, 1965482125, 126373039)
  {
    ZTo2To20(S, f);
    PowerSum(S, f, 1048576, 1048576, 2097152);
    Product(S, 486933685, 1268590774, 266238822, 383184408, 916717366, 1590697232, 1664397547,
            486933685, 1268590774, 266238822, 383184408, 916717366, 1590697232, 1664397547,
            1228032052, 360368271, 618082235, 1043854774, 947155733, 1965482125, 126373039);
  }

  lemma ZTo2To22(S: Ring<Septic<Fp>>, f: nat -> Septic<Fp>)
    requires PowersOfZ(S, f) && Multiplies(S)
    ensures f(4194304) == Septic(1167158281, 333548180, 43218705, 1578074420, 789466589, 889928678, 1024778157)
  {
    ZTo2To21(S, f);
    PowerSum(S, f, 2097152, 2097152, 4194304);
    Product(S, 1228032052, 360368271, 618082235, 1043854774, 947155733, 1965482125, 126373039,
            1228032052, 360368271, 618082235, 1043854774, 947155733, 1965482125, 126373039,
            1167158281, 333548180, 43218705, 1578074420, 789466589, 889928678, 1024778157);
  }

  lemma ZTo2To23(S: Ring<Septic<Fp>>, f: nat -> Septic<Fp>)
    requires PowersOfZ(S, f) && Multiplies(S)
    ensures f(8388608) == Septic(54159787, 2057771162, 640295729, 356275659, 309153064, 266115032, 815224322)
  {
    ZTo2To22(S, f);
    PowerSum(S, f, 4194304, 4194304, 8388608);
    Product(S, 1167158281, 333548180, 43218705, 1578074420, 789466589, 889928678, 1024778157,
            1167158281, 333548180, 43218705, 1578074420, 789466589, 889928678, 1024778157,
            54159787, 2057771162, 640295729, 356275659, 309153064, 266115032, 815224322);
  }

  lemma ZTo2To24(S: Ring<Septic<Fp>>, f: nat -> Septic<Fp>)
    requires PowersOfZ(S, f) && Multiplies(S)
    ensures f(16777216) == Septic(204408297, 1612599644, 2129004427, 360833308, 1930543653, 688516004, 1284292588)
  {
    ZTo2To23(S, f);
    PowerSum(S, f, 8388608, 8388608, 16777216);
    Product(S, 54159787, 2057771162, 640295729, 356275659, 309153064, 266115032, 815224322,
            54159787, 2057771162, 640295729, 356275659, 309153064, 266115032, 815224322,
            204408297, 1612599644, 2129004427, 360833308, 1930543653, 688516004, 1284292588);
  }

  lemma ZTo2To24Times2(S: Ring<Septic<Fp>>, f: nat -> Septic<Fp>)
    requires PowersOfZ(S, f) && Multiplies(S)
    ensures f(33554432) == Septic(1255315066, 61763427, 622208494, 1850018799, 412329972, 1496224050, 1875594853)
  {
    ZTo2To24(S, f);
    PowerSum(S, f, 16777216, 16777216, 33554432);
    Product(S, 204408297, 1612599644, 2129004427, 360833308, 1930543653, 688516004, 1284292588,
            204408297, 1612599644, 2129004427, 360833308, 1930543653, 688516004, 1284292588,
            1255315066, 61763427, 622208494, 1850018799, 412329972, 1496224050, 1875594853);
  }

  lemma ZTo2To24Times3(S: Ring<Septic<Fp>>, f: nat -> Septic<Fp>)
    requires PowersOfZ(S, f) && Multiplies(S)
    ensures f(50331648) == Septic(158377229, 628816187, 891876036, 899083002, 628348357, 1209222783, 761718467)
  {
    ZTo2To24Times2(S, f);
    ZTo2To24(S, f);
    PowerSum(S, f, 33554432, 16777216, 50331648);
    Product(S, 1255315066, 61763427, 622208494, 1850018799, 412329972, 1496224050, 1875594853,
            204408297, 1612599644, 2129004427, 360833308, 1930543653, 688516004, 1284292588,
            158377229, 628816187, 891876036, 899083002, 628348357, 1209222783, 761718467);
  }

  lemma ZTo2To24Times6(S: Ring<Septic<Fp>>, f: nat -> Septic<Fp>)
    requires PowersOfZ(S, f) && Multiplies(S)
    ensures f(100663296) == Septic(490637878, 353991324, 550617533, 1227284709, 430407431, 1102735773, 1620805630)
  {
    ZTo2To24Times3(S, f);
    PowerSum(S, f, 50331648, 50331648, 100663296);
    Product(S, 158377229, 628816187, 891876036, 899083002, 628348357, 1209222783, 761718467,
            158377229, 628816187, 891876036, 899083002, 628348357, 1209222783, 761718467,
            490637878, 353991324, 550617533, 1227284709, 430407431, 1102735773, 1620805630);
  }

  lemma ZTo2To24Times7(S: Ring<Septic<Fp>>, f: nat -> Septic<Fp>)
    requires PowersOfZ(S, f) && Multiplies(S)
    ensures f(117440512) == Septic(599340938, 797409718, 46786707, 2096422678, 1435912324, 1877131124, 2002454095)
  {
    ZTo2To24Times6(S, f);
    ZTo2To24(S, f);
    PowerSum(S, f, 100663296, 16777216, 117440512);
    Product(S, 490637878, 353991324, 550617533, 1227284709, 430407431, 1102735773, 1620805630,
            204408297, 1612599644, 2129004427, 360833308, 1930543653, 688516004, 1284292588,
            599340938, 797409718, 46786707, 2096422678, 1435912324, 1877131124, 2002454095);
  }

  lemma ZTo2To24Times14(S: Ring<Septic<Fp>>, f: nat -> Septic<Fp>)
    requires PowersOfZ(S, f) && Multiplies(S)
    ensures f(234881024) == Septic(560847151, 1838083891, 1475042479, 1435998708, 2074352631, 150783522, 909693694)
  {
    ZTo2To24Times7(S, f);
    PowerSum(S, f, 117440512, 117440512, 234881024);
    Product(S, 599340938, 797409718, 46786707, 2096422678, 1435912324, 1877131124, 2002454095,
            599340938, 797409718, 46786707, 2096422678, 1435912324, 1877131124, 2002454095,
            560847151, 1838083891, 1475042479, 1435998708, 2074352631, 150783522, 909693694);
  }

  lemma ZTo2To24Times15(S: Ring<Septic<Fp>>, f: nat -> Septic<Fp>)
    requires PowersOfZ(S, f) && Multiplies(S)
    ensures f(251658240) == Septic(1328992202, 1124375011, 1881599677, 888057621, 2080352043, 278081469, 1178964305)
  {
    ZTo2To24Times14(S, f);
    ZTo2To24(S, f);
    PowerSum(S, f, 234881024, 16777216, 251658240);
    Product(S, 560847151, 1838083891, 1475042479, 1435998708, 2074352631, 150783522, 909693694,
            204408297, 1612599644, 2129004427, 360833308, 1930543653, 688516004, 1284292588,
            1328992202, 1124375011, 1881599677, 888057621, 2080352043, 278081469, 1178964305);
  }

  lemma ZTo2To24Times30(S: Ring<Septic<Fp>>, f: nat -> Septic<Fp>)
    requires PowersOfZ(S, f) && Multiplies(S)
    ensures f(503316480) == Septic(314079319, 130700120, 8533580, 236908198, 718513820, 831531669, 6927066)
  {
    ZTo2To24Times15(S, f);
    PowerSum(S, f, 251658240, 251658240, 503316480);
    Product(S, 1328992202, 1124375011, 1881599677, 888057621, 2080352043, 278081469, 1178964305,
            1328992202, 1124375011, 1881599677, 888057621, 2080352043, 278081469, 1178964305,
            314079319, 130700120, 8533580, 236908198, 718513820, 831531669, 6927066);
  }

  lemma ZTo2To24Times31(S: Ring<Septic<Fp>>, f: nat -> Septic<Fp>)
    requires PowersOfZ(S, f) && Multiplies(S)
    ensures f(520093696) == Septic(1280829877, 644960059, 118420741, 1407820993, 1692777097, 420034754, 1142221599)
  {
    ZTo2To24Times30(S, f);
    ZTo2To24(S, f);
    PowerSum(S, f, 503316480, 16777216, 520093696);
    Product(S, 314079319, 130700120, 8533580, 236908198, 718513820, 831531669, 6927066,
            204408297, 1612599644, 2129004427, 360833308, 1930543653, 688516004, 1284292588,
            1280829877, 644960059, 118420741, 1407820993, 1692777097, 420034754, 1142221599);
  }

  lemma ZTo2To24Times62(S: Ring<Septic<Fp>>, f: nat -> Septic<Fp>)
    requires PowersOfZ(S, f) && Multiplies(S)
    ensures f(1040187392) == Septic(425723757, 1002723736, 959431609, 832865329, 1547598416, 1651471517, 1069506617)
  {
    ZTo2To24Times31(S, f);
    PowerSum(S, f, 520093696, 520093696, 1040187392);
    Product(S, 1280829877, 644960059, 118420741, 1407820993, 1692777097, 420034754, 1142221599,
            1280829877, 644960059, 118420741, 1407820993, 1692777097, 420034754, 1142221599,
            425723757, 1002723736, 959431609, 832865329, 1547598416, 1651471517, 1069506617);
  }

  lemma ZTo2To24Times63(S: Ring<Septic<Fp>>, f: nat -> Septic<Fp>)
    requires PowersOfZ(S, f) && Multiplies(S)
    ensures f(1056964608) == Septic(2095796997, 198701158, 2076197267, 1364067125, 190986718, 432899982, 1891206842)
  {
    ZTo2To24Times62(S, f);
    ZTo2To24(S, f);
    PowerSum(S, f, 1040187392, 16777216, 1056964608);
    Product(S, 425723757, 1002723736, 959431609, 832865329, 1547598416, 1651471517, 1069506617,
            204408297, 1612599644, 2129004427, 360833308, 1930543653, 688516004, 1284292588,
            2095796997, 198701158, 2076197267, 1364067125, 190986718, 432899982, 1891206842);
  }

  lemma ZTo2To24Times126(S: Ring<Septic<Fp>>, f: nat -> Septic<Fp>)
    requires PowersOfZ(S, f) && Multiplies(S)
    ensures f(2113929216) == Septic(286827636, 433010632, 248300057, 668133064, 1192076649, 1678825866, 22022862)
  {
    ZTo2To24Times63(S, f);
    PowerSum(S, f, 1056964608, 1056964608, 2113929216);
    Product(S, 2095796997, 198701158, 2076197267, 1364067125, 190986718, 432899982, 1891206842,
            2095796997, 198701158, 2076197267, 1364067125, 190986718, 432899982, 1891206842,
            286827636, 433010632, 248300057, 668133064, 1192076649, 1678825866, 22022862);
  }

  lemma ZTo2To24Times127(S: Ring<Septic<Fp>>, f: nat -> Septic<Fp>)
    requires PowersOfZ(S, f) && Multiplies(S)
    ensures f(2130706432) == Septic(2039768492, 1879852731, 746569225, 180350946, 1600835585, 333893434, 680565950)
  {
    ZTo2To24Times126(S, f);
    ZTo2To24(S, f);
    PowerSum(S, f, 2113929216, 16777216, 2130706432);
    Product(S, 286827636, 433010632, 248300057, 668133064, 1192076649, 1678825866, 22022862,
            204408297, 1612599644, 2129004427, 360833308, 1930543653, 688516004, 1284292588,
            2039768492, 1879852731, 746569225, 180350946, 1600835585, 333893434, 680565950);
  }

  lemma ZToPChain(S: Ring<Septic<Fp>>, f: nat -> Septic<Fp>)
    requires PowersOfZ(S, f) && Multiplies(S)
    ensures f(2130706433) == ZPowP(1)
  {
    ZTo2To24Times127(S, f);
    PowerSum(S, f, 2130706432, 1, 2130706433);
    Product(S, 2039768492, 1879852731, 746569225, 180350946, 1600835585, 333893434, 680565950,
            0, 1, 0, 0, 0, 0, 0,
            1272123317, 1950759909, 1879852731, 746569225, 180350946, 1600835585, 333893434);
  }

  /** The first table entry is z^P. */
  lemma ZToP(S: Ring<Septic<Fp>>)
    requires CommRing(S) && Multiplies(S)
    ensures Pow(S, Z, P) == ZPowP(1)
  {
    var f := (n: nat) => Pow(S, Z, n);
    PowSmall(S, Z);
    forall m: nat, n: nat
      ensures PowersAt(S, f, m, n)
    {
      PowAdd(S, Z, m, n);
    }
    ZToPChain(S, f);
  }

  lemma TablePower2(S: Ring<Septic<Fp>>)
    requires Multiplies(S)
    ensures S.mul(ZPowP(1), ZPowP(1)) == ZPowP(2)
  {
    Product(S, 1272123317, 1950759909, 1879852731, 746569225, 180350946, 1600835585, 333893434,
            1272123317, 1950759909, 1879852731, 746569225, 180350946, 1600835585, 333893434,
            129050189, 1749509219, 983995729, 711096547, 1505254548, 639452798, 68186395);
  }

  lemma TablePower3(S: Ring<Septic<Fp>>)
    requires Multiplies(S)
    ensures S.mul(ZPowP(2), ZPowP(1)) == ZPowP(3)
  {
    Product(S, 129050189, 1749509219, 983995729, 711096547, 1505254548, 639452798, 68186395,
            1272123317, 1950759909, 1879852731, 746569225, 180350946, 1600835585, 333893434,
            1911662442, 1095215454, 1794102427, 1173566779, 140526665, 110899104, 1387282150);
  }

  lemma TablePower4(S: Ring<Septic<Fp>>)
    requires Multiplies(S)
    ensures S.mul(ZPowP(3), ZPowP(1)) == ZPowP(4)
  {
    Product(S, 1911662442, 1095215454, 1794102427, 1173566779, 140526665, 110899104, 1387282150,
            1272123317, 1950759909, 1879852731, 746569225, 180350946, 1600835585, 333893434,
            1366416596, 1212861, 2104391040, 1447859676, 308944373, 106444152, 1362577042);
  }

  lemma TablePower5(S: Ring<Septic<Fp>>)
    requires Multiplies(S)
    ensures S.mul(ZPowP(4), ZPowP(1)) == ZPowP(5)
  {
    Product(S, 1366416596, 1212861, 2104391040, 1447859676, 308944373, 106444152, 1362577042,
            1272123317, 1950759909, 1879852731, 746569225, 180350946, 1600835585, 333893434,
            1411781189, 1580508159, 1332301780, 1528790701, 380217034, 1752756730, 989817517);
  }

  lemma TablePower6(S: Ring<Septic<Fp>>)
    requires Multiplies(S)
    ensures S.mul(ZPowP(5), ZPowP(1)) == ZPowP(6)
  {
    Product(S, 1411781189, 1580508159, 1332301780, 1528790701, 380217034, 1752756730, 989817517,
            1272123317, 1950759909, 1879852731, 746569225, 180350946, 1600835585, 333893434,
            37669840, 439102875, 410223214, 964813232, 1250258104, 877333757, 222095778);
  }

  lemma SecondPower2(S: Ring<Septic<Fp>>)
    requires Multiplies(S)
    ensures S.mul(ZPowP2(1), ZPowP2(1)) == ZPowP2(2)
  {
    Product(S, 1330073564, 1724372201, 942213154, 258987814, 1836986639, 566030553, 2086945921,
            1330073564, 1724372201, 942213154, 258987814, 1836986639, 566030553, 2086945921,
            473977877, 99096011, 1919717963, 733784355, 1167998744, 19619652, 1354518805);
  }

  lemma SecondPower3(S: Ring<Septic<Fp>>)
    requires Multiplies(S)
    ensures S.mul(ZPowP2(2), ZPowP2(1)) == ZPowP2(3)
  {
    Product(S, 473977877, 99096011, 1919717963, 733784355, 1167998744, 19619652, 1354518805,
            1330073564, 1724372201, 942213154, 258987814, 1836986639, 566030553, 2086945921,
            1040563478, 1866766699, 1875293643, 846885082, 1921678452, 2127718474, 1489297699);
  }

  lemma SecondPower4(S: Ring<Septic<Fp>>)
    requires Multiplies(S)
    ensures S.mul(ZPowP2(3), ZPowP2(1)) == ZPowP2(4)
  {
    Product(S, 1040563478, 1866766699, 1875293643, 846885082, 1921678452, 2127718474, 1489297699,
            1330073564, 1724372201, 942213154, 258987814, 1836986639, 566030553, 2086945921,
            1350284585, 1583164394, 512913106, 1818487640, 2116891899, 318922921, 1013732863);
  }

  lemma SecondPower5(S: Ring<Septic<Fp>>)
    requires Multiplies(S)
    ensures S.mul(ZPowP2(4), ZPowP2(1)) == ZPowP2(5)
  {
    Product(S, 1350284585, 1583164394, 512913106, 1818487640, 2116891899, 318922921, 1013732863,
            1330073564, 1724372201, 942213154, 258987814, 1836986639, 566030553, 2086945921,
            887772098, 1971095075, 843183752, 711838602, 1717807390, 521017530, 1548716569);
  }

  lemma SecondPower6(S: Ring<Septic<Fp>>)
    requires Multiplies(S)
    ensures S.mul(ZPowP2(5), ZPowP2(1)) == ZPowP2(6)
  {
    Product(S, 887772098, 1971095075, 843183752, 711838602, 1717807390, 521017530, 1548716569,
            1330073564, 1724372201, 942213154, 258987814, 1836986639, 566030553, 2086945921,
            372606377, 357514301, 335089633, 330400379, 1545190367, 1813349020, 1393941056);
  }

  /** Each entry of a table is the previous one times the first. */
  lemma TablePowers(S: Ring<Septic<Fp>>)
    requires Multiplies(S)
    ensures S.mul(ZPowP(1), ZPowP(1)) == ZPowP(2)
    ensures S.mul(ZPowP(2), ZPowP(1)) == ZPowP(3)
    ensures S.mul(ZPowP(3), ZPowP(1)) == ZPowP(4)
    ensures S.mul(ZPowP(4), ZPowP(1)) == ZPowP(5)
    ensures S.mul(ZPowP(5), ZPowP(1)) == ZPowP(6)
    ensures S.mul(ZPowP2(1), ZPowP2(1)) == ZPowP2(2)
    ensures S.mul(ZPowP2(2), ZPowP2(1)) == ZPowP2(3)
    ensures S.mul(ZPowP2(3), ZPowP2(1)) == ZPowP2(4)
    ensures S.mul(ZPowP2(4), ZPowP2(1)) == ZPowP2(5)
    ensures S.mul(ZPowP2(5), ZPowP2(1)) == ZPowP2(6)
  {
    TablePower2(S); TablePower3(S); TablePower4(S); TablePower5(S); TablePower6(S);
    SecondPower2(S); SecondPower3(S); SecondPower4(S); SecondPower5(S); SecondPower6(S);
  }
}
