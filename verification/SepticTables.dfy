/** The Frobenius tables of `septic_extension.rs` and the finite facts about them that the rest
    of the development rests on. Every fact is an equality between constants. */
module SepticTables {
  import opened Rings
  import V = SepticIntegers
  import opened SepticExtension

  /** z, the generator of the extension. */
  const Z: Septic := V.Vec(0, 1, 0, 0, 0, 0, 0)

  // z_pow_p(1), ..., z_pow_p(6)
  const T1: Septic := V.Vec(1272123317, 1950759909, 1879852731, 746569225, 180350946, 1600835585, 333893434)
  const T2: Septic := V.Vec(129050189, 1749509219, 983995729, 711096547, 1505254548, 639452798, 68186395)
  const T3: Septic := V.Vec(1911662442, 1095215454, 1794102427, 1173566779, 140526665, 110899104, 1387282150)
  const T4: Septic := V.Vec(1366416596, 1212861, 2104391040, 1447859676, 308944373, 106444152, 1362577042)
  const T5: Septic := V.Vec(1411781189, 1580508159, 1332301780, 1528790701, 380217034, 1752756730, 989817517)
  const T6: Septic := V.Vec(37669840, 439102875, 410223214, 964813232, 1250258104, 877333757, 222095778)

  // z_pow_p2(1), ..., z_pow_p2(6)
  const U1: Septic := V.Vec(1330073564, 1724372201, 942213154, 258987814, 1836986639, 566030553, 2086945921)
  const U2: Septic := V.Vec(473977877, 99096011, 1919717963, 733784355, 1167998744, 19619652, 1354518805)
  const U3: Septic := V.Vec(1040563478, 1866766699, 1875293643, 846885082, 1921678452, 2127718474, 1489297699)
  const U4: Septic := V.Vec(1350284585, 1583164394, 512913106, 1818487640, 2116891899, 318922921, 1013732863)
  const U5: Septic := V.Vec(887772098, 1971095075, 843183752, 711838602, 1717807390, 521017530, 1548716569)
  const U6: Septic := V.Vec(372606377, 357514301, 335089633, 330400379, 1545190367, 1813349020, 1393941056)

  // z^(p^4) and z^(p^6)
  const Z_P4: Septic := V.Vec(1407335172, 651021059, 1283028566, 1468739027, 372470499, 1726522429, 873173944)
  const Z_P6: Septic := V.Vec(531968304, 1266789219, 265706439, 1098038743, 818733009, 1863182270, 503358915)

  lemma ProductIs(a: Septic, b: Septic, c: Septic)
    requires Reduce(V.Formula(a, b)) == c
    ensures Mul(a, b) == c
  {
    hide V.Mul, V.Formula, Reduce;
    V.MulFormula(a, b);
  }

  /** The tables list the powers of their first entries, and both first entries are roots of
      z^7 - 3z - 5. */
  lemma PowersOfT1()
    ensures Mul(T1, T1) == T2 && Mul(T1, T2) == T3 && Mul(T1, T3) == T4 && Mul(T1, T4) == T5 && Mul(T1, T5) == T6
  {
    hide Mul;
    ProductIs(T1, T1, T2); ProductIs(T1, T2, T3); ProductIs(T1, T3, T4); ProductIs(T1, T4, T5); ProductIs(T1, T5, T6);
  }

  lemma PowersOfU1()
    ensures Mul(U1, U1) == U2 && Mul(U1, U2) == U3 && Mul(U1, U3) == U4 && Mul(U1, U4) == U5 && Mul(U1, U5) == U6
  {
    hide Mul;
    ProductIs(U1, U1, U2); ProductIs(U1, U2, U3); ProductIs(U1, U3, U4); ProductIs(U1, U4, U5); ProductIs(U1, U5, U6);
  }

  // ---------------------------------------------------------------- z^p

  /** z^n == v, in a form that does not make the verifier expand the power. */
  ghost predicate Reaches(n: nat, v: Septic) {
    forall m: nat :: m == n ==> Pow(SepticRing, Z, m) == v
  }

  lemma Square(n: nat, v: Septic, v': Septic)
    requires Reaches(n, v) && Reduce(V.Formula(v, v)) == v'
    ensures Reaches(2 * n, v')
  {
    hide V.Formula, Reduce, Mul;
    ProductIs(v, v, v');
    SepticIsRing();
    PowAdd(SepticRing, Z, n, n);
  }

  lemma SquareTimesZ(n: nat, v: Septic, v': Septic)
    requires Reaches(n, v) && Reduce(V.TimesZ(V.Formula(v, v))) == v'
    ensures Reaches(2 * n + 1, v')
  {
    hide V.Formula, Reduce, Mul, V.TimesZ;
    V.MulFormula(v, v);
    TimesZReduced(V.Formula(v, v));
    MulReduced(v, v);
    SepticIsRing();
    PowAdd(SepticRing, Z, n, n);
  }

  lemma TimesZReduced(u: V.Vec)
    ensures Mul(Z, Reduce(u)) == Reduce(V.TimesZ(u))
  {
    assert V.TimesZ(V.ONE) == Z;
    hide V.TimesZ, V.Mul, Reduce;
    ReduceMul(Z, u);
    V.MulTimesZLeft(V.ONE, u);
    V.MulOneRight(u);
    V.MulComm(u, V.ONE);
  }

  /** One step of seven: z^7 v = (3z + 5) v, for small coefficients. */
  lemma TimesSeven(n: nat, v0: int, v1: int, v2: int, v3: int, v4: int, v5: int, v6: int,
                   w0: int, w1: int, w2: int, w3: int, w4: int, w5: int, w6: int)
    requires InRange(V.Vec(v0, v1, v2, v3, v4, v5, v6)) && Reaches(n, V.Vec(v0, v1, v2, v3, v4, v5, v6))
    requires w0 == 5 * v0 + 15 * v6 && w1 == 3 * v0 + 5 * v1 + 9 * v6 && w2 == 3 * v1 + 5 * v2 && w3 == 3 * v2 + 5 * v3
    requires w4 == 3 * v3 + 5 * v4 && w5 == 3 * v4 + 5 * v5 && w6 == 3 * v5 + 5 * v6
    requires InRange(V.Vec(w0, w1, w2, w3, w4, w5, w6))
    ensures Reaches(n + 7, V.Vec(w0, w1, w2, w3, w4, w5, w6))
  {
    var v, w := V.Vec(v0, v1, v2, v3, v4, v5, v6), V.Vec(w0, w1, w2, w3, w4, w5, w6);
    assert w == V.Add(V.Scale(3, V.TimesZ(v)), V.Scale(5, v));
    ShiftBySeven(n, v, w);
  }

  lemma ShiftBySeven(n: nat, v: Septic, w: Septic)
    requires Reaches(n, v) && w == V.Add(V.Scale(3, V.TimesZ(v)), V.Scale(5, v))
    ensures Reaches(n + 7, w)
  {
    hide V.TimesZ, V.Scale, V.Add, Reduce, Mul;
    var b1 := V.TimesZ(v); var b2 := V.TimesZ(b1); var b3 := V.TimesZ(b2); var b4 := V.TimesZ(b3);
    var b5 := V.TimesZ(b4); var b6 := V.TimesZ(b5);
    ReduceId(v); ReduceId(w);
    TimesZReduced(v); TimesZReduced(b1); TimesZReduced(b2); TimesZReduced(b3); TimesZReduced(b4);
    TimesZReduced(b5); TimesZReduced(b6);
    V.ZToTheSeventh(v);
    PowSteps(n);
  }

  lemma PowSteps(n: nat)
    ensures Pow(SepticRing, Z, n + 7) == Mul(Z, Mul(Z, Mul(Z, Mul(Z, Mul(Z, Mul(Z, Mul(Z, Pow(SepticRing, Z, n))))))))
  {
    hide Mul;
    ghost var m1, m2, m3, m4, m5, m6 := n + 1, n + 2, n + 3, n + 4, n + 5, n + 6;
    assert Pow(SepticRing, Z, m1) == Mul(Z, Pow(SepticRing, Z, n));
    assert Pow(SepticRing, Z, m2) == Mul(Z, Pow(SepticRing, Z, m1));
    assert Pow(SepticRing, Z, m3) == Mul(Z, Pow(SepticRing, Z, m2));
    assert Pow(SepticRing, Z, m4) == Mul(Z, Pow(SepticRing, Z, m3));
    assert Pow(SepticRing, Z, m5) == Mul(Z, Pow(SepticRing, Z, m4));
    assert Pow(SepticRing, Z, m6) == Mul(Z, Pow(SepticRing, Z, m5));
  }

  lemma StartAtOne()
    ensures Reaches(0, ONE)
  {
  }

  // Z127_k is z^(127 * 2^k); p is 127 * 2^24 + 1.
  const Z63: Septic := V.Vec(11794625, 17928000, 26296650, 35496549, 31893750, 19136250, 7654500)  // z^63
  const Z127_0: Septic := V.Vec(441249094, 1405578482, 882104503, 2040122186, 771762849, 1234783505, 1724034708)
  const Z127_1: Septic := V.Vec(1640670195, 2054392544, 1199118895, 428309241, 1450691481, 946083786, 1431109907)
  const Z127_2: Septic := V.Vec(1719229344, 1700902092, 1763141289, 17477819, 734576436, 1000240530, 1247515579)
  const Z127_3: Septic := V.Vec(2127409164, 1335216633, 1117243020, 1298407920, 1819334471, 1735220405, 310260888)
  const Z127_4: Septic := V.Vec(910682319, 1753299684, 1275573569, 792425808, 1745871581, 1841894935, 730831273)
  const Z127_5: Septic := V.Vec(791280378, 1118264785, 1092101940, 49337067, 832067323, 1492111614, 1235614771)
  const Z127_6: Septic := V.Vec(1953847839, 457775160, 412525783, 2086957494, 913695005, 1638370441, 1195639098)
  const Z127_7: Septic := V.Vec(1076240621, 1364991765, 1306636379, 679963281, 120764395, 632648725, 1243800072)
  const Z127_8: Septic := V.Vec(148001260, 688299321, 1850747323, 1403217192, 1221483862, 491639624, 2064515284)
  const Z127_9: Septic := V.Vec(1784070347, 630798122, 661685147, 1523419483, 1008182957, 690896298, 816426611)
  const Z127_10: Septic := V.Vec(2014819219, 1692846158, 1079421501, 458519117, 1464465675, 1719573936, 436745793)
  const Z127_11: Septic := V.Vec(2054862032, 1902675533, 1462567984, 815625348, 2035158585, 2073805449, 1560239343)
  const Z127_12: Septic := V.Vec(63584688, 277948338, 1794302658, 2105224961, 588259392, 540649532, 601351518)
  const Z127_13: Septic := V.Vec(1001973916, 1893619856, 1102796819, 165274653, 1671904402, 569572763, 955947079)
  const Z127_14: Septic := V.Vec(1118960091, 1546746638, 1574472617, 1688337173, 2004759119, 570024488, 1919761225)
  const Z127_15: Septic := V.Vec(1662739124, 1383170046, 45827161, 978948671, 1263465455, 2030074110, 1357264016)
  const Z127_16: Septic := V.Vec(2126395418, 1915380694, 1363872985, 49247273, 272421278, 1833651084, 1848569470)
  const Z127_17: Septic := V.Vec(1007043872, 998563985, 93375154, 1213968105, 487927940, 1035054965, 1914119577)
  const Z127_18: Septic := V.Vec(507548861, 1762404102, 387917517, 339442068, 287840908, 1303803567, 201606014)
  const Z127_19: Septic := V.Vec(680867128, 581216299, 930965915, 806023473, 1328431963, 1176493560, 2104800695)
  const Z127_20: Septic := V.Vec(260174667, 832020149, 1395760455, 793925643, 1339509554, 7711458, 1396147430)
  const Z127_21: Septic := V.Vec(988537227, 1800623126, 2073552906, 1178662801, 1623136959, 632986868, 1940093323)
  const Z127_22: Septic := V.Vec(829244187, 735093767, 834115944, 1805761557, 1151822993, 1351180067, 1498640171)
  const Z127_23: Septic := V.Vec(1036982423, 632740377, 606940309, 1312765963, 1393099330, 1026623517, 2068837795)

  lemma Chain0()
    ensures Reaches(63, Z63)
  {
    hide Reaches;
    StartAtOne();
    TimesSeven(0, 1, 0, 0, 0, 0, 0, 0, 5, 3, 0, 0, 0, 0, 0);
    TimesSeven(7, 5, 3, 0, 0, 0, 0, 0, 25, 30, 9, 0, 0, 0, 0);
    TimesSeven(14, 25, 30, 9, 0, 0, 0, 0, 125, 225, 135, 27, 0, 0, 0);
    TimesSeven(21, 125, 225, 135, 27, 0, 0, 0, 625, 1500, 1350, 540, 81, 0, 0);
    TimesSeven(28, 625, 1500, 1350, 540, 81, 0, 0, 3125, 9375, 11250, 6750, 2025, 243, 0);
    TimesSeven(35, 3125, 9375, 11250, 6750, 2025, 243, 0, 15625, 56250, 84375, 67500, 30375, 7290, 729);
    TimesSeven(42, 15625, 56250, 84375, 67500, 30375, 7290, 729, 89060, 334686, 590625, 590625, 354375, 127575, 25515);
    TimesSeven(49, 89060, 334686, 590625, 590625, 354375, 127575, 25515, 828025, 2170245, 3957183, 4725000, 3543750,
        1701000, 510300);
    TimesSeven(56, 828025, 2170245, 3957183, 4725000, 3543750, 1701000, 510300, 11794625, 17928000, 26296650,
        35496549, 31893750, 19136250, 7654500);
  }

  lemma Chain1()
    ensures Reaches(127, Z127_0)
  {
    hide Reaches;
    Chain0();
    SquareTimesZ(63, Z63, Z127_0);
  }

  lemma Chain2()
    ensures Reaches(1016, Z127_3)
  {
    hide Reaches;
    Chain1();
    Square(127, Z127_0, Z127_1);
    Square(254, Z127_1, Z127_2);
    Square(508, Z127_2, Z127_3);
  }

  lemma Chain3()
    ensures Reaches(8128, Z127_6)
  {
    hide Reaches;
    Chain2();
    Square(1016, Z127_3, Z127_4);
    Square(2032, Z127_4, Z127_5);
    Square(4064, Z127_5, Z127_6);
  }

  lemma Chain4()
    ensures Reaches(65024, Z127_9)
  {
    hide Reaches;
    Chain3();
    Square(8128, Z127_6, Z127_7);
    Square(16256, Z127_7, Z127_8);
    Square(32512, Z127_8, Z127_9);
  }

  lemma Chain5()
    ensures Reaches(520192, Z127_12)
  {
    hide Reaches;
    Chain4();
    Square(65024, Z127_9, Z127_10);
    Square(130048, Z127_10, Z127_11);
    Square(260096, Z127_11, Z127_12);
  }

  lemma Chain6()
    ensures Reaches(4161536, Z127_15)
  {
    hide Reaches;
    Chain5();
    Square(520192, Z127_12, Z127_13);
    Square(1040384, Z127_13, Z127_14);
    Square(2080768, Z127_14, Z127_15);
  }

  lemma Chain7()
    ensures Reaches(33292288, Z127_18)
  {
    hide Reaches;
    Chain6();
    Square(4161536, Z127_15, Z127_16);
    Square(8323072, Z127_16, Z127_17);
    Square(16646144, Z127_17, Z127_18);
  }

  lemma Chain8()
    ensures Reaches(266338304, Z127_21)
  {
    hide Reaches;
    Chain7();
    Square(33292288, Z127_18, Z127_19);
    Square(66584576, Z127_19, Z127_20);
    Square(133169152, Z127_20, Z127_21);
  }

  lemma Chain9()
    ensures Reaches(2130706433, T1)
  {
    hide Reaches;
    Chain8();
    Square(266338304, Z127_21, Z127_22);
    Square(532676608, Z127_22, Z127_23);
    SquareTimesZ(1065353216, Z127_23, T1);
  }

  /** The first table entry is z^p. */
  lemma ZToTheP()
    ensures Pow(SepticRing, Z, P) == T1
  {
    Chain9();
  }
}
