/**
  Two encodings worked out in full: one of version 1, and the shortest string of BIP 173, which has no
  data and is not read back here because its first checksum symbol passes for a version.
 */
module Bech32Examples {
  import opened Common
  import opened Bech32Code
  import opened Bech32

  lemma Step0() ensures Step(0x1, 3) == 0x23 {}
  lemma Step1() ensures Step(0x23, 0) == 0x460 {}
  lemma Step2() ensures Step(0x460, 1) == 0x8c01 {}
  lemma Step3() ensures Step(0x8c01, 0) == 0x118020 {}
  lemma Step4() ensures Step(0x118020, 0) == 0x2300400 {}
  lemma Step5() ensures Step(0x2300400, 0) == 0x3d6ad7b2 {}
  lemma Step6() ensures Step(0x3d6ad7b2, 0) == 0x2fd30b9 {}
  lemma Step7() ensures Step(0x2fd30b9, 0) == 0x24cc4092 {}
  lemma Step8() ensures Step(0x24cc4092, 0) == 0x15ccfe9e {}
  lemma Step9() ensures Step(0x8c01, 1) == 0x118021 {}
  lemma Step10() ensures Step(0x118021, 0) == 0x2300420 {}
  lemma Step11() ensures Step(0x2300420, 0) == 0x3d6ad3b2 {}
  lemma Step12() ensures Step(0x3d6ad3b2, 0) == 0x2fdb0b9 {}
  lemma Step13() ensures Step(0x2fdb0b9, 0) == 0x24dc4092 {}
  lemma Step14() ensures Step(0x24dc4092, 0) == 0x17ccfe9e {}
  lemma Step15() ensures Step(0x17ccfe9e, 0) == 0x19e739c2 {}

  lemma Next(w: Word, i: nat, c: bv32, e: bv32)
    requires i < |w| && Step(c, w[i]) == e
    ensures Fold(c, w[i..]) == Fold(e, w[i + 1..])
  {
    hide Step;
    assert w[i..][0] == w[i] && w[i..][1..] == w[i + 1..];
  }

  lemma RemainderA()
    ensures PolyMod([3, 0, 1, 0, 0, 0, 0, 0, 0]) == 0x15ccfe9e
  {
    hide Step, Fold;
    var w: Word := [3, 0, 1, 0, 0, 0, 0, 0, 0];
    assert w[0..] == w;
    Step0();
    Next(w, 0, 0x1, 0x23);
    Step1();
    Next(w, 1, 0x23, 0x460);
    Step2();
    Next(w, 2, 0x460, 0x8c01);
    Step3();
    Next(w, 3, 0x8c01, 0x118020);
    Step4();
    Next(w, 4, 0x118020, 0x2300400);
    Step5();
    Next(w, 5, 0x2300400, 0x3d6ad7b2);
    Step6();
    Next(w, 6, 0x3d6ad7b2, 0x2fd30b9);
    Step7();
    Next(w, 7, 0x2fd30b9, 0x24cc4092);
    Step8();
    Next(w, 8, 0x24cc4092, 0x15ccfe9e);
    FoldUnfold(0x15ccfe9e, w[9..]);
  }

  lemma RemainderA1()
    ensures PolyMod([3, 0, 1, 1, 0, 0, 0, 0, 0, 0]) == 0x19e739c2
  {
    hide Step, Fold;
    var w: Word := [3, 0, 1, 1, 0, 0, 0, 0, 0, 0];
    assert w[0..] == w;
    Step0();
    Next(w, 0, 0x1, 0x23);
    Step1();
    Next(w, 1, 0x23, 0x460);
    Step2();
    Next(w, 2, 0x460, 0x8c01);
    Step9();
    Next(w, 3, 0x8c01, 0x118021);
    Step10();
    Next(w, 4, 0x118021, 0x2300420);
    Step11();
    Next(w, 5, 0x2300420, 0x3d6ad3b2);
    Step12();
    Next(w, 6, 0x3d6ad3b2, 0x2fdb0b9);
    Step13();
    Next(w, 7, 0x2fdb0b9, 0x24dc4092);
    Step14();
    Next(w, 8, 0x24dc4092, 0x17ccfe9e);
    Step15();
    Next(w, 9, 0x17ccfe9e, 0x19e739c2);
    FoldUnfold(0x19e739c2, w[10..]);
  }

  lemma Leads(m: bv32)
    ensures Lead(m, 6) == m && forall i :: 0 <= i < 6 ==> Lead(m, i) == Shr5(Lead(m, i + 1))
  {
    hide Shr5;
  }

  lemma CheckA()
    ensures FromWord(Unpack(0x15ccfe9f)) == [10, 28, 25, 31, 20, 31]
  {
    hide Shr5;
    var m: bv32 := 0x15ccfe9f;
    Leads(m);
    assert Shr5(0x15ccfe9f) == 0xae67f4 by { ShrCheckA5(); }
    assert Shr5(0xae67f4) == 0x5733f by { ShrCheckA4(); }
    assert Shr5(0x5733f) == 0x2b99 by { ShrCheckA3(); }
    assert Shr5(0x2b99) == 0x15c by { ShrCheckA2(); }
    assert Shr5(0x15c) == 0xa by { ShrCheckA1(); }
    LowCheckA0();
    LowCheckA1();
    LowCheckA2();
    LowCheckA3();
    LowCheckA4();
    LowCheckA5();
  }

  lemma ShrCheckA5() ensures Shr5(0x15ccfe9f) == 0xae67f4 {}
  lemma ShrCheckA4() ensures Shr5(0xae67f4) == 0x5733f {}
  lemma ShrCheckA3() ensures Shr5(0x5733f) == 0x2b99 {}
  lemma ShrCheckA2() ensures Shr5(0x2b99) == 0x15c {}
  lemma ShrCheckA1() ensures Shr5(0x15c) == 0xa {}
  lemma LowCheckA0() ensures Group(0xa & 31) == 10 {}
  lemma LowCheckA1() ensures Group(0x15c & 31) == 28 {}
  lemma LowCheckA2() ensures Group(0x2b99 & 31) == 25 {}
  lemma LowCheckA3() ensures Group(0x5733f & 31) == 31 {}
  lemma LowCheckA4() ensures Group(0xae67f4 & 31) == 20 {}
  lemma LowCheckA5() ensures Group(0x15ccfe9f & 31) == 31 {}

  lemma CheckA1()
    ensures FromWord(Unpack(0x322f0961)) == [25, 2, 30, 2, 11, 1]
  {
    hide Shr5;
    var m: bv32 := 0x322f0961;
    Leads(m);
    assert Shr5(0x322f0961) == 0x191784b by { ShrCheckA15(); }
    assert Shr5(0x191784b) == 0xc8bc2 by { ShrCheckA14(); }
    assert Shr5(0xc8bc2) == 0x645e by { ShrCheckA13(); }
    assert Shr5(0x645e) == 0x322 by { ShrCheckA12(); }
    assert Shr5(0x322) == 0x19 by { ShrCheckA11(); }
    LowCheckA10();
    LowCheckA11();
    LowCheckA12();
    LowCheckA13();
    LowCheckA14();
    LowCheckA15();
  }

  lemma ShrCheckA15() ensures Shr5(0x322f0961) == 0x191784b {}
  lemma ShrCheckA14() ensures Shr5(0x191784b) == 0xc8bc2 {}
  lemma ShrCheckA13() ensures Shr5(0xc8bc2) == 0x645e {}
  lemma ShrCheckA12() ensures Shr5(0x645e) == 0x322 {}
  lemma ShrCheckA11() ensures Shr5(0x322) == 0x19 {}
  lemma LowCheckA10() ensures Group(0x19 & 31) == 25 {}
  lemma LowCheckA11() ensures Group(0x322 & 31) == 2 {}
  lemma LowCheckA12() ensures Group(0x645e & 31) == 30 {}
  lemma LowCheckA13() ensures Group(0xc8bc2 & 31) == 2 {}
  lemma LowCheckA14() ensures Group(0x191784b & 31) == 11 {}
  lemma LowCheckA15() ensures Group(0x322f0961 & 31) == 1 {}

  lemma ExpandA()
    ensures HrpExpand("a") == [3, 0, 1] && ToWord([1]) == [1]
  {
  }

  /** Version 1, checked against the constant of BIP 350. */
  lemma VersionOne()
    ensures Encode("a", [1]) == "a1pez7ztp" && Decode("a1pez7ztp") == Some(Decoded("a", [1]))
  {
    hide PolyMod, HrpExpand, ToWord, Unpack, Xor, Decode, FromWord, Chars, CharFor, Printable, IsUpper;
    ExpandA();
    RemainderA1();
    ConstOne();
    assert [3, 0, 1] + [1] + Zeros(6) == [3, 0, 1, 1, 0, 0, 0, 0, 0, 0];
    CheckA1();
    assert [1] + [25, 2, 30, 2, 11, 1] == [1, 25, 2, 30, 2, 11, 1];
    Spelled();
    RoundTrip("a", [1]);
  }

  lemma Spelled()
    ensures Chars([1, 25, 2, 30, 2, 11, 1]) == "pez7ztp" && Chars([10, 28, 25, 31, 20, 31]) == "2uel5l"
    ensures ValidHrp("a")
  {
  }

  lemma ConstOne()
    ensures Xor(0x19e739c2, 0x2bc830a3) == 0x322f0961 && Xor(0x15ccfe9e, 1) == 0x15ccfe9f
  {
  }

  /** No data: the string of the standard is made, but not accepted. */
  lemma NoData()
    ensures Encode("a", []) == "a12uel5l" && Decode("a12uel5l").None?
  {
    hide PolyMod, HrpExpand, ToWord, Unpack, Xor, Decode, FromWord, Chars, CharFor, Printable, IsUpper;
    ExpandA();
    RemainderA();
    ConstOne();
    assert ToWord([]) == [];
    assert [3, 0, 1] + [] + Zeros(6) == [3, 0, 1, 0, 0, 0, 0, 0, 0];
    CheckA();
    assert [] + [10, 28, 25, 31, 20, 31] == [10, 28, 25, 31, 20, 31];
    Spelled();
    RoundTrip("a", []);
  }
}
