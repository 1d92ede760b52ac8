/**
  The normal forms of the powers of x up to x^88, and of the states from which up to 87 zero symbols
  lead to the difference of the two checksum constants.  All 176 of them are different.
 */
module Bech32Tables {
  import opened Bech32Code
  import opened Bech32Field
  import opened Bech32Orbits

  /** The difference of the constants of BIP 173 and BIP 350. */
  const GAP: bv32 := 0x2bc830a2

  /** Where a normal form is listed: 1 to 88 for the powers of x, from 100 on for the others, 0 for none. */
  function Rank(n: bv32): nat {
    if n < 0x0017ffc0 then Rank0(n)
    else if n < 0x021ffb80 then Rank1(n)
    else if n < 0x0241f100 then Rank2(n)
    else if n < 0x026bb1c0 then Rank3(n)
    else if n < 0x029a0760 then Rank4(n)
    else if n < 0x02bd17e0 then Rank5(n)
    else if n < 0x02e72e00 then Rank6(n)
    else if n < 0x02fda4a0 then Rank7(n)
    else if n < 0x03237ee0 then Rank8(n)
    else if n < 0x0344f7a0 then Rank9(n)
    else if n < 0x037531e0 then Rank10(n)
    else if n < 0x03991ca0 then Rank11(n)
    else if n < 0x03bd9ac0 then Rank12(n)
    else if n < 0x03d10720 then Rank13(n)
    else if n < 0x03e4fa40 then Rank14(n)
    else Rank15(n)
  }

  function Rank0(n: bv32): nat {
    if n == 0x00000020 then 1 else if n == 0x00000400 then 2 else if n == 0x00008000 then 3
    else if n == 0x00100000 then 4 else if n == 0x00118e20 then 171 else if n == 0x0011e2a0 then 136
    else if n == 0x001246c0 then 184 else if n == 0x00127200 then 113 else if n == 0x00135d60 then 27
    else if n == 0x00156c00 then 51 else if n == 0x00173ae0 then 34 else 0
  }

  function Rank1(n: bv32): nat {
    if n == 0x0017ffc0 then 76 else if n == 0x0019e480 then 21 else if n == 0x001eed80 then 19
    else if n == 0x02000000 then 5 else if n == 0x0207a5a0 then 186 else if n == 0x020c24c0 then 73
    else if n == 0x021070e0 then 144 else if n == 0x02187f00 then 8 else if n == 0x02193ee0 then 173
    else if n == 0x021aa980 then 31 else if n == 0x021d13e0 then 84 else 0
  }

  function Rank2(n: bv32): nat {
    if n == 0x021ffb80 then 56 else if n == 0x0222d7c0 then 148 else if n == 0x02242a60 then 133
    else if n == 0x022638a0 then 169 else if n == 0x022c81c0 then 124 else if n == 0x022e7f80 then 25
    else if n == 0x02308980 then 74 else if n == 0x0231a480 then 149 else if n == 0x0231c4a0 then 170
    else if n == 0x023c1580 then 68 else if n == 0x023c55a0 then 135 else 0
  }

  function Rank3(n: bv32): nat {
    if n == 0x0241f100 then 106 else if n == 0x0248d980 then 183 else if n == 0x024adbe0 then 118
    else if n == 0x024e2440 then 101 else if n == 0x024e4200 then 112 else if n == 0x02581200 then 43
    else if n == 0x0259d220 then 12 else if n == 0x02600140 then 166 else if n == 0x0260a920 then 102
    else if n == 0x026535c0 then 108 else if n == 0x026bae00 then 28 else 0
  }

  function Rank4(n: bv32): nat {
    if n == 0x026bb1c0 then 140 else if n == 0x026c9ee0 then 142 else if n == 0x026e3ba0 then 177
    else if n == 0x02700620 then 180 else if n == 0x02720c40 then 9 else if n == 0x027652e0 then 145
    else if n == 0x0279d000 then 123 else if n == 0x027da680 then 157 else if n == 0x02814b00 then 48
    else if n == 0x028686c0 then 60 else if n == 0x0289d4a0 then 143 else 0
  }

  function Rank5(n: bv32): nat {
    if n == 0x029a0760 then 107 else if n == 0x029aea40 then 178 else if n == 0x02a094c0 then 7
    else if n == 0x02a2aca0 then 54 else if n == 0x02a607a0 then 110 else if n == 0x02aad560 then 10
    else if n == 0x02ab67c0 then 72 else if n == 0x02acbce0 then 44 else if n == 0x02ad8180 then 52
    else if n == 0x02b61f00 then 105 else if n == 0x02b87640 then 152 else 0
  }

  function Rank6(n: bv32): nat {
    if n == 0x02bd17e0 then 121 else if n == 0x02bdcec0 then 46 else if n == 0x02c3e760 then 30
    else if n == 0x02c66e40 then 67 else if n == 0x02caca00 then 63 else if n == 0x02d80e80 then 36
    else if n == 0x02d9e720 then 131 else if n == 0x02df7b20 then 127 else if n == 0x02e3d2a0 then 167
    else if n == 0x02e3d7c0 then 141 else if n == 0x02e468e0 then 119 else 0
  }

  function Rank7(n: bv32): nat {
    if n == 0x02e72e00 then 132 else if n == 0x02e75d20 then 35 else if n == 0x02e7a460 then 85
    else if n == 0x02ebb560 then 81 else if n == 0x02f03220 then 13 else if n == 0x02f34ce0 then 111
    else if n == 0x02f3a0c0 then 100 else if n == 0x02f4af40 then 150 else if n == 0x02f5e560 then 47
    else if n == 0x02fac880 then 69 else if n == 0x02fc58e0 then 37 else 0
  }

  function Rank8(n: bv32): nat {
    if n == 0x02fda4a0 then 134 else if n == 0x02ffbee0 then 16 else if n == 0x02fff880 then 77
    else if n == 0x030184e0 then 182 else if n == 0x0301b2c0 then 160 else if n == 0x030ff080 then 71
    else if n == 0x03146980 then 155 else if n == 0x03150400 then 40 else if n == 0x0318d780 then 163
    else if n == 0x03208940 then 61 else if n == 0x03236be0 then 58 else 0
  }

  function Rank9(n: bv32): nat {
    if n == 0x03237ee0 then 162 else if n == 0x03295340 then 181 else if n == 0x0329b600 then 159
    else if n == 0x033110a0 then 128 else if n == 0x033677e0 then 62 else if n == 0x03388e00 then 87
    else if n == 0x033a2360 then 138 else if n == 0x033c7ba0 then 174 else if n == 0x033c9280 then 22
    else if n == 0x033f9980 then 176 else if n == 0x03413800 then 156 else 0
  }

  function Rank10(n: bv32): nat {
    if n == 0x0344f7a0 then 103 else if n == 0x034526c0 then 88 else if n == 0x03471aa0 then 65
    else if n == 0x03476d00 then 78 else if n == 0x0348fb40 then 126 else if n == 0x034aaf80 then 17
    else if n == 0x0351ae60 then 175 else if n == 0x0361bf40 then 117 else if n == 0x03635a00 then 115
    else if n == 0x0364ade0 then 164 else if n == 0x03669200 then 154 else 0
  }

  function Rank11(n: bv32): nat {
    if n == 0x037531e0 then 45 else if n == 0x0377cac0 then 147 else if n == 0x0377d960 then 14
    else if n == 0x037d1140 then 82 else if n == 0x037dc6e0 then 32 else if n == 0x038245e0 then 49
    else if n == 0x038587c0 then 38 else if n == 0x0386e220 then 158 else if n == 0x038e4aa0 then 125
    else if n == 0x038e9760 then 53 else if n == 0x03975500 then 109 else 0
  }

  function Rank12(n: bv32): nat {
    if n == 0x03991ca0 then 83 else if n == 0x039bc020 then 6 else if n == 0x039e33e0 then 116
    else if n == 0x03a29620 then 41 else if n == 0x03a789a0 then 165 else if n == 0x03aa6380 then 86
    else if n == 0x03ab4060 then 187 else if n == 0x03aeee60 then 70 else if n == 0x03b43da0 then 42
    else if n == 0x03b4c760 then 179 else if n == 0x03bd38a0 then 24 else 0
  }

  function Rank13(n: bv32): nat {
    if n == 0x03bd9ac0 then 168 else if n == 0x03bdf640 then 80 else if n == 0x03beacc0 then 151
    else if n == 0x03bf6b00 then 23 else if n == 0x03c35f20 then 161 else if n == 0x03c478e0 then 130
    else if n == 0x03c99c20 then 11 else if n == 0x03ce9100 then 153 else if n == 0x03cf6680 then 59
    else if n == 0x03d0bd00 then 50 else if n == 0x03d0ea60 then 185 else 0
  }

  function Rank14(n: bv32): nat {
    if n == 0x03d10720 then 137 else if n == 0x03d30760 then 18 else if n == 0x03d34920 then 75
    else if n == 0x03d5eb60 then 172 else if n == 0x03d913c0 then 114 else if n == 0x03d93360 then 26
    else if n == 0x03da2120 then 33 else if n == 0x03ddb080 then 20 else if n == 0x03e10220 then 66
    else if n == 0x03e176e0 then 29 else if n == 0x03e1bf60 then 104 else 0
  }

  function Rank15(n: bv32): nat {
    if n == 0x03e4fa40 then 57 else if n == 0x03e505a0 then 139 else if n == 0x03e54b20 then 129
    else if n == 0x03e62ac0 then 39 else if n == 0x03e94360 then 79 else if n == 0x03f027e0 then 122
    else if n == 0x03f40d60 then 15 else if n == 0x03f51100 then 120 else if n == 0x03fa0c00 then 55
    else if n == 0x03fba320 then 64 else if n == 0x03fc3280 then 146 else 0
  }

  /** Symbol e takes the upper part of c to its normal form n, which is listed under r. */
  ghost predicate Row(c: bv32, e: bv32, n: bv32, r: nat) {
    0 < e < 32 && Times(Upper(c), e) == n && Leading(n) == 1 && Rank(n) == r
  }

  /** A state whose normal form is listed. */
  ghost predicate Listed(c: bv32, r: nat) {
    exists n: bv32 :: Normal(c, n) && Rank(n) == r
  }

  lemma RowListed(c: bv32, e: bv32, n: bv32, r: nat)
    requires Row(c, e, n, r)
    ensures Listed(c, r)
  {
    hide Rank, Normal, Times, Upper, Leading;
    NormalByTimes(c, e, n);
  }

  // ------------------------------------------------------------------ powers of x

  /** x^d is listed under d. */
  ghost predicate PowerListed(d: nat) {
    Listed(ShiftBy(1, d), d)
  }

  predicate IsPower(d: nat, c: bv32) {
    ShiftBy(1, d) == c
  }

  lemma Next(d: nat, c: bv32, next: bv32, e: bv32, n: bv32)
    requires IsPower(d, c) && Shift(c) == next && Row(next, e, n, d + 1)
    ensures IsPower(d + 1, next) && PowerListed(d + 1)
  {
    hide Shift, Row, Listed;
    RowListed(next, e, n, d + 1);
  }

  lemma Power0() ensures IsPower(0, 1) {}

  lemma Power1() ensures IsPower(1, 0x00000020) && PowerListed(1)
  { hide IsPower, PowerListed; Power0(); Next(0, 0x00000001, 0x00000020, 1, 0x00000020); }
  lemma Power2() ensures IsPower(2, 0x00000400) && PowerListed(2)
  { hide IsPower, PowerListed; Power1(); Next(1, 0x00000020, 0x00000400, 1, 0x00000400); }
  lemma Power3() ensures IsPower(3, 0x00008000) && PowerListed(3)
  { hide IsPower, PowerListed; Power2(); Next(2, 0x00000400, 0x00008000, 1, 0x00008000); }
  lemma Power4() ensures IsPower(4, 0x00100000) && PowerListed(4)
  { hide IsPower, PowerListed; Power3(); Next(3, 0x00008000, 0x00100000, 1, 0x00100000); }
  lemma Power5() ensures IsPower(5, 0x02000000) && PowerListed(5)
  { hide IsPower, PowerListed; Power4(); Next(4, 0x00100000, 0x02000000, 1, 0x02000000); }
  lemma Power6() ensures IsPower(6, 0x3b6a57b2) && PowerListed(6)
  { hide IsPower, PowerListed; Power5(); Next(5, 0x02000000, 0x3b6a57b2, 7, 0x039bc020); }
  lemma Power7() ensures IsPower(7, 0x1fd7e966) && PowerListed(7)
  { hide IsPower, PowerListed; Power6(); Next(6, 0x3b6a57b2, 0x1fd7e966, 31, 0x02a094c0); }
  lemma Power8() ensures IsPower(8, 0x0424df38) && PowerListed(8)
  { hide IsPower, PowerListed; Power7(); Next(7, 0x1fd7e966, 0x0424df38, 20, 0x02187f00); }
  lemma Power9() ensures IsPower(9, 0x22cb696d) && PowerListed(9)
  { hide IsPower, PowerListed; Power8(); Next(8, 0x0424df38, 0x22cb696d, 18, 0x02720c40); }
  lemma Power10() ensures IsPower(10, 0x081318a1) && PowerListed(10)
  { hide IsPower, PowerListed; Power9(); Next(9, 0x22cb696d, 0x081318a1, 10, 0x02aad560); }
  lemma Power11() ensures IsPower(11, 0x1cc20dda) && PowerListed(11)
  { hide IsPower, PowerListed; Power10(); Next(10, 0x081318a1, 0x1cc20dda, 26, 0x03c99c20); }
  lemma Power12() ensures IsPower(12, 0x1df21f0a) && PowerListed(12)
  { hide IsPower, PowerListed; Power11(); Next(11, 0x1cc20dda, 0x1df21f0a, 26, 0x0259d220); }
  lemma Power13() ensures IsPower(13, 0x3bf0450a) && PowerListed(13)
  { hide IsPower, PowerListed; Power12(); Next(12, 0x1df21f0a, 0x3bf0450a, 7, 0x02f03220); }
  lemma Power14() ensures IsPower(14, 0x0c95be66) && PowerListed(14)
  { hide IsPower, PowerListed; Power13(); Next(13, 0x3bf0450a, 0x0c95be66, 12, 0x0377d960); }
  lemma Power15() ensures IsPower(15, 0x2a465b57) && PowerListed(15)
  { hide IsPower, PowerListed; Power14(); Next(14, 0x0c95be66, 0x2a465b57, 25, 0x03f40d60); }
  lemma Power16() ensures IsPower(16, 0x0714461b) && PowerListed(16)
  { hide IsPower, PowerListed; Power15(); Next(15, 0x2a465b57, 0x0714461b, 24, 0x02ffbee0); }
  lemma Power17() ensures IsPower(17, 0x3fb21abf) && PowerListed(17)
  { hide IsPower, PowerListed; Power16(); Next(16, 0x0714461b, 0x3fb21abf, 15, 0x034aaf80); }
  lemma Power18() ensures IsPower(18, 0x228ec6ab) && PowerListed(18)
  { hide IsPower, PowerListed; Power17(); Next(17, 0x3fb21abf, 0x228ec6ab, 18, 0x03d30760); }
  lemma Power19() ensures IsPower(19, 0x00a6e061) && PowerListed(19)
  { hide IsPower, PowerListed; Power18(); Next(18, 0x228ec6ab, 0x00a6e061, 4, 0x001eed80); }
  lemma Power20() ensures IsPower(20, 0x14dc0c20) && PowerListed(20)
  { hide IsPower, PowerListed; Power19(); Next(19, 0x00a6e061, 0x14dc0c20, 4, 0x03ddb080); }
  lemma Power21() ensures IsPower(21, 0x009339b0) && PowerListed(21)
  { hide IsPower, PowerListed; Power20(); Next(20, 0x14dc0c20, 0x009339b0, 11, 0x0019e480); }
  lemma Power22() ensures IsPower(22, 0x12673600) && PowerListed(22)
  { hide IsPower, PowerListed; Power21(); Next(21, 0x009339b0, 0x12673600, 11, 0x033c9280); }
  lemma Power23() ensures IsPower(23, 0x0acea46f) && PowerListed(23)
  { hide IsPower, PowerListed; Power22(); Next(22, 0x12673600, 0x0acea46f, 8, 0x03bf6b00); }
  lemma Power24() ensures IsPower(24, 0x3c1fc3a8) && PowerListed(24)
  { hide IsPower, PowerListed; Power23(); Next(23, 0x0acea46f, 0x3c1fc3a8, 27, 0x03bd38a0); }
  lemma Power25() ensures IsPower(25, 0x2c5fb3f9) && PowerListed(25)
  { hide IsPower, PowerListed; Power24(); Next(24, 0x3c1fc3a8, 0x2c5fb3f9, 16, 0x022e7f80); }
  lemma Power26() ensures IsPower(26, 0x19138a04) && PowerListed(26)
  { hide IsPower, PowerListed; Power25(); Next(25, 0x2c5fb3f9, 0x19138a04, 6, 0x03d93360); }
  lemma Power27() ensures IsPower(27, 0x01926aa7) && PowerListed(27)
  { hide IsPower, PowerListed; Power26(); Next(26, 0x19138a04, 0x01926aa7, 21, 0x00135d60); }
  lemma Power28() ensures IsPower(28, 0x324d54e0) && PowerListed(28)
  { hide IsPower, PowerListed; Power27(); Next(27, 0x01926aa7, 0x324d54e0, 21, 0x026bae00); }
  lemma Power29() ensures IsPower(29, 0x25969adc) && PowerListed(29)
  { hide IsPower, PowerListed; Power28(); Next(28, 0x324d54e0, 0x25969adc, 17, 0x03e176e0); }
  lemma Power30() ensures IsPower(30, 0x3e97b75e) && PowerListed(30)
  { hide IsPower, PowerListed; Power29(); Next(29, 0x25969adc, 0x3e97b75e, 15, 0x02c3e760); }
  lemma Power31() ensures IsPower(31, 0x063b7a8b) && PowerListed(31)
  { hide IsPower, PowerListed; Power30(); Next(30, 0x3e97b75e, 0x063b7a8b, 24, 0x021aa980); }
  lemma Power32() ensures IsPower(32, 0x1a5588bf) && PowerListed(32)
  { hide IsPower, PowerListed; Power31(); Next(31, 0x063b7a8b, 0x1a5588bf, 28, 0x037dc6e0); }
  lemma Power33() ensures IsPower(33, 0x12386a75) && PowerListed(33)
  { hide IsPower, PowerListed; Power32(); Next(32, 0x1a5588bf, 0x12386a75, 11, 0x03da2120); }
  lemma Power34() ensures IsPower(34, 0x01252acf) && PowerListed(34)
  { hide IsPower, PowerListed; Power33(); Next(33, 0x12386a75, 0x01252acf, 17, 0x00173ae0); }
  lemma Power35() ensures IsPower(35, 0x24a559e0) && PowerListed(35)
  { hide IsPower, PowerListed; Power34(); Next(34, 0x01252acf, 0x24a559e0, 17, 0x02e75d20); }
  lemma Power36() ensures IsPower(36, 0x18efd0de) && PowerListed(36)
  { hide IsPower, PowerListed; Power35(); Next(35, 0x24a559e0, 0x18efd0de, 6, 0x02d80e80); }
  lemma Power37() ensures IsPower(37, 0x3e1931e7) && PowerListed(37)
  { hide IsPower, PowerListed; Power36(); Next(36, 0x18efd0de, 0x3e1931e7, 15, 0x02fc58e0); }
  lemma Power38() ensures IsPower(38, 0x17ebadab) && PowerListed(38)
  { hide IsPower, PowerListed; Power37(); Next(37, 0x3e1931e7, 0x17ebadab, 9, 0x038587c0); }
  lemma Power39() ensures IsPower(39, 0x1d0d5f62) && PowerListed(39)
  { hide IsPower, PowerListed; Power38(); Next(38, 0x17ebadab, 0x1d0d5f62, 26, 0x03e62ac0); }
  lemma Power40() ensures IsPower(40, 0x2418480a) && PowerListed(40)
  { hide IsPower, PowerListed; Power39(); Next(39, 0x1d0d5f62, 0x2418480a, 17, 0x03150400); }
  lemma Power41() ensures IsPower(41, 0x0f4ded9e) && PowerListed(41)
  { hide IsPower, PowerListed; Power40(); Next(40, 0x2418480a, 0x0f4ded9e, 29, 0x03a29620); }
  lemma Power42() ensures IsPower(42, 0x2a2673e5) && PowerListed(42)
  { hide IsPower, PowerListed; Power41(); Next(41, 0x0f4ded9e, 0x2a2673e5, 25, 0x03b43da0); }
  lemma Power43() ensures IsPower(43, 0x0b11505b) && PowerListed(43)
  { hide IsPower, PowerListed; Power42(); Next(42, 0x2a2673e5, 0x0b11505b, 8, 0x02581200); }
  lemma Power44() ensures IsPower(44, 0x07e14528) && PowerListed(44)
  { hide IsPower, PowerListed; Power43(); Next(43, 0x0b11505b, 0x07e14528, 24, 0x02acbce0); }
  lemma Power45() ensures IsPower(45, 0x21127cdf) && PowerListed(45)
  { hide IsPower, PowerListed; Power44(); Next(44, 0x07e14528, 0x21127cdf, 22, 0x037531e0); }
  lemma Power46() ensures IsPower(46, 0x085bf953) && PowerListed(46)
  { hide IsPower, PowerListed; Power45(); Next(45, 0x21127cdf, 0x085bf953, 10, 0x02bdcec0); }
  lemma Power47() ensures IsPower(47, 0x15de339a) && PowerListed(47)
  { hide IsPower, PowerListed; Power46(); Next(46, 0x085bf953, 0x15de339a, 4, 0x02f5e560); }
  lemma Power48() ensures IsPower(48, 0x20d4cef0) && PowerListed(48)
  { hide IsPower, PowerListed; Power47(); Next(47, 0x15de339a, 0x20d4cef0, 22, 0x02814b00); }
  lemma Power49() ensures IsPower(49, 0x308dbcb3) && PowerListed(49)
  { hide IsPower, PowerListed; Power48(); Next(48, 0x20d4cef0, 0x308dbcb3, 3, 0x038245e0); }
  lemma Power50() ensures IsPower(50, 0x06e1c70e) && PowerListed(50)
  { hide IsPower, PowerListed; Power49(); Next(49, 0x308dbcb3, 0x06e1c70e, 24, 0x03d0bd00); }
  lemma Power51() ensures IsPower(51, 0x0102381f) && PowerListed(51)
  { hide IsPower, PowerListed; Power50(); Next(50, 0x06e1c70e, 0x0102381f, 22, 0x00156c00); }
  lemma Power52() ensures IsPower(52, 0x204703e0) && PowerListed(52)
  { hide IsPower, PowerListed; Power51(); Next(51, 0x0102381f, 0x204703e0, 22, 0x02ad8180); }
  lemma Power53() ensures IsPower(53, 0x22f41eb3) && PowerListed(53)
  { hide IsPower, PowerListed; Power52(); Next(52, 0x204703e0, 0x22f41eb3, 18, 0x038e9760); }
  lemma Power54() ensures IsPower(54, 0x0ffde361) && PowerListed(54)
  { hide IsPower, PowerListed; Power53(); Next(53, 0x22f41eb3, 0x0ffde361, 29, 0x02a2aca0); }
  lemma Power55() ensures IsPower(55, 0x3c27ac05) && PowerListed(55)
  { hide IsPower, PowerListed; Power54(); Next(54, 0x0ffde361, 0x3c27ac05, 27, 0x03fa0c00); }
  lemma Power56() ensures IsPower(56, 0x2b524659) && PowerListed(56)
  { hide IsPower, PowerListed; Power55(); Next(55, 0x3c27ac05, 0x2b524659, 25, 0x021ffb80); }
  lemma Power57() ensures IsPower(57, 0x2597e7db) && PowerListed(57)
  { hide IsPower, PowerListed; Power56(); Next(56, 0x2b524659, 0x2597e7db, 17, 0x03e4fa40); }
  lemma Power58() ensures IsPower(58, 0x3eb817be) && PowerListed(58)
  { hide IsPower, PowerListed; Power57(); Next(57, 0x2597e7db, 0x3eb817be, 15, 0x03236be0); }
  lemma Power59() ensures IsPower(59, 0x03cf668b) && PowerListed(59)
  { hide IsPower, PowerListed; Power58(); Next(58, 0x3eb817be, 0x03cf668b, 1, 0x03cf6680); }
  lemma Power60() ensures IsPower(60, 0x028686d2) && PowerListed(60)
  { hide IsPower, PowerListed; Power59(); Next(59, 0x03cf668b, 0x028686d2, 1, 0x028686c0); }
  lemma Power61() ensures IsPower(61, 0x2bba8df2) && PowerListed(61)
  { hide IsPower, PowerListed; Power60(); Next(60, 0x028686d2, 0x2bba8df2, 25, 0x03208940); }
  lemma Power62() ensures IsPower(62, 0x388e92bb) && PowerListed(62)
  { hide IsPower, PowerListed; Power61(); Next(61, 0x2bba8df2, 0x388e92bb, 13, 0x033677e0); }
  lemma Power63() ensures IsPower(63, 0x18251ff4) && PowerListed(63)
  { hide IsPower, PowerListed; Power62(); Next(62, 0x388e92bb, 0x18251ff4, 6, 0x02caca00); }
  lemma Power64() ensures IsPower(64, 0x2740d4a7) && PowerListed(64)
  { hide IsPower, PowerListed; Power63(); Next(63, 0x18251ff4, 0x2740d4a7, 23, 0x03fba320); }
  lemma Power65() ensures IsPower(65, 0x1f342f8c) && PowerListed(65)
  { hide IsPower, PowerListed; Power64(); Next(64, 0x2740d4a7, 0x1f342f8c, 31, 0x03471aa0); }
  lemma Power66() ensures IsPower(66, 0x185c0278) && PowerListed(66)
  { hide IsPower, PowerListed; Power65(); Next(65, 0x1f342f8c, 0x185c0278, 6, 0x03e10220); }
  lemma Power67() ensures IsPower(67, 0x28636527) && PowerListed(67)
  { hide IsPower, PowerListed; Power66(); Next(66, 0x185c0278, 0x28636527, 2, 0x02c66e40); }
  lemma Power68() ensures IsPower(68, 0x38d9dfa9) && PowerListed(68)
  { hide IsPower, PowerListed; Power67(); Next(67, 0x28636527, 0x38d9dfa9, 13, 0x023c1580); }
  lemma Power69() ensures IsPower(69, 0x12ccbdb4) && PowerListed(69)
  { hide IsPower, PowerListed; Power68(); Next(68, 0x38d9dfa9, 0x12ccbdb4, 11, 0x02fac880); }
  lemma Power70() ensures IsPower(70, 0x1fbfd2ef) && PowerListed(70)
  { hide IsPower, PowerListed; Power69(); Next(69, 0x12ccbdb4, 0x1fbfd2ef, 31, 0x03aeee60); }
  lemma Power71() ensures IsPower(71, 0x0923ae18) && PowerListed(71)
  { hide IsPower, PowerListed; Power70(); Next(70, 0x1fbfd2ef, 0x0923ae18, 10, 0x030ff080); }
  lemma Power72() ensures IsPower(72, 0x3ad4dafa) && PowerListed(72)
  { hide IsPower, PowerListed; Power71(); Next(71, 0x0923ae18, 0x3ad4dafa, 7, 0x02ab67c0); }
  lemma Power73() ensures IsPower(73, 0x28064066) && PowerListed(73)
  { hide IsPower, PowerListed; Power72(); Next(72, 0x3ad4dafa, 0x28064066, 2, 0x020c24c0); }
  lemma Power74() ensures IsPower(74, 0x347d7789) && PowerListed(74)
  { hide IsPower, PowerListed; Power73(); Next(73, 0x28064066, 0x347d7789, 14, 0x02308980); }
  lemma Power75() ensures IsPower(75, 0x3ea82e23) && PowerListed(75)
  { hide IsPower, PowerListed; Power74(); Next(74, 0x347d7789, 0x3ea82e23, 15, 0x03d34920); }
  lemma Power76() ensures IsPower(76, 0x01c8552b) && PowerListed(76)
  { hide IsPower, PowerListed; Power75(); Next(75, 0x3ea82e23, 0x01c8552b, 13, 0x0017ffc0); }
  lemma Power77() ensures IsPower(77, 0x390aa560) && PowerListed(77)
  { hide IsPower, PowerListed; Power76(); Next(76, 0x01c8552b, 0x390aa560, 13, 0x02fff880); }
  lemma Power78() ensures IsPower(78, 0x28a3e494) && PowerListed(78)
  { hide IsPower, PowerListed; Power77(); Next(77, 0x390aa560, 0x28a3e494, 2, 0x03476d00); }
  lemma Power79() ensures IsPower(79, 0x20c9e9c9) && PowerListed(79)
  { hide IsPower, PowerListed; Power78(); Next(78, 0x28a3e494, 0x20c9e9c9, 22, 0x03e94360); }
  lemma Power80() ensures IsPower(80, 0x33295b93) && PowerListed(80)
  { hide IsPower, PowerListed; Power79(); Next(79, 0x20c9e9c9, 0x33295b93, 21, 0x03bdf640); }
  lemma Power81() ensures IsPower(81, 0x091774bc) && PowerListed(81)
  { hide IsPower, PowerListed; Power80(); Next(80, 0x33295b93, 0x091774bc, 10, 0x02ebb560); }
  lemma Power82() ensures IsPower(82, 0x3c4f8e7a) && PowerListed(82)
  { hide IsPower, PowerListed; Power81(); Next(81, 0x091774bc, 0x3c4f8e7a, 27, 0x037d1140); }
  lemma Power83() ensures IsPower(83, 0x265609b9) && PowerListed(83)
  { hide IsPower, PowerListed; Power82(); Next(82, 0x3c4f8e7a, 0x265609b9, 23, 0x03991ca0); }
  lemma Power84() ensures IsPower(84, 0x3def8c4c) && PowerListed(84)
  { hide IsPower, PowerListed; Power83(); Next(83, 0x265609b9, 0x3def8c4c, 27, 0x021d13e0); }
  lemma Power85() ensures IsPower(85, 0x12564f79) && PowerListed(85)
  { hide IsPower, PowerListed; Power84(); Next(84, 0x3def8c4c, 0x12564f79, 11, 0x02e7a460); }
  lemma Power86() ensures IsPower(86, 0x0ce18b4f) && PowerListed(86)
  { hide IsPower, PowerListed; Power85(); Next(85, 0x12564f79, 0x0ce18b4f, 12, 0x03aa6380); }
  lemma Power87() ensures IsPower(87, 0x24c0fe77) && PowerListed(87)
  { hide IsPower, PowerListed; Power86(); Next(86, 0x0ce18b4f, 0x24c0fe77, 17, 0x03388e00); }
  lemma Power88() ensures IsPower(88, 0x145b223e) && PowerListed(88)
  { hide IsPower, PowerListed; Power87(); Next(87, 0x24c0fe77, 0x145b223e, 4, 0x034526c0); }

  lemma PowersFrom1(d: nat)
    requires 1 <= d <= 22
    ensures PowerListed(d)
  {
    hide PowerListed, IsPower;
    if d == 1 { Power1(); } else if d == 2 { Power2(); } else if d == 3 { Power3(); }
    else if d == 4 { Power4(); } else if d == 5 { Power5(); } else if d == 6 { Power6(); }
    else if d == 7 { Power7(); } else if d == 8 { Power8(); } else if d == 9 { Power9(); }
    else if d == 10 { Power10(); } else if d == 11 { Power11(); } else if d == 12 { Power12(); }
    else if d == 13 { Power13(); } else if d == 14 { Power14(); } else if d == 15 { Power15(); }
    else if d == 16 { Power16(); } else if d == 17 { Power17(); } else if d == 18 { Power18(); }
    else if d == 19 { Power19(); } else if d == 20 { Power20(); } else if d == 21 { Power21(); }
    else { Power22(); }
  }

  lemma PowersFrom23(d: nat)
    requires 23 <= d <= 44
    ensures PowerListed(d)
  {
    hide PowerListed, IsPower;
    if d == 23 { Power23(); } else if d == 24 { Power24(); } else if d == 25 { Power25(); }
    else if d == 26 { Power26(); } else if d == 27 { Power27(); } else if d == 28 { Power28(); }
    else if d == 29 { Power29(); } else if d == 30 { Power30(); } else if d == 31 { Power31(); }
    else if d == 32 { Power32(); } else if d == 33 { Power33(); } else if d == 34 { Power34(); }
    else if d == 35 { Power35(); } else if d == 36 { Power36(); } else if d == 37 { Power37(); }
    else if d == 38 { Power38(); } else if d == 39 { Power39(); } else if d == 40 { Power40(); }
    else if d == 41 { Power41(); } else if d == 42 { Power42(); } else if d == 43 { Power43(); }
    else { Power44(); }
  }

  lemma PowersFrom45(d: nat)
    requires 45 <= d <= 66
    ensures PowerListed(d)
  {
    hide PowerListed, IsPower;
    if d == 45 { Power45(); } else if d == 46 { Power46(); } else if d == 47 { Power47(); }
    else if d == 48 { Power48(); } else if d == 49 { Power49(); } else if d == 50 { Power50(); }
    else if d == 51 { Power51(); } else if d == 52 { Power52(); } else if d == 53 { Power53(); }
    else if d == 54 { Power54(); } else if d == 55 { Power55(); } else if d == 56 { Power56(); }
    else if d == 57 { Power57(); } else if d == 58 { Power58(); } else if d == 59 { Power59(); }
    else if d == 60 { Power60(); } else if d == 61 { Power61(); } else if d == 62 { Power62(); }
    else if d == 63 { Power63(); } else if d == 64 { Power64(); } else if d == 65 { Power65(); }
    else { Power66(); }
  }

  lemma PowersFrom67(d: nat)
    requires 67 <= d <= 88
    ensures PowerListed(d)
  {
    hide PowerListed, IsPower;
    if d == 67 { Power67(); } else if d == 68 { Power68(); } else if d == 69 { Power69(); }
    else if d == 70 { Power70(); } else if d == 71 { Power71(); } else if d == 72 { Power72(); }
    else if d == 73 { Power73(); } else if d == 74 { Power74(); } else if d == 75 { Power75(); }
    else if d == 76 { Power76(); } else if d == 77 { Power77(); } else if d == 78 { Power78(); }
    else if d == 79 { Power79(); } else if d == 80 { Power80(); } else if d == 81 { Power81(); }
    else if d == 82 { Power82(); } else if d == 83 { Power83(); } else if d == 84 { Power84(); }
    else if d == 85 { Power85(); } else if d == 86 { Power86(); } else if d == 87 { Power87(); }
    else { Power88(); }
  }

  lemma PowersListed(d: nat)
    requires 1 <= d <= 88
    ensures PowerListed(d)
  {
    hide PowerListed;
    if d < 23 { PowersFrom1(d); }
    else if d < 45 { PowersFrom23(d); }
    else if d < 67 { PowersFrom45(d); }
    else { PowersFrom67(d); }
  }

  // ----------------------------------------------------------- the way to the gap

  /** After d zeros the state is the difference of the constants. */
  predicate Leads(d: nat, c: bv32) {
    c < LIMIT && ShiftBy(c, d) == GAP
  }

  /** The state from which d zeros lead there is listed under 100 + d. */
  ghost predicate GapListed(d: nat) {
    exists c: bv32 :: Leads(d, c) && Listed(c, 100 + d)
  }

  lemma Former(d: nat, c: bv32, former: bv32, e: bv32, n: bv32)
    requires Leads(d, c) && Shift(former) == c && former < LIMIT && Row(former, e, n, 101 + d)
    ensures Leads(d + 1, former) && GapListed(d + 1)
  {
    hide Shift, Row, Listed;
    ShiftByTwice(former, 1, d);
    ShiftOnce(former);
    RowListed(former, e, n, 101 + d);
  }

  lemma ShiftOnce(c: bv32)
    ensures ShiftBy(c, 1) == Shift(c)
  {
    hide Shift;
    assert ShiftBy(c, 0) == c;
  }

  lemma Gap0()
    ensures Leads(0, 0x2bc830a2) && GapListed(0)
  {
    RowListed(0x2bc830a2, 25, 0x02f3a0c0, 100);
    assert Leads(0, GAP);
  }

  lemma Gap1() ensures Leads(1, 0x165d86d5) && GapListed(1)
  { hide Leads, GapListed; Gap0(); Former(0, 0x2bc830a2, 0x165d86d5, 9, 0x024e2440); }
  lemma Gap2() ensures Leads(2, 0x1a76a7da) && GapListed(2)
  { hide Leads, GapListed; Gap1(); Former(1, 0x165d86d5, 0x1a76a7da, 28, 0x0260a920); }
  lemma Gap3() ensures Leads(3, 0x0826bdf1) && GapListed(3)
  { hide Leads, GapListed; Gap2(); Former(2, 0x1a76a7da, 0x0826bdf1, 10, 0x0344f7a0); }
  lemma Gap4() ensures Leads(4, 0x361251aa) && GapListed(4)
  { hide Leads, GapListed; Gap3(); Former(3, 0x0826bdf1, 0x361251aa, 30, 0x03e1bf60); }
  lemma Gap5() ensures Leads(5, 0x1d9d0faf) && GapListed(5)
  { hide Leads, GapListed; Gap4(); Former(4, 0x361251aa, 0x1d9d0faf, 26, 0x02b61f00); }
  lemma Gap6() ensures Leads(6, 0x12ddab5e) && GapListed(6)
  { hide Leads, GapListed; Gap5(); Former(5, 0x1d9d0faf, 0x12ddab5e, 11, 0x0241f100); }
  lemma Gap7() ensures Leads(7, 0x24f4ca3c) && GapListed(7)
  { hide Leads, GapListed; Gap6(); Former(6, 0x12ddab5e, 0x24f4ca3c, 17, 0x029a0760); }
  lemma Gap8() ensures Leads(8, 0x32464667) && GapListed(8)
  { hide Leads, GapListed; Gap7(); Former(7, 0x24f4ca3c, 0x32464667, 21, 0x026535c0); }
  lemma Gap9() ensures Leads(9, 0x188d2b62) && GapListed(9)
  { hide Leads, GapListed; Gap8(); Former(8, 0x32464667, 0x188d2b62, 6, 0x03975500); }
  lemma Gap10() ensures Leads(10, 0x17c7ae0b) && GapListed(10)
  { hide Leads, GapListed; Gap9(); Former(9, 0x188d2b62, 0x17c7ae0b, 9, 0x02a607a0); }
  lemma Gap11() ensures Leads(11, 0x3e1851fa) && GapListed(11)
  { hide Leads, GapListed; Gap10(); Former(10, 0x17c7ae0b, 0x3e1851fa, 15, 0x02f34ce0); }
  lemma Gap12() ensures Leads(12, 0x0905ca40) && GapListed(12)
  { hide Leads, GapListed; Gap11(); Former(11, 0x3e1851fa, 0x0905ca40, 10, 0x024e4200); }
  lemma Gap13() ensures Leads(13, 0x00482e52) && GapListed(13)
  { hide Leads, GapListed; Gap12(); Former(12, 0x0905ca40, 0x00482e52, 10, 0x00127200); }
  lemma Gap14() ensures Leads(14, 0x03d913cf) && GapListed(14)
  { hide Leads, GapListed; Gap13(); Former(13, 0x00482e52, 0x03d913cf, 1, 0x03d913c0); }
  lemma Gap15() ensures Leads(15, 0x122f8bbd) && GapListed(15)
  { hide Leads, GapListed; Gap14(); Former(14, 0x03d913cf, 0x122f8bbd, 11, 0x03635a00); }
  lemma Gap16() ensures Leads(16, 0x117b6dc3) && GapListed(16)
  { hide Leads, GapListed; Gap15(); Former(15, 0x122f8bbd, 0x117b6dc3, 5, 0x039e33e0); }
  lemma Gap17() ensures Leads(17, 0x3503ed96) && GapListed(17)
  { hide Leads, GapListed; Gap16(); Former(16, 0x117b6dc3, 0x3503ed96, 14, 0x0361bf40); }
  lemma Gap18() ensures Leads(18, 0x2ee46278) && GapListed(18)
  { hide Leads, GapListed; Gap17(); Former(17, 0x3503ed96, 0x2ee46278, 19, 0x024adbe0); }
  lemma Gap19() ensures Leads(19, 0x1e81ec8c) && GapListed(19)
  { hide Leads, GapListed; Gap18(); Former(18, 0x2ee46278, 0x1e81ec8c, 31, 0x02e468e0); }
  lemma Gap20() ensures Leads(20, 0x274d7abf) && GapListed(20)
  { hide Leads, GapListed; Gap19(); Former(19, 0x1e81ec8c, 0x274d7abf, 23, 0x03f51100); }
  lemma Gap21() ensures Leads(21, 0x07d3bd1b) && GapListed(21)
  { hide Leads, GapListed; Gap20(); Former(20, 0x274d7abf, 0x07d3bd1b, 24, 0x02bd17e0); }
  lemma Gap22() ensures Leads(22, 0x2a40648f) && GapListed(22)
  { hide Leads, GapListed; Gap21(); Former(21, 0x07d3bd1b, 0x2a40648f, 25, 0x03f027e0); }
  lemma Gap23() ensures Leads(23, 0x13634007) && GapListed(23)
  { hide Leads, GapListed; Gap22(); Former(22, 0x2a40648f, 0x13634007, 11, 0x0279d000); }
  lemma Gap24() ensures Leads(24, 0x19840351) && GapListed(24)
  { hide Leads, GapListed; Gap23(); Former(23, 0x13634007, 0x19840351, 6, 0x022c81c0); }
  lemma Gap25() ensures Leads(25, 0x369f445f) && GapListed(25)
  { hide Leads, GapListed; Gap24(); Former(24, 0x19840351, 0x369f445f, 30, 0x038e4aa0); }
  lemma Gap26() ensures Leads(26, 0x075d2cec) && GapListed(26)
  { hide Leads, GapListed; Gap25(); Former(25, 0x369f445f, 0x075d2cec, 24, 0x0348fb40); }
  lemma Gap27() ensures Leads(27, 0x27839cbc) && GapListed(27)
  { hide Leads, GapListed; Gap26(); Former(26, 0x075d2cec, 0x27839cbc, 23, 0x02df7b20); }
  lemma Gap28() ensures Leads(28, 0x325dfcd3) && GapListed(28)
  { hide Leads, GapListed; Gap27(); Former(27, 0x27839cbc, 0x325dfcd3, 21, 0x033110a0); }
  lemma Gap29() ensures Leads(29, 0x20c24cf3) && GapListed(29)
  { hide Leads, GapListed; Gap28(); Former(28, 0x325dfcd3, 0x20c24cf3, 22, 0x03e54b20); }
  lemma Gap30() ensures Leads(30, 0x2056b172) && GapListed(30)
  { hide Leads, GapListed; Gap29(); Former(29, 0x20c24cf3, 0x2056b172, 22, 0x03c478e0); }
  lemma Gap31() ensures Leads(31, 0x02d9e736) && GapListed(31)
  { hide Leads, GapListed; Gap30(); Former(30, 0x2056b172, 0x02d9e736, 1, 0x02d9e720); }
  lemma Gap32() ensures Leads(32, 0x2f5ab22d) && GapListed(32)
  { hide Leads, GapListed; Gap31(); Former(31, 0x02d9e736, 0x2f5ab22d, 19, 0x02e72e00); }
  lemma Gap33() ensures Leads(33, 0x044851e2) && GapListed(33)
  { hide Leads, GapListed; Gap32(); Former(32, 0x2f5ab22d, 0x044851e2, 20, 0x02242a60); }
  lemma Gap34() ensures Leads(34, 0x172185df) && GapListed(34)
  { hide Leads, GapListed; Gap33(); Former(33, 0x044851e2, 0x172185df, 9, 0x02fda4a0); }
  lemma Gap35() ensures Leads(35, 0x0650dae0) && GapListed(35)
  { hide Leads, GapListed; Gap34(); Former(34, 0x172185df, 0x0650dae0, 24, 0x023c55a0); }
  lemma Gap36() ensures Leads(36, 0x003286d7) && GapListed(36)
  { hide Leads, GapListed; Gap35(); Former(35, 0x0650dae0, 0x003286d7, 24, 0x0011e2a0); }
  lemma Gap37() ensures Leads(37, 0x0dc6188a) && GapListed(37)
  { hide Leads, GapListed; Gap36(); Former(36, 0x003286d7, 0x0dc6188a, 12, 0x03d10720); }
  lemma Gap38() ensures Leads(38, 0x1c43ade6) && GapListed(38)
  { hide Leads, GapListed; Gap37(); Former(37, 0x0dc6188a, 0x1c43ade6, 26, 0x033a2360); }
  lemma Gap39() ensures Leads(39, 0x3b76f596) && GapListed(39)
  { hide Leads, GapListed; Gap38(); Former(38, 0x1c43ade6, 0x3b76f596, 7, 0x03e505a0); }
  lemma Gap40() ensures Leads(40, 0x2e97cab8) && GapListed(40)
  { hide Leads, GapListed; Gap39(); Former(39, 0x3b76f596, 0x2e97cab8, 19, 0x026bb1c0); }
  lemma Gap41() ensures Leads(41, 0x1e8271ca) && GapListed(41)
  { hide Leads, GapListed; Gap40(); Former(40, 0x2e97cab8, 0x1e8271ca, 31, 0x02e3d7c0); }
  lemma Gap42() ensures Leads(42, 0x1cd98eac) && GapListed(42)
  { hide Leads, GapListed; Gap41(); Former(41, 0x1e8271ca, 0x1cd98eac, 26, 0x026c9ee0); }
  lemma Gap43() ensures Leads(43, 0x275fb9ae) && GapListed(43)
  { hide Leads, GapListed; Gap42(); Former(42, 0x1cd98eac, 0x275fb9ae, 23, 0x0289d4a0); }
  lemma Gap44() ensures Leads(44, 0x31804f46) && GapListed(44)
  { hide Leads, GapListed; Gap43(); Former(43, 0x275fb9ae, 0x31804f46, 3, 0x021070e0); }
  lemma Gap45() ensures Leads(45, 0x3a18ea83) && GapListed(45)
  { hide Leads, GapListed; Gap44(); Former(44, 0x31804f46, 0x3a18ea83, 7, 0x027652e0); }
  lemma Gap46() ensures Leads(46, 0x3458f1ac) && GapListed(46)
  { hide Leads, GapListed; Gap45(); Former(45, 0x3a18ea83, 0x3458f1ac, 14, 0x03fc3280); }
  lemma Gap47() ensures Leads(47, 0x261bb256) && GapListed(47)
  { hide Leads, GapListed; Gap46(); Former(46, 0x3458f1ac, 0x261bb256, 23, 0x0377cac0); }
  lemma Gap48() ensures Leads(48, 0x2e7ca086) && GapListed(48)
  { hide Leads, GapListed; Gap47(); Former(47, 0x261bb256, 0x2e7ca086, 19, 0x0222d7c0); }
  lemma Gap49() ensures Leads(49, 0x3ae70dfd) && GapListed(49)
  { hide Leads, GapListed; Gap48(); Former(48, 0x2e7ca086, 0x3ae70dfd, 7, 0x0231a480); }
  lemma Gap50() ensures Leads(50, 0x103d29f1) && GapListed(50)
  { hide Leads, GapListed; Gap49(); Former(49, 0x3ae70dfd, 0x103d29f1, 5, 0x02f4af40); }
  lemma Gap51() ensures Leads(51, 0x36d28d0a) && GapListed(51)
  { hide Leads, GapListed; Gap50(); Former(50, 0x103d29f1, 0x36d28d0a, 30, 0x03beacc0); }
  lemma Gap52() ensures Leads(52, 0x1d9b094a) && GapListed(52)
  { hide Leads, GapListed; Gap51(); Former(51, 0x36d28d0a, 0x1d9b094a, 26, 0x02b87640); }
  lemma Gap53() ensures Leads(53, 0x1cc14568) && GapListed(53)
  { hide Leads, GapListed; Gap52(); Former(52, 0x1d9b094a, 0x1cc14568, 26, 0x03ce9100); }
  lemma Gap54() ensures Leads(54, 0x0bc85059) && GapListed(54)
  { hide Leads, GapListed; Gap53(); Former(53, 0x1cc14568, 0x0bc85059, 8, 0x03669200); }
  lemma Gap55() ensures Leads(55, 0x3d237cb5) && GapListed(55)
  { hide Leads, GapListed; Gap54(); Former(54, 0x0bc85059, 0x3d237cb5, 27, 0x03146980); }
  lemma Gap56() ensures Leads(56, 0x1b2d5009) && GapListed(56)
  { hide Leads, GapListed; Gap55(); Former(55, 0x3d237cb5, 0x1b2d5009, 28, 0x03413800); }
  lemma Gap57() ensures Leads(57, 0x297cc15a) && GapListed(57)
  { hide Leads, GapListed; Gap56(); Former(56, 0x1b2d5009, 0x297cc15a, 2, 0x027da680); }
  lemma Gap58() ensures Leads(58, 0x09beeec5) && GapListed(58)
  { hide Leads, GapListed; Gap57(); Former(57, 0x297cc15a, 0x09beeec5, 10, 0x0386e220); }
  lemma Gap59() ensures Leads(59, 0x0e512977) && GapListed(59)
  { hide Leads, GapListed; Gap58(); Former(58, 0x09beeec5, 0x0e512977, 29, 0x0329b600); }
  lemma Gap60() ensures Leads(60, 0x0db505f7) && GapListed(60)
  { hide Leads, GapListed; Gap59(); Former(59, 0x0e512977, 0x0db505f7, 12, 0x0301b2c0); }
  lemma Gap61() ensures Leads(61, 0x0daa2493) && GapListed(61)
  { hide Leads, GapListed; Gap60(); Former(60, 0x0db505f7, 0x0daa2493, 12, 0x03c35f20); }
  lemma Gap62() ensures Leads(62, 0x213df231) && GapListed(62)
  { hide Leads, GapListed; Gap61(); Former(61, 0x0daa2493, 0x213df231, 22, 0x03237ee0); }
  lemma Gap63() ensures Leads(63, 0x375a8bd4) && GapListed(63)
  { hide Leads, GapListed; Gap62(); Former(62, 0x213df231, 0x375a8bd4, 30, 0x0318d780); }
  lemma Gap64() ensures Leads(64, 0x39f56e1a) && GapListed(64)
  { hide Leads, GapListed; Gap63(); Former(63, 0x375a8bd4, 0x39f56e1a, 13, 0x0364ade0); }
  lemma Gap65() ensures Leads(65, 0x093aa3bf) && GapListed(65)
  { hide Leads, GapListed; Gap64(); Former(64, 0x39f56e1a, 0x093aa3bf, 10, 0x03a789a0); }
  lemma Gap66() ensures Leads(66, 0x06a003d3) && GapListed(66)
  { hide Leads, GapListed; Gap65(); Former(65, 0x093aa3bf, 0x06a003d3, 24, 0x02600140); }
  lemma Gap67() ensures Leads(67, 0x2165a30b) && GapListed(67)
  { hide Leads, GapListed; Gap66(); Former(66, 0x06a003d3, 0x2165a30b, 22, 0x02e3d2a0); }
  lemma Gap68() ensures Leads(68, 0x3fad4192) && GapListed(68)
  { hide Leads, GapListed; Gap67(); Former(67, 0x2165a30b, 0x3fad4192, 15, 0x03bd9ac0); }
  lemma Gap69() ensures Leads(69, 0x022638b1) && GapListed(69)
  { hide Leads, GapListed; Gap68(); Former(68, 0x3fad4192, 0x022638b1, 1, 0x022638a0); }
  lemma Gap70() ensures Leads(70, 0x36425580) && GapListed(70)
  { hide Leads, GapListed; Gap69(); Former(69, 0x022638b1, 0x36425580, 30, 0x0231c4a0); }
  lemma Gap71() ensures Leads(71, 0x01b212ac) && GapListed(71)
  { hide Leads, GapListed; Gap70(); Former(70, 0x36425580, 0x01b212ac, 30, 0x00118e20); }
  lemma Gap72() ensures Leads(72, 0x27b4e54e) && GapListed(72)
  { hide Leads, GapListed; Gap71(); Former(71, 0x01b212ac, 0x27b4e54e, 23, 0x03d5eb60); }
  lemma Gap73() ensures Leads(73, 0x318715a1) && GapListed(73)
  { hide Leads, GapListed; Gap72(); Former(72, 0x27b4e54e, 0x318715a1, 3, 0x02193ee0); }
  lemma Gap74() ensures Leads(74, 0x2307c905) && GapListed(74)
  { hide Leads, GapListed; Gap73(); Former(73, 0x318715a1, 0x2307c905, 18, 0x033c7ba0); }
  lemma Gap75() ensures Leads(75, 0x0f04e049) && GapListed(75)
  { hide Leads, GapListed; Gap74(); Former(74, 0x2307c905, 0x0f04e049, 29, 0x0351ae60); }
  lemma Gap76() ensures Leads(76, 0x29dd8cd8) && GapListed(76)
  { hide Leads, GapListed; Gap75(); Former(75, 0x0f04e049, 0x29dd8cd8, 2, 0x033f9980); }
  lemma Gap77() ensures Leads(77, 0x1eb823f9) && GapListed(77)
  { hide Leads, GapListed; Gap76(); Former(76, 0x29dd8cd8, 0x1eb823f9, 31, 0x026e3ba0); }
  lemma Gap78() ensures Leads(78, 0x3d88ff28) && GapListed(78)
  { hide Leads, GapListed; Gap77(); Former(77, 0x1eb823f9, 0x3d88ff28, 27, 0x029aea40); }
  lemma Gap79() ensures Leads(79, 0x0ac21d8b) && GapListed(79)
  { hide Leads, GapListed; Gap78(); Former(78, 0x3d88ff28, 0x0ac21d8b, 8, 0x03b4c760); }
  lemma Gap80() ensures Leads(80, 0x3ef07c66) && GapListed(80)
  { hide Leads, GapListed; Gap79(); Former(79, 0x0ac21d8b, 0x3ef07c66, 15, 0x02700620); }
  lemma Gap81() ensures Leads(81, 0x3a636b1a) && GapListed(81)
  { hide Leads, GapListed; Gap80(); Former(80, 0x3ef07c66, 0x3a636b1a, 7, 0x03295340); }
  lemma Gap82() ensures Leads(82, 0x09261397) && GapListed(82)
  { hide Leads, GapListed; Gap81(); Former(81, 0x3a636b1a, 0x09261397, 10, 0x030184e0); }
  lemma Gap83() ensures Leads(83, 0x0d8ebc20) && GapListed(83)
  { hide Leads, GapListed; Gap82(); Former(82, 0x09261397, 0x0d8ebc20, 12, 0x0248d980); }
  lemma Gap84() ensures Leads(84, 0x006c75e1) && GapListed(84)
  { hide Leads, GapListed; Gap83(); Former(83, 0x0d8ebc20, 0x006c75e1, 12, 0x001246c0); }
  lemma Gap85() ensures Leads(85, 0x22889207) && GapListed(85)
  { hide Leads, GapListed; Gap84(); Former(84, 0x006c75e1, 0x22889207, 18, 0x03d0ea60); }
  lemma Gap86() ensures Leads(86, 0x180b5dc1) && GapListed(86)
  { hide Leads, GapListed; Gap85(); Former(85, 0x22889207, 0x180b5dc1, 6, 0x0207a5a0); }
  lemma Gap87() ensures Leads(87, 0x224bab46) && GapListed(87)
  { hide Leads, GapListed; Gap86(); Former(86, 0x180b5dc1, 0x224bab46, 18, 0x03ab4060); }

  lemma GapsFrom0(d: nat)
    requires d <= 21
    ensures GapListed(d)
  {
    hide GapListed, Leads;
    if d == 0 { Gap0(); } else if d == 1 { Gap1(); } else if d == 2 { Gap2(); } else if d == 3 { Gap3(); }
    else if d == 4 { Gap4(); } else if d == 5 { Gap5(); } else if d == 6 { Gap6(); } else if d == 7 { Gap7(); }
    else if d == 8 { Gap8(); } else if d == 9 { Gap9(); } else if d == 10 { Gap10(); }
    else if d == 11 { Gap11(); } else if d == 12 { Gap12(); } else if d == 13 { Gap13(); }
    else if d == 14 { Gap14(); } else if d == 15 { Gap15(); } else if d == 16 { Gap16(); }
    else if d == 17 { Gap17(); } else if d == 18 { Gap18(); } else if d == 19 { Gap19(); }
    else if d == 20 { Gap20(); } else { Gap21(); }
  }

  lemma GapsFrom22(d: nat)
    requires 22 <= d <= 43
    ensures GapListed(d)
  {
    hide GapListed, Leads;
    if d == 22 { Gap22(); } else if d == 23 { Gap23(); } else if d == 24 { Gap24(); }
    else if d == 25 { Gap25(); } else if d == 26 { Gap26(); } else if d == 27 { Gap27(); }
    else if d == 28 { Gap28(); } else if d == 29 { Gap29(); } else if d == 30 { Gap30(); }
    else if d == 31 { Gap31(); } else if d == 32 { Gap32(); } else if d == 33 { Gap33(); }
    else if d == 34 { Gap34(); } else if d == 35 { Gap35(); } else if d == 36 { Gap36(); }
    else if d == 37 { Gap37(); } else if d == 38 { Gap38(); } else if d == 39 { Gap39(); }
    else if d == 40 { Gap40(); } else if d == 41 { Gap41(); } else if d == 42 { Gap42(); } else { Gap43(); }
  }

  lemma GapsFrom44(d: nat)
    requires 44 <= d <= 65
    ensures GapListed(d)
  {
    hide GapListed, Leads;
    if d == 44 { Gap44(); } else if d == 45 { Gap45(); } else if d == 46 { Gap46(); }
    else if d == 47 { Gap47(); } else if d == 48 { Gap48(); } else if d == 49 { Gap49(); }
    else if d == 50 { Gap50(); } else if d == 51 { Gap51(); } else if d == 52 { Gap52(); }
    else if d == 53 { Gap53(); } else if d == 54 { Gap54(); } else if d == 55 { Gap55(); }
    else if d == 56 { Gap56(); } else if d == 57 { Gap57(); } else if d == 58 { Gap58(); }
    else if d == 59 { Gap59(); } else if d == 60 { Gap60(); } else if d == 61 { Gap61(); }
    else if d == 62 { Gap62(); } else if d == 63 { Gap63(); } else if d == 64 { Gap64(); } else { Gap65(); }
  }

  lemma GapsFrom66(d: nat)
    requires 66 <= d <= 87
    ensures GapListed(d)
  {
    hide GapListed, Leads;
    if d == 66 { Gap66(); } else if d == 67 { Gap67(); } else if d == 68 { Gap68(); }
    else if d == 69 { Gap69(); } else if d == 70 { Gap70(); } else if d == 71 { Gap71(); }
    else if d == 72 { Gap72(); } else if d == 73 { Gap73(); } else if d == 74 { Gap74(); }
    else if d == 75 { Gap75(); } else if d == 76 { Gap76(); } else if d == 77 { Gap77(); }
    else if d == 78 { Gap78(); } else if d == 79 { Gap79(); } else if d == 80 { Gap80(); }
    else if d == 81 { Gap81(); } else if d == 82 { Gap82(); } else if d == 83 { Gap83(); }
    else if d == 84 { Gap84(); } else if d == 85 { Gap85(); } else if d == 86 { Gap86(); } else { Gap87(); }
  }

  lemma GapsListed(d: nat)
    requires d <= 87
    ensures GapListed(d)
  {
    hide GapListed;
    if d < 22 { GapsFrom0(d); }
    else if d < 44 { GapsFrom22(d); }
    else if d < 66 { GapsFrom44(d); }
    else { GapsFrom66(d); }
  }
}
