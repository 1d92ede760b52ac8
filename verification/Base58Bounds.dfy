/**
  The buffer sizes of src/base58.cpp suffice for every length: log(256) / log(58) is below
  138/100 and log(58) / log(256) is below 733/1000, with the rounding the source uses.
 */
module Base58Bounds {
  import opened Limbs
  import opened Numerals

  function EncodeSize(n: nat): nat { n * 138 / 100 + 1 }
  function DecodeSize(n: nat): nat { n * 733 / 1000 + 1 }

  lemma Next(b: nat, n: nat)
    ensures Pow(b, n + 1) == b * Pow(b, n)
  {
  }

  lemma Powers58()
    ensures Pow(58, 0) == 1 && Pow(58, 1) == 58 && Pow(58, 2) == 3364 && Pow(58, 3) == 195112
    ensures Pow(58, 4) == 11316496 && Pow(58, 5) == 656356768 && Pow(58, 6) == 38068692544
    ensures Pow(58, 7) == 2207984167552 && Pow(58, 8) == 128063081718016 && Pow(58, 9) == 7427658739644928
    ensures Pow(58, 10) == 430804206899405824 && Pow(58, 11) == 24986644000165537792
    ensures Pow(58, 12) == 1449225352009601191936 && Pow(58, 13) == 84055070416556869132288
    ensures Pow(58, 14) == 4875194084160298409672704 && Pow(58, 15) == 282761256881297307761016832
  {
    hide Pow;
    PowZero(58);
    Next(58, 0); Next(58, 1); Next(58, 2); Next(58, 3); Next(58, 4);
    Next(58, 5); Next(58, 6); Next(58, 7); Next(58, 8); Next(58, 9);
    Next(58, 10); Next(58, 11); Next(58, 12); Next(58, 13); Next(58, 14);
  }

  lemma Powers256()
    ensures Pow(256, 0) == 1 && Pow(256, 1) == 256 && Pow(256, 2) == 65536 && Pow(256, 3) == 16777216
    ensures Pow(256, 4) == 4294967296 && Pow(256, 5) == 1099511627776 && Pow(256, 6) == 281474976710656
    ensures Pow(256, 7) == 72057594037927936 && Pow(256, 8) == 18446744073709551616
    ensures Pow(256, 9) == 4722366482869645213696 && Pow(256, 10) == 1208925819614629174706176
    ensures Pow(256, 11) == 309485009821345068724781056
  {
    hide Pow;
    PowZero(256);
    Next(256, 0); Next(256, 1); Next(256, 2); Next(256, 3); Next(256, 4); Next(256, 5);
    Next(256, 6); Next(256, 7); Next(256, 8); Next(256, 9); Next(256, 10);
  }

  lemma PowZero(b: nat)
    ensures Pow(b, 0) == 1
  {
  }

  /** Two bounds multiply. */
  lemma Blocks(b: nat, c: nat, m: nat, n: nat, p: nat, q: nat)
    requires Pow(b, m) <= Pow(c, p) && Pow(b, n) <= Pow(c, q)
    ensures Pow(b, m + n) <= Pow(c, p + q)
  {
    hide Pow;
    PowAdd(b, m, n);
    PowAdd(c, p, q);
    MulMono(Pow(b, m), Pow(c, p), Pow(b, n));
    MulMono(Pow(b, n), Pow(c, q), Pow(c, p));
  }

  /** n bytes never need more base-58 digits than EncodeBase58 allocates. */
  lemma {:induction false} EncodeFits(n: nat)
    ensures Pow(256, n) <= Pow(58, EncodeSize(n))
  {
    hide Pow;
    Powers58();
    Powers256();
    if n >= 8 {
      EncodeFits(n - 8);
      Blocks(256, 58, 8, n - 8, 11, EncodeSize(n - 8));
      PowMono(58, 11 + EncodeSize(n - 8), EncodeSize(n));
    }
  }

  /** Exponents below 15. */
  lemma DecodeTiny(k: nat)
    requires 0 < k < 15
    ensures Pow(58, k) <= Pow(256, DecodeSize(k))
  {
    hide Pow;
    Powers58();
    Powers256();
  }

  lemma Fraction(k: nat)
    requires 0 < k < 15
    ensures k * 733 % 1000 >= 20
  {
  }

  /** Exponents below 71, in blocks of 15 (58^15 < 256^11). */
  lemma DecodeSmall(a: nat, k: nat)
    requires a <= 4 && k < 15
    ensures Pow(58, 15 * a + k) <= Pow(256, DecodeSize(15 * a + k))
  {
    hide Pow;
    FifteenBlocks(a);
    if k == 0 {
      PowMono(256, 11 * a, DecodeSize(15 * a));
    } else {
      DecodeTiny(k);
      Fraction(k);
      Blocks(58, 256, 15 * a, k, 11 * a, DecodeSize(k));
    }
  }

  lemma {:induction false} FifteenBlocks(a: nat)
    ensures Pow(58, 15 * a) <= Pow(256, 11 * a)
  {
    hide Pow;
    PowZero(58);
    PowZero(256);
    if a > 0 {
      FifteenBlocks(a - 1);
      Powers58();
      Powers256();
      Blocks(58, 256, 15, 15 * (a - 1), 11, 11 * (a - 1));
    }
  }

  /** 58^71 is just below 256^52. */
  lemma SeventyOne()
    ensures Pow(58, 71) <= Pow(256, 52)
  {
    hide Pow;
    Powers58();
    Powers256();
    PowAdd(58, 15, 15);
    PowAdd(58, 30, 30);
    PowAdd(58, 60, 11);
    PowAdd(256, 11, 11);
    PowAdd(256, 22, 22);
    PowAdd(256, 44, 8);
  }

  /** n base-58 digits never need more bytes than DecodeBase58 allocates. */
  lemma {:induction false} DecodeFits(n: nat)
    ensures Pow(58, n) <= Pow(256, DecodeSize(n))
  {
    hide Pow;
    if n < 71 {
      DecodeSmall(n / 15, n % 15);
    } else {
      DecodeFits(n - 71);
      SeventyOne();
      Blocks(58, 256, 71, n - 71, 52, DecodeSize(n - 71));
      PowMono(256, 52 + DecodeSize(n - 71), DecodeSize(n));
    }
  }
}
