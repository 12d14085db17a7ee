/** A known answer: the digest of the three bytes "abc", computed by the definition of FIPS 180-4 with its own constants,
    eight rounds at a time. */
module Sha256Example {
  import opened Arithmetic
  import opened Sha256Spec

  const ABC: seq<Byte> := [0x61, 0x62, 0x63]

  /** The one block that the message pads to: marker, zeros, and the length of 24 bits. */
  const BLOCK: seq<Byte> := ABC + [0x80] + Zeros(52) + [0, 0, 0, 0, 0, 0, 0, 24]

  // The message schedule of the block, eight words to a row.
  const WORDS_1: seq<Word> := [0x61626380, 0x00000000, 0x00000000, 0x00000000, 0x00000000, 0x00000000, 0x00000000, 0x00000000]
  const WORDS_2: seq<Word> := [0x00000000, 0x00000000, 0x00000000, 0x00000000, 0x00000000, 0x00000000, 0x00000000, 0x00000018]
  const WORDS_3: seq<Word> := [0x61626380, 0x000f0000, 0x7da86405, 0x600003c6, 0x3e9d7b78, 0x0183fc00, 0x12dcbfdb, 0xe2e2c38e]
  const WORDS_4: seq<Word> := [0xc8215c1a, 0xb73679a2, 0xe5bc3909, 0x32663c5b, 0x9d209d67, 0xec8726cb, 0x702138a4, 0xd3b7973b]
  const WORDS_5: seq<Word> := [0x93f5997f, 0x3b68ba73, 0xaff4ffc1, 0xf10a5c62, 0x0a8b3996, 0x72af830a, 0x9409e33e, 0x24641522]
  const WORDS_6: seq<Word> := [0x9f47bf94, 0xf0a64f5a, 0x3e246a79, 0x27333ba3, 0x0c4763f2, 0x840abf27, 0x7a290d5d, 0x065c43da]
  const WORDS_7: seq<Word> := [0xfb3e89cb, 0xcc7617db, 0xb9e66c34, 0xa9993667, 0x84badedd, 0xc21462bc, 0x1487472c, 0xb20f7a99]
  const WORDS_8: seq<Word> := [0xef57b9cd, 0xebe6b238, 0x9fe3095e, 0x78bc8d4b, 0xa43fcf15, 0x668b2ff8, 0xeeaba2cc, 0x12b1edeb]

  function Row(n: nat): (w: seq<Word>)
    ensures |w| == 8
  {
    match n
    case 1 => WORDS_1 case 2 => WORDS_2 case 3 => WORDS_3 case 4 => WORDS_4
    case 5 => WORDS_5 case 6 => WORDS_6 case 7 => WORDS_7 case _ => WORDS_8
  }

  /** The first n rows. */
  function Words(n: nat): (w: seq<Word>)
    ensures |w| == 8 * n
  {
    if n == 0 then [] else Words(n - 1) + Row(n)
  }

  // ---------------------------------------------------------------- the schedule

  function WordAfter(o: WordOps, x2: Word, x7: Word, x15: Word, x16: Word): Word {
    o.add(o.add(o.add(o.smallSigma1(x2), x7), o.smallSigma0(x15)), x16)
  }

  /** The eight words that follow from two rows of eight. */
  function NextRow(o: WordOps, p: seq<Word>, q: seq<Word>): (r: seq<Word>)
    requires |p| == |q| == 8
    ensures |r| == 8
  {
    var n0 := WordAfter(o, q[6], q[1], p[1], p[0]);
    var n1 := WordAfter(o, q[7], q[2], p[2], p[1]);
    var n2 := WordAfter(o, n0, q[3], p[3], p[2]);
    var n3 := WordAfter(o, n1, q[4], p[4], p[3]);
    var n4 := WordAfter(o, n2, q[5], p[5], p[4]);
    var n5 := WordAfter(o, n3, q[6], p[6], p[5]);
    var n6 := WordAfter(o, n4, q[7], p[7], p[6]);
    var n7 := WordAfter(o, n5, n0, q[0], p[7]);
    [n0, n1, n2, n3, n4, n5, n6, n7]
  }

  lemma ExtendStep(o: WordOps, w: seq<Word>, x: Word)
    requires 16 <= |w| < 64 && NextWord(o, w) == x
    ensures Extend(o, w) == Extend(o, w + [x])
  {
  }

  /** Word t follows from those before it. */
  ghost predicate FollowsAt(o: WordOps, s: seq<Word>, t: nat) {
    16 <= t < |s| ==> NextWord(o, s[..t]) == s[t]
  }

  /** Words that each follow from those before them make the same schedule as their first n. */
  lemma {:induction false} ExtendsTo(o: WordOps, s: seq<Word>, n: nat)
    requires 16 <= n <= |s| <= 64 && forall t :: n <= t ==> FollowsAt(o, s, t)
    ensures Extend(o, s[..n]) == Extend(o, s)
    decreases |s| - n
  {
    if n == |s| {
      assert s[..n] == s;
    } else {
      assert FollowsAt(o, s, n);
      ExtendStep(o, s[..n], s[n]);
      assert s[..n + 1] == s[..n] + [s[n]];
      ExtendsTo(o, s, n + 1);
    }
  }

  /** Three rows in one. */
  function Joined(p: seq<Word>, q: seq<Word>, r: seq<Word>): (c: seq<Word>)
    requires |p| == |q| == |r| == 8
    ensures |c| == 24
    ensures forall i :: 0 <= i < 8 ==> c[i] == p[i] && c[8 + i] == q[i] && c[16 + i] == r[i]
  {
    p + q + r
  }

  lemma RowAt(o: WordOps, p: seq<Word>, q: seq<Word>, i: nat)
    requires |p| == |q| == 8 && i < 8
    ensures var c := Joined(p, q, NextRow(o, p, q)); c[16 + i] == WordAfter(o, c[14 + i], c[9 + i], c[1 + i], c[i])
  {
    var r := NextRow(o, p, q);
    var c := Joined(p, q, r);
    assert r[0] == WordAfter(o, q[6], q[1], p[1], p[0]) && r[1] == WordAfter(o, q[7], q[2], p[2], p[1]);
    assert r[2] == WordAfter(o, r[0], q[3], p[3], p[2]) && r[3] == WordAfter(o, r[1], q[4], p[4], p[3]);
    assert r[4] == WordAfter(o, r[2], q[5], p[5], p[4]) && r[5] == WordAfter(o, r[3], q[6], p[6], p[5]);
    assert r[6] == WordAfter(o, r[4], q[7], p[7], p[6]) && r[7] == WordAfter(o, r[5], r[0], q[0], p[7]);
    match i
    case 0 => case 1 => case 2 => case 3 => case 4 => case 5 => case 6 => case _ =>
      assert c[8] == q[0] && c[16] == r[0];
  }

  lemma NextWordOfTail(o: WordOps, w: seq<Word>, c: seq<Word>, i: nat)
    requires 16 + i < |c| && c[16 + i] == WordAfter(o, c[14 + i], c[9 + i], c[1 + i], c[i])
    ensures NextWord(o, w + c[..16 + i]) == c[16 + i]
  {
    var all := w + c[..16 + i];
    assert all[|all| - 2] == c[14 + i] && all[|all| - 7] == c[9 + i];
    assert all[|all| - 15] == c[1 + i] && all[|all| - 16] == c[i];
  }

  lemma ExtendsByRow(o: WordOps, w: seq<Word>, p: seq<Word>, q: seq<Word>, s: seq<Word>)
    requires |p| == |q| == 8 && |w| <= 40 && s == w + p + q + NextRow(o, p, q)
    ensures Extend(o, w + p + q) == Extend(o, s)
  {
    RowAllFollows(o, w, p, q, s);
    ExtendsTo(o, s, |w| + 16);
    assert s[..|w| + 16] == w + p + q;
  }

  lemma RowAllFollows(o: WordOps, w: seq<Word>, p: seq<Word>, q: seq<Word>, s: seq<Word>)
    requires |p| == |q| == 8 && s == w + p + q + NextRow(o, p, q)
    ensures forall t :: |w| + 16 <= t ==> FollowsAt(o, s, t)
  {
    forall t | |w| + 16 <= t ensures FollowsAt(o, s, t) {
      if t < |s| {
        RowFollows(o, w, p, q, t - |w| - 16);
      }
    }
  }

  lemma RowFollows(o: WordOps, w: seq<Word>, p: seq<Word>, q: seq<Word>, i: nat)
    requires |p| == |q| == 8 && i < 8
    ensures FollowsAt(o, w + p + q + NextRow(o, p, q), |w| + 16 + i)
  {
    var r := NextRow(o, p, q);
    RowAt(o, p, q, i);
    NextWordOfTail(o, w, Joined(p, q, r), i);
    TakeJoined(w, p, q, r, i);
  }

  lemma TakeJoined(w: seq<Word>, p: seq<Word>, q: seq<Word>, r: seq<Word>, i: nat)
    requires |p| == |q| == |r| == 8 && i < 8
    ensures var s := w + p + q + r;
            s[..|w| + 16 + i] == w + Joined(p, q, r)[..16 + i] && s[|w| + 16 + i] == Joined(p, q, r)[16 + i]
  {
    assert w + p + q + r == w + Joined(p, q, r);
  }

  lemma Row3Follows()
    ensures NextRow(FIPS, WORDS_1, WORDS_2) == WORDS_3
  {
  }

  lemma Row4Follows()
    ensures NextRow(FIPS, WORDS_2, WORDS_3) == WORDS_4
  {
  }

  lemma Row5Follows()
    ensures NextRow(FIPS, WORDS_3, WORDS_4) == WORDS_5
  {
  }

  lemma Row6Follows()
    ensures NextRow(FIPS, WORDS_4, WORDS_5) == WORDS_6
  {
  }

  lemma Row7Follows()
    ensures NextRow(FIPS, WORDS_5, WORDS_6) == WORDS_7
  {
  }

  lemma Row8Follows()
    ensures NextRow(FIPS, WORDS_6, WORDS_7) == WORDS_8
  {
  }

  lemma BlockIsWords(t: nat)
    requires t < 16
    ensures FIPS.bigEndian(BLOCK[4 * t], BLOCK[4 * t + 1], BLOCK[4 * t + 2], BLOCK[4 * t + 3])
            == if t < 8 then Row(1)[t] else Row(2)[t - 8]
  {
  }

  lemma TwoRows(t: nat)
    requires t < 16
    ensures Words(2)[t] == if t < 8 then Row(1)[t] else Row(2)[t - 8]
  {
    assert Words(1) == Words(0) + Row(1) == Row(1);
  }

  lemma FirstWord(t: nat)
    requires t < 16
    ensures BlockWords(FIPS, BLOCK)[t] == Words(2)[t]
  {
    BlockIsWords(t);
    TwoRows(t);
  }

  lemma FirstWords()
    ensures BlockWords(FIPS, BLOCK) == Words(2)
  {
    var first, words := BlockWords(FIPS, BLOCK), Words(2);
    forall t | 0 <= t < 16 ensures first[t] == words[t] {
      FirstWord(t);
    }
  }

  lemma RowsFollow(n: nat)
    requires 2 <= n < 8
    ensures NextRow(FIPS, Row(n - 1), Row(n)) == Row(n + 1)
  {
    match n
    case 2 => Row3Follows();
    case 3 => Row4Follows();
    case 4 => Row5Follows();
    case 5 => Row6Follows();
    case 6 => Row7Follows();
    case _ => Row8Follows();
  }

  lemma {:induction false} WordsExtend(n: nat)
    requires 2 <= n <= 8
    ensures Extend(FIPS, Words(n)) == Words(8)
    decreases 8 - n
  {
    if n < 8 {
      RowsFollow(n);
      assert Words(n) == Words(n - 2) + Row(n - 1) + Row(n);
      ExtendsByRow(FIPS, Words(n - 2), Row(n - 1), Row(n), Words(n + 1));
      WordsExtend(n + 1);
    }
  }

  lemma ScheduleIsWords()
    ensures Schedule(FIPS, BLOCK) == Words(8)
  {
    FirstWords();
    WordsExtend(2);
  }

  // ---------------------------------------------------------------- the rounds

  function EightRounds(o: WordOps, v: Regs, k: seq<Word>, w: seq<Word>): Regs
    requires |k| == |w| == 8
  {
    var v4 := Round(o, Round(o, Round(o, Round(o, v, k[0], w[0]), k[1], w[1]), k[2], w[2]), k[3], w[3]);
    Round(o, Round(o, Round(o, Round(o, v4, k[4], w[4]), k[5], w[5]), k[6], w[6]), k[7], w[7])
  }

  /** The rounds of a row, with its own constants. */
  function RowRounds(o: WordOps, v: Regs, k: seq<Word>, row: seq<Word>): Regs
    requires |row| <= |k|
  {
    if row == [] then v else
      var n := |row| - 1;
      Round(o, RowRounds(o, v, k, row[..n]), k[n], row[n])
  }

  lemma {:induction false} RoundsByRow(o: WordOps, v: Regs, w: seq<Word>, k: seq<Word>, row: seq<Word>)
    requires |row| <= |k| && forall i :: 0 <= i < |k| ==> k[i] == o.constant(|w| + i)
    ensures Rounds(o, v, w + row) == RowRounds(o, Rounds(o, v, w), k, row)
  {
    if row == [] {
      assert w + row == w;
    } else {
      var n := |row| - 1;
      RoundsByRow(o, v, w, k, row[..n]);
      assert (w + row)[..|w| + n] == w + row[..n];
    }
  }

  lemma RowLast(o: WordOps, v: Regs, k: seq<Word>, row: seq<Word>, n: nat)
    requires n < |row| <= |k|
    ensures RowRounds(o, v, k, row[..n + 1]) == Round(o, RowRounds(o, v, k, row[..n]), k[n], row[n])
  {
    assert row[..n + 1][..n] == row[..n];
  }

  lemma EightOfRow(o: WordOps, v: Regs, k: seq<Word>, row: seq<Word>)
    requires |k| == |row| == 8
    ensures RowRounds(o, v, k, row) == EightRounds(o, v, k, row)
  {
    forall n | 0 <= n < 8 ensures RowRounds(o, v, k, row[..n + 1]) == Round(o, RowRounds(o, v, k, row[..n]), k[n], row[n]) {
      RowLast(o, v, k, row, n);
    }
    assert row[..0] == [] && row[..8] == row;
    assert RowRounds(o, v, k, row[..4]) == Round(o, Round(o, Round(o, Round(o, v, k[0], row[0]), k[1], row[1]), k[2], row[2]), k[3], row[3]);
  }

  lemma RoundsByEight(o: WordOps, v: Regs, n: nat, k: seq<Word>)
    requires |k| == 8 && forall i :: 0 <= i < 8 ==> k[i] == o.constant(8 * n + i)
    ensures Rounds(o, v, Words(n + 1)) == EightRounds(o, Rounds(o, v, Words(n)), k, Row(n + 1))
  {
    RoundsByRow(o, v, Words(n), k, Row(n + 1));
    EightOfRow(o, Rounds(o, v, Words(n)), k, Row(n + 1));
  }

  lemma ConstantAt(n: nat, i: nat)
    requires n < 8 && i < 8
    ensures ConstantRow(n + 1)[i] == RoundConstant(8 * n + i)
  {
    DivideUnique(8 * n + i, 8, n, i);
  }

  lemma EightMore(n: nat)
    requires n < 8
    ensures Rounds(FIPS, INITIAL, Words(n + 1)) ==
            EightRounds(FIPS, Rounds(FIPS, INITIAL, Words(n)), ConstantRow(n + 1), Row(n + 1))
  {
    var k := ConstantRow(n + 1);
    forall i | 0 <= i < 8 ensures k[i] == FIPS.constant(8 * n + i) {
      ConstantAt(n, i);
    }
    RoundsByEight(FIPS, INITIAL, n, k);
  }

  lemma RoundsRow1(v: Regs)
    requires v == INITIAL
    ensures EightRounds(FIPS, v, ROW_1, WORDS_1) ==
            Regs(0x85a07b5f, 0xe5030380, 0x2b4209f5, 0x04409a6a, 0x0c657a79, 0x9b27a401, 0x714260ad, 0x43ada245)
  {
  }

  lemma RoundsRow2(v: Regs)
    requires v == Regs(0x85a07b5f, 0xe5030380, 0x2b4209f5, 0x04409a6a, 0x0c657a79, 0x9b27a401, 0x714260ad, 0x43ada245)
    ensures EightRounds(FIPS, v, ROW_2, WORDS_2) ==
            Regs(0xb0fa238e, 0xc0645fde, 0xd932eb16, 0x87912990, 0x07590dcd, 0x0b92f20c, 0x745a48de, 0x1e578218)
  {
  }

  lemma RoundsRow3(v: Regs)
    requires v == Regs(0xb0fa238e, 0xc0645fde, 0xd932eb16, 0x87912990, 0x07590dcd, 0x0b92f20c, 0x745a48de, 0x1e578218)
    ensures EightRounds(FIPS, v, ROW_3, WORDS_3) ==
            Regs(0xc5d53d8d, 0xa7a3623f, 0xc2606d6d, 0x9dc68b63, 0xaa47c347, 0x49f5114a, 0xe1257970, 0x8ada8930)
  {
  }

  lemma RoundsRow4(v: Regs)
    requires v == Regs(0xc5d53d8d, 0xa7a3623f, 0xc2606d6d, 0x9dc68b63, 0xaa47c347, 0x49f5114a, 0xe1257970, 0x8ada8930)
    ensures EightRounds(FIPS, v, ROW_4, WORDS_4) ==
            Regs(0x73b33bf5, 0xea992a22, 0xa0060b30, 0x363482c9, 0xba591112, 0x0109ab3a, 0xade79437, 0x6112a3b7)
  {
  }

  lemma RoundsRow5(v: Regs)
    requires v == Regs(0x73b33bf5, 0xea992a22, 0xa0060b30, 0x363482c9, 0xba591112, 0x0109ab3a, 0xade79437, 0x6112a3b7)
    ensures EightRounds(FIPS, v, ROW_5, WORDS_5) ==
            Regs(0x79ea687a, 0x6dc57a8a, 0x34df1604, 0x41a65cb1, 0x1efbc0a0, 0xf0781bc8, 0xa507a53d, 0x0772a26b)
  {
  }

  lemma RoundsRow6(v: Regs)
    requires v == Regs(0x79ea687a, 0x6dc57a8a, 0x34df1604, 0x41a65cb1, 0x1efbc0a0, 0xf0781bc8, 0xa507a53d, 0x0772a26b)
    ensures EightRounds(FIPS, v, ROW_6, WORDS_6) ==
            Regs(0x4172328d, 0xa14c14b0, 0x72ab4b91, 0x26628815, 0xfecf0bc6, 0xd57b94a9, 0xb7755da1, 0xa80f11f0)
  {
  }

  lemma RoundsRow7(v: Regs)
    requires v == Regs(0x4172328d, 0xa14c14b0, 0x72ab4b91, 0x26628815, 0xfecf0bc6, 0xd57b94a9, 0xb7755da1, 0xa80f11f0)
    ensures EightRounds(FIPS, v, ROW_7, WORDS_7) ==
            Regs(0x38cc9913, 0x3ec45cdb, 0xf5702fdb, 0x101fd28f, 0x54cb266b, 0xe50e1b4f, 0x9f4787c3, 0x529e7d00)
  {
  }

  lemma RoundsRow8(v: Regs)
    requires v == Regs(0x38cc9913, 0x3ec45cdb, 0xf5702fdb, 0x101fd28f, 0x54cb266b, 0xe50e1b4f, 0x9f4787c3, 0x529e7d00)
    ensures EightRounds(FIPS, v, ROW_8, WORDS_8) ==
            Regs(0x506e3058, 0xd39a2165, 0x04d24d6c, 0xb85e2ce9, 0x5ef50f24, 0xfb121210, 0x948d25b6, 0x961f4894)
  {
  }

  lemma AfterRow1()
    ensures Rounds(FIPS, INITIAL, Words(1)) ==
            Regs(0x85a07b5f, 0xe5030380, 0x2b4209f5, 0x04409a6a, 0x0c657a79, 0x9b27a401, 0x714260ad, 0x43ada245)
  {
    EightMore(0);
    RoundsRow1(Rounds(FIPS, INITIAL, Words(0)));
  }

  lemma AfterRow2()
    ensures Rounds(FIPS, INITIAL, Words(2)) ==
            Regs(0xb0fa238e, 0xc0645fde, 0xd932eb16, 0x87912990, 0x07590dcd, 0x0b92f20c, 0x745a48de, 0x1e578218)
  {
    AfterRow1();
    EightMore(1);
    RoundsRow2(Rounds(FIPS, INITIAL, Words(1)));
  }

  lemma AfterRow3()
    ensures Rounds(FIPS, INITIAL, Words(3)) ==
            Regs(0xc5d53d8d, 0xa7a3623f, 0xc2606d6d, 0x9dc68b63, 0xaa47c347, 0x49f5114a, 0xe1257970, 0x8ada8930)
  {
    AfterRow2();
    EightMore(2);
    RoundsRow3(Rounds(FIPS, INITIAL, Words(2)));
  }

  lemma AfterRow4()
    ensures Rounds(FIPS, INITIAL, Words(4)) ==
            Regs(0x73b33bf5, 0xea992a22, 0xa0060b30, 0x363482c9, 0xba591112, 0x0109ab3a, 0xade79437, 0x6112a3b7)
  {
    AfterRow3();
    EightMore(3);
    RoundsRow4(Rounds(FIPS, INITIAL, Words(3)));
  }

  lemma AfterRow5()
    ensures Rounds(FIPS, INITIAL, Words(5)) ==
            Regs(0x79ea687a, 0x6dc57a8a, 0x34df1604, 0x41a65cb1, 0x1efbc0a0, 0xf0781bc8, 0xa507a53d, 0x0772a26b)
  {
    AfterRow4();
    EightMore(4);
    RoundsRow5(Rounds(FIPS, INITIAL, Words(4)));
  }

  lemma AfterRow6()
    ensures Rounds(FIPS, INITIAL, Words(6)) ==
            Regs(0x4172328d, 0xa14c14b0, 0x72ab4b91, 0x26628815, 0xfecf0bc6, 0xd57b94a9, 0xb7755da1, 0xa80f11f0)
  {
    AfterRow5();
    EightMore(5);
    RoundsRow6(Rounds(FIPS, INITIAL, Words(5)));
  }

  lemma AfterRow7()
    ensures Rounds(FIPS, INITIAL, Words(7)) ==
            Regs(0x38cc9913, 0x3ec45cdb, 0xf5702fdb, 0x101fd28f, 0x54cb266b, 0xe50e1b4f, 0x9f4787c3, 0x529e7d00)
  {
    AfterRow6();
    EightMore(6);
    RoundsRow7(Rounds(FIPS, INITIAL, Words(6)));
  }

  lemma AfterRow8()
    ensures Rounds(FIPS, INITIAL, Words(8)) ==
            Regs(0x506e3058, 0xd39a2165, 0x04d24d6c, 0xb85e2ce9, 0x5ef50f24, 0xfb121210, 0x948d25b6, 0x961f4894)
  {
    AfterRow7();
    EightMore(7);
    RoundsRow8(Rounds(FIPS, INITIAL, Words(7)));
  }

  // ---------------------------------------------------------------- the digest

  lemma AbcCompresses()
    ensures Compress(FIPS, INITIAL, BLOCK) ==
            Regs(0xba7816bf, 0x8f01cfea, 0x414140de, 0x5dae2223, 0xb00361a3, 0x96177a9c, 0xb410ff61, 0xf20015ad)
  {
    ScheduleIsWords();
    AfterRow8();
  }

  lemma BigEndianZero(k: nat)
    ensures BigEndian(0, k) == Zeros(k)
  {
    if k > 0 {
      BigEndianZero(k - 1);
      assert Zeros(k) == Zeros(k - 1) + [0];
    }
  }

  lemma LengthField()
    ensures BigEndian(24, 8) == [0, 0, 0, 0, 0, 0, 0, 24]
  {
    BigEndianZero(7);
    assert BigEndian(24, 8) == BigEndian(0, 7) + [24];
  }

  lemma AbcPads()
    ensures Pad(ABC) == BLOCK && BlockCount(|ABC|) == 1
  {
    LengthField();
    assert ZeroCount(3) == 52;
  }

  lemma AbcHashes()
    ensures HashBlocks(FipsCompressor(), BLOCK, 1) ==
            Regs(0xba7816bf, 0x8f01cfea, 0x414140de, 0x5dae2223, 0xb00361a3, 0x96177a9c, 0xb410ff61, 0xf20015ad)
  {
    assert HashBlocks(FipsCompressor(), BLOCK, 0) == INITIAL;
    assert BLOCK[0..64] == BLOCK;
    AbcCompresses();
  }

  lemma HexNext(n: nat, k: nat, q: nat, d: nat)
    requires k > 0 && d < 16 && n == 16 * q + d
    ensures HexDigits(n, k) == HexDigits(q, k - 1) + [HexDigit(d)]
  {
  }

  lemma HexOfFour(n: nat, k: nat, high: nat, a: nat, b: nat, c: nat, d: nat)
    requires a < 16 && b < 16 && c < 16 && d < 16 && k >= 4
    requires n == 65536 * high + 4096 * a + 256 * b + 16 * c + d
    ensures HexDigits(n, k) == HexDigits(high, k - 4) + [HexDigit(a), HexDigit(b), HexDigit(c), HexDigit(d)]
  {
    var q2 := 256 * high + 16 * a + b;
    HexNext(n, k, 16 * q2 + c, d);
    HexNext(16 * q2 + c, k - 1, q2, c);
    HexNext(q2, k - 2, 16 * high + a, b);
    HexNext(16 * high + a, k - 3, high, a);
  }

  lemma Hex1()
    ensures HexWord(0xba7816bf) == "ba7816bf"
  {
    HexOfFour(0xba78, 4, 0, 11, 10, 7, 8);
    HexOfFour(0xba7816bf, 8, 0xba78, 1, 6, 11, 15);
  }

  lemma Hex2()
    ensures HexWord(0x8f01cfea) == "8f01cfea"
  {
    HexOfFour(0x8f01, 4, 0, 8, 15, 0, 1);
    HexOfFour(0x8f01cfea, 8, 0x8f01, 12, 15, 14, 10);
  }

  lemma Hex3()
    ensures HexWord(0x414140de) == "414140de"
  {
    HexOfFour(0x4141, 4, 0, 4, 1, 4, 1);
    HexOfFour(0x414140de, 8, 0x4141, 4, 0, 13, 14);
  }

  lemma Hex4()
    ensures HexWord(0x5dae2223) == "5dae2223"
  {
    HexOfFour(0x5dae, 4, 0, 5, 13, 10, 14);
    HexOfFour(0x5dae2223, 8, 0x5dae, 2, 2, 2, 3);
  }

  lemma Hex5()
    ensures HexWord(0xb00361a3) == "b00361a3"
  {
    HexOfFour(0xb003, 4, 0, 11, 0, 0, 3);
    HexOfFour(0xb00361a3, 8, 0xb003, 6, 1, 10, 3);
  }

  lemma Hex6()
    ensures HexWord(0x96177a9c) == "96177a9c"
  {
    HexOfFour(0x9617, 4, 0, 9, 6, 1, 7);
    HexOfFour(0x96177a9c, 8, 0x9617, 7, 10, 9, 12);
  }

  lemma Hex7()
    ensures HexWord(0xb410ff61) == "b410ff61"
  {
    HexOfFour(0xb410, 4, 0, 11, 4, 1, 0);
    HexOfFour(0xb410ff61, 8, 0xb410, 15, 15, 6, 1);
  }

  lemma Hex8()
    ensures HexWord(0xf20015ad) == "f20015ad"
  {
    HexOfFour(0xf200, 4, 0, 15, 2, 0, 0);
    HexOfFour(0xf20015ad, 8, 0xf200, 1, 5, 10, 13);
  }

  /** The digest of "abc", as the examples of FIPS 180-4 give it. */
  lemma KnownAnswer()
    ensures Sha256(ABC) == "ba7816bf" + "8f01cfea" + "414140de" + "5dae2223" + "b00361a3" + "96177a9c" + "b410ff61" + "f20015ad"
  {
    AbcPads();
    AbcHashes();
    Hex1();
    Hex2();
    Hex3();
    Hex4();
    Hex5();
    Hex6();
    Hex7();
    Hex8();
  }
}
