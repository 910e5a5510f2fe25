/** The example of appendix A of FIPS PUB 180-1, worked out word by word. */
module Fips180Example {
  import opened Fips180
  import opened Blocks

  /** The text "abc". */
  const ABC := [Byte(0x61), Byte(0x62), Byte(0x63)]

  /** The words of its only block. */
  function W(t: nat): Word {
    match t
    case 0 => Word(0x61626380) case 1 => Word(0x00000000) case 2 => Word(0x00000000)
    case 3 => Word(0x00000000) case 4 => Word(0x00000000) case 5 => Word(0x00000000)
    case 6 => Word(0x00000000) case 7 => Word(0x00000000) case 8 => Word(0x00000000)
    case 9 => Word(0x00000000) case 10 => Word(0x00000000) case 11 => Word(0x00000000)
    case 12 => Word(0x00000000) case 13 => Word(0x00000000) case 14 => Word(0x00000000)
    case 15 => Word(0x00000018) case 16 => Word(0xC2C4C700) case 17 => Word(0x00000000)
    case 18 => Word(0x00000030) case 19 => Word(0x85898E01) case 20 => Word(0x00000000)
    case 21 => Word(0x00000060) case 22 => Word(0x0B131C03) case 23 => Word(0x00000030)
    case 24 => Word(0x85898EC1) case 25 => Word(0x16263806) case 26 => Word(0x00000000)
    case 27 => Word(0x00000180) case 28 => Word(0x2C4C700C) case 29 => Word(0x000000F0)
    case 30 => Word(0x93AFB507) case 31 => Word(0x5898E048) case 32 => Word(0x8E9A9202)
    case 33 => Word(0x00000600) case 34 => Word(0xB131C0F0) case 35 => Word(0x16263BC6)
    case 36 => Word(0x4EBED41E) case 37 => Word(0x626380A1) case 38 => Word(0x16263806)
    case 39 => Word(0x000018C0) case 40 => Word(0xD2E138C4) case 41 => Word(0x00000F00)
    case 42 => Word(0x3AFB5079) case 43 => Word(0x898E04E5) case 44 => Word(0xE2BA3C2B)
    case 45 => Word(0x000060C0) case 46 => Word(0x053A37CD) case 47 => Word(0x74458547)
    case 48 => Word(0xDA9415ED) case 49 => Word(0x26380A16) case 50 => Word(0x626383A1)
    case 51 => Word(0x4EBF54DE) case 52 => Word(0x3835B44B) case 53 => Word(0x0000F600)
    case 54 => Word(0x1E84C7A3) case 55 => Word(0x98E04D98) case 56 => Word(0x651D16A0)
    case 57 => Word(0x62658CA1) case 58 => Word(0x458544D6) case 59 => Word(0x44584CB7)
    case 60 => Word(0x7BA06619) case 61 => Word(0x6380AEA2) case 62 => Word(0x0AE55269)
    case 63 => Word(0x627B49A1) case 64 => Word(0x7CD45C9D) case 65 => Word(0x000F0000)
    case 66 => Word(0xFB50753A) case 67 => Word(0xEC6765E8) case 68 => Word(0xBA3C2BE2)
    case 69 => Word(0x0060C000) case 70 => Word(0x3A37CD05) case 71 => Word(0x458546F4)
    case 72 => Word(0xB8599DD6) case 73 => Word(0x380A1A26) case 74 => Word(0x01E02203)
    case 75 => Word(0xE7CC3456) case 76 => Word(0xE6E60B69) case 77 => Word(0x00F60A00)
    case 78 => Word(0x5795EF4F) case 79 => Word(0x822E0879)
    case _ => Word(0)
  }

  /** The first of the five words after t turns is A(t + 4); the others are earlier ones. */
  function A(t: nat): Word {
    match t
    case 0 => Word(0x0F4B87C3) case 1 => Word(0x40C951D8) case 2 => Word(0x62EB73FA)
    case 3 => Word(0xEFCDAB89) case 4 => Word(0x67452301) case 5 => Word(0x0116FC33)
    case 6 => Word(0x8990536D) case 7 => Word(0xA1390F08) case 8 => Word(0xCDD8E11B)
    case 9 => Word(0xCFD499DE) case 10 => Word(0x3FC7CA40) case 11 => Word(0x993E30C1)
    case 12 => Word(0x9E8C07D4) case 13 => Word(0x4B6AE328) case 14 => Word(0x8351F929)
    case 15 => Word(0xFBDA9E89) case 16 => Word(0x63188FE4) case 17 => Word(0x4607B664)
    case 18 => Word(0x9128F695) case 19 => Word(0x196BEE77) case 20 => Word(0x20BDD62F)
    case 21 => Word(0x4E925823) case 22 => Word(0x82AA6728) case 23 => Word(0xDC64901D)
    case 24 => Word(0xFD9E1D7D) case 25 => Word(0x1A37B0CA) case 26 => Word(0x33A23BFC)
    case 27 => Word(0x21283486) case 28 => Word(0xD541F12D) case 29 => Word(0xC7567DC6)
    case 30 => Word(0x48413BA4) case 31 => Word(0xBE35FBD5) case 32 => Word(0x4AA84D97)
    case 33 => Word(0x8370B52E) case 34 => Word(0xC5FBAF5D) case 35 => Word(0x1267B407)
    case 36 => Word(0x3B845D33) case 37 => Word(0x046FAA0A) case 38 => Word(0x2C0EBC11)
    case 39 => Word(0x21796AD4) case 40 => Word(0xDCBBB0CB) case 41 => Word(0x0F511FD8)
    case 42 => Word(0xDC63973F) case 43 => Word(0x4C986405) case 44 => Word(0x32DE1CBA)
    case 45 => Word(0xFC87DEDF) case 46 => Word(0x970A0D5C) case 47 => Word(0x7F193DC5)
    case 48 => Word(0xEE1B1AAF) case 49 => Word(0x40F28E09) case 50 => Word(0x1C51E1F2)
    case 51 => Word(0xA01B846C) case 52 => Word(0xBEAD02CA) case 53 => Word(0xBAF39337)
    case 54 => Word(0x120731C5) case 55 => Word(0x641DB2CE) case 56 => Word(0x3847AD66)
    case 57 => Word(0xE490436D) case 58 => Word(0x27E9F1D8) case 59 => Word(0x7B71F76D)
    case 60 => Word(0x5E6456AF) case 61 => Word(0xC846093F) case 62 => Word(0xD262FF50)
    case 63 => Word(0x09D785FD) case 64 => Word(0x3F52DE5A) case 65 => Word(0xD756C147)
    case 66 => Word(0x548C9CB2) case 67 => Word(0xB66C020B) case 68 => Word(0x6B61C9E1)
    case 69 => Word(0x19DFA7AC) case 70 => Word(0x101655F9) case 71 => Word(0x0C3DF2B4)
    case 72 => Word(0x78DD4D2B) case 73 => Word(0x497093C0) case 74 => Word(0x3F2588C2)
    case 75 => Word(0xC199F8C7) case 76 => Word(0x39859DE7) case 77 => Word(0xEDB42DE4)
    case 78 => Word(0x11793F6F) case 79 => Word(0x5EE76897) case 80 => Word(0x63F7DAB7)
    case 81 => Word(0xA079B7D9) case 82 => Word(0x860D21CC) case 83 => Word(0x5738D5E1)
    case 84 => Word(0x42541B35)
    case _ => Word(0)
  }

  function State(t: nat): Hash {
    Hash(A(t + 4), A(t + 3), Rotl30(A(t + 2)), Rotl30(A(t + 1)), Rotl30(A(t)))
  }

  predicate IsNextWord(w: seq<Word>, t: nat) {
    16 <= t < |w| && w[t] == Rotl1(Xor4(w[t - 3], w[t - 8], w[t - 14], w[t - 16]))
  }

  /** The words of a block follow from the first sixteen. */
  lemma {:induction false} WordsFollow(block: seq<Byte>, n: nat)
    requires |block| == 64
    ensures forall t :: 16 <= t < n ==> IsNextWord(Words(block, n), t)
    ensures forall t :: 0 <= t < n && t < 16 ==> Words(block, n)[t] == WordAt(block, t)
    decreases n
  {
    if n > 0 {
      WordsFollow(block, n - 1);
      var before, w := Words(block, n - 1), Words(block, n);
      assert w[..n - 1] == before;
      forall t | 16 <= t < n
        ensures IsNextWord(w, t)
      {
        if t < n - 1 {
          assert IsNextWord(before, t);
        }
      }
    }
  }

  /** All the words of the table. */
  ghost predicate IsTable(u: seq<Word>) {
    |u| == 80 && forall t {:trigger u[t]} :: 0 <= t < |u| ==> u[t] == W(t)
  }

  /** The first `n` words are those of the table. */
  ghost predicate AsInTable(w: seq<Word>, u: seq<Word>, n: nat) {
    && n <= |w| == |u| == 80
    && (forall t :: 16 <= t < |w| ==> IsNextWord(w, t))
    && w[..n] == u[..n]
  }

  lemma {:induction false} NextWord(
      w: seq<Word>, u: seq<Word>, t: nat, x: Word, a: Word, b: Word, c: Word, d: Word)
    requires 16 <= t < 80 && AsInTable(w, u, t)
    requires u[t] == x && u[t - 3] == a && u[t - 8] == b && u[t - 14] == c && u[t - 16] == d
    requires x == Rotl1(Xor4(a, b, c, d))
    ensures AsInTable(w, u, t + 1)
  {
    assert IsNextWord(w, t);
    assert w[..t][t - 3] == a && w[..t][t - 8] == b && w[..t][t - 14] == c && w[..t][t - 16] == d;
  }

  predicate IsNextState(t: nat) {
    State(t + 1) == Turn(t, W(t), State(t))
  }

  /** The states follow one from the other for `n` turns. */
  predicate StatesFollow(n: nat) {
    n == 0 || (IsNextState(n - 1) && StatesFollow(n - 1))
  }

  lemma {:induction false} WordsTo24(w: seq<Word>, u: seq<Word>)
    requires IsTable(u) && AsInTable(w, u, 16)
    ensures AsInTable(w, u, 24)
  {
    NextWord(w, u, 16, Word(0xC2C4C700), Word(0x00000000), Word(0x00000000), Word(0x00000000), Word(0x61626380));
    NextWord(w, u, 17, Word(0x00000000), Word(0x00000000), Word(0x00000000), Word(0x00000000), Word(0x00000000));
    NextWord(w, u, 18, Word(0x00000030), Word(0x00000018), Word(0x00000000), Word(0x00000000), Word(0x00000000));
    NextWord(w, u, 19, Word(0x85898E01), Word(0xC2C4C700), Word(0x00000000), Word(0x00000000), Word(0x00000000));
    NextWord(w, u, 20, Word(0x00000000), Word(0x00000000), Word(0x00000000), Word(0x00000000), Word(0x00000000));
    NextWord(w, u, 21, Word(0x00000060), Word(0x00000030), Word(0x00000000), Word(0x00000000), Word(0x00000000));
    NextWord(w, u, 22, Word(0x0B131C03), Word(0x85898E01), Word(0x00000000), Word(0x00000000), Word(0x00000000));
    NextWord(w, u, 23, Word(0x00000030), Word(0x00000000), Word(0x00000018), Word(0x00000000), Word(0x00000000));
  }

  lemma {:induction false} WordsTo32(w: seq<Word>, u: seq<Word>)
    requires IsTable(u) && AsInTable(w, u, 24)
    ensures AsInTable(w, u, 32)
  {
    NextWord(w, u, 24, Word(0x85898EC1), Word(0x00000060), Word(0xC2C4C700), Word(0x00000000), Word(0x00000000));
    NextWord(w, u, 25, Word(0x16263806), Word(0x0B131C03), Word(0x00000000), Word(0x00000000), Word(0x00000000));
    NextWord(w, u, 26, Word(0x00000000), Word(0x00000030), Word(0x00000030), Word(0x00000000), Word(0x00000000));
    NextWord(w, u, 27, Word(0x00000180), Word(0x85898EC1), Word(0x85898E01), Word(0x00000000), Word(0x00000000));
    NextWord(w, u, 28, Word(0x2C4C700C), Word(0x16263806), Word(0x00000000), Word(0x00000000), Word(0x00000000));
    NextWord(w, u, 29, Word(0x000000F0), Word(0x00000000), Word(0x00000060), Word(0x00000018), Word(0x00000000));
    NextWord(w, u, 30, Word(0x93AFB507), Word(0x00000180), Word(0x0B131C03), Word(0xC2C4C700), Word(0x00000000));
    NextWord(w, u, 31, Word(0x5898E048), Word(0x2C4C700C), Word(0x00000030), Word(0x00000000), Word(0x00000018));
  }

  lemma {:induction false} WordsTo40(w: seq<Word>, u: seq<Word>)
    requires IsTable(u) && AsInTable(w, u, 32)
    ensures AsInTable(w, u, 40)
  {
    NextWord(w, u, 32, Word(0x8E9A9202), Word(0x000000F0), Word(0x85898EC1), Word(0x00000030), Word(0xC2C4C700));
    NextWord(w, u, 33, Word(0x00000600), Word(0x93AFB507), Word(0x16263806), Word(0x85898E01), Word(0x00000000));
    NextWord(w, u, 34, Word(0xB131C0F0), Word(0x5898E048), Word(0x00000000), Word(0x00000000), Word(0x00000030));
    NextWord(w, u, 35, Word(0x16263BC6), Word(0x8E9A9202), Word(0x00000180), Word(0x00000060), Word(0x85898E01));
    NextWord(w, u, 36, Word(0x4EBED41E), Word(0x00000600), Word(0x2C4C700C), Word(0x0B131C03), Word(0x00000000));
    NextWord(w, u, 37, Word(0x626380A1), Word(0xB131C0F0), Word(0x000000F0), Word(0x00000030), Word(0x00000060));
    NextWord(w, u, 38, Word(0x16263806), Word(0x16263BC6), Word(0x93AFB507), Word(0x85898EC1), Word(0x0B131C03));
    NextWord(w, u, 39, Word(0x000018C0), Word(0x4EBED41E), Word(0x5898E048), Word(0x16263806), Word(0x00000030));
  }

  lemma {:induction false} WordsTo48(w: seq<Word>, u: seq<Word>)
    requires IsTable(u) && AsInTable(w, u, 40)
    ensures AsInTable(w, u, 48)
  {
    NextWord(w, u, 40, Word(0xD2E138C4), Word(0x626380A1), Word(0x8E9A9202), Word(0x00000000), Word(0x85898EC1));
    NextWord(w, u, 41, Word(0x00000F00), Word(0x16263806), Word(0x00000600), Word(0x00000180), Word(0x16263806));
    NextWord(w, u, 42, Word(0x3AFB5079), Word(0x000018C0), Word(0xB131C0F0), Word(0x2C4C700C), Word(0x00000000));
    NextWord(w, u, 43, Word(0x898E04E5), Word(0xD2E138C4), Word(0x16263BC6), Word(0x000000F0), Word(0x00000180));
    NextWord(w, u, 44, Word(0xE2BA3C2B), Word(0x00000F00), Word(0x4EBED41E), Word(0x93AFB507), Word(0x2C4C700C));
    NextWord(w, u, 45, Word(0x000060C0), Word(0x3AFB5079), Word(0x626380A1), Word(0x5898E048), Word(0x000000F0));
    NextWord(w, u, 46, Word(0x053A37CD), Word(0x898E04E5), Word(0x16263806), Word(0x8E9A9202), Word(0x93AFB507));
    NextWord(w, u, 47, Word(0x74458547), Word(0xE2BA3C2B), Word(0x000018C0), Word(0x00000600), Word(0x5898E048));
  }

  lemma {:induction false} WordsTo56(w: seq<Word>, u: seq<Word>)
    requires IsTable(u) && AsInTable(w, u, 48)
    ensures AsInTable(w, u, 56)
  {
    NextWord(w, u, 48, Word(0xDA9415ED), Word(0x000060C0), Word(0xD2E138C4), Word(0xB131C0F0), Word(0x8E9A9202));
    NextWord(w, u, 49, Word(0x26380A16), Word(0x053A37CD), Word(0x00000F00), Word(0x16263BC6), Word(0x00000600));
    NextWord(w, u, 50, Word(0x626383A1), Word(0x74458547), Word(0x3AFB5079), Word(0x4EBED41E), Word(0xB131C0F0));
    NextWord(w, u, 51, Word(0x4EBF54DE), Word(0xDA9415ED), Word(0x898E04E5), Word(0x626380A1), Word(0x16263BC6));
    NextWord(w, u, 52, Word(0x3835B44B), Word(0x26380A16), Word(0xE2BA3C2B), Word(0x16263806), Word(0x4EBED41E));
    NextWord(w, u, 53, Word(0x0000F600), Word(0x626383A1), Word(0x000060C0), Word(0x000018C0), Word(0x626380A1));
    NextWord(w, u, 54, Word(0x1E84C7A3), Word(0x4EBF54DE), Word(0x053A37CD), Word(0xD2E138C4), Word(0x16263806));
    NextWord(w, u, 55, Word(0x98E04D98), Word(0x3835B44B), Word(0x74458547), Word(0x00000F00), Word(0x000018C0));
  }

  lemma {:induction false} WordsTo64(w: seq<Word>, u: seq<Word>)
    requires IsTable(u) && AsInTable(w, u, 56)
    ensures AsInTable(w, u, 64)
  {
    NextWord(w, u, 56, Word(0x651D16A0), Word(0x0000F600), Word(0xDA9415ED), Word(0x3AFB5079), Word(0xD2E138C4));
    NextWord(w, u, 57, Word(0x62658CA1), Word(0x1E84C7A3), Word(0x26380A16), Word(0x898E04E5), Word(0x00000F00));
    NextWord(w, u, 58, Word(0x458544D6), Word(0x98E04D98), Word(0x626383A1), Word(0xE2BA3C2B), Word(0x3AFB5079));
    NextWord(w, u, 59, Word(0x44584CB7), Word(0x651D16A0), Word(0x4EBF54DE), Word(0x000060C0), Word(0x898E04E5));
    NextWord(w, u, 60, Word(0x7BA06619), Word(0x62658CA1), Word(0x3835B44B), Word(0x053A37CD), Word(0xE2BA3C2B));
    NextWord(w, u, 61, Word(0x6380AEA2), Word(0x458544D6), Word(0x0000F600), Word(0x74458547), Word(0x000060C0));
    NextWord(w, u, 62, Word(0x0AE55269), Word(0x44584CB7), Word(0x1E84C7A3), Word(0xDA9415ED), Word(0x053A37CD));
    NextWord(w, u, 63, Word(0x627B49A1), Word(0x7BA06619), Word(0x98E04D98), Word(0x26380A16), Word(0x74458547));
  }

  lemma {:induction false} WordsTo72(w: seq<Word>, u: seq<Word>)
    requires IsTable(u) && AsInTable(w, u, 64)
    ensures AsInTable(w, u, 72)
  {
    NextWord(w, u, 64, Word(0x7CD45C9D), Word(0x6380AEA2), Word(0x651D16A0), Word(0x626383A1), Word(0xDA9415ED));
    NextWord(w, u, 65, Word(0x000F0000), Word(0x0AE55269), Word(0x62658CA1), Word(0x4EBF54DE), Word(0x26380A16));
    NextWord(w, u, 66, Word(0xFB50753A), Word(0x627B49A1), Word(0x458544D6), Word(0x3835B44B), Word(0x626383A1));
    NextWord(w, u, 67, Word(0xEC6765E8), Word(0x7CD45C9D), Word(0x44584CB7), Word(0x0000F600), Word(0x4EBF54DE));
    NextWord(w, u, 68, Word(0xBA3C2BE2), Word(0x000F0000), Word(0x7BA06619), Word(0x1E84C7A3), Word(0x3835B44B));
    NextWord(w, u, 69, Word(0x0060C000), Word(0xFB50753A), Word(0x6380AEA2), Word(0x98E04D98), Word(0x0000F600));
    NextWord(w, u, 70, Word(0x3A37CD05), Word(0xEC6765E8), Word(0x0AE55269), Word(0x651D16A0), Word(0x1E84C7A3));
    NextWord(w, u, 71, Word(0x458546F4), Word(0xBA3C2BE2), Word(0x627B49A1), Word(0x62658CA1), Word(0x98E04D98));
  }

  lemma {:induction false} WordsTo80(w: seq<Word>, u: seq<Word>)
    requires IsTable(u) && AsInTable(w, u, 72)
    ensures AsInTable(w, u, 80)
  {
    NextWord(w, u, 72, Word(0xB8599DD6), Word(0x0060C000), Word(0x7CD45C9D), Word(0x458544D6), Word(0x651D16A0));
    NextWord(w, u, 73, Word(0x380A1A26), Word(0x3A37CD05), Word(0x000F0000), Word(0x44584CB7), Word(0x62658CA1));
    NextWord(w, u, 74, Word(0x01E02203), Word(0x458546F4), Word(0xFB50753A), Word(0x7BA06619), Word(0x458544D6));
    NextWord(w, u, 75, Word(0xE7CC3456), Word(0xB8599DD6), Word(0xEC6765E8), Word(0x6380AEA2), Word(0x44584CB7));
    NextWord(w, u, 76, Word(0xE6E60B69), Word(0x380A1A26), Word(0xBA3C2BE2), Word(0x0AE55269), Word(0x7BA06619));
    NextWord(w, u, 77, Word(0x00F60A00), Word(0x01E02203), Word(0x0060C000), Word(0x627B49A1), Word(0x6380AEA2));
    NextWord(w, u, 78, Word(0x5795EF4F), Word(0xE7CC3456), Word(0x3A37CD05), Word(0x7CD45C9D), Word(0x0AE55269));
    NextWord(w, u, 79, Word(0x822E0879), Word(0xE6E60B69), Word(0x458546F4), Word(0x000F0000), Word(0x627B49A1));
  }

  lemma {:induction false} StatesTo4()
    requires StatesFollow(0)
    ensures StatesFollow(4)
  {
    assert IsNextState(0) && IsNextState(1) && IsNextState(2) && IsNextState(3);
    assert StatesFollow(2);
  }

  lemma {:induction false} StatesTo8()
    requires StatesFollow(4)
    ensures StatesFollow(8)
  {
    assert IsNextState(4) && IsNextState(5) && IsNextState(6) && IsNextState(7);
    assert StatesFollow(6);
  }

  lemma {:induction false} StatesTo12()
    requires StatesFollow(8)
    ensures StatesFollow(12)
  {
    assert IsNextState(8) && IsNextState(9) && IsNextState(10) && IsNextState(11);
    assert StatesFollow(10);
  }

  lemma {:induction false} StatesTo16()
    requires StatesFollow(12)
    ensures StatesFollow(16)
  {
    assert IsNextState(12) && IsNextState(13) && IsNextState(14) && IsNextState(15);
    assert StatesFollow(14);
  }

  lemma {:induction false} StatesTo20()
    requires StatesFollow(16)
    ensures StatesFollow(20)
  {
    assert IsNextState(16) && IsNextState(17) && IsNextState(18) && IsNextState(19);
    assert StatesFollow(18);
  }

  lemma {:induction false} StatesTo24()
    requires StatesFollow(20)
    ensures StatesFollow(24)
  {
    assert IsNextState(20) && IsNextState(21) && IsNextState(22) && IsNextState(23);
    assert StatesFollow(22);
  }

  lemma {:induction false} StatesTo28()
    requires StatesFollow(24)
    ensures StatesFollow(28)
  {
    assert IsNextState(24) && IsNextState(25) && IsNextState(26) && IsNextState(27);
    assert StatesFollow(26);
  }

  lemma {:induction false} StatesTo32()
    requires StatesFollow(28)
    ensures StatesFollow(32)
  {
    assert IsNextState(28) && IsNextState(29) && IsNextState(30) && IsNextState(31);
    assert StatesFollow(30);
  }

  lemma {:induction false} StatesTo36()
    requires StatesFollow(32)
    ensures StatesFollow(36)
  {
    assert IsNextState(32) && IsNextState(33) && IsNextState(34) && IsNextState(35);
    assert StatesFollow(34);
  }

  lemma {:induction false} StatesTo40()
    requires StatesFollow(36)
    ensures StatesFollow(40)
  {
    assert IsNextState(36) && IsNextState(37) && IsNextState(38) && IsNextState(39);
    assert StatesFollow(38);
  }

  lemma {:induction false} StatesTo44()
    requires StatesFollow(40)
    ensures StatesFollow(44)
  {
    assert IsNextState(40) && IsNextState(41) && IsNextState(42) && IsNextState(43);
    assert StatesFollow(42);
  }

  lemma {:induction false} StatesTo48()
    requires StatesFollow(44)
    ensures StatesFollow(48)
  {
    assert IsNextState(44) && IsNextState(45) && IsNextState(46) && IsNextState(47);
    assert StatesFollow(46);
  }

  lemma {:induction false} StatesTo52()
    requires StatesFollow(48)
    ensures StatesFollow(52)
  {
    assert IsNextState(48) && IsNextState(49) && IsNextState(50) && IsNextState(51);
    assert StatesFollow(50);
  }

  lemma {:induction false} StatesTo56()
    requires StatesFollow(52)
    ensures StatesFollow(56)
  {
    assert IsNextState(52) && IsNextState(53) && IsNextState(54) && IsNextState(55);
    assert StatesFollow(54);
  }

  lemma {:induction false} StatesTo60()
    requires StatesFollow(56)
    ensures StatesFollow(60)
  {
    assert IsNextState(56) && IsNextState(57) && IsNextState(58) && IsNextState(59);
    assert StatesFollow(58);
  }

  lemma {:induction false} StatesTo64()
    requires StatesFollow(60)
    ensures StatesFollow(64)
  {
    assert IsNextState(60) && IsNextState(61) && IsNextState(62) && IsNextState(63);
    assert StatesFollow(62);
  }

  lemma {:induction false} StatesTo68()
    requires StatesFollow(64)
    ensures StatesFollow(68)
  {
    assert IsNextState(64) && IsNextState(65) && IsNextState(66) && IsNextState(67);
    assert StatesFollow(66);
  }

  lemma {:induction false} StatesTo72()
    requires StatesFollow(68)
    ensures StatesFollow(72)
  {
    assert IsNextState(68) && IsNextState(69) && IsNextState(70) && IsNextState(71);
    assert StatesFollow(70);
  }

  lemma {:induction false} StatesTo76()
    requires StatesFollow(72)
    ensures StatesFollow(76)
  {
    assert IsNextState(72) && IsNextState(73) && IsNextState(74) && IsNextState(75);
    assert StatesFollow(74);
  }

  lemma {:induction false} StatesTo80()
    requires StatesFollow(76)
    ensures StatesFollow(80)
  {
    assert IsNextState(76) && IsNextState(77) && IsNextState(78) && IsNextState(79);
    assert StatesFollow(78);
  }

  lemma {:induction false} AllWordsAreInTable(w: seq<Word>, u: seq<Word>)
    requires IsTable(u) && AsInTable(w, u, 16)
    ensures w == u
  {
    WordsTo24(w, u);
    WordsTo32(w, u);
    WordsTo40(w, u);
    WordsTo48(w, u);
    WordsTo56(w, u);
    WordsTo64(w, u);
    WordsTo72(w, u);
    WordsTo80(w, u);
    assert w[..80] == w && u[..80] == u;
  }

  lemma {:induction false} AllStatesFollow()
    ensures StatesFollow(80)
  {
    StatesTo4();
    StatesTo8();
    StatesTo12();
    StatesTo16();
    StatesTo20();
    StatesTo24();
    StatesTo28();
    StatesTo32();
    StatesTo36();
    StatesTo40();
    StatesTo44();
    StatesTo48();
    StatesTo52();
    StatesTo56();
    StatesTo60();
    StatesTo64();
    StatesTo68();
    StatesTo72();
    StatesTo76();
    StatesTo80();
  }

  lemma {:induction false} TableIsTurned(w: seq<Word>, n: nat)
    requires |w| >= n && StatesFollow(n) && forall t :: 0 <= t < n ==> w[t] == W(t)
    ensures Turns(w, n, State(0)) == State(n)
    decreases n
  {
    if n > 0 {
      TableIsTurned(w, n - 1);
      assert IsNextState(n - 1);
    }
  }

  lemma {:induction false} BlockIsRead(block: seq<Byte>)
    requires block == Pad(ABC)
    ensures |block| == 64 && forall t :: 0 <= t < 16 ==> WordAt(block, t) == W(t)
  {
    PaddedShort(ABC, block);
    assert WordAt(block, 0) == W(0) && WordAt(block, 15) == W(15);
    forall t | 0 < t < 15
      ensures WordAt(block, t) == W(t)
    {
      assert WordAt(block, t) == WordOf(Byte(0), Byte(0), Byte(0), Byte(0)) == Word(0);
    }
  }

  lemma {:induction false} PaddedShort(m: seq<Byte>, block: seq<Byte>)
    requires m == ABC && block == Pad(m)
    ensures |block| == 64 && block[0] == Byte(0x61) && block[1] == Byte(0x62) && block[2] == Byte(0x63)
    ensures block[3] == Byte(0x80) && block[63] == Byte(24)
    ensures forall i :: 4 <= i < 63 ==> block[i] == Byte(0)
  {
    assert ZeroCount(3) == 52;
    assert Length64(24) == [Byte(0), Byte(0), Byte(0), Byte(0), Byte(0), Byte(0), Byte(0), Byte(24)];
  }

  lemma {:induction false} StartAndEnd()
    ensures State(0) == INITIAL
    ensures AddHashes(INITIAL, State(80)) ==
            Hash(Word(0xA9993E36), Word(0x4706816A), Word(0xBA3E2571), Word(0x7850C26C), Word(0x9CD0D89D))
  {
  }

  lemma {:induction false} BlockIsTurned(block: seq<Byte>, w: seq<Word>)
    requires |block| == 64 && w == AllWords(block) && forall t :: 0 <= t < 16 ==> WordAt(block, t) == W(t)
    ensures Turns(w, 80, State(0)) == State(80)
  {
    var u := seq(80, t requires 0 <= t < 80 => W(t));
    WordsFollow(block, 80);
    assert w[..16] == u[..16];
    AllWordsAreInTable(w, u);
    AllStatesFollow();
    TableIsTurned(w, 80);
  }

  lemma {:induction false} OnlyBlock(m: seq<Byte>, block: seq<Byte>, w: seq<Word>, r: Hash)
    requires block == Pad(m) && |block| == 64 && w == AllWords(block) && r == Turns(w, 80, INITIAL)
    ensures Digest(m) == AddHashes(INITIAL, r)
  {
    assert block[64 * 0..64 * 1] == block;
    assert Fold(block, 1, INITIAL, CompressNext) == CompressNext(block, INITIAL);
  }

  /** The digest of "abc" is the one that the standard prints. */
  lemma {:induction false} DigestOfAbc(d: Hash)
    requires d == Digest(ABC)
    ensures d == Hash(Word(0xA9993E36), Word(0x4706816A), Word(0xBA3E2571), Word(0x7850C26C), Word(0x9CD0D89D))
  {
    var block := Pad(ABC);
    BlockIsRead(block);
    BlockIsTurned(block, AllWords(block));
    StartAndEnd();
    OnlyBlock(ABC, block, AllWords(block), State(80));
  }
}
