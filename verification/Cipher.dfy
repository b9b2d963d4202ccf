/** The cipher object and the methods that update it in place. */
module Ciphers {
  import opened Blowfish
  import opened KeySchedule

  class Cipher {
    const p: array<bv32>
    const s0: array<bv32>
    const s1: array<bv32>
    const s2: array<bv32>
    const s3: array<bv32>

    ghost predicate Valid() {
      && p.Length == 18
      && s0.Length == 256 && s1.Length == 256 && s2.Length == 256 && s3.Length == 256
      && p != s0 && p != s1 && p != s2 && p != s3
      && s0 != s1 && s0 != s2 && s0 != s3 && s1 != s2 && s1 != s3 && s2 != s3
    }

    ghost function Value(): Tables
      requires Valid()
      reads p, s0, s1, s2, s3
    {
      Arrays(p[..], s0[..], s1[..], s2[..], s3[..])
    }

    /** A cipher holding copies of the given tables. */
    constructor (start: Tables)
      ensures Valid() && Value() == start
      ensures fresh(p) && fresh(s0) && fresh(s1) && fresh(s2) && fresh(s3)
    {
      p := new bv32[18](i requires 0 <= i < 18 => start.p[i]);
      s0 := new bv32[256](i requires 0 <= i < 256 => start.s0[i]);
      s1 := new bv32[256](i requires 0 <= i < 256 => start.s1[i]);
      s2 := new bv32[256](i requires 0 <= i < 256 => start.s2[i]);
      s3 := new bv32[256](i requires 0 <= i < 256 => start.s3[i]);
      new;
      assert p[..] == start.p && s0[..] == start.s0 && s1[..] == start.s1 && s2[..] == start.s2
          && s3[..] == start.s3;
    }

    function F(x: bv32): (y: bv32)
      requires Valid()
      reads p, s0, s1, s2, s3
      ensures y == RoundFunction(Value())(x)
    {
      Combine(s0[BoxIndex(x, 24)], s1[BoxIndex(x, 16)], s2[BoxIndex(x, 8)], s3[BoxIndex(x, 0)])
    }

    /** The sixteen rounds, two to a turn of the loop, under the subkeys in the given order;
        `WrittenOut` below has them line by line as the source does. */
    method CryptBlock(keys: seq<bv32>, l: bv32, r: bv32) returns (x: bv32, y: bv32)
      requires Valid() && |keys| == 18
      ensures Halves(x, y) == Feistel(RoundFunction(Value()), keys, Halves(l, r))
    {
      hide Xor, RoundFunction, F, Rounds;
      ghost var f, start := RoundFunction(Value()), Whiten(Halves(l, r), keys[0]);
      var xl, xr := Xor(l, keys[0]), r;
      for turn := 0 to 8
        invariant Rounds(f, keys, 1, |keys| - 1, start) == Rounds(f, keys, 2 * turn + 1, |keys| - 1, Halves(xl, xr))
      {
        ghost var h := Halves(xl, xr);
        xr := Xor(xr, Xor(F(xl), keys[2 * turn + 1]));
        xl := Xor(xl, Xor(F(xr), keys[2 * turn + 2]));
        TwoRounds(f, keys, 2 * turn + 1, h);
      }
      FeistelEnds(f, keys, Halves(l, r), Halves(xl, xr));
      xr := Xor(xr, keys[17]);
      return xr, xl;
    }

    method EncryptBlock(l: bv32, r: bv32) returns (x: bv32, y: bv32)
      requires Valid()
      ensures Halves(x, y) == EncryptPair(Value(), Halves(l, r))
    {
      x, y := CryptBlock(p[..], l, r);
    }

    method DecryptBlock(l: bv32, r: bv32) returns (x: bv32, y: bv32)
      requires Valid()
      ensures Halves(x, y) == DecryptPair(Value(), Halves(l, r))
    {
      x, y := CryptBlock(Reversed(p[..]), l, r);
    }

    /** Encrypts eight bytes of `src` into eight bytes of `dst`.  The two may be the same bytes, or
        overlap: everything is read before anything is written. */
    method Encrypt(dst: array<bv8>, to: nat, src: array<bv8>, from: nat)
      requires Valid() && to + 8 <= dst.Length && from + 8 <= src.Length
      modifies dst
      ensures Value() == old(Value())
      ensures dst[..] == old(dst[..to] + EncryptBytes(Value(), src[from..from + 8]) + dst[to + 8..])
    {
      hide Word, ByteOf, EncryptPair;
      ghost var b, before := src[from..from + 8], dst[..];
      var l := Word(src[from], src[from + 1], src[from + 2], src[from + 3]);
      var r := Word(src[from + 4], src[from + 5], src[from + 6], src[from + 7]);
      assert Halves(l, r) == BlockOf(b);
      l, r := EncryptBlock(l, r);
      StoreBlock(dst, to, l, r);
    }

    method Decrypt(dst: array<bv8>, to: nat, src: array<bv8>, from: nat)
      requires Valid() && to + 8 <= dst.Length && from + 8 <= src.Length
      modifies dst
      ensures Value() == old(Value())
      ensures dst[..] == old(dst[..to] + DecryptBytes(Value(), src[from..from + 8]) + dst[to + 8..])
    {
      hide Word, ByteOf, DecryptPair;
      ghost var b, before := src[from..from + 8], dst[..];
      var l := Word(src[from], src[from + 1], src[from + 2], src[from + 3]);
      var r := Word(src[from + 4], src[from + 5], src[from + 6], src[from + 7]);
      assert Halves(l, r) == BlockOf(b);
      l, r := DecryptBlock(l, r);
      StoreBlock(dst, to, l, r);
    }

    /** The table the schedule is overwriting when it has written `start` pairs. */
    ghost predicate Fills(a: array<bv32>, start: nat) {
      || (a == p && start == 0) || (a == s0 && start == 9) || (a == s1 && start == 137)
      || (a == s2 && start == 265) || (a == s3 && start == 393)
    }

    method StorePair(a: array<bv32>, k: nat, l: bv32, r: bv32, ghost start: nat)
      requires Valid() && Fills(a, start) && k < a.Length / 2
      modifies a
      ensures Value() == Put(old(Value()), start + k, Halves(l, r))
    {
      a[2 * k], a[2 * k + 1] := l, r;
    }

    /** Overwrites one table pair by pair: the body the source repeats for each of the five. */
    method FillTable(a: array<bv32>, l0: bv32, r0: bv32, ghost start: nat) returns (l: bv32, r: bv32)
      requires Valid() && Fills(a, start)
      modifies a
      ensures Fill(EncryptPair, Value(), Halves(l, r), start + a.Length / 2)
           == old(Fill(EncryptPair, Value(), Halves(l0, r0), start))
    {
      hide EncryptPair, Fill, Put;
      l, r := l0, r0;
      for k := 0 to a.Length / 2
        invariant Fill(EncryptPair, Value(), Halves(l, r), start + k)
               == old(Fill(EncryptPair, Value(), Halves(l0, r0), start))
      {
        ghost var before, h := Value(), Halves(l, r);
        l, r := EncryptBlock(l, r);
        StorePair(a, k, l, r, start);
        FillStep(EncryptPair, before, h, start + k);
      }
    }

    method FillTableSalted(a: array<bv32>, l0: bv32, r0: bv32, salt: seq<bv8>, pos: nat, ghost start: nat)
      returns (l: bv32, r: bv32, next: nat)
      requires Valid() && Fills(a, start)
      requires |salt| > 0 && pos == Wrapped(8 * start, salt)
      modifies a
      ensures next == Wrapped(8 * (start + a.Length / 2), salt)
      ensures FillSalted(EncryptPair, Value(), Halves(l, r), salt, start + a.Length / 2)
           == old(FillSalted(EncryptPair, Value(), Halves(l0, r0), salt, start))
    {
      hide EncryptPair, FillSalted, Xor, WordAt, Salted, Wrapped, Put;
      l, r := l0, r0;
      next := pos;
      for k := 0 to a.Length / 2
        invariant next == Wrapped(8 * (start + k), salt)
        invariant FillSalted(EncryptPair, Value(), Halves(l, r), salt, start + k)
               == old(FillSalted(EncryptPair, Value(), Halves(l0, r0), salt, start))
      {
        ghost var before, h, n := Value(), Halves(l, r), start + k;
        var w;
        w, next := GetNextWord(salt, next, 8 * n);
        l := Xor(l, w);
        w, next := GetNextWord(salt, next, 8 * n + 4);
        r := Xor(r, w);
        SaltedIs(h, salt, n);
        l, r := EncryptBlock(l, r);
        StorePair(a, k, l, r, start);
        FillSaltedStep(EncryptPair, before, h, salt, n);
      }
    }

    /** Folds the key into the subkeys, with the circular word read written inline. */
    method MixKey(key: seq<bv8>)
      requires Valid() && |key| > 0
      modifies p
      ensures Value() == Mixed(old(Value()), KeyWords(key))
    {
      hide Xor, ShiftIn, CyclicByte, KeyWords;
      ghost var words, start := KeyWords(key), p[..];
      var j := 0;
      for i := 0 to 18
        invariant j == Wrapped(4 * i, key)
        invariant p[..] == MixedPrefix(start, words, i)
      {
        MixedAt(start, words, i, i);
        var d: bv32 := 0;
        for k := 0 to 4
          invariant j == Wrapped(4 * i + k, key)
          invariant d == PartialWord(key, 4 * i, k)
          invariant p[..] == MixedPrefix(start, words, i)
        {
          assert key[j] == CyclicByte(key, 4 * i + k) by { CyclicByteAt(key, 4 * i + k); }
          d := ShiftIn(d, key[j]);
          j := j + 1;
          if j >= |key| {
            j := 0;
          }
          ModSucc(4 * i + k, |key|);
        }
        assert d == words[i] by { KeyWordAt(key, i); }
        p[i] := Xor(p[i], d);
      }
    }

    method ExpandKey(key: seq<bv8>)
      requires Valid() && |key| > 0
      modifies p, s0, s1, s2, s3
      ensures Value() == Expanded(EncryptPair, old(Value()), KeyWords(key))
    {
      hide EncryptPair, Fill, Mixed;
      MixKey(key);
      var l, r := FillTable(p, 0, 0, 0);
      l, r := FillTable(s0, l, r, 9);
      l, r := FillTable(s1, l, r, 137);
      l, r := FillTable(s2, l, r, 265);
      l, r := FillTable(s3, l, r, 393);
      FillDone(EncryptPair, Value(), Halves(l, r));
    }

    method ExpandKeyWithSalt(key: seq<bv8>, salt: seq<bv8>)
      requires Valid() && |key| > 0 && |salt| > 0
      modifies p, s0, s1, s2, s3
      ensures Value() == ExpandedWithSalt(EncryptPair, old(Value()), KeyWords(key), salt)
    {
      hide EncryptPair, Xor, FillSalted;
      ghost var words, start := KeyWords(key), Value();
      var j := 0;
      for i := 0 to 18
        invariant j == Wrapped(4 * i, key)
        invariant Value() == start.(p := MixedPrefix(start.p, words, i))
      {
        MixedAt(start.p, words, i, i);
        var w;
        w, j := GetNextWord(key, j, 4 * i);
        p[i] := Xor(p[i], w);
      }
      var l, r := 0, 0;
      l, r, j := FillTableSalted(p, l, r, salt, 0, 0);
      l, r, j := FillTableSalted(s0, l, r, salt, j, 9);
      l, r, j := FillTableSalted(s1, l, r, salt, j, 137);
      l, r, j := FillTableSalted(s2, l, r, salt, j, 265);
      l, r, j := FillTableSalted(s3, l, r, salt, j, 393);
      FillSaltedDone(EncryptPair, Value(), Halves(l, r), salt);
    }
  }

  lemma CyclicByteAt(b: seq<bv8>, i: nat)
    requires |b| > 0
    ensures CyclicByte(b, i) == b[Wrapped(i, b)]
  {
  }

  lemma KeyWordAt(key: seq<bv8>, i: nat)
    requires |key| > 0 && i < 18
    ensures PartialWord(key, 4 * i, 4) == KeyWords(key)[i]
  {
    PartialWordFull(key, 4 * i);
  }

  lemma FillStep(enc: BlockCipher, t: Tables, h: Halves, n: nat)
    requires n < Pairs(t)
    ensures Fill(enc, t, h, n) == Fill(enc, Put(t, n, enc(t, h)), enc(t, h), n + 1)
  {
  }

  lemma FillDone(enc: BlockCipher, t: Tables, h: Halves)
    ensures Fill(enc, t, h, 521) == t
  {
  }

  lemma SaltedIs(h: Halves, salt: seq<bv8>, n: nat)
    requires |salt| > 0
    ensures Salted(h, salt, n) == Halves(Xor(h.l, WordAt(salt, 8 * n)), Xor(h.r, WordAt(salt, 8 * n + 4)))
  {
  }

  lemma FillSaltedStep(enc: BlockCipher, t: Tables, h: Halves, salt: seq<bv8>, n: nat)
    requires |salt| > 0 && n < Pairs(t)
    ensures var h' := enc(t, Salted(h, salt, n));
            FillSalted(enc, t, h, salt, n) == FillSalted(enc, Put(t, n, h'), h', salt, n + 1)
  {
  }

  lemma FillSaltedDone(enc: BlockCipher, t: Tables, h: Halves, salt: seq<bv8>)
    requires |salt| > 0
    ensures FillSalted(enc, t, h, salt, 521) == t
  {
  }

  method StoreBlock(dst: array<bv8>, to: nat, l: bv32, r: bv32)
    requires to + 8 <= dst.Length
    modifies dst
    ensures dst[..] == old(dst[..to]) + BytesOf(Halves(l, r)) + old(dst[to + 8..])
  {
    hide ByteOf;
    dst[to], dst[to + 1], dst[to + 2], dst[to + 3] := ByteOf(l, 24), ByteOf(l, 16), ByteOf(l, 8), ByteOf(l, 0);
    dst[to + 4], dst[to + 5], dst[to + 6], dst[to + 7] := ByteOf(r, 24), ByteOf(r, 16), ByteOf(r, 8), ByteOf(r, 0);
  }

  /** What one pair of lines of the block methods does. */
  lemma TwoRounds(f: bv32 -> bv32, ks: seq<bv32>, i: nat, h: Halves)
    requires i + 2 < |ks|
    ensures var r := Xor(h.r, Xor(f(h.l), ks[i]));
            var l := Xor(h.l, Xor(f(r), ks[i + 1]));
            Rounds(f, ks, i, |ks| - 1, h) == Rounds(f, ks, i + 2, |ks| - 1, Halves(l, r))
  {
    hide Xor;
    var h1 := Round(f, ks[i], h);
    assert Rounds(f, ks, i, |ks| - 1, h) == Rounds(f, ks, i + 1, |ks| - 1, h1);
  }

  lemma FeistelEnds(f: bv32 -> bv32, ks: seq<bv32>, block: Halves, end: Halves)
    requires |ks| == 18
    requires Rounds(f, ks, 1, |ks| - 1, Whiten(block, ks[0])) == Rounds(f, ks, 17, |ks| - 1, end)
    ensures Feistel(f, ks, block) == Halves(Xor(end.r, ks[17]), end.l)
  {
    hide Xor;
  }

  /** The sixteen rounds written out line by line, as the source does. */
  function WrittenOut(f: bv32 -> bv32, k: seq<bv32>, block: Halves): Halves
    requires |k| == 18
  {
    var l0, r0 := Xor(block.l, k[0]), block.r;
    var r1 := Xor(r0, Xor(f(l0), k[1]));
    var l2 := Xor(l0, Xor(f(r1), k[2]));
    var r3 := Xor(r1, Xor(f(l2), k[3]));
    var l4 := Xor(l2, Xor(f(r3), k[4]));
    var r5 := Xor(r3, Xor(f(l4), k[5]));
    var l6 := Xor(l4, Xor(f(r5), k[6]));
    var r7 := Xor(r5, Xor(f(l6), k[7]));
    var l8 := Xor(l6, Xor(f(r7), k[8]));
    var r9 := Xor(r7, Xor(f(l8), k[9]));
    var l10 := Xor(l8, Xor(f(r9), k[10]));
    var r11 := Xor(r9, Xor(f(l10), k[11]));
    var l12 := Xor(l10, Xor(f(r11), k[12]));
    var r13 := Xor(r11, Xor(f(l12), k[13]));
    var l14 := Xor(l12, Xor(f(r13), k[14]));
    var r15 := Xor(r13, Xor(f(l14), k[15]));
    var l16 := Xor(l14, Xor(f(r15), k[16]));
    Halves(Xor(r15, k[17]), l16)
  }

  lemma WrittenOutIsFeistel(f: bv32 -> bv32, k: seq<bv32>, block: Halves)
    requires |k| == 18
    ensures WrittenOut(f, k, block) == Feistel(f, k, block)
  {
    hide Xor;
    var l0, r0 := Xor(block.l, k[0]), block.r;
    var r1 := Xor(r0, Xor(f(l0), k[1]));
    var l2 := Xor(l0, Xor(f(r1), k[2]));
    TwoRounds(f, k, 1, Halves(l0, r0));
    var r3 := Xor(r1, Xor(f(l2), k[3]));
    var l4 := Xor(l2, Xor(f(r3), k[4]));
    TwoRounds(f, k, 3, Halves(l2, r1));
    var r5 := Xor(r3, Xor(f(l4), k[5]));
    var l6 := Xor(l4, Xor(f(r5), k[6]));
    TwoRounds(f, k, 5, Halves(l4, r3));
    var r7 := Xor(r5, Xor(f(l6), k[7]));
    var l8 := Xor(l6, Xor(f(r7), k[8]));
    TwoRounds(f, k, 7, Halves(l6, r5));
    var r9 := Xor(r7, Xor(f(l8), k[9]));
    var l10 := Xor(l8, Xor(f(r9), k[10]));
    TwoRounds(f, k, 9, Halves(l8, r7));
    var r11 := Xor(r9, Xor(f(l10), k[11]));
    var l12 := Xor(l10, Xor(f(r11), k[12]));
    TwoRounds(f, k, 11, Halves(l10, r9));
    var r13 := Xor(r11, Xor(f(l12), k[13]));
    var l14 := Xor(l12, Xor(f(r13), k[14]));
    TwoRounds(f, k, 13, Halves(l12, r11));
    var r15 := Xor(r13, Xor(f(l14), k[15]));
    var l16 := Xor(l14, Xor(f(r15), k[16]));
    TwoRounds(f, k, 15, Halves(l14, r13));
  }

  /** A line of the source: a half-word takes in the round function of the other half and a subkey. */
  predicate Line(half: bv32, z: bv32, k: bv32, out: bv32) {
    out == half ^ (z ^ k)
  }

  /** The words the four bytes of a half-word select, from the top byte and the first box on. */
  predicate Selected(t: Tables, y: bv32, w: Four) {
    && w.a == t.s0[(y >> 24) as bv8 as int] && w.b == t.s1[((y >> 16) & 0xff) as bv8 as int]
    && w.c == t.s2[((y >> 8) & 0xff) as bv8 as int] && w.d == t.s3[(y & 0xff) as bv8 as int]
  }

  /** Four words, and what they are combined to. */
  datatype Four = Four(a: bv32, b: bv32, c: bv32, d: bv32)

  predicate Combined(a: bv32, b: bv32, c: bv32, d: bv32, z: bv32) {
    z == ((a + b) ^ c) + d
  }

  lemma LineIs(f: bv32 -> bv32, k: bv32, a: bv32, b: bv32, out: bv32)
    requires Line(b, f(a), k, out)
    ensures Round(f, k, Halves(a, b)) == Halves(out, a)
  {
  }

  lemma SelectedIs(t: Tables, y: bv32, w: Four)
    requires Selected(t, y, w)
    ensures RoundFunction(t)(y) == Combine(w.a, w.b, w.c, w.d)
  {
    BoxIndexIs(y);
    hide BoxIndex, Combine;
  }

  lemma CombinedIs(a: bv32, b: bv32, c: bv32, d: bv32, z: bv32)
    requires Combined(a, b, c, d, z)
    ensures z == Combine(a, b, c, d)
  {
    CombineIs(a, b, c, d);
    hide Combine;
  }

  predicate Spelled(t: Tables, y: bv32, w: Four, z: bv32) {
    Selected(t, y, w) && Combined(w.a, w.b, w.c, w.d, z)
  }

  lemma SpelledIs(t: Tables, y: bv32, w: Four, z: bv32)
    requires Spelled(t, y, w, z)
    ensures z == RoundFunction(t)(y)
  {
    hide Selected, Combined, RoundFunction, Combine;
    SelectedIs(t, y, w);
    CombinedIs(w.a, w.b, w.c, w.d, z);
  }

  /** All the lines: `x[i]` is what line i assigns and `z[i]` what the round function makes of it. */
  predicate Lines(k: seq<bv32>, r: bv32, x: seq<bv32>, z: seq<bv32>)
    requires |k| == 18 && |x| == 17 && |z| == 16
  {
    Line(r, z[0], k[1], x[1]) && forall i :: 2 <= i <= 16 ==> Line(x[i - 2], z[i - 1], k[i], x[i])
  }

  lemma {:induction false} LinesAreRounds(f: bv32 -> bv32, k: seq<bv32>, r: bv32, x: seq<bv32>, z: seq<bv32>, i: nat)
    requires |k| == 18 && |x| == 17 && |z| == 16 && Lines(k, r, x, z) && 1 <= i <= 17
    requires forall j :: 0 <= j < 16 ==> z[j] == f(x[j])
    ensures Rounds(f, k, 1, i, Halves(x[0], r)) == Halves(x[i - 1], if i == 1 then r else x[i - 2])
  {
    hide Line, Round;
    if i > 1 {
      LinesAreRounds(f, k, r, x, z, i - 1);
      RoundsSnoc(f, k, 1, i - 1, Halves(x[0], r));
      hide Rounds;
      assert z[i - 2] == f(x[i - 2]);
      LineIs(f, k[i - 1], x[i - 2], if i == 2 then r else x[i - 3], x[i - 1]);
    }
  }

  lemma LinesAreFeistel(f: bv32 -> bv32, k: seq<bv32>, l: bv32, r: bv32, x: seq<bv32>, z: seq<bv32>)
    requires |k| == 18 && |x| == 17 && |z| == 16 && Lines(k, r, x, z) && x[0] == Xor(l, k[0])
    requires forall j :: 0 <= j < 16 ==> z[j] == f(x[j])
    ensures Feistel(f, k, Halves(l, r)) == Halves(Xor(x[15], k[17]), x[16])
  {
    hide Rounds, Xor, Lines;
    LinesAreRounds(f, k, r, x, z, 17);
  }

  lemma XorIs(a: bv32, b: bv32)
    ensures Xor(a, b) == a ^ b
  {
  }

  lemma EncryptionOf(t: Tables, l: bv32, r: bv32, x: seq<bv32>, w: seq<Four>, z: seq<bv32>)
    requires |x| == 17 && |w| == 16 && |z| == 16 && Lines(t.p, r, x, z) && x[0] == Xor(l, t.p[0])
    requires forall i :: 0 <= i < 16 ==> Spelled(t, x[i], w[i], z[i])
    ensures EncryptPair(t, Halves(l, r)) == Halves(Xor(x[15], t.p[17]), x[16])
  {
    hide RoundFunction, Feistel, Lines, Spelled, Xor;
    forall i | 0 <= i < 16
      ensures z[i] == RoundFunction(t)(x[i])
    {
      SpelledIs(t, x[i], w[i], z[i]);
    }
    LinesAreFeistel(RoundFunction(t), t.p, l, r, x, z);
  }

  lemma AllSelected(t: Tables, x: seq<bv32>, w: seq<Four>)
    requires |x| == 17 && |w| == 16
    requires forall i :: 0 <= i < 16 ==>
               && w[i].a == t.s0[(x[i] >> 24) as bv8 as int] && w[i].b == t.s1[((x[i] >> 16) & 0xff) as bv8 as int]
               && w[i].c == t.s2[((x[i] >> 8) & 0xff) as bv8 as int] && w[i].d == t.s3[(x[i] & 0xff) as bv8 as int]
    ensures forall i :: 0 <= i < 16 ==> Selected(t, x[i], w[i])
  {
  }

  lemma AllCombined(w: seq<Four>, z: seq<bv32>)
    requires |w| == 16 && |z| == 16
    requires forall i :: 0 <= i < 16 ==> z[i] == ((w[i].a + w[i].b) ^ w[i].c) + w[i].d
    ensures forall i :: 0 <= i < 16 ==> Combined(w[i].a, w[i].b, w[i].c, w[i].d, z[i])
  {
  }

  lemma AllSpelled(t: Tables, x: seq<bv32>, w: seq<Four>, z: seq<bv32>)
    requires |x| == 17 && |w| == 16 && |z| == 16
    requires forall i :: 0 <= i < 16 ==> Selected(t, x[i], w[i])
    requires forall i :: 0 <= i < 16 ==> Combined(w[i].a, w[i].b, w[i].c, w[i].d, z[i])
    ensures forall i :: 0 <= i < 16 ==> Spelled(t, x[i], w[i], z[i])
  {
    hide Selected, Combined;
  }

  lemma AllLines(k: seq<bv32>, r: bv32, x: seq<bv32>, z: seq<bv32>)
    requires |k| == 18 && |x| == 17 && |z| == 16 && x[1] == r ^ (z[0] ^ k[1])
    requires forall i :: 2 <= i <= 16 ==> x[i] == x[i - 2] ^ (z[i - 1] ^ k[i])
    ensures Lines(k, r, x, z)
  {
  }

  /** Encryption in the source's own lines and operators: `x[i]` is what line i assigns, `w[i]` the four words
      its bytes select and `z[i]` what they are combined to; the result is the last two half-words. */
  lemma EncryptionIs(t: Tables, l: bv32, r: bv32, x: seq<bv32>, w: seq<Four>, z: seq<bv32>)
    requires |x| == 17 && |w| == 16 && |z| == 16 && x[0] == l ^ t.p[0] && x[1] == r ^ (z[0] ^ t.p[1])
    requires forall i :: 2 <= i <= 16 ==> x[i] == x[i - 2] ^ (z[i - 1] ^ t.p[i])
    requires forall i :: 0 <= i < 16 ==> z[i] == ((w[i].a + w[i].b) ^ w[i].c) + w[i].d
    requires forall i :: 0 <= i < 16 ==>
               && w[i].a == t.s0[(x[i] >> 24) as bv8 as int] && w[i].b == t.s1[((x[i] >> 16) & 0xff) as bv8 as int]
               && w[i].c == t.s2[((x[i] >> 8) & 0xff) as bv8 as int] && w[i].d == t.s3[(x[i] & 0xff) as bv8 as int]
    ensures EncryptPair(t, Halves(l, r)) == Halves(x[15] ^ t.p[17], x[16])
  {
    hide *;
    AllLines(t.p, r, x, z);
    AllSelected(t, x, w);
    AllCombined(w, z);
    AllSpelled(t, x, w, z);
    XorIs(l, t.p[0]);
    XorIs(x[15], t.p[17]);
    EncryptionOf(t, l, r, x, w, z);
  }

  /** Subkeys and third box zero, ones in the first two boxes, and i at place i of the fourth. */
  predicate Known(t: Tables) {
    && t.p == seq(18, _ => 0) && t.s0 == seq(256, _ => 1) && t.s1 == seq(256, _ => 1) && t.s2 == seq(256, _ => 0)
    && forall i :: 0 <= i < 256 ==> t.s3[i] == i as bv32
  }

  lemma KnownRound(t: Tables, x: bv32, w: Four, z: bv32)
    requires Known(t) && (x == 0 || x == 2 || x == 4) && w == Four(1, 1, 0, x) && z == x + 2
    ensures Spelled(t, x, w, z)
  {
  }

  /** The half-words of the known answer, which come round after six lines. */
  function Beat(i: nat): bv32 {
    match i % 6
    case 1 => 2
    case 2 => 4
    case 3 => 4
    case 4 => 2
    case _ => 0
  }

  lemma BeatGoesOn(i: nat)
    ensures Line(Beat(i), Beat(i + 1) + 2, 0, Beat(i + 2))
  {
    var m := i % 6;
    assert (i + 1) % 6 == if m == 5 then 0 else m + 1;
    assert (i + 2) % 6 == if m >= 4 then m - 4 else m + 2;
  }

  lemma KnownLines(k: seq<bv32>, x: seq<bv32>, z: seq<bv32>)
    requires k == seq(18, _ => 0) && |x| == 17 && |z| == 16
    requires forall j :: 0 <= j < 17 ==> x[j] == Beat(j)
    requires forall j :: 0 <= j < 16 ==> z[j] == Beat(j) + 2
    ensures Lines(k, 0, x, z)
  {
    assert Line(0, z[0], k[1], x[1]);
    hide Beat, Line;
    forall i | 2 <= i <= 16
      ensures Line(x[i - 2], z[i - 1], k[i], x[i])
    {
      BeatGoesOn(i - 2);
    }
  }

  /** A known answer: under such tables the zero block becomes (4, 2). */
  lemma KnownAnswer(t: Tables)
    requires t.p == seq(18, _ => 0) && t.s0 == seq(256, _ => 1) && t.s1 == seq(256, _ => 1) && t.s2 == seq(256, _ => 0)
    requires forall i :: 0 <= i < 256 ==> t.s3[i] == i as bv32
    ensures EncryptPair(t, Halves(0, 0)) == Halves(4, 2)
  {
    var x := seq(17, i requires 0 <= i < 17 => Beat(i));
    var z := seq(16, i requires 0 <= i < 16 => Beat(i) + 2);
    var w := seq(16, i requires 0 <= i < 16 => Four(1, 1, 0, Beat(i)));
    assert x[0] == 0 && x[15] == 4 && x[16] == 2;
    assert t.p[0] == 0 && t.p[17] == 0 && Known(t);
    BeatIsSmall();
    hide *;
    KnownLines(t.p, x, z);
    forall i | 0 <= i < 16
      ensures Spelled(t, x[i], w[i], z[i])
    {
      KnownRound(t, Beat(i), Four(1, 1, 0, Beat(i)), Beat(i) + 2);
    }
    XorZeros();
    EncryptionOf(t, 0, 0, x, w, z);
  }

  lemma BeatIsSmall()
    ensures forall i: nat :: Beat(i) == 0 || Beat(i) == 2 || Beat(i) == 4
  {
  }

  lemma XorZeros()
    ensures Xor(0, 0) == 0 && Xor(4, 0) == 4
  {
  }
}
