/** The Blowfish key schedule as a function on table values, and what bcrypt relies on about it. */
module KeySchedule {
  import opened Powers
  import opened Blowfish

  /** How a block is encrypted under given tables; the schedule works the same for any cipher. */
  type BlockCipher = (Tables, Halves) -> Halves

  /** The 18 words a key contributes: consecutive words of its endless repetition. */
  function KeyWords(key: seq<bv8>): (words: seq<bv32>)
    requires |key| > 0
    ensures |words| == 18
  {
    seq(18, i requires 0 <= i < 18 => WordAt(key, 4 * i))
  }

  type Words = w: seq<bv32> | |w| == 18 witness seq(18, _ => 0)

  /** The first `n` subkeys with the key words folded in. */
  function MixedPrefix(p: seq<bv32>, words: Words, n: nat): (mixed: seq<bv32>)
    requires |p| == 18 && n <= 18
    ensures |mixed| == 18
  {
    if n == 0 then p else MixedPrefix(p, words, n - 1)[n - 1 := Xor(p[n - 1], words[n - 1])]
  }

  /** Every subkey absorbs its key word. */
  lemma {:induction false} MixedAt(p: seq<bv32>, words: Words, n: nat, i: nat)
    requires |p| == 18 && i < 18 && n <= 18
    ensures MixedPrefix(p, words, n)[i] == if i < n then Xor(p[i], words[i]) else p[i]
  {
    if n > 0 {
      MixedAt(p, words, n - 1, i);
    }
  }

  function Mixed(t: Tables, words: Words): Tables {
    t.(p := MixedPrefix(t.p, words, |words|))
  }

  function PutPair(s: seq<bv32>, i: nat, h: Halves): (out: seq<bv32>)
    requires i + 1 < |s|
    ensures |out| == |s|
  {
    s[i := h.l][i + 1 := h.r]
  }

  /** How many pairs the schedule writes: 9 into the subkeys and 128 into each S-box. */
  function Pairs(t: Tables): nat {
    (|t.p| + |t.s0| + |t.s1| + |t.s2| + |t.s3|) / 2
  }

  /** Writes the `n`-th pair: first the subkeys, then the four boxes in order. */
  function Put(t: Tables, n: nat, h: Halves): Tables
    requires n < Pairs(t)
  {
    if n < 9 then t.(p := PutPair(t.p, 2 * n, h))
    else if n < 137 then t.(s0 := PutPair(t.s0, 2 * (n - 9), h))
    else if n < 265 then t.(s1 := PutPair(t.s1, 2 * (n - 137), h))
    else if n < 393 then t.(s2 := PutPair(t.s2, 2 * (n - 265), h))
    else t.(s3 := PutPair(t.s3, 2 * (n - 393), h))
  }

  /** Overwrites the tables from pair `n` on, each pair the encryption of the one before under the
      tables as they stand. */
  function Fill(enc: BlockCipher, t: Tables, h: Halves, n: nat): Tables
    requires n <= Pairs(t)
    decreases Pairs(t) - n
  {
    if n == Pairs(t) then t
    else var h' := enc(t, h); Fill(enc, Put(t, n, h'), h', n + 1)
  }

  /** The same with the next two cyclic words of the salt folded into each pair before it is
      encrypted. */
  function FillSalted(enc: BlockCipher, t: Tables, h: Halves, salt: seq<bv8>, n: nat): Tables
    requires |salt| > 0 && n <= Pairs(t)
    decreases Pairs(t) - n
  {
    if n == Pairs(t) then t
    else var h' := enc(t, Salted(h, salt, n)); FillSalted(enc, Put(t, n, h'), h', salt, n + 1)
  }

  function Salted(h: Halves, salt: seq<bv8>, n: nat): Halves
    requires |salt| > 0
  {
    Halves(Xor(h.l, WordAt(salt, 8 * n)), Xor(h.r, WordAt(salt, 8 * n + 4)))
  }

  function Expanded(enc: BlockCipher, t: Tables, key: Words): Tables {
    Fill(enc, Mixed(t, key), Halves(0, 0), 0)
  }

  function ExpandedWithSalt(enc: BlockCipher, t: Tables, key: Words, salt: seq<bv8>): Tables
    requires |salt| > 0
  {
    FillSalted(enc, Mixed(t, key), Halves(0, 0), salt, 0)
  }

  // ---------------------------------------------------------------- a zero salt is no salt

  lemma ZeroWord()
    ensures Word(0, 0, 0, 0) == 0
  {
  }

  lemma XorZero(w: bv32)
    ensures Xor(w, 0) == w
  {
  }

  lemma SaltedByZeros(h: Halves, salt: seq<bv8>, n: nat)
    requires |salt| > 0
    requires forall i :: 0 <= i < |salt| ==> salt[i] == 0
    ensures Salted(h, salt, n) == h
  {
    ZeroWord();
    assert WordAt(salt, 8 * n) == 0 && WordAt(salt, 8 * n + 4) == 0;
    XorZero(h.l);
    XorZero(h.r);
  }

  lemma {:induction false} FillWithZeroSalt(enc: BlockCipher, t: Tables, h: Halves, salt: seq<bv8>, n: nat)
    requires |salt| > 0 && n <= Pairs(t)
    requires forall i :: 0 <= i < |salt| ==> salt[i] == 0
    ensures FillSalted(enc, t, h, salt, n) == Fill(enc, t, h, n)
    decreases Pairs(t) - n
  {
    if n < Pairs(t) {
      SaltedByZeros(h, salt, n);
      var h' := enc(t, h);
      FillWithZeroSalt(enc, Put(t, n, h'), h', salt, n + 1);
    }
  }

  /** `ExpandKey` is `expandKeyWithSalt` with an all-zero salt of any positive length. */
  lemma ExpandKeyIsZeroSalt(enc: BlockCipher, t: Tables, key: Words, salt: seq<bv8>)
    requires |salt| > 0
    requires forall i :: 0 <= i < |salt| ==> salt[i] == 0
    ensures ExpandedWithSalt(enc, t, key, salt) == Expanded(enc, t, key)
  {
    FillWithZeroSalt(enc, Mixed(t, key), Halves(0, 0), salt, 0);
  }

  // ---------------------------------------------------------------- what the schedule leaves

  /** The tables in the order in which the schedule overwrites them. */
  function Flat(t: Tables): (words: seq<bv32>)
    ensures |words| == 1042
  {
    t.p + t.s0 + t.s1 + t.s2 + t.s3
  }

  lemma FlatDetermines(t: Tables, u: Tables)
    requires Flat(t) == Flat(u)
    ensures t == u
  {
    assert t.p == Flat(t)[..18] && u.p == Flat(u)[..18];
    assert t.s0 == Flat(t)[18..274] && u.s0 == Flat(u)[18..274];
    assert t.s1 == Flat(t)[274..530] && u.s1 == Flat(u)[274..530];
    assert t.s2 == Flat(t)[530..786] && u.s2 == Flat(u)[530..786];
    assert t.s3 == Flat(t)[786..] && u.s3 == Flat(u)[786..];
  }

  lemma PutFlat(t: Tables, n: nat, h: Halves)
    requires n < 521
    ensures Flat(Put(t, n, h)) == Flat(t)[2 * n := h.l][2 * n + 1 := h.r]
  {
  }

  /** Writing goes forward: what is before pair n stays. */
  lemma {:induction false} FillKeepsFront(enc: BlockCipher, t: Tables, h: Halves, salt: seq<bv8>, n: nat)
    requires |salt| > 0 && n <= 521
    ensures Flat(FillSalted(enc, t, h, salt, n))[..2 * n] == Flat(t)[..2 * n]
    decreases 521 - n
  {
    if n < 521 {
      hide Put, Flat, Salted;
      var h' := enc(t, Salted(h, salt, n));
      var t' := Put(t, n, h');
      PutFlat(t, n, h');
      FillKeepsFront(enc, t', h', salt, n + 1);
      assert FillSalted(enc, t, h, salt, n) == FillSalted(enc, t', h', salt, n + 1);
      assert Flat(t')[..2 * n + 2][..2 * n] == Flat(t)[..2 * n];
    }
  }

  /** The pair before the k-th, when `h` is what precedes the n-th. */
  function Before(out: seq<bv32>, h: Halves, n: nat, k: nat): Halves
    requires n <= k && 2 * k <= |out|
  {
    if k == n then h else Halves(out[2 * k - 2], out[2 * k - 1])
  }

  lemma {:induction false} FillChain(enc: BlockCipher, t: Tables, h: Halves, salt: seq<bv8>, n: nat, k: nat, s: Tables)
    requires |salt| > 0 && n <= k < 521
    requires var out := Flat(FillSalted(enc, t, h, salt, n)); Flat(s) == out[..2 * k] + Flat(t)[2 * k..]
    ensures var out := Flat(FillSalted(enc, t, h, salt, n));
            Halves(out[2 * k], out[2 * k + 1]) == enc(s, Salted(Before(out, h, n, k), salt, k))
    decreases 521 - n
  {
    hide Put, Flat, Salted;
    var h' := enc(t, Salted(h, salt, n));
    var t' := Put(t, n, h');
    var out := Flat(FillSalted(enc, t, h, salt, n));
    PutFlat(t, n, h');
    FillKeepsFront(enc, t', h', salt, n + 1);
    assert out == Flat(FillSalted(enc, t', h', salt, n + 1));
    assert out[2 * n] == out[..2 * n + 2][2 * n] == h'.l && out[2 * n + 1] == out[..2 * n + 2][2 * n + 1] == h'.r;
    if k == n {
      FillKeepsFront(enc, t, h, salt, n);
      assert Flat(s) == Flat(t);
      FlatDetermines(s, t);
    } else {
      assert Flat(t')[2 * k..] == Flat(t)[2 * k..];
      FillChain(enc, t', h', salt, n + 1, k, s);
    }
  }

  lemma MixedIs(t: Tables, words: Words)
    ensures Mixed(t, words).p == seq(18, i requires 0 <= i < 18 => t.p[i] ^ words[i])
    ensures Mixed(t, words).s0 == t.s0 && Mixed(t, words).s1 == t.s1 && Mixed(t, words).s2 == t.s2 && Mixed(t, words).s3 == t.s3
  {
    forall i | 0 <= i < 18
      ensures MixedPrefix(t.p, words, 18)[i] == t.p[i] ^ words[i]
    {
      MixedAt(t.p, words, 18, i);
    }
  }

  /** The salted schedule, pair by pair: the k-th of the 521 pairs, in the order of P and the four boxes, is
      the encryption of the pair before it, xored with the next eight bytes of the cyclic salt, under the
      tables in which the pairs before it are already new and the rest are the old ones, P mixed with the
      key. */
  lemma SaltedScheduleIs(enc: BlockCipher, t: Tables, key: Words, salt: seq<bv8>, k: nat, s: Tables)
    requires |salt| > 0 && k < 521
    requires var u := ExpandedWithSalt(enc, t, key, salt);
             var out := u.p + u.s0 + u.s1 + u.s2 + u.s3;
             var mixed := seq(18, i requires 0 <= i < 18 => t.p[i] ^ key[i]) + t.s0 + t.s1 + t.s2 + t.s3;
             s.p + s.s0 + s.s1 + s.s2 + s.s3 == out[..2 * k] + mixed[2 * k..]
    ensures var u := ExpandedWithSalt(enc, t, key, salt);
            var out := u.p + u.s0 + u.s1 + u.s2 + u.s3;
            var before := if k == 0 then Halves(0, 0) else Halves(out[2 * k - 2], out[2 * k - 1]);
            var salted := Halves(before.l ^ WordAt(salt, 8 * k), before.r ^ WordAt(salt, 8 * k + 4));
            Halves(out[2 * k], out[2 * k + 1]) == enc(s, salted)
  {
    hide FillSalted, WordAt, Mixed;
    MixedIs(t, key);
    FillChain(enc, Mixed(t, key), Halves(0, 0), salt, 0, k, s);
  }

  /** The plain schedule, pair by pair: the same without a salt. */
  lemma ScheduleIs(enc: BlockCipher, t: Tables, key: Words, k: nat, s: Tables)
    requires k < 521
    requires var u := Expanded(enc, t, key);
             var out := u.p + u.s0 + u.s1 + u.s2 + u.s3;
             var mixed := seq(18, i requires 0 <= i < 18 => t.p[i] ^ key[i]) + t.s0 + t.s1 + t.s2 + t.s3;
             s.p + s.s0 + s.s1 + s.s2 + s.s3 == out[..2 * k] + mixed[2 * k..]
    ensures var u := Expanded(enc, t, key);
            var out := u.p + u.s0 + u.s1 + u.s2 + u.s3;
            var before := if k == 0 then Halves(0, 0) else Halves(out[2 * k - 2], out[2 * k - 1]);
            Halves(out[2 * k], out[2 * k + 1]) == enc(s, before)
  {
    hide Expanded, ExpandedWithSalt, Salted, Mixed, Fill, FillSalted;
    var u := Expanded(enc, t, key);
    var out := u.p + u.s0 + u.s1 + u.s2 + u.s3;
    var before := if k == 0 then Halves(0, 0) else Halves(out[2 * k - 2], out[2 * k - 1]);
    ExpandKeyIsZeroSalt(enc, t, key, [0]);
    SaltedScheduleIs(enc, t, key, [0], k, s);
    UnsaltedIs(before, k);
  }

  lemma UnsaltedIs(h: Halves, k: nat)
    ensures Halves(h.l ^ WordAt([0], 8 * k), h.r ^ WordAt([0], 8 * k + 4)) == h
  {
    SaltedByZeros(h, [0], k);
  }

  /** The 18 key words are the words of the key's repetition, one after the other. */
  lemma KeyWordsAre(key: seq<bv8>, i: nat)
    requires |key| > 0 && i < 18
    ensures KeyWords(key)[i]
         == (key[4 * i % |key|] as bv32 << 24) | (key[(4 * i + 1) % |key|] as bv32 << 16)
            | (key[(4 * i + 2) % |key|] as bv32 << 8) | key[(4 * i + 3) % |key|] as bv32
  {
    hide WordAt;
    WordAtIs(key, 4 * i);
  }

  // ---------------------------------------------------------------- bcrypt's expensive setup

  function Iterate<T>(f: T -> T, x: T, n: nat): T {
    if n == 0 then x else f(Iterate(f, x, n - 1))
  }

  /** One round: expand the key, then expand the salt. */
  function EksRound(enc: BlockCipher, key: Words, salt: Words): Tables -> Tables {
    (t: Tables) => Expanded(enc, Expanded(enc, t, key), salt)
  }

  /** The cipher bcrypt works with: the salted expansion, then 2^cost rounds. */
  function EksSetup(enc: BlockCipher, start: Tables, key: seq<bv8>, cost: nat, salt: seq<bv8>): Tables
    requires |key| > 0 && |salt| > 0
  {
    Iterate(EksRound(enc, KeyWords(key), KeyWords(salt)),
            ExpandedWithSalt(enc, start, KeyWords(key), salt), Pow2(cost))
  }

  lemma {:induction false} IterateAdds<T>(f: T -> T, x: T, m: nat, n: nat)
    ensures Iterate(f, x, m + n) == Iterate(f, Iterate(f, x, m), n)
    decreases n
  {
    if n > 0 {
      IterateAdds(f, x, m, n - 1);
      assert m + n - 1 == m + (n - 1);
    }
  }

  /** One more unit of cost does all the rounds once more. */
  lemma IterateDoubles<T>(f: T -> T, x: T, n: nat)
    ensures Iterate(f, x, Pow2(n + 1)) == Iterate(f, Iterate(f, x, Pow2(n)), Pow2(n))
  {
    IterateAdds(f, x, Pow2(n), Pow2(n));
  }

  // ---------------------------------------------------------------- only 72 bytes of key matter

  /** Two keys whose endless repetitions agree on the first 72 bytes. */
  ghost predicate SameStream(k1: seq<bv8>, k2: seq<bv8>) {
    |k1| > 0 && |k2| > 0 && forall i :: 0 <= i < 72 ==> CyclicByte(k1, i) == CyclicByte(k2, i)
  }

  lemma SameStreamSameWords(k1: seq<bv8>, k2: seq<bv8>)
    requires SameStream(k1, k2)
    ensures KeyWords(k1) == KeyWords(k2)
  {
    forall i | 0 <= i < 18
      ensures WordAt(k1, 4 * i) == WordAt(k2, 4 * i)
    {
    }
  }

  /** A key enters the setup only through the first 72 bytes of its repetition. */
  lemma SetupSameStream(enc: BlockCipher, start: Tables, k1: seq<bv8>, k2: seq<bv8>, cost: nat, salt: seq<bv8>)
    requires SameStream(k1, k2) && |salt| > 0
    ensures EksSetup(enc, start, k1, cost, salt) == EksSetup(enc, start, k2, cost, salt)
  {
    SameStreamSameWords(k1, k2);
  }
}
