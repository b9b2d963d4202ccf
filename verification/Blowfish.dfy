/** Blowfish and its key schedule (internal/pkg/blowfish).

  A cipher is an object whose five tables the key schedule overwrites in place; `Tables` is the
  value such an object holds.  The digits of pi that seed the tables are a parameter: every result
  holds for all tables. */
module Blowfish {

  datatype Arrays = Arrays(p: seq<bv32>, s0: seq<bv32>, s1: seq<bv32>, s2: seq<bv32>, s3: seq<bv32>)

  /** The value of a cipher: 18 subkeys and four S-boxes of 256 words. */
  type Tables = t: Arrays | |t.p| == 18 && |t.s0| == 256 && |t.s1| == 256 && |t.s2| == 256 && |t.s3| == 256
    witness Arrays(seq(18, _ => 0), seq(256, _ => 0), seq(256, _ => 0), seq(256, _ => 0), seq(256, _ => 0))

  // ---------------------------------------------------------------- the block cipher

  /** The byte of `x` that Go's `byte(x >> n)` keeps. */
  function ByteOf(x: bv32, n: nat): bv8
    requires n <= 32
  {
    ((x >> n) & 0xff) as bv8
  }

  function BoxIndex(x: bv32, n: nat): (i: nat)
    requires n <= 32
    ensures i < 256
  {
    ByteOf(x, n) as int
  }

  function Combine(a: bv32, b: bv32, c: bv32, d: bv32): bv32 {
    ((a + b) ^ c) + d
  }

  /** The round function of a set of S-boxes. */
  function RoundFunction(t: Tables): bv32 -> bv32 {
    (x: bv32) =>
      Combine(t.s0[BoxIndex(x, 24)], t.s1[BoxIndex(x, 16)], t.s2[BoxIndex(x, 8)], t.s3[BoxIndex(x, 0)])
  }

  /** The four bytes of a word, from the top. */
  lemma BoxIndexIs(x: bv32)
    ensures BoxIndex(x, 24) == (x >> 24) as bv8 as int
    ensures BoxIndex(x, 16) == ((x >> 16) & 0xff) as bv8 as int
    ensures BoxIndex(x, 8) == ((x >> 8) & 0xff) as bv8 as int
    ensures BoxIndex(x, 0) == (x & 0xff) as bv8 as int
  {
    assert ByteOf(x, 24) == (x >> 24) as bv8;
    assert ByteOf(x, 16) == ((x >> 16) & 0xff) as bv8;
    assert ByteOf(x, 8) == ((x >> 8) & 0xff) as bv8;
    assert ByteOf(x, 0) == (x & 0xff) as bv8;
  }

  lemma CombineIs(a: bv32, b: bv32, c: bv32, d: bv32)
    ensures Combine(a, b, c, d) == ((a + b) ^ c) + d
  {
  }

  /** The round function in the source's own operators: the four bytes from the top select from the four
      boxes, and the words are added, xored and added. */
  lemma RoundFunctionIs(t: Tables, x: bv32)
    ensures RoundFunction(t)(x)
         == ((t.s0[(x >> 24) as bv8 as int] + t.s1[((x >> 16) & 0xff) as bv8 as int])
             ^ t.s2[((x >> 8) & 0xff) as bv8 as int]) + t.s3[(x & 0xff) as bv8 as int]
  {
    BoxIndexIs(x);
    CombineIs(t.s0[BoxIndex(x, 24)], t.s1[BoxIndex(x, 16)], t.s2[BoxIndex(x, 8)], t.s3[BoxIndex(x, 0)]);
    hide BoxIndex, Combine;
  }

  /** The two halves of a block. */
  datatype Halves = Halves(l: bv32, r: bv32)

  function Xor(a: bv32, b: bv32): bv32 {
    a ^ b
  }

  /** One Feistel round: the right half absorbs the round function of the left half, then the halves
      change places. */
  function Round(f: bv32 -> bv32, k: bv32, h: Halves): Halves {
    Halves(Xor(h.r, Xor(f(h.l), k)), h.l)
  }

  /** The rounds with subkeys `ks[i..j]`. */
  function Rounds(f: bv32 -> bv32, ks: seq<bv32>, i: nat, j: nat, h: Halves): Halves
    requires i <= j <= |ks|
    decreases j - i
  {
    if i == j then h else Rounds(f, ks, i + 1, j, Round(f, ks[i], h))
  }

  function Whiten(h: Halves, k: bv32): Halves {
    Halves(Xor(h.l, k), h.r)
  }

  function Swap(h: Halves): Halves {
    Halves(h.r, h.l)
  }

  /** Schneier's cipher for any round function: the first subkey goes into the left half, the ones
      between drive the rounds, and the last goes into the half that comes out on the left. */
  function Feistel(f: bv32 -> bv32, ks: seq<bv32>, block: Halves): Halves
    requires |ks| >= 2
  {
    Whiten(Swap(Rounds(f, ks, 1, |ks| - 1, Whiten(block, ks[0]))), ks[|ks| - 1])
  }

  function Reversed(ks: seq<bv32>): (rev: seq<bv32>)
    ensures |rev| == |ks|
  {
    seq(|ks|, i requires 0 <= i < |ks| => ks[|ks| - 1 - i])
  }

  function EncryptPair(t: Tables, block: Halves): Halves
  {
    Feistel(RoundFunction(t), t.p, block)
  }

  /** Decryption is encryption with the subkeys in the opposite order. */
  function DecryptPair(t: Tables, block: Halves): Halves
  {
    Feistel(RoundFunction(t), Reversed(t.p), block)
  }

  lemma XorCancels(a: bv32, b: bv32)
    ensures Xor(Xor(a, b), b) == a
  {
  }

  lemma RoundUndo(f: bv32 -> bv32, k: bv32, h: Halves)
    ensures Round(f, k, Swap(Round(f, k, h))) == Swap(h)
  {
    hide Xor;
    XorCancels(h.r, Xor(f(h.l), k));
  }

  lemma {:induction false} RoundsSnoc(f: bv32 -> bv32, ks: seq<bv32>, i: nat, j: nat, h: Halves)
    requires i <= j < |ks|
    ensures Rounds(f, ks, i, j + 1, h) == Round(f, ks[j], Rounds(f, ks, i, j, h))
    decreases j - i
  {
    if i < j {
      RoundsSnoc(f, ks, i + 1, j, Round(f, ks[i], h));
    }
  }

  /** Rounds run over the reversed subkeys, with the halves exchanged, undo themselves. */
  lemma {:induction false} RoundsUndo(f: bv32 -> bv32, ks: seq<bv32>, i: nat, j: nat, h: Halves)
    requires i <= j <= |ks|
    ensures Rounds(f, Reversed(ks), |ks| - j, |ks| - i, Swap(Rounds(f, ks, i, j, h))) == Swap(h)
    decreases j - i
  {
    if i < j {
      var h' := Round(f, ks[i], h);
      RoundsUndo(f, ks, i + 1, j, h');
      RoundsSnoc(f, Reversed(ks), |ks| - j, |ks| - i - 1, Swap(Rounds(f, ks, i, j, h)));
      RoundUndo(f, ks[i], h);
    }
  }

  lemma WhitenUndo(h: Halves, k: bv32)
    ensures Whiten(Whiten(h, k), k) == h
  {
    hide Xor;
    XorCancels(h.l, k);
  }

  lemma FeistelUndo(f: bv32 -> bv32, ks: seq<bv32>, block: Halves)
    requires |ks| >= 2
    ensures Feistel(f, Reversed(ks), Feistel(f, ks, block)) == block
  {
    hide Xor, Whiten;
    var n := |ks|;
    var start := Whiten(block, ks[0]);
    var end := Swap(Rounds(f, ks, 1, n - 1, start));
    WhitenUndo(end, ks[n - 1]);
    RoundsUndo(f, ks, 1, n - 1, start);
    WhitenUndo(block, ks[0]);
  }

  /** Decryption undoes encryption and encryption undoes decryption, whatever the tables hold. */
  lemma BlockRoundTrip(t: Tables, block: Halves)
    ensures DecryptPair(t, EncryptPair(t, block)) == block
    ensures EncryptPair(t, DecryptPair(t, block)) == block
  {
    hide Xor, RoundFunction, Feistel;
    FeistelUndo(RoundFunction(t), t.p, block);
    FeistelUndo(RoundFunction(t), Reversed(t.p), block);
    assert Reversed(Reversed(t.p)) == t.p;
  }

  // ---------------------------------------------------------------- words and bytes

  function Word(b0: bv8, b1: bv8, b2: bv8, b3: bv8): bv32 {
    (b0 as bv32 << 24) | (b1 as bv32 << 16) | (b2 as bv32 << 8) | b3 as bv32
  }

  /** Where position `i` of the endless repetition of `b` lies in `b`. */
  function Wrapped(i: nat, b: seq<bv8>): (j: nat)
    requires |b| > 0
    ensures j < |b|
  {
    i % |b|
  }

  /** Byte `i` of the endless repetition of `b`. */
  function CyclicByte(b: seq<bv8>, i: nat): bv8
    requires |b| > 0
  {
    b[Wrapped(i, b)]
  }

  /** The big-endian word at position `pos` of the endless repetition of `b`. */
  function WordAt(b: seq<bv8>, pos: nat): bv32
    requires |b| > 0
  {
    Word(CyclicByte(b, pos), CyclicByte(b, pos + 1), CyclicByte(b, pos + 2), CyclicByte(b, pos + 3))
  }

  /** The word spelled out: big-endian, from the bytes and their endless repetition. */
  lemma WordAtIs(b: seq<bv8>, pos: nat)
    requires |b| > 0
    ensures WordAt(b, pos)
         == (b[pos % |b|] as bv32 << 24) | (b[(pos + 1) % |b|] as bv32 << 16)
            | (b[(pos + 2) % |b|] as bv32 << 8) | b[(pos + 3) % |b|] as bv32
    ensures Wrapped(pos, b) == pos % |b|
  {
  }

  lemma SmallMultiple(d: int, n: int)
    requires -n < d * n < n
    ensures d == 0
  {
  }

  lemma ModOf(q: nat, r: nat, n: nat)
    requires r < n
    ensures (q * n + r) % n == r
  {
    var x := q * n + r;
    assert (x / n - q) * n == r - x % n;
    SmallMultiple(x / n - q, n);
  }

  /** Stepping a circular position. */
  lemma ModSucc(i: nat, n: nat)
    requires n > 0
    ensures (i + 1) % n == if i % n + 1 >= n then 0 else i % n + 1
  {
    var q, r := i / n, i % n;
    assert i == q * n + r;
    if r + 1 >= n {
      assert i + 1 == (q + 1) * n + 0;
      ModOf(q + 1, 0, n);
    } else {
      ModOf(q, r + 1, n);
    }
  }

  function ShiftIn(w: bv32, b: bv8): bv32 {
    (w << 8) | b as bv32
  }

  /** Shifting four bytes into a word one after the other gives the big-endian word. */
  lemma ShiftedIn(b0: bv8, b1: bv8, b2: bv8, b3: bv8)
    ensures ShiftIn(ShiftIn(ShiftIn(ShiftIn(0, b0), b1), b2), b3) == Word(b0, b1, b2, b3)
  {
  }

  /** The word after the first `k` bytes at `pos` have been shifted in. */
  function PartialWord(b: seq<bv8>, pos: nat, k: nat): bv32
    requires |b| > 0
  {
    if k == 0 then 0 else ShiftIn(PartialWord(b, pos, k - 1), CyclicByte(b, pos + k - 1))
  }

  lemma PartialWordFull(b: seq<bv8>, pos: nat)
    requires |b| > 0
    ensures PartialWord(b, pos, 4) == WordAt(b, pos)
  {
    assert PartialWord(b, pos, 1) == ShiftIn(PartialWord(b, pos, 0), CyclicByte(b, pos));
    assert PartialWord(b, pos, 2) == ShiftIn(ShiftIn(0, CyclicByte(b, pos)), CyclicByte(b, pos + 1));
    ShiftedIn(CyclicByte(b, pos), CyclicByte(b, pos + 1), CyclicByte(b, pos + 2), CyclicByte(b, pos + 3));
  }

  /** Reads the next big-endian word of the repetition of `b`; `at` is how many bytes have been read
      before, and only its remainder `pos` is kept. */
  method GetNextWord(b: seq<bv8>, pos: nat, ghost at: nat) returns (w: bv32, next: nat)
    requires |b| > 0 && pos == Wrapped(at, b)
    ensures w == WordAt(b, at) && next == Wrapped(at + 4, b)
  {
    w := 0;
    var j := pos;
    for i := 0 to 4
      invariant j == Wrapped(at + i, b)
      invariant w == PartialWord(b, at, i)
    {
      w := (w << 8) | b[j] as bv32;
      j := j + 1;
      if j >= |b| {
        j := 0;
      }
      ModSucc(at + i, |b|);
    }
    PartialWordFull(b, at);
    next := j;
  }

  // ---------------------------------------------------------------- blocks as eight bytes

  function BlockOf(b: seq<bv8>): Halves
    requires |b| == 8
  {
    Halves(Word(b[0], b[1], b[2], b[3]), Word(b[4], b[5], b[6], b[7]))
  }

  function BytesOf(h: Halves): (b: seq<bv8>)
    ensures |b| == 8
  {
    [ByteOf(h.l, 24), ByteOf(h.l, 16), ByteOf(h.l, 8), ByteOf(h.l, 0),
     ByteOf(h.r, 24), ByteOf(h.r, 16), ByteOf(h.r, 8), ByteOf(h.r, 0)]
  }

  function EncryptBytes(t: Tables, b: seq<bv8>): (out: seq<bv8>)
    requires |b| == 8
    ensures |out| == 8
  {
    BytesOf(EncryptPair(t, BlockOf(b)))
  }

  function DecryptBytes(t: Tables, b: seq<bv8>): (out: seq<bv8>)
    requires |b| == 8
    ensures |out| == 8
  {
    BytesOf(DecryptPair(t, BlockOf(b)))
  }

  /** Bytes and words are big-endian: the eight bytes in and out, spelled out. */
  lemma EncryptBytesAre(t: Tables, b: seq<bv8>)
    requires |b| == 8
    ensures var h := EncryptPair(t, Halves(
              (b[0] as bv32 << 24) | (b[1] as bv32 << 16) | (b[2] as bv32 << 8) | b[3] as bv32,
              (b[4] as bv32 << 24) | (b[5] as bv32 << 16) | (b[6] as bv32 << 8) | b[7] as bv32));
            EncryptBytes(t, b) == [
              (h.l >> 24) as bv8, ((h.l >> 16) & 0xff) as bv8, ((h.l >> 8) & 0xff) as bv8, (h.l & 0xff) as bv8,
              (h.r >> 24) as bv8, ((h.r >> 16) & 0xff) as bv8, ((h.r >> 8) & 0xff) as bv8, (h.r & 0xff) as bv8]
  {
    hide EncryptPair, ByteOf;
    var h := EncryptPair(t, BlockOf(b));
    BytesAre(h.l);
    BytesAre(h.r);
  }

  lemma BytesAre(x: bv32)
    ensures ByteOf(x, 24) == (x >> 24) as bv8 && ByteOf(x, 16) == ((x >> 16) & 0xff) as bv8
    ensures ByteOf(x, 8) == ((x >> 8) & 0xff) as bv8 && ByteOf(x, 0) == (x & 0xff) as bv8
  {
  }

  lemma BytesOfWord(b0: bv8, b1: bv8, b2: bv8, b3: bv8)
    ensures var w := Word(b0, b1, b2, b3);
            ByteOf(w, 24) == b0 && ByteOf(w, 16) == b1 && ByteOf(w, 8) == b2 && ByteOf(w, 0) == b3
  {
  }

  lemma WordOfBytes(w: bv32)
    ensures Word(ByteOf(w, 24), ByteOf(w, 16), ByteOf(w, 8), ByteOf(w, 0)) == w
  {
  }

  lemma BlockBytes(b: seq<bv8>, h: Halves)
    requires |b| == 8
    ensures BytesOf(BlockOf(b)) == b
    ensures BlockOf(BytesOf(h)) == h
  {
    hide Word, ByteOf;
    BytesOfWord(b[0], b[1], b[2], b[3]);
    BytesOfWord(b[4], b[5], b[6], b[7]);
    WordOfBytes(h.l);
    WordOfBytes(h.r);
  }

  /** Byte-level encryption and decryption undo each other on any eight bytes. */
  lemma BytesRoundTrip(t: Tables, b: seq<bv8>)
    requires |b| == 8
    ensures DecryptBytes(t, EncryptBytes(t, b)) == b
    ensures EncryptBytes(t, DecryptBytes(t, b)) == b
  {
    hide EncryptPair, DecryptPair, BlockOf, BytesOf;
    BlockBytes(b, EncryptPair(t, BlockOf(b)));
    BlockBytes(b, DecryptPair(t, BlockOf(b)));
    BlockRoundTrip(t, BlockOf(b));
  }
}
