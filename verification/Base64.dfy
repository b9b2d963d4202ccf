/** bcrypt's base64 (internal/pkg/bcrypt/base64.go): the encoding of section 4 of RFC 4648 with
  bcrypt's alphabet, whose padding is stripped after encoding and put back before decoding. */
module Base64 {
  import opened Options

  const PAD: bv8 := 0x3d  // '='

  /** The alphabet: '.', '/', 'A'..'Z', 'a'..'z', '0'..'9'. */
  function Letter(v: bv8): bv8 {
    if v < 2 then v + 0x2e
    else if v < 28 then v - 2 + 0x41
    else if v < 54 then v - 28 + 0x61
    else v - 54 + 0x30
  }

  function ValueOf(c: bv8): Option<bv8> {
    if 0x2e <= c <= 0x2f then Some(c - 0x2e)
    else if 0x41 <= c <= 0x5a then Some(c - 0x41 + 2)
    else if 0x61 <= c <= 0x7a then Some(c - 0x61 + 28)
    else if 0x30 <= c <= 0x39 then Some(c - 0x30 + 54)
    else None
  }

  lemma LetterValue(v: bv8)
    requires v < 64
    ensures ValueOf(Letter(v)) == Some(v)
    ensures Letter(v) != PAD
  {
  }

  /** The alphabet in the order of its values: './', 'A' to 'Z', 'a' to 'z', '0' to '9'. */
  lemma AlphabetIs(i: nat)
    requires i < 64
    ensures Letter(i as bv8) as int
         == if i < 2 then '.' as int + i
            else if i < 28 then 'A' as int + i - 2
            else if i < 54 then 'a' as int + i - 28
            else '0' as int + i - 54
  {
  }

  // The six-bit groups of three bytes, and the bytes back from the groups.
  function G0(b0: bv8): bv8 { b0 >> 2 }
  function G1(b0: bv8, b1: bv8): bv8 { ((b0 & 3) << 4) | (b1 >> 4) }
  function G2(b1: bv8, b2: bv8): bv8 { ((b1 & 0xf) << 2) | (b2 >> 6) }
  function G3(b2: bv8): bv8 { b2 & 0x3f }
  function B0(g0: bv8, g1: bv8): bv8 { (g0 << 2) | (g1 >> 4) }
  function B1(g1: bv8, g2: bv8): bv8 { (g1 << 4) | (g2 >> 2) }
  function B2(g2: bv8, g3: bv8): bv8 { (g2 << 6) | g3 }

  lemma Groups(b0: bv8, b1: bv8, b2: bv8)
    ensures G0(b0) < 64 && G1(b0, b1) < 64 && G2(b1, b2) < 64 && G3(b2) < 64
    ensures B0(G0(b0), G1(b0, b1)) == b0
    ensures B1(G1(b0, b1), G2(b1, b2)) == b1
    ensures B2(G2(b1, b2), G3(b2)) == b2
  {
  }

  /** RFC 4648 encoding with padding. */
  function Encode(b: seq<bv8>): seq<bv8> {
    if |b| == 0 then []
    else if |b| == 1 then [Letter(G0(b[0])), Letter(G1(b[0], 0)), PAD, PAD]
    else if |b| == 2 then [Letter(G0(b[0])), Letter(G1(b[0], b[1])), Letter(G2(b[1], 0)), PAD]
    else
      [Letter(G0(b[0])), Letter(G1(b[0], b[1])), Letter(G2(b[1], b[2])), Letter(G3(b[2]))] + Encode(b[3..])
  }

  /** A rest of one or two bytes is filled up with zero bits, and with two or one pads. */
  lemma EncodeIs(b: seq<bv8>)
    requires |b| >= 1
    ensures var b1, b2 := if |b| > 1 then b[1] else 0, if |b| > 2 then b[2] else 0;
            var l0, l1, l2, l3 := Letter(G0(b[0])), Letter(G1(b[0], b1)), Letter(G2(b1, b2)), Letter(G3(b2));
            Encode(b) == if |b| == 1 then [l0, l1, 0x3d, 0x3d]
                         else if |b| == 2 then [l0, l1, l2, 0x3d]
                         else [l0, l1, l2, l3] + Encode(b[3..])
  {
    hide Letter, G0, G1, G2, G3;
  }

  /** The pieces are the six-bit digits of three bytes taken as one number, from the top. */
  lemma PiecesAre(b0: bv8, b1: bv8, b2: bv8)
    ensures var n := (b0 as bv32 << 16) | (b1 as bv32 << 8) | b2 as bv32;
            && n < 0x1000000
            && G0(b0) == (n >> 18) as bv8 && G1(b0, b1) == ((n >> 12) & 63) as bv8
            && G2(b1, b2) == ((n >> 6) & 63) as bv8 && G3(b2) == (n & 63) as bv8
  {
  }

  /** RFC 4648 decoding: groups of four letters, the last of which may end in one or two pads. */
  function Decode(s: seq<bv8>): Option<seq<bv8>> {
    if |s| == 0 then Some([])
    else if |s| < 4 then None
    else
      var g0, g1, g2, g3 := ValueOf(s[0]), ValueOf(s[1]), ValueOf(s[2]), ValueOf(s[3]);
      if g0.None? || g1.None? then None
      else if s[2] == PAD then
        if |s| == 4 && s[3] == PAD then Some([B0(g0.value, g1.value)]) else None
      else if g2.None? then None
      else if s[3] == PAD then
        if |s| == 4 then Some([B0(g0.value, g1.value), B1(g1.value, g2.value)]) else None
      else if g3.None? then None
      else
        match Decode(s[4..])
        case None => None
        case Some(rest) =>
          Some([B0(g0.value, g1.value), B1(g1.value, g2.value), B2(g2.value, g3.value)] + rest)
  }

  /** The bytes are those of four six-bit digits taken as one number, from the top. */
  lemma BytesFromPieces(g0: bv8, g1: bv8, g2: bv8, g3: bv8)
    requires g0 < 64 && g1 < 64 && g2 < 64 && g3 < 64
    ensures var n := (g0 as bv32 << 18) | (g1 as bv32 << 12) | (g2 as bv32 << 6) | g3 as bv32;
            && n < 0x1000000
            && B0(g0, g1) == (n >> 16) as bv8 && B1(g1, g2) == ((n >> 8) & 0xff) as bv8 && B2(g2, g3) == (n & 0xff) as bv8
  {
  }

  /** What decoding makes of the first four letters: three bytes; at the very end one byte before two pads and
      two before one, whatever bits are left over.  Anything else fails. */
  lemma DecodeIs(s: seq<bv8>)
    requires |s| >= 4
    ensures var v0, v1, v2, v3 := ValueOf(s[0]), ValueOf(s[1]), ValueOf(s[2]), ValueOf(s[3]);
            Decode(s) == if v0.None? || v1.None? then None
                         else if s[2] == 0x3d && s[3] == 0x3d && |s| == 4 then Some([B0(v0.value, v1.value)])
                         else if v2.None? then None
                         else if s[3] == 0x3d && |s| == 4 then Some([B0(v0.value, v1.value), B1(v1.value, v2.value)])
                         else if v3.None? || Decode(s[4..]).None? then None
                         else Some([B0(v0.value, v1.value), B1(v1.value, v2.value), B2(v2.value, v3.value)]
                                   + Decode(s[4..]).value)
  {
    hide ValueOf, B0, B1, B2;
    PadHasNoValue();
  }

  lemma PadHasNoValue()
    ensures ValueOf(0x3d) == None
  {
  }

  lemma GroupLetters(b0: bv8, b1: bv8, b2: bv8)
    ensures ValueOf(Letter(G0(b0))) == Some(G0(b0)) && Letter(G0(b0)) != PAD
    ensures ValueOf(Letter(G1(b0, b1))) == Some(G1(b0, b1)) && Letter(G1(b0, b1)) != PAD
    ensures ValueOf(Letter(G2(b1, b2))) == Some(G2(b1, b2)) && Letter(G2(b1, b2)) != PAD
    ensures ValueOf(Letter(G3(b2))) == Some(G3(b2)) && Letter(G3(b2)) != PAD
    ensures B0(G0(b0), G1(b0, b1)) == b0
    ensures B1(G1(b0, b1), G2(b1, b2)) == b1
    ensures B2(G2(b1, b2), G3(b2)) == b2
  {
    hide Letter, ValueOf, G0, G1, G2, G3, B0, B1, B2;
    Groups(b0, b1, b2);
    LetterValue(G0(b0));
    LetterValue(G1(b0, b1));
    LetterValue(G2(b1, b2));
    LetterValue(G3(b2));
  }

  function Four(b0: bv8, b1: bv8, b2: bv8): seq<bv8> {
    [Letter(G0(b0)), Letter(G1(b0, b1)), Letter(G2(b1, b2)), Letter(G3(b2))]
  }

  function Prepend(front: seq<bv8>, rest: Option<seq<bv8>>): Option<seq<bv8>> {
    match rest
    case None => None
    case Some(b) => Some(front + b)
  }

  lemma DecodeFour(b0: bv8, b1: bv8, b2: bv8, rest: seq<bv8>)
    ensures Decode(Four(b0, b1, b2) + rest) == Prepend([b0, b1, b2], Decode(rest))
  {
    hide Letter, ValueOf, G0, G1, G2, G3, B0, B1, B2;
    GroupLetters(b0, b1, b2);
    var s := Four(b0, b1, b2) + rest;
    assert s[..4] == Four(b0, b1, b2) && s[4..] == rest;
  }

  lemma EncodeEmpty()
    ensures Encode([]) == [] && Decode([]) == Some([])
  {
  }

  lemma EncodeFour(b: seq<bv8>)
    requires |b| >= 3
    ensures Encode(b) == Four(b[0], b[1], b[2]) + Encode(b[3..])
  {
    hide Letter, G0, G1, G2, G3;
  }

  lemma PrependTwice(front: seq<bv8>, more: seq<bv8>, rest: Option<seq<bv8>>)
    ensures Prepend(front, Prepend(more, rest)) == Prepend(front + more, rest)
  {
    if rest.Some? {
      assert front + (more + rest.value) == front + more + rest.value;
    }
  }

  /** A whole number of three-byte groups followed by any other text. */
  lemma {:induction false} DecodeGroups(b: seq<bv8>, tail: seq<bv8>)
    requires |b| % 3 == 0
    ensures Decode(Encode(b) + tail) == Prepend(b, Decode(tail))
  {
    if |b| == 0 {
      assert Encode(b) + tail == tail;
      assert Decode(tail).Some? ==> b + Decode(tail).value == Decode(tail).value;
    } else {
      hide Encode, Decode, Four;
      var front, more := [b[0], b[1], b[2]], b[3..];
      DecodeGroups(more, tail);
      EncodeFour(b);
      DecodeFour(b[0], b[1], b[2], Encode(more) + tail);
      assert Encode(b) + tail == Four(b[0], b[1], b[2]) + (Encode(more) + tail);
      PrependTwice(front, more, Decode(tail));
      assert front + more == b;
    }
  }

  lemma DecodeEnd(b: seq<bv8>)
    requires |b| < 3
    ensures Decode(Encode(b)) == Some(b)
  {
    hide Letter, ValueOf, G0, G1, G2, G3, B0, B1, B2;
    if |b| == 1 {
      GroupLetters(b[0], 0, 0);
      assert b == [b[0]];
    } else if |b| == 2 {
      GroupLetters(b[0], b[1], 0);
      assert b == [b[0], b[1]];
    } else {
      EncodeEmpty();
      assert b == [];
    }
  }

  lemma {:induction false} EncodeSplit(b: seq<bv8>, n: nat)
    requires 3 * n <= |b|
    ensures Encode(b) == Encode(b[..3 * n]) + Encode(b[3 * n..])
    decreases n
  {
    hide Encode, Four;
    if n == 0 {
      assert b[..0] == [] && b[0..] == b;
      EncodeEmpty();
    } else {
      var front, more := b[..3 * n], b[3..];
      EncodeSplit(more, n - 1);
      EncodeFour(b);
      EncodeFour(front);
      assert front[3..] == more[..3 * (n - 1)];
      assert b[3 * n..] == more[3 * (n - 1)..];
    }
  }

  /** RFC 4648 decoding undoes encoding. */
  lemma DecodeEncode(b: seq<bv8>)
    ensures Decode(Encode(b)) == Some(b)
  {
    hide Encode, Decode;
    var n := |b| / 3;
    EncodeSplit(b, n);
    DecodeGroups(b[..3 * n], Encode(b[3 * n..]));
    DecodeEnd(b[3 * n..]);
    assert b[..3 * n] + b[3 * n..] == b;
  }

  // ---------------------------------------------------------------- stripping the padding

  function Pads(n: nat): seq<bv8> {
    seq(n, _ => PAD)
  }

  function Trim(s: seq<bv8>): seq<bv8> {
    if |s| > 0 && s[|s| - 1] == PAD then Trim(s[..|s| - 1]) else s
  }

  /** How many pads RFC 4648 puts after `n` bytes. */
  function PadCount(n: nat): nat {
    (3 - n % 3) % 3
  }

  lemma {:induction false} TrimPads(s: seq<bv8>, n: nat)
    requires |s| > 0 && s[|s| - 1] != PAD
    ensures Trim(s + Pads(n)) == s
  {
    if n == 0 {
      assert s + Pads(0) == s;
    } else {
      var p := s + Pads(n);
      assert p[..|p| - 1] == s + Pads(n - 1);
      TrimPads(s, n - 1);
    }
  }

  lemma EncodeShapeEnd(b: seq<bv8>)
    requires 0 < |b| <= 3
    ensures var n := (4 * |b| + 2) / 3;
            && |Encode(b)| == n + PadCount(|b|)
            && Encode(b)[n - 1] != PAD
            && Encode(b)[n..] == Pads(PadCount(|b|))
  {
    hide Letter, ValueOf, G0, G1, G2, G3, B0, B1, B2;
    GroupLetters(b[0], 0, 0);
    if |b| == 2 {
      GroupLetters(b[0], b[1], 0);
    } else if |b| == 3 {
      GroupLetters(b[0], b[1], b[2]);
    }
  }

  lemma {:induction false} EncodeShape(b: seq<bv8>)
    requires |b| > 0
    ensures var n := (4 * |b| + 2) / 3;
            && |Encode(b)| == n + PadCount(|b|)
            && Encode(b)[n - 1] != PAD
            && Encode(b)[n..] == Pads(PadCount(|b|))
  {
    hide Encode, Letter, G0, G1, G2, G3;
    if |b| <= 3 {
      EncodeShapeEnd(b);
    } else {
      EncodeShape(b[3..]);
      EncodeFour(b);
      var n := (4 * |b[3..]| + 2) / 3;
      assert Encode(b)[n + 4..] == Encode(b[3..])[n..];
    }
  }

  /** What bcrypt keeps of an encoding: no padding, and ceil(4n/3) letters for n bytes. */
  lemma TrimmedEncoding(b: seq<bv8>)
    requires |b| > 0
    ensures Encode(b) == Trim(Encode(b)) + Pads(PadCount(|b|))
    ensures |Trim(Encode(b))| == (4 * |b| + 2) / 3
  {
    var n := (4 * |b| + 2) / 3;
    EncodeShape(b);
    hide Encode;
    var kept := Encode(b)[..n];
    assert Encode(b) == kept + Pads(PadCount(|b|));
    TrimPads(kept, PadCount(|b|));
  }

  // ---------------------------------------------------------------- the two functions of the file

  method Base64Encode(src: seq<bv8>) returns (dst: seq<bv8>)
    requires |src| > 0
    ensures dst == Trim(Encode(src))
  {
    var buffer := Encode(src);
    var n := |buffer|;
    EncodeShape(src);
    TrimmedEncoding(src);
    hide Encode;
    assert buffer[..n] == buffer;
    while buffer[n - 1] == PAD
      invariant (4 * |src| + 2) / 3 <= n <= |buffer|
      invariant Trim(buffer[..n]) == Trim(buffer)
      decreases n
    {
      assert n > (4 * |src| + 2) / 3;
      assert buffer[..n][..n - 1] == buffer[..n - 1];
      n := n - 1;
    }
    dst := buffer[..n];
  }

  predicate IsNewline(c: bv8) {
    c == 0x0a || c == 0x0d
  }

  lemma NewlinesAre(c: bv8)
    ensures IsNewline(c) <==> c as int == 10 || c as int == 13
  {
  }

  /** What Go's decoder looks at: the text without its CR and LF bytes. */
  function SkipNewlines(s: seq<bv8>): seq<bv8> {
    if |s| == 0 then []
    else if IsNewline(s[0]) then SkipNewlines(s[1..])
    else [s[0]] + SkipNewlines(s[1..])
  }

  predicate HasNoNewlines(s: seq<bv8>) {
    forall i :: 0 <= i < |s| ==> !IsNewline(s[i])
  }

  lemma {:induction false} SkipAppend(s: seq<bv8>, t: seq<bv8>)
    ensures SkipNewlines(s + t) == SkipNewlines(s) + SkipNewlines(t)
  {
    hide IsNewline;
    if |s| == 0 {
      assert s + t == t;
    } else {
      assert (s + t)[1..] == s[1..] + t;
      SkipAppend(s[1..], t);
    }
  }

  lemma {:induction false} SkipShortens(s: seq<bv8>)
    ensures |SkipNewlines(s)| <= |s|
    ensures |SkipNewlines(s)| == |s| <==> HasNoNewlines(s)
    ensures HasNoNewlines(s) ==> SkipNewlines(s) == s
  {
    hide IsNewline;
    if |s| > 0 {
      SkipShortens(s[1..]);
      assert HasNoNewlines(s) <==> !IsNewline(s[0]) && HasNoNewlines(s[1..]);
      assert [s[0]] + s[1..] == s;
    }
  }

  lemma PadsHaveNoNewlines(n: nat)
    ensures SkipNewlines(Pads(n)) == Pads(n)
  {
    SkipShortens(Pads(n));
  }

  lemma LetterIsNoNewline(v: bv8)
    requires v < 64
    ensures !IsNewline(Letter(v))
  {
  }

  lemma {:induction false} EncodingHasNoNewlines(b: seq<bv8>)
    ensures HasNoNewlines(Encode(b))
  {
    hide Letter, G0, G1, G2, G3;
    if |b| > 0 {
      var b1, b2 := if |b| > 1 then b[1] else 0, if |b| > 2 then b[2] else 0;
      Groups(b[0], b1, b2);
      LetterIsNoNewline(G0(b[0]));
      LetterIsNoNewline(G1(b[0], b1));
      LetterIsNoNewline(G2(b1, b2));
      LetterIsNoNewline(G3(b2));
      if |b| > 2 {
        EncodingHasNoNewlines(b[3..]);
      }
    }
  }

  /** Nothing is skipped in a stripped encoding, whatever pads follow. */
  lemma NothingToSkip(b: seq<bv8>, n: nat)
    requires |b| > 0
    ensures SkipNewlines(Trim(Encode(b)) + Pads(n)) == Trim(Encode(b)) + Pads(n)
  {
    hide Encode, Trim, IsNewline;
    TrimmedEncoding(b);
    EncodingHasNoNewlines(b);
    var t := Trim(Encode(b));
    assert forall i :: 0 <= i < |t| ==> t[i] == Encode(b)[i];
    SkipShortens(t);
    SkipAppend(t, Pads(n));
    PadsHaveNoNewlines(n);
  }

  /** Pads to the next multiple of four, by four when the length already is one, and decodes. */
  function DecodeTrimmed(s: seq<bv8>): Option<seq<bv8>> {
    Decode(SkipNewlines(s + Pads(4 - |s| % 4)))
  }

  method Base64Decode(src: seq<bv8>) returns (dst: Option<seq<bv8>>)
    ensures dst == DecodeTrimmed(src)
  {
    var padded := src;
    for i := 0 to 4 - |src| % 4
      invariant padded == src + Pads(i)
    {
      padded := padded + [PAD];
    }
    dst := Decode(SkipNewlines(padded));
  }

  lemma FourPadsDoNotDecode()
    ensures Decode(Pads(4)) == None
  {
    assert Pads(4)[0] == PAD;
  }

  lemma WholeArithmetic(n: nat)
    requires n % 3 == 0
    ensures (4 * n + 2) / 3 % 4 == 0 && PadCount(n) == 0
  {
    assert (4 * n + 2) / 3 == 4 * (n / 3);
  }

  lemma WholeGroupsDoNotDecode(b: seq<bv8>)
    requires |b| > 0 && |b| % 3 == 0
    ensures DecodeTrimmed(Trim(Encode(b))) == None
  {
    hide Encode, Decode, Trim, PadCount;
    TrimmedEncoding(b);
    WholeArithmetic(|b|);
    var t := Trim(Encode(b));
    assert t + Pads(0) == t;
    NothingToSkip(b, 4);
    DecodeGroups(b, Pads(4));
    FourPadsDoNotDecode();
  }

  lemma PadArithmetic(n: nat)
    requires n % 3 != 0
    ensures 4 - (4 * n + 2) / 3 % 4 == PadCount(n)
  {
    var q := n / 3;
    if n % 3 == 1 {
      assert (4 * n + 2) / 3 == 4 * q + 2;
    } else {
      assert (4 * n + 2) / 3 == 4 * q + 3;
    }
  }

  lemma PaddedBack(b: seq<bv8>)
    requires |b| > 0 && |b| % 3 != 0
    ensures DecodeTrimmed(Trim(Encode(b))) == Some(b)
  {
    hide Encode, Decode, Trim, PadCount, Pads;
    TrimmedEncoding(b);
    PadArithmetic(|b|);
    NothingToSkip(b, PadCount(|b|));
    DecodeEncode(b);
  }

  /** The file's two functions undo each other exactly on lengths that are not a multiple of three:
      otherwise four pads are appended to an encoding that has none, and decoding fails. */
  lemma TrimmedRoundTrip(b: seq<bv8>)
    requires |b| > 0
    ensures DecodeTrimmed(Trim(Encode(b))) == Some(b) <==> |b| % 3 != 0
  {
    hide Encode, DecodeTrimmed, Trim;
    if |b| % 3 == 0 {
      WholeGroupsDoNotDecode(b);
    } else {
      PaddedBack(b);
    }
  }
}
