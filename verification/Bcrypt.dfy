/** bcrypt (internal/pkg/bcrypt/bcrypt.go) as functions on values: the textual hash format, the hash
  itself, and the three exported operations. */
module Bcrypt {
  import opened Options
  import opened Powers
  import opened Blowfish
  import opened KeySchedule
  import opened Base64

  datatype Error =
    | HashTooShort
    | InvalidHashPrefix(found: bv8)
    | HashVersionTooNew(found: bv8)
    | CostNotANumber
    | InvalidCost(cost: int)
    | PasswordTooLong
    | NoRandomBytes
    | CorruptSalt
    | MismatchedHashAndPassword

  datatype Result<T> = Ok(value: T) | Err(error: Error)

  const MIN_COST := 4
  const MAX_COST := 31
  const DEFAULT_COST := 10
  const DOLLAR: bv8 := 0x24
  const MAJOR: bv8 := 0x32  // '2'
  const MINOR: bv8 := 0x61  // 'a'

  /** A parsed hash: the fields of the source's `hashed`. */
  datatype Record = Record(hash: seq<bv8>, salt: seq<bv8>, cost: int, major: bv8, minor: bv8)

  // ---------------------------------------------------------------- numbers in text

  function DigitByte(d: nat): bv8
    requires d < 10
  {
    [0x30, 0x31, 0x32, 0x33, 0x34, 0x35, 0x36, 0x37, 0x38, 0x39][d]
  }

  function DigitValue(b: bv8): Option<int> {
    match b
    case 0x30 => Some(0) case 0x31 => Some(1) case 0x32 => Some(2) case 0x33 => Some(3) case 0x34 => Some(4)
    case 0x35 => Some(5) case 0x36 => Some(6) case 0x37 => Some(7) case 0x38 => Some(8) case 0x39 => Some(9)
    case _ => None
  }

  lemma DigitRoundTrip(d: nat)
    requires d < 10
    ensures DigitValue(DigitByte(d)) == Some(d)
    ensures DigitByte(d) != 0x2b && DigitByte(d) != 0x2d && DigitByte(d) != DOLLAR
  {
  }

  function Decimal(n: nat): (s: seq<bv8>)
    ensures |s| > 0
  {
    (if n < 10 then [] else Decimal(n / 10)) + [DigitByte(n % 10)]
  }

  /** The format "%02d". */
  function FormatCost(c: int): seq<bv8> {
    if c < 0 then [0x2d] + Decimal(-c)
    else if c < 10 then [DigitByte(0), DigitByte(c)]
    else Decimal(c)
  }

  /** `strconv.Atoi` on two bytes: two digits, or a sign and a digit. */
  function AtoiPair(a: bv8, b: bv8): Option<int> {
    match (DigitValue(a), DigitValue(b))
    case (Some(x), Some(y)) => Some(10 * x + y)
    case (None, Some(y)) => if a == 0x2b then Some(y) else if a == 0x2d then Some(-y) else None
    case _ => None
  }

  /** Which two bytes are a number: two digits, or a sign and a digit. */
  lemma AtoiPairIs(a: bv8, b: bv8)
    ensures var x, y := a as int - 48, b as int - 48;
            AtoiPair(a, b) == if 0 <= x < 10 && 0 <= y < 10 then Some(10 * x + y)
                              else if a as int == 43 && 0 <= y < 10 then Some(y)
                              else if a as int == 45 && 0 <= y < 10 then Some(-y)
                              else None
  {
    DigitValueIs(a);
    DigitValueIs(b);
    hide DigitValue;
    assert a == 0x2b <==> a as int == 43;
    assert a == 0x2d <==> a as int == 45;
  }

  lemma DigitValueIs(b: bv8)
    ensures DigitValue(b) == if 48 <= b as int < 58 then Some(b as int - 48) else None
  {
  }

  lemma CostDigits(c: int)
    requires 0 <= c < 100
    ensures |FormatCost(c)| == 2
    ensures AtoiPair(FormatCost(c)[0], FormatCost(c)[1]) == Some(c)
  {
    hide DigitByte, DigitValue;
    DigitRoundTrip(c / 10);
    DigitRoundTrip(c % 10);
    DigitRoundTrip(0);
    if c >= 10 {
      assert Decimal(c / 10) == [DigitByte(c / 10)];
      assert FormatCost(c) == [DigitByte(c / 10), DigitByte(c % 10)];
    }
  }

  // ---------------------------------------------------------------- printing and parsing

  /** `copy(a[at:], s)`: as much of `s` as fits. */
  function Overwrite(a: seq<bv8>, at: nat, s: seq<bv8>): (out: seq<bv8>)
    requires at <= |a|
    ensures |out| == |a|
    ensures forall i :: 0 <= i < |a| ==> out[i] == if at <= i < at + |s| then s[i - at] else a[i]
  {
    if at + |s| <= |a| then a[..at] + s + a[at + |s|..] else a[..at] + s[..|a| - at]
  }

  /** Where the second '$' goes: a zero minor version is left out. */
  function DollarAt(p: Record): nat {
    if p.minor != 0 then 3 else 2
  }

  /** The first line of fields: "$", versions, "$", cost, "$", in a buffer of 60 bytes. */
  function Header(p: Record): (a: seq<bv8>)
    ensures |a| == 60
  {
    var a := seq(60, _ => 0)[0 := DOLLAR][1 := p.major];
    var a := if p.minor != 0 then a[2 := p.minor] else a;
    var n := DollarAt(p);
    Overwrite(a[n := DOLLAR], n + 1, FormatCost(p.cost))[n + 3 := DOLLAR]
  }

  /** The textual form of a record. */
  function Printed(p: Record): (text: seq<bv8>)
    ensures |text| == 57 + DollarAt(p)
  {
    var n := DollarAt(p);
    Overwrite(Overwrite(Header(p), n + 4, p.salt), n + 26, p.hash)[..n + 57]
  }

  function CheckCost(c: int): bool {
    MIN_COST <= c <= MAX_COST
  }

  /** Reading a hash back; separator bytes after the version are skipped without a look. */
  function Parsed(h: seq<bv8>): Result<Record> {
    if |h| < 59 then Err(HashTooShort)
    else if h[0] != DOLLAR then Err(InvalidHashPrefix(h[0]))
    else if h[1] > MAJOR then Err(HashVersionTooNew(h[1]))
    else
      var n := if h[2] != DOLLAR then 4 else 3;
      match AtoiPair(h[n], h[n + 1])
      case None => Err(CostNotANumber)
      case Some(c) =>
        if !CheckCost(c) then Err(InvalidCost(c))
        else Ok(Record(h[n + 25..], h[n + 3..n + 25], c, h[1], if h[2] != DOLLAR then h[2] else 0))
  }

  /** The records that survive being printed and read back. */
  predicate Printable(p: Record) {
    && p.major <= MAJOR && p.minor != DOLLAR && CheckCost(p.cost)
    && |p.salt| == 22 && |p.hash| == 31
  }

  lemma PrintedParts(p: Record)
    requires Printable(p)
    ensures var t, n := Printed(p), DollarAt(p);
            && t[0] == DOLLAR && t[1] == p.major && t[n] == DOLLAR && (p.minor != 0 ==> t[2] == p.minor)
            && t[n + 1..n + 3] == FormatCost(p.cost)
            && t[n + 4..n + 26] == p.salt && t[n + 26..] == p.hash
  {
    hide FormatCost, Overwrite;
    var t, n, c := Printed(p), DollarAt(p), FormatCost(p.cost);
    assert |c| == 2 by { CostDigits(p.cost); }
    assert t[n + 1] == c[0] && t[n + 2] == c[1];
    forall i | 0 <= i < 22
      ensures t[n + 4 + i] == p.salt[i]
    {
    }
    forall i | 0 <= i < 31
      ensures t[n + 26 + i] == p.hash[i]
    {
    }
  }

  lemma PrintableRoundTrip(p: Record)
    requires Printable(p)
    ensures Parsed(Printed(p)) == Ok(p)
  {
    hide FormatCost, Printed, AtoiPair;
    PrintedParts(p);
    CostDigits(p.cost);
    var t, n := Printed(p), DollarAt(p);
    assert t[n + 1] == t[n + 1..n + 3][0] && t[n + 2] == t[n + 1..n + 3][1];
  }

  lemma PrintedHead(p: Record)
    ensures Printed(p)[0] == DOLLAR && Printed(p)[1] == p.major
    ensures Printed(p)[2] == if p.minor != 0 then p.minor else DOLLAR
  {
    hide FormatCost, Overwrite;
  }

  /** `newFromHash` undoes `Hash` on exactly the printable records. */
  lemma PrintParse(p: Record)
    ensures Parsed(Printed(p)) == Ok(p)
       <==> p.major <= '2' as bv8 && p.minor != '$' as bv8 && 4 <= p.cost <= 31 && |p.salt| == 22 && |p.hash| == 31
  {
    hide Printed, AtoiPair;
    if Printable(p) {
      PrintableRoundTrip(p);
    } else {
      PrintedHead(p);
    }
  }

  /** What parsing refuses, in this order: fewer than 59 bytes, a text that does not begin with '$', a major
      version above '2', a cost that is no number, and one outside 4 to 31. */
  lemma ParsedIs(h: seq<bv8>)
    ensures |h| < 59 ==> Parsed(h) == Err(HashTooShort)
    ensures |h| >= 59 && h[0] != '$' as bv8 ==> Parsed(h) == Err(InvalidHashPrefix(h[0]))
    ensures |h| >= 59 && h[0] == '$' as bv8 && h[1] > '2' as bv8 ==> Parsed(h) == Err(HashVersionTooNew(h[1]))
    ensures |h| >= 59 && h[0] == '$' as bv8 && h[1] <= '2' as bv8 ==>
              var n := if h[2] != '$' as bv8 then 4 else 3;
              match AtoiPair(h[n], h[n + 1])
              case None => Parsed(h) == Err(CostNotANumber)
              case Some(c) =>
                if c < 4 || c > 31 then Parsed(h) == Err(InvalidCost(c))
                else Parsed(h) == Ok(Record(h[n + 25..], h[n + 3..n + 25], c, h[1], if n == 4 then h[2] else 0))
  {
    hide AtoiPair;
  }

  lemma DigitIs(d: nat)
    requires d < 10
    ensures DigitByte(d) as int == 48 + d
  {
  }

  lemma TwoDigits(c: int)
    requires 0 <= c < 100
    ensures |FormatCost(c)| == 2 && FormatCost(c)[0] as int == 48 + c / 10 && FormatCost(c)[1] as int == 48 + c % 10
  {
    hide DigitByte;
    DigitIs(0);
    DigitIs(c / 10);
    DigitIs(c % 10);
    if c >= 10 {
      assert Decimal(c / 10) == [DigitByte(c / 10)];
    }
  }

  /** The text of a printable record with a minor version: '$', the versions, '$', two digits of cost, '$', 22
      letters of salt and 31 of hash. */
  lemma PrintedText(p: Record)
    requires p.major <= 0x32 && p.minor != 0 && p.minor != 0x24 && 4 <= p.cost <= 31 && |p.salt| == 22 && |p.hash| == 31
    ensures var t := Printed(p);
            && |t| == 60 && t[..4] == [0x24, p.major, p.minor, 0x24]
            && t[4] as int == 48 + p.cost / 10 && t[5] as int == 48 + p.cost % 10 && t[6] == 0x24
            && t[7..29] == p.salt && t[29..] == p.hash
  {
    hide FormatCost, Printed;
    PrintedParts(p);
    TwoDigits(p.cost);
    PrintedLastDollar(p);
    var t := Printed(p);
    assert t[4] == t[4..6][0] && t[5] == t[4..6][1];
  }

  lemma PrintedLastDollar(p: Record)
    requires Printable(p)
    ensures Printed(p)[DollarAt(p) + 3] == 0x24
  {
    hide FormatCost, Overwrite;
  }

  // ---------------------------------------------------------------- the hash

  /** "OrpheanBeholderScryDoubt". */
  const MAGIC: seq<bv8> := [
    0x4f, 0x72, 0x70, 0x68, 0x65, 0x61, 0x6e, 0x42, 0x65, 0x68, 0x6f, 0x6c,
    0x64, 0x65, 0x72, 0x53, 0x63, 0x72, 0x79, 0x44, 0x6f, 0x75, 0x62, 0x74
  ]

  type Block = b: seq<bv8> | |b| == 8 witness [0, 0, 0, 0, 0, 0, 0, 0]

  /** A block encrypted `n` times over. */
  function EncryptTimes(t: Tables, b: Block, n: nat): Block {
    if n == 0 then b else EncryptBytes(t, EncryptTimes(t, b, n - 1))
  }

  /** The three blocks of the magic text, each encrypted 64 times. */
  function MagicText(t: Tables): (text: seq<bv8>)
    ensures |text| == 24
  {
    EncryptTimes(t, MAGIC[..8], 64) + EncryptTimes(t, MAGIC[8..16], 64) + EncryptTimes(t, MAGIC[16..], 64)
  }

  lemma {:induction false} DecodedLength(s: seq<bv8>)
    requires Decode(s).Some?
    requires |s| >= 4 && s[|s| - 1] == PAD && s[|s| - 2] == PAD
    ensures |Decode(s).value| == |s| / 4 * 3 - 2
  {
    hide B0, B1, B2;
    if |s| > 4 {
      DecodedLength(s[4..]);
    }
  }

  lemma {:induction false} DecodesInFours(s: seq<bv8>)
    requires Decode(s).Some?
    ensures |s| % 4 == 0
  {
    hide B0, B1, B2, ValueOf;
    if |s| > 4 {
      DecodesInFours(s[4..]);
    }
  }

  /** A salt that decodes gives at least one byte, and all sixteen unless it has CR or LF bytes in it, which
      the decoder skips. */
  lemma SaltLength(salt: seq<bv8>)
    requires |salt| == 22 && DecodeTrimmed(salt).Some?
    ensures 1 <= |DecodeTrimmed(salt).value| <= 16
    ensures |DecodeTrimmed(salt).value| == 16 <==> HasNoNewlines(salt)
  {
    hide Decode, IsNewline, SkipNewlines;
    SkipAppend(salt, Pads(2));
    PadsHaveNoNewlines(2);
    SkipShortens(salt);
    var text := SkipNewlines(salt) + Pads(2);
    DecodesInFours(text);
    DecodedLength(text);
  }

  function SetupCipher(start: Tables, password: seq<bv8>, cost: nat, rawSalt: seq<bv8>): Tables
    requires |rawSalt| > 0
  {
    EksSetup(EncryptPair, start, password + [0], cost, rawSalt)
  }

  /** 23 of the 24 bytes of encrypted magic text, in base64. */
  function Encoded(t: Tables): seq<bv8> {
    Trim(Encode(MagicText(t)[..23]))
  }

  /** The hash of a password under a salt in its textual form; `start` holds the initial tables. */
  function HashOf(start: Tables, password: seq<bv8>, cost: nat, salt: seq<bv8>): Option<seq<bv8>>
    requires |salt| == 22
  {
    match DecodeTrimmed(salt)
    case None => None
    case Some(raw) =>
      SaltLength(salt);
      Some(Encoded(SetupCipher(start, password, cost, raw)))
  }

  lemma HashLength(start: Tables, password: seq<bv8>, cost: nat, salt: seq<bv8>)
    requires |salt| == 22 && HashOf(start, password, cost, salt).Some?
    ensures |HashOf(start, password, cost, salt).value| == 31
  {
    hide SetupCipher, MagicText, DecodeTrimmed, Trim, Encode;
    var raw := DecodeTrimmed(salt).value;
    SaltLength(salt);
    TrimmedEncoding(MagicText(SetupCipher(start, password, cost, raw))[..23]);
  }

  // ---------------------------------------------------------------- the exported operations

  function EffectiveCost(cost: int): int {
    if cost < MIN_COST then DEFAULT_COST else cost
  }

  /** `GenerateFromPassword`, given the 16 random bytes it draws, or None when the random source fails. */
  function Generated(start: Tables, password: seq<bv8>, cost: int, random: Option<seq<bv8>>): Result<seq<bv8>>
    requires random.Some? ==> |random.value| == 16
  {
    if |password| > 72 then Err(PasswordTooLong)
    else if EffectiveCost(cost) > MAX_COST then Err(InvalidCost(EffectiveCost(cost)))
    else if random.None? then Err(NoRandomBytes)
    else
      TrimmedEncoding(random.value);
      var salt := Trim(Encode(random.value));
      match HashOf(start, password, EffectiveCost(cost), salt)
      case None => Err(CorruptSalt)
      case Some(hash) => Ok(Printed(Record(hash, salt, EffectiveCost(cost), MAJOR, MINOR)))
  }

  /** `CompareHashAndPassword`; `Ok(())` is the source's nil error. */
  function Compared(start: Tables, h: seq<bv8>, password: seq<bv8>): Result<()> {
    match Parsed(h)
    case Err(e) => Err(e)
    case Ok(p) =>
      match HashOf(start, password, p.cost, p.salt)
      case None => Err(CorruptSalt)
      case Some(hash) =>
        if Printed(p) == Printed(p.(hash := hash)) then Ok(()) else Err(MismatchedHashAndPassword)
  }

  function CostOf(h: seq<bv8>): Result<int> {
    match Parsed(h)
    case Err(e) => Err(e)
    case Ok(p) => Ok(p.cost)
  }

  /** The text parses to the record generation makes: a salt that stands for the random bytes, and the
      password's hash under it. */
  predicate ReadsBack(start: Tables, password: seq<bv8>, cost: nat, random: seq<bv8>, text: seq<bv8>) {
    var salt := Trim(Encode(random));
    && |salt| == 22 && DecodeTrimmed(salt) == Some(random)
    && var hash := HashOf(start, password, cost, salt);
    hash.Some? && Parsed(text) == Ok(Record(hash.value, salt, cost, MAJOR, MINOR))
  }

  /** Generation fails on long passwords, large costs and a failing random source and on nothing else, and
      what it prints reads back as the record it made. */
  lemma GeneratedRecord(start: Tables, password: seq<bv8>, cost: int, random: Option<seq<bv8>>)
    requires random.Some? ==> |random.value| == 16
    ensures var g := Generated(start, password, cost, random);
            && (g.Ok? <==> |password| <= 72 && cost <= MAX_COST && random.Some?)
            && (g.Ok? && random.Some? ==> ReadsBack(start, password, EffectiveCost(cost), random.value, g.value))
  {
    hide Printed, Parsed, Trim, Encode, DecodeTrimmed, HashOf;
    if |password| <= 72 && cost <= MAX_COST && random.Some? {
      TrimmedEncoding(random.value);
      TrimmedRoundTrip(random.value);
      var salt := Trim(Encode(random.value));
      HashDecodes(start, password, EffectiveCost(cost), salt);
      HashLength(start, password, EffectiveCost(cost), salt);
      var hash := HashOf(start, password, EffectiveCost(cost), salt).value;
      PrintParse(Record(hash, salt, EffectiveCost(cost), MAJOR, MINOR));
    }
  }

  lemma HashDecodes(start: Tables, password: seq<bv8>, cost: nat, salt: seq<bv8>)
    requires |salt| == 22
    ensures HashOf(start, password, cost, salt).Some? <==> DecodeTrimmed(salt).Some?
  {
    hide Encoded, SetupCipher, DecodeTrimmed;
  }

  lemma PrintedHashes(p: Record, hash: seq<bv8>)
    requires Printable(p) && |hash| == 31
    ensures Printed(p) == Printed(p.(hash := hash)) <==> p.hash == hash
  {
    hide Printed, Parsed;
    PrintParse(p);
    PrintParse(p.(hash := hash));
  }

  /** A generated hash reports its cost, and accepts exactly the passwords that hash like the one it
      was made from: in particular that one. */
  lemma CompareGenerated(start: Tables, password: seq<bv8>, cost: int, random: seq<bv8>, candidate: seq<bv8>)
    requires |random| == 16 && |password| <= 72 && cost <= MAX_COST
    ensures var g := Generated(start, password, cost, Some(random));
            && g.Ok?
            && CostOf(g.value) == Ok(EffectiveCost(cost))
            && |Trim(Encode(random))| == 22
            && (Compared(start, g.value, candidate) == Ok(()) <==>
                HashOf(start, candidate, EffectiveCost(cost), Trim(Encode(random)))
                == HashOf(start, password, EffectiveCost(cost), Trim(Encode(random))))
            && Compared(start, g.value, password) == Ok(())
  {
    hide Printed, Parsed, Trim, Encode, DecodeTrimmed, HashOf;
    GeneratedRecord(start, password, cost, Some(random));
    var p := Parsed(Generated(start, password, cost, Some(random)).value).value;
    HashLength(start, password, p.cost, p.salt);
    HashDecodes(start, password, p.cost, p.salt);
    HashDecodes(start, candidate, p.cost, p.salt);
    HashLength(start, candidate, p.cost, p.salt);
    PrintedHashes(p, HashOf(start, candidate, p.cost, p.salt).value);
  }

  /** What generation makes of the cost, and where it goes: up to 31 it is taken as given, or as 10 below 4;
      it is the cost of the setup behind the stored hash and the one the text and `Cost` report.  Above 31
      it is refused. */
  lemma GeneratedCost(start: Tables, password: seq<bv8>, cost: int, random: seq<bv8>)
    requires |password| <= 72 && |random| == 16
    ensures var g, c, salt := Generated(start, password, cost, Some(random)), if cost < 4 then 10 else cost, Trim(Encode(random));
            && (cost > 31 ==> g == Err(InvalidCost(cost)))
            && (4 <= cost <= 31 ==> g.Ok? && CostOf(g.value) == Ok(cost))
            && (cost < 4 ==> g.Ok? && CostOf(g.value) == Ok(10))
            && (cost <= 31 ==>
                  && g.Ok? && |salt| == 22
                  && var hash := HashOf(start, password, c, salt);
                  && hash.Some? && |g.value| == 60 && g.value[..4] == ['$' as bv8, '2' as bv8, 'a' as bv8, '$' as bv8]
                  && g.value[4] as int == '0' as int + c / 10 && g.value[5] as int == '0' as int + c % 10
                  && g.value[6] == '$' as bv8 && g.value[7..29] == salt && g.value[29..] == hash.value)
  {
    hide Printed, Parsed, Trim, Encode, DecodeTrimmed, HashOf;
    GeneratedRecord(start, password, cost, Some(random));
    if cost <= 31 {
      var c, salt := if cost < 4 then 10 else cost, Trim(Encode(random));
      HashLength(start, password, c, salt);
      PrintedText(Record(HashOf(start, password, c, salt).value, salt, c, 0x32, 0x61));
    }
  }

  /** What a cipher makes of the magic text: each of the blocks "OrpheanB", "eholderS" and "cryDoubt" is
      encrypted 64 times, and 23 bytes of that are kept in base64. */
  lemma EncodedIs(t: Tables, times: nat)
    requires times == 64
    ensures var text := EncryptTimes(t, [0x4f, 0x72, 0x70, 0x68, 0x65, 0x61, 0x6e, 0x42], times)
                        + EncryptTimes(t, [0x65, 0x68, 0x6f, 0x6c, 0x64, 0x65, 0x72, 0x53], times)
                        + EncryptTimes(t, [0x63, 0x72, 0x79, 0x44, 0x6f, 0x75, 0x62, 0x74], times);
            |text| == 24 && Encoded(t) == Trim(Encode(text[..23]))
  {
    hide EncryptTimes, Trim, Encode;
    assert MAGIC[..8] == [0x4f, 0x72, 0x70, 0x68, 0x65, 0x61, 0x6e, 0x42];
    assert MAGIC[8..16] == [0x65, 0x68, 0x6f, 0x6c, 0x64, 0x65, 0x72, 0x53];
    assert MAGIC[16..] == [0x63, 0x72, 0x79, 0x44, 0x6f, 0x75, 0x62, 0x74];
  }

  /** The hash is that of the cipher set up at the given cost with the salt's bytes and the zero-terminated
      password. */
  lemma HashOfIs(start: Tables, password: seq<bv8>, cost: nat, salt: seq<bv8>, raw: seq<bv8>, t: Tables)
    requires |salt| == 22 && DecodeTrimmed(salt) == Some(raw) && |raw| > 0
    requires t == EksSetup(EncryptPair, start, password + [0], cost, raw)
    ensures HashOf(start, password, cost, salt) == Some(Encoded(t))
  {
    hide EncryptPair, EksSetup, DecodeTrimmed, Encoded;
  }

  /** Two passwords that fill the 72 bytes of key alike, each with its trailing zero byte, are the same
      to every comparison. */
  lemma CompareSameStream(start: Tables, h: seq<bv8>, a: seq<bv8>, b: seq<bv8>)
    requires SameStream(a + [0], b + [0])
    ensures Compared(start, h, a) == Compared(start, h, b)
  {
    hide Printed, EksSetup, MagicText, Encode, Trim, DecodeTrimmed;
    var r := Parsed(h);
    if r.Ok? {
      var p := r.value;
      if DecodeTrimmed(p.salt).Some? {
        SaltLength(p.salt);
        SetupSameStream(EncryptPair, start, a + [0], b + [0], p.cost, DecodeTrimmed(p.salt).value);
      }
    }
  }

  lemma WrappedWithin(i: nat, b: seq<bv8>)
    requires i < |b|
    ensures Wrapped(i, b) == i
  {
    ModOf(0, i, |b|);
  }

  lemma SamePrefixSameStream(a: seq<bv8>, b: seq<bv8>)
    requires |a| >= 72 && |b| >= 72 && a[..72] == b[..72]
    ensures SameStream(a + [0], b + [0])
  {
    hide Wrapped;
    forall i | 0 <= i < 72
      ensures CyclicByte(a + [0], i) == CyclicByte(b + [0], i)
    {
      WrappedWithin(i, a + [0]);
      WrappedWithin(i, b + [0]);
      assert a[i] == a[..72][i] && b[i] == b[..72][i];
    }
  }

  /** Passwords that agree on their first 72 bytes are the same to every comparison. */
  lemma OnlyFirst72Bytes(start: Tables, h: seq<bv8>, a: seq<bv8>, b: seq<bv8>)
    requires |a| >= 72 && |b| >= 72 && a[..72] == b[..72]
    ensures Compared(start, h, a) == Compared(start, h, b)
  {
    hide Compared;
    SamePrefixSameStream(a, b);
    CompareSameStream(start, h, a, b);
  }
}
