/** The operations of bcrypt.go as the source writes them: a record filled in field by field, buffers
  copied into, and a cipher object updated in place. */
module BcryptOps {
  import opened Powers
  import opened Options
  import opened Blowfish
  import opened KeySchedule
  import opened Ciphers
  import opened Base64
  import opened Bcrypt

  /** Go's `copy(a[at:], s)`. */
  method CopyInto(a: array<bv8>, at: nat, s: seq<bv8>)
    requires at <= a.Length
    modifies a
    ensures a[..] == Overwrite(old(a[..]), at, s)
  {
    var n := if at + |s| <= a.Length then |s| else a.Length - at;
    for i := 0 to n
      invariant forall k :: 0 <= k < a.Length ==> a[k] == if at <= k < at + i then s[k - at] else old(a[k])
    {
      a[at + i] := s[i];
    }
  }

  class Hashed {
    var hash: seq<bv8>
    var salt: seq<bv8>
    var cost: int
    var major: bv8
    var minor: bv8

    function Value(): Record
      reads this
    {
      Record(hash, salt, cost, major, minor)
    }

    constructor ()
      ensures Value() == Record([], [], 0, 0, 0)
    {
      hash, salt, cost, major, minor := [], [], 0, 0, 0;
    }

    method WriteHeader(arr: array<bv8>) returns (n: nat)
      requires arr.Length == 60 && arr[..] == seq(60, _ => 0)
      modifies arr
      ensures arr[..] == Header(Value()) && n == DollarAt(Value()) + 4
    {
      hide Overwrite, FormatCost;
      arr[0], arr[1] := DOLLAR, major;
      n := 2;
      if minor != 0 {
        arr[2] := minor;
        n := 3;
      }
      arr[n] := DOLLAR;
      n := n + 1;
      CopyInto(arr, n, FormatCost(cost));
      n := n + 2;
      arr[n] := DOLLAR;
      n := n + 1;
    }

    method Hash() returns (text: seq<bv8>)
      ensures text == Printed(Value())
    {
      hide Overwrite, FormatCost, Header;
      var arr := new bv8[60](_ => 0);
      var n := WriteHeader(arr);
      CopyInto(arr, n, salt);
      n := n + 22;
      CopyInto(arr, n, hash);
      n := n + 31;
      text := arr[..n];
    }

    /** Reads the versions and says how many bytes they took. */
    method DecodeVersion(s: seq<bv8>) returns (r: Result<nat>)
      requires |s| >= 59
      modifies this
      ensures r == if s[0] != DOLLAR then Err(InvalidHashPrefix(s[0]))
                   else if s[1] > MAJOR then Err(HashVersionTooNew(s[1]))
                   else Ok(if s[2] != DOLLAR then 4 else 3)
      ensures r.Ok? ==> Value() == old(Value()).(major := s[1], minor := if s[2] != DOLLAR then s[2] else old(minor))
      ensures r.Err? ==> Value() == old(Value())
    {
      if s[0] != DOLLAR {
        return Err(InvalidHashPrefix(s[0]));
      }
      if s[1] > MAJOR {
        return Err(HashVersionTooNew(s[1]));
      }
      major := s[1];
      var n := 3;
      if s[2] != DOLLAR {
        minor := s[2];
        n := n + 1;
      }
      return Ok(n);
    }

    method DecodeCost(s: seq<bv8>) returns (r: Result<nat>)
      requires |s| >= 2
      modifies this
      ensures match AtoiPair(s[0], s[1])
              case None => r == Err(CostNotANumber) && Value() == old(Value())
              case Some(c) =>
                if CheckCost(c) then r == Ok(3) && Value() == old(Value()).(cost := c)
                else r == Err(InvalidCost(c)) && Value() == old(Value())
    {
      var c := AtoiPair(s[0], s[1]);
      if c.None? {
        return Err(CostNotANumber);
      }
      if !CheckCost(c.value) {
        return Err(InvalidCost(c.value));
      }
      cost := c.value;
      return Ok(3);
    }

    /** The body of `newFromHash`, filling a fresh record. */
    method FillFromHash(h: seq<bv8>) returns (r: Result<()>)
      requires Value() == Record([], [], 0, 0, 0)
      modifies this
      ensures match Parsed(h) case Ok(p) => r == Ok(()) && Value() == p case Err(e) => r == Err(e)
    {
      hide AtoiPair;
      if |h| < 59 {
        return Err(HashTooShort);
      }
      var n := DecodeVersion(h);
      if n.Err? {
        return Err(n.error);
      }
      var rest := h[n.value..];
      var m := DecodeCost(rest);
      if m.Err? {
        return Err(m.error);
      }
      rest := rest[m.value..];
      salt := rest[..22];
      hash := rest[22..];
      return Ok(());
    }
  }

  lemma IterateZero<T>(f: T -> T, x: T)
    ensures Iterate(f, x, 0) == x
  {
  }

  lemma IterateNext<T>(f: T -> T, x: T, n: nat)
    ensures Iterate(f, x, n + 1) == f(Iterate(f, x, n))
  {
  }

  lemma EksRoundIs(t: Tables, key: seq<bv8>, salt: seq<bv8>)
    requires |key| > 0 && |salt| > 0
    ensures EksRound(EncryptPair, KeyWords(key), KeyWords(salt))(t)
         == Expanded(EncryptPair, Expanded(EncryptPair, t, KeyWords(key)), KeyWords(salt))
  {
    hide EncryptPair, Expanded, KeyWords;
  }

  lemma SetupIs(start: Tables, key: seq<bv8>, cost: nat, salt: seq<bv8>, first: Tables, round: Tables -> Tables)
    requires |salt| > 0
    requires first == ExpandedWithSalt(EncryptPair, start, KeyWords(key + [0]), salt)
    requires round == EksRound(EncryptPair, KeyWords(key + [0]), KeyWords(salt))
    ensures SetupCipher(start, key, cost, salt) == Iterate(round, first, Pow2(cost))
  {
    hide EncryptPair, ExpandedWithSalt, Expanded, KeyWords, Iterate, EksRound;
  }

  /** The cipher bcrypt works with, or nothing when the salt does not decode. */
  method ExpensiveBlowfishSetup(start: Tables, key: seq<bv8>, cost: nat, salt: seq<bv8>) returns (c: Cipher?)
    requires |salt| == 22 && cost <= MAX_COST
    ensures match DecodeTrimmed(salt)
            case None => c == null
            case Some(raw) =>
              && c != null && c.Valid() && fresh(c.p) && fresh(c.s0) && fresh(c.s1) && fresh(c.s2) && fresh(c.s3)
              && |raw| > 0 && c.Value() == SetupCipher(start, key, cost, raw)
  {
    hide EncryptPair, ExpandedWithSalt, Expanded, KeyWords, DecodeTrimmed, Iterate, EksRound, SetupCipher;
    var csalt := Base64Decode(salt);
    if csalt.None? {
      return null;
    }
    SaltLength(salt);
    var raw := csalt.value;
    var ckey := key + [0];
    c := new Cipher(start);
    c.ExpandKeyWithSalt(ckey, raw);
    ghost var first, round := c.Value(), EksRound(EncryptPair, KeyWords(ckey), KeyWords(raw));
    IterateZero(round, first);
    var rounds := Pow2(cost);
    for i := 0 to rounds
      invariant c.Valid() && fresh(c.p) && fresh(c.s0) && fresh(c.s1) && fresh(c.s2) && fresh(c.s3)
      invariant c.Value() == Iterate(round, first, i)
    {
      EksRoundIs(c.Value(), ckey, raw);
      c.ExpandKey(ckey);
      c.ExpandKey(raw);
      IterateNext(round, first, i);
    }
    SetupIs(start, key, cost, raw, first, round);
  }

  lemma EncryptTimesNext(t: Tables, b: Block, n: nat)
    ensures EncryptTimes(t, b, 0) == b
    ensures EncryptTimes(t, b, n + 1) == EncryptBytes(t, EncryptTimes(t, b, n))
  {
    hide EncryptBytes;
  }

  lemma MagicTextIs(t: Tables)
    ensures MagicText(t) == EncryptTimes(t, MAGIC[..8], 64) + EncryptTimes(t, MAGIC[8..16], 64) + EncryptTimes(t, MAGIC[16..], 64)
  {
    hide EncryptTimes;
  }

  /** Encrypts one block of the buffer in place, 64 times. */
  method EncryptInPlace(c: Cipher, data: array<bv8>, at: nat)
    requires c.Valid() && at + 8 <= data.Length
    modifies data
    ensures c.Value() == old(c.Value())
    ensures data[..] == old(data[..at] + EncryptTimes(c.Value(), data[at..at + 8], 64) + data[at + 8..])
  {
    hide EncryptBytes, EncryptTimes;
    ghost var t, b, before := c.Value(), data[at..at + 8], data[..];
    EncryptTimesNext(t, b, 0);
    for j := 0 to 64
      invariant c.Value() == t
      invariant data[..] == before[..at] + EncryptTimes(t, b, j) + before[at + 8..]
    {
      assert data[at..at + 8] == EncryptTimes(t, b, j);
      c.Encrypt(data, at, data, at);
      EncryptTimesNext(t, b, j);
    }
  }

  /** The source's `bcrypt`: 23 bytes of the magic text, each block encrypted in place 64 times. */
  method HashPassword(start: Tables, password: seq<bv8>, cost: nat, salt: seq<bv8>) returns (r: Option<seq<bv8>>)
    requires |salt| == 22 && cost <= MAX_COST
    ensures r == HashOf(start, password, cost, salt)
  {
    hide EncryptTimes, DecodeTrimmed, SetupCipher, MagicText;
    var c := ExpensiveBlowfishSetup(start, password, cost, salt);
    if c == null {
      return None;
    }
    var data := new bv8[24](i requires 0 <= i < 24 => MAGIC[i]);
    assert data[..] == MAGIC;
    ghost var t := c.Value();
    ghost var e0: seq<bv8> := EncryptTimes(t, MAGIC[..8], 64);
    ghost var e1: seq<bv8> := EncryptTimes(t, MAGIC[8..16], 64);
    EncryptInPlace(c, data, 0);
    assert data[..] == e0 + MAGIC[8..] by { assert MAGIC[0..8] == MAGIC[..8]; }
    assert data[8..16] == data[..][8..16] == MAGIC[8..][..8] == MAGIC[8..16];
    EncryptInPlace(c, data, 8);
    assert data[..] == e0 + e1 + MAGIC[16..];
    assert data[16..24] == data[..][16..] == MAGIC[16..];
    EncryptInPlace(c, data, 16);
    MagicTextIs(t);
    assert data[..] == MagicText(t);
    var text := Base64Encode(data[..23]);
    r := Some(text);
  }

  method GenerateFromPassword(start: Tables, password: seq<bv8>, cost: int, random: Option<seq<bv8>>)
    returns (r: Result<seq<bv8>>)
    requires random.Some? ==> |random.value| == 16
    ensures r == Generated(start, password, cost, random)
  {
    hide HashOf, Printed, Encode, Trim;
    if |password| > 72 {
      return Err(PasswordTooLong);
    }
    var c := if cost < MIN_COST then DEFAULT_COST else cost;
    var p := new Hashed();
    p.major, p.minor := MAJOR, MINOR;
    if !CheckCost(c) {
      return Err(InvalidCost(c));
    }
    p.cost := c;
    if random.None? {
      return Err(NoRandomBytes);
    }
    TrimmedEncoding(random.value);
    p.salt := Base64Encode(random.value);
    var hash := HashPassword(start, password, p.cost, p.salt);
    if hash.None? {
      return Err(CorruptSalt);
    }
    p.hash := hash.value;
    var text := p.Hash();
    return Ok(text);
  }

  method CompareHashAndPassword(start: Tables, h: seq<bv8>, password: seq<bv8>) returns (r: Result<()>)
    ensures r == Compared(start, h, password)
  {
    hide HashOf, Printed;
    var p := new Hashed();
    var parsed := p.FillFromHash(h);
    if parsed.Err? {
      return parsed;
    }
    var other := HashPassword(start, password, p.cost, p.salt);
    if other.None? {
      return Err(CorruptSalt);
    }
    var q := new Hashed();
    q.hash, q.salt, q.cost, q.major, q.minor := other.value, p.salt, p.cost, p.major, p.minor;
    var a := p.Hash();
    var b := q.Hash();
    return if a == b then Ok(()) else Err(MismatchedHashAndPassword);
  }

  method Cost(h: seq<bv8>) returns (r: Result<int>)
    ensures r == CostOf(h)
  {
    var p := new Hashed();
    var parsed := p.FillFromHash(h);
    return if parsed.Err? then Err(parsed.error) else Ok(p.cost);
  }
}
