/** The title search (internal/repository/post_repository.go): ILIKE with the search text put between two
  `%` signs, unescaped.  How the database folds letters is a parameter. */
module Likes {
  import opened Options
  import opened Posts

  predicate IsPrefix(s: string, t: string) {
    |s| <= |t| && t[..|s|] == s
  }

  /** What the documentation promises of a search: the title contains the text. */
  ghost predicate Contains(t: string, s: string) {
    exists k :: 0 <= k <= |t| && IsPrefix(s, t[k..])
  }

  predicate IsSpecial(c: char) {
    c == '%' || c == '_' || c == '\\'
  }

  /** A mapping of characters to lower case, each to one character or more: the characters that mean
      something in a pattern stay what they are, no other becomes one of them, and x is one letter. */
  ghost predicate IsFolding(fold: char -> string) {
    && (forall c :: IsSpecial(c) ==> fold(c) == [c])
    && (forall c :: !IsSpecial(c) ==> fold(c) != "" && Plain(fold(c)))
    && |fold('x')| == 1
  }

  function Lower(fold: char -> string, s: string): string {
    if s == "" then "" else fold(s[0]) + Lower(fold, s[1..])
  }

  /** LIKE: `%` stands for any text, `_` for any character, and `\` makes the next character literal.  A
      pattern that ends in a lone `\` is an error of the database, and matches nothing here. */
  predicate Like(p: string, t: string)
    decreases |p|, |t|
  {
    if p == "" then t == ""
    else if p[0] == '%' then Like(p[1..], t) || (t != "" && Like(p, t[1..]))
    else if t == "" then false
    else if p[0] == '_' then Like(p[1..], t[1..])
    else if p[0] == '\\' then |p| >= 2 && p[1] == t[0] && Like(p[2..], t[1..])
    else p[0] == t[0] && Like(p[1..], t[1..])
  }

  function SearchPattern(search: string): string {
    "%" + search + "%"
  }

  predicate ILike(fold: char -> string, p: string, t: string) {
    Like(Lower(fold, p), Lower(fold, t))
  }

  predicate Plain(s: string) {
    forall i :: 0 <= i < |s| ==> !IsSpecial(s[i])
  }

  /** The database rejects a pattern whose last character escapes nothing. */
  predicate Malformed(p: string)
    decreases |p|
  {
    if p == "" then false
    else if p[0] == '\\' then |p| == 1 || Malformed(p[2..])
    else Malformed(p[1..])
  }

  /** No search text gives such a pattern: the closing `%` is there to be escaped. */
  lemma {:induction false} NeverMalformed(s: string)
    ensures !Malformed(s + "%") && !Malformed(SearchPattern(s))
    decreases |s|
  {
    assert SearchPattern(s)[1..] == s + "%";
    if s != "" {
      if s[0] == '\\' && |s| >= 2 {
        assert (s + "%")[2..] == s[2..] + "%";
        NeverMalformed(s[2..]);
      } else if s[0] != '\\' {
        assert (s + "%")[1..] == s[1..] + "%";
        NeverMalformed(s[1..]);
      } else {
        assert (s + "%")[2..] == "";
      }
    }
  }

  // ---------------------------------------------------------------- plain text

  /** A leading `%` tries the rest of the pattern at every position. */
  lemma {:induction false} AnywhereIsSomewhere(p: string, t: string)
    ensures Like("%" + p, t) <==> exists k :: 0 <= k <= |t| && Like(p, t[k..])
    decreases |t|
  {
    assert ("%" + p)[1..] == p;
    assert t[0..] == t;
    if t != "" {
      AnywhereIsSomewhere(p, t[1..]);
      if Like("%" + p, t[1..]) {
        var k :| 0 <= k <= |t[1..]| && Like(p, t[1..][k..]);
        assert t[1..][k..] == t[k + 1..];
      }
      if k :| 0 < k <= |t| && Like(p, t[k..]) {
        assert t[1..][k - 1..] == t[k..];
      }
    }
  }

  lemma {:induction false} PlainMatchesPrefix(s: string, t: string)
    requires Plain(s)
    ensures Like(s + "%", t) <==> IsPrefix(s, t)
  {
    if s == "" {
      assert s + "%" == "%";
      RestMatches(t);
    } else {
      assert (s + "%")[1..] == s[1..] + "%";
      if t != "" {
        PlainMatchesPrefix(s[1..], t[1..]);
        assert s == [s[0]] + s[1..];
        if s[0] == t[0] && IsPrefix(s[1..], t[1..]) {
          assert t[..|s|] == [t[0]] + t[1..][..|s| - 1];
        }
        if IsPrefix(s, t) {
          assert s[0] == t[..|s|][0] && s[1..] == t[..|s|][1..] == t[1..][..|s| - 1];
        }
      }
    }
  }

  lemma {:induction false} RestMatches(t: string)
    ensures Like("%", t)
  {
    if t != "" {
      RestMatches(t[1..]);
    } else {
      assert "%"[1..] == "";
    }
  }

  lemma PlainIsSubstring(s: string, t: string)
    requires Plain(s)
    ensures Like(SearchPattern(s), t) <==> Contains(t, s)
  {
    hide Like, IsPrefix;
    assert SearchPattern(s) == "%" + (s + "%");
    AnywhereIsSomewhere(s + "%", t);
    forall k | 0 <= k <= |t|
      ensures Like(s + "%", t[k..]) <==> IsPrefix(s, t[k..])
    {
      PlainMatchesPrefix(s, t[k..]);
    }
  }

  // ---------------------------------------------------------------- everything else

  /** A shortest text the pattern matches, with `x` wherever any character will do. */
  function Literal(s: string, x: char): string
    decreases |s|
  {
    if s == "" then ""
    else if s[0] == '%' then Literal(s[1..], x)
    else if s[0] == '_' then [x] + Literal(s[1..], x)
    else if s[0] == '\\' then if |s| == 1 then "%" else [s[1]] + Literal(s[2..], x)
    else [s[0]] + Literal(s[1..], x)
  }

  /** The text ends in a `\` that escapes the closing `%` of the pattern. */
  predicate EndsOpen(s: string)
    decreases |s|
  {
    s != "" && if s[0] == '\\' then |s| == 1 || EndsOpen(s[2..]) else EndsOpen(s[1..])
  }

  /** A text the pattern matches and that can be a title: it is not empty and has no white space at its ends
      unless `x` is white space. */
  function Telling(s: string, x: char): string {
    [x] + Literal(s, x) + if EndsOpen(s) then "" else [x]
  }

  lemma {:induction false} LiteralMatches(s: string, x: char, rest: string)
    requires rest != "" ==> !EndsOpen(s)
    ensures Like(s + "%", Literal(s, x) + rest)
    decreases |s|
  {
    var p, t := s + "%", Literal(s, x) + rest;
    if s == "" {
      assert p == "%" && t == rest;
      RestMatches(rest);
    } else if s[0] == '\\' {
      if |s| == 1 {
        assert p[2..] == "" && t[1..] == "";
      } else {
        assert p[2..] == s[2..] + "%" && t[1..] == Literal(s[2..], x) + rest;
        LiteralMatches(s[2..], x, rest);
      }
    } else {
      assert p[1..] == s[1..] + "%";
      LiteralMatches(s[1..], x, rest);
      if s[0] == '%' {
        assert t == Literal(s[1..], x) + rest;
      } else {
        assert t[1..] == Literal(s[1..], x) + rest;
      }
    }
  }

  /** How much a text weighs as a pattern: a literal reading always weighs less, unless there is nothing to
      read. */
  function Weight(s: string): nat {
    if s == "" then 0 else Weight(s[1..]) + if s[0] == '\\' then 2 else if IsSpecial(s[0]) then 1 else 0
  }

  lemma {:induction false} WeightAdds(s: string, t: string)
    ensures Weight(s + t) == Weight(s) + Weight(t)
  {
    if s == "" {
      assert s + t == t;
    } else {
      assert (s + t)[1..] == s[1..] + t;
      WeightAdds(s[1..], t);
    }
  }

  lemma {:induction false} LiteralWeighsLess(s: string, x: char)
    requires !IsSpecial(x)
    ensures Weight(Literal(s, x)) <= Weight(s)
    ensures !Plain(s) ==> Weight(Literal(s, x)) < Weight(s)
    decreases |s|
  {
    if s != "" {
      LiteralWeighsLess(s[1..], x);
      assert !Plain(s) ==> IsSpecial(s[0]) || !Plain(s[1..]);
      WeightAdds([x], Literal(s[1..], x));
      WeightAdds([s[0]], Literal(s[1..], x));
      if s[0] == '\\' && |s| > 1 {
        LiteralWeighsLess(s[2..], x);
        WeightAdds([s[1]], Literal(s[2..], x));
        assert s[1..][1..] == s[2..];
      }
    }
  }

  lemma HeavyIsNotContained(t: string, s: string)
    requires Weight(t) < Weight(s)
    ensures !Contains(t, s)
  {
    forall k | 0 <= k <= |t|
      ensures !IsPrefix(s, t[k..])
    {
      if IsPrefix(s, t[k..]) {
        assert t == t[..k] + (s + t[k..][|s|..]);
        WeightAdds(t[..k], s + t[k..][|s|..]);
        WeightAdds(s, t[k..][|s|..]);
      }
    }
  }

  lemma TellingTellsApart(s: string, x: char)
    requires !Plain(s) && !IsSpecial(x)
    ensures Like(SearchPattern(s), Telling(s, x)) && !Contains(Telling(s, x), s)
  {
    hide Like, Literal, EndsOpen, Contains;
    var end := if EndsOpen(s) then "" else [x];
    var t := Telling(s, x);
    assert SearchPattern(s) == "%" + (s + "%");
    AnywhereIsSomewhere(s + "%", t);
    LiteralMatches(s, x, end);
    assert t[1..] == Literal(s, x) + end;
    LiteralWeighsLess(s, x);
    assert t == [x] + (Literal(s, x) + end);
    WeightAdds([x], Literal(s, x) + end);
    WeightAdds(Literal(s, x), end);
    HeavyIsNotContained(t, s);
  }

  // ---------------------------------------------------------------- folding

  lemma {:induction false} LowerAdds(fold: char -> string, s: string, t: string)
    ensures Lower(fold, s + t) == Lower(fold, s) + Lower(fold, t)
  {
    if s == "" {
      assert s + t == t;
    } else {
      assert (s + t)[1..] == s[1..] + t;
      LowerAdds(fold, s[1..], t);
    }
  }

  lemma LowerOne(fold: char -> string, c: char)
    ensures Lower(fold, [c]) == fold(c)
  {
    assert [c][1..] == "";
  }

  lemma LowerPattern(fold: char -> string, s: string)
    requires IsFolding(fold)
    ensures Lower(fold, SearchPattern(s)) == SearchPattern(Lower(fold, s))
  {
    hide Lower;
    assert IsSpecial('%');
    LowerAdds(fold, "%" + s, "%");
    LowerAdds(fold, "%", s);
    LowerOne(fold, '%');
  }

  lemma PlainAdds(s: string, t: string)
    ensures Plain(s + t) <==> Plain(s) && Plain(t)
  {
    assert forall i :: 0 <= i < |s| ==> (s + t)[i] == s[i];
    assert forall i :: 0 <= i < |t| ==> (s + t)[i + |s|] == t[i];
  }

  lemma {:induction false} LowerKeepsPlain(fold: char -> string, s: string)
    requires IsFolding(fold)
    ensures Plain(Lower(fold, s)) <==> Plain(s)
  {
    if s != "" {
      LowerKeepsPlain(fold, s[1..]);
      PlainAdds(fold(s[0]), Lower(fold, s[1..]));
      PlainAdds([s[0]], s[1..]);
      assert s == [s[0]] + s[1..];
      assert IsSpecial(s[0]) ==> !Plain(fold(s[0])) && !Plain([s[0]]) by {
        assert [s[0]][0] == s[0];
      }
    }
  }

  /** Plain text stands for itself. */
  lemma {:induction false} LiteralOfPlain(s: string, t: string, x: char)
    requires Plain(s)
    ensures Literal(s + t, x) == s + Literal(t, x) && (EndsOpen(s + t) <==> EndsOpen(t))
  {
    if s == "" {
      assert s + t == t;
    } else {
      assert (s + t)[1..] == s[1..] + t;
      LiteralOfPlain(s[1..], t, x);
    }
  }

  /** A pattern read literally and then folded is the folded pattern read literally. */
  lemma {:induction false} FoldedLiteral(fold: char -> string, s: string)
    requires IsFolding(fold)
    ensures Lower(fold, Literal(s, 'x')) == Literal(Lower(fold, s), fold('x')[0])
    ensures EndsOpen(Lower(fold, s)) <==> EndsOpen(s)
    decreases |s|
  {
    var x := fold('x')[0];
    if s == "" {
    } else if s[0] == '\\' {
      assert IsSpecial('\\') && IsSpecial('%');
      if |s| == 1 {
        assert s == ['\\'];
        LowerOne(fold, '\\');
        LowerOne(fold, '%');
        assert Literal(s, 'x') == "%";
      } else {
        FoldedLiteral(fold, s[2..]);
        FoldedEscape(fold, s);
      }
    } else if IsSpecial(s[0]) {
      var low := Lower(fold, s[1..]);
      assert Lower(fold, s) == [s[0]] + low;
      assert Lower(fold, s)[1..] == low;
      FoldedLiteral(fold, s[1..]);
      LowerAdds(fold, "x", Literal(s[1..], 'x'));
      LowerOne(fold, 'x');
      assert fold('x') == [x];
    } else {
      FoldedLiteral(fold, s[1..]);
      LowerAdds(fold, [s[0]], Literal(s[1..], 'x'));
      LowerOne(fold, s[0]);
      LiteralOfPlain(fold(s[0]), Lower(fold, s[1..]), x);
    }
  }

  lemma EscapeIs(c: char, rest: string, x: char)
    ensures Literal(['\\', c] + rest, x) == [c] + Literal(rest, x)
    ensures EndsOpen(['\\', c] + rest) <==> EndsOpen(rest)
  {
    assert (['\\', c] + rest)[2..] == rest;
  }

  lemma LowerTwo(fold: char -> string, a: char, b: char, s: string)
    ensures Lower(fold, [a, b] + s) == fold(a) + fold(b) + Lower(fold, s)
  {
    LowerAdds(fold, [a] + [b], s);
    LowerAdds(fold, [a], [b]);
    LowerOne(fold, a);
    LowerOne(fold, b);
    assert [a] + [b] == [a, b];
  }

  lemma Regroup(a: char, c: string, low: string)
    requires c != ""
    ensures [a] + c + low == [a, c[0]] + (c[1..] + low)
    ensures [c[0]] + (c[1..] + low) == c + low
  {
  }

  /** A folded escape is the escape of the first folded character, and the others follow. */
  lemma LowerEscape(fold: char -> string, c: char, rest: string, x: char)
    requires IsFolding(fold)
    ensures var low := Lower(fold, ['\\', c] + rest);
            && Literal(low, x) == fold(c) + Literal(Lower(fold, rest), x)
            && (EndsOpen(low) <==> EndsOpen(Lower(fold, rest)))
  {
    var f, low := fold(c), Lower(fold, rest);
    assert f != "" && Plain(f[1..]) && fold('\\') == ['\\'] by { assert IsSpecial('\\'); }
    hide *;
    LowerTwo(fold, '\\', c, rest);
    Regroup('\\', f, low);
    EscapeIs(f[0], f[1..] + low, x);
    LiteralOfPlain(f[1..], low, x);
    Regroup('\\', f, Literal(low, x));
  }

  lemma FoldedEscape(fold: char -> string, s: string)
    requires IsFolding(fold) && |s| >= 2 && s[0] == '\\'
    requires Lower(fold, Literal(s[2..], 'x')) == Literal(Lower(fold, s[2..]), fold('x')[0])
    requires EndsOpen(Lower(fold, s[2..])) <==> EndsOpen(s[2..])
    ensures Lower(fold, Literal(s, 'x')) == Literal(Lower(fold, s), fold('x')[0])
    ensures EndsOpen(Lower(fold, s)) <==> EndsOpen(s)
  {
    var c, rest := s[1], s[2..];
    assert s == ['\\', c] + rest;
    assert |fold('x')| == 1;
    hide *;
    LowerEscape(fold, c, rest, fold('x')[0]);
    EscapeIs(c, rest, 'x');
    LowerAdds(fold, [c], Literal(rest, 'x'));
    LowerOne(fold, c);
  }

  // ---------------------------------------------------------------- the search

  lemma FoldedTelling(fold: char -> string, s: string)
    requires IsFolding(fold)
    ensures Lower(fold, Telling(s, 'x')) == Telling(Lower(fold, s), fold('x')[0])
    ensures !IsSpecial(fold('x')[0])
  {
    assert !IsSpecial('x') && fold('x') == [fold('x')[0]];
    hide Literal, EndsOpen, Lower;
    var end := if EndsOpen(s) then "" else "x";
    FoldedLiteral(fold, s);
    LowerOne(fold, 'x');
    LowerNothing(fold);
    LowerAdds(fold, "x" + Literal(s, 'x'), end);
    LowerAdds(fold, "x", Literal(s, 'x'));
  }

  lemma LowerNothing(fold: char -> string)
    ensures Lower(fold, "") == ""
  {
  }

  /** A search finds exactly the titles that contain the text, ignoring case, for every title, if and only
      if the text has no `%`, `_` or `\`; and so for every way of folding letters one by one. */
  lemma SearchIsSubstringIffPlain(fold: char -> string, search: string)
    requires IsFolding(fold)
    ensures (forall title :: ILike(fold, SearchPattern(search), title)
                             <==> Contains(Lower(fold, title), Lower(fold, search)))
       <==> forall i :: 0 <= i < |search| ==> search[i] != '%' && search[i] != '_' && search[i] != '\\'
  {
    hide Like, Contains, Telling, Lower, IsFolding;
    LowerPattern(fold, search);
    LowerKeepsPlain(fold, search);
    var s := Lower(fold, search);
    if Plain(search) {
      forall title
        ensures ILike(fold, SearchPattern(search), title) <==> Contains(Lower(fold, title), s)
      {
        PlainIsSubstring(s, Lower(fold, title));
      }
    } else {
      var title := Telling(search, 'x');
      TellingTitle(fold, search);
      assert !(ILike(fold, SearchPattern(search), title) <==> Contains(Lower(fold, title), s));
    }
  }

  /** The title found although it does not contain the text. */
  lemma TellingTitle(fold: char -> string, search: string)
    requires IsFolding(fold) && !Plain(search)
    ensures var title := Telling(search, 'x');
            ILike(fold, SearchPattern(search), title) && !Contains(Lower(fold, title), Lower(fold, search))
  {
    assert |fold('x')| == 1;
    hide Like, Contains, Telling, Lower, IsFolding;
    LowerPattern(fold, search);
    LowerKeepsPlain(fold, search);
    FoldedTelling(fold, search);
    TellingTellsApart(Lower(fold, search), fold('x')[0]);
  }

  /** A title as the service stores it: what is left of one that passes validation. */
  predicate IsTitle(title: string) {
    Trim(title) == title && title != "" && ByteLength(title) <= 300 && Storable(title)
  }

  lemma {:induction false} LiteralIsShort(s: string, x: char)
    requires CharBytes(x) == 1 && x != '\0' && Storable(s)
    ensures ByteLength(Literal(s, x)) <= ByteLength(s) && Storable(Literal(s, x))
    decreases |s|
  {
    if s != "" {
      assert Storable(s[1..]);
      LiteralIsShort(s[1..], x);
      LengthAdds([x], Literal(s[1..], x));
      LengthAdds([s[0]], Literal(s[1..], x));
      if |s| >= 2 {
        assert Storable(s[2..]) && s[1..][1..] == s[2..];
        LiteralIsShort(s[2..], x);
        LengthAdds([s[1]], Literal(s[2..], x));
      }
    }
  }

  lemma {:induction false} LengthAdds(s: string, t: string)
    ensures ByteLength(s + t) == ByteLength(s) + ByteLength(t)
  {
    if s == "" {
      assert s + t == t;
    } else {
      assert (s + t)[1..] == s[1..] + t;
      LengthAdds(s[1..], t);
    }
  }

  lemma {:induction false} OpenEndsInPercent(s: string, x: char)
    requires EndsOpen(s)
    ensures Literal(s, x) != "" && Literal(s, x)[|Literal(s, x)| - 1] == '%'
    decreases |s|
  {
    if s[0] == '\\' {
      if |s| > 1 {
        OpenEndsInPercent(s[2..], x);
      }
    } else {
      OpenEndsInPercent(s[1..], x);
    }
  }

  /** The telling title can be stored, for every text the database can read that leaves room for it. */
  lemma TellingIsTitle(search: string)
    requires Storable(search) && ByteLength(search) <= 298
    ensures IsTitle(Telling(search, 'x'))
  {
    hide Literal, EndsOpen;
    var lit, end := Literal(search, 'x'), if EndsOpen(search) then "" else "x";
    var t := "x" + lit + end;
    LiteralIsShort(search, 'x');
    LengthAdds("x", lit);
    LengthAdds("x" + lit, end);
    assert ByteLength("x") == 1;
    if EndsOpen(search) {
      OpenEndsInPercent(search, 'x');
    }
    assert t[0] == 'x' && (t[|t| - 1] == 'x' || t[|t| - 1] == '%');
    assert Trim(t) == t;
  }

  /** The same over the titles there can be: for a text the database can read, of at most 298 bytes. */
  lemma StoredSearchIsSubstringIffPlain(fold: char -> string, search: string)
    requires IsFolding(fold) && Storable(search) && ByteLength(search) <= 298
    ensures (forall title :: IsTitle(title) ==>
               (ILike(fold, SearchPattern(search), title) <==> Contains(Lower(fold, title), Lower(fold, search))))
       <==> forall i :: 0 <= i < |search| ==> search[i] != '%' && search[i] != '_' && search[i] != '\\'
  {
    assert Plain(search) <==> forall i :: 0 <= i < |search| ==> search[i] != '%' && search[i] != '_' && search[i] != '\\';
    hide *;
    SearchIsSubstringIffPlain(fold, search);
    if !Plain(search) {
      TellingTitle(fold, search);
      TellingIsTitle(search);
    }
  }

  /** Searching for a percent sign finds titles without one. */
  lemma PercentFindsEverything(fold: char -> string, title: string)
    requires IsFolding(fold)
    ensures ILike(fold, SearchPattern("%"), title)
    ensures IsTitle("xx") && !Contains(Lower(fold, "xx"), Lower(fold, "%"))
  {
    assert IsSpecial('%');
    var t := Lower(fold, title);
    LowerPattern(fold, "%");
    LowerOne(fold, '%');
    assert SearchPattern("%") == "%%%";
    AnywhereIsSomewhere("%%", t);
    AnywhereIsSomewhere("%", t);
    assert "%" + "%%" == "%%%" && "%" + "%" == "%%";
    RestMatches(t);
    assert t[0..] == t;
    assert Literal("%", 'x') == "" && Telling("%", 'x') == "xx";
    TellingTitle(fold, "%");
    TellingIsTitle("%");
  }
}
