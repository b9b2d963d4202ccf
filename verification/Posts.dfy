/** Posts and what a request to create one must satisfy (internal/models/post.go,
  internal/service/post_service.go).  Text is a sequence of Unicode characters, whose length in bytes is
  that of UTF-8; U+0000 stands for itself and for a byte that is not part of valid UTF-8, which the
  database refuses alike.  Ids are the text of UUIDs. */
module Posts {
  import opened Options

  datatype Post = Post(id: string, user: string, title: string, content: string, status: string,
                       createdAt: int, updatedAt: int)

  /** The decoded body of a creation request. */
  datatype Draft = Draft(title: string, content: string, status: string)

  const DRAFT := "draft"
  const PUBLISHED := "published"
  const ARCHIVED := "archived"

  predicate IsValidStatus(status: string) {
    status == DRAFT || status == PUBLISHED || status == ARCHIVED
  }

  /** The characters with Unicode's White_Space property, which TrimSpace cuts off. */
  predicate IsSpace(c: char) {
    || c == ' ' || '\t' <= c <= '\r' || c == '\U{0085}' || c == '\U{00A0}' || c == '\U{1680}'
    || '\U{2000}' <= c <= '\U{200A}' || '\U{2028}' <= c <= '\U{2029}'
    || c == '\U{202F}' || c == '\U{205F}' || c == '\U{3000}'
  }

  function CharBytes(c: char): nat {
    if c < '\U{0080}' then 1 else if c < '\U{0800}' then 2 else if c < '\U{10000}' then 3 else 4
  }

  /** Go's len of a string. */
  function ByteLength(s: string): nat {
    if s == "" then 0 else CharBytes(s[0]) + ByteLength(s[1..])
  }

  function TrimLeft(s: string): string {
    if s != "" && IsSpace(s[0]) then TrimLeft(s[1..]) else s
  }

  function TrimRight(s: string): string {
    if s != "" && IsSpace(s[|s| - 1]) then TrimRight(s[..|s| - 1]) else s
  }

  function Trim(s: string): string {
    TrimRight(TrimLeft(s))
  }

  /** The title and status to store, or None when the draft does not pass validation. */
  function Validated(d: Draft): Option<(string, string)> {
    var title := Trim(d.title);
    var status := if d.status == "" then DRAFT else d.status;
    if title == "" || ByteLength(title) > 300 || !IsValidStatus(status) then None else Some((title, status))
  }

  /** A text column or argument can hold neither U+0000 nor invalid UTF-8: the database refuses the
      statement, every time. */
  predicate Storable(s: string) {
    forall i :: 0 <= i < |s| ==> s[i] != '\0'
  }

  /** The database can store the post a valid draft asks for. */
  predicate Fits(d: Draft) {
    Storable(Trim(d.title)) && Storable(d.content)
  }

  /** What trimming leaves: a piece of the text without white space at its ends, the rest being white space. */
  lemma {:induction false} TrimLeftIs(s: string)
    ensures |TrimLeft(s)| <= |s| && s[|s| - |TrimLeft(s)|..] == TrimLeft(s)
    ensures forall i :: 0 <= i < |s| - |TrimLeft(s)| ==> IsSpace(s[i])
    ensures TrimLeft(s) != "" ==> !IsSpace(TrimLeft(s)[0])
  {
    hide IsSpace;
    if s != "" && IsSpace(s[0]) {
      var rest := s[1..];
      TrimLeftIs(rest);
      var cut := |rest| - |TrimLeft(rest)|;
      assert s[cut + 1..] == rest[cut..];
      forall i | 0 <= i < cut + 1
        ensures IsSpace(s[i])
      {
        assert i > 0 ==> s[i] == rest[i - 1];
      }
    } else {
      assert s[0..] == s;
    }
  }

  lemma {:induction false} TrimRightIs(s: string)
    ensures |TrimRight(s)| <= |s| && s[..|TrimRight(s)|] == TrimRight(s)
    ensures forall i :: |TrimRight(s)| <= i < |s| ==> IsSpace(s[i])
    ensures TrimRight(s) != "" ==> !IsSpace(TrimRight(s)[|TrimRight(s)| - 1])
  {
    hide IsSpace;
    if s != "" && IsSpace(s[|s| - 1]) {
      TrimRightIs(s[..|s| - 1]);
    }
  }

  /** Trimming takes away white space at both ends, all of it, and nothing else. */
  lemma TrimIs(s: string)
    ensures exists from, to :: 0 <= from <= to <= |s| && Trim(s) == s[from..to]
                               && forall i :: (0 <= i < from || to <= i < |s|) ==> IsSpace(s[i])
    ensures Trim(s) != "" ==> !IsSpace(Trim(s)[0]) && !IsSpace(Trim(s)[|Trim(s)| - 1])
  {
    hide IsSpace, TrimLeft, TrimRight;
    TrimLeftIs(s);
    TrimRightIs(TrimLeft(s));
    var from := |s| - |TrimLeft(s)|;
    var to := from + |Trim(s)|;
    assert Trim(s) == s[from..to];
    forall i | 0 <= i < from || to <= i < |s|
      ensures IsSpace(s[i])
    {
      assert i >= to ==> s[i] == TrimLeft(s)[i - from];
    }
  }

  lemma {:induction false} AllSpaceTrimsAway(s: string)
    ensures Trim(s) == "" <==> forall i :: 0 <= i < |s| ==> IsSpace(s[i])
  {
    hide IsSpace, TrimLeft, TrimRight;
    TrimLeftIs(s);
    TrimRightIs(TrimLeft(s));
    var t := TrimLeft(s);
    if t != "" {
      assert t[0] == s[|s| - |t|];
    }
  }

  /** What validation asks for and what it gives: a title that is not all white space and, trimmed, has at
      most 300 bytes, and one of the three statuses or none, which makes a draft. */
  lemma ValidatedIs(d: Draft)
    ensures Validated(d) == None
       <==> || (forall i :: 0 <= i < |d.title| ==> IsSpace(d.title[i]))
            || ByteLength(Trim(d.title)) > 300
            || (d.status != "" && d.status != "draft" && d.status != "published" && d.status != "archived")
    ensures Validated(d).Some? ==> Validated(d) == Some((Trim(d.title), if d.status == "" then "draft" else d.status))
  {
    AllSpaceTrimsAway(d.title);
    hide Trim, ByteLength, IsSpace;
  }

  /** Lengths are those of UTF-8: one, two, three and four bytes. */
  lemma ByteLengthsAre()
    ensures ByteLength("a") == 1 && ByteLength("\U{00E9}") == 2 && ByteLength("\U{20AC}") == 3 && ByteLength("\U{1F600}") == 4
    ensures forall c: char ::
              ByteLength([c]) == if c as int < 128 then 1 else if c as int < 2048 then 2 else if c as int < 65536 then 3 else 4
  {
    forall c: char
      ensures ByteLength([c]) == CharBytes(c)
    {
      assert [c][1..] == "";
    }
  }

  /** White space by code point: tab to carriage return, space, U+0085, U+00A0, U+1680, U+2000 to U+200A,
      U+2028, U+2029, U+202F, U+205F and U+3000. */
  lemma WhiteSpaceIs(c: char)
    ensures IsSpace(c)
       <==> var n := c as int;
            || 9 <= n <= 13 || n == 32 || n == 133 || n == 160 || n == 5760 || 8192 <= n <= 8202
            || n == 8232 || n == 8233 || n == 8239 || n == 8287 || n == 12288
  {
  }
}
