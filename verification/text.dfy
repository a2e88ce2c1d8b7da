/** The string operations of Rust's `str` that fixr relies on:
    `starts_with`, `strip_prefix` and `trim`. */
module Text {

  predicate StartsWith(s: string, prefix: string) {
    |prefix| <= |s| && s[..|prefix|] == prefix
  }

  /** `char::is_whitespace`: the characters with the Unicode White_Space
      property. */
  predicate IsWhitespace(c: char) {
    ('\U{9}' <= c <= '\U{D}') || c == ' ' || c == '\U{85}' || c == '\U{A0}' ||
    c == '\U{1680}' || ('\U{2000}' <= c <= '\U{200A}') || c == '\U{2028}' || c == '\U{2029}' ||
    c == '\U{202F}' || c == '\U{205F}' || c == '\U{3000}'
  }

  predicate AllWhitespace(s: string) {
    forall i :: 0 <= i < |s| ==> IsWhitespace(s[i])
  }

  /** `str::trim_start`: the longest suffix of `s` that does not begin
      with whitespace; everything dropped is whitespace. */
  function TrimStart(s: string): (r: string)
    ensures |r| <= |s| && r == s[|s| - |r|..]
    ensures AllWhitespace(s[..|s| - |r|])
    ensures r == [] || !IsWhitespace(r[0])
  {
    if s != [] && IsWhitespace(s[0]) then TrimStart(s[1..]) else s
  }

  /** `str::trim_end`: the longest prefix of `s` that does not end with
      whitespace; everything dropped is whitespace. */
  function TrimEnd(s: string): (r: string)
    ensures |r| <= |s| && r == s[..|r|]
    ensures AllWhitespace(s[|r|..])
    ensures r == [] || !IsWhitespace(r[|r| - 1])
  {
    if s != [] && IsWhitespace(s[|s| - 1]) then TrimEnd(s[..|s| - 1]) else s
  }

  /** `str::trim`. */
  function Trim(s: string): string {
    TrimEnd(TrimStart(s))
  }

  /** `s` is a single '1' with only whitespace around it. */
  ghost predicate IsPaddedOne(s: string) {
    exists i :: 0 <= i < |s| && s[i] == '1' && AllWhitespace(s[..i]) && AllWhitespace(s[i + 1..])
  }

  /** Dropping a whitespace prefix up to a non-whitespace character is
      exactly what `TrimStart` does. */
  lemma TrimStartAt(s: string, i: nat)
    requires i < |s| && AllWhitespace(s[..i]) && !IsWhitespace(s[i])
    ensures TrimStart(s) == s[i..]
  {
    var k := |s| - |TrimStart(s)|;
    if k < i {
      assert false;
    } else if k > i {
      assert false;
    }
  }

  /** Dropping a whitespace suffix down to a non-whitespace character is
      exactly what `TrimEnd` does. */
  lemma TrimEndAt(s: string, j: nat)
    requires 0 < j <= |s| && AllWhitespace(s[j..]) && !IsWhitespace(s[j - 1])
    ensures TrimEnd(s) == s[..j]
  {
    var n := |TrimEnd(s)|;
    if n > j {
      assert false;
    } else if n < j {
      assert false;
    }
  }

  /** A trimmed content of "1" comes from a '1' padded by whitespace. */
  lemma TrimOneIsPadded(s: string)
    requires Trim(s) == "1"
    ensures IsPaddedOne(s)
  {
    var t := TrimStart(s);
    var i := |s| - |t|;
    assert TrimEnd(t) == t[..1];
    assert s[i] == t[0] == '1';
    assert s[i + 1..] == t[1..];
    assert AllWhitespace(s[..i]) && AllWhitespace(s[i + 1..]);
  }

  /** A '1' padded by whitespace trims to "1". */
  lemma PaddedTrimsToOne(s: string, i: nat)
    requires i < |s| && s[i] == '1' && AllWhitespace(s[..i]) && AllWhitespace(s[i + 1..])
    ensures Trim(s) == "1"
  {
    TrimStartAt(s, i);
    var t := s[i..];
    assert t[1..] == s[i + 1..];
    TrimEndAt(t, 1);
  }

  /** The trimmed content is exactly "1" when, and only when, the content
      is a '1' surrounded by nothing but whitespace. */
  lemma TrimIsOne(s: string)
    ensures Trim(s) == "1" <==> IsPaddedOne(s)
  {
    if Trim(s) == "1" {
      TrimOneIsPadded(s);
    }
    if IsPaddedOne(s) {
      var i :| 0 <= i < |s| && s[i] == '1' && AllWhitespace(s[..i]) && AllWhitespace(s[i + 1..]);
      PaddedTrimsToOne(s, i);
    }
  }
}
