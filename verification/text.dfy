/**
 The three JavaScript string operations the search bar relies on:
 `String.prototype.trim`, `toLowerCase` and `includes`.
 */
module Text {

  /** ECMAScript WhiteSpace and LineTerminator code points, the set `trim` strips. */
  predicate IsSpace(c: char) {
    || c == ' ' || c == '\t' || c == '\n' || c == '\r'
    || c == '\U{000B}' || c == '\U{000C}' || c == '\U{00A0}' || c == '\U{1680}'
    || ('\U{2000}' <= c <= '\U{200A}')
    || c == '\U{2028}' || c == '\U{2029}' || c == '\U{202F}' || c == '\U{205F}'
    || c == '\U{3000}' || c == '\U{FEFF}'
  }

  /** True when every character of `s` is white space (the empty string included). */
  ghost predicate AllSpace(s: string) {
    forall i :: 0 <= i < |s| ==> IsSpace(s[i])
  }

  /** Drops leading white space; what remains is a suffix of `s`. */
  function TrimStart(s: string): (r: string)
    ensures |r| <= |s| && r == s[|s| - |r|..]
    ensures AllSpace(s[..|s| - |r|])
    ensures r != [] ==> !IsSpace(r[0])
  {
    if s != [] && IsSpace(s[0]) then TrimStart(s[1..]) else s
  }

  /** Drops trailing white space; what remains is a prefix of `s`. */
  function TrimEnd(s: string): (r: string)
    ensures |r| <= |s| && r == s[..|r|]
    ensures AllSpace(s[|r|..])
    ensures r != [] ==> !IsSpace(r[|r| - 1])
  {
    if s != [] && IsSpace(s[|s| - 1]) then TrimEnd(s[..|s| - 1]) else s
  }

  /** `s.trim()`: white space removed from both ends. */
  function Trim(s: string): (r: string)
    ensures |r| <= |s|
    ensures r == [] <==> AllSpace(s)
    ensures r != [] ==> !IsSpace(r[0]) && !IsSpace(r[|r| - 1])
    ensures exists k :: TrimmedWindow(s, r, k)
  {
    var a := TrimStart(s);
    var r := TrimEnd(a);
    TrimPieces(s, a, r);
    r
  }

  /** `r` sits in `s` at index `k` and everything around it is white space. */
  ghost predicate TrimmedWindow(s: string, r: string, k: int) {
    OccursAt(s, r, k) && AllSpace(s[..k]) && AllSpace(s[k + |r|..])
  }

  /** How the two halves of `Trim` fit together: the result is the window of
      `s` after the leading spaces, and it is empty only for all-space input. */
  lemma TrimPieces(s: string, a: string, r: string)
    requires a == TrimStart(s) && r == TrimEnd(a)
    ensures TrimmedWindow(s, r, |s| - |a|)
    ensures r == [] <==> AllSpace(s)
    ensures r != [] ==> !IsSpace(r[0])
  {
    TrimWindow(s, a, r);
    TrimDropsSpace(s, a, r);
    TrimEmptyWhenBlank(s, a, r);
    TrimFirstNotSpace(s, a, r);
  }

  lemma TrimWindow(s: string, a: string, r: string)
    requires a == TrimStart(s) && r == TrimEnd(a)
    ensures OccursAt(s, r, |s| - |a|)
  {
    PrefixOfSuffix(s, a, r);
  }

  /** What `TrimStart` and `TrimEnd` drop is white space. */
  lemma TrimDropsSpace(s: string, a: string, r: string)
    requires a == TrimStart(s) && r == TrimEnd(a)
    ensures AllSpace(s[..|s| - |a|]) && AllSpace(s[|s| - |a| + |r|..])
  {
    SuffixOfSuffix(s, a, |r|);
  }

  /** Dropping `n` more characters from a suffix of `s`. */
  lemma SuffixOfSuffix(s: string, a: string, n: int)
    requires 0 <= n <= |a| <= |s| && a == s[|s| - |a|..]
    ensures s[|s| - |a| + n..] == a[n..]
  {
  }

  /** A prefix of a suffix of `s` is a window of `s`. */
  lemma PrefixOfSuffix(s: string, a: string, r: string)
    requires |r| <= |a| <= |s| && a == s[|s| - |a|..] && r == a[..|r|]
    ensures OccursAt(s, r, |s| - |a|)
  {
  }

  lemma TrimEmptyWhenBlank(s: string, a: string, r: string)
    requires a == TrimStart(s) && r == TrimEnd(a)
    ensures r == [] ==> AllSpace(s)
  {
    if r == [] {
      assert a == s[|s| - |a|..];
      assert a[|r|..] == a;
      AllSpaceJoin(s, |s| - |a|, a);
    }
  }

  lemma TrimFirstNotSpace(s: string, a: string, r: string)
    requires a == TrimStart(s) && r == TrimEnd(a)
    ensures r != [] ==> !IsSpace(r[0]) && !AllSpace(s)
  {
    if r != [] {
      assert a == s[|s| - |a|..];
      assert r == a[..|r|];
      assert r[0] == a[0];
      assert s[|s| - |a|] == a[0];
    }
  }

  /** A string whose prefix up to `k` is space and whose suffix from `k` is
      space is space throughout. */
  lemma AllSpaceJoin(s: string, k: int, a: string)
    requires 0 <= k <= |s| && a == s[k..]
    requires AllSpace(s[..k]) && AllSpace(a)
    ensures AllSpace(s)
  {
    forall i | 0 <= i < |s| ensures IsSpace(s[i]) {
      if i < k {
        assert s[i] == s[..k][i];
      } else {
        assert s[i] == a[i - k];
      }
    }
  }

  /** Trimming a trimmed string changes nothing. */
  lemma {:induction false} TrimIdempotent(s: string)
    ensures Trim(Trim(s)) == Trim(s)
  {
    var t := Trim(s);
    if t != [] {
      assert TrimStart(t) == t;
      assert TrimEnd(t) == t;
    }
  }

  /** Per-character lower-casing: ASCII, Latin-1 and the Vietnamese letters of
      Latin Extended-A/B and Latin Extended Additional. */
  function LowerChar(c: char): char {
    if 'A' <= c <= 'Z' then (c as int + 32) as char
    else if '\U{00C0}' <= c <= '\U{00DE}' && c != '\U{00D7}' then (c as int + 32) as char
    else if '\U{0100}' <= c <= '\U{012F}' && (c as int) % 2 == 0 then (c as int + 1) as char
    else if c == '\U{0168}' || c == '\U{01A0}' then (c as int + 1) as char
    else if c == '\U{01AF}' then '\U{01B0}'
    else if '\U{1EA0}' <= c <= '\U{1EF8}' && (c as int) % 2 == 0 then (c as int + 1) as char
    else c
  }

  /** `s.toLowerCase()`, one character at a time. */
  function Lower(s: string): (r: string)
    ensures |r| == |s|
    ensures forall i :: 0 <= i < |s| ==> r[i] == LowerChar(s[i])
  {
    seq(|s|, i requires 0 <= i < |s| => LowerChar(s[i]))
  }

  /** A lower-cased character is left alone by a second lower-casing. */
  lemma LowerCharIdempotent(c: char)
    ensures LowerChar(LowerChar(c)) == LowerChar(c)
  {
  }

  /** Lower-casing is idempotent, so a query already in lower case is matched
      as typed. */
  lemma LowerIdempotent(s: string)
    ensures Lower(Lower(s)) == Lower(s)
  {
    forall i | 0 <= i < |s|
      ensures Lower(Lower(s))[i] == Lower(s)[i]
    {
      LowerCharIdempotent(s[i]);
    }
  }

  /** `needle` sits in `hay` starting at index `i`. */
  ghost predicate OccursAt(hay: string, needle: string, i: int) {
    0 <= i && i + |needle| <= |hay| && hay[i..i + |needle|] == needle
  }

  /** An occurrence in the tail is an occurrence one place later in the whole. */
  lemma OccursShift(hay: string, needle: string, i: int)
    requires |hay| > 0 && 0 <= i
    ensures OccursAt(hay[1..], needle, i) <==> OccursAt(hay, needle, i + 1)
  {
    if 0 <= i && i + |needle| <= |hay| - 1 {
      assert hay[1..][i..i + |needle|] == hay[i + 1..i + 1 + |needle|];
    }
  }

  /** `hay.includes(needle)`: some window of `hay` equals `needle`. */
  function Contains(hay: string, needle: string): (found: bool)
    ensures found <==> exists i :: OccursAt(hay, needle, i)
    decreases |hay|
  {
    if |needle| > |hay| then false
    else if hay[..|needle|] == needle then
      assert OccursAt(hay, needle, 0);
      true
    else
      var rest := Contains(hay[1..], needle);
      forall i | 0 <= i ensures OccursAt(hay[1..], needle, i) <==> OccursAt(hay, needle, i + 1) {
        OccursShift(hay, needle, i);
      }
      assert !OccursAt(hay, needle, 0);
      assert forall i :: OccursAt(hay, needle, i) ==> i == 0 || OccursAt(hay[1..], needle, i - 1);
      rest
  }

  /** A needle holding a character the haystack lacks is not contained in it. */
  lemma MissingCharNotContained(hay: string, needle: string, j: int)
    requires 0 <= j < |needle| && needle[j] !in hay
    ensures !Contains(hay, needle)
  {
  }
}
