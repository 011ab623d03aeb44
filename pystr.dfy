/**
 * The parts of Python's `str` semantics that main.py relies on: `str.isspace`,
 * `str.lower`, the substring test `sub in s`, `str.strip()`, `str.split(sep)`
 * and `sep.join(parts)`.
 */
module PyStr {
  import opened Wrappers

  /** Python's `str.isspace` for one character (the characters `str.strip()` removes). */
  predicate IsSpace(c: char) {
    c == ' ' || ('\t' <= c <= '\r') || ('\U{1C}' <= c <= '\U{1F}')
    || c == '\U{85}' || c == '\U{A0}' || c == '\U{1680}' || ('\U{2000}' <= c <= '\U{200A}')
    || c == '\U{2028}' || c == '\U{2029}' || c == '\U{202F}' || c == '\U{205F}' || c == '\U{3000}'
  }

  /** The capitals `str.lower` changes: ASCII and Latin-1 U+00C0..U+00DE, except the multiplication sign U+00D7. */
  predicate IsUpper(c: char) {
    'A' <= c <= 'Z' || ('\U{C0}' <= c <= '\U{DE}' && c != '\U{D7}')
  }

  /** Python's `str.lower` on one character, for ASCII and Latin-1. */
  function LowerChar(c: char): (r: char)
    ensures r != c <==> IsUpper(c)
    ensures !IsUpper(r)
    ensures IsSpace(r) <==> IsSpace(c)
  {
    if IsUpper(c) then (c as int + 32) as char else c
  }

  /**
   * `s.lower()`: the same length, no character left that `lower` would change,
   * and every other character kept as it is.
   */
  function Lower(s: string): (r: string)
    ensures |r| == |s|
    ensures forall k :: 0 <= k < |r| ==> !IsUpper(r[k])
    ensures forall k :: 0 <= k < |s| && !IsUpper(s[k]) ==> r[k] == s[k]
  {
    seq(|s|, i requires 0 <= i < |s| => LowerChar(s[i]))
  }

  lemma LowerIdempotent(s: string)
    ensures Lower(Lower(s)) == Lower(s)
  {
  }

  /** `sub` occurs in `s` starting at index `i`. */
  ghost predicate Occurs(s: string, sub: string, i: int) {
    0 <= i && i + |sub| <= |s| && s[i..i + |sub|] == sub
  }

  /** Python's `s.find(sub)`, with `None` for -1: the first index at which `sub` occurs. */
  function FindFirst(s: string, sub: string): (r: Option<nat>)
    ensures r.Some? ==> Occurs(s, sub, r.value)
    ensures r.Some? ==> forall j :: 0 <= j < r.value ==> !Occurs(s, sub, j)
    ensures r.None? ==> forall j :: !Occurs(s, sub, j)
    decreases |s|
  {
    if |sub| > |s| then None
    else if s[..|sub|] == sub then Some(0)
    else
      OccursTail(s, sub);
      match FindFirst(s[1..], sub)
      case None => None
      case Some(k) => Some(k + 1)
  }

  /** Occurrences in `s` past its first character are occurrences in `s[1..]`, shifted by one. */
  lemma OccursTail(s: string, sub: string)
    requires s != []
    ensures forall j :: 1 <= j ==> (Occurs(s, sub, j) <==> Occurs(s[1..], sub, j - 1))
  {
    forall j | 1 <= j
      ensures Occurs(s, sub, j) <==> Occurs(s[1..], sub, j - 1)
    {
      if j + |sub| <= |s| {
        assert s[1..] == s[1..|s|];
        SliceOfSlice(s, 1, |s|, j - 1, j - 1 + |sub|);
      }
    }
  }

  /** Python's `sub in s`: `sub` occurs somewhere in `s`. */
  predicate Contains(s: string, sub: string): (r: bool)
    ensures r <==> exists i :: Occurs(s, sub, i)
  {
    FindFirst(s, sub).Some?
  }

  lemma OccursContains(s: string, sub: string, i: int)
    requires Occurs(s, sub, i)
    ensures Contains(s, sub)
  {
  }

  lemma ContainsOccurs(s: string, sub: string) returns (i: nat)
    requires Contains(s, sub)
    ensures Occurs(s, sub, i)
  {
    i := FindFirst(s, sub).value;
  }

  /** An occurrence inside a slice is an occurrence in the whole string. */
  lemma OccursInSlice(s: string, a: int, b: int, sub: string, j: int)
    requires 0 <= a <= b <= |s|
    requires Occurs(s[a..b], sub, j)
    ensures Occurs(s, sub, a + j)
  {
    forall k | j <= k < j + |sub|
      ensures s[a..b][k] == s[a + k]
    {
    }
    assert s[a..b][j..j + |sub|] == s[a + j..a + j + |sub|];
  }

  /** An occurrence in the stripped text is one in the original text, after the leading whitespace. */
  lemma OccursUnstrip(s: string, sub: string, j: int)
    requires Occurs(Strip(s), sub, j)
    ensures Occurs(s, sub, LeadingSpaces(s) + j)
  {
    OccursInPiece(s, LeadingSpaces(s), Strip(s), sub, j);
  }

  lemma ContainsUnstrip(s: string, sub: string)
    requires Contains(Strip(s), sub)
    ensures Contains(s, sub)
  {
    var j := ContainsOccurs(Strip(s), sub);
    OccursUnstrip(s, sub, j);
    OccursContains(s, sub, LeadingSpaces(s) + j);
  }

  lemma OccursInPiece(s: string, a: int, r: string, sub: string, j: int)
    requires 0 <= a && a + |r| <= |s| && r == s[a..a + |r|]
    requires Occurs(r, sub, j)
    ensures Occurs(s, sub, a + j)
  {
    OccursInSlice(s, a, a + |r|, sub, j);
  }

  /** A string containing a character that `lower` changes never occurs in a string free of such characters. */
  lemma UpperNeverOccurs(s: string, sub: string, u: int)
    requires forall k :: 0 <= k < |s| ==> !IsUpper(s[k])
    requires 0 <= u < |sub| && IsUpper(sub[u])
    ensures !Contains(s, sub)
  {
    forall i | 0 <= i && i + |sub| <= |s|
      ensures !Occurs(s, sub, i)
    {
      assert s[i..i + |sub|][u] == s[i + u];
    }
  }

  /** The number of whitespace characters at the front of `s`. */
  function LeadingSpaces(s: string): (n: nat)
    ensures n <= |s|
    ensures forall k :: 0 <= k < n ==> IsSpace(s[k])
    ensures n < |s| ==> !IsSpace(s[n])
    decreases |s|
  {
    if s != [] && IsSpace(s[0]) then
      var m := LeadingSpaces(s[1..]);
      assert forall k :: 1 <= k < m + 1 ==> s[k] == s[1..][k - 1];
      m + 1
    else 0
  }

  /** The number of whitespace characters at the end of `s`. */
  function TrailingSpaces(s: string): (n: nat)
    ensures n <= |s|
    ensures forall k :: |s| - n <= k < |s| ==> IsSpace(s[k])
    ensures n < |s| ==> !IsSpace(s[|s| - n - 1])
    decreases |s|
  {
    if s != [] && IsSpace(s[|s| - 1]) then
      var m := TrailingSpaces(s[..|s| - 1]);
      assert forall k :: |s| - 1 - m <= k < |s| - 1 ==> s[k] == s[..|s| - 1][k];
      m + 1
    else 0
  }

  /**
   * Python's `s.strip()`: the slice of `s` that starts at its first
   * non-whitespace character, is followed only by whitespace and does not
   * itself end in whitespace.
   */
  function Strip(s: string): (r: string)
    ensures LeadingSpaces(s) + |r| <= |s|
    ensures r == s[LeadingSpaces(s)..LeadingSpaces(s) + |r|]
    ensures forall k :: LeadingSpaces(s) + |r| <= k < |s| ==> IsSpace(s[k])
    ensures r == [] || (!IsSpace(r[0]) && !IsSpace(r[|r| - 1]))
  {
    var a := LeadingSpaces(s);
    if a == |s| then
      ""
    else
      var e := |s| - TrailingSpaces(s);
      assert !IsSpace(s[a]);
      s[a..e]
  }

  /**
   * An occurrence that neither starts nor ends with whitespace survives
   * stripping, shifted by the removed leading whitespace.
   */
  lemma OccursStrip(s: string, sub: string, i: int)
    requires Occurs(s, sub, i) && sub != []
    requires !IsSpace(sub[0]) && !IsSpace(sub[|sub| - 1])
    ensures Occurs(Strip(s), sub, i - LeadingSpaces(s))
  {
    OccursInTrimmed(s, LeadingSpaces(s), Strip(s), sub, i);
  }

  /** The same, for any slice `r` of `s` with only whitespace around it. */
  lemma OccursInTrimmed(s: string, a: int, r: string, sub: string, i: int)
    requires 0 <= a && a + |r| <= |s| && r == s[a..a + |r|]
    requires forall k :: 0 <= k < a ==> IsSpace(s[k])
    requires forall k :: a + |r| <= k < |s| ==> IsSpace(s[k])
    requires Occurs(s, sub, i) && sub != []
    requires !IsSpace(sub[0]) && !IsSpace(sub[|sub| - 1])
    ensures Occurs(r, sub, i - a)
  {
    OccursChar(s, sub, i, 0);
    OccursChar(s, sub, i, |sub| - 1);
    OccursInWindow(s, a, a + |r|, sub, i);
  }

  /** An occurrence lying inside `s[a..b]` is an occurrence there, shifted by `a`. */
  lemma OccursInWindow(s: string, a: int, b: int, sub: string, i: int)
    requires Occurs(s, sub, i) && 0 <= a <= i && i + |sub| <= b <= |s|
    ensures Occurs(s[a..b], sub, i - a)
  {
    SliceOfSlice(s, a, b, i - a, i - a + |sub|);
  }

  lemma OccursChar(s: string, sub: string, i: int, k: int)
    requires Occurs(s, sub, i) && 0 <= k < |sub|
    ensures s[i + k] == sub[k]
  {
    assert s[i..i + |sub|][k] == s[i + k];
  }

  lemma SliceOfSlice(s: string, a: int, b: int, i: int, j: int)
    requires 0 <= a <= b <= |s| && 0 <= i <= j <= b - a
    ensures s[a..b][i..j] == s[a + i..a + j]
  {
    forall k | 0 <= k < j - i
      ensures s[a..b][i..j][k] == s[a + i..a + j][k]
    {
    }
  }

  /**
   * Python's `s.split(sep)` for a non-empty separator: the pieces between the
   * non-overlapping occurrences of `sep`, found left to right.
   */
  function Split(s: string, sep: string): (parts: seq<string>)
    requires sep != []
    ensures |parts| >= 1
    ensures forall k :: 0 <= k < |parts| ==> !Contains(parts[k], sep)
    decreases |s|
  {
    match FindFirst(s, sep)
    case None => [s]
    case Some(i) =>
      FirstOccurrenceCut(s, sep, i);
      var tail := Split(s[i + |sep|..], sep);
      assert forall k :: 1 <= k < |tail| + 1 ==> ([s[..i]] + tail)[k] == tail[k - 1];
      [s[..i]] + tail
  }

  /** Python's `sep.join(parts)`. */
  function Join(sep: string, parts: seq<string>): (r: string)
    ensures parts != [] ==> |parts[0]| <= |r| && r[..|parts[0]|] == parts[0]
    ensures |parts| >= 2 ==> Occurs(r, sep, |parts[0]|)
  {
    if parts == [] then ""
    else if |parts| == 1 then parts[0]
    else
      var r := parts[0] + sep + Join(sep, parts[1..]);
      assert r[|parts[0]|..|parts[0]| + |sep|] == sep;
      r
  }

  lemma JoinCons(sep: string, x: string, parts: seq<string>)
    requires parts != []
    ensures Join(sep, [x] + parts) == x + sep + Join(sep, parts)
  {
    assert ([x] + parts)[1..] == parts;
  }

  /** An occurrence cuts `s` into the text before it, `sub` and the text after it. */
  lemma OccurrenceCut(s: string, sub: string, i: int)
    requires Occurs(s, sub, i)
    ensures s[..i] + sub + s[i + |sub|..] == s
  {
    assert s == s[..i] + s[i..i + |sub|] + s[i + |sub|..];
  }

  /** Joining the pieces of a split with its separator gives back the string. */
  lemma {:induction false} JoinSplit(s: string, sep: string)
    requires sep != []
    ensures Join(sep, Split(s, sep)) == s
    decreases |s|
  {
    match FindFirst(s, sep)
    case None =>
    case Some(i) =>
      var rest := s[i + |sep|..];
      JoinSplit(rest, sep);
      JoinCons(sep, s[..i], Split(rest, sep));
      OccurrenceCut(s, sep, i);
  }

  /**
   * When `sep` occurs, the split has at least two pieces: the text before the
   * first occurrence, and pieces that join back to everything after it.
   */
  lemma SplitAtFirst(s: string, sep: string, i: nat)
    requires sep != [] && FindFirst(s, sep) == Some(i)
    ensures |Split(s, sep)| >= 2
    ensures Split(s, sep)[0] == s[..i]
    ensures Join(sep, Split(s, sep)[1..]) == s[i + |sep|..]
  {
    var rest := s[i + |sep|..];
    var tail := Split(rest, sep);
    SplitUnfold(s, sep, i);
    JoinSplit(rest, sep);
    assert ([s[..i]] + tail)[1..] == tail;
  }

  lemma SplitUnfold(s: string, sep: string, i: nat)
    requires sep != [] && FindFirst(s, sep) == Some(i)
    ensures Split(s, sep) == [s[..i]] + Split(s[i + |sep|..], sep)
  {
  }

  /**
   * The first occurrence of `sep` cuts `s` into a prefix free of `sep`, the
   * separator and the rest.
   */
  lemma FirstOccurrenceCut(s: string, sep: string, i: nat)
    requires sep != [] && FindFirst(s, sep) == Some(i)
    ensures s[..i] + sep + s[i + |sep|..] == s
    ensures !Contains(s[..i], sep)
  {
    OccurrenceCut(s, sep, i);
    var pre := s[..i];
    forall j | 0 <= j && j + |sep| <= i
      ensures !Occurs(pre, sep, j)
    {
      assert j < i;
      assert !Occurs(s, sep, j);
      SliceOfPrefix(s, i, j, j + |sep|);
    }
    NowhereNotContains(pre, sep);
  }

  lemma SliceOfPrefix(s: string, i: int, a: int, b: int)
    requires 0 <= a <= b <= i <= |s|
    ensures s[..i][a..b] == s[a..b]
  {
  }

  lemma NowhereNotContains(s: string, sub: string)
    requires forall j :: !Occurs(s, sub, j)
    ensures !Contains(s, sub)
  {
  }
}
