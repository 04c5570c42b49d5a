/** String primitives of the extension, in JavaScript's terms: `endsWith`,
    `includes`, `slice(-n)`, `lastIndexOf`, `startsWith`, `trim` and an ASCII
    `toLowerCase`. Strings are sequences of characters. */
module Text {
  import opened Opt

  /** `s.endsWith(suffix)`; every string ends with the empty string. */
  predicate EndsWith(s: string, suffix: string) {
    |suffix| <= |s| && s[|s| - |suffix|..] == suffix
  }

  /** `s.startsWith(prefix)`. */
  predicate StartsWith(s: string, prefix: string) {
    |prefix| <= |s| && s[..|prefix|] == prefix
  }

  /** `part` occurs in `s` starting at position `i`. */
  predicate OccursAt(s: string, part: string, i: int) {
    0 <= i && i + |part| <= |s| && s[i..i + |part|] == part
  }

  /** `s.includes(part)`. */
  predicate Includes(s: string, part: string) {
    exists i | 0 <= i <= |s| :: OccursAt(s, part, i)
  }

  /** `s.slice(-n)` for a positive literal `n`: the last `n` characters of `s`,
      or all of `s` when it is shorter. */
  function KeepLast(s: string, n: nat): (r: string)
    requires n > 0
    ensures EndsWith(s, r)
    ensures |r| == if |s| < n then |s| else n
  {
    if |s| <= n then s else s[|s| - n..]
  }

  /** `buffer += key; if (buffer.length > cap) buffer = buffer.slice(-cap)`:
      the rolling buffers of both contexts. */
  function AppendBounded(buffer: string, key: string, cap: nat): (r: string)
    requires cap > 0
    ensures |r| <= cap
    ensures EndsWith(buffer + key, r)
    ensures |buffer + key| <= cap ==> r == buffer + key
    ensures |buffer + key| > cap ==> |r| == cap
  {
    var b := buffer + key;
    if |b| > cap then KeepLast(b, cap) else b
  }

  /** A suffix of a suffix is a suffix. */
  lemma EndsWithTransitive(a: string, b: string, c: string)
    requires EndsWith(a, b) && EndsWith(b, c)
    ensures EndsWith(a, c)
  {
    assert a[|a| - |c|..] == b[|b| - |c|..];
  }

  // ---------------------------------------------------------------------------
  // Lower-casing. JavaScript's `toLowerCase` follows Unicode case mapping; this
  // model lowers the ASCII letters A-Z only.

  function LowerChar(c: char): char {
    if 'A' <= c <= 'Z' then (c as int + 32) as char else c
  }

  function Lower(s: string): (r: string)
    ensures |r| == |s|
    ensures forall i :: 0 <= i < |s| ==> r[i] == LowerChar(s[i])
  {
    seq(|s|, i requires 0 <= i < |s| => LowerChar(s[i]))
  }

  /** Lower-casing commutes with taking a slice. */
  lemma LowerSlice(s: string, i: int, j: int)
    requires 0 <= i <= j <= |s|
    ensures Lower(s)[i..j] == Lower(s[i..j])
  {
  }

  /** A case-sensitive suffix is also a case-insensitive one. */
  lemma EndsWithLower(s: string, suffix: string)
    requires EndsWith(s, suffix)
    ensures EndsWith(Lower(s), Lower(suffix))
  {
    LowerSlice(s, |s| - |suffix|, |s|);
  }

  // ---------------------------------------------------------------------------
  // lastIndexOf

  /** `p` is the greatest position at which `part` occurs in `s`. */
  ghost predicate IsLastOccurrence(s: string, part: string, p: int) {
    OccursAt(s, part, p) && forall q :: p < q ==> !OccursAt(s, part, q)
  }

  /** Scans positions `p`, `p - 1`, ..., 0 for an occurrence of `part`. */
  function LastIndexFrom(s: string, part: string, p: nat): (r: Option<nat>)
    ensures r.Some? ==> r.value <= p && OccursAt(s, part, r.value)
    ensures r.Some? ==> forall q :: r.value < q <= p ==> !OccursAt(s, part, q)
    ensures r.None? ==> forall q :: 0 <= q <= p ==> !OccursAt(s, part, q)
  {
    if OccursAt(s, part, p) then Some(p)
    else if p == 0 then None
    else LastIndexFrom(s, part, p - 1)
  }

  /** `s.lastIndexOf(part)`, with `None` for JavaScript's -1. */
  function LastIndexOf(s: string, part: string): (r: Option<nat>)
    ensures r.Some? ==> IsLastOccurrence(s, part, r.value)
    ensures r.None? <==> !Includes(s, part)
  {
    if |part| > |s| then None else LastIndexFrom(s, part, |s| - |part|)
  }

  // ---------------------------------------------------------------------------
  // trim

  /** The characters `String.prototype.trim` removes: ECMAScript WhiteSpace
      (tab, vertical tab, form feed, space, no-break space, byte order mark and
      the Unicode space separators) and LineTerminator. */
  predicate IsWhitespace(c: char) {
    || c == '\t' || c == '\U{000B}' || c == '\U{000C}' || c == ' ' || c == '\U{00A0}' || c == '\U{FEFF}'
    || c == '\n' || c == '\r' || c == '\U{2028}' || c == '\U{2029}'
    || c == '\U{1680}' || ('\U{2000}' <= c <= '\U{200A}') || c == '\U{202F}' || c == '\U{205F}' || c == '\U{3000}'
  }

  function TrimStart(s: string): (r: string)
    ensures EndsWith(s, r)
    ensures |r| > 0 ==> !IsWhitespace(r[0])
    ensures forall i :: 0 <= i < |s| - |r| ==> IsWhitespace(s[i])
  {
    if |s| > 0 && IsWhitespace(s[0]) then TrimStart(s[1..]) else s
  }

  function TrimEnd(s: string): (r: string)
    ensures StartsWith(s, r)
    ensures |r| > 0 ==> !IsWhitespace(r[|r| - 1])
    ensures forall i :: |r| <= i < |s| ==> IsWhitespace(s[i])
  {
    if |s| > 0 && IsWhitespace(s[|s| - 1]) then TrimEnd(s[..|s| - 1]) else s
  }

  /** `s.trim()`: drops leading and trailing whitespace, and only that. */
  function Trim(s: string): (r: string)
    ensures |r| > 0 ==> !IsWhitespace(r[0]) && !IsWhitespace(r[|r| - 1])
    ensures exists i :: OccursAt(s, r, i)
              && (forall k :: 0 <= k < i ==> IsWhitespace(s[k]))
              && (forall k :: i + |r| <= k < |s| ==> IsWhitespace(s[k]))
  {
    var t := TrimStart(s);
    var r := TrimEnd(t);
    TrimmedInfix(s, t, r);
    r
  }

  /** Stripping whitespace off the front of `s` (giving `t`), then off the back
      of `t` (giving `r`), leaves `r` as an infix of `s` with only whitespace
      around it. */
  lemma TrimmedInfix(s: string, t: string, r: string)
    requires EndsWith(s, t) && forall k :: 0 <= k < |s| - |t| ==> IsWhitespace(s[k])
    requires StartsWith(t, r) && forall k :: |r| <= k < |t| ==> IsWhitespace(t[k])
    ensures exists i :: OccursAt(s, r, i)
              && (forall k :: 0 <= k < i ==> IsWhitespace(s[k]))
              && (forall k :: i + |r| <= k < |s| ==> IsWhitespace(s[k]))
  {
    var i := |s| - |t|;
    assert s[i..i + |r|] == t[..|r|];
    assert OccursAt(s, r, i);
    forall k | i + |r| <= k < |s| ensures IsWhitespace(s[k]) {
      assert s[k] == t[k - i];
    }
  }

  /** A string without surrounding whitespace is its own trim. */
  lemma TrimUnchanged(s: string)
    requires |s| > 0 ==> !IsWhitespace(s[0]) && !IsWhitespace(s[|s| - 1])
    ensures Trim(s) == s
  {
  }

  /** Trimming twice is trimming once. */
  lemma TrimIdempotent(s: string)
    ensures Trim(Trim(s)) == Trim(s)
  {
    TrimUnchanged(Trim(s));
  }
}
