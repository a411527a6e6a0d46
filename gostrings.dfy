/**
 * The few functions of Go's `strings` and `unicode` packages that the handlers call,
 * over strings of Unicode scalar values.
 */
module GoStrings {
  import opened Wrappers

  /** unicode.IsSpace: the Unicode White_Space code points, exactly as Go lists them. */
  predicate IsSpace(c: char) {
    c == '\t' || c == '\n' || c == '\U{000B}' || c == '\U{000C}' || c == '\r' || c == ' '
    || c == '\U{0085}' || c == '\U{00A0}' || c == '\U{1680}'
    || ('\U{2000}' <= c <= '\U{200A}')
    || c == '\U{2028}' || c == '\U{2029}' || c == '\U{202F}' || c == '\U{205F}' || c == '\U{3000}'
  }

  predicate AllSpace(s: string) {
    forall i :: 0 <= i < |s| ==> IsSpace(s[i])
  }

  /** Neither the first nor the last character of `s` is white space. */
  predicate Trimmed(s: string) {
    s == [] || (!IsSpace(s[0]) && !IsSpace(s[|s| - 1]))
  }

  /** Every character of `s` from `lo` up to `hi` is white space. */
  predicate SpaceBetween(s: string, lo: nat, hi: nat)
    requires lo <= hi <= |s|
  {
    forall k :: lo <= k < hi ==> IsSpace(s[k])
  }

  /** The first position from `i` on that does not hold white space (`|s|` if none). */
  function TrimStart(s: string, i: nat): (lo: nat)
    requires i <= |s|
    ensures i <= lo <= |s| && SpaceBetween(s, i, lo)
    ensures lo < |s| ==> !IsSpace(s[lo])
    decreases |s| - i
  {
    if i < |s| && IsSpace(s[i]) then TrimStart(s, i + 1) else i
  }

  /** The end of `s[lo..j]` once its trailing white space is dropped. */
  function TrimStop(s: string, lo: nat, j: nat): (hi: nat)
    requires lo <= j <= |s|
    ensures lo <= hi <= j && SpaceBetween(s, hi, j)
    ensures hi > lo ==> !IsSpace(s[hi - 1])
    decreases j
  {
    if j > lo && IsSpace(s[j - 1]) then TrimStop(s, lo, j - 1) else j
  }

  /**
   * strings.TrimSpace: `s` from its first to its last character that is not white
   * space. The result neither starts nor ends with white space.
   */
  function TrimSpace(s: string): (r: string)
    ensures Trimmed(r)
  {
    var lo := TrimStart(s, 0);
    s[lo..TrimStop(s, lo, |s|)]
  }

  /** TrimSpace gives the empty string exactly when `s` is all white space. */
  lemma TrimSpaceEmpty(s: string)
    ensures TrimSpace(s) == [] <==> AllSpace(s)
  {
  }

  /** TrimSpace removes only white space, and only from the two ends of `s`. */
  lemma TrimSpacePiece(s: string) returns (i: nat)
    ensures i + |TrimSpace(s)| <= |s|
    ensures s[i..i + |TrimSpace(s)|] == TrimSpace(s)
    ensures SpaceBetween(s, 0, i) && SpaceBetween(s, i + |TrimSpace(s)|, |s|)
  {
    i := TrimStart(s, 0);
  }

  /** ASCII upper-casing (unicode.ToTitle agrees with it on ASCII letters). */
  function UpperChar(c: char): char {
    if 'a' <= c <= 'z' then (c as int - 32) as char else c
  }

  /** ASCII lower-casing (unicode.ToLower agrees with it on ASCII letters). */
  function LowerChar(c: char): char {
    if 'A' <= c <= 'Z' then (c as int + 32) as char else c
  }

  /** strings.ToLower, on ASCII letters. */
  function ToLower(s: string): string {
    seq(|s|, i requires 0 <= i < |s| => LowerChar(s[i]))
  }

  /**
   * The word-boundary test of strings.Title. ASCII letters, digits and `_` continue a
   * word and every other ASCII character separates words; beyond ASCII Go separates
   * on white space only (a letter or digit is never white space).
   */
  predicate IsSeparator(c: char) {
    if c <= '\U{007F}' then
      !(('0' <= c <= '9') || ('a' <= c <= 'z') || ('A' <= c <= 'Z') || c == '_')
    else
      IsSpace(c)
  }

  /**
   * strings.Title: a character is upper-cased when it starts the string or follows a
   * separator, so "data-id" becomes "Data-Id".
   */
  function Title(s: string): string {
    seq(|s|, i requires 0 <= i < |s| => if i == 0 || IsSeparator(s[i - 1]) then UpperChar(s[i]) else s[i])
  }

  /** Each word of an attribute name is capitalised: "data-id" becomes "Data-Id". */
  lemma TitleExample()
    ensures Title("data-id") == "Data-Id"
  {
  }

  /** Upper-casing one character keeps it up to case and leaves no lower-case ASCII letter. */
  lemma UpperCharCaseOnly(c: char)
    ensures LowerChar(UpperChar(c)) == LowerChar(c)
    ensures !('a' <= UpperChar(c) <= 'z')
  {
  }

  /**
   * strings.Title changes letter case only: the length and the lower-cased string are
   * kept, and no word starts with a lower-case ASCII letter.
   */
  lemma TitleChangesCaseOnly(s: string)
    ensures |Title(s)| == |s|
    ensures ToLower(Title(s)) == ToLower(s)
    ensures forall i :: 0 <= i < |s| && (i == 0 || IsSeparator(s[i - 1])) ==> !('a' <= Title(s)[i] <= 'z')
  {
    var t := Title(s);
    forall i | 0 <= i < |s|
      ensures LowerChar(t[i]) == LowerChar(s[i])
      ensures (i == 0 || IsSeparator(s[i - 1])) ==> !('a' <= t[i] <= 'z')
    {
      UpperCharCaseOnly(s[i]);
    }
    assert ToLower(t) == ToLower(s) by {
      forall i | 0 <= i < |s|
        ensures ToLower(t)[i] == ToLower(s)[i]
      {
      }
    }
  }

  /** The position of the first `c` in `s`, if there is one. */
  function IndexOf(s: string, c: char): (r: Option<nat>)
    ensures r.None? <==> c !in s
    ensures r.Some? ==> r.value < |s| && s[r.value] == c && c !in s[..r.value]
  {
    if |s| == 0 then None
    else if s[0] == c then Some(0)
    else match IndexOf(s[1..], c)
      case None => None
      case Some(k) => assert s[..k + 1] == [s[0]] + s[1..][..k]; Some(k + 1)
  }

  /**
   * strings.Split with a one-character separator: the pieces between the separators,
   * in order; a string without the separator (the empty string included) is one piece.
   */
  function Split(s: string, sep: char): (parts: seq<string>)
    ensures |parts| >= 1
    ensures forall k :: 0 <= k < |parts| ==> sep !in parts[k]
    decreases |s|
  {
    match IndexOf(s, sep)
    case None => [s]
    case Some(i) => [s[..i]] + Split(s[i + 1..], sep)
  }

  /** strings.Join with a one-character separator. */
  function Join(parts: seq<string>, sep: char): string {
    if |parts| == 0 then "" else if |parts| == 1 then parts[0] else parts[0] + [sep] + Join(parts[1..], sep)
  }

  /** Joining the pieces of a split with the same separator gives the original string. */
  lemma {:induction false} JoinSplit(s: string, sep: char)
    ensures Join(Split(s, sep), sep) == s
    decreases |s|
  {
    match IndexOf(s, sep)
    case None =>
    case Some(i) =>
      var rest := s[i + 1..];
      var tail := Split(rest, sep);
      JoinSplit(rest, sep);
      assert Split(s, sep) == [s[..i]] + tail;
      assert ([s[..i]] + tail)[1..] == tail;
      assert Join([s[..i]] + tail, sep) == s[..i] + [sep] + Join(tail, sep);
      assert s == s[..i] + [sep] + rest;
  }

  /**
   * strings.SplitN(s, sep, 2) with a one-character separator: the whole string when it
   * has no separator, otherwise the text before the first separator and everything
   * after it, which may itself hold further separators.
   */
  function SplitN2(s: string, sep: char): (parts: seq<string>)
    ensures 1 <= |parts| <= 2
    ensures |parts| == 2 <==> sep in s
    ensures |parts| == 1 ==> parts[0] == s
    ensures |parts| == 2 ==> parts[0] + [sep] + parts[1] == s && sep !in parts[0]
  {
    match IndexOf(s, sep)
    case None => [s]
    case Some(i) => assert s == s[..i] + [sep] + s[i + 1..]; [s[..i], s[i + 1..]]
  }
}
