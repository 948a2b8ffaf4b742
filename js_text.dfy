/**
 * The parts of JavaScript's string semantics that the application relies on:
 * the characters `\s` matches and `trim()` removes, `substring`, `padStart`,
 * `indexOf`, `split(sep)[1]`, and the regex character classes used by the
 * input validators.
 */
module JsText {
  import opened Common

  /**
   * ECMAScript WhiteSpace and LineTerminator code points: exactly the
   * characters that the regex class `\s` matches and that `String.prototype.trim`
   * removes from both ends.
   */
  predicate IsJsSpace(c: char) {
    var n := c as int;
    n == 0x09 || n == 0x0A || n == 0x0B || n == 0x0C || n == 0x0D || n == 0x20
    || n == 0xA0 || n == 0x1680 || (0x2000 <= n <= 0x200A) || n == 0x2028
    || n == 0x2029 || n == 0x202F || n == 0x205F || n == 0x3000 || n == 0xFEFF
  }

  predicate AllSpace(s: string) {
    forall k | 0 <= k < |s| :: IsJsSpace(s[k])
  }

  /** Regex class `[a-zA-Z0-9_]`. */
  predicate IsWordChar(c: char) {
    ('a' <= c <= 'z') || ('A' <= c <= 'Z') || ('0' <= c <= '9') || c == '_'
  }

  /** Regex class `\d` (ASCII digits only, as in JavaScript without the `u` flag). */
  predicate IsDigit(c: char) {
    '0' <= c <= '9'
  }

  /** Regex class `[a-fA-F0-9]`. */
  predicate IsHexDigit(c: char) {
    ('0' <= c <= '9') || ('a' <= c <= 'f') || ('A' <= c <= 'F')
  }

  predicate IsAsciiAlnum(c: char) {
    ('a' <= c <= 'z') || ('A' <= c <= 'Z') || ('0' <= c <= '9')
  }

  /** A hand-written scan for `[a-zA-Z0-9_]*`. */
  predicate IsWordRun(s: string) {
    s == [] || (IsWordChar(s[0]) && IsWordRun(s[1..]))
  }

  lemma {:induction false} WordRunAll(s: string)
    ensures IsWordRun(s) <==> forall k | 0 <= k < |s| :: IsWordChar(s[k])
  {
    if s != [] {
      WordRunAll(s[1..]);
      assert forall k | 1 <= k < |s| :: s[k] == s[1..][k - 1];
    }
  }

  /** The number of white-space characters at the start of `s`. */
  function LeadingSpace(s: string): (n: nat)
    ensures n <= |s|
    ensures forall k | 0 <= k < n :: IsJsSpace(s[k])
    ensures n < |s| ==> !IsJsSpace(s[n])
  {
    if s != [] && IsJsSpace(s[0]) then
      var n := LeadingSpace(s[1..]);
      assert forall k | 1 <= k < n + 1 :: s[k] == s[1..][k - 1];
      n + 1
    else 0
  }

  /** The length of `s` without the white space at its end. */
  function TrailingStart(s: string): (n: nat)
    ensures n <= |s|
    ensures forall k | n <= k < |s| :: IsJsSpace(s[k])
    ensures n > 0 ==> !IsJsSpace(s[n - 1])
  {
    if s != [] && IsJsSpace(s[|s| - 1]) then TrailingStart(s[..|s| - 1]) else |s|
  }

  /** Removes leading white space (`trimStart`). */
  function TrimStart(s: string): (r: string)
    ensures |r| <= |s| && r == s[|s| - |r|..]
    ensures AllSpace(s[..|s| - |r|])
    ensures r != [] ==> !IsJsSpace(r[0])
  {
    s[LeadingSpace(s)..]
  }

  /** Removes trailing white space (`trimEnd`). */
  function TrimEnd(s: string): (r: string)
    ensures |r| <= |s| && r == s[..|r|]
    ensures AllSpace(s[|r|..])
    ensures r != [] ==> !IsJsSpace(r[|r| - 1])
  {
    s[..TrailingStart(s)]
  }

  /** `String.prototype.trim`. */
  function Trim(s: string): (r: string)
    ensures |r| <= |s|
    ensures r != [] ==> !IsJsSpace(r[0]) && !IsJsSpace(r[|r| - 1])
  {
    TrimEnd(TrimStart(s))
  }

  /**
   * Reference meaning of trimming: `r` is a contiguous slice of `s` with only
   * white space around it, and it neither starts nor ends with white space.
   */
  ghost predicate IsTrimOf(s: string, r: string) {
    exists i | 0 <= i <= |s| - |r| ::
      && s[i..i + |r|] == r
      && AllSpace(s[..i])
      && AllSpace(s[i + |r|..])
      && (r != [] ==> !IsJsSpace(r[0]) && !IsJsSpace(r[|r| - 1]))
  }

  lemma TrimMeetsReference(s: string)
    ensures IsTrimOf(s, Trim(s))
  {
    var t := TrimStart(s);
    var r := TrimEnd(t);
    var i := |s| - |t|;
    assert s[i..] == t;
    assert s[i..i + |r|] == r;
    assert s[i + |r|..] == t[|r|..];
    assert AllSpace(s[..i]) && AllSpace(s[i + |r|..]);
    assert r == Trim(s);
  }

  /** Trimming yields the empty string exactly for white-space-only input. */
  lemma TrimEmptyIff(s: string)
    ensures Trim(s) == [] <==> AllSpace(s)
  {
    var t := TrimStart(s);
    if Trim(s) == [] {
      assert t[0..] == t;
      assert t == [];
      assert s[..|s|] == s;
    } else {
      var r := Trim(s);
      assert r[0] == t[0] == s[|s| - |t|];
    }
  }

  /** `!s.trim()`: trimming leaves the empty string, which is exactly white space alone. */
  function IsBlank(s: string): (b: bool)
    ensures b <==> AllSpace(s)
  {
    TrimEmptyIff(s);
    Trim(s) == []
  }

  /** A string without white space at either end is its own trim. */
  lemma TrimIdentity(s: string)
    requires s != [] ==> !IsJsSpace(s[0]) && !IsJsSpace(s[|s| - 1])
    ensures Trim(s) == s
  {
  }

  lemma TrimIdempotent(s: string)
    ensures Trim(Trim(s)) == Trim(s)
  {
    TrimIdentity(Trim(s));
  }

  /** Clamps a JavaScript string index into `[0, len]`. */
  function Clamp(i: int, len: nat): (r: nat)
    ensures r <= len
  {
    if i < 0 then 0 else if i > len then len else i
  }

  /** `s.substring(start, end)`: both ends are clamped and swapped if reversed. */
  function Substring(s: string, start: int, end: int): (r: string)
    ensures |r| == Max(Clamp(start, |s|), Clamp(end, |s|)) - Min(Clamp(start, |s|), Clamp(end, |s|))
  {
    var a, b := Clamp(start, |s|), Clamp(end, |s|);
    s[Min(a, b)..Max(a, b)]
  }

  /** `s.substring(start)`. */
  function SubstringFrom(s: string, start: int): (r: string)
    ensures r == s[Clamp(start, |s|)..]
  {
    Substring(s, start, |s|)
  }

  function Repeat(c: char, n: nat): (r: string)
    ensures |r| == n && forall k | 0 <= k < n :: r[k] == c
  {
    if n == 0 then [] else [c] + Repeat(c, n - 1)
  }

  /** `s.padStart(n, [c])`: never truncates. */
  function PadStart(s: string, n: nat, c: char): (r: string)
    ensures |s| >= n ==> r == s
    ensures |s| < n ==> r == Repeat(c, n - |s|) + s
    ensures |r| == Max(n, |s|)
  {
    if |s| >= n then s else Repeat(c, n - |s|) + s
  }

  /** `s.indexOf(c)`, with `None` for -1. */
  function IndexOf(s: string, c: char): (r: Option<nat>)
    ensures r.Some? ==> r.value < |s| && s[r.value] == c && forall k | 0 <= k < r.value :: s[k] != c
    ensures r.None? ==> forall k | 0 <= k < |s| :: s[k] != c
  {
    if s == [] then None
    else if s[0] == c then Some(0)
    else match IndexOf(s[1..], c)
      case None => None
      case Some(i) => Some(i + 1)
  }

  /**
   * `s.split(sep)[1]`: the piece between the first and the second separator
   * (or the end); `None` stands for `undefined` when there is no separator.
   */
  function SplitSecond(s: string, sep: char): (r: Option<string>)
    ensures r.None? <==> sep !in s
  {
    match IndexOf(s, sep)
    case None => None
    case Some(i) =>
      var rest := s[i + 1..];
      match IndexOf(rest, sep)
      case None => Some(rest)
      case Some(j) => Some(rest[..j])
  }
}
