/**
 * The Python `str` operations the build script relies on, on `seq<char>`:
 * the whitespace test behind `\s`, `str.strip` and `str.split`, `str.split("\n")`,
 * `str.splitlines`, `str.find`, `str.startswith`, `str.removesuffix`,
 * `sep.join` and slicing with a possibly negative end.
 */
module PyText {

  /** Python's whitespace set for `str` (what `\s`, `isspace`, `strip()` and `split()` use). */
  predicate IsSpace(c: char) {
    || ('\t' <= c <= '\r')
    || ('\U{1c}' <= c <= ' ')
    || c == '\U{85}' || c == '\U{a0}' || c == '\U{1680}'
    || ('\U{2000}' <= c <= '\U{200a}')
    || c == '\U{2028}' || c == '\U{2029}' || c == '\U{202f}' || c == '\U{205f}' || c == '\U{3000}'
  }

  /** The characters at which `str.splitlines` ends a line. */
  predicate IsLineBreak(c: char) {
    || c == '\n' || c == '\r' || c == '\U{0b}' || c == '\U{0c}'
    || ('\U{1c}' <= c <= '\U{1e}')
    || c == '\U{85}' || c == '\U{2028}' || c == '\U{2029}'
  }

  predicate IsAsciiDigit(c: char) {
    '0' <= c <= '9'
  }

  predicate AllNonSpace(t: string) {
    forall i :: 0 <= i < |t| ==> !IsSpace(t[i])
  }

  predicate AllSpace(t: string) {
    forall i :: 0 <= i < |t| ==> IsSpace(t[i])
  }

  predicate AllDigits(t: string) {
    forall i :: 0 <= i < |t| ==> IsAsciiDigit(t[i])
  }

  /** `sub` occurs in `s` at index `i`. */
  predicate OccursAt(s: string, sub: string, i: nat) {
    i + |sub| <= |s| && s[i..i + |sub|] == sub
  }

  /** Number of leading non-whitespace characters. */
  function TokenLen(t: string): (n: nat)
    ensures n <= |t| && AllNonSpace(t[..n])
    ensures n < |t| ==> IsSpace(t[n])
  {
    if t == [] || IsSpace(t[0]) then 0
    else
      var n := 1 + TokenLen(t[1..]);
      assert t[..n] == [t[0]] + t[1..][..n - 1];
      n
  }

  /** `str.split()` with no argument: the maximal runs of non-whitespace, in order. */
  function Fields(t: string): (fs: seq<string>)
    ensures forall k :: 0 <= k < |fs| ==> |fs[k]| > 0 && AllNonSpace(fs[k])
    decreases |t|
  {
    if t == [] then []
    else if IsSpace(t[0]) then Fields(t[1..])
    else [t[..TokenLen(t)]] + Fields(t[TokenLen(t)..])
  }

  /** Number of characters before the first `\n` (all of `t` if there is none). */
  function LineLen(t: string): (n: nat)
    ensures n <= |t| && '\n' !in t[..n]
    ensures n < |t| ==> t[n] == '\n'
  {
    if t == [] || t[0] == '\n' then 0
    else
      var n := 1 + LineLen(t[1..]);
      assert t[..n] == [t[0]] + t[1..][..n - 1];
      n
  }

  /** `t.split("\n")`: the pieces between newlines; there is always at least one. */
  function Lines(t: string): (ls: seq<string>)
    ensures |ls| >= 1
    decreases |t|
  {
    var n := LineLen(t);
    if n == |t| then [t] else [t[..n]] + Lines(t[n + 1..])
  }

  /** `sep.join(parts)`. */
  function JoinWith(parts: seq<string>, sep: string): string {
    if parts == [] then ""
    else if |parts| == 1 then parts[0]
    else parts[0] + sep + JoinWith(parts[1..], sep)
  }

  /** Splitting on newlines undoes joining with them, so a written config reads back line by line. */
  lemma {:induction false} LinesOfJoin(parts: seq<string>)
    requires |parts| >= 1
    requires forall k :: 0 <= k < |parts| ==> '\n' !in parts[k]
    ensures Lines(JoinWith(parts, "\n")) == parts
    decreases |parts|
  {
    var t := JoinWith(parts, "\n");
    LineLenOf(parts[0], if |parts| == 1 then "" else "\n" + JoinWith(parts[1..], "\n"));
    if |parts| > 1 {
      assert t == parts[0] + ("\n" + JoinWith(parts[1..], "\n"));
      assert t[|parts[0]| + 1..] == JoinWith(parts[1..], "\n");
      LinesOfJoin(parts[1..]);
      assert Lines(t) == [parts[0]] + parts[1..];
    } else {
      assert t == parts[0] + "";
    }
  }

  /** Joining the pieces of a split gives the original text back. */
  lemma {:induction false} JoinOfLines(t: string)
    ensures JoinWith(Lines(t), "\n") == t
    decreases |t|
  {
    var n := LineLen(t);
    if n < |t| {
      var rest := Lines(t[n + 1..]);
      JoinOfLines(t[n + 1..]);
      assert Lines(t) == [t[..n]] + rest;
      JoinCons(t[..n], rest, "\n");
      assert t == t[..n] + "\n" + t[n + 1..];
    }
  }

  lemma {:induction false} JoinCons(first: string, rest: seq<string>, sep: string)
    requires rest != []
    ensures JoinWith([first] + rest, sep) == first + sep + JoinWith(rest, sep)
  {
    assert ([first] + rest)[1..] == rest;
  }

  lemma {:induction false} LineLenOf(a: string, b: string)
    requires '\n' !in a
    requires b == [] || b[0] == '\n'
    ensures LineLen(a + b) == |a|
    decreases |a|
  {
    if a != [] {
      assert (a + b)[1..] == a[1..] + b;
      LineLenOf(a[1..], b);
    }
  }

  function StartsWith(t: string, prefix: string): bool {
    |prefix| <= |t| && t[..|prefix|] == prefix
  }

  /** `t.removesuffix(suffix)`. */
  function RemoveSuffix(t: string, suffix: string): (r: string)
    ensures |suffix| <= |t| && t[|t| - |suffix|..] == suffix ==> r + suffix == t
    ensures !(|suffix| <= |t| && t[|t| - |suffix|..] == suffix) ==> r == t
  {
    if |suffix| <= |t| && t[|t| - |suffix|..] == suffix then t[..|t| - |suffix|] else t
  }

  /** Number of leading whitespace characters. */
  function LeadingSpace(t: string): (n: nat)
    ensures n <= |t| && AllSpace(t[..n])
    ensures n < |t| ==> !IsSpace(t[n])
  {
    if t == [] || !IsSpace(t[0]) then 0
    else
      var n := 1 + LeadingSpace(t[1..]);
      assert t[..n] == [t[0]] + t[1..][..n - 1];
      n
  }

  /** Number of whitespace characters ending at index `j`. */
  function SpaceRunBefore(t: string, j: nat): (n: nat)
    requires j <= |t|
    ensures n <= j
    ensures forall i :: j - n <= i < j ==> IsSpace(t[i])
    ensures n < j ==> !IsSpace(t[j - n - 1])
  {
    if j == 0 || !IsSpace(t[j - 1]) then 0 else 1 + SpaceRunBefore(t, j - 1)
  }

  /** `t.strip()`: the text between the leading and the trailing whitespace. */
  function Strip(t: string): (r: string)
    ensures exists i, j :: 0 <= i <= j <= |t| && r == t[i..j] && AllSpace(t[..i]) && AllSpace(t[j..])
    ensures r == [] || (!IsSpace(r[0]) && !IsSpace(r[|r| - 1]))
    ensures AllSpace(t) <==> r == []
  {
    var i := LeadingSpace(t);
    if i == |t| then
      assert t[..i] == t && t[i..] == [] && t[i..i] == [];
      []
    else
      var k := SpaceRunBefore(t, |t|);
      StripEnds(t, i, k);
      t[i..|t| - k]
  }

  lemma StripEnds(t: string, i: nat, k: nat)
    requires i < |t| && AllSpace(t[..i]) && !IsSpace(t[i])
    requires k <= |t| && (forall x :: |t| - k <= x < |t| ==> IsSpace(t[x]))
    requires k < |t| ==> !IsSpace(t[|t| - k - 1])
    ensures i < |t| - k && AllSpace(t[|t| - k..]) && !AllSpace(t)
    ensures !IsSpace(t[i..|t| - k][0]) && !IsSpace(t[i..|t| - k][|t| - k - i - 1])
  {
    var j := |t| - k;
    assert i < j;
    assert forall x :: j <= x < |t| ==> t[j..][x - j] == t[x];
    assert t[i..j][0] == t[i] && t[i..j][j - i - 1] == t[j - 1];
  }

  /** Length of the line break starting at `t[i]` (`\r\n` counts as one break). */
  function BreakLen(t: string, i: nat): nat
    requires i < |t| && IsLineBreak(t[i])
  {
    if t[i] == '\r' && i + 1 < |t| && t[i + 1] == '\n' then 2 else 1
  }

  /** Number of characters before the first line break. */
  function ToBreak(t: string): (n: nat)
    ensures n <= |t|
    ensures forall k :: 0 <= k < n ==> !IsLineBreak(t[k])
    ensures n < |t| ==> IsLineBreak(t[n])
  {
    if t == [] || IsLineBreak(t[0]) then 0 else 1 + ToBreak(t[1..])
  }

  /** `t.splitlines()`: the lines without their terminators; no empty piece after a final break. */
  function SplitLines(t: string): (ls: seq<string>)
    ensures forall k, m :: 0 <= k < |ls| && 0 <= m < |ls[k]| ==> !IsLineBreak(ls[k][m])
    ensures t == [] <==> ls == []
    decreases |t|
  {
    if t == [] then []
    else
      var n := ToBreak(t);
      if n == |t| then [t]
      else [t[..n]] + SplitLines(t[n + BreakLen(t, n)..])
  }

  /** `s.find(sub, start)`: the first occurrence at or after `start`, or -1. */
  function Find(s: string, sub: string, start: nat): (r: int)
    ensures r == -1 || (start <= r && OccursAt(s, sub, r))
    ensures forall i :: start <= i && (r == -1 || i < r) ==> !OccursAt(s, sub, i)
    decreases |s| - start
  {
    if start + |sub| > |s| then -1
    else if s[start..start + |sub|] == sub then start
    else Find(s, sub, start + 1)
  }

  /** The slice `s[a:b]` for a non-negative `a`; a negative `b` counts from the end. */
  function PySlice(s: string, a: nat, b: int): (r: string)
    ensures 0 <= b <= |s| && a <= b ==> r == s[a..b]
    ensures b < 0 && a <= |s| + b ==> r == s[a..|s| + b]
    ensures (b < 0 && a > |s| + b) || (b >= 0 && a >= b) ==> r == []
  {
    var hi := if b < 0 then (if b + |s| < 0 then 0 else b + |s|) else (if b > |s| then |s| else b);
    if a >= hi then [] else s[a..hi]
  }

  /** Splitting lines undoes joining non-empty lines with newlines. */
  lemma {:induction false} SplitLinesOfJoin(parts: seq<string>)
    requires forall k :: 0 <= k < |parts| ==> parts[k] != []
    requires forall k, m :: 0 <= k < |parts| && 0 <= m < |parts[k]| ==> !IsLineBreak(parts[k][m])
    ensures SplitLines(JoinWith(parts, "\n")) == parts
    decreases |parts|
  {
    if parts != [] {
      var t := JoinWith(parts, "\n");
      var rest := if |parts| == 1 then "" else "\n" + JoinWith(parts[1..], "\n");
      assert t == parts[0] + rest;
      ToBreakOf(parts[0], rest);
      if |parts| > 1 {
        assert t[|parts[0]| + 1..] == JoinWith(parts[1..], "\n");
        SplitLinesOfJoin(parts[1..]);
        assert SplitLines(t) == [parts[0]] + parts[1..];
      }
    }
  }

  lemma {:induction false} ToBreakOf(a: string, b: string)
    requires forall m :: 0 <= m < |a| ==> !IsLineBreak(a[m])
    requires b == [] || b[0] == '\n'
    ensures ToBreak(a + b) == |a|
    decreases |a|
  {
    if a != [] {
      assert (a + b)[1..] == a[1..] + b;
      ToBreakOf(a[1..], b);
    }
  }

  /** Stripping text with no whitespace at its ends changes nothing. */
  lemma {:induction false} StripOfStripped(t: string)
    requires t == [] || (!IsSpace(t[0]) && !IsSpace(t[|t| - 1]))
    ensures Strip(t) == t
  {
    if t != [] {
      assert LeadingSpace(t) == 0;
      assert SpaceRunBefore(t, |t|) == 0;
      assert t[0..|t|] == t;
    }
  }

  /** Stripping keeps a prefix whose first and last characters are not whitespace. */
  lemma {:induction false} StripKeepsPrefix(t: string, prefix: string)
    requires StartsWith(t, prefix) && |prefix| > 0
    requires !IsSpace(prefix[0]) && !IsSpace(prefix[|prefix| - 1])
    ensures StartsWith(Strip(t), prefix)
  {
    var r := Strip(t);
    var i, j :| 0 <= i <= j <= |t| && r == t[i..j] && AllSpace(t[..i]) && AllSpace(t[j..]);
    assert t[0] == prefix[0] && t[|prefix| - 1] == prefix[|prefix| - 1];
    assert r[..|prefix|] == t[..|prefix|];
  }

  /** A stripped line has no line break when the line has none. */
  lemma {:induction false} StripNoBreak(t: string)
    requires forall m :: 0 <= m < |t| ==> !IsLineBreak(t[m])
    ensures forall m :: 0 <= m < |Strip(t)| ==> !IsLineBreak(Strip(t)[m])
  {
    var r := Strip(t);
    var i, j :| 0 <= i <= j <= |t| && r == t[i..j] && AllSpace(t[..i]) && AllSpace(t[j..]);
    assert forall m :: 0 <= m < |r| ==> r[m] == t[i + m];
  }

  /** The two halves of a slice are slices of the whole. */
  lemma SliceHalves<T>(s: seq<T>, j: nat, m: nat, e: nat)
    requires j <= m <= e <= |s|
    ensures s[j..e][..m - j] == s[j..m] && s[j..e][m - j..] == s[m..e]
  {
  }

  /** A prefix of length `n + m` is the first `n` elements followed by the next `m`. */
  lemma PrefixParts<T>(t: seq<T>, n: nat, m: nat)
    requires n + m <= |t|
    ensures t[..n + m][..n] == t[..n] && t[..n + m][n..] == t[n..][..m] && t[n + m..] == t[n..][m..]
  {
  }

  /** The same split, stated for a prefix of length `e` cut at `n`. */
  lemma PrefixCut<T>(t: seq<T>, n: nat, e: nat)
    requires n <= e <= |t|
    ensures t[..e][..n] == t[..n] && t[..e][n..] == t[n..][..e - n] && t[e..] == t[n..][e - n..]
  {
  }

  /** Slices of a suffix are slices of the whole. */
  lemma SuffixSlices<T>(s: seq<T>, p: nat, n: nat)
    requires p + n <= |s|
    ensures s[p..][..n] == s[p..p + n] && s[p..][n..] == s[p + n..]
  {
  }

  /** The prefix of `s[p..]` up to `e - p` and its suffix after the element at `e`. */
  lemma LineSlices<T>(s: seq<T>, p: nat, n: nat, e: nat)
    requires e == p + n && e < |s|
    ensures s[p..][..n] == s[p..e] && s[p..][n + 1..] == s[e + 1..]
  {
  }

  /** The head and the tail of a concatenation with a non-empty left part. */
  lemma ConsConcat<T>(a: seq<T>, b: seq<T>)
    requires a != []
    ensures (a + b)[0] == a[0] && (a + b)[1..] == a[1..] + b
  {
  }

  /** A slice cut `m` elements in. */
  lemma SliceAt<T>(s: seq<T>, i: nat, m: nat, j: nat)
    requires i + m <= j <= |s|
    ensures s[i..j][..m] == s[i..i + m] && s[i..j][m..] == s[i + m..j]
  {
  }
}
