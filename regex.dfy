/**
 * The fragment of Python's `re` that the toolchain matcher uses: single-character
 * classes, exactly-once atoms, greedy `+` over a class, one capture group, the
 * multi-line `^` anchor and `findall`. `MatchAt` explores the alternatives in
 * the order Python's backtracking engine does (a greedy `+` first takes the whole
 * run of its class and then gives back one character at a time), so the first
 * success it reports is the match Python reports.
 */
module Regex {
  import opened Wrappers
  import opened PyText

  /** `-`, `.` (any character but a newline), `\s`, `\S`, `[^\S\n]`, `\d`. */
  datatype Class = Is(c: char) | AnyButNewline | Space | NonSpace | Blank | Digit

  predicate In(k: Class, c: char) {
    match k
    case Is(d) => c == d
    case AnyButNewline => c != '\n'
    case Space => IsSpace(c)
    case NonSpace => !IsSpace(c)
    case Blank => IsSpace(c) && c != '\n'
    case Digit => IsAsciiDigit(c)
  }

  /** One character of a class, a greedy `+` of a class, or the start or end of group 1. */
  datatype Atom = One(k: Class) | Plus(k: Class) | Open | Close

  datatype Span = Span(start: nat, end: nat)

  /** Where a match ends and where group 1 lies. */
  datatype Hit = Hit(end: nat, group: Span)

  predicate AllIn(k: Class, t: string) {
    forall i :: 0 <= i < |t| ==> In(k, t[i])
  }

  predicate CaptureFree(atoms: seq<Atom>) {
    forall n :: 0 <= n < |atoms| ==> atoms[n].One? || atoms[n].Plus?
  }

  /** Length of the longest run of `k` starting at `s[i]`. */
  function Run(k: Class, s: string, i: nat): (n: nat)
    requires i <= |s|
    ensures i + n <= |s|
    ensures AllIn(k, s[i..i + n])
    ensures i + n < |s| ==> !In(k, s[i + n])
    decreases |s| - i
  {
    if i < |s| && In(k, s[i]) then
      var n := 1 + Run(k, s, i + 1);
      assert s[i..i + n] == [s[i]] + s[i + 1..i + n];
      n
    else 0
  }

  /** The first match of `atoms` at `s[i]` in Python's backtracking order, if any. */
  function MatchAt(atoms: seq<Atom>, s: string, i: nat, cap: Span): (r: Option<Hit>)
    requires cap.start <= cap.end <= i <= |s|
    ensures r.Some? ==> i <= r.value.end <= |s| && r.value.group.start <= r.value.group.end <= r.value.end
    decreases |atoms|, |s| - i + 1
  {
    if atoms == [] then Some(Hit(i, cap))
    else match atoms[0]
      case One(k) => if i < |s| && In(k, s[i]) then MatchAt(atoms[1..], s, i + 1, cap) else None
      case Plus(k) => TryRun(atoms[1..], k, s, i, Run(k, s, i), cap)
      case Open => MatchAt(atoms[1..], s, i, Span(i, i))
      case Close => MatchAt(atoms[1..], s, i, Span(cap.start, i))
  }

  /** A greedy `+` that has taken `n` characters: try the rest from there, then give one back. */
  function TryRun(rest: seq<Atom>, k: Class, s: string, i: nat, n: nat, cap: Span): (r: Option<Hit>)
    requires cap.start <= cap.end <= i && i + n <= |s|
    ensures r.Some? ==> i <= r.value.end <= |s| && r.value.group.start <= r.value.group.end <= r.value.end
    decreases |rest| + 1, n
  {
    if n == 0 then None
    else match MatchAt(rest, s, i + n, cap)
      case Some(h) => Some(h)
      case None => TryRun(rest, k, s, i, n - 1, cap)
  }

  /** Where the multi-line `^` holds: at the start and right after every `\n`. */
  predicate AtLineStart(s: string, p: nat)
    requires p <= |s|
  {
    p == 0 || s[p - 1] == '\n'
  }

  /**
   * `re.findall` for a `^`-anchored pattern with one group, scanning from `p`:
   * the text of group 1 of every match, left to right, each search resuming where
   * the previous match ended. (A match of the patterns used here is never empty.)
   */
  function FindAllFrom(atoms: seq<Atom>, s: string, p: nat): seq<string>
    decreases |s| + 1 - p
  {
    if p > |s| then []
    else if AtLineStart(s, p) then
      match MatchAt(atoms, s, p, Span(0, 0))
      case Some(h) => [s[h.group.start..h.group.end]] + FindAllFrom(atoms, s, if h.end > p then h.end else p + 1)
      case None => FindAllFrom(atoms, s, p + 1)
    else FindAllFrom(atoms, s, p + 1)
  }

  /** The language of an atom sequence: the strings it can match as a whole. */
  predicate Matches(atoms: seq<Atom>, t: string)
    decreases |atoms|
  {
    if atoms == [] then t == []
    else match atoms[0]
      case One(k) => |t| >= 1 && In(k, t[0]) && Matches(atoms[1..], t[1..])
      case Plus(k) => exists n :: 1 <= n <= |t| && AllIn(k, t[..n]) && Matches(atoms[1..], t[n..])
      case Open => Matches(atoms[1..], t)
      case Close => Matches(atoms[1..], t)
  }

  lemma {:induction false} RunCovers(k: Class, s: string, i: nat, n: nat)
    requires i + n <= |s|
    requires AllIn(k, s[i..i + n])
    ensures n <= Run(k, s, i)
    decreases n
  {
    if n > 0 {
      assert s[i..i + n][0] == s[i];
      var u, v := s[i..i + n], s[i + 1..i + n];
      forall x | 0 <= x < |v| ensures In(k, v[x]) { assert v[x] == u[x + 1]; }
      RunCovers(k, s, i + 1, n - 1);
    }
  }

  lemma {:induction false} TryRunFound(rest: seq<Atom>, k: Class, s: string, i: nat, n: nat, cap: Span) returns (m: nat)
    requires cap.start <= cap.end <= i && i + n <= |s|
    requires TryRun(rest, k, s, i, n, cap).Some?
    ensures 1 <= m <= n && MatchAt(rest, s, i + m, cap) == TryRun(rest, k, s, i, n, cap)
    decreases n
  {
    if MatchAt(rest, s, i + n, cap).None? {
      m := TryRunFound(rest, k, s, i, n - 1, cap);
    } else {
      m := n;
    }
  }

  lemma {:induction false} TryRunSucceeds(rest: seq<Atom>, k: Class, s: string, i: nat, n: nat, m: nat, cap: Span)
    requires cap.start <= cap.end <= i && i + n <= |s|
    requires 1 <= m <= n && MatchAt(rest, s, i + m, cap).Some?
    ensures TryRun(rest, k, s, i, n, cap).Some?
    decreases n
  {
    if m < n && MatchAt(rest, s, i + n, cap).None? {
      TryRunSucceeds(rest, k, s, i, n - 1, m, cap);
    }
  }

  lemma {:induction false} CaptureFreeTail(a: seq<Atom>)
    requires CaptureFree(a) && a != []
    ensures CaptureFree(a[1..])
  {
    forall n | 0 <= n < |a| - 1 ensures a[1..][n].One? || a[1..][n].Plus? { assert a[1..][n] == a[n + 1]; }
  }

  /**
   * Backtracking over a capture-free prefix is sound: a match of `a + b` is the
   * match of `b` found after some string in the language of `a`.
   */
  lemma {:induction false} SeqCompSound(a: seq<Atom>, b: seq<Atom>, s: string, i: nat, cap: Span) returns (j: nat)
    requires CaptureFree(a)
    requires cap.start <= cap.end <= i <= |s|
    requires MatchAt(a + b, s, i, cap).Some?
    ensures i <= j <= |s| && Matches(a, s[i..j]) && MatchAt(b, s, j, cap) == MatchAt(a + b, s, i, cap)
    decreases |a|, 1
  {
    if a == [] {
      assert a + b == b;
      assert s[i..i] == [];
      j := i;
    } else if a[0].One? {
      j := SoundOne(a, b, s, i, cap);
    } else {
      j := SoundPlus(a, b, s, i, cap);
    }
  }

  lemma {:induction false} SoundOne(a: seq<Atom>, b: seq<Atom>, s: string, i: nat, cap: Span) returns (j: nat)
    requires CaptureFree(a) && a != [] && a[0].One?
    requires cap.start <= cap.end <= i <= |s|
    requires MatchAt(a + b, s, i, cap).Some?
    ensures i <= j <= |s| && Matches(a, s[i..j]) && MatchAt(b, s, j, cap) == MatchAt(a + b, s, i, cap)
    decreases |a|, 0
  {
    CaptureFreeTail(a);
    ConsConcat(a, b);
    j := SeqCompSound(a[1..], b, s, i + 1, cap);
    assert s[i..j][1..] == s[i + 1..j];
  }

  lemma {:induction false} SoundPlus(a: seq<Atom>, b: seq<Atom>, s: string, i: nat, cap: Span) returns (j: nat)
    requires CaptureFree(a) && a != [] && a[0].Plus?
    requires cap.start <= cap.end <= i <= |s|
    requires MatchAt(a + b, s, i, cap).Some?
    ensures i <= j <= |s| && Matches(a, s[i..j]) && MatchAt(b, s, j, cap) == MatchAt(a + b, s, i, cap)
    decreases |a|, 0
  {
    var k := a[0].k;
    CaptureFreeTail(a);
    MatchAtPlusConcat(a, b, s, i, cap);
    var r := Run(k, s, i);
    var m := TryRunFound(a[1..] + b, k, s, i, r, cap);
    j := SeqCompSound(a[1..], b, s, i + m, cap);
    SliceAt(s, i, m, j);
    RunPrefix(k, s, i, m);
    MatchesPlusAt(a, s[i..j], m);
  }

  /** Backtracking over a capture-free prefix is complete: any such split gives some match. */
  lemma {:induction false} SeqCompComplete(a: seq<Atom>, b: seq<Atom>, s: string, i: nat, j: nat, cap: Span)
    requires CaptureFree(a)
    requires cap.start <= cap.end <= i <= j <= |s|
    requires Matches(a, s[i..j]) && MatchAt(b, s, j, cap).Some?
    ensures MatchAt(a + b, s, i, cap).Some?
    decreases |a|, 1
  {
    if a == [] {
      assert a + b == b;
    } else if a[0].One? {
      CompleteOne(a, b, s, i, j, cap);
    } else {
      CompletePlus(a, b, s, i, j, cap);
    }
  }

  lemma {:induction false} CompleteOne(a: seq<Atom>, b: seq<Atom>, s: string, i: nat, j: nat, cap: Span)
    requires CaptureFree(a) && a != [] && a[0].One?
    requires cap.start <= cap.end <= i <= j <= |s|
    requires Matches(a, s[i..j]) && MatchAt(b, s, j, cap).Some?
    ensures MatchAt(a + b, s, i, cap).Some?
    decreases |a|, 0
  {
    CaptureFreeTail(a);
    ConsConcat(a, b);
    var t := s[i..j];
    assert t[0] == s[i] && t[1..] == s[i + 1..j];
    SeqCompComplete(a[1..], b, s, i + 1, j, cap);
  }

  lemma {:induction false} CompletePlus(a: seq<Atom>, b: seq<Atom>, s: string, i: nat, j: nat, cap: Span)
    requires CaptureFree(a) && a != [] && a[0].Plus?
    requires cap.start <= cap.end <= i <= j <= |s|
    requires Matches(a, s[i..j]) && MatchAt(b, s, j, cap).Some?
    ensures MatchAt(a + b, s, i, cap).Some?
    decreases |a|, 0
  {
    CaptureFreeTail(a);
    ConsConcat(a, b);
    var n := PlusSplit(a, s[i..j]);
    SliceAt(s, i, n, j);
    RunCovers(a[0].k, s, i, n);
    SeqCompComplete(a[1..], b, s, i + n, j, cap);
    TryRunSucceeds(a[1..] + b, a[0].k, s, i, Run(a[0].k, s, i), n, cap);
    MatchAtPlusConcat(a, b, s, i, cap);
  }

  /** At a greedy `+`, the match is the one `TryRun` finds from the whole run down. */
  lemma {:induction false} MatchAtPlus(atoms: seq<Atom>, s: string, i: nat, cap: Span)
    requires atoms != [] && atoms[0].Plus?
    requires cap.start <= cap.end <= i <= |s|
    ensures MatchAt(atoms, s, i, cap) == TryRun(atoms[1..], atoms[0].k, s, i, Run(atoms[0].k, s, i), cap)
  {
  }

  /** Every prefix of the run of `k` at `s[i]` is in `k`. */
  lemma {:induction false} RunPrefix(k: Class, s: string, i: nat, m: nat)
    requires i <= |s| && m <= Run(k, s, i)
    ensures AllIn(k, s[i..i + m])
  {
    var u, v := s[i..i + Run(k, s, i)], s[i..i + m];
    forall x | 0 <= x < |v| ensures In(k, v[x]) {
      assert v[x] == u[x];
    }
  }

  lemma {:induction false} MatchAtPlusConcat(a: seq<Atom>, b: seq<Atom>, s: string, i: nat, cap: Span)
    requires a != [] && a[0].Plus?
    requires cap.start <= cap.end <= i <= |s|
    ensures MatchAt(a + b, s, i, cap) == TryRun(a[1..] + b, a[0].k, s, i, Run(a[0].k, s, i), cap)
  {
    ConsConcat(a, b);
    MatchAtPlus(a + b, s, i, cap);
  }

  lemma {:induction false} MatchesPlusAt(a: seq<Atom>, t: string, m: nat)
    requires a != [] && a[0].Plus?
    requires 1 <= m <= |t| && AllIn(a[0].k, t[..m]) && Matches(a[1..], t[m..])
    ensures Matches(a, t)
  {
  }

  lemma {:induction false} PlusSplit(a: seq<Atom>, t: string) returns (n: nat)
    requires a != [] && a[0].Plus? && Matches(a, t)
    ensures 1 <= n <= |t| && AllIn(a[0].k, t[..n]) && Matches(a[1..], t[n..])
  {
    n :| 1 <= n <= |t| && AllIn(a[0].k, t[..n]) && Matches(a[1..], t[n..]);
  }

  /** The language of a concatenation is the concatenation of the languages. */
  lemma {:induction false} MatchesConcat(a: seq<Atom>, b: seq<Atom>, t: string)
    ensures Matches(a + b, t) <==> exists m :: 0 <= m <= |t| && Matches(a, t[..m]) && Matches(b, t[m..])
    decreases |a|, 1
  {
    if a == [] {
      assert a + b == b;
      if Matches(b, t) { assert t[..0] == [] && t[0..] == t; }
    } else {
      assert (a + b)[0] == a[0] && (a + b)[1..] == a[1..] + b;
      match a[0]
      case One(k) => ConcatOne(a, b, t);
      case Plus(k) => {
        if Matches(a + b, t) { ConcatPlusSound(a, b, t); }
        if m :| 0 <= m <= |t| && Matches(a, t[..m]) && Matches(b, t[m..]) { ConcatPlusComplete(a, b, t, m); }
      }
      case Open => MatchesConcat(a[1..], b, t);
      case Close => MatchesConcat(a[1..], b, t);
    }
  }

  lemma {:induction false} ConcatOne(a: seq<Atom>, b: seq<Atom>, t: string)
    requires a != [] && a[0].One?
    ensures Matches(a + b, t) <==> exists m :: 0 <= m <= |t| && Matches(a, t[..m]) && Matches(b, t[m..])
    decreases |a|, 0
  {
    var a' := a[1..];
    assert (a + b)[0] == a[0] && (a + b)[1..] == a' + b;
    if |t| >= 1 {
      MatchesConcat(a', b, t[1..]);
      if Matches(a + b, t) {
        var m :| 0 <= m <= |t[1..]| && Matches(a', t[1..][..m]) && Matches(b, t[1..][m..]);
        assert t[..m + 1][1..] == t[1..][..m] && t[m + 1..] == t[1..][m..];
      }
      if m :| 0 <= m <= |t| && Matches(a, t[..m]) && Matches(b, t[m..]) {
        assert t[..m][1..] == t[1..][..m - 1] && t[m..] == t[1..][m - 1..];
      }
    } else {
      forall m | 0 <= m <= |t| ensures !Matches(a, t[..m]) {
        assert t[..m] == [];
      }
    }
  }

  lemma {:induction false} ConcatPlusSound(a: seq<Atom>, b: seq<Atom>, t: string)
    requires a != [] && a[0].Plus? && Matches(a + b, t)
    ensures exists m :: 0 <= m <= |t| && Matches(a, t[..m]) && Matches(b, t[m..])
    decreases |a|, 0
  {
    ConsConcat(a, b);
    var n := PlusSplit(a + b, t);
    var m := MatchesSplit(a[1..], b, t[n..]);
    PrefixParts(t, n, m);
    MatchesPlusAt(a, t[..n + m], n);
  }

  lemma {:induction false} ConcatPlusComplete(a: seq<Atom>, b: seq<Atom>, t: string, m: nat)
    requires a != [] && a[0].Plus?
    requires m <= |t| && Matches(a, t[..m]) && Matches(b, t[m..])
    ensures Matches(a + b, t)
    decreases |a|, 0
  {
    ConsConcat(a, b);
    var n := PlusSplit(a, t[..m]);
    PrefixCut(t, n, m);
    MatchesJoin(a[1..], b, t[n..], m - n);
    MatchesPlusAt(a + b, t, n);
  }

  /** A match of a concatenation splits into matches of its two parts. */
  lemma {:induction false} MatchesSplit(a: seq<Atom>, b: seq<Atom>, t: string) returns (m: nat)
    requires Matches(a + b, t)
    ensures m <= |t| && Matches(a, t[..m]) && Matches(b, t[m..])
    decreases |a|, 2
  {
    MatchesConcat(a, b, t);
    m :| 0 <= m <= |t| && Matches(a, t[..m]) && Matches(b, t[m..]);
  }

  /** Matches of two parts give a match of their concatenation. */
  lemma {:induction false} MatchesJoin(a: seq<Atom>, b: seq<Atom>, t: string, m: nat)
    requires m <= |t| && Matches(a, t[..m]) && Matches(b, t[m..])
    ensures Matches(a + b, t)
    decreases |a|, 2
  {
    MatchesConcat(a, b, t);
  }
}
