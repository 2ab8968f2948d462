/**
 * The pattern of `find_matching_python_verions`,
 * `^\S+-PIN\.\d+-\S+SEP(\S+-PIN\.\d+-\S+)`, as atoms, and what the engine
 * does with it at the start of a line: it takes the first whitespace-delimited
 * field, the run of separator characters after it and the field after that, and
 * succeeds exactly when both fields are tagged, capturing the whole second field.
 */
module ListingPattern {
  import opened Wrappers
  import opened PyText
  import opened Regex

  /** The pin's characters as atoms; with `wild` a `.` is the regex wildcard, otherwise every character is literal. */
  function PinAtoms(pin: string, wild: bool): (pa: seq<Atom>)
    ensures |pa| == |pin|
    ensures forall n :: 0 <= n < |pin| ==> pa[n] == One(if wild && pin[n] == '.' then AnyButNewline else Is(pin[n]))
  {
    seq(|pin|, n requires 0 <= n < |pin| => One(if wild && pin[n] == '.' then AnyButNewline else Is(pin[n])))
  }

  /** `q` is a string the pin's atoms accept: the pin itself, or with `wild`, any character but `\n` for each `.`. */
  predicate PinLike(q: string, pin: string, wild: bool) {
    |q| == |pin| &&
    forall n :: 0 <= n < |pin| ==> if wild && pin[n] == '.' then q[n] != '\n' else q[n] == pin[n]
  }

  const Head: seq<Atom> := [Plus(NonSpace), One(Is('-'))]
  const Tail: seq<Atom> := [One(Is('.')), Plus(Digit), One(Is('-')), Plus(NonSpace)]
  const TailInit: seq<Atom> := [One(Is('.')), Plus(Digit), One(Is('-'))]

  /** `\S+-PIN\.\d+-\S+`: a field tagged with the pinned version. */
  function Ident(pa: seq<Atom>): seq<Atom> {
    Head + pa + Tail
  }

  /** The whole pattern with separator class `sep` (`\s` as written). */
  function Pattern(pa: seq<Atom>, sep: Class): seq<Atom> {
    Ident(pa) + [Plus(sep), Open] + Ident(pa) + [Close]
  }

  /** The group: `(\S+-PIN\.\d+-\S+)`. */
  function Group(pa: seq<Atom>): seq<Atom> {
    [Open] + Ident(pa) + [Close]
  }

  predicate Tagged(t: string, pa: seq<Atom>) {
    Matches(Ident(pa), t)
  }

  predicate OnlyOne(pa: seq<Atom>) {
    forall n :: 0 <= n < |pa| ==> pa[n].One?
  }

  /** End of the run of non-whitespace starting at `s[i]`. */
  function FieldEnd(s: string, i: nat): (e: nat)
    requires i <= |s|
    ensures i <= e <= |s|
  {
    i + Run(NonSpace, s, i)
  }

  /** Every string that `Ident(pa)` matches at `s[i]` is free of whitespace. */
  predicate IdentStaysInField(pa: seq<Atom>, s: string, i: nat)
    requires i <= |s|
  {
    forall e {:trigger Matches(Ident(pa), s[i..e])} :: i <= e <= |s| && Matches(Ident(pa), s[i..e]) ==> AllNonSpace(s[i..e])
  }

  /** Where the second field starts: after the first field and the run of `sep` that follows it. */
  function SecondStart(sep: Class, s: string, p: nat): (j: nat)
    requires p <= |s|
    ensures FieldEnd(s, p) <= j <= |s|
  {
    FieldEnd(s, p) + Run(sep, s, FieldEnd(s, p))
  }

  /** What the whole pattern yields at `s[p]` with field pattern `id`, read off the fields. */
  function ScanAt(id: seq<Atom>, sep: Class, s: string, p: nat): Option<Hit>
    requires p <= |s|
  {
    if Matches(id, s[p..FieldEnd(s, p)]) && FieldEnd(s, p) < SecondStart(sep, s, p) &&
       Matches(id, s[SecondStart(sep, s, p)..FieldEnd(s, SecondStart(sep, s, p))])
    then Some(Hit(FieldEnd(s, SecondStart(sep, s, p)), Span(SecondStart(sep, s, p), FieldEnd(s, SecondStart(sep, s, p)))))
    else None
  }

  lemma {:induction false} IdentSplit(pa: seq<Atom>)
    ensures Ident(pa) == (Head + pa + TailInit) + [Plus(NonSpace)]
    ensures CaptureFree(Head + pa + TailInit) <== OnlyOne(pa)
    ensures CaptureFree(Ident(pa)) <== OnlyOne(pa)
  {
    assert Tail == TailInit + [Plus(NonSpace)];
    if OnlyOne(pa) {
      var x := Head + pa + TailInit;
      forall n | 0 <= n < |x| ensures x[n].One? || x[n].Plus? {
        if n < 2 { assert x[n] == Head[n]; }
        else if n < 2 + |pa| { assert x[n] == pa[n - 2]; }
        else { assert x[n] == TailInit[n - 2 - |pa|]; }
      }
      var y := Ident(pa);
      forall n | 0 <= n < |y| ensures y[n].One? || y[n].Plus? {
        if n < |x| { assert y[n] == x[n]; } else { assert y[n] == Plus(NonSpace); }
      }
    }
  }

  /** A run of exactly the characters from `i` to `e` of class `k`. */
  lemma {:induction false} RunExact(k: Class, s: string, i: nat, e: nat)
    requires i <= e <= |s|
    requires AllIn(k, s[i..e])
    requires e == |s| || !In(k, s[e])
    ensures Run(k, s, i) == e - i
    decreases e - i
  {
    if i < e {
      var u, v := s[i..e], s[i + 1..e];
      assert u[0] == s[i];
      forall x | 0 <= x < |v| ensures In(k, v[x]) { assert v[x] == u[x + 1]; }
      RunExact(k, s, i + 1, e);
    }
  }

  /** A run stops at the first character outside its class. */
  lemma {:induction false} RunStops(k: Class, s: string, i: nat, d: nat)
    requires i + d < |s| && !In(k, s[i + d])
    ensures Run(k, s, i) <= d
    decreases d
  {
    if d > 0 && In(k, s[i]) {
      RunStops(k, s, i + 1, d - 1);
    }
  }

  /** Concatenating two runs of one class. */
  lemma {:induction false} AllInConcat(k: Class, s: string, i: nat, m: nat, e: nat)
    requires i <= m <= e <= |s|
    requires AllIn(k, s[i..m]) && AllIn(k, s[m..e])
    ensures AllIn(k, s[i..e])
  {
    var w, u, v := s[i..e], s[i..m], s[m..e];
    forall x | 0 <= x < |w| ensures In(k, w[x]) {
      if x < m - i { assert w[x] == u[x]; } else { assert w[x] == v[x - (m - i)]; }
    }
  }

  lemma {:induction false} MatchesPlusOnly(k: Class, t: string)
    requires |t| >= 1 && AllIn(k, t)
    ensures Matches([Plus(k)], t)
  {
    assert t[..|t|] == t && t[|t|..] == [];
  }

  /** `[Plus(NonSpace), Close]` at `s[m]`: the rest of the field is captured. */
  lemma {:induction false} LastFieldRun(s: string, m: nat, c0: Span)
    requires c0.start <= c0.end <= m <= |s|
    ensures MatchAt([Plus(NonSpace), Close], s, m, c0) ==
      (var r := Run(NonSpace, s, m); if r >= 1 then Some(Hit(m + r, Span(c0.start, m + r))) else None)
  {
    var rest: seq<Atom> := [Plus(NonSpace), Close];
    var r := Run(NonSpace, s, m);
    assert rest[0] == Plus(NonSpace) && rest[1..] == [Close];
    assert MatchAt(rest, s, m, c0) == TryRun([Close], NonSpace, s, m, r, c0);
    assert MatchAt([Close], s, m + r, c0) == Some(Hit(m + r, Span(c0.start, m + r)));
  }

  /*
   * The lemmas below are stated for an arbitrary capture-free head `x` of a
   * field pattern `x + [Plus(NonSpace)]`, so that the solver never looks inside it.
   */

  /** Every string that `x + [Plus(NonSpace)]` matches at `s[j]` is free of whitespace. */
  predicate FieldStays(x: seq<Atom>, s: string, j: nat)
    requires j <= |s|
  {
    forall e {:trigger Matches(x + [Plus(NonSpace)], s[j..e])} :: j <= e <= |s| && Matches(x + [Plus(NonSpace)], s[j..e]) ==> AllNonSpace(s[j..e])
  }

  /** One more non-whitespace character after a match of `x` stays within the field. */
  lemma {:induction false} FieldPrefix(x: seq<Atom>, s: string, j: nat, m: nat)
    requires j <= m < |s|
    requires FieldStays(x, s, j)
    requires Matches(x, s[j..m])
    requires !IsSpace(s[m])
    ensures AllIn(NonSpace, s[j..m])
  {
    var u := s[j..m + 1];
    assert u[..m - j] == s[j..m] && u[m - j..] == [s[m]];
    MatchesPlusOnly(NonSpace, [s[m]]);
    MatchesJoin(x, [Plus(NonSpace)], u, m - j);
    assert AllNonSpace(u);
    var w := s[j..m];
    forall i | 0 <= i < |w| ensures In(NonSpace, w[i]) { assert w[i] == u[i]; }
  }

  lemma {:induction false} FieldWhole(x: seq<Atom>, s: string, j: nat, m: nat, e: nat)
    requires j <= m < e <= |s|
    requires Matches(x, s[j..m])
    requires AllIn(NonSpace, s[m..e])
    ensures Matches(x + [Plus(NonSpace)], s[j..e])
  {
    SliceHalves(s, j, m, e);
    MatchesPlusOnly(NonSpace, s[m..e]);
    MatchesJoin(x, [Plus(NonSpace)], s[j..e], m - j);
  }

  lemma {:induction false} FieldSound(x: seq<Atom>, s: string, j: nat, m: nat)
    requires j <= m <= |s|
    requires FieldStays(x, s, j)
    requires Matches(x, s[j..m])
    requires Run(NonSpace, s, m) >= 1
    ensures var r := Run(NonSpace, s, m);
      FieldEnd(s, j) == m + r && Matches(x + [Plus(NonSpace)], s[j..m + r])
  {
    var r := Run(NonSpace, s, m);
    assert s[m] == s[m..m + r][0];
    FieldPrefix(x, s, j, m);
    FieldAfterPrefix(x, s, j, m, r);
  }

  /** A match of `x` inside the field, followed by the rest of the field, is the whole field. */
  lemma {:induction false} FieldAfterPrefix(x: seq<Atom>, s: string, j: nat, m: nat, r: nat)
    requires j <= m <= |s| && r == Run(NonSpace, s, m) && r >= 1
    requires Matches(x, s[j..m]) && AllIn(NonSpace, s[j..m])
    ensures FieldEnd(s, j) == m + r && Matches(x + [Plus(NonSpace)], s[j..m + r])
  {
    FieldEndAfterPrefix(s, j, m, r);
    FieldWhole(x, s, j, m, m + r);
  }

  lemma {:induction false} FieldEndAfterPrefix(s: string, j: nat, m: nat, r: nat)
    requires j <= m <= |s| && r == Run(NonSpace, s, m)
    requires AllIn(NonSpace, s[j..m])
    ensures FieldEnd(s, j) == m + r
  {
    AllInConcat(NonSpace, s, j, m, m + r);
    RunExact(NonSpace, s, j, m + r);
  }

  lemma {:induction false} FieldComplete(x: seq<Atom>, s: string, j: nat) returns (m: nat)
    requires j <= |s|
    requires Matches(x + [Plus(NonSpace)], s[j..FieldEnd(s, j)])
    ensures j <= m < FieldEnd(s, j)
    ensures Matches(x, s[j..m])
    ensures Run(NonSpace, s, m) >= 1
  {
    var f := FieldEnd(s, j);
    var v := s[j..f];
    var m' := MatchesSplit(x, [Plus(NonSpace)], v);
    assert |v[m'..]| >= 1;
    m := j + m';
    assert v[..m'] == s[j..m];
    assert In(NonSpace, v[m']);
    assert s[m] == v[m'];
  }

  /** `[Open] + x + [Plus(NonSpace), Close]` at `s[j]` captures the whole field exactly when the field matches. */
  lemma {:induction false} GroupOfField(x: seq<Atom>, s: string, j: nat, cap: Span)
    requires CaptureFree(x)
    requires cap.start <= cap.end <= j <= |s|
    requires FieldStays(x, s, j)
    ensures var f := FieldEnd(s, j);
      MatchAt([Open] + (x + [Plus(NonSpace), Close]), s, j, cap) ==
      (if Matches(x + [Plus(NonSpace)], s[j..f]) then Some(Hit(f, Span(j, f))) else None)
  {
    var rest: seq<Atom> := [Plus(NonSpace), Close];
    var g := [Open] + (x + rest);
    assert g[0] == Open && g[1..] == x + rest;
    var c0 := Span(j, j);
    assert MatchAt(g, s, j, cap) == MatchAt(x + rest, s, j, c0);
    var f := FieldEnd(s, j);
    if MatchAt(x + rest, s, j, c0).Some? {
      var m := SeqCompSound(x, rest, s, j, c0);
      LastFieldRun(s, m, c0);
      FieldSound(x, s, j, m);
    } else if Matches(x + [Plus(NonSpace)], s[j..f]) {
      var m := FieldComplete(x, s, j);
      LastFieldRun(s, m, c0);
      SeqCompComplete(x, rest, s, j, m, c0);
    }
  }

  /** A pattern that opens the group and then needs a non-whitespace character. */
  predicate OpensField(g: seq<Atom>) {
    |g| >= 2 && g[0] == Open && g[1] == Plus(NonSpace)
  }

  /** A match of such a pattern at `s[q]` needs a non-whitespace character there. */
  lemma {:induction false} GroupNeedsField(g: seq<Atom>, s: string, q: nat, cap: Span)
    requires OpensField(g)
    requires cap.start <= cap.end <= q <= |s|
    requires MatchAt(g, s, q, cap).Some?
    ensures q < |s| && !IsSpace(s[q])
  {
    var g1 := g[1..];
    assert g1[0] == Plus(NonSpace);
    assert MatchAt(g, s, q, cap) == MatchAt(g1, s, q, Span(q, q));
    assert MatchAt(g1, s, q, Span(q, q)) == TryRun(g1[1..], NonSpace, s, q, Run(NonSpace, s, q), Span(q, q));
  }

  /** Every match of `g` from `cap` on needs a non-whitespace character where it starts. */
  predicate StartsField(g: seq<Atom>, s: string, cap: Span)
    requires cap.start <= cap.end <= |s|
  {
    forall q :: cap.end <= q <= |s| && MatchAt(g, s, q, cap).Some? ==> q < |s| && !IsSpace(s[q])
  }

  lemma {:induction false} OpensFieldStarts(g: seq<Atom>, s: string, cap: Span)
    requires OpensField(g)
    requires cap.start <= cap.end <= |s|
    ensures StartsField(g, s, cap)
  {
    forall q | cap.end <= q <= |s| && MatchAt(g, s, q, cap).Some? ensures q < |s| && !IsSpace(s[q]) {
      GroupNeedsField(g, s, q, cap);
    }
  }

  /** A match of `[Plus(sep)] + g` at `s[m]` takes the whole separator run. */
  lemma {:induction false} SeparatorRun(b: seq<Atom>, g: seq<Atom>, sep: Class, s: string, m: nat, cap: Span)
    requires sep == Space || sep == Blank
    requires |b| >= 1 && b[0] == Plus(sep) && b[1..] == g
    requires cap.start <= cap.end <= m <= |s|
    requires StartsField(g, s, cap)
    requires MatchAt(b, s, m, cap).Some?
    ensures var rs := Run(sep, s, m);
      rs >= 1 && IsSpace(s[m]) && MatchAt(b, s, m, cap) == MatchAt(g, s, m + rs, cap)
  {
    var rs := Run(sep, s, m);
    assert MatchAt(b, s, m, cap) == TryRun(g, sep, s, m, rs, cap);
    var n := TryRunFound(g, sep, s, m, rs, cap);
    assert In(sep, s[m..m + rs][0]);
    assert !IsSpace(s[m + n]);
    RunStops(sep, s, m, n);
  }

  lemma {:induction false} FirstFieldSound(id: seq<Atom>, b: seq<Atom>, g: seq<Atom>, sep: Class, s: string, p: nat, cap: Span)
    requires CaptureFree(id)
    requires sep == Space || sep == Blank
    requires |b| >= 1 && b[0] == Plus(sep) && b[1..] == g
    requires cap.start <= cap.end <= p <= |s|
    requires StartsField(g, s, cap)
    requires forall e {:trigger Matches(id, s[p..e])} :: p <= e <= |s| && Matches(id, s[p..e]) ==> AllNonSpace(s[p..e])
    requires MatchAt(id + b, s, p, cap).Some?
    ensures MatchAt(id + b, s, p, cap) == FirstFieldValue(id, g, sep, s, p, cap)
  {
    var f1, j := FirstFieldParts(id, b, g, sep, s, p, cap);
    FirstFieldEnd(id, s, p, f1);
    assert SecondStart(sep, s, p) == j;
  }

  /** A match of `id + b` at `s[p]`: a match of `id` up to a whitespace, then `g` after the separator run. */
  lemma {:induction false} FirstFieldParts(id: seq<Atom>, b: seq<Atom>, g: seq<Atom>, sep: Class, s: string, p: nat, cap: Span)
    returns (f1: nat, j: nat)
    requires CaptureFree(id)
    requires sep == Space || sep == Blank
    requires |b| >= 1 && b[0] == Plus(sep) && b[1..] == g
    requires cap.start <= cap.end <= p <= |s|
    requires StartsField(g, s, cap)
    requires MatchAt(id + b, s, p, cap).Some?
    ensures p <= f1 < j <= |s| && IsSpace(s[f1]) && j == f1 + Run(sep, s, f1)
    ensures Matches(id, s[p..f1]) && MatchAt(id + b, s, p, cap) == MatchAt(g, s, j, cap)
  {
    f1 := SeqCompSound(id, b, s, p, cap);
    SeparatorRun(b, g, sep, s, f1, cap);
    j := f1 + Run(sep, s, f1);
  }

  /** A match of `id` at `s[p]` followed by whitespace is the whole first field. */
  lemma {:induction false} FirstFieldEnd(id: seq<Atom>, s: string, p: nat, m: nat)
    requires p <= m < |s|
    requires forall e {:trigger Matches(id, s[p..e])} :: p <= e <= |s| && Matches(id, s[p..e]) ==> AllNonSpace(s[p..e])
    requires Matches(id, s[p..m]) && IsSpace(s[m])
    ensures FieldEnd(s, p) == m
  {
    var w := s[p..m];
    assert AllNonSpace(w);
    assert AllIn(NonSpace, w) by {
      forall i | 0 <= i < |w| ensures In(NonSpace, w[i]) { }
    }
    RunExact(NonSpace, s, p, m);
  }

  /** The value `FirstField` states for `id + b` at `s[p]`. */
  function FirstFieldValue(id: seq<Atom>, g: seq<Atom>, sep: Class, s: string, p: nat, cap: Span): Option<Hit>
    requires cap.start <= cap.end <= p <= |s|
  {
    if Matches(id, s[p..FieldEnd(s, p)]) && FieldEnd(s, p) < SecondStart(sep, s, p) then MatchAt(g, s, SecondStart(sep, s, p), cap) else None
  }

  lemma {:induction false} FirstFieldNone(id: seq<Atom>, b: seq<Atom>, g: seq<Atom>, sep: Class, s: string, p: nat, cap: Span)
    requires CaptureFree(id)
    requires |b| >= 1 && b[0] == Plus(sep) && b[1..] == g
    requires cap.start <= cap.end <= p <= |s|
    requires FirstFieldValue(id, g, sep, s, p, cap).Some?
    ensures MatchAt(id + b, s, p, cap).Some?
  {
    var f1 := FieldEnd(s, p);
    var j := f1 + Run(sep, s, f1);
    TryRunSucceeds(g, sep, s, f1, j - f1, j - f1, cap);
    assert MatchAt(b, s, f1, cap) == TryRun(g, sep, s, f1, j - f1, cap);
    SeqCompComplete(id, b, s, p, f1, cap);
  }

  /** `id + [Plus(sep)] + g` at `s[p]` succeeds only through the first field and the whole separator run. */
  lemma {:induction false} FirstField(id: seq<Atom>, b: seq<Atom>, g: seq<Atom>, sep: Class, s: string, p: nat, cap: Span)
    requires CaptureFree(id)
    requires sep == Space || sep == Blank
    requires |b| >= 1 && b[0] == Plus(sep) && b[1..] == g
    requires cap.start <= cap.end <= p <= |s|
    requires StartsField(g, s, cap)
    requires forall e {:trigger Matches(id, s[p..e])} :: p <= e <= |s| && Matches(id, s[p..e]) ==> AllNonSpace(s[p..e])
    ensures MatchAt(id + b, s, p, cap) == FirstFieldValue(id, g, sep, s, p, cap)
  {
    if MatchAt(id + b, s, p, cap).Some? {
      FirstFieldSound(id, b, g, sep, s, p, cap);
    } else if FirstFieldValue(id, g, sep, s, p, cap).Some? {
      FirstFieldNone(id, b, g, sep, s, p, cap);
    }
  }

  /** A capture-free head for `Ident`. */
  lemma {:induction false} IdentShape(pa: seq<Atom>)
    requires OnlyOne(pa)
    ensures var x := Head + pa + TailInit;
      CaptureFree(x) && CaptureFree(Ident(pa)) && Ident(pa) == x + [Plus(NonSpace)] &&
      Group(pa) == [Open] + (x + [Plus(NonSpace), Close]) &&
      OpensField(Group(pa)) &&
      forall sep :: Pattern(pa, sep) == Ident(pa) + ([Plus(sep)] + Group(pa))
  {
    IdentSplit(pa);
  }

  /** The group matches the whole field at `s[j]` exactly when that field is tagged. */
  lemma {:induction false} GroupAt(pa: seq<Atom>, s: string, j: nat, cap: Span)
    requires OnlyOne(pa)
    requires cap.start <= cap.end <= j <= |s|
    requires IdentStaysInField(pa, s, j)
    ensures MatchAt(Group(pa), s, j, cap) ==
      (if Tagged(s[j..FieldEnd(s, j)], pa) then Some(Hit(FieldEnd(s, j), Span(j, FieldEnd(s, j)))) else None)
  {
    IdentShape(pa);
    var x := Head + pa + TailInit;
    GroupOfField(x, s, j, cap);
  }

  /** The engine's match at `s[p]` is the one read off the fields. */
  lemma {:induction false} MatchAtIsScan(pa: seq<Atom>, sep: Class, s: string, p: nat, cap: Span)
    requires OnlyOne(pa)
    requires sep == Space || sep == Blank
    requires cap.start <= cap.end <= p <= |s|
    requires IdentStaysInField(pa, s, p)
    requires IdentStaysInField(pa, s, SecondStart(sep, s, p))
    ensures MatchAt(Pattern(pa, sep), s, p, cap) == ScanAt(Ident(pa), sep, s, p)
  {
    IdentShape(pa);
    var b := [Plus(sep)] + Group(pa);
    assert b[0] == Plus(sep) && b[1..] == Group(pa);
    assert Pattern(pa, sep) == Ident(pa) + b;
    OpensFieldStarts(Group(pa), s, cap);
    FirstField(Ident(pa), b, Group(pa), sep, s, p, cap);
    GroupAt(pa, s, SecondStart(sep, s, p), cap);
  }

  /*
   * Pins made only of non-whitespace characters keep every match inside one field.
   */

  predicate NonSpaceClass(k: Class) {
    match k
    case Is(c) => !IsSpace(c)
    case NonSpace => true
    case Digit => true
    case _ => false
  }

  predicate NonSpaceAtoms(atoms: seq<Atom>) {
    forall n :: 0 <= n < |atoms| ==>
      match atoms[n]
      case One(k) => NonSpaceClass(k)
      case Plus(k) => NonSpaceClass(k)
      case _ => true
  }

  lemma {:induction false} NonSpaceLanguage(atoms: seq<Atom>, t: string)
    requires NonSpaceAtoms(atoms)
    requires Matches(atoms, t)
    ensures AllNonSpace(t)
    decreases |atoms|
  {
    if atoms != [] {
      var tl := atoms[1..];
      assert NonSpaceAtoms(tl) by {
        forall n | 0 <= n < |tl| ensures tl[n] == atoms[n + 1] { }
      }
      match atoms[0]
      case One(k) =>
        NonSpaceLanguage(tl, t[1..]);
        forall i | 0 <= i < |t| ensures !IsSpace(t[i]) {
          if i > 0 { assert t[i] == t[1..][i - 1]; }
        }
      case Plus(k) =>
        var n :| 1 <= n <= |t| && AllIn(k, t[..n]) && Matches(tl, t[n..]);
        NonSpaceLanguage(tl, t[n..]);
        forall i | 0 <= i < |t| ensures !IsSpace(t[i]) {
          if i < n { assert t[i] == t[..n][i]; } else { assert t[i] == t[n..][i - n]; }
        }
      case Open =>
        NonSpaceLanguage(tl, t);
      case Close =>
        NonSpaceLanguage(tl, t);
    }
  }

  lemma {:induction false} LiteralIdentStays(pin: string, s: string, i: nat)
    requires AllNonSpace(pin)
    requires i <= |s|
    ensures IdentStaysInField(PinAtoms(pin, false), s, i)
  {
    var id := Ident(PinAtoms(pin, false));
    assert NonSpaceAtoms(id) by {
      forall n | 0 <= n < |id| ensures
        match id[n] case One(k) => NonSpaceClass(k) case Plus(k) => NonSpaceClass(k) case _ => true
      {
        if 2 <= n < 2 + |pin| { assert id[n] == PinAtoms(pin, false)[n - 2]; }
      }
    }
    forall e | i <= e <= |s| && Matches(id, s[i..e]) ensures AllNonSpace(s[i..e]) {
      NonSpaceLanguage(id, s[i..e]);
    }
  }

  /*
   * A wildcard `.` in the pin accepts everything the literal one does.
   */

  predicate Within(k: Class, k': Class) {
    forall c :: In(k, c) ==> In(k', c)
  }

  /** `a` and `b` have the same shape and each class of `a` lies within the one of `b`. */
  predicate Narrower(a: seq<Atom>, b: seq<Atom>) {
    |a| == |b| &&
    forall n :: 0 <= n < |a| ==>
      match a[n]
      case One(k) => b[n].One? && Within(k, b[n].k)
      case Plus(k) => b[n].Plus? && Within(k, b[n].k)
      case Open => b[n] == Open
      case Close => b[n] == Close
  }

  lemma {:induction false} NarrowerMatches(a: seq<Atom>, b: seq<Atom>, t: string)
    requires Narrower(a, b)
    requires Matches(a, t)
    ensures Matches(b, t)
    decreases |a|
  {
    if a != [] {
      var a', b' := a[1..], b[1..];
      assert Narrower(a', b') by {
        forall n | 0 <= n < |a'| ensures a'[n] == a[n + 1] && b'[n] == b[n + 1] { }
      }
      match a[0]
      case One(k) =>
        NarrowerMatches(a', b', t[1..]);
      case Plus(k) =>
        var n :| 1 <= n <= |t| && AllIn(k, t[..n]) && Matches(a', t[n..]);
        NarrowerMatches(a', b', t[n..]);
        assert AllIn(b[0].k, t[..n]);
      case Open =>
        NarrowerMatches(a', b', t);
      case Close =>
        NarrowerMatches(a', b', t);
    }
  }

  /** A field tagged with any string the wildcard pin accepts is tagged with the pin as a regex. */
  lemma {:induction false} WildcardAccepts(pin: string, q: string, t: string)
    requires PinLike(q, pin, true)
    requires Tagged(t, PinAtoms(q, false))
    ensures Tagged(t, PinAtoms(pin, true))
  {
    var a, b := Ident(PinAtoms(q, false)), Ident(PinAtoms(pin, true));
    assert Narrower(a, b) by {
      forall n | 0 <= n < |a| ensures
        match a[n]
        case One(k) => b[n].One? && Within(k, b[n].k)
        case Plus(k) => b[n].Plus? && Within(k, b[n].k)
        case Open => b[n] == Open
        case Close => b[n] == Close
      {
        if 2 <= n < 2 + |pin| {
          assert a[n] == PinAtoms(q, false)[n - 2] && b[n] == PinAtoms(pin, true)[n - 2];
        } else if n < 2 {
          assert a[n] == Head[n] && b[n] == Head[n];
        } else {
          assert a[n] == Tail[n - 2 - |pin|] && b[n] == Tail[n - 2 - |pin|];
        }
      }
    }
    NarrowerMatches(a, b, t);
  }

  /** Every field tagged with the literal pin is tagged with the pin as a regex. */
  lemma {:induction false} WildcardAcceptsLiteral(pin: string, t: string)
    requires Tagged(t, PinAtoms(pin, false))
    ensures Tagged(t, PinAtoms(pin, true))
  {
    WildcardAccepts(pin, pin, t);
  }

  lemma {:induction false} NoDotPinIsLiteral(pin: string)
    requires '.' !in pin
    ensures PinAtoms(pin, true) == PinAtoms(pin, false)
  {
  }

  /*
   * From the engine's positions to the lines and fields of the listing.
   */

  /** Where the line starting at `s[p]` ends: at the next `\n` or at the end of the text. */
  function LineEnd(s: string, p: nat): (e: nat)
    requires p <= |s|
    ensures p <= e <= |s| && (e == |s| || s[e] == '\n')
  {
    p + LineLen(s[p..])
  }

  lemma {:induction false} TaggedNonEmpty(pa: seq<Atom>)
    ensures !Matches(Ident(pa), [])
  {
    assert Ident(pa)[0] == Plus(NonSpace);
  }

  lemma {:induction false} RunIsTokenLen(s: string, p: nat, e: nat)
    requires p <= e <= |s|
    requires e == |s| || IsSpace(s[e])
    ensures Run(NonSpace, s, p) == TokenLen(s[p..e])
  {
    var u := s[p..e];
    var n := TokenLen(u);
    assert u[..n] == s[p..p + n];
    assert AllIn(NonSpace, s[p..p + n]) by {
      var w := s[p..p + n];
      forall i | 0 <= i < |w| ensures In(NonSpace, w[i]) { assert w[i] == u[..n][i]; }
    }
    if n < |u| { assert s[p + n] == u[n]; }
    RunExact(NonSpace, s, p, p + n);
  }

  lemma {:induction false} BlankRunIsLeadingSpace(s: string, p: nat, f: nat, e: nat)
    requires p <= f <= e && p <= |s| && e == LineEnd(s, p)
    ensures Run(Blank, s, f) == LeadingSpace(s[f..e])
  {
    var u := s[f..e];
    var w := LeadingSpace(u);
    assert AllIn(Blank, s[f..f + w]) by {
      var v := s[f..f + w];
      forall i | 0 <= i < |v| ensures In(Blank, v[i]) {
        assert v[i] == u[..w][i] && v[i] == s[f + i];
        assert s[f + i] != '\n';
      }
    }
    if w < |u| { assert s[f + w] == u[w]; }
    RunExact(Blank, s, f, f + w);
  }

  lemma {:induction false} FieldsDropSpace(t: string, w: nat)
    requires w <= |t| && AllSpace(t[..w])
    ensures Fields(t) == Fields(t[w..])
    decreases w
  {
    if w > 0 {
      assert IsSpace(t[..w][0]);
      var t' := t[1..];
      assert AllSpace(t'[..w - 1]) by {
        var u, v := t'[..w - 1], t[..w];
        forall i | 0 <= i < |u| ensures IsSpace(u[i]) { assert u[i] == v[i + 1]; }
      }
      FieldsDropSpace(t', w - 1);
      assert t'[w - 1..] == t[w..];
    }
  }

  /** The corrected per-line rule on the text of one line: first field and second field, both matching `id`. */
  function FieldMatch(line: string, id: seq<Atom>): (r: Option<string>)
    ensures r.Some? ==> |Fields(line)| >= 2 && r.value == Fields(line)[1]
  {
    if |line| >= 1 && !IsSpace(line[0]) && |Fields(line)| >= 2 && Matches(id, Fields(line)[0]) && Matches(id, Fields(line)[1])
    then Some(Fields(line)[1]) else None
  }

  /** A line that starts with a field: that field, then the fields of the rest of the line. */
  lemma {:induction false} FirstFieldOfLine(s: string, p: nat, e: nat)
    requires p <= e <= |s| && e == LineEnd(s, p)
    requires FieldEnd(s, p) > p
    ensures FieldEnd(s, p) <= e && |s[p..e]| >= 1 && !IsSpace(s[p..e][0])
    ensures |Fields(s[p..e])| == 1 + |Fields(s[FieldEnd(s, p)..e])| && Fields(s[p..e])[0] == s[p..FieldEnd(s, p)]
    ensures |Fields(s[FieldEnd(s, p)..e])| >= 1 ==> Fields(s[p..e])[1] == Fields(s[FieldEnd(s, p)..e])[0]
    ensures FieldEnd(s, p) < e ==> IsSpace(s[FieldEnd(s, p)])
  {
    var line := s[p..e];
    var f1 := FieldEnd(s, p);
    RunIsTokenLen(s, p, e);
    var n1 := TokenLen(line);
    SliceAt(s, p, Run(NonSpace, s, p), e);
    assert line[..n1] == s[p..f1];
    assert line[0] == line[..n1][0];
    assert line[n1..] == s[f1..e];
    assert Fields(line) == [s[p..f1]] + Fields(s[f1..e]);
    if f1 < e { assert s[f1] == line[n1]; }
  }

  /** The blanks after a field do not change the fields of the rest of the line. */
  lemma {:induction false} BlanksAfterField(s: string, p: nat, f1: nat, e: nat) returns (j: nat)
    requires p <= f1 <= |s| && p <= |s| && e == LineEnd(s, p) && f1 <= e
    ensures j == f1 + Run(Blank, s, f1)
    ensures j <= e && Fields(s[f1..e]) == Fields(s[j..e]) && (j < e ==> !IsSpace(s[j]))
    ensures f1 < e && IsSpace(s[f1]) ==> f1 < j
  {
    j := f1 + Run(Blank, s, f1);
    var r := s[f1..e];
    BlankRunIsLeadingSpace(s, p, f1, e);
    var w := LeadingSpace(r);
    FieldsDropSpace(r, w);
    assert r[w..] == s[f1 + w..e];
    if w < |r| { assert r[w] == s[f1 + w]; }
    if f1 < e { assert r[0] == s[f1]; }
  }

  /** The field at `s[j]`, up to a whitespace at `e`, heads the fields of `s[j..e]`. */
  lemma {:induction false} FieldHeads(s: string, j: nat, e: nat)
    requires j < e <= |s|
    requires !IsSpace(s[j])
    requires e == |s| || s[e] == '\n'
    ensures j < FieldEnd(s, j) <= e && |Fields(s[j..e])| >= 1 && Fields(s[j..e])[0] == s[j..FieldEnd(s, j)]
  {
    var f2 := FieldEnd(s, j);
    RunIsTokenLen(s, j, e);
    var m := s[j..e];
    assert m[0] == s[j];
    assert m[..f2 - j] == s[j..f2];
    assert Fields(m) == [s[j..f2]] + Fields(m[f2 - j..]);
  }

  /** `ScanAt` with a separator that stops at `\n` agrees with `FieldMatch` on the line at `s[p]`, and its match ends inside that line. */
  predicate ScanMatchesLine(id: seq<Atom>, s: string, p: nat)
    requires p <= |s|
  {
    ScanLineAgrees(ScanAt(id, Blank, s, p), FieldMatch(s[p..LineEnd(s, p)], id), s, p, LineEnd(s, p))
  }

  predicate ScanLineAgrees(h: Option<Hit>, m: Option<string>, s: string, p: nat, e: nat) {
    (h.Some? <==> m.Some?) &&
    (h.Some? ==> p < h.value.end <= e && h.value.group.start <= h.value.group.end == h.value.end && h.value.end <= |s| &&
                 s[h.value.group.start..h.value.group.end] == m.value)
  }

  lemma {:induction false} ScanNoField(id: seq<Atom>, s: string, p: nat)
    requires p <= |s| && FieldEnd(s, p) == p
    requires !Matches(id, [])
    ensures ScanMatchesLine(id, s, p)
  {
    var e := LineEnd(s, p);
    assert s[p..p] == [];
    RunIsTokenLen(s, p, e);
    assert s[p..e] == [] || IsSpace(s[p..e][0]);
  }

  lemma {:induction false} ScanOneField(id: seq<Atom>, s: string, p: nat)
    requires p <= |s| && FieldEnd(s, p) > p
    requires FieldEnd(s, p) + Run(Blank, s, FieldEnd(s, p)) == LineEnd(s, p)
    requires !Matches(id, [])
    ensures ScanMatchesLine(id, s, p)
  {
    OneFieldLine(s, p);
    OneFieldScan(id, s, p);
  }

  /** A line holding a single field has no second field. */
  lemma {:induction false} OneFieldLine(s: string, p: nat)
    requires p <= |s| && FieldEnd(s, p) > p
    requires FieldEnd(s, p) + Run(Blank, s, FieldEnd(s, p)) == LineEnd(s, p)
    ensures |Fields(s[p..LineEnd(s, p)])| == 1
  {
    FirstFieldOfLine(s, p, LineEnd(s, p));
    var j := BlanksAfterField(s, p, FieldEnd(s, p), LineEnd(s, p));
    assert s[j..LineEnd(s, p)] == [];
  }

  /** On a line holding a single field, the engine's second field is empty. */
  lemma {:induction false} OneFieldScan(id: seq<Atom>, s: string, p: nat)
    requires p <= |s|
    requires SecondStart(Blank, s, p) == LineEnd(s, p)
    requires !Matches(id, [])
    ensures ScanAt(id, Blank, s, p) == None
  {
    assert Run(NonSpace, s, LineEnd(s, p)) == 0;
    assert s[LineEnd(s, p)..LineEnd(s, p)] == [];
  }

  lemma {:induction false} ScanTwoFields(id: seq<Atom>, s: string, p: nat)
    requires p <= |s| && FieldEnd(s, p) > p
    requires FieldEnd(s, p) + Run(Blank, s, FieldEnd(s, p)) < LineEnd(s, p)
    ensures ScanMatchesLine(id, s, p)
  {
    var e := LineEnd(s, p);
    var f1 := FieldEnd(s, p);
    FirstFieldOfLine(s, p, e);
    var j := BlanksAfterField(s, p, f1, e);
    FieldHeads(s, j, e);
    var f2 := FieldEnd(s, j);
    var line := s[p..e];
    assert j == SecondStart(Blank, s, p);
    assert |Fields(line)| >= 2 && Fields(line)[0] == s[p..f1] && Fields(line)[1] == s[j..f2];
    var both := Matches(id, s[p..f1]) && Matches(id, s[j..f2]);
    assert ScanAt(id, Blank, s, p) == if both then Some(Hit(f2, Span(j, f2))) else None;
    assert FieldMatch(line, id) == if both then Some(s[j..f2]) else None;
  }

  /** The corrected per-line rule on the engine's side is `FieldMatch` on the line. */
  lemma {:induction false} ScanLine(id: seq<Atom>, s: string, p: nat)
    requires p <= |s|
    requires !Matches(id, [])
    ensures ScanMatchesLine(id, s, p)
  {
    var f1 := FieldEnd(s, p);
    if f1 == p {
      ScanNoField(id, s, p);
    } else if f1 + Run(Blank, s, f1) == LineEnd(s, p) {
      ScanOneField(id, s, p);
    } else {
      FirstFieldOfLine(s, p, LineEnd(s, p));
      var j := BlanksAfterField(s, p, f1, LineEnd(s, p));
      ScanTwoFields(id, s, p);
    }
  }

  /*
   * From one line to the whole listing.
   */

  /** The per-line results of `FieldMatch` for the lines from the line start `p` on, in order. */
  function ScanFrom(id: seq<Atom>, s: string, p: nat): seq<string>
    requires p <= |s|
    decreases |s| - p
  {
    LineResult(FieldMatch(s[p..LineEnd(s, p)], id)) +
    (if LineEnd(s, p) == |s| then [] else ScanFrom(id, s, LineEnd(s, p) + 1))
  }

  /** The engine agrees with `FieldMatch` on every line from the line start `p` on. */
  ghost predicate LinesAgree(atoms: seq<Atom>, id: seq<Atom>, s: string, p: nat)
    requires p <= |s|
    decreases |s| - p
  {
    ScanLineAgrees(MatchAt(atoms, s, p, Span(0, 0)), FieldMatch(s[p..LineEnd(s, p)], id), s, p, LineEnd(s, p)) &&
    (LineEnd(s, p) < |s| ==> LinesAgree(atoms, id, s, LineEnd(s, p) + 1))
  }

  /** No search starts from inside a line: the scan skips to the next line. */
  lemma {:induction false} SkipInsideLine(atoms: seq<Atom>, s: string, p: nat, q: nat)
    requires p <= |s| && p < q <= LineEnd(s, p) + 1
    ensures FindAllFrom(atoms, s, q) == FindAllFrom(atoms, s, LineEnd(s, p) + 1)
    decreases LineEnd(s, p) + 1 - q
  {
    if q <= LineEnd(s, p) {
      InsideLine(s, p, q - 1);
      SkipInsideLine(atoms, s, p, q + 1);
    }
  }

  /** No line break comes before the end of the line. */
  lemma {:induction false} InsideLine(s: string, p: nat, x: nat)
    requires p <= |s| && p <= x < LineEnd(s, p)
    ensures s[x] != '\n'
  {
    var t := s[p..];
    assert s[x] == t[..LineLen(t)][x - p];
  }

  /** The contribution of one line to the per-line scan. */
  function LineResult(m: Option<string>): seq<string> {
    match m case Some(v) => [v] case None => []
  }

  /** One step of `findall` on a line that the engine reads as `FieldMatch` does. */
  lemma {:induction false} FindAllLineStep(atoms: seq<Atom>, id: seq<Atom>, s: string, p: nat)
    requires p <= |s| && AtLineStart(s, p)
    requires ScanLineAgrees(MatchAt(atoms, s, p, Span(0, 0)), FieldMatch(s[p..LineEnd(s, p)], id), s, p, LineEnd(s, p))
    ensures FindAllFrom(atoms, s, p) == LineResult(FieldMatch(s[p..LineEnd(s, p)], id)) + FindAllFrom(atoms, s, LineEnd(s, p) + 1)
  {
    match MatchAt(atoms, s, p, Span(0, 0))
    case Some(h) =>
      SkipInsideLine(atoms, s, p, h.end);
    case None =>
      SkipInsideLine(atoms, s, p, p + 1);
  }

  /** `findall` on a listing whose every line the engine reads as `FieldMatch` does is the per-line scan. */
  lemma {:induction false} FindAllByLines(atoms: seq<Atom>, id: seq<Atom>, s: string, p: nat)
    requires p <= |s| && AtLineStart(s, p)
    requires LinesAgree(atoms, id, s, p)
    ensures FindAllFrom(atoms, s, p) == ScanFrom(id, s, p)
    decreases |s| - p
  {
    FindAllLineStep(atoms, id, s, p);
    ScanFromUnfold(id, s, p);
    if LineEnd(s, p) < |s| {
      FindAllByLines(atoms, id, s, LineEnd(s, p) + 1);
    } else {
      assert FindAllFrom(atoms, s, LineEnd(s, p) + 1) == [];
    }
  }

  lemma {:induction false} ScanFromUnfold(id: seq<Atom>, s: string, p: nat)
    requires p <= |s|
    ensures ScanFrom(id, s, p) == LineResult(FieldMatch(s[p..LineEnd(s, p)], id)) + (if LineEnd(s, p) == |s| then [] else ScanFrom(id, s, LineEnd(s, p) + 1))
  {
  }

  /** A pin free of whitespace, taken literally, with a separator that stops at `\n`: the engine reads every line by its fields. */
  lemma {:induction false} LiteralLinesAgree(pin: string, s: string, p: nat)
    requires AllNonSpace(pin)
    requires p <= |s|
    ensures LinesAgree(Pattern(PinAtoms(pin, false), Blank), Ident(PinAtoms(pin, false)), s, p)
    decreases |s| - p
  {
    var pa := PinAtoms(pin, false);
    assert OnlyOne(pa);
    LiteralIdentStays(pin, s, p);
    LiteralIdentStays(pin, s, SecondStart(Blank, s, p));
    MatchAtIsScan(pa, Blank, s, p, Span(0, 0));
    TaggedNonEmpty(pa);
    ScanLine(Ident(pa), s, p);
    if LineEnd(s, p) < |s| {
      LiteralLinesAgree(pin, s, LineEnd(s, p) + 1);
    }
  }

  /*
   * The pattern as written, with a `\s+` separator and the pin as a regex, on listings where it
   * cannot reach past a line.
   */

  /** A line whose first field is tagged and is its only field. */
  predicate Dangling(line: string, id: seq<Atom>) {
    |line| >= 1 && !IsSpace(line[0]) && |Fields(line)| == 1 && Matches(id, Fields(line)[0])
  }

  /** No line before the last one, from the line start `p` on, is dangling. */
  predicate NoDanglingFrom(id: seq<Atom>, s: string, p: nat)
    requires p <= |s|
    decreases |s| - p
  {
    NotDanglingAt(id, s, p) && (LineEnd(s, p) < |s| ==> NoDanglingFrom(id, s, LineEnd(s, p) + 1))
  }

  /** The line at `p` is the last one or is not dangling. */
  predicate NotDanglingAt(id: seq<Atom>, s: string, p: nat)
    requires p <= |s|
  {
    LineEnd(s, p) < |s| ==> !Dangling(s[p..LineEnd(s, p)], id)
  }

  /** A line that starts with a tagged field dangles exactly when only blanks follow that field. */
  lemma {:induction false} DanglingIff(id: seq<Atom>, s: string, p: nat)
    requires p <= |s| && FieldEnd(s, p) > p
    requires Matches(id, s[p..FieldEnd(s, p)])
    ensures Dangling(s[p..LineEnd(s, p)], id) <==> SecondStart(Blank, s, p) == LineEnd(s, p)
  {
    var e := LineEnd(s, p);
    var f1 := FieldEnd(s, p);
    FirstFieldOfLine(s, p, e);
    var j := BlanksAfterField(s, p, f1, e);
    if j < e {
      FieldHeads(s, j, e);
    } else {
      assert s[j..e] == [];
    }
  }

  /** With no dangling line, the separator run of `\s+` stops where the one of `[^\S\n]+` does. */
  lemma {:induction false} SeparatorsAgree(id: seq<Atom>, s: string, p: nat)
    requires p <= |s| && FieldEnd(s, p) > p
    requires Matches(id, s[p..FieldEnd(s, p)])
    requires NotDanglingAt(id, s, p)
    ensures SecondStart(Space, s, p) == SecondStart(Blank, s, p)
  {
    var e := LineEnd(s, p);
    var f1 := FieldEnd(s, p);
    DanglingIff(id, s, p);
    var j := BlanksAfterField(s, p, f1, e);
    assert j == SecondStart(Blank, s, p);
    assert j < e || e == |s|;
    BlankRunIsSpaceRun(s, f1);
  }

  /** A run of blanks that stops at a non-whitespace character or at the end is also the run of whitespace. */
  lemma {:induction false} BlankRunIsSpaceRun(s: string, f: nat)
    requires f <= |s|
    requires f + Run(Blank, s, f) == |s| || !IsSpace(s[f + Run(Blank, s, f)])
    ensures Run(Space, s, f) == Run(Blank, s, f)
  {
    var j := f + Run(Blank, s, f);
    var w := s[f..j];
    assert AllIn(Blank, w);
    assert AllIn(Space, w) by {
      forall i | 0 <= i < |w| ensures In(Space, w[i]) { assert In(Blank, w[i]); }
    }
    RunExact(Space, s, f, j);
  }

  /** At each line start the pattern as written behaves as the corrected one, for a pin without `.` on a listing with no dangling line. */
  lemma {:induction false} AsWrittenLine(pin: string, s: string, p: nat)
    requires '.' !in pin && AllNonSpace(pin)
    requires p <= |s|
    requires NotDanglingAt(Ident(PinAtoms(pin, false)), s, p)
    ensures MatchAt(Pattern(PinAtoms(pin, true), Space), s, p, Span(0, 0)) == MatchAt(Pattern(PinAtoms(pin, false), Blank), s, p, Span(0, 0))
  {
    NoDotPinIsLiteral(pin);
    var pa := PinAtoms(pin, false);
    assert OnlyOne(pa);
    LiteralIdentStays(pin, s, p);
    LiteralIdentStays(pin, s, SecondStart(Blank, s, p));
    LiteralIdentStays(pin, s, SecondStart(Space, s, p));
    MatchAtIsScan(pa, Blank, s, p, Span(0, 0));
    MatchAtIsScan(pa, Space, s, p, Span(0, 0));
    if Matches(Ident(pa), s[p..FieldEnd(s, p)]) {
      TaggedNonEmpty(pa);
      assert FieldEnd(s, p) > p;
      SeparatorsAgree(Ident(pa), s, p);
    }
  }

  lemma {:induction false} AsWrittenLinesAgree(pin: string, s: string, p: nat)
    requires '.' !in pin && AllNonSpace(pin)
    requires p <= |s|
    requires NoDanglingFrom(Ident(PinAtoms(pin, false)), s, p)
    ensures LinesAgree(Pattern(PinAtoms(pin, true), Space), Ident(PinAtoms(pin, false)), s, p)
    decreases |s| - p
  {
    AsWrittenLine(pin, s, p);
    LiteralLinesAgree(pin, s, p);
    if LineEnd(s, p) < |s| {
      AsWrittenLinesAgree(pin, s, LineEnd(s, p) + 1);
    }
  }
}
