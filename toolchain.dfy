/**
 * `find_matching_python_verions` and the exactly-one check of `python_exec_path`.
 *
 * A line of `uv python list` output names a toolchain in its first field and,
 * when it is installed, the interpreter's path in its second. A field is tagged
 * with the pin `P` when it reads `A-P.D-B` with `A` and `B` free of whitespace and
 * `D` a run of ASCII digits. The matcher returns, in line order, the second field of
 * every line that starts with a field, has a second one, and whose first two fields
 * are both tagged.
 */
module Toolchain {
  import opened Wrappers
  import opened PyText
  import opened Regex
  import opened ListingPattern
  import opened BuildErrors

  /** `t` reads `a-pin.d-b`. */
  predicate IsTag(t: string, pin: string, a: string, d: string, b: string) {
    t == a + "-" + pin + "." + d + "-" + b &&
    |a| >= 1 && AllNonSpace(a) && |d| >= 1 && AllDigits(d) && |b| >= 1 && AllNonSpace(b)
  }

  /** `t` is tagged with the pinned version. */
  ghost predicate HasTag(t: string, pin: string) {
    exists a, d, b :: IsTag(t, pin, a, d, b)
  }

  /** What one listing line contributes: its second field, when both leading fields are tagged. */
  ghost function LineMatch(line: string, pin: string): (r: Option<string>)
    ensures r.Some? ==> HasTag(r.value, pin)
  {
    var fs := Fields(line);
    if |line| >= 1 && !IsSpace(line[0]) && |fs| >= 2 && HasTag(fs[0], pin) && HasTag(fs[1], pin)
    then Some(fs[1]) else None
  }

  /** The contributions of the lines, in order. */
  ghost function ListingMatches(lines: seq<string>, pin: string): (r: seq<string>)
    ensures |r| <= |lines|
    ensures forall k :: 0 <= k < |r| ==> HasTag(r[k], pin) && |r[k]| > 0 && AllNonSpace(r[k])
  {
    if lines == [] then []
    else
      var m := LineMatch(lines[0], pin);
      assert m.Some? ==> m.value == Fields(lines[0])[1];
      LineResult(m) + ListingMatches(lines[1..], pin)
  }

  /** The matcher with the pin taken literally and a separator that stays on the line. */
  function FindMatching(listing: string, pin: string): seq<string> {
    FindAllFrom(Pattern(PinAtoms(pin, false), Blank), listing, 0)
  }

  /**
   * A pin with none of the characters that `re` reads as syntax outside a class,
   * other than `.`: `\ ^ $ * + ? { } [ ] | ( )`. For such a pin the pattern as
   * compiled treats every character but `.` literally, as `PinAtoms` does.
   */
  predicate PlainPin(pin: string) {
    forall n :: 0 <= n < |pin| ==> pin[n] !in "\\^$*+?{}[]|()"
  }

  /** The matcher as the source compiles it: the pin unescaped and `\s+` between the fields. */
  function FindMatchingAsWritten(listing: string, pin: string): seq<string> {
    FindAllFrom(Pattern(PinAtoms(pin, true), Space), listing, 0)
  }

  /*
   * The language of the field pattern is the set of tagged fields.
   */

  lemma {:induction false} PlusFront(k: Class, rest: seq<Atom>, u: string, v: string)
    requires |u| >= 1 && AllIn(k, u) && Matches(rest, v)
    ensures Matches([Plus(k)] + rest, u + v)
  {
    var a := [Plus(k)] + rest;
    assert a[0] == Plus(k) && a[1..] == rest;
    assert (u + v)[..|u|] == u && (u + v)[|u|..] == v;
  }

  lemma {:induction false} OneFront(c: char, rest: seq<Atom>, v: string)
    requires Matches(rest, v)
    ensures Matches([One(Is(c))] + rest, [c] + v)
  {
    var a := [One(Is(c))] + rest;
    assert a[0] == One(Is(c)) && a[1..] == rest;
    assert ([c] + v)[1..] == v;
  }

  lemma {:induction false} OneBack(c: char, rest: seq<Atom>, t: string)
    requires Matches([One(Is(c))] + rest, t)
    ensures |t| >= 1 && t[0] == c && Matches(rest, t[1..]) && t == [c] + t[1..]
  {
    var a := [One(Is(c))] + rest;
    assert a[0] == One(Is(c)) && a[1..] == rest;
  }

  lemma {:induction false} PlusBack(k: Class, rest: seq<Atom>, t: string) returns (n: nat)
    requires Matches([Plus(k)] + rest, t)
    ensures 1 <= n <= |t| && AllIn(k, t[..n]) && Matches(rest, t[n..]) && t == t[..n] + t[n..]
  {
    var a := [Plus(k)] + rest;
    assert a[0] == Plus(k) && a[1..] == rest;
    n := PlusSplit(a, t);
  }

  lemma {:induction false} PlusOnlyBack(k: Class, t: string)
    requires Matches([Plus(k)], t)
    ensures |t| >= 1 && AllIn(k, t)
  {
    var n :| 1 <= n <= |t| && AllIn(k, t[..n]) && Matches([Plus(k)][1..], t[n..]);
    assert t[n..] == [];
    assert t[..n] == t;
  }

  lemma {:induction false} LitsFront(pin: string, rest: seq<Atom>, v: string)
    requires Matches(rest, v)
    ensures Matches(PinAtoms(pin, false) + rest, pin + v)
    decreases |pin|
  {
    if pin != [] {
      LitsFront(pin[1..], rest, v);
      assert PinAtoms(pin, false) + rest == [One(Is(pin[0]))] + (PinAtoms(pin[1..], false) + rest);
      OneFront(pin[0], PinAtoms(pin[1..], false) + rest, pin[1..] + v);
      assert pin + v == [pin[0]] + (pin[1..] + v);
    } else {
      assert PinAtoms(pin, false) + rest == rest && pin + v == v;
    }
  }

  lemma {:induction false} PinBack(pin: string, wild: bool, rest: seq<Atom>, t: string)
    requires Matches(PinAtoms(pin, wild) + rest, t)
    ensures |pin| <= |t| && PinLike(t[..|pin|], pin, wild) && Matches(rest, t[|pin|..])
    decreases |pin|
  {
    if pin != [] {
      var k := if wild && pin[0] == '.' then AnyButNewline else Is(pin[0]);
      var a := PinAtoms(pin, wild) + rest;
      assert a[0] == One(k) && a[1..] == PinAtoms(pin[1..], wild) + rest;
      PinBack(pin[1..], wild, rest, t[1..]);
      assert t[1..][|pin| - 1..] == t[|pin|..];
      var q := t[..|pin|];
      forall n | 0 <= n < |pin| ensures if wild && pin[n] == '.' then q[n] != '\n' else q[n] == pin[n] {
        if n > 0 { assert q[n] == t[1..][..|pin| - 1][n - 1] && pin[n] == pin[1..][n - 1]; }
      }
    } else {
      assert PinAtoms(pin, wild) + rest == rest;
    }
  }

  lemma {:induction false} AllInNonSpace(t: string)
    ensures AllIn(NonSpace, t) <==> AllNonSpace(t)
  {
  }

  lemma {:induction false} AllInDigit(t: string)
    ensures AllIn(Digit, t) <==> AllDigits(t)
  {
  }

  lemma {:induction false} Reassociate(a: string, b: string, c: string, d: string, e: string, f: string, g: string)
    ensures a + b + c + d + e + f + g == a + (b + (c + (d + (e + (f + g)))))
  {
  }

  /** The field pattern, nested to the right. */
  lemma {:induction false} IdentNested(pin: string, wild: bool)
    ensures Ident(PinAtoms(pin, wild)) ==
      [Plus(NonSpace)] + ([One(Is('-'))] + (PinAtoms(pin, wild) +
        ([One(Is('.'))] + ([Plus(Digit)] + ([One(Is('-'))] + [Plus(NonSpace)])))))
  {
  }

  lemma {:induction false} TaggedOfTag(t: string, pin: string, a: string, d: string, b: string)
    requires IsTag(t, pin, a, d, b)
    ensures Tagged(t, PinAtoms(pin, false))
  {
    IdentNested(pin, false);
    AllInNonSpace(a);
    AllInNonSpace(b);
    AllInDigit(d);
    MatchesPlusOnly(NonSpace, b);
    OneFront('-', [Plus(NonSpace)], b);
    PlusFront(Digit, [One(Is('-'))] + [Plus(NonSpace)], d, "-" + b);
    OneFront('.', [Plus(Digit)] + ([One(Is('-'))] + [Plus(NonSpace)]), d + ("-" + b));
    LitsFront(pin, [One(Is('.'))] + ([Plus(Digit)] + ([One(Is('-'))] + [Plus(NonSpace)])), "." + (d + ("-" + b)));
    OneFront('-', PinAtoms(pin, false) + ([One(Is('.'))] + ([Plus(Digit)] + ([One(Is('-'))] + [Plus(NonSpace)]))),
      pin + ("." + (d + ("-" + b))));
    PlusFront(NonSpace, [One(Is('-'))] + (PinAtoms(pin, false) + ([One(Is('.'))] + ([Plus(Digit)] + ([One(Is('-'))] + [Plus(NonSpace)])))),
      a, "-" + (pin + ("." + (d + ("-" + b)))));
    Reassociate(a, "-", pin, ".", d, "-", b);
  }

  /** A field the field pattern matches splits as a tag around a string the pin's atoms accept. */
  lemma {:induction false} TagSplit(t: string, pin: string, wild: bool) returns (a: string, q: string, d: string, b: string)
    requires Tagged(t, PinAtoms(pin, wild))
    ensures IsTag(t, q, a, d, b) && PinLike(q, pin, wild)
  {
    IdentNested(pin, wild);
    var tail := [One(Is('-'))] + [Plus(NonSpace)];
    var n1 := PlusBack(NonSpace, [One(Is('-'))] + (PinAtoms(pin, wild) + ([One(Is('.'))] + ([Plus(Digit)] + tail))), t);
    a := t[..n1];
    var t1 := t[n1..];
    OneBack('-', PinAtoms(pin, wild) + ([One(Is('.'))] + ([Plus(Digit)] + tail)), t1);
    var t2 := t1[1..];
    PinBack(pin, wild, [One(Is('.'))] + ([Plus(Digit)] + tail), t2);
    q := t2[..|pin|];
    var t3 := t2[|pin|..];
    assert t2 == q + t3;
    OneBack('.', [Plus(Digit)] + tail, t3);
    var t4 := t3[1..];
    var n2 := PlusBack(Digit, tail, t4);
    d := t4[..n2];
    var t5 := t4[n2..];
    OneBack('-', [Plus(NonSpace)], t5);
    b := t5[1..];
    PlusOnlyBack(NonSpace, b);
    AllInNonSpace(a);
    AllInNonSpace(b);
    AllInDigit(d);
    Reassociate(a, "-", q, ".", d, "-", b);
  }

  lemma {:induction false} PinLikeLiteral(q: string, pin: string)
    requires PinLike(q, pin, false)
    ensures q == pin
  {
  }

  /** A field is matched by the literal field pattern exactly when it is tagged. */
  lemma {:induction false} TaggedIff(t: string, pin: string)
    ensures Tagged(t, PinAtoms(pin, false)) <==> HasTag(t, pin)
  {
    if Tagged(t, PinAtoms(pin, false)) {
      var a, q, d, b := TagSplit(t, pin, false);
      PinLikeLiteral(q, pin);
    }
    if HasTag(t, pin) {
      var a, d, b :| IsTag(t, pin, a, d, b);
      TaggedOfTag(t, pin, a, d, b);
    }
  }

  /*
   * A pin with `.` as a wildcard still keeps a match inside one field when the
   * wildcard cannot land on the whitespace after it.
   */

  /** A whitespace character of a tag lies in the part the pin's atoms matched. */
  lemma {:induction false} SpaceInTag(t: string, q: string, a: string, d: string, b: string, z: nat)
    requires IsTag(t, q, a, d, b)
    requires z < |t| && IsSpace(t[z])
    ensures |a| < z < |a| + 1 + |q| && t[z] == q[z - |a| - 1] && t[|a|] == '-'
  {
    Reassociate(a, "-", q, ".", d, "-", b);
    var r := "." + (d + ("-" + b));
    assert t == a + ("-" + (q + r));
    assert AllNonSpace(r) by {
      forall x | 0 <= x < |r| ensures !IsSpace(r[x]) {
        if x > 0 && x <= |d| { assert r[x] == d[x - 1]; }
        else if x > |d| + 1 { assert r[x] == b[x - |d| - 2]; }
      }
    }
    assert t[|a|] == '-';
  }

  lemma {:induction false} InsideField(s: string, i: nat, e: nat)
    requires i <= |s| && i <= e <= FieldEnd(s, i)
    ensures AllNonSpace(s[i..e])
  {
    var r := Run(NonSpace, s, i);
    assert FieldEnd(s, i) == i + r;
    var t, u := s[i..e], s[i..i + r];
    forall x | 0 <= x < |t| ensures !IsSpace(t[x]) {
      assert x < |u| && t[x] == s[i + x] == u[x];
      assert In(NonSpace, u[x]);
    }
  }

  /**
   * With `.` as a wildcard, a match at `s[i]` stays inside the field there unless, for
   * some wildcard offset `w` of the pin, the field has a `-` `w + 1` characters before its end.
   */
  lemma {:induction false} WildStays(pin: string, s: string, i: nat)
    requires AllNonSpace(pin) && i <= |s|
    requires forall w :: 0 <= w < |pin| && pin[w] == '.' && i + 1 + w <= FieldEnd(s, i) ==> s[FieldEnd(s, i) - 1 - w] != '-'
    ensures IdentStaysInField(PinAtoms(pin, true), s, i)
  {
    forall e | i <= e <= |s| && Matches(Ident(PinAtoms(pin, true)), s[i..e]) ensures AllNonSpace(s[i..e]) {
      WildEndsInField(pin, s, i, e);
      InsideField(s, i, e);
    }
  }

  /** Under the same condition, a match at `s[i]` ends at or before the end of the field there. */
  lemma {:induction false} WildEndsInField(pin: string, s: string, i: nat, e: nat)
    requires AllNonSpace(pin) && i <= e <= |s|
    requires forall w :: 0 <= w < |pin| && pin[w] == '.' && i + 1 + w <= FieldEnd(s, i) ==> s[FieldEnd(s, i) - 1 - w] != '-'
    requires Matches(Ident(PinAtoms(pin, true)), s[i..e])
    ensures e <= FieldEnd(s, i)
  {
    if e > FieldEnd(s, i) {
      var w := CrossingDash(pin, s, i, e);
      assert false;
    }
  }

  /**
   * A wildcard match at `s[i]` that runs past the end of the field there has crossed the
   * whitespace with a wildcard `.` of the pin, at some offset `w`; the `-` before the pin then
   * sits `w + 1` characters before the end of the field.
   */
  lemma {:induction false} CrossingDash(pin: string, s: string, i: nat, e: nat) returns (w: nat)
    requires AllNonSpace(pin) && i <= |s| && FieldEnd(s, i) < e <= |s|
    requires Matches(Ident(PinAtoms(pin, true)), s[i..e])
    ensures w < |pin| && pin[w] == '.' && i + 1 + w <= FieldEnd(s, i) && s[FieldEnd(s, i) - 1 - w] == '-'
  {
    var a, q, d, b := TagSplit(s[i..e], pin, true);
    w := TagCrossingDash(pin, s, i, e, q, a, d, b);
  }

  lemma {:induction false} TagCrossingDash(pin: string, s: string, i: nat, e: nat, q: string, a: string, d: string, b: string)
    returns (w: nat)
    requires AllNonSpace(pin) && i <= |s| && FieldEnd(s, i) < e <= |s|
    requires IsTag(s[i..e], q, a, d, b) && PinLike(q, pin, true)
    ensures w < |pin| && pin[w] == '.' && i + 1 + w <= FieldEnd(s, i) && s[FieldEnd(s, i) - 1 - w] == '-'
  {
    var f := FieldEnd(s, i);
    var t := s[i..e];
    assert t[f - i] == s[f];
    WildcardAtSpace(pin, t, q, a, d, b, f - i);
    w := f - i - |a| - 1;
    assert f - 1 - w == i + |a|;
    assert s[f - 1 - w] == t[|a|];
  }

  /** A whitespace character inside a tag sits under a wildcard of the pin. */
  lemma {:induction false} WildcardAtSpace(pin: string, t: string, q: string, a: string, d: string, b: string, z: nat)
    requires AllNonSpace(pin) && IsTag(t, q, a, d, b) && PinLike(q, pin, true)
    requires z < |t| && IsSpace(t[z])
    ensures |a| < z && z - |a| - 1 < |pin| && pin[z - |a| - 1] == '.' && t[|a|] == '-'
  {
    SpaceInTag(t, q, a, d, b, z);
    var w := z - |a| - 1;
    assert IsSpace(q[w]) && !IsSpace(pin[w]);
  }

  /*
   * The matcher reads the listing line by line.
   */

  /** The lines from the line start `p` on: the line at `p`, then the lines after its `\n`. */
  lemma {:induction false} LinesStep(s: string, p: nat)
    requires p <= |s|
    ensures Lines(s[p..]) == [s[p..LineEnd(s, p)]] + (if LineEnd(s, p) == |s| then [] else Lines(s[LineEnd(s, p) + 1..]))
  {
    if LineEnd(s, p) == |s| {
      LastLineStep(s, p);
    } else {
      InnerLineStep(s, p, LineEnd(s, p));
    }
  }

  lemma {:induction false} LastLineStep(s: string, p: nat)
    requires p <= |s| && LineEnd(s, p) == |s|
    ensures Lines(s[p..]) == [s[p..LineEnd(s, p)]]
  {
    var t := s[p..];
    assert LineLen(t) == |t|;
    assert s[p..|s|] == t;
  }

  lemma {:induction false} InnerLineStep(s: string, p: nat, e: nat)
    requires p <= |s| && e == LineEnd(s, p) && e < |s|
    ensures Lines(s[p..]) == [s[p..e]] + Lines(s[e + 1..])
  {
    var t := s[p..];
    var n := LineLen(t);
    LineSlices(s, p, n, e);
    assert Lines(t) == [t[..n]] + Lines(t[n + 1..]);
    assert Lines(t[n + 1..]) == Lines(s[e + 1..]);
    assert [t[..n]] == [s[p..e]];
  }

  /** The field-level rule of the engine is the tag-level rule of the specification. */
  lemma {:induction false} FieldMatchIsLineMatch(line: string, pin: string)
    ensures FieldMatch(line, Ident(PinAtoms(pin, false))) == LineMatch(line, pin)
  {
    var fs := Fields(line);
    if |fs| >= 2 {
      TaggedIff(fs[0], pin);
      TaggedIff(fs[1], pin);
    }
  }

  lemma {:induction false} ListingMatchesCons(line: string, rest: seq<string>, pin: string)
    ensures ListingMatches([line] + rest, pin) == LineResult(LineMatch(line, pin)) + ListingMatches(rest, pin)
  {
    assert ([line] + rest)[0] == line && ([line] + rest)[1..] == rest;
  }

  lemma {:induction false} ScanFromLines(pin: string, s: string, p: nat)
    requires p <= |s|
    ensures ScanFrom(Ident(PinAtoms(pin, false)), s, p) == ListingMatches(Lines(s[p..]), pin)
    decreases |s| - p
  {
    var e := LineEnd(s, p);
    LinesStep(s, p);
    FieldMatchIsLineMatch(s[p..e], pin);
    if e == |s| {
      ListingMatchesCons(s[p..e], [], pin);
    } else {
      ScanFromLines(pin, s, e + 1);
      ListingMatchesCons(s[p..e], Lines(s[e + 1..]), pin);
    }
  }

  /**
   * The matcher's result is, in line order, the second field of each line that starts
   * with a field and whose first two fields are tagged: at most one per line.
   */
  lemma {:induction false} FindMatchingSpec(listing: string, pin: string)
    requires AllNonSpace(pin)
    ensures FindMatching(listing, pin) == ListingMatches(Lines(listing), pin)
  {
    var pa := PinAtoms(pin, false);
    LiteralLinesAgree(pin, listing, 0);
    FindAllByLines(Pattern(pa, Blank), Ident(pa), listing, 0);
    ScanFromLines(pin, listing, 0);
    assert listing[0..] == listing;
  }

  /*
   * Where the pattern as written agrees with the corrected one.
   */

  /** A line whose first field is tagged and is its only field. */
  ghost predicate DanglingLine(line: string, pin: string) {
    |line| >= 1 && !IsSpace(line[0]) && |Fields(line)| == 1 && HasTag(Fields(line)[0], pin)
  }

  /** No line but the last is dangling. */
  ghost predicate NoDangling(lines: seq<string>, pin: string) {
    forall k :: 0 <= k < |lines| - 1 ==> !DanglingLine(lines[k], pin)
  }

  lemma {:induction false} DanglingIsDanglingLine(line: string, pin: string)
    ensures Dangling(line, Ident(PinAtoms(pin, false))) <==> DanglingLine(line, pin)
  {
    if |Fields(line)| == 1 {
      TaggedIff(Fields(line)[0], pin);
    }
  }

  lemma {:induction false} NoDanglingTail(ls: seq<string>, pin: string)
    requires |ls| >= 2 && NoDangling(ls, pin)
    ensures !DanglingLine(ls[0], pin) && NoDangling(ls[1..], pin)
  {
    forall k | 0 <= k < |ls[1..]| - 1 ensures !DanglingLine(ls[1..][k], pin) {
      assert ls[1..][k] == ls[k + 1];
    }
  }

  lemma {:induction false} NoDanglingFromLines(pin: string, s: string, p: nat)
    requires p <= |s|
    requires NoDangling(Lines(s[p..]), pin)
    ensures NoDanglingFrom(Ident(PinAtoms(pin, false)), s, p)
    decreases |s| - p
  {
    if LineEnd(s, p) < |s| {
      NoDanglingStep(pin, s, p, LineEnd(s, p));
      var q := LineEnd(s, p) + 1;
      NoDanglingFromLines(pin, s, q);
      NoDanglingFromStep(Ident(PinAtoms(pin, false)), s, p, q);
    } else {
      NoDanglingFromLast(Ident(PinAtoms(pin, false)), s, p);
    }
  }

  lemma {:induction false} NoDanglingFromStep(id: seq<Atom>, s: string, p: nat, q: nat)
    requires p <= |s| && LineEnd(s, p) < |s| && q == LineEnd(s, p) + 1
    requires NotDanglingAt(id, s, p) && NoDanglingFrom(id, s, q)
    ensures NoDanglingFrom(id, s, p)
  {
  }

  lemma {:induction false} NoDanglingFromLast(id: seq<Atom>, s: string, p: nat)
    requires p <= |s| && LineEnd(s, p) == |s|
    ensures NoDanglingFrom(id, s, p)
  {
  }

  /** The first line of `s[p..]` is not dangling, and neither is any but the last of the lines after it. */
  lemma {:induction false} NoDanglingStep(pin: string, s: string, p: nat, e: nat)
    requires p <= |s| && e == LineEnd(s, p) && e < |s|
    requires NoDangling(Lines(s[p..]), pin)
    ensures NotDanglingAt(Ident(PinAtoms(pin, false)), s, p) && NoDangling(Lines(s[e + 1..]), pin)
  {
    InnerLineStep(s, p, e);
    var ls := Lines(s[p..]);
    NoDanglingTail(ls, pin);
    assert ls[1..] == Lines(s[e + 1..]);
    DanglingIsDanglingLine(s[p..e], pin);
  }

  /** For a plain pin with no `.` and a listing with no dangling line, the pattern as written gives the corrected result. */
  lemma {:induction false} AsWrittenAgrees(listing: string, pin: string)
    requires PlainPin(pin) && '.' !in pin && AllNonSpace(pin)
    requires NoDangling(Lines(listing), pin)
    ensures FindMatchingAsWritten(listing, pin) == FindMatching(listing, pin)
  {
    var pa := PinAtoms(pin, false);
    assert listing[0..] == listing;
    NoDanglingFromLines(pin, listing, 0);
    AsWrittenLinesAgree(pin, listing, 0);
    FindAllByLines(Pattern(PinAtoms(pin, true), Space), Ident(pa), listing, 0);
    LiteralLinesAgree(pin, listing, 0);
    FindAllByLines(Pattern(pa, Blank), Ident(pa), listing, 0);
  }

  /*
   * The exactly-one check of `python_exec_path`.
   */

  /** The pin read from `.python-version`: the file's text with one final newline removed. */
  function ReadPin(versionFile: string): (pin: string)
    ensures versionFile == pin + "\n" || (pin == versionFile && (versionFile == [] || versionFile[|versionFile| - 1] != '\n'))
  {
    RemoveSuffix(versionFile, "\n")
  }

  /** Only one newline is removed: a file holding the pin on one line gives the pin back. */
  lemma {:induction false} ReadPinOfLine(pin: string)
    ensures ReadPin(pin + "\n") == pin
  {
    assert (pin + "\n")[|pin|..] == "\n";
  }

  /** The toolchain is chosen only when the matcher gives exactly one path. */
  function SelectToolchain(matches: seq<string>): (r: Result<string, BuildError>)
    ensures r.Success? <==> |matches| == 1
    ensures r.Success? ==> matches == [r.value]
    ensures r.Failure? ==> r.error == NotSingleToolchain(|matches|)
  {
    if |matches| == 1 then Success(matches[0]) else Failure(NotSingleToolchain(|matches|))
  }

  /** The toolchain chosen for a listing and a version file, before it becomes a path. */
  function ChooseToolchain(versionFile: string, listing: string): Result<string, BuildError> {
    SelectToolchain(FindMatching(listing, ReadPin(versionFile)))
  }

  /**
   * With a whitespace-free pin, a toolchain is chosen exactly when one line of the
   * listing has tagged first and second fields, and the choice is that line's second field.
   */
  lemma {:induction false} ChooseToolchainSpec(versionFile: string, listing: string, path: string)
    requires AllNonSpace(ReadPin(versionFile))
    ensures ChooseToolchain(versionFile, listing) == Success(path) <==> ListingMatches(Lines(listing), ReadPin(versionFile)) == [path]
    ensures ChooseToolchain(versionFile, listing).Failure? <==> |ListingMatches(Lines(listing), ReadPin(versionFile))| != 1
  {
    FindMatchingSpec(listing, ReadPin(versionFile));
  }

  /** The toolchain `python_exec_path` chooses with the pattern as the source compiles it. */
  function ChooseToolchainAsWritten(versionFile: string, listing: string): (r: Result<string, BuildError>)
    ensures r.Success? <==> |FindMatchingAsWritten(listing, ReadPin(versionFile))| == 1
    ensures r.Success? ==> FindMatchingAsWritten(listing, ReadPin(versionFile)) == [r.value]
    ensures r.Failure? ==> r.error == NotSingleToolchain(|FindMatchingAsWritten(listing, ReadPin(versionFile))|)
  {
    SelectToolchain(FindMatchingAsWritten(listing, ReadPin(versionFile)))
  }

  /**
   * For a plain pin with no `.` and a listing with no lone tagged field before its
   * last line, the pattern as compiled chooses what the corrected matcher chooses.
   */
  lemma {:induction false} ChooseAsWrittenAgrees(versionFile: string, listing: string)
    requires PlainPin(ReadPin(versionFile)) && '.' !in ReadPin(versionFile) && AllNonSpace(ReadPin(versionFile))
    requires NoDangling(Lines(listing), ReadPin(versionFile))
    ensures ChooseToolchainAsWritten(versionFile, listing) == ChooseToolchain(versionFile, listing)
  {
    AsWrittenAgrees(listing, ReadPin(versionFile));
  }
}
