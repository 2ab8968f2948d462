/**
 * The matcher on concrete listings: the four listings the build script's own tests
 * check, for the pattern as written and for the corrected one, and the two listings
 * on which the pattern as written goes wrong.
 */
module ListingCases {
  import opened Wrappers
  import opened PyText
  import opened Regex
  import opened ListingPattern
  import opened Toolchain
  import opened BuildErrors

  /*
   * Facts about strings that the concrete cases are built from.
   */

  lemma {:induction false} AllNonSpaceConcat(a: string, b: string)
    requires AllNonSpace(a) && AllNonSpace(b)
    ensures AllNonSpace(a + b)
  {
    forall i | 0 <= i < |a + b| ensures !IsSpace((a + b)[i]) {
      if i >= |a| { assert (a + b)[i] == b[i - |a|]; }
    }
  }

  /** Printable ASCII other than the blank: cheap to check on a literal, and free of whitespace. */
  predicate Printable(t: string) {
    forall i :: 0 <= i < |t| ==> '!' <= t[i] <= '~'
  }

  lemma {:induction false} PrintableNonSpace(t: string)
    requires Printable(t)
    ensures AllNonSpace(t)
  {
  }

  /** A field whose tail has no `-` where a `.` of the pin, matched as a wildcard, would land. */
  predicate DashFree(pin: string, f: string) {
    forall w :: 0 <= w < |pin| && pin[w] == '.' && w < |f| ==> f[|f| - 1 - w] != '-'
  }

  lemma {:induction false} NoTagShorterThanPin(t: string, pin: string, wild: bool)
    requires |t| < |pin| + 6
    ensures !Tagged(t, PinAtoms(pin, wild))
  {
    if Tagged(t, PinAtoms(pin, wild)) {
      var a, q, d, b := TagSplit(t, pin, wild);
      assert false;
    }
  }

  /** A tagged field is free of whitespace. */
  lemma {:induction false} TaggedNonSpace(t: string, pin: string)
    requires AllNonSpace(pin) && Tagged(t, PinAtoms(pin, false))
    ensures AllNonSpace(t) && |t| >= |pin| + 6
  {
    LiteralIdentStays(pin, t, 0);
    assert t[0..|t|] == t;
    if |t| < |pin| + 6 { NoTagShorterThanPin(t, pin, false); }
  }

  /** A tag assembled from its owner part, `-<pin>.<digits>-` and its suffix. */
  lemma {:induction false} TagOfParts(t: string, pin: string, a: string, d: string, b: string, m: string)
    requires t == a + m + b && m == "-" + pin + "." + d + "-"
    requires |a| >= 1 && AllNonSpace(a) && |d| >= 1 && AllDigits(d) && |b| >= 1 && AllNonSpace(b)
    ensures IsTag(t, pin, a, d, b)
  {
    assert t == a + (m + b);
    Reassociate(a, "-", pin, ".", d, "-", b);
    Reassociate("", "-", pin, ".", d, "-", b);
  }

  /** A field tagged with the pin `3.12` of the tests. */
  lemma {:induction false} PinTag(a: string, b: string)
    requires |a| >= 1 && AllNonSpace(a) && |b| >= 1 && AllNonSpace(b)
    ensures IsTag(a + "-3.12.6-" + b, "3.12", a, "6", b)
  {
    TagOfParts(a + "-3.12.6-" + b, "3.12", a, "6", b, "-3.12.6-");
  }

  /*
   * The engine on a line made of two fields.
   */

  /** Where the two fields of the line at `s[p]` start and end, given the classes of its pieces. */
  lemma {:induction false} FieldsAt(sep: Class, s: string, p: nat, a: nat, b: nat, c: nat)
    requires sep == Space || sep == Blank
    requires p < a < b < c <= |s|
    requires AllIn(NonSpace, s[p..a]) && AllIn(sep, s[a..b]) && AllIn(NonSpace, s[b..c])
    requires c == |s| || IsSpace(s[c])
    ensures FieldEnd(s, p) == a && SecondStart(sep, s, p) == b && FieldEnd(s, b) == c
  {
    assert s[a] == s[a..b][0];
    assert s[b] == s[b..c][0];
    RunExact(NonSpace, s, p, a);
    RunExact(sep, s, a, b);
    RunExact(NonSpace, s, b, c);
  }

  /** The pattern at `s[p]`, for two fields `s[p..a]` and `s[b..c]` with a separator run between them. */
  lemma {:induction false} MatchTwo(pa: seq<Atom>, sep: Class, s: string, p: nat, a: nat, b: nat, c: nat)
    requires OnlyOne(pa) && (sep == Space || sep == Blank)
    requires p < a < b < c <= |s|
    requires AllIn(NonSpace, s[p..a]) && AllIn(sep, s[a..b]) && AllIn(NonSpace, s[b..c])
    requires c == |s| || IsSpace(s[c])
    requires IdentStaysInField(pa, s, p) && IdentStaysInField(pa, s, b)
    ensures MatchAt(Pattern(pa, sep), s, p, Span(0, 0)) ==
      if Tagged(s[p..a], pa) && Tagged(s[b..c], pa) then Some(Hit(c, Span(b, c))) else None
  {
    FieldsAt(sep, s, p, a, b, c);
    MatchAtIsScan(pa, sep, s, p, Span(0, 0));
  }

  /** The corrected pattern at `s[p]` when the line holds one field only: no match. */
  lemma {:induction false} MatchOneField(pa: seq<Atom>, s: string, p: nat, a: nat)
    requires OnlyOne(pa)
    requires p < a < |s| && AllIn(NonSpace, s[p..a]) && s[a] == '\n'
    requires IdentStaysInField(pa, s, p) && IdentStaysInField(pa, s, a)
    ensures MatchAt(Pattern(pa, Blank), s, p, Span(0, 0)) == None
  {
    RunExact(NonSpace, s, p, a);
    assert s[a..a] == [];
    RunExact(Blank, s, a, a);
    MatchAtIsScan(pa, Blank, s, p, Span(0, 0));
  }

  /**
   * A listing of one line with fields `s[..a]` and `s[b..c]`: the pattern gives the second
   * field when both are tagged and nothing otherwise, provided no match at either field's
   * start leaves it.
   */
  lemma {:induction false} SingleLine(pa: seq<Atom>, sep: Class, s: string, a: nat, b: nat, c: nat)
    requires OnlyOne(pa) && (sep == Space || sep == Blank)
    requires 0 < a < b < c <= |s| && LineEnd(s, 0) == |s|
    requires AllIn(NonSpace, s[..a]) && AllIn(sep, s[a..b]) && AllIn(NonSpace, s[b..c])
    requires c == |s| || IsSpace(s[c])
    requires IdentStaysInField(pa, s, 0) && IdentStaysInField(pa, s, b)
    ensures FindAllFrom(Pattern(pa, sep), s, 0) == if Tagged(s[..a], pa) && Tagged(s[b..c], pa) then [s[b..c]] else []
  {
    assert s[0..a] == s[..a];
    MatchTwo(pa, sep, s, 0, a, b, c);
    if Tagged(s[..a], pa) && Tagged(s[b..c], pa) {
      SkipInsideLine(Pattern(pa, sep), s, 0, c);
    } else {
      SkipInsideLine(Pattern(pa, sep), s, 0, 1);
    }
  }

  /** A listing of one line has its line end at its end. */
  lemma {:induction false} SingleLineEnd(f1: string, gap: string, f2: string, rest: string)
    requires AllNonSpace(f1) && AllNonSpace(f2) && '\n' !in gap && '\n' !in rest
    ensures LineEnd(f1 + gap + f2 + rest, 0) == |f1 + gap + f2 + rest|
  {
    var s := f1 + gap + f2 + rest;
    forall e | 0 <= e < |s| ensures s[e] != '\n' {
      if e < |f1| {
        assert s[e] == f1[e];
      } else if e < |f1| + |gap| {
        assert s[e] == gap[e - |f1|];
      } else if e < |f1| + |gap| + |f2| {
        assert s[e] == f2[e - |f1| - |gap|];
      } else {
        assert s[e] == rest[e - |f1| - |gap| - |f2|];
      }
    }
  }

  /** The pieces of `f1 + gap + f2 + rest` at their offsets. */
  lemma {:induction false} PiecesAt(f1: string, gap: string, f2: string, rest: string)
    ensures (f1 + gap + f2 + rest)[..|f1|] == f1
    ensures (f1 + gap + f2 + rest)[|f1|..|f1| + |gap|] == gap
    ensures (f1 + gap + f2 + rest)[|f1| + |gap|..|f1| + |gap| + |f2|] == f2
    ensures |f1 + gap + f2 + rest| == |f1| + |gap| + |f2| + |rest|
    ensures rest != [] ==> (f1 + gap + f2 + rest)[|f1| + |gap| + |f2|] == rest[0]
  {
  }

  /** `SingleLine` for a listing written as its pieces: field, gap, field, and the rest of the line. */
  lemma {:induction false} OneLineListing(pa: seq<Atom>, sep: Class, f1: string, gap: string, f2: string, rest: string)
    requires OnlyOne(pa) && (sep == Space || sep == Blank)
    requires |f1| >= 1 && |gap| >= 1 && |f2| >= 1
    requires AllNonSpace(f1) && AllIn(sep, gap) && AllNonSpace(f2)
    requires '\n' !in gap && '\n' !in rest && (rest == [] || IsSpace(rest[0]))
    requires IdentStaysInField(pa, f1 + gap + f2 + rest, 0)
    requires IdentStaysInField(pa, f1 + gap + f2 + rest, |f1| + |gap|)
    ensures FindAllFrom(Pattern(pa, sep), f1 + gap + f2 + rest, 0) == if Tagged(f1, pa) && Tagged(f2, pa) then [f2] else []
  {
    PiecesAt(f1, gap, f2, rest);
    SingleLineEnd(f1, gap, f2, rest);
    AllInNonSpace(f1);
    AllInNonSpace(f2);
    SingleLine(pa, sep, f1 + gap + f2 + rest, |f1|, |f1| + |gap|, |f1| + |gap| + |f2|);
  }

  /** The wildcard pattern cannot leave the field at `s[i]` when the field is free of dashes where the pin has dots. */
  lemma {:induction false} WildStaysAt(pin: string, s: string, i: nat)
    requires AllNonSpace(pin) && i <= |s|
    requires DashFree(pin, s[i..FieldEnd(s, i)])
    ensures IdentStaysInField(PinAtoms(pin, true), s, i)
  {
    var f := s[i..FieldEnd(s, i)];
    forall w | 0 <= w < |pin| && pin[w] == '.' && i + 1 + w <= FieldEnd(s, i) ensures s[FieldEnd(s, i) - 1 - w] != '-' {
      assert s[FieldEnd(s, i) - 1 - w] == f[|f| - 1 - w];
    }
    WildStays(pin, s, i);
  }

  /** The wildcard pattern cannot leave either field of `f1 gap f2 rest`. */
  lemma {:induction false} WildStaysPieces(pin: string, f1: string, gap: string, f2: string, rest: string)
    requires AllNonSpace(pin)
    requires |f1| >= 1 && |gap| >= 1 && |f2| >= 1
    requires AllNonSpace(f1) && AllIn(Space, gap) && AllNonSpace(f2) && (rest == [] || IsSpace(rest[0]))
    requires DashFree(pin, f1) && DashFree(pin, f2)
    ensures IdentStaysInField(PinAtoms(pin, true), f1 + gap + f2 + rest, 0)
    ensures IdentStaysInField(PinAtoms(pin, true), f1 + gap + f2 + rest, |f1| + |gap|)
  {
    WildStaysFirst(pin, f1, gap, f2, rest);
    WildStaysSecond(pin, f1, gap, f2, rest);
  }

  lemma {:induction false} WildStaysFirst(pin: string, f1: string, gap: string, f2: string, rest: string)
    requires AllNonSpace(pin)
    requires |f1| >= 1 && |gap| >= 1 && |f2| >= 1
    requires AllNonSpace(f1) && AllIn(Space, gap) && AllNonSpace(f2) && (rest == [] || IsSpace(rest[0]))
    requires DashFree(pin, f1)
    ensures IdentStaysInField(PinAtoms(pin, true), f1 + gap + f2 + rest, 0)
  {
    PiecesFields(f1, gap, f2, rest);
    WildStaysAt(pin, f1 + gap + f2 + rest, 0);
  }

  lemma {:induction false} WildStaysSecond(pin: string, f1: string, gap: string, f2: string, rest: string)
    requires AllNonSpace(pin)
    requires |f1| >= 1 && |gap| >= 1 && |f2| >= 1
    requires AllNonSpace(f1) && AllIn(Space, gap) && AllNonSpace(f2) && (rest == [] || IsSpace(rest[0]))
    requires DashFree(pin, f2)
    ensures IdentStaysInField(PinAtoms(pin, true), f1 + gap + f2 + rest, |f1| + |gap|)
  {
    PiecesFields(f1, gap, f2, rest);
    WildStaysSecondAt(pin, f1, gap, f2, rest);
  }

  lemma {:induction false} WildStaysSecondAt(pin: string, f1: string, gap: string, f2: string, rest: string)
    requires AllNonSpace(pin) && DashFree(pin, f2)
    requires FieldEnd(f1 + gap + f2 + rest, |f1| + |gap|) == |f1| + |gap| + |f2|
    requires (f1 + gap + f2 + rest)[|f1| + |gap|..FieldEnd(f1 + gap + f2 + rest, |f1| + |gap|)] == f2
    ensures IdentStaysInField(PinAtoms(pin, true), f1 + gap + f2 + rest, |f1| + |gap|)
  {
    WildStaysAt(pin, f1 + gap + f2 + rest, |f1| + |gap|);
  }

  /** Where the fields of `f1 gap f2 rest` end. */
  lemma {:induction false} PiecesFields(f1: string, gap: string, f2: string, rest: string)
    requires |f1| >= 1 && |gap| >= 1 && |f2| >= 1
    requires AllNonSpace(f1) && AllIn(Space, gap) && AllNonSpace(f2) && (rest == [] || IsSpace(rest[0]))
    ensures FieldEnd(f1 + gap + f2 + rest, 0) == |f1|
    ensures FieldEnd(f1 + gap + f2 + rest, |f1| + |gap|) == |f1| + |gap| + |f2|
    ensures (f1 + gap + f2 + rest)[|f1| + |gap|..|f1| + |gap| + |f2|] == f2
    ensures (f1 + gap + f2 + rest)[..|f1|] == f1
    ensures (f1 + gap + f2 + rest)[0..FieldEnd(f1 + gap + f2 + rest, 0)] == f1
    ensures (f1 + gap + f2 + rest)[|f1| + |gap|..FieldEnd(f1 + gap + f2 + rest, |f1| + |gap|)] == f2
  {
    PiecesFieldEnds(f1, gap, f2, rest);
    PiecesAt(f1, gap, f2, rest);
    assert (f1 + gap + f2 + rest)[0..|f1|] == (f1 + gap + f2 + rest)[..|f1|];
  }

  lemma {:induction false} PiecesFieldEnds(f1: string, gap: string, f2: string, rest: string)
    requires |f1| >= 1 && |gap| >= 1 && |f2| >= 1
    requires AllNonSpace(f1) && AllIn(Space, gap) && AllNonSpace(f2) && (rest == [] || IsSpace(rest[0]))
    ensures FieldEnd(f1 + gap + f2 + rest, 0) == |f1|
    ensures FieldEnd(f1 + gap + f2 + rest, |f1| + |gap|) == |f1| + |gap| + |f2|
  {
    assert In(Space, gap[0]);
    FirstPieceEnd(f1, gap, f2, rest);
    SecondPieceEnd(f1, gap, f2, rest);
  }

  lemma {:induction false} FirstPieceEnd(f1: string, gap: string, f2: string, rest: string)
    requires AllNonSpace(f1) && |gap| >= 1 && IsSpace(gap[0])
    ensures FieldEnd(f1 + gap + f2 + rest, 0) == |f1|
  {
    AllInNonSpace(f1);
    assert (f1 + gap + f2 + rest)[0..|f1|] == f1 && (f1 + gap + f2 + rest)[|f1|] == gap[0];
    RunExact(NonSpace, f1 + gap + f2 + rest, 0, |f1|);
  }

  lemma {:induction false} SecondPieceEnd(f1: string, gap: string, f2: string, rest: string)
    requires AllNonSpace(f2) && (rest == [] || IsSpace(rest[0]))
    ensures FieldEnd(f1 + gap + f2 + rest, |f1| + |gap|) == |f1| + |gap| + |f2|
  {
    AllInNonSpace(f2);
    assert (f1 + gap + f2 + rest)[|f1| + |gap|..|f1| + |gap| + |f2|] == f2;
    assert rest != [] ==> (f1 + gap + f2 + rest)[|f1| + |gap| + |f2|] == rest[0];
    RunExact(NonSpace, f1 + gap + f2 + rest, |f1| + |gap|, |f1| + |gap| + |f2|);
  }

  /** A gap of blanks is also a gap of whitespace, and stays on its line. */
  lemma {:induction false} BlankGap(gap: string)
    requires AllIn(Blank, gap)
    ensures AllIn(Space, gap) && '\n' !in gap
  {
    forall i | 0 <= i < |gap| ensures gap[i] != '\n' && In(Space, gap[i]) {
      assert In(Blank, gap[i]);
    }
  }

  /**
   * A one-line listing `f1 gap f2 rest` whose two fields carry the pin: both patterns
   * give exactly the second field.
   */
  lemma {:induction false} BothTagged(pin: string, f1: string, gap: string, f2: string, rest: string,
                   a1: string, d1: string, b1: string, a2: string, d2: string, b2: string)
    requires AllNonSpace(pin)
    requires IsTag(f1, pin, a1, d1, b1) && IsTag(f2, pin, a2, d2, b2)
    requires |gap| >= 1 && AllIn(Blank, gap)
    requires '\n' !in rest && (rest == [] || IsSpace(rest[0]))
    requires DashFree(pin, f1) && DashFree(pin, f2)
    ensures FindMatching(f1 + gap + f2 + rest, pin) == [f2]
    ensures FindMatchingAsWritten(f1 + gap + f2 + rest, pin) == [f2]
  {
    TaggedOfTag(f1, pin, a1, d1, b1);
    TaggedOfTag(f2, pin, a2, d2, b2);
    TaggedNonSpace(f1, pin);
    TaggedNonSpace(f2, pin);
    BlankGap(gap);
    LiteralIdentStays(pin, f1 + gap + f2 + rest, 0);
    LiteralIdentStays(pin, f1 + gap + f2 + rest, |f1| + |gap|);
    OneLineListing(PinAtoms(pin, false), Blank, f1, gap, f2, rest);
    WildcardAcceptsLiteral(pin, f1);
    WildcardAcceptsLiteral(pin, f2);
    WildStaysPieces(pin, f1, gap, f2, rest);
    OneLineListing(PinAtoms(pin, true), Space, f1, gap, f2, rest);
  }

  /**
   * A one-line listing `f1 gap f2 rest` whose second field is too short to carry the pin:
   * both patterns give nothing.
   */
  lemma {:induction false} SecondTooShort(pin: string, f1: string, gap: string, f2: string, rest: string)
    requires AllNonSpace(pin)
    requires |f1| >= 1 && AllNonSpace(f1) && |f2| >= 1 && AllNonSpace(f2) && |f2| < |pin| + 6
    requires |gap| >= 1 && AllIn(Blank, gap)
    requires '\n' !in rest && (rest == [] || IsSpace(rest[0]))
    requires DashFree(pin, f1) && DashFree(pin, f2)
    ensures FindMatching(f1 + gap + f2 + rest, pin) == []
    ensures FindMatchingAsWritten(f1 + gap + f2 + rest, pin) == []
  {
    BlankGap(gap);
    NoTagShorterThanPin(f2, pin, false);
    NoTagShorterThanPin(f2, pin, true);
    LiteralIdentStays(pin, f1 + gap + f2 + rest, 0);
    LiteralIdentStays(pin, f1 + gap + f2 + rest, |f1| + |gap|);
    OneLineListing(PinAtoms(pin, false), Blank, f1, gap, f2, rest);
    WildStaysPieces(pin, f1, gap, f2, rest);
    OneLineListing(PinAtoms(pin, true), Space, f1, gap, f2, rest);
  }

  /*
   * The Linux tests: a toolchain with an installed interpreter, and one only available
   * for download.
   */

  lemma {:induction false} LinuxNameDash()
    ensures DashFree("3.12", "cpython-3.12.6-linux-x86_64-gnu")
  {
  }

  lemma {:induction false} LinuxNameTag()
    ensures IsTag("cpython-3.12.6-linux-x86_64-gnu", "3.12", "cpython", "6", "linux-x86_64-gnu")
    ensures DashFree("3.12", "cpython-3.12.6-linux-x86_64-gnu")
  {
    LinuxNameDash();
    LinuxNamePieces();
    PrintableNonSpace("cpython");
    PrintableNonSpace("linux-x86_64-gnu");
    PinTag("cpython", "linux-x86_64-gnu");
  }

  lemma {:induction false} LinuxNamePieces()
    ensures "cpython-3.12.6-linux-x86_64-gnu" == "cpython" + "-3.12.6-" + "linux-x86_64-gnu"
  {
  }

  lemma {:induction false} LinuxPathTag()
    ensures IsTag("/home/bob/.local/share/uv/python/cpython-3.12.6-linux-x86_64-gnu/bin/python3", "3.12",
      "/home/bob/.local/share/uv/python/cpython", "6", "linux-x86_64-gnu/bin/python3")
    ensures DashFree("3.12", "/home/bob/.local/share/uv/python/cpython-3.12.6-linux-x86_64-gnu/bin/python3")
  {
    LinuxPathPieces();
    LinuxPathDash();
    PrintableNonSpace("/home/bob/.local/share/uv/python/cpython");
    PrintableNonSpace("linux-x86_64-gnu/bin/python3");
    PinTag("/home/bob/.local/share/uv/python/cpython", "linux-x86_64-gnu/bin/python3");
  }

  lemma {:induction false} LinuxPathPieces()
    ensures "/home/bob/.local/share/uv/python/cpython-3.12.6-linux-x86_64-gnu/bin/python3" ==
      "/home/bob/.local/share/uv/python/cpython" + "-3.12.6-" + "linux-x86_64-gnu/bin/python3"
  {
  }

  lemma {:induction false} LinuxPathDash()
    ensures DashFree("3.12", "/home/bob/.local/share/uv/python/cpython-3.12.6-linux-x86_64-gnu/bin/python3")
  {
  }

  /** The listing of `test_find_matching_python_verion_linux` gives the interpreter path. */
  lemma {:induction false} LinuxListing()
    ensures FindMatching("cpython-3.12.6-linux-x86_64-gnu" + "       " +
      "/home/bob/.local/share/uv/python/cpython-3.12.6-linux-x86_64-gnu/bin/python3" + " -> python3.12", "3.12") ==
      ["/home/bob/.local/share/uv/python/cpython-3.12.6-linux-x86_64-gnu/bin/python3"]
    ensures FindMatchingAsWritten("cpython-3.12.6-linux-x86_64-gnu" + "       " +
      "/home/bob/.local/share/uv/python/cpython-3.12.6-linux-x86_64-gnu/bin/python3" + " -> python3.12", "3.12") ==
      ["/home/bob/.local/share/uv/python/cpython-3.12.6-linux-x86_64-gnu/bin/python3"]
  {
    LinuxNameTag();
    LinuxPathTag();
    PrintableNonSpace("3.12");
    BothTagged("3.12", "cpython-3.12.6-linux-x86_64-gnu", "       ",
      "/home/bob/.local/share/uv/python/cpython-3.12.6-linux-x86_64-gnu/bin/python3", " -> python3.12",
      "cpython", "6", "linux-x86_64-gnu", "/home/bob/.local/share/uv/python/cpython", "6", "linux-x86_64-gnu/bin/python3");
  }

  /** The listing of `test_find_matching_python_version_linux_no_path` gives nothing. */
  lemma {:induction false} LinuxDownloadListing()
    ensures FindMatching("cpython-3.12.6-linux-x86_64-gnu" + "       " + "<download" + " available>", "3.12") == []
    ensures FindMatchingAsWritten("cpython-3.12.6-linux-x86_64-gnu" + "       " + "<download" + " available>", "3.12") == []
  {
    LinuxNameDash();
    PrintableNonSpace("cpython-3.12.6-linux-x86_64-gnu");
    DownloadLine("cpython-3.12.6-linux-x86_64-gnu");
  }

  /** A toolchain `name` listed as only available for download gives nothing. */
  lemma {:induction false} DownloadLine(name: string)
    requires |name| >= 1 && AllNonSpace(name) && DashFree("3.12", name)
    ensures FindMatching(name + "       " + "<download" + " available>", "3.12") == []
    ensures FindMatchingAsWritten(name + "       " + "<download" + " available>", "3.12") == []
  {
    DownloadFields();
    DownloadRest();
    SecondTooShort("3.12", name, "       ", "<download", " available>");
  }

  lemma {:induction false} DownloadFields()
    ensures AllNonSpace("3.12") && AllNonSpace("<download") && DashFree("3.12", "<download")
    ensures |"<download"| < |"3.12"| + 6
  {
    PrintableNonSpace("<download");
    PrintableNonSpace("3.12");
  }

  lemma {:induction false} DownloadRest()
    ensures AllIn(Blank, "       ") && '\n' !in " available>" && IsSpace(" available>"[0])
  {
  }

  /*
   * The Windows tests.
   */

  lemma {:induction false} WindowsNameDash()
    ensures DashFree("3.12", "cpython-3.12.6-windows-x86_64-none")
  {
  }

  lemma {:induction false} WindowsNameTag()
    ensures IsTag("cpython-3.12.6-windows-x86_64-none", "3.12", "cpython", "6", "windows-x86_64-none")
    ensures DashFree("3.12", "cpython-3.12.6-windows-x86_64-none")
  {
    WindowsNameDash();
    WindowsNamePieces();
    PrintableNonSpace("cpython");
    PrintableNonSpace("windows-x86_64-none");
    PinTag("cpython", "windows-x86_64-none");
  }

  lemma {:induction false} WindowsNamePieces()
    ensures "cpython-3.12.6-windows-x86_64-none" == "cpython" + "-3.12.6-" + "windows-x86_64-none"
  {
  }

  lemma {:induction false} WindowsPathTag()
    ensures IsTag("AppData\\Roaming\\uv\\python\\cpython-3.12.6-windows-x86_64-none\\python.exe", "3.12",
      "AppData\\Roaming\\uv\\python\\cpython", "6", "windows-x86_64-none\\python.exe")
    ensures DashFree("3.12", "AppData\\Roaming\\uv\\python\\cpython-3.12.6-windows-x86_64-none\\python.exe")
  {
    WindowsPathPieces();
    WindowsPathDash();
    PrintableNonSpace("AppData\\Roaming\\uv\\python\\cpython");
    PrintableNonSpace("windows-x86_64-none\\python.exe");
    PinTag("AppData\\Roaming\\uv\\python\\cpython", "windows-x86_64-none\\python.exe");
  }

  lemma {:induction false} WindowsPathPieces()
    ensures "AppData\\Roaming\\uv\\python\\cpython-3.12.6-windows-x86_64-none\\python.exe" ==
      "AppData\\Roaming\\uv\\python\\cpython" + "-3.12.6-" + "windows-x86_64-none\\python.exe"
  {
  }

  lemma {:induction false} WindowsPathDash()
    ensures DashFree("3.12", "AppData\\Roaming\\uv\\python\\cpython-3.12.6-windows-x86_64-none\\python.exe")
  {
  }

  /** The listing of `test_find_matching_python_version_windows` gives the interpreter path. */
  lemma {:induction false} WindowsListing()
    ensures FindMatching("cpython-3.12.6-windows-x86_64-none" + "       " +
      "AppData\\Roaming\\uv\\python\\cpython-3.12.6-windows-x86_64-none\\python.exe", "3.12") ==
      ["AppData\\Roaming\\uv\\python\\cpython-3.12.6-windows-x86_64-none\\python.exe"]
    ensures FindMatchingAsWritten("cpython-3.12.6-windows-x86_64-none" + "       " +
      "AppData\\Roaming\\uv\\python\\cpython-3.12.6-windows-x86_64-none\\python.exe", "3.12") ==
      ["AppData\\Roaming\\uv\\python\\cpython-3.12.6-windows-x86_64-none\\python.exe"]
  {
    WindowsNameTag();
    WindowsPathTag();
    PrintableNonSpace("3.12");
    assert "cpython-3.12.6-windows-x86_64-none" + "       " +
      "AppData\\Roaming\\uv\\python\\cpython-3.12.6-windows-x86_64-none\\python.exe" ==
      "cpython-3.12.6-windows-x86_64-none" + "       " +
      "AppData\\Roaming\\uv\\python\\cpython-3.12.6-windows-x86_64-none\\python.exe" + "";
    BothTagged("3.12", "cpython-3.12.6-windows-x86_64-none", "       ",
      "AppData\\Roaming\\uv\\python\\cpython-3.12.6-windows-x86_64-none\\python.exe", "",
      "cpython", "6", "windows-x86_64-none", "AppData\\Roaming\\uv\\python\\cpython", "6", "windows-x86_64-none\\python.exe");
  }

  /** The listing of `test_find_matching_python_version_windows_no_path` gives nothing. */
  lemma {:induction false} WindowsDownloadListing()
    ensures FindMatching("cpython-3.12.6-windows-x86_64-none" + "       " + "<download" + " available>", "3.12") == []
    ensures FindMatchingAsWritten("cpython-3.12.6-windows-x86_64-none" + "       " + "<download" + " available>", "3.12") == []
  {
    WindowsNameDash();
    PrintableNonSpace("cpython-3.12.6-windows-x86_64-none");
    DownloadLine("cpython-3.12.6-windows-x86_64-none");
  }

  /*
   * Where the pattern as written goes wrong (see the Findings of the README).
   */

  /** The line at `s[p]` ends at the first line break from `p` on. */
  lemma {:induction false} LineEndAt(s: string, p: nat, e: nat)
    requires p <= e <= |s| && (e == |s| || s[e] == '\n')
    requires forall x :: p <= x < e ==> s[x] != '\n'
    ensures LineEnd(s, p) == e
  {
  }

  /** The pieces of a listing `f1 \n f2 ' ' f3` of two lines. */
  lemma {:induction false} TwoLinePieces(f1: string, f2: string, f3: string)
    requires AllNonSpace(f1) && AllNonSpace(f2) && AllNonSpace(f3)
    ensures (f1 + "\n" + f2 + " " + f3)[..|f1|] == f1
    ensures (f1 + "\n" + f2 + " " + f3)[|f1|..|f1| + 1] == "\n"
    ensures (f1 + "\n" + f2 + " " + f3)[|f1| + 1..|f1| + 1 + |f2|] == f2
    ensures (f1 + "\n" + f2 + " " + f3)[|f1| + 1 + |f2|..|f1| + 1 + |f2| + 1] == " "
    ensures (f1 + "\n" + f2 + " " + f3)[|f1| + 1 + |f2| + 1..|f1 + "\n" + f2 + " " + f3|] == f3
    ensures |f1 + "\n" + f2 + " " + f3| == |f1| + 2 + |f2| + |f3|
    ensures LineEnd(f1 + "\n" + f2 + " " + f3, 0) == |f1|
    ensures LineEnd(f1 + "\n" + f2 + " " + f3, |f1| + 1) == |f1 + "\n" + f2 + " " + f3|
  {
    var s := f1 + "\n" + f2 + " " + f3;
    forall x | 0 <= x < |f1| ensures s[x] != '\n' { assert s[x] == f1[x]; }
    LineEndAt(s, 0, |f1|);
    forall x | |f1| + 1 <= x < |s| ensures s[x] != '\n' {
      if x < |f1| + 1 + |f2| {
        assert s[x] == f2[x - |f1| - 1];
      } else if x > |f1| + 1 + |f2| {
        assert s[x] == f3[x - |f1| - 2 - |f2|];
      }
    }
    LineEndAt(s, |f1| + 1, |s|);
  }

  /**
   * On the listing `f1 \n f2 ' ' f3` of three tagged fields, the pattern as written lets `\s+`
   * cross the line break and reports `f2`, the first field of the second line.
   */
  lemma {:induction false} CrossingAsWritten(pin: string, f1: string, f2: string, f3: string, a1: string, d1: string, b1: string,
                          a2: string, d2: string, b2: string)
    requires AllNonSpace(pin) && '.' !in pin
    requires IsTag(f1, pin, a1, d1, b1) && IsTag(f2, pin, a2, d2, b2) && |f3| >= 1 && AllNonSpace(f3)
    ensures FindMatchingAsWritten(f1 + "\n" + f2 + " " + f3, pin) == [f2]
  {
    var s := f1 + "\n" + f2 + " " + f3;
    TaggedOfTag(f1, pin, a1, d1, b1);
    TaggedOfTag(f2, pin, a2, d2, b2);
    TaggedNonSpace(f1, pin);
    TaggedNonSpace(f2, pin);
    TwoLinePieces(f1, f2, f3);
    AllInNonSpace(f1);
    AllInNonSpace(f2);
    NoDotPinIsLiteral(pin);
    AsWrittenTwoLines(pin, s, |f1|, |f1| + 1 + |f2|);
  }

  /**
   * The pattern as written on a listing `s` whose first line `s[..a]` is one tagged field and
   * whose second line starts with the tagged field `s[a + 1..c]`: that field, and nothing after it.
   */
  lemma {:induction false} AsWrittenTwoLines(pin: string, s: string, a: nat, c: nat)
    requires AllNonSpace(pin) && PinAtoms(pin, true) == PinAtoms(pin, false)
    requires 0 < a && a + 1 < c < |s| - 1
    requires AllIn(NonSpace, s[..a]) && s[a..a + 1] == "\n" && LineEnd(s, a + 1) == |s|
    requires AllIn(NonSpace, s[a + 1..c]) && s[c..c + 1] == " "
    requires Tagged(s[..a], PinAtoms(pin, false)) && Tagged(s[a + 1..c], PinAtoms(pin, false))
    ensures FindMatchingAsWritten(s, pin) == [s[a + 1..c]]
  {
    var pa := PinAtoms(pin, true);
    assert s[0..a] == s[..a] && s[c] == s[c..c + 1][0];
    assert AllIn(Space, s[a..a + 1]) by { assert s[a..a + 1][0] == '\n'; }
    LiteralIdentStays(pin, s, 0);
    LiteralIdentStays(pin, s, a + 1);
    MatchTwo(pa, Space, s, 0, a, a + 1, c);
    SkipInsideLine(Pattern(pa, Space), s, a + 1, c);
  }

  /** The corrected pattern skips a first line `s[..a]` that holds one field only. */
  lemma {:induction false} SkipOneFieldLine(pin: string, s: string, a: nat)
    requires AllNonSpace(pin)
    requires 0 < a < |s| && AllIn(NonSpace, s[..a]) && s[a] == '\n' && LineEnd(s, 0) == a
    ensures FindMatching(s, pin) == FindAllFrom(Pattern(PinAtoms(pin, false), Blank), s, a + 1)
  {
    assert s[0..a] == s[..a];
    LiteralIdentStays(pin, s, 0);
    LiteralIdentStays(pin, s, a);
    MatchOneField(PinAtoms(pin, false), s, 0, a);
    SkipInsideLine(Pattern(PinAtoms(pin, false), Blank), s, 0, 1);
  }

  /** The corrected pattern on a last line `s[b..]` of two tagged fields `s[b..c]` and `s[c + 1..]`. */
  lemma {:induction false} LastLineTwoFields(pin: string, s: string, b: nat, c: nat)
    requires AllNonSpace(pin)
    requires 0 < b < c < |s| - 1 && s[b - 1] == '\n' && LineEnd(s, b) == |s|
    requires AllIn(NonSpace, s[b..c]) && s[c..c + 1] == " " && AllIn(NonSpace, s[c + 1..|s|])
    requires Tagged(s[b..c], PinAtoms(pin, false)) && Tagged(s[c + 1..|s|], PinAtoms(pin, false))
    ensures FindAllFrom(Pattern(PinAtoms(pin, false), Blank), s, b) == [s[c + 1..|s|]]
  {
    LiteralIdentStays(pin, s, b);
    LiteralIdentStays(pin, s, c + 1);
    assert AllIn(Blank, s[c..c + 1]) by { assert s[c..c + 1][0] == ' '; }
    MatchTwo(PinAtoms(pin, false), Blank, s, b, c, c + 1, |s|);
    SkipInsideLine(Pattern(PinAtoms(pin, false), Blank), s, b, |s|);
  }

  /**
   * On the same listing the corrected pattern skips the first line, which holds one field
   * only, and reports `f3`, the second field of the second line.
   */
  lemma {:induction false} CrossingCorrected(pin: string, f1: string, f2: string, f3: string, a2: string, d2: string, b2: string,
                          a3: string, d3: string, b3: string)
    requires AllNonSpace(pin)
    requires |f1| >= 1 && AllNonSpace(f1) && IsTag(f2, pin, a2, d2, b2) && IsTag(f3, pin, a3, d3, b3)
    ensures FindMatching(f1 + "\n" + f2 + " " + f3, pin) == [f3]
  {
    var s := f1 + "\n" + f2 + " " + f3;
    TaggedOfTag(f2, pin, a2, d2, b2);
    TaggedOfTag(f3, pin, a3, d3, b3);
    TaggedNonSpace(f2, pin);
    TaggedNonSpace(f3, pin);
    TwoLinePieces(f1, f2, f3);
    AllInNonSpace(f1);
    AllInNonSpace(f2);
    AllInNonSpace(f3);
    CorrectedTwoLines(pin, s, |f1|, |f1| + 1 + |f2|);
  }

  /**
   * The corrected pattern on a listing `s` whose first line `s[..a]` is one field and whose
   * second line is two tagged fields `s[a + 1..c]` and `s[c + 1..]`: the second of them.
   */
  lemma {:induction false} CorrectedTwoLines(pin: string, s: string, a: nat, c: nat)
    requires AllNonSpace(pin)
    requires 0 < a && a + 1 < c < |s| - 1
    requires AllIn(NonSpace, s[..a]) && s[a..a + 1] == "\n" && LineEnd(s, 0) == a && LineEnd(s, a + 1) == |s|
    requires AllIn(NonSpace, s[a + 1..c]) && s[c..c + 1] == " " && AllIn(NonSpace, s[c + 1..|s|])
    requires Tagged(s[a + 1..c], PinAtoms(pin, false)) && Tagged(s[c + 1..|s|], PinAtoms(pin, false))
    ensures FindMatching(s, pin) == [s[c + 1..|s|]]
  {
    assert s[a] == s[a..a + 1][0];
    SkipOneFieldLine(pin, s, a);
    assert s[a + 1 - 1] == '\n';
    LastLineTwoFields(pin, s, a + 1, c);
  }


  /** The listing of the first finding: one field, a line break, then two fields. */
  lemma {:induction false} NewlineCrossing()
    ensures FindMatchingAsWritten("a-3.1-b" + "\n" + "c-3.1-d" + " " + "e-3.1-f", "3") == ["c-3.1-d"]
    ensures FindMatching("a-3.1-b" + "\n" + "c-3.1-d" + " " + "e-3.1-f", "3") == ["e-3.1-f"]
  {
    assert IsTag("a-3.1-b", "3", "a", "1", "b");
    assert IsTag("c-3.1-d", "3", "c", "1", "d");
    assert IsTag("e-3.1-f", "3", "e", "1", "f");
    PrintableNonSpace("3");
    PrintableNonSpace("a-3.1-b");
    PrintableNonSpace("e-3.1-f");
    CrossingAsWritten("3", "a-3.1-b", "c-3.1-d", "e-3.1-f", "a", "1", "b", "c", "1", "d");
    CrossingCorrected("3", "a-3.1-b", "c-3.1-d", "e-3.1-f", "c", "1", "d", "e", "1", "f");
  }

  /** A tag with the pin taken literally shows the pin, between a `-` and a `.`, after its owner part. */
  lemma {:induction false} TagShowsPin(t: string, pin: string, a: string, d: string, b: string)
    requires IsTag(t, pin, a, d, b)
    ensures 1 <= |a| && |a| + |pin| + 5 <= |t|
    ensures t[|a|] == '-' && t[|a| + 1..|a| + 1 + |pin|] == pin && t[|a| + 1 + |pin|] == '.'
  {
    Reassociate(a, "-", pin, ".", d, "-", b);
    var r := a + ("-" + (pin + ("." + (d + ("-" + b)))));
    assert r[|a|] == '-';
    assert r[|a| + 1..|a| + 1 + |pin|] == pin;
    assert r[|a| + 1 + |pin|] == '.';
  }

  /** A field in which the pin never follows a `-` and precedes a `.` is not tagged with it. */
  predicate PinNowhere(t: string, pin: string) {
    forall k :: 1 <= k && k + |pin| + 5 <= |t| ==>
      !(t[k] == '-' && t[k + 1..k + 1 + |pin|] == pin && t[k + 1 + |pin|] == '.')
  }

  lemma {:induction false} UntaggedWithoutPin(t: string, pin: string)
    requires PinNowhere(t, pin)
    ensures !Tagged(t, PinAtoms(pin, false))
  {
    if Tagged(t, PinAtoms(pin, false)) {
      var a, q, d, b := TagSplit(t, pin, false);
      PinLikeLiteral(q, pin);
      TagShowsPin(t, q, a, d, b);
      assert false;
    }
  }

  /**
   * A one-line listing whose fields carry `q`, which the pin matches only when its `.` is read
   * as a wildcard: the pattern as written reports the second field.
   */
  lemma {:induction false} WildcardAsWritten(pin: string, q: string, f1: string, gap: string, f2: string, rest: string,
                          a1: string, d1: string, b1: string, a2: string, d2: string, b2: string)
    requires AllNonSpace(pin) && PinLike(q, pin, true) && AllNonSpace(q)
    requires IsTag(f1, q, a1, d1, b1) && IsTag(f2, q, a2, d2, b2)
    requires |gap| >= 1 && AllIn(Blank, gap)
    requires '\n' !in rest && (rest == [] || IsSpace(rest[0]))
    requires DashFree(pin, f1) && DashFree(pin, f2)
    ensures FindMatchingAsWritten(f1 + gap + f2 + rest, pin) == [f2]
  {
    TaggedOfTag(f1, q, a1, d1, b1);
    TaggedOfTag(f2, q, a2, d2, b2);
    TaggedNonSpace(f1, q);
    TaggedNonSpace(f2, q);
    WildcardAccepts(pin, q, f1);
    WildcardAccepts(pin, q, f2);
    BlankGap(gap);
    WildStaysPieces(pin, f1, gap, f2, rest);
    OneLineListing(PinAtoms(pin, true), Space, f1, gap, f2, rest);
  }

  /** The same listing under the corrected pattern: the first field does not carry the pin, so nothing. */
  lemma {:induction false} WildcardCorrected(pin: string, f1: string, gap: string, f2: string, rest: string)
    requires AllNonSpace(pin) && PinNowhere(f1, pin)
    requires |f1| >= 1 && AllNonSpace(f1) && |f2| >= 1 && AllNonSpace(f2)
    requires |gap| >= 1 && AllIn(Blank, gap)
    requires '\n' !in rest && (rest == [] || IsSpace(rest[0]))
    ensures FindMatching(f1 + gap + f2 + rest, pin) == []
  {
    UntaggedWithoutPin(f1, pin);
    BlankGap(gap);
    LiteralIdentStays(pin, f1 + gap + f2 + rest, 0);
    LiteralIdentStays(pin, f1 + gap + f2 + rest, |f1| + |gap|);
    OneLineListing(PinAtoms(pin, false), Blank, f1, gap, f2, rest);
  }

  /** The listing of the second finding: the pin `3.1` and toolchains tagged `301.2`. */
  lemma {:induction false} WildcardPin()
    ensures FindMatchingAsWritten("a-301.2-bc" + " " + "c-301.2-de", "3.1") == ["c-301.2-de"]
    ensures FindMatching("a-301.2-bc" + " " + "c-301.2-de", "3.1") == []
  {
    WildcardPinAsWritten();
    WildcardPinCorrected();
  }

  lemma {:induction false} WildcardPinAsWritten()
    ensures FindMatchingAsWritten("a-301.2-bc" + " " + "c-301.2-de", "3.1") == ["c-301.2-de"]
  {
    assert IsTag("a-301.2-bc", "301", "a", "2", "bc");
    assert IsTag("c-301.2-de", "301", "c", "2", "de");
    PrintableNonSpace("3.1");
    PrintableNonSpace("301");
    assert PinLike("301", "3.1", true);
    assert "a-301.2-bc" + " " + "c-301.2-de" == "a-301.2-bc" + " " + "c-301.2-de" + "";
    WildcardAsWritten("3.1", "301", "a-301.2-bc", " ", "c-301.2-de", "", "a", "2", "bc", "c", "2", "de");
  }

  lemma {:induction false} WildcardPinCorrected()
    ensures FindMatching("a-301.2-bc" + " " + "c-301.2-de", "3.1") == []
  {
    PrintableNonSpace("3.1");
    PrintableNonSpace("a-301.2-bc");
    PrintableNonSpace("c-301.2-de");
    assert "a-301.2-bc"[2..5] == "301";
    assert "a-301.2-bc" + " " + "c-301.2-de" == "a-301.2-bc" + " " + "c-301.2-de" + "";
    WildcardCorrected("3.1", "a-301.2-bc", " ", "c-301.2-de", "");
  }

  /** With the version file `3\n`, the pattern as written chooses a toolchain name, the corrected one the path. */
  lemma {:induction false} CrossingChoice()
    ensures ChooseToolchainAsWritten("3\n", "a-3.1-b" + "\n" + "c-3.1-d" + " " + "e-3.1-f") == Success("c-3.1-d")
    ensures ChooseToolchain("3\n", "a-3.1-b" + "\n" + "c-3.1-d" + " " + "e-3.1-f") == Success("e-3.1-f")
  {
    ReadPinOfLine("3");
    assert "3" + "\n" == "3\n";
    NewlineCrossing();
  }

  /** With the version file `3.1\n`, the pattern as written chooses a `301.2` toolchain, the corrected one none. */
  lemma {:induction false} WildcardChoice()
    ensures ChooseToolchainAsWritten("3.1\n", "a-301.2-bc" + " " + "c-301.2-de") == Success("c-301.2-de")
    ensures ChooseToolchain("3.1\n", "a-301.2-bc" + " " + "c-301.2-de") == Failure(NotSingleToolchain(0))
  {
    ReadPinOfLine("3.1");
    assert "3.1" + "\n" == "3.1\n";
    WildcardPin();
  }
}
