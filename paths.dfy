/**
 * The part of `pathlib` the build script uses: building a path from a string,
 * `str(path)`, `.parent` and the `/` operator, for POSIX and Windows paths.
 *
 * A path is its anchor (`""` for a relative path) and its components. Parsing
 * drops empty components (doubled and trailing separators) and `.` components,
 * as pathlib does; `..` is kept.
 */
module Paths {
  import opened PyText

  /** `PurePosixPath` or `PureWindowsPath`. */
  datatype Flavour = PosixFlavour | WindowsFlavour

  /** A Windows path accepts both slashes. */
  predicate IsSep(f: Flavour, c: char) {
    c == '/' || (f == WindowsFlavour && c == '\\')
  }

  /** The separator `str(path)` writes. */
  function Sep(f: Flavour): (c: char)
    ensures IsSep(f, c)
  {
    if f == WindowsFlavour then '\\' else '/'
  }

  datatype Path = Path(anchor: string, parts: seq<string>)

  /** A component as parsing produces it. */
  predicate ValidPart(f: Flavour, part: string) {
    part != "" && part != "." && forall i :: 0 <= i < |part| ==> !IsSep(f, part[i])
  }

  predicate ValidAnchor(f: Flavour, anchor: string) {
    anchor == "" || anchor == [Sep(f)] || (f == PosixFlavour && anchor == "//")
  }

  predicate WellFormed(f: Flavour, p: Path) {
    ValidAnchor(f, p.anchor) && forall k :: 0 <= k < |p.parts| ==> ValidPart(f, p.parts[k])
  }

  /*
   * Parsing.
   */

  /** Number of characters before the first separator. */
  function SegLen(f: Flavour, s: string): (n: nat)
    ensures n <= |s|
    ensures forall i :: 0 <= i < n ==> !IsSep(f, s[i])
    ensures n < |s| ==> IsSep(f, s[n])
  {
    if s == [] || IsSep(f, s[0]) then 0 else 1 + SegLen(f, s[1..])
  }

  /** The text between separators, empty pieces included. */
  function Segments(f: Flavour, s: string): (r: seq<string>)
    ensures |r| >= 1
    decreases |s|
  {
    var n := SegLen(f, s);
    if n == |s| then [s] else [s[..n]] + Segments(f, s[n + 1..])
  }

  /** The segments pathlib keeps. */
  function Kept(segs: seq<string>): (r: seq<string>)
    ensures |r| <= |segs|
  {
    if segs == [] then []
    else (if segs[0] == "" || segs[0] == "." then [] else [segs[0]]) + Kept(segs[1..])
  }

  /** Number of leading separators. */
  function LeadingSeps(f: Flavour, s: string): (n: nat)
    ensures n <= |s|
    ensures forall i :: 0 <= i < n ==> IsSep(f, s[i])
    ensures n < |s| ==> !IsSep(f, s[n])
  {
    if s == [] || !IsSep(f, s[0]) then 0 else 1 + LeadingSeps(f, s[1..])
  }

  /** A POSIX path keeps exactly two leading slashes; any other run of leading separators is the root. */
  function AnchorOf(f: Flavour, s: string): (a: string)
    ensures ValidAnchor(f, a)
  {
    var n := LeadingSeps(f, s);
    if n == 0 then "" else if f == PosixFlavour && n == 2 then "//" else [Sep(f)]
  }

  /** `Path(s)`. */
  function Parse(f: Flavour, s: string): Path {
    Path(AnchorOf(f, s), Kept(Segments(f, s)))
  }

  /** `str(p)`: a relative path with no components prints as `.`. */
  function Str(f: Flavour, p: Path): string {
    if p.anchor == "" && p.parts == [] then "." else p.anchor + JoinWith(p.parts, [Sep(f)])
  }

  /*
   * Operations.
   */

  /** `p.parent`: the last component dropped; the anchor alone (or `.`) is its own parent. */
  function Parent(p: Path): (r: Path)
    ensures r.anchor == p.anchor
    ensures p.parts == [] ==> r == p
    ensures p.parts != [] ==> p.parts == r.parts + [p.parts[|p.parts| - 1]]
  {
    if p.parts == [] then p else Path(p.anchor, p.parts[..|p.parts| - 1])
  }

  /** `p / q`: an anchored right operand replaces the left one. */
  function Join(p: Path, q: Path): (r: Path)
    ensures q.anchor != "" ==> r == q
    ensures q.anchor == "" ==> r.anchor == p.anchor && r.parts == p.parts + q.parts
  {
    if q.anchor != "" then q else Path(p.anchor, p.parts + q.parts)
  }

  /** The relative path of a single component, as the script's string literals such as `"lib"` parse. */
  function Child(name: string): Path {
    Path("", [name])
  }

  /*
   * Properties.
   */

  lemma {:induction false} ParseIsWellFormed(f: Flavour, s: string)
    ensures WellFormed(f, Parse(f, s))
  {
    SegmentsHaveNoSep(f, s);
    KeptValid(f, Segments(f, s));
  }

  /** Printing a parsed path and parsing it again gives the same path. */
  lemma {:induction false} ParseStr(f: Flavour, p: Path)
    requires WellFormed(f, p)
    ensures Parse(f, Str(f, p)) == p
  {
    if p.anchor == "" && p.parts == [] {
      assert Segments(f, ".") == ["."];
    } else {
      var j := JoinWith(p.parts, [Sep(f)]);
      JoinStart(f, p.parts);
      assert Str(f, p) == p.anchor + j;
      AnchorSegments(f, p.anchor, j);
      KeptAllValid(f, p.parts);
      if p.parts == [] {
        assert j == [];
        assert Segments(f, j) == [""];
      } else {
        SegmentsOfJoin(f, p.parts);
      }
    }
  }

  /** Joining a single component and taking the parent undoes the join. */
  lemma {:induction false} ParentOfChild(p: Path, name: string)
    ensures Parent(Join(p, Child(name))) == p
  {
    assert (p.parts + [name])[..|p.parts|] == p.parts;
  }

  /*
   * Helpers.
   */

  lemma {:induction false} JoinWellFormed(f: Flavour, p: Path, q: Path)
    requires WellFormed(f, p) && WellFormed(f, q)
    ensures WellFormed(f, Join(p, q))
  {
  }

  lemma {:induction false} ParentWellFormed(f: Flavour, p: Path)
    requires WellFormed(f, p)
    ensures WellFormed(f, Parent(p))
  {
  }

  lemma {:induction false} SegmentsHaveNoSep(f: Flavour, s: string)
    ensures forall k, i :: 0 <= k < |Segments(f, s)| && 0 <= i < |Segments(f, s)[k]| ==> !IsSep(f, Segments(f, s)[k][i])
    decreases |s|
  {
    var n := SegLen(f, s);
    if n < |s| {
      SegmentsHaveNoSep(f, s[n + 1..]);
    }
  }

  lemma {:induction false} KeptValid(f: Flavour, segs: seq<string>)
    requires forall k, i :: 0 <= k < |segs| && 0 <= i < |segs[k]| ==> !IsSep(f, segs[k][i])
    ensures forall k :: 0 <= k < |Kept(segs)| ==> ValidPart(f, Kept(segs)[k])
    decreases |segs|
  {
    if segs != [] {
      KeptValid(f, segs[1..]);
    }
  }

  lemma {:induction false} KeptAllValid(f: Flavour, parts: seq<string>)
    requires forall k :: 0 <= k < |parts| ==> ValidPart(f, parts[k])
    ensures Kept(parts) == parts
    decreases |parts|
  {
    if parts != [] {
      assert ValidPart(f, parts[0]);
      KeptAllValid(f, parts[1..]);
    }
  }

  /** A join of valid components starts with a non-separator. */
  lemma {:induction false} JoinStart(f: Flavour, parts: seq<string>)
    requires forall k :: 0 <= k < |parts| ==> ValidPart(f, parts[k])
    ensures parts != [] ==> |JoinWith(parts, [Sep(f)])| > 0 && !IsSep(f, JoinWith(parts, [Sep(f)])[0])
  {
    if parts != [] {
      assert ValidPart(f, parts[0]);
      var j := JoinWith(parts, [Sep(f)]);
      if |parts| > 1 {
        assert j == parts[0] + ([Sep(f)] + JoinWith(parts[1..], [Sep(f)]));
      }
      assert j[0] == parts[0][0];
    }
  }

  lemma {:induction false} SegLenOf(f: Flavour, a: string, b: string)
    requires forall i :: 0 <= i < |a| ==> !IsSep(f, a[i])
    requires b == [] || IsSep(f, b[0])
    ensures SegLen(f, a + b) == |a|
    decreases |a|
  {
    if a != [] {
      assert (a + b)[1..] == a[1..] + b;
      SegLenOf(f, a[1..], b);
    }
  }

  lemma {:induction false} SegmentsOfJoin(f: Flavour, parts: seq<string>)
    requires |parts| >= 1
    requires forall k :: 0 <= k < |parts| ==> ValidPart(f, parts[k])
    ensures Segments(f, JoinWith(parts, [Sep(f)])) == parts
    decreases |parts|
  {
    var sep := [Sep(f)];
    var t := JoinWith(parts, sep);
    assert ValidPart(f, parts[0]);
    SegLenOf(f, parts[0], if |parts| == 1 then "" else sep + JoinWith(parts[1..], sep));
    if |parts| > 1 {
      assert t == parts[0] + (sep + JoinWith(parts[1..], sep));
      assert t[|parts[0]| + 1..] == JoinWith(parts[1..], sep);
      SegmentsOfJoin(f, parts[1..]);
      assert Segments(f, t) == [parts[0]] + parts[1..];
    } else {
      assert t == parts[0] + "";
    }
  }

  /** A leading separator contributes an empty segment, which parsing drops. */
  lemma {:induction false} SegmentsAfterSep(f: Flavour, c: char, t: string)
    requires IsSep(f, c)
    ensures Segments(f, [c] + t) == [""] + Segments(f, t)
  {
    assert SegLen(f, [c] + t) == 0;
    assert ([c] + t)[1..] == t;
  }

  lemma {:induction false} LeadingSepsOf(f: Flavour, a: string, t: string)
    requires forall i :: 0 <= i < |a| ==> IsSep(f, a[i])
    requires t == [] || !IsSep(f, t[0])
    ensures LeadingSeps(f, a + t) == |a|
    decreases |a|
  {
    if a != [] {
      assert (a + t)[1..] == a[1..] + t;
      LeadingSepsOf(f, a[1..], t);
    }
  }

  lemma {:induction false} AnchorSegments(f: Flavour, anchor: string, t: string)
    requires ValidAnchor(f, anchor)
    requires t == [] || !IsSep(f, t[0])
    requires anchor != [] || t != []
    ensures AnchorOf(f, anchor + t) == anchor
    ensures Kept(Segments(f, anchor + t)) == Kept(Segments(f, t))
  {
    if anchor == [] {
      assert anchor + t == t;
      assert LeadingSeps(f, t) == 0;
    } else if anchor == [Sep(f)] {
      RootSegments(f, t);
    } else {
      DoubleSlashSegments(t);
    }
  }

  lemma {:induction false} RootSegments(f: Flavour, t: string)
    requires t == [] || !IsSep(f, t[0])
    ensures AnchorOf(f, [Sep(f)] + t) == [Sep(f)]
    ensures Kept(Segments(f, [Sep(f)] + t)) == Kept(Segments(f, t))
  {
    LeadingSepsOf(f, [Sep(f)], t);
    SegmentsAfterSep(f, Sep(f), t);
  }

  lemma {:induction false} DoubleSlashSegments(t: string)
    requires t == [] || !IsSep(PosixFlavour, t[0])
    ensures AnchorOf(PosixFlavour, "//" + t) == "//"
    ensures Kept(Segments(PosixFlavour, "//" + t)) == Kept(Segments(PosixFlavour, t))
  {
    LeadingSepsOf(PosixFlavour, "//", t);
    SegmentsAfterSep(PosixFlavour, '/', "/" + t);
    SegmentsAfterSep(PosixFlavour, '/', t);
    assert "//" + t == "/" + ("/" + t);
  }
}
