/**
 * Translation between the three views of the media library. A path is its components; the most
 * specific rule is the one with the longest prefix, compared component by component.
 */
module Paths {
  import opened Basics

  datatype Component = Root | Normal(name: string) | Parent

  /** `Root` stands only at the front. */
  type Path = p: seq<Component> | forall i :: 1 <= i < |p| ==> p[i] != Root

  datatype PathMapping = PathMapping(arr: Path, sharerr: Path, qbit: Option<Path>)

  datatype Resolved = Resolved(arr: Path, sharerr: Path, qbit: Path, mappingApplied: bool)

  datatype PathError = NotAbsolute(path: Path)

  datatype Source = Directory | App

  predicate IsAbsolute(p: Path) { p != [] && p[0] == Root }

  /** `Path::join`: joining an absolute path replaces. */
  function Join(a: Path, b: Path): Path {
    if IsAbsolute(b) then b else a + b
  }

  datatype Side = ArrSide | SharerrSide

  function PrefixOf(side: Side, m: PathMapping): Path {
    if side.ArrSide? then m.arr else m.sharerr
  }

  predicate Matches(side: Side, m: PathMapping, p: Path) {
    PrefixOf(side, m) <= p
  }

  /** The matching rule with the longest prefix; of several, the last (`max_by_key`). */
  function MostSpecific(maps: seq<PathMapping>, side: Side, p: Path): Option<PathMapping> {
    if maps == [] then None
    else
      var m := maps[|maps| - 1];
      var best := MostSpecific(maps[..|maps| - 1], side, p);
      if Matches(side, m, p) && (best.None? || |PrefixOf(side, best.value)| <= |PrefixOf(side, m)|)
      then Some(m) else best
  }

  function Resolve(maps: seq<PathMapping>, p: Path): Result<Resolved, PathError> {
    if !IsAbsolute(p) then Err(NotAbsolute(p))
    else
      match MostSpecific(maps, ArrSide, p)
      case Some(m) =>
        assert Matches(ArrSide, m, p) by { WinnerMatches(maps, ArrSide, p); }
        var rest: Path := p[|m.arr|..];
        Ok(Resolved(p, Join(m.sharerr, rest), Join(if m.qbit.Some? then m.qbit.value else m.sharerr, rest), true))
      case None => Ok(Resolved(p, p, p, false))
  }

  function ResolveSharerr(maps: seq<PathMapping>, p: Path): Result<Resolved, PathError> {
    if !IsAbsolute(p) then Err(NotAbsolute(p))
    else
      match MostSpecific(maps, SharerrSide, p)
      case Some(m) =>
        assert Matches(SharerrSide, m, p) by { WinnerMatches(maps, SharerrSide, p); }
        var rest: Path := p[|m.sharerr|..];
        if m.qbit.Some? then Ok(Resolved(p, p, Join(m.qbit.value, rest), true))
        else Ok(Resolved(p, p, p, false))
      case None => Ok(Resolved(p, p, p, false))
  }

  function ResolveFor(maps: seq<PathMapping>, source: Source, p: Path): Result<Resolved, PathError> {
    if source.Directory? then ResolveSharerr(maps, p) else Resolve(maps, p)
  }

  // ----- which rule wins

  lemma {:induction false} WinnerMatches(maps: seq<PathMapping>, side: Side, p: Path)
    ensures var w := MostSpecific(maps, side, p);
            && (w.Some? ==> w.value in maps && Matches(side, w.value, p))
            && (w.Some? ==> forall m :: m in maps && Matches(side, m, p) ==>
                  |PrefixOf(side, m)| <= |PrefixOf(side, w.value)|)
            && (w.None? ==> forall m :: m in maps ==> !Matches(side, m, p))
  {
    if maps != [] {
      WinnerMatches(maps[..|maps| - 1], side, p);
    }
  }

  /** Rule `i` is in force on a side: no later rule has the same prefix there. */
  ghost predicate InForce(maps: seq<PathMapping>, side: Side, i: int) {
    0 <= i < |maps|
    && forall j :: i < j < |maps| ==> PrefixOf(side, maps[j]) != PrefixOf(side, maps[i])
  }

  /** The winner is the rule in force with the longest matching prefix. */
  ghost predicate WinsAt(maps: seq<PathMapping>, side: Side, p: Path, i: int) {
    && InForce(maps, side, i)
    && Matches(side, maps[i], p)
    && forall j :: 0 <= j < |maps| && Matches(side, maps[j], p) ==>
         |PrefixOf(side, maps[j])| <= |PrefixOf(side, maps[i])|
  }

  lemma SameLengthSamePrefix(a: Path, b: Path, p: Path)
    requires a <= p && b <= p && |a| == |b|
    ensures a == b
  {
    assert a == p[..|a|] && b == p[..|b|];
  }

  /** A winner exists exactly when a rule matches, and it is the rule `WinsAt` describes: longest
      prefix first, last of equal ones. */
  lemma {:induction false} WinnerFound(maps: seq<PathMapping>, side: Side, p: Path) returns (i: int)
    requires MostSpecific(maps, side, p).Some?
    ensures WinsAt(maps, side, p, i) && maps[i] == MostSpecific(maps, side, p).value
  {
    var n := |maps| - 1;
    var m, best := maps[n], MostSpecific(maps[..n], side, p);
    WinnerMatches(maps[..n], side, p);
    if Matches(side, m, p) && (best.None? || |PrefixOf(side, best.value)| <= |PrefixOf(side, m)|) {
      i := n;
      forall j | 0 <= j < |maps| && Matches(side, maps[j], p)
        ensures |PrefixOf(side, maps[j])| <= |PrefixOf(side, maps[i])|
      {
        if j < n { assert maps[..n][j] == maps[j]; }
      }
    } else {
      i := WinnerFound(maps[..n], side, p);
      StillWins(maps, side, p, i);
    }
  }

  /** A winner stays one when a rule that does not match, or is shorter, is added. */
  lemma StillWins(maps: seq<PathMapping>, side: Side, p: Path, i: int)
    requires maps != [] && WinsAt(maps[..|maps| - 1], side, p, i)
    requires var m := maps[|maps| - 1];
             Matches(side, m, p) ==> |PrefixOf(side, m)| < |PrefixOf(side, maps[i])|
    ensures WinsAt(maps, side, p, i)
  {
    var n := |maps| - 1;
    assert forall j :: 0 <= j < n ==> maps[..n][j] == maps[j];
  }

  lemma WinnerUnique(maps: seq<PathMapping>, side: Side, p: Path, i: int, j: int)
    requires WinsAt(maps, side, p, i) && WinsAt(maps, side, p, j)
    ensures i == j
  {
    SameLengthSamePrefix(PrefixOf(side, maps[i]), PrefixOf(side, maps[j]), p);
  }

  lemma WinnerIs(maps: seq<PathMapping>, side: Side, p: Path, i: int)
    requires WinsAt(maps, side, p, i)
    ensures MostSpecific(maps, side, p) == Some(maps[i])
  {
    WinnerMatches(maps, side, p);
    assert maps[i] in maps;
    var j := WinnerFound(maps, side, p);
    WinnerUnique(maps, side, p, i, j);
  }

  ghost predicate DistinctPrefixes(maps: seq<PathMapping>, side: Side) {
    forall i, j :: 0 <= i < j < |maps| ==> PrefixOf(side, maps[i]) != PrefixOf(side, maps[j])
  }

  /** With distinct prefixes the choice does not depend on the order of the rules. */
  lemma OrderDoesNotMatter(maps: seq<PathMapping>, others: seq<PathMapping>, side: Side, p: Path)
    requires DistinctPrefixes(maps, side) && multiset(maps) == multiset(others)
    ensures MostSpecific(maps, side, p) == MostSpecific(others, side, p)
  {
    WinnerMatches(maps, side, p);
    WinnerMatches(others, side, p);
    forall m ensures m in maps <==> m in others {
      assert m in maps <==> m in multiset(maps);
      assert m in others <==> m in multiset(others);
    }
    var a, b := MostSpecific(maps, side, p), MostSpecific(others, side, p);
    if a.Some? && b.Some? {
      SameLengthSamePrefix(PrefixOf(side, a.value), PrefixOf(side, b.value), p);
      var i :| 0 <= i < |maps| && maps[i] == a.value;
      var j :| 0 <= j < |maps| && maps[j] == b.value;
    }
  }

  // ----- what each entry point answers

  /** Relative paths are refused as they are, whatever the rules and whoever reports them. */
  lemma RelativeRefused(maps: seq<PathMapping>, source: Source, p: Path)
    ensures ResolveFor(maps, source, p) == Err(NotAbsolute(p)) <==> !IsAbsolute(p)
    ensures ResolveFor(maps, source, p).Ok? <==> IsAbsolute(p)
  {
  }

  /** A path of an application keeps its own view, is rewritten by the rule that wins, under both
      other prefixes of that rule, and passes through unmapped exactly when none matches. */
  lemma ArrPathResolves(maps: seq<PathMapping>, p: Path)
    requires IsAbsolute(p)
    ensures var r := ResolveFor(maps, App, p).value;
            && r.arr == p
            && (r.mappingApplied <==> exists m :: m in maps && m.arr <= p)
            && (!r.mappingApplied ==> r.sharerr == p && r.qbit == p)
            && forall i :: WinsAt(maps, ArrSide, p, i) && maps[i].arr != [] ==>
                 && r.sharerr == maps[i].sharerr + p[|maps[i].arr|..]
                 && r.qbit == (if maps[i].qbit.Some? then maps[i].qbit.value else maps[i].sharerr) + p[|maps[i].arr|..]
  {
    WinnerMatches(maps, ArrSide, p);
    forall i | WinsAt(maps, ArrSide, p, i) && maps[i].arr != []
      ensures var r, rest := Resolve(maps, p).value, p[|maps[i].arr|..];
              r.sharerr == maps[i].sharerr + rest && r.qbit == Target(maps[i]) + rest
    {
      RewrittenPath(maps, p, i);
    }
    if m :| m in maps && m.arr <= p {
      assert Matches(ArrSide, m, p);
    }
  }

  /** A path of a library directory is its own view on both sides; only the qBittorrent view can
      differ, by the rule that wins on the sharerr side, and only if that rule names one. */
  lemma LibraryPathResolves(maps: seq<PathMapping>, p: Path)
    requires IsAbsolute(p)
    ensures var r := ResolveFor(maps, Directory, p).value;
            && r.arr == p && r.sharerr == p
            && (r.mappingApplied <==> exists i :: WinsAt(maps, SharerrSide, p, i) && maps[i].qbit.Some?)
            && (!r.mappingApplied ==> r.qbit == p)
            && forall i :: WinsAt(maps, SharerrSide, p, i) && maps[i].qbit.Some? && maps[i].sharerr != [] ==>
                 r.qbit == maps[i].qbit.value + p[|maps[i].sharerr|..]
  {
    WinnerMatches(maps, SharerrSide, p);
    if MostSpecific(maps, SharerrSide, p).Some? {
      var w := WinnerFound(maps, SharerrSide, p);
      forall i | WinsAt(maps, SharerrSide, p, i) ensures i == w {
        WinnerUnique(maps, SharerrSide, p, i, w);
      }
      if maps[w].sharerr != [] {
        ScannedPath(maps, p, w);
      }
    } else {
      assert forall i :: 0 <= i < |maps| ==> maps[i] in maps;
    }
  }

  // ----- the two entry points

  /** Where qBittorrent sees what a rule maps. */
  function Target(m: PathMapping): Path {
    if m.qbit.Some? then m.qbit.value else m.sharerr
  }

  /** The *arr path and its translated sharerr path name the same qBittorrent path. */
  ghost predicate Agrees(maps: seq<PathMapping>, p: Path)
    requires IsAbsolute(p)
  {
    var viaArr := ResolveFor(maps, App, p).value;
    var viaScan := ResolveFor(maps, Directory, viaArr.sharerr);
    viaScan.Ok? && viaScan.value.qbit == viaArr.qbit
  }

  /** Some rule with a real prefix rewrites `p`. (An empty prefix strips nothing, and joining the
      whole absolute path back gives it unchanged.) */
  ghost predicate Rewritten(maps: seq<PathMapping>, p: Path) {
    exists i :: WinsAt(maps, ArrSide, p, i) && maps[i].arr != []
  }

  /** Whenever the same rule wins on both sides, the two entry points agree. */
  lemma SameRuleAgrees(maps: seq<PathMapping>, p: Path, i: int)
    requires IsAbsolute(p) && WinsAt(maps, ArrSide, p, i) && maps[i].arr != []
    requires IsAbsolute(maps[i].sharerr)
    requires WinsAt(maps, SharerrSide, Resolve(maps, p).value.sharerr, i)
    ensures Agrees(maps, p)
  {
    WinnerIs(maps, ArrSide, p, i);
    WinnerIs(maps, SharerrSide, Resolve(maps, p).value.sharerr, i);
    var rest: Path := p[|maps[i].arr|..];
    assert (maps[i].sharerr + rest)[|maps[i].sharerr|..] == rest;
  }

  /** Rule `w` can still be the *arr-side winner for paths that go on with `d`. */
  ghost predicate Reaches(maps: seq<PathMapping>, w: int, d: Path)
    requires 0 <= w < |maps|
  {
    forall j :: 0 <= j < |maps| && |maps[j].arr| > |maps[w].arr| ==> !(maps[j].arr <= maps[w].arr + d)
  }

  /** Two rules in force, the second covering part `d` of where the first one leads, for paths
      the first one still reaches. */
  ghost predicate Entangled(maps: seq<PathMapping>, w: int, v: int, d: Path) {
    && InForce(maps, ArrSide, w) && InForce(maps, SharerrSide, v)
    && IsAbsolute(maps[w].arr)
    && maps[v].sharerr == maps[w].sharerr + d
    && Reaches(maps, w, d)
  }

  /** What a rule set must satisfy, by itself: every rule that can rewrite leads somewhere
      absolute, and entangled rules lead to the same place. */
  ghost predicate Coherent(maps: seq<PathMapping>) {
    && (forall w :: InForce(maps, ArrSide, w) && IsAbsolute(maps[w].arr) ==> IsAbsolute(maps[w].sharerr))
    && (forall w, v, d :: Entangled(maps, w, v, d) ==> Target(maps[v]) == Target(maps[w]) + d)
  }

  lemma RewrittenPath(maps: seq<PathMapping>, p: Path, w: int)
    requires IsAbsolute(p) && WinsAt(maps, ArrSide, p, w) && maps[w].arr != []
    ensures var rest := p[|maps[w].arr|..];
            && IsAbsolute(maps[w].arr) && (forall i :: 0 <= i < |rest| ==> rest[i] != Root)
            && Resolve(maps, p) == Ok(Resolved(p, maps[w].sharerr + rest, Target(maps[w]) + rest, true))
  {
    WinnerIs(maps, ArrSide, p, w);
    assert maps[w].arr[0] == p[0];
  }

  lemma ScannedPath(maps: seq<PathMapping>, s: Path, v: int)
    requires IsAbsolute(s) && WinsAt(maps, SharerrSide, s, v) && maps[v].sharerr != []
    ensures var rest := s[|maps[v].sharerr|..];
            && IsAbsolute(maps[v].sharerr) && (forall i :: 0 <= i < |rest| ==> rest[i] != Root)
            && ResolveSharerr(maps, s).Ok? && ResolveSharerr(maps, s).value.qbit == Target(maps[v]) + rest
  {
    WinnerIs(maps, SharerrSide, s, v);
    assert maps[v].sharerr[0] == s[0];
    assert s == maps[v].sharerr + s[|maps[v].sharerr|..];
  }

  /** Of two prefixes of one path, the longer extends the shorter. */
  lemma LongerExtends(shorter: Path, rest: Path, longer: Path)
    requires longer <= shorter + rest && |shorter| <= |longer|
    ensures longer == shorter + longer[|shorter|..]
    ensures rest == longer[|shorter|..] + (shorter + rest)[|longer|..]
  {
    var s := shorter + rest;
    assert longer == s[..|longer|];
    assert s[|shorter|..] == rest;
  }

  lemma StillReaches(maps: seq<PathMapping>, p: Path, w: int, d: Path)
    requires WinsAt(maps, ArrSide, p, w) && maps[w].arr + d <= p
    ensures Reaches(maps, w, d)
  {
    forall j | 0 <= j < |maps| && |maps[j].arr| > |maps[w].arr| ensures !(maps[j].arr <= maps[w].arr + d) {
      if maps[j].arr <= maps[w].arr + d {
        assert Matches(ArrSide, maps[j], p);
      }
    }
  }

  lemma ScanWinner(maps: seq<PathMapping>, w: int, rest: Path) returns (v: int, d: Path, after: Path)
    requires 0 <= w < |maps| && IsAbsolute(maps[w].sharerr)
    requires forall i :: 0 <= i < |rest| ==> rest[i] != Root
    ensures InForce(maps, SharerrSide, v) && maps[v].sharerr == maps[w].sharerr + d && rest == d + after
    ensures var scan := ResolveSharerr(maps, maps[w].sharerr + rest);
            scan.Ok? && scan.value.qbit == Target(maps[v]) + after
  {
    var s: Path := maps[w].sharerr + rest;
    WinnerMatches(maps, SharerrSide, s);
    assert maps[w] in maps && Matches(SharerrSide, maps[w], s);
    v := WinnerFound(maps, SharerrSide, s);
    ScannedPath(maps, s, v);
    LongerExtends(maps[w].sharerr, rest, maps[v].sharerr);
    d, after := maps[v].sharerr[|maps[w].sharerr|..], s[|maps[v].sharerr|..];
  }

  lemma Regroup(a: seq<Component>, d: seq<Component>, after: seq<Component>)
    ensures a + (d + after) == (a + d) + after
    ensures a + d <= a + (d + after)
  {
  }

  lemma CoherentAgrees(maps: seq<PathMapping>, p: Path, w: int)
    requires Coherent(maps) && IsAbsolute(p) && WinsAt(maps, ArrSide, p, w) && maps[w].arr != []
    ensures Agrees(maps, p)
  {
    RewrittenPath(maps, p, w);
    var rest: Path := p[|maps[w].arr|..];
    assert p == maps[w].arr + rest;
    var v, d, after := ScanWinner(maps, w, rest);
    Regroup(maps[w].arr, d, after);
    StillReaches(maps, p, w, d);
    assert Entangled(maps, w, v, d);
    assert Target(maps[v]) == Target(maps[w]) + d;
    Regroup(Target(maps[w]), d, after);
  }

  lemma WinsAtItsEnd(maps: seq<PathMapping>, w: int, v: int, d: Path)
    requires Entangled(maps, w, v, d) && IsAbsolute(maps[w].sharerr)
    ensures forall i :: 0 <= i < |d| ==> d[i] != Root
    ensures WinsAt(maps, ArrSide, maps[w].arr + d, w)
    ensures WinsAt(maps, SharerrSide, maps[v].sharerr, v)
  {
    assert forall i :: 0 <= i < |d| ==> d[i] == maps[v].sharerr[|maps[w].sharerr| + i];
  }

  lemma EntangledMustAgree(maps: seq<PathMapping>, w: int, v: int, d: Path)
    requires Entangled(maps, w, v, d) && IsAbsolute(maps[w].sharerr)
    requires forall p: Path :: IsAbsolute(p) && Rewritten(maps, p) ==> Agrees(maps, p)
    ensures Target(maps[v]) == Target(maps[w]) + d
  {
    WinsAtItsEnd(maps, w, v, d);
    var p: Path := maps[w].arr + d;
    assert Rewritten(maps, p);
    RewrittenPath(maps, p, w);
    assert p[|maps[w].arr|..] == d;
    ScannedPath(maps, maps[v].sharerr, v);
    assert maps[v].sharerr[|maps[v].sharerr|..] == [];
    assert Agrees(maps, p);
    assert Target(maps[v]) + [] == Target(maps[v]);
  }

  lemma MustLeadSomewhere(maps: seq<PathMapping>, w: int)
    requires InForce(maps, ArrSide, w) && IsAbsolute(maps[w].arr)
    requires forall p: Path :: IsAbsolute(p) && Rewritten(maps, p) ==> Agrees(maps, p)
    ensures IsAbsolute(maps[w].sharerr)
  {
    var p := maps[w].arr;
    assert WinsAt(maps, ArrSide, p, w);
    assert Rewritten(maps, p);
    RewrittenPath(maps, p, w);
    assert p[|p|..] == [];
    assert Agrees(maps, p);
  }

  /** The two entry points agree on every path a rule rewrites exactly when the rule set is
      coherent, which says nothing about any path. */
  lemma AgreementIffCoherent(maps: seq<PathMapping>)
    ensures (forall p: Path :: IsAbsolute(p) && Rewritten(maps, p) ==> Agrees(maps, p)) <==> Coherent(maps)
  {
    if forall p: Path :: IsAbsolute(p) && Rewritten(maps, p) ==> Agrees(maps, p) {
      forall w | InForce(maps, ArrSide, w) && IsAbsolute(maps[w].arr) ensures IsAbsolute(maps[w].sharerr) {
        MustLeadSomewhere(maps, w);
      }
      forall w, v, d | Entangled(maps, w, v, d) ensures Target(maps[v]) == Target(maps[w]) + d {
        EntangledMustAgree(maps, w, v, d);
      }
    }
    if Coherent(maps) {
      forall p: Path | IsAbsolute(p) && Rewritten(maps, p) ensures Agrees(maps, p) {
        var w :| WinsAt(maps, ArrSide, p, w) && maps[w].arr != [];
        CoherentAgrees(maps, p, w);
      }
    }
  }

  /** No rule with a real *arr prefix matches at or above `p`. */
  ghost predicate Uncovered(maps: seq<PathMapping>, p: Path) {
    forall j :: 0 <= j < |maps| && maps[j].arr != [] ==> !(maps[j].arr <= p)
  }

  /** Every library mount no *arr rule covers is one qBittorrent sees at the same place. */
  ghost predicate Transparent(maps: seq<PathMapping>) {
    forall v :: InForce(maps, SharerrSide, v) && Uncovering(maps, v) ==> Target(maps[v]) == maps[v].sharerr
  }

  ghost predicate Uncovering(maps: seq<PathMapping>, v: int)
    requires 0 <= v < |maps|
  {
    IsAbsolute(maps[v].sharerr) && Uncovered(maps, maps[v].sharerr)
  }

  lemma NotRewritten(maps: seq<PathMapping>, p: Path)
    requires IsAbsolute(p)
    ensures Rewritten(maps, p) <==> !Uncovered(maps, p)
    ensures !Rewritten(maps, p) ==> Resolve(maps, p).Ok? && Resolve(maps, p).value.sharerr == p
                                    && Resolve(maps, p).value.qbit == p
  {
    WinnerMatches(maps, ArrSide, p);
    if MostSpecific(maps, ArrSide, p).Some? {
      var w := WinnerFound(maps, ArrSide, p);
      if maps[w].arr == [] {
        forall j | 0 <= j < |maps| && maps[j].arr != [] ensures !(maps[j].arr <= p) {
          assert Matches(ArrSide, maps[j], p) ==> |PrefixOf(ArrSide, maps[j])| <= 0;
        }
        assert p[0..] == p;
        if i :| WinsAt(maps, ArrSide, p, i) && maps[i].arr != [] {
          WinnerUnique(maps, ArrSide, p, i, w);
        }
      } else {
        assert Rewritten(maps, p);
        assert Matches(ArrSide, maps[w], p);
      }
    } else {
      assert forall j :: 0 <= j < |maps| ==> maps[j] in maps;
      assert forall j :: 0 <= j < |maps| ==> !Matches(ArrSide, maps[j], p);
    }
  }

  lemma PassedThroughAgrees(maps: seq<PathMapping>, p: Path)
    requires Transparent(maps) && IsAbsolute(p) && !Rewritten(maps, p)
    ensures Agrees(maps, p)
  {
    NotRewritten(maps, p);
    if MostSpecific(maps, SharerrSide, p).Some? {
      var v := WinnerFound(maps, SharerrSide, p);
      if maps[v].sharerr == [] {
        assert p[0..] == p;
      } else {
        ScannedPath(maps, p, v);
        assert Uncovered(maps, maps[v].sharerr) by {
          forall j | 0 <= j < |maps| && maps[j].arr != [] ensures !(maps[j].arr <= maps[v].sharerr) {
            assert !(maps[j].arr <= p);
          }
        }
        assert p == maps[v].sharerr + p[|maps[v].sharerr|..];
      }
    }
  }

  /** On paths no rule rewrites, they agree exactly when the rule set is transparent. */
  lemma PassThroughIffTransparent(maps: seq<PathMapping>)
    ensures (forall p: Path :: IsAbsolute(p) && !Rewritten(maps, p) ==> Agrees(maps, p)) <==> Transparent(maps)
  {
    if forall p: Path :: IsAbsolute(p) && !Rewritten(maps, p) ==> Agrees(maps, p) {
      forall v | InForce(maps, SharerrSide, v) && Uncovering(maps, v)
        ensures Target(maps[v]) == maps[v].sharerr
      {
        var p := maps[v].sharerr;
        NotRewritten(maps, p);
        assert WinsAt(maps, SharerrSide, p, v);
        ScannedPath(maps, p, v);
        assert p[|p|..] == [];
        assert Agrees(maps, p);
      }
    }
    if Transparent(maps) {
      forall p: Path | IsAbsolute(p) && !Rewritten(maps, p) ensures Agrees(maps, p) {
        PassedThroughAgrees(maps, p);
      }
    }
  }

  /** Two *arr mounts that nest on the sharerr side and not on qBittorrent's: the same file gets
      two qBittorrent paths. */
  lemma NestedMountsDisagree()
    ensures var tv := [Root, Normal("tv")];
            var media := [Root, Normal("media")];
            var maps := [PathMapping(tv, media, Some([Root, Normal("downloads")])),
                         PathMapping([Root, Normal("more")], media + [Normal("extras")], Some([Root, Normal("dl")]))];
            !Agrees(maps, tv + [Normal("extras")])
  {
    var tv: Path := [Root, Normal("tv")];
    var media: Path := [Root, Normal("media")];
    var second := PathMapping([Root, Normal("more")], media + [Normal("extras")], Some([Root, Normal("dl")]));
    var maps := [PathMapping(tv, media, Some([Root, Normal("downloads")])), second];
    var p: Path := tv + [Normal("extras")];
    assert !Matches(ArrSide, second, p) by { assert p[1] == Normal("tv"); }
    assert WinsAt(maps, ArrSide, p, 0);
    RewrittenPath(maps, p, 0);
    assert p[|tv|..] == [Normal("extras")];
    var s: Path := media + [Normal("extras")];
    assert WinsAt(maps, SharerrSide, s, 1);
    ScannedPath(maps, s, 1);
    assert s[|s|..] == [];
    assert |Target(maps[0]) + [Normal("extras")]| == 3;
    assert |Target(maps[1]) + []| == 2;
  }
}
