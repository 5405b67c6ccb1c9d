/** Which episode names a file that several episodes share. */
module Numbering {
  datatype Episode = Episode(season: nat, number: nat, fileId: int)

  type Slot = (nat, nat)

  /** Real seasons before specials, then lowest season and episode. */
  predicate Outranks(a: Slot, b: Slot) {
    var (specialA, specialB) := (a.0 == 0, b.0 == 0);
    if specialA != specialB then specialB
    else a.0 < b.0 || (a.0 == b.0 && a.1 < b.1)
  }

  function SlotOf(e: Episode): Slot { (e.season, e.number) }

  predicate Names(e: Episode, fileId: int) { e.fileId == fileId && fileId != 0 }

  /** What the index should hold, independent of any order: a file is present exactly when an
      episode with a non-zero file id points at it, under the best-ranked such episode. */
  ghost predicate IsNumbering(episodes: seq<Episode>, index: map<int, Slot>) {
    && (forall f :: f in index <==> exists e :: e in episodes && Names(e, f))
    && (forall f :: f in index ==> exists e :: e in episodes && Names(e, f) && SlotOf(e) == index[f])
    && (forall f, e :: f in index && e in episodes && Names(e, f) ==> !Outranks(SlotOf(e), index[f]))
  }

  method NumberingByFile(episodes: seq<Episode>) returns (index: map<int, Slot>)
    ensures IsNumbering(episodes, index)
  {
    index := map[];
    for i := 0 to |episodes|
      invariant IsNumbering(episodes[..i], index)
    {
      var e := episodes[i];
      ghost var before := index;
      if e.fileId != 0 {
        var candidate := SlotOf(e);
        if e.fileId !in index || Outranks(candidate, index[e.fileId]) {
          index := index[e.fileId := candidate];
        }
      }
      OneMore(episodes[..i], e, before, index);
      assert episodes[..i + 1] == episodes[..i] + [e];
    }
    assert episodes[..|episodes|] == episodes;
  }

  lemma OneMore(seen: seq<Episode>, e: Episode, before: map<int, Slot>, after: map<int, Slot>)
    requires IsNumbering(seen, before)
    requires after == if e.fileId != 0 && (e.fileId !in before || Outranks(SlotOf(e), before[e.fileId]))
                      then before[e.fileId := SlotOf(e)] else before
    ensures IsNumbering(seen + [e], after)
  {
    var all := seen + [e];
    assert forall x :: x in all <==> x in seen || x == e;
    assert e in all;
    forall f ensures f in after <==> exists x :: x in all && Names(x, f) {
      if f in before {
        var x :| x in seen && Names(x, f);
        assert x in all;
      } else if exists x :: x in all && Names(x, f) {
        var x :| x in all && Names(x, f);
        assert x == e;
      } else {
        assert !Names(e, f);
      }
    }
    forall f | f in after ensures exists x :: x in all && Names(x, f) && SlotOf(x) == after[f] {
      if f in before && after[f] == before[f] {
        var x :| x in seen && Names(x, f) && SlotOf(x) == before[f];
        assert x in all;
      } else {
        assert Names(e, f) && SlotOf(e) == after[f];
      }
    }
    forall f, x | f in after && x in all && Names(x, f) ensures !Outranks(SlotOf(x), after[f]) {
      if x in seen {
        assert f in before && !Outranks(SlotOf(x), before[f]);
      }
    }
  }

  lemma TiesAreEqual(a: Slot, b: Slot)
    requires !Outranks(a, b) && !Outranks(b, a)
    ensures a == b
  {
  }

  /** Every permutation of the episode list gives the same index. */
  lemma OrderDoesNotMatter(
    episodes: seq<Episode>, shuffled: seq<Episode>, a: map<int, Slot>, b: map<int, Slot>)
    requires multiset(episodes) == multiset(shuffled)
    requires IsNumbering(episodes, a) && IsNumbering(shuffled, b)
    ensures a == b
  {
    forall e ensures e in episodes <==> e in shuffled {
      assert e in episodes <==> e in multiset(episodes);
      assert e in shuffled <==> e in multiset(shuffled);
    }
    forall f ensures f in a <==> f in b {
      assert (exists e :: e in episodes && Names(e, f)) <==> (exists e :: e in shuffled && Names(e, f));
    }
    forall f | f in a ensures a[f] == b[f] {
      var x :| x in episodes && Names(x, f) && SlotOf(x) == a[f];
      var y :| y in shuffled && Names(y, f) && SlotOf(y) == b[f];
      TiesAreEqual(a[f], b[f]);
    }
  }

  /** A regular episode at or before which no other regular episode of the file comes. */
  ghost predicate LowestRegular(episodes: seq<Episode>, e: Episode) {
    && e in episodes && e.season >= 1
    && forall x :: x in episodes && x.fileId == e.fileId && x.season >= 1 ==>
         e.season < x.season || (e.season == x.season && e.number <= x.number)
  }

  /** The lowest-numbered regular episode names the file, whatever specials share it. */
  lemma LowestRegularNames(episodes: seq<Episode>, index: map<int, Slot>, e: Episode)
    requires IsNumbering(episodes, index) && e.fileId != 0 && LowestRegular(episodes, e)
    ensures e.fileId in index && index[e.fileId] == (e.season, e.number)
  {
    assert Names(e, e.fileId);
    var x :| x in episodes && Names(x, e.fileId) && SlotOf(x) == index[e.fileId];
    TiesAreEqual(SlotOf(e), index[e.fileId]);
  }

  /** A file only specials share is named by the lowest-numbered of them. */
  lemma LowestSpecialNames(episodes: seq<Episode>, index: map<int, Slot>, e: Episode)
    requires IsNumbering(episodes, index) && e in episodes && e.fileId != 0 && e.season == 0
    requires forall x :: x in episodes && x.fileId == e.fileId ==> x.season == 0 && e.number <= x.number
    ensures e.fileId in index && index[e.fileId] == (0, e.number)
  {
    assert Names(e, e.fileId);
    var x :| x in episodes && Names(x, e.fileId) && SlotOf(x) == index[e.fileId];
    TiesAreEqual(SlotOf(e), index[e.fileId]);
  }

  /** A special never names a file it shares with a regular episode. */
  lemma SpecialsLast(episodes: seq<Episode>, index: map<int, Slot>, regular: Episode)
    requires IsNumbering(episodes, index) && regular in episodes
    requires regular.fileId != 0 && regular.season != 0
    ensures regular.fileId in index && index[regular.fileId].0 != 0
  {
    assert Names(regular, regular.fileId);
  }
}
