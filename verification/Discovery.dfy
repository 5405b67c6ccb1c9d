/** What discovery finds: the files each application's walk yields, and who each of them is for. */
module Discovery {
  import opened Basics
  import opened Slugs
  import Numbering

  datatype Tag = Tag(id: int, name: string)

  /** What an application answers about one entity's files. */
  datatype Payload =
    | SeriesFiles(alternateOrder: bool, episodes: seq<Numbering.Episode>, listed: seq<int>)
    | MovieFiles(embedded: Option<int>, hasFile: bool, lookedUp: seq<int>)
    | ParentedFiles(containers: seq<int>, parented: seq<(int, int)>)

  /** A series, film, artist or author: what tags are put on, and what is known of its files. */
  datatype Entity = Entity(tags: seq<int>, payload: Payload)

  predicate Linked(episodes: seq<Numbering.Episode>, file: int) {
    exists i :: 0 <= i < |episodes| && Numbering.Names(episodes[i], file)
  }

  function LinkedFiles(episodes: seq<Numbering.Episode>, listed: seq<int>): (r: seq<int>)
    ensures forall f :: f in r <==> f in listed && Linked(episodes, f)
  {
    if listed == [] then []
    else
      LinkedFiles(episodes, listed[..|listed| - 1])
      + if Linked(episodes, listed[|listed| - 1]) then [listed[|listed| - 1]] else []
  }

  /** `join_by_parent`: the (file, parent) pairs whose parent is listed. */
  function JoinedFiles(containers: seq<int>, parented: seq<(int, int)>): (r: seq<int>)
    ensures forall f :: f in r <==> exists i :: 0 <= i < |parented| && parented[i].0 == f && parented[i].1 in containers
  {
    if parented == [] then []
    else
      var front, last := parented[..|parented| - 1], parented[|parented| - 1];
      var r := JoinedFiles(containers, front) + if last.1 in containers then [last.0] else [];
      assert forall f :: f in r ==> exists i :: 0 <= i < |parented| && parented[i].0 == f && parented[i].1 in containers by {
        assert forall i :: 0 <= i < |front| ==> front[i] == parented[i];
        assert parented[|parented| - 1] == last;
      }
      r
  }

  /** The files an application's walk yields for an entity: a series in an alternate order yields
      none, a file no episode or no listed parent claims is dropped, and a film has at most one. */
  function FilesIn(e: Entity): seq<int> {
    match e.payload
    case SeriesFiles(alternateOrder, episodes, listed) =>
      if alternateOrder then [] else LinkedFiles(episodes, listed)
    case MovieFiles(embedded, hasFile, lookedUp) =>
      if embedded.Some? then [embedded.value]
      else if hasFile && lookedUp != [] then [lookedUp[0]] else []
    case ParentedFiles(containers, parented) => JoinedFiles(containers, parented)
  }

  /** What each kind of entity yields, said without the functions that compute it. */
  lemma WhatAWalkYields(e: Entity, file: int)
    ensures match e.payload
            case SeriesFiles(alternateOrder, episodes, listed) =>
              file in FilesIn(e) <==>
                !alternateOrder && file in listed && file != 0 && exists ep :: ep in episodes && ep.fileId == file
            case MovieFiles(Some(embedded), _, _) => FilesIn(e) == [embedded]
            case MovieFiles(None, hasFile, lookedUp) =>
              FilesIn(e) == if hasFile && |lookedUp| > 0 then [lookedUp[0]] else []
            case ParentedFiles(containers, parented) =>
              file in FilesIn(e) <==> exists p :: p in parented && p.0 == file && p.1 in containers
  {
    match e.payload
    case SeriesFiles(_, episodes, _) =>
      LinkedIff(episodes, file);
    case MovieFiles(_, _, _) =>
    case ParentedFiles(containers, parented) =>
      if p :| p in parented && p.0 == file && p.1 in containers {
        var i :| 0 <= i < |parented| && parented[i] == p;
      }
  }

  lemma LinkedIff(episodes: seq<Numbering.Episode>, file: int)
    ensures Linked(episodes, file) <==> file != 0 && exists ep :: ep in episodes && ep.fileId == file
  {
    if Linked(episodes, file) {
      var i :| 0 <= i < |episodes| && Numbering.Names(episodes[i], file);
      assert episodes[i] in episodes;
    }
    if file != 0 {
      if ep :| ep in episodes && ep.fileId == file {
        var i :| 0 <= i < |episodes| && episodes[i] == ep;
        assert Numbering.Names(episodes[i], file);
      }
    }
  }

  /** The Sonarr walk of one series, through the numbering of its files. */
  method WalkSeries(tags: seq<int>, alternateOrder: bool, episodes: seq<Numbering.Episode>, listed: seq<int>)
    returns (files: seq<int>)
    ensures files == FilesIn(Entity(tags, SeriesFiles(alternateOrder, episodes, listed)))
  {
    files := [];
    if alternateOrder {
      return;
    }
    var numbering := Numbering.NumberingByFile(episodes);
    for i := 0 to |listed|
      invariant files == LinkedFiles(episodes, listed[..i])
    {
      assert listed[..i + 1][..i] == listed[..i];
      LinkedIsNumbered(episodes, numbering, listed[i]);
      if listed[i] in numbering {
        files := files + [listed[i]];
      }
    }
    assert listed[..|listed|] == listed;
  }

  lemma LinkedIsNumbered(episodes: seq<Numbering.Episode>, index: map<int, Numbering.Slot>, file: int)
    requires Numbering.IsNumbering(episodes, index)
    ensures file in index <==> Linked(episodes, file)
  {
    if Linked(episodes, file) {
      var i :| 0 <= i < |episodes| && Numbering.Names(episodes[i], file);
      assert episodes[i] in episodes;
    }
  }

  /** The first tag with this name, ignoring case. */
  function FindTag(tags: seq<Tag>, tagName: string): Option<int> {
    if tags == [] then None
    else if Lower(tags[0].name) == Lower(tagName) then Some(tags[0].id)
    else FindTag(tags[1..], tagName)
  }

  /** Tag `i` is the first whose name is `tagName`, ignoring case. */
  ghost predicate FirstNamed(tags: seq<Tag>, tagName: string, i: int) {
    && 0 <= i < |tags|
    && Lower(tags[i].name) == Lower(tagName)
    && forall j :: 0 <= j < i ==> Lower(tags[j].name) != Lower(tagName)
  }

  /** The tag found is the first bearing the name, and none is found exactly when none bears it. */
  lemma {:induction false} FindTagFinds(tags: seq<Tag>, tagName: string)
    ensures FindTag(tags, tagName) == None <==> forall t :: t in tags ==> Lower(t.name) != Lower(tagName)
    ensures FindTag(tags, tagName).Some? ==>
              exists i :: FirstNamed(tags, tagName, i) && FindTag(tags, tagName) == Some(tags[i].id)
    ensures forall i :: FirstNamed(tags, tagName, i) ==> FindTag(tags, tagName) == Some(tags[i].id)
  {
    if tags != [] {
      var rest := tags[1..];
      FindTagFinds(rest, tagName);
      assert forall j :: 0 <= j < |rest| ==> rest[j] == tags[j + 1];
      assert forall t :: t in tags <==> t == tags[0] || t in rest;
      if Lower(tags[0].name) == Lower(tagName) {
        assert FirstNamed(tags, tagName, 0);
      } else {
        forall i | FirstNamed(tags, tagName, i) ensures FindTag(tags, tagName) == Some(tags[i].id) {
          assert FirstNamed(rest, tagName, i - 1);
        }
        if i :| FirstNamed(rest, tagName, i) && FindTag(rest, tagName) == Some(rest[i].id) {
          assert FirstNamed(tags, tagName, i + 1);
        }
      }
    }
  }

  /** The friend a tag names: what follows `<tag>-`, if anything does. */
  function FriendOf(tag: Tag, tagName: string): Option<string> {
    var prefix := Lower(tagName) + ['-'];
    if prefix <= Lower(tag.name) && |Lower(tag.name)| > |prefix|
    then Some(Lower(tag.name)[|prefix|..]) else None
  }

  /** A tag names a friend exactly when it reads `<tag>-<friend>`, ignoring case. */
  lemma FriendOfIff(tag: Tag, tagName: string, friend: string)
    ensures FriendOf(tag, tagName) == Some(friend)
            <==> friend != [] && Lower(tag.name) == Lower(tagName) + ['-'] + friend
  {
    var prefix, name := Lower(tagName) + ['-'], Lower(tag.name);
    if prefix <= name {
      assert name == prefix + name[|prefix|..];
    }
  }

  function FriendTags(tags: seq<Tag>, tagName: string): (r: seq<(int, string)>)
    ensures forall p :: p in r <==> exists t :: t in tags && p.0 == t.id && FriendOf(t, tagName) == Some(p.1)
  {
    if tags == [] then []
    else
      var more := FriendTags(tags[1..], tagName);
      match FriendOf(tags[0], tagName)
      case Some(friend) => [(tags[0].id, friend)] + more
      case None => more
  }

  /** The ids of a list of (id, value) pairs. */
  function Ids<T>(pairs: seq<(int, T)>): (r: seq<int>)
    ensures |r| == |pairs|
    ensures forall i :: 0 <= i < |r| ==> r[i] == pairs[i].0
  {
    seq(|pairs|, i requires 0 <= i < |pairs| => pairs[i].0)
  }

  predicate CarriesAny(e: Entity, ids: seq<int>) {
    exists i :: 0 <= i < |e.tags| && e.tags[i] in ids
  }

  /** What the walk hands on: each file with the tags of its entity. */
  function WithTags(files: seq<int>, tags: seq<int>): (r: seq<(int, seq<int>)>)
    ensures |r| == |files|
    ensures forall i :: 0 <= i < |r| ==> r[i] == (files[i], tags)
  {
    seq(|files|, i requires 0 <= i < |files| => (files[i], tags))
  }

  function FilesOf(e: Entity): seq<(int, seq<int>)> { WithTags(FilesIn(e), e.tags) }

  /** Every file yielded by an entity carrying any of `ids`, with that entity's tags. */
  function Walk(entities: seq<Entity>, ids: seq<int>): seq<(int, seq<int>)> {
    if entities == [] then [] else WalkOne(entities[0], ids) + Walk(entities[1..], ids)
  }

  function WalkOne(e: Entity, ids: seq<int>): seq<(int, seq<int>)> {
    if CarriesAny(e, ids) then FilesOf(e) else []
  }

  function NamesOn(friends: seq<(int, string)>, tags: seq<int>): (r: seq<string>)
    ensures forall n :: n in r <==> exists p :: p in friends && p.0 in tags && p.1 == n
  {
    if friends == [] then []
    else (if friends[0].0 in tags then [friends[0].1] else []) + NamesOn(friends[1..], tags)
  }

  /** What discovery records about the files it walked. */
  ghost predicate IsAudience(walked: seq<(int, seq<int>)>, plain: int, friends: seq<(int, string)>,
                             audience: map<int, seq<string>>) {
    && (forall w :: w in walked && plain in w.1 ==> w.0 !in audience)
    && (forall w :: w in walked && plain !in w.1 ==>
          w.0 in audience && audience[w.0] == NamesOn(friends, w.1))
    && (forall f :: f in audience ==> exists w :: w in walked && w.0 == f && plain !in w.1)
  }

  ghost predicate DistinctFiles(walked: seq<(int, seq<int>)>) {
    forall i, j :: 0 <= i < j < |walked| ==> walked[i].0 != walked[j].0
  }

  /** The audience map as the loop builds it: the last walk of a file wins. */
  function AudienceMap(walked: seq<(int, seq<int>)>, plain: int, friends: seq<(int, string)>)
    : map<int, seq<string>>
  {
    if walked == [] then map[]
    else
      var before, w := AudienceMap(walked[..|walked| - 1], plain, friends), walked[|walked| - 1];
      if plain in w.1 then before else before[w.0 := NamesOn(friends, w.1)]
  }

  datatype Discovery = TagNotFound | Found(files: seq<int>, audience: map<int, seq<string>>)

  /** Everything discovery looks for: the plain tag and the friends' tags. */
  function SharingTags(tags: seq<Tag>, tagName: string, plain: int): seq<int> {
    [plain] + Ids(FriendTags(tags, tagName))
  }

  /** What discovery asks the source for: files of entities carrying the plain tag or a friend's. */
  function WalkFor(tags: seq<Tag>, tagName: string, entities: seq<Entity>, plain: int): seq<(int, seq<int>)> {
    Walk(entities, SharingTags(tags, tagName, plain))
  }

  method DiscoverWithAudience(tags: seq<Tag>, tagName: string, entities: seq<Entity>) returns (r: Discovery)
    ensures r == TagNotFound <==> forall t :: t in tags ==> Lower(t.name) != Lower(tagName)
    ensures forall i :: FirstNamed(tags, tagName, i) ==>
              var walked := WalkFor(tags, tagName, entities, tags[i].id);
              r == Found(Ids(walked), AudienceMap(walked, tags[i].id, FriendTags(tags, tagName)))
  {
    FindTagFinds(tags, tagName);
    var found := FindTag(tags, tagName);
    if found.None? {
      return TagNotFound;
    }
    var walked := WalkFor(tags, tagName, entities, found.value);
    var files, audience := Collect(walked, found.value, FriendTags(tags, tagName));
    return Found(files, audience);
  }

  /** The loop over what was walked. */
  method Collect(walked: seq<(int, seq<int>)>, plain: int, friends: seq<(int, string)>)
    returns (files: seq<int>, audience: map<int, seq<string>>)
    ensures files == Ids(walked) && audience == AudienceMap(walked, plain, friends)
  {
    files, audience := [], map[];
    for i := 0 to |walked|
      invariant files == Ids(walked[..i]) && audience == AudienceMap(walked[..i], plain, friends)
    {
      var (file, entityTags) := walked[i];
      assert walked[..i + 1][..i] == walked[..i];
      if plain !in entityTags {
        audience := audience[file := NamesOn(friends, entityTags)];
      }
      files := files + [file];
    }
    assert walked[..|walked|] == walked;
  }

  /** With distinct file ids the map says exactly which files are for whom. */
  lemma {:induction false} MapIsAudience(
    walked: seq<(int, seq<int>)>, plain: int, friends: seq<(int, string)>)
    requires DistinctFiles(walked)
    ensures IsAudience(walked, plain, friends, AudienceMap(walked, plain, friends))
  {
    if walked != [] {
      var front, w := walked[..|walked| - 1], walked[|walked| - 1];
      assert walked == front + [w];
      MapIsAudience(front, plain, friends);
      OneMoreFile(front, w, plain, friends, AudienceMap(front, plain, friends));
    }
  }

  lemma OneMoreFile(seen: seq<(int, seq<int>)>, w: (int, seq<int>), plain: int,
                    friends: seq<(int, string)>, audience: map<int, seq<string>>)
    requires IsAudience(seen, plain, friends, audience) && DistinctFiles(seen + [w])
    ensures IsAudience(seen + [w], plain, friends,
                       if plain in w.1 then audience else audience[w.0 := NamesOn(friends, w.1)])
  {
    var all := seen + [w];
    assert forall x :: x in all <==> x in seen || x == w;
    forall x | x in seen ensures x.0 != w.0 {
      var i :| 0 <= i < |seen| && seen[i] == x;
      assert all[i] == x && all[|seen|] == w;
    }
    assert w in all;
    var after := if plain in w.1 then audience else audience[w.0 := NamesOn(friends, w.1)];
    forall f | f in after ensures exists x :: x in all && x.0 == f && plain !in x.1 {
      if f in audience {
        var x :| x in seen && x.0 == f && plain !in x.1;
        assert x in all;
      } else {
        assert w.0 == f && plain !in w.1;
      }
    }
  }

  lemma WithTagsHolds(files: seq<int>, tags: seq<int>, w: (int, seq<int>))
    ensures w in WithTags(files, tags) <==> w.0 in files && w.1 == tags
  {
    if w.0 in files && w.1 == tags {
      var i :| 0 <= i < |files| && files[i] == w.0;
      assert WithTags(files, tags)[i] == w;
    }
  }

  lemma {:induction false} WalkedFrom(entities: seq<Entity>, ids: seq<int>, w: (int, seq<int>))
    ensures w in Walk(entities, ids)
            <==> exists e :: e in entities && CarriesAny(e, ids) && w.0 in FilesIn(e) && w.1 == e.tags
  {
    if entities != [] {
      var e0 := entities[0];
      WalkedFrom(entities[1..], ids, w);
      WithTagsHolds(FilesIn(e0), e0.tags, w);
      assert forall e :: e in entities <==> e == e0 || e in entities[1..];
    }
  }

  /** Files are walked in the order of their entities, each entity's together. */
  lemma {:induction false} WalkInOrder(entities: seq<Entity>, e: Entity, ids: seq<int>)
    ensures Walk(entities + [e], ids) == Walk(entities, ids) + WalkOne(e, ids)
  {
    var all := entities + [e];
    if entities == [] {
      assert all[1..] == [];
      assert Walk([], ids) == [];
    } else {
      assert all[1..] == entities[1..] + [e] && all[0] == entities[0];
      WalkInOrder(entities[1..], e, ids);
      JoinsRegroup(WalkOne(entities[0], ids), Walk(entities[1..], ids), WalkOne(e, ids));
    }
  }

  /** Discovery never records an empty audience, which would read as everyone: what is walked
      without the plain tag carries a friend's. */
  lemma AudienceNeverEmpty(tags: seq<Tag>, tagName: string, e: Entity, plain: int)
    requires CarriesAny(e, SharingTags(tags, tagName, plain)) && plain !in e.tags
    ensures NamesOn(FriendTags(tags, tagName), e.tags) != []
  {
    var friends := FriendTags(tags, tagName);
    var i :| 0 <= i < |e.tags| && e.tags[i] in [plain] + Ids(friends);
    assert e.tags[i] != plain;
    assert e.tags[i] in Ids(friends);
    var j :| 0 <= j < |friends| && Ids(friends)[j] == e.tags[i];
    assert friends[j] in friends && friends[j].0 in e.tags;
    assert friends[j].1 in NamesOn(friends, e.tags);
  }

  /** No two files a source's walk can yield share an id. */
  ghost predicate DistinctFileIds(entities: seq<Entity>) {
    && (forall e :: e in entities ==> NoDuplicates(FilesIn(e)))
    && (forall i, j, f :: 0 <= i < j < |entities| && f in FilesIn(entities[i]) ==> f !in FilesIn(entities[j]))
  }

  lemma SoleOwner(entities: seq<Entity>, e: Entity, other: Entity, f: int)
    requires DistinctFileIds(entities) && e in entities && other in entities
    requires f in FilesIn(e) && f in FilesIn(other)
    ensures e == other
  {
    var i :| 0 <= i < |entities| && entities[i] == e;
    var j :| 0 <= j < |entities| && entities[j] == other;
    assert i == j;
  }

  lemma DistinctTail(entities: seq<Entity>)
    requires entities != [] && DistinctFileIds(entities)
    ensures DistinctFileIds(entities[1..])
    ensures forall e, f :: e in entities[1..] && f in FilesIn(entities[0]) ==> f !in FilesIn(e)
  {
    var rest := entities[1..];
    assert forall i :: 0 <= i < |rest| ==> rest[i] == entities[i + 1];
    forall e, f | e in rest && f in FilesIn(entities[0]) ensures f !in FilesIn(e) {
      var k :| 0 <= k < |rest| && rest[k] == e;
      assert entities[k + 1] == e;
    }
  }

  lemma {:induction false} WalkDistinct(entities: seq<Entity>, ids: seq<int>)
    requires DistinctFileIds(entities)
    ensures DistinctFiles(Walk(entities, ids))
  {
    if entities != [] {
      var e, rest := entities[0], entities[1..];
      DistinctTail(entities);
      WalkDistinct(rest, ids);
      var first, more := FilesOf(e), Walk(rest, ids);
      assert e in entities && NoDuplicates(FilesIn(e));
      forall i, j | 0 <= i < |first| && 0 <= j < |more| ensures first[i].0 != more[j].0 {
        WalkedFrom(rest, ids, more[j]);
        var other :| other in rest && more[j].0 in FilesIn(other);
        assert FilesIn(e)[i] in FilesIn(e);
      }
      DistinctJoin(first, more);
    }
  }

  lemma DistinctJoin(a: seq<(int, seq<int>)>, b: seq<(int, seq<int>)>)
    requires DistinctFiles(a) && DistinctFiles(b)
    requires forall i, j :: 0 <= i < |a| && 0 <= j < |b| ==> a[i].0 != b[j].0
    ensures DistinctFiles(a + b)
  {
  }

  /** Discovery walked this file. */
  predicate WalkedFile(tags: seq<Tag>, tagName: string, entities: seq<Entity>, plain: int, file: int) {
    file in Ids(WalkFor(tags, tagName, entities, plain))
  }

  lemma WalkedIff(tags: seq<Tag>, tagName: string, entities: seq<Entity>, plain: int, file: int)
    ensures WalkedFile(tags, tagName, entities, plain, file)
            <==> exists e :: e in entities && CarriesAny(e, SharingTags(tags, tagName, plain)) && file in FilesIn(e)
  {
    var walked, ids := WalkFor(tags, tagName, entities, plain), SharingTags(tags, tagName, plain);
    if WalkedFile(tags, tagName, entities, plain, file) {
      var i :| 0 <= i < |walked| && Ids(walked)[i] == file;
      assert walked[i] in walked;
      WalkedFrom(entities, ids, walked[i]);
    }
    if e :| e in entities && CarriesAny(e, ids) && file in FilesIn(e) {
      var w := (file, e.tags);
      WalkedFrom(entities, ids, w);
      var i :| 0 <= i < |walked| && walked[i] == w;
      assert Ids(walked)[i] == file;
    }
  }

  lemma {:induction false} OnlyWalkedHaveEntries(
    walked: seq<(int, seq<int>)>, plain: int, friends: seq<(int, string)>, file: int)
    ensures file in AudienceMap(walked, plain, friends) ==> file in Ids(walked)
  {
    if walked != [] {
      var front := walked[..|walked| - 1];
      OnlyWalkedHaveEntries(front, plain, friends, file);
      assert Ids(walked) == Ids(front) + [walked[|walked| - 1].0];
    }
  }

  /** What the map holds for a walked file. */
  lemma EntryOfWalked(tags: seq<Tag>, tagName: string, entities: seq<Entity>, e: Entity, plain: int, file: int)
    requires DistinctFileIds(entities) && e in entities && file in FilesIn(e)
    requires CarriesAny(e, SharingTags(tags, tagName, plain))
    ensures var friends := FriendTags(tags, tagName);
            var audience := AudienceMap(WalkFor(tags, tagName, entities, plain), plain, friends);
            if plain in e.tags then file !in audience
            else file in audience && audience[file] == NamesOn(friends, e.tags)
  {
    var ids, w := SharingTags(tags, tagName, plain), (file, e.tags);
    WalkDistinct(entities, ids);
    MapIsAudience(WalkFor(tags, tagName, entities, plain), plain, FriendTags(tags, tagName));
    WalkedFrom(entities, ids, w);
    assert w in WalkFor(tags, tagName, entities, plain);
  }

  /** The tag `<tag>-<slug>` names the friend with that slug, in any letter case of either. */
  lemma SlugTagNamesFriend(id: int, tagName: string, name: string)
    requires Slug(name) != []
    ensures FriendOf(Tag(id, tagName + ['-'] + Slug(name)), tagName) == FriendName(name)
  {
    var whole := tagName + ['-'] + Slug(name);
    var prefix := Lower(tagName) + ['-'];
    SlugIsLower(name);
    assert Lower(whole) == prefix + Slug(name);
  }
}
