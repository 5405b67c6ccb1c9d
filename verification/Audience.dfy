/** Who an item is for: from what discovery found, through the stored rows, to a friend's feed. */
module Audience {
  import opened Basics
  import opened Media
  import opened Feed
  import opened Slugs
  import opened Discovery

  // ----- the stored rows

  datatype AudienceRow = AudienceRow(source: MediaSource, fileId: int, friend: string)

  function RowsOf(source: MediaSource, audience: map<int, seq<string>>): set<AudienceRow> {
    set f, n | f in audience && n in audience[f] :: AudienceRow(source, f, n)
  }

  function RowsFor(rows: set<AudienceRow>, source: MediaSource): set<AudienceRow> {
    set r | r in rows && r.source == source
  }

  class AudienceStore {
    var rows: set<AudienceRow>

    constructor ()
      ensures rows == {}
    {
      rows := {};
    }

    /** Replaces one source's rows with what its discovery found, and writes nothing when they
        already say so. */
    method ReplaceAudience(source: MediaSource, audience: map<int, seq<string>>) returns (wrote: bool)
      modifies this
      ensures rows == Replaced(old(rows), source, audience)
      ensures wrote <==> RowsFor(old(rows), source) != RowsOf(source, audience)
    {
      var current := RowsFor(rows, source);
      var wanted := RowsOf(source, audience);
      if current == wanted {
        assert rows == rows - current + wanted;
        return false;
      }
      rows := rows - current;
      rows := rows + wanted;
      return true;
    }
  }

  function Replaced(rows: set<AudienceRow>, source: MediaSource, audience: map<int, seq<string>>)
    : set<AudienceRow>
  {
    rows - RowsFor(rows, source) + RowsOf(source, audience)
  }

  /** `audiences`: the rows, grouped by item; an item with no rows is absent. */
  function Grouped(rows: set<AudienceRow>): Audiences {
    map r | r in rows :: (r.source, r.fileId) :=
      (set s | s in rows && s.source == r.source && s.fileId == r.fileId :: s.friend)
  }

  /** Replacing one source's audience leaves every other source's as it was. */
  lemma OtherSourcesUntouched(
    rows: set<AudienceRow>, source: MediaSource, audience: map<int, seq<string>>, item: SharedItem)
    requires item.source != source
    ensures AudienceOf(Grouped(Replaced(rows, source, audience)), item) == AudienceOf(Grouped(rows), item)
  {
    var after, key := Replaced(rows, source, audience), (item.source, item.fileId);
    assert forall r: AudienceRow :: r.source == item.source ==> (r in after <==> r in rows);
    assert key in Grouped(after) <==> key in Grouped(rows) by {
      if key in Grouped(after) {
        var r :| r in after && (r.source, r.fileId) == key;
        assert r in rows;
      }
      if key in Grouped(rows) {
        var r :| r in rows && (r.source, r.fileId) == key;
        assert r in after;
      }
    }
    assert (set s | s in after && s.source == item.source && s.fileId == item.fileId :: s.friend)
        == (set s | s in rows && s.source == item.source && s.fileId == item.fileId :: s.friend);
  }

  /** What is read back for an item is what discovery recorded for its file. */
  lemma StoredAudience(
    rows: set<AudienceRow>, source: MediaSource, audience: map<int, seq<string>>, item: SharedItem)
    requires item.source == source
    requires item.fileId in audience ==> audience[item.fileId] != []
    ensures AudienceOf(Grouped(Replaced(rows, source, audience)), item)
            == if item.fileId in audience then Some(set n | n in audience[item.fileId]) else None
  {
    var after := Replaced(rows, source, audience);
    forall n ensures AudienceRow(source, item.fileId, n) in after
                     <==> item.fileId in audience && n in audience[item.fileId] {
    }
    var key := (source, item.fileId);
    if item.fileId in audience {
      var names := audience[item.fileId];
      assert names[0] in names;
      assert AudienceRow(source, item.fileId, names[0]) in after;
      assert key in Grouped(after);
      var stored := set s | s in after && s.source == source && s.fileId == item.fileId :: s.friend;
      forall n ensures n in stored <==> n in names {
        if n in names {
          assert AudienceRow(source, item.fileId, n) in after;
        }
        if n in stored {
          var s :| s in after && s.source == source && s.fileId == item.fileId && s.friend == n;
          assert s == AudienceRow(source, item.fileId, n);
        }
      }
      assert stored == (set n | n in names);
    } else {
      forall r | r in after ensures (r.source, r.fileId) != key {
        assert r == AudienceRow(r.source, r.fileId, r.friend);
      }
    }
  }

  // ----- from tag to feed

  /** Whether an entity's tags name a friend: the plain tag, or `<tag>-<friend>`. */
  ghost predicate TaggedFor(tags: seq<Tag>, tagName: string, plain: int, e: Entity, friend: Option<string>) {
    || plain in e.tags
    || (friend.Some? && exists t :: t in tags && t.id in e.tags && FriendOf(t, tagName) == friend)
  }

  lemma RecordedFor(tags: seq<Tag>, tagName: string, plain: int, e: Entity, friend: Option<string>)
    requires plain !in e.tags
    ensures friend.Some? && friend.value in NamesOn(FriendTags(tags, tagName), e.tags)
            <==> TaggedFor(tags, tagName, plain, e, friend)
  {
    var friends := FriendTags(tags, tagName);
    if friend.Some? {
      if t :| t in tags && t.id in e.tags && FriendOf(t, tagName) == friend {
        assert (t.id, friend.value) in friends;
      }
    }
  }

  /** The rows once what was found under the plain tag `plain` has been stored. */
  function PublishedById(
    rows: set<AudienceRow>, source: MediaSource, tags: seq<Tag>, tagName: string, entities: seq<Entity>, plain: int)
    : Audiences
  {
    Grouped(Replaced(rows, source,
                     AudienceMap(WalkFor(tags, tagName, entities, plain), plain, FriendTags(tags, tagName))))
  }

  /** The tags of an entity that yields this file name the friend. */
  ghost predicate NamedFor(
    tags: seq<Tag>, tagName: string, entities: seq<Entity>, plain: int, file: int, friend: Option<string>)
  {
    exists e :: e in entities && file in FilesIn(e) && TaggedFor(tags, tagName, plain, e, friend)
  }

  lemma NamedIsShared(tags: seq<Tag>, tagName: string, plain: int, e: Entity, friend: Option<string>)
    requires TaggedFor(tags, tagName, plain, e, friend)
    ensures CarriesAny(e, SharingTags(tags, tagName, plain))
  {
    var ids, friends := SharingTags(tags, tagName, plain), FriendTags(tags, tagName);
    if plain in e.tags {
      assert ids[0] == plain;
    } else {
      var t :| t in tags && t.id in e.tags && FriendOf(t, tagName) == friend;
      assert (t.id, friend.value) in friends;
      var j :| 0 <= j < |friends| && friends[j] == (t.id, friend.value);
      assert ids[j + 1] == t.id;
    }
  }

  /** A file whose entity names someone was walked. */
  lemma NamedIsWalked(
    tags: seq<Tag>, tagName: string, entities: seq<Entity>, plain: int, file: int, friend: Option<string>)
    requires NamedFor(tags, tagName, entities, plain, file, friend)
    ensures WalkedFile(tags, tagName, entities, plain, file)
  {
    var e :| e in entities && file in FilesIn(e) && TaggedFor(tags, tagName, plain, e, friend);
    NamedIsShared(tags, tagName, plain, e, friend);
    WalkedIff(tags, tagName, entities, plain, file);
  }

  /** What is stored for a walked file admits exactly the friends its entity's tags name. */
  lemma AudienceReadsBack(
    tags: seq<Tag>, tagName: string, entities: seq<Entity>, e: Entity, plain: int, rows: set<AudienceRow>,
    item: SharedItem, friend: Option<string>)
    requires DistinctFileIds(entities) && e in entities && item.fileId in FilesIn(e)
    requires CarriesAny(e, SharingTags(tags, tagName, plain))
    ensures ForFriend(friend, AudienceOf(PublishedById(rows, item.source, tags, tagName, entities, plain), item))
            <==> TaggedFor(tags, tagName, plain, e, friend)
  {
    EntryOfWalked(tags, tagName, entities, e, plain, item.fileId);
    if plain !in e.tags {
      AudienceNeverEmpty(tags, tagName, e, plain);
      RecordedFor(tags, tagName, plain, e, friend);
    }
    StoredAudience(rows, item.source,
                   AudienceMap(WalkFor(tags, tagName, entities, plain), plain, FriendTags(tags, tagName)), item);
  }

  /** Only walked files get an entry, so replacing an audience leaves every other stored item of the
      source without one: it reads as being for everyone. No two ids need differ for this. */
  lemma UnwalkedReadsAsEveryone(
    tags: seq<Tag>, tagName: string, entities: seq<Entity>, plain: int, rows: set<AudienceRow>, item: SharedItem)
    requires !WalkedFile(tags, tagName, entities, plain, item.fileId)
    ensures AudienceOf(PublishedById(rows, item.source, tags, tagName, entities, plain), item) == None
  {
    var friends := FriendTags(tags, tagName);
    var walked := WalkFor(tags, tagName, entities, plain);
    OnlyWalkedHaveEntries(walked, plain, friends, item.fileId);
    StoredAudience(rows, item.source, AudienceMap(walked, plain, friends), item);
  }

  lemma InFeedIffForFriend(
    table: seq<SharedItem>, audiences: Audiences, item: SharedItem, scope: PeerScope, limits: PeerLimits)
    requires item in table && InFeed(item) && ScopeAdmits(scope, item) && WithinCaps(limits, item)
    ensures item in FeedFor(table, audiences, scope, limits)
            <==> ForFriend(limits.friend, AudienceOf(audiences, item))
  {
    SeedingMembers(table, scope, item);
    NarrowedMembers(SeedingItems(table, scope), audiences, limits, item);
  }

  lemma AudienceFollowsTags(
    tags: seq<Tag>, tagName: string, entities: seq<Entity>, plain: int, rows: set<AudienceRow>,
    item: SharedItem, friend: Option<string>)
    requires DistinctFileIds(entities)
    ensures ForFriend(friend, AudienceOf(PublishedById(rows, item.source, tags, tagName, entities, plain), item))
            <==> NamedFor(tags, tagName, entities, plain, item.fileId, friend)
                 || !WalkedFile(tags, tagName, entities, plain, item.fileId)
  {
    var ids := SharingTags(tags, tagName, plain);
    if WalkedFile(tags, tagName, entities, plain, item.fileId) {
      WalkedIff(tags, tagName, entities, plain, item.fileId);
      var e :| e in entities && CarriesAny(e, ids) && item.fileId in FilesIn(e);
      AudienceReadsBack(tags, tagName, entities, e, plain, rows, item, friend);
      if NamedFor(tags, tagName, entities, plain, item.fileId, friend) {
        var other :| other in entities && item.fileId in FilesIn(other) && TaggedFor(tags, tagName, plain, other, friend);
        SoleOwner(entities, e, other, item.fileId);
      }
    } else {
      UnwalkedReadsAsEveryone(tags, tagName, entities, plain, rows, item);
    }
  }

  // ----- in terms of labels

  /** The entity carries the tag named `tagName`: the first so named, ignoring case. */
  ghost predicate CarriesPlain(tags: seq<Tag>, tagName: string, e: Entity) {
    exists i :: FirstNamed(tags, tagName, i) && tags[i].id in e.tags
  }

  /** The entity's tags share it with a friend: it carries the tag named `tagName`, or one named
      `<tag>-<friend>`, ignoring case. */
  ghost predicate SharedWith(tags: seq<Tag>, tagName: string, e: Entity, friend: Option<string>) {
    || CarriesPlain(tags, tagName, e)
    || (friend.Some?
        && exists t :: t in tags && t.id in e.tags && Lower(t.name) == Lower(tagName) + ['-'] + friend.value)
  }

  /** The entity's tags share it with someone. */
  ghost predicate CarriesSharingTag(tags: seq<Tag>, tagName: string, e: Entity) {
    exists friend :: friend != [] && SharedWith(tags, tagName, e, Some(friend))
  }

  /** Discovery walks this file: an application yields it for an entity that is shared. */
  ghost predicate Walked(tags: seq<Tag>, tagName: string, entities: seq<Entity>, file: int) {
    exists e :: e in entities && file in FilesIn(e) && CarriesSharingTag(tags, tagName, e)
  }

  /** The entity that yields this file is shared with the friend. */
  ghost predicate FileSharedWith(
    tags: seq<Tag>, tagName: string, entities: seq<Entity>, file: int, friend: Option<string>)
  {
    exists e :: e in entities && file in FilesIn(e) && SharedWith(tags, tagName, e, friend)
  }

  /** The stored rows after one source's discovery, which fails and replaces nothing when no tag
      bears the name. */
  function Published(
    rows: set<AudienceRow>, source: MediaSource, tags: seq<Tag>, tagName: string, entities: seq<Entity>): Audiences
  {
    match FindTag(tags, tagName)
    case None => Grouped(rows)
    case Some(plain) => PublishedById(rows, source, tags, tagName, entities, plain)
  }

  lemma PlainById(tags: seq<Tag>, tagName: string, plain: int, e: Entity)
    requires FindTag(tags, tagName) == Some(plain)
    ensures plain in e.tags <==> CarriesPlain(tags, tagName, e)
  {
    FindTagFinds(tags, tagName);
  }

  lemma SharedById(tags: seq<Tag>, tagName: string, plain: int, e: Entity, friend: Option<string>)
    requires FindTag(tags, tagName) == Some(plain) && (friend.Some? ==> friend.value != [])
    ensures TaggedFor(tags, tagName, plain, e, friend) <==> SharedWith(tags, tagName, e, friend)
  {
    PlainById(tags, tagName, plain, e);
    if friend.Some? {
      forall t | t in tags
        ensures FriendOf(t, tagName) == friend <==> Lower(t.name) == Lower(tagName) + ['-'] + friend.value
      {
        FriendOfIff(t, tagName, friend.value);
      }
    }
  }

  lemma SomeoneNamed(tags: seq<Tag>, tagName: string, plain: int, e: Entity) returns (friend: string)
    requires CarriesAny(e, SharingTags(tags, tagName, plain))
    ensures friend != [] && TaggedFor(tags, tagName, plain, e, Some(friend))
  {
    if plain in e.tags {
      friend := "x";
    } else {
      AudienceNeverEmpty(tags, tagName, e, plain);
      friend := NamesOn(FriendTags(tags, tagName), e.tags)[0];
      RecordedFor(tags, tagName, plain, e, Some(friend));
    }
  }

  lemma CarriesById(tags: seq<Tag>, tagName: string, plain: int, e: Entity)
    requires FindTag(tags, tagName) == Some(plain)
    ensures CarriesAny(e, SharingTags(tags, tagName, plain)) <==> CarriesSharingTag(tags, tagName, e)
  {
    if CarriesSharingTag(tags, tagName, e) {
      var friend :| friend != [] && SharedWith(tags, tagName, e, Some(friend));
      SharedById(tags, tagName, plain, e, Some(friend));
      NamedIsShared(tags, tagName, plain, e, Some(friend));
    }
    if CarriesAny(e, SharingTags(tags, tagName, plain)) {
      var friend := SomeoneNamed(tags, tagName, plain, e);
      SharedById(tags, tagName, plain, e, Some(friend));
    }
  }

  lemma WalkedById(tags: seq<Tag>, tagName: string, entities: seq<Entity>, plain: int, file: int)
    requires FindTag(tags, tagName) == Some(plain)
    ensures WalkedFile(tags, tagName, entities, plain, file) <==> Walked(tags, tagName, entities, file)
  {
    WalkedIff(tags, tagName, entities, plain, file);
    forall e | e in entities
      ensures CarriesAny(e, SharingTags(tags, tagName, plain)) <==> CarriesSharingTag(tags, tagName, e)
    {
      CarriesById(tags, tagName, plain, e);
    }
  }

  lemma FileSharedById(
    tags: seq<Tag>, tagName: string, entities: seq<Entity>, plain: int, file: int, friend: Option<string>)
    requires FindTag(tags, tagName) == Some(plain) && (friend.Some? ==> friend.value != [])
    ensures NamedFor(tags, tagName, entities, plain, file, friend)
            <==> FileSharedWith(tags, tagName, entities, file, friend)
  {
    forall e | e in entities
      ensures TaggedFor(tags, tagName, plain, e, friend) <==> SharedWith(tags, tagName, e, friend)
    {
      SharedById(tags, tagName, plain, e, friend);
    }
  }

  // ----- from label to feed

  /** A label in use: some tag bears the name. */
  ghost predicate LabelExists(tags: seq<Tag>, tagName: string) {
    exists t :: t in tags && Lower(t.name) == Lower(tagName)
  }

  /** From label to feed, for every stored item: after discovery and `replace_audience`, an in-scope,
      within-caps seeding item reaches a friend's feed if and only if the entity that yields its
      file carries the tag named `tagName` or one named `<tag>-<friend>` with that friend's slug,
      or discovery did not walk its file at all. */
  lemma FeedFollowsTags(
    tags: seq<Tag>, tagName: string, entities: seq<Entity>, rows: set<AudienceRow>,
    table: seq<SharedItem>, item: SharedItem, scope: PeerScope, limits: PeerLimits, peerName: string)
    requires LabelExists(tags, tagName) && DistinctFileIds(entities)
    requires item in table && InFeed(item) && ScopeAdmits(scope, item) && WithinCaps(limits, item)
    requires limits.friend == FriendName(peerName)
    ensures item in FeedFor(table, Published(rows, item.source, tags, tagName, entities), scope, limits)
            <==> FileSharedWith(tags, tagName, entities, item.fileId, FriendName(peerName))
                 || !Walked(tags, tagName, entities, item.fileId)
  {
    FindTagFinds(tags, tagName);
    var plain := FindTag(tags, tagName).value;
    InFeedIffForFriend(table, Published(rows, item.source, tags, tagName, entities), item, scope, limits);
    AudienceFollowsTags(tags, tagName, entities, plain, rows, item, FriendName(peerName));
    FileSharedById(tags, tagName, entities, plain, item.fileId, FriendName(peerName));
    WalkedById(tags, tagName, entities, plain, item.fileId);
  }

  /** With no tag of that name nothing is replaced. */
  lemma NoLabelNoChange(rows: set<AudienceRow>, source: MediaSource, tags: seq<Tag>, tagName: string,
                        entities: seq<Entity>)
    requires !LabelExists(tags, tagName)
    ensures Published(rows, source, tags, tagName, entities) == Grouped(rows)
  {
    FindTagFinds(tags, tagName);
  }

  /** An item follows its entity's tags when every friend is served it exactly if the tags share it
      with them. `e` is the entity the item belongs to, whether or not the walk yields its file. */
  ghost predicate FollowsTags(
    tags: seq<Tag>, tagName: string, e: Entity, audiences: Audiences,
    table: seq<SharedItem>, item: SharedItem, scope: PeerScope, limits: PeerLimits)
  {
    forall peerName ::
      item in FeedFor(table, audiences, scope, limits.(friend := FriendName(peerName)))
      <==> SharedWith(tags, tagName, e, FriendName(peerName))
  }

  /** The exact condition: every friend is served an item as its entity's tags say if and only if
      discovery walked its file, or the entity carries the plain tag and is for everyone anyway. */
  lemma FollowsTagsIffWalked(
    tags: seq<Tag>, tagName: string, entities: seq<Entity>, e: Entity, rows: set<AudienceRow>,
    table: seq<SharedItem>, item: SharedItem, scope: PeerScope, limits: PeerLimits)
    requires LabelExists(tags, tagName) && DistinctFileIds(entities)
    requires forall o :: o in entities && item.fileId in FilesIn(o) ==> o == e
    requires item in table && InFeed(item) && ScopeAdmits(scope, item) && WithinCaps(limits, item)
    ensures FollowsTags(tags, tagName, e, Published(rows, item.source, tags, tagName, entities),
                        table, item, scope, limits)
            <==> Walked(tags, tagName, entities, item.fileId) || CarriesPlain(tags, tagName, e)
  {
    var audiences := Published(rows, item.source, tags, tagName, entities);
    var walked := Walked(tags, tagName, entities, item.fileId);
    forall peerName: string
      ensures item in FeedFor(table, audiences, scope, limits.(friend := FriendName(peerName)))
              <==> !walked || SharedWith(tags, tagName, e, FriendName(peerName))
    {
      FeedFollowsTags(tags, tagName, entities, rows, table, item, scope,
                      limits.(friend := FriendName(peerName)), peerName);
      if walked {
        OwnTagsDecide(tags, tagName, entities, e, item.fileId, FriendName(peerName));
      }
    }
    NamelessFriend(tags, tagName, e);
  }

  /** A friend no tag can name is named by the plain tag alone. */
  lemma NamelessFriend(tags: seq<Tag>, tagName: string, e: Entity)
    ensures SharedWith(tags, tagName, e, FriendName("")) <==> CarriesPlain(tags, tagName, e)
    ensures CarriesPlain(tags, tagName, e) ==> forall friend :: SharedWith(tags, tagName, e, friend)
  {
    assert FriendName("") == None;
  }

  lemma OwnTagsDecide(
    tags: seq<Tag>, tagName: string, entities: seq<Entity>, e: Entity, file: int, friend: Option<string>)
    requires forall o :: o in entities && file in FilesIn(o) ==> o == e
    requires Walked(tags, tagName, entities, file)
    ensures FileSharedWith(tags, tagName, entities, file, friend) <==> SharedWith(tags, tagName, e, friend)
  {
    var o :| o in entities && file in FilesIn(o) && CarriesSharingTag(tags, tagName, o);
    assert o == e;
  }

  // ----- once untagged items are withdrawn

  /** A row of a source that discovery did not find, in any state that is still shared. */
  predicate Untagged(item: SharedItem, source: MediaSource, found: seq<int>) {
    item.source == source && item.fileId !in found && item.state in {Seeding, Pending, Failed}
  }

  function Withdrawal(item: SharedItem, source: MediaSource, found: seq<int>): SharedItem {
    if Untagged(item, source, found) then item.(state := Unshared) else item
  }

  function Withdrawn(table: seq<SharedItem>, source: MediaSource, found: seq<int>): (r: seq<SharedItem>)
    ensures |r| == |table|
    ensures forall i :: 0 <= i < |r| ==> r[i] == Withdrawal(table[i], source, found)
  {
    seq(|table|, i requires 0 <= i < |table| => Withdrawal(table[i], source, found))
  }

  function UntaggedCount(table: seq<SharedItem>, source: MediaSource, found: seq<int>): nat {
    if table == [] then 0
    else
      UntaggedCount(table[..|table| - 1], source, found)
      + if Untagged(table[|table| - 1], source, found) then 1 else 0
  }

  /** The rows a withdrawal changes, by position. */
  ghost function Changed(table: seq<SharedItem>, source: MediaSource, found: seq<int>): set<int> {
    set i | 0 <= i < |table| && table[i].source == source && table[i].fileId !in found && table[i].state != Unshared
  }

  lemma ChangedOneMore(front: seq<SharedItem>, item: SharedItem, source: MediaSource, found: seq<int>)
    ensures Changed(front + [item], source, found)
            == if Untagged(item, source, found) then Changed(front, source, found) + {|front|}
               else Changed(front, source, found)
  {
    var all := front + [item];
    assert forall i :: 0 <= i < |front| ==> all[i] == front[i];
    assert all[|front|] == item;
  }

  /** The count is of the rows that change. */
  lemma {:induction false} CountIsOfChanges(table: seq<SharedItem>, source: MediaSource, found: seq<int>)
    ensures UntaggedCount(table, source, found) == |Changed(table, source, found)|
  {
    if table != [] {
      var front, item := table[..|table| - 1], table[|table| - 1];
      CountIsOfChanges(front, source, found);
      assert table == front + [item];
      ChangedOneMore(front, item, source, found);
    }
  }

  /** `withdraw_untagged`: marks what is no longer found, and counts it. */
  method WithdrawUntagged(table: seq<SharedItem>, source: MediaSource, found: seq<int>)
    returns (after: seq<SharedItem>, count: nat)
    ensures after == Withdrawn(table, source, found) && count == |Changed(table, source, found)|
  {
    after, count := [], 0;
    for i := 0 to |table|
      invariant after == Withdrawn(table[..i], source, found)
      invariant count == UntaggedCount(table[..i], source, found)
    {
      assert table[..i + 1][..i] == table[..i];
      if Untagged(table[i], source, found) {
        after := after + [table[i].(state := Unshared)];
        count := count + 1;
      } else {
        after := after + [table[i]];
      }
    }
    assert table[..|table|] == table;
    CountIsOfChanges(table, source, found);
  }

  /** Withdrawing touches nothing but the state, of nothing but what is still shared, of one source. */
  lemma WithdrawalIsScoped(table: seq<SharedItem>, source: MediaSource, found: seq<int>, i: nat)
    requires i < |table|
    ensures var was, now := table[i], Withdrawn(table, source, found)[i];
            && now == was.(state := now.state)
            && (now.state != was.state ==> now.state == Unshared)
            && (was.state != Unshared && was.source == source && was.fileId !in found <==> now.state != was.state)
            && (was.source != source ==> now == was)
  {
  }

  lemma StaysIffFound(table: seq<SharedItem>, found: seq<int>, item: SharedItem)
    requires item in table && InFeed(item)
    ensures item in Withdrawn(table, item.source, found) <==> item.fileId in found
  {
    var after := Withdrawn(table, item.source, found);
    var i :| 0 <= i < |table| && table[i] == item;
    assert after[i] == Withdrawal(item, item.source, found);
  }

  /** What a pass hands to the withdrawal: the ids of the files it walked. */
  function Found(tags: seq<Tag>, tagName: string, entities: seq<Entity>): seq<int> {
    match FindTag(tags, tagName)
    case None => []
    case Some(plain) => Ids(WalkFor(tags, tagName, entities, plain))
  }

  /** At the end of a pass the promise holds without exception: once what was not found has been
      withdrawn, an item is in a friend's feed if and only if its entity's tags share it with them. */
  lemma FeedAfterWithdrawal(
    tags: seq<Tag>, tagName: string, entities: seq<Entity>, rows: set<AudienceRow>,
    table: seq<SharedItem>, item: SharedItem, scope: PeerScope, limits: PeerLimits, peerName: string)
    requires LabelExists(tags, tagName) && DistinctFileIds(entities)
    requires item in table && InFeed(item) && ScopeAdmits(scope, item) && WithinCaps(limits, item)
    requires limits.friend == FriendName(peerName)
    ensures item in FeedFor(Withdrawn(table, item.source, Found(tags, tagName, entities)),
                            Published(rows, item.source, tags, tagName, entities), scope, limits)
            <==> FileSharedWith(tags, tagName, entities, item.fileId, FriendName(peerName))
  {
    FindTagFinds(tags, tagName);
    var plain := FindTag(tags, tagName).value;
    var audiences, found := Published(rows, item.source, tags, tagName, entities), Found(tags, tagName, entities);
    var after := Withdrawn(table, item.source, found);
    StaysIffFound(table, found, item);
    WalkedById(tags, tagName, entities, plain, item.fileId);
    if item.fileId in found {
      FeedFollowsTags(tags, tagName, entities, rows, after, item, scope, limits, peerName);
    } else {
      SeedingMembers(after, scope, item);
      NarrowedMembers(SeedingItems(after, scope), audiences, limits, item);
      FileSharedById(tags, tagName, entities, plain, item.fileId, FriendName(peerName));
      if NamedFor(tags, tagName, entities, plain, item.fileId, FriendName(peerName)) {
        NamedIsWalked(tags, tagName, entities, plain, item.fileId, FriendName(peerName));
      }
    }
  }

  // ----- what is served until then

  /** A library sharing with everyone under one tag and with one friend under another. */
  function TwoTags(tagName: string, friend: string): seq<Tag> {
    [Tag(1, tagName), Tag(2, tagName + ['-'] + Slug(friend))]
  }

  lemma TwoTagsNamed(tagName: string, friend: string)
    requires Slug(friend) != []
    ensures FirstNamed(TwoTags(tagName, friend), tagName, 0) && LabelExists(TwoTags(tagName, friend), tagName)
    ensures FindTag(TwoTags(tagName, friend), tagName) == Some(1)
  {
    var tags := TwoTags(tagName, friend);
    FindTagFinds(tags, tagName);
    assert tags[0] in tags;
  }

  lemma SharedWithFriend(tagName: string, friend: string, peerName: string, e: Entity)
    requires Slug(friend) != [] && FriendName(peerName) != FriendName(friend) && 1 !in e.tags
    ensures SharedWith(TwoTags(tagName, friend), tagName, e, FriendName(friend)) <==> 2 in e.tags
    ensures !SharedWith(TwoTags(tagName, friend), tagName, e, FriendName(peerName))
  {
    var tags := TwoTags(tagName, friend);
    TwoTagsNamed(tagName, friend);
    SlugTagNamesFriend(2, tagName, friend);
    assert tags[1] in tags;
    assert forall t :: t in tags && t.id != 1 ==> t == tags[1];
    SharedById(tags, tagName, 1, e, FriendName(friend));
    SharedById(tags, tagName, 1, e, FriendName(peerName));
  }

  lemma NothingLinked(e: Entity, file: int)
    requires e.payload == SeriesFiles(false, [], [file])
    ensures FilesIn(e) == []
  {
    assert [file][..0] == [];
    assert LinkedFiles([], [file]) == LinkedFiles([], []) + [];
  }

  /** Whatever `e` is, if it is not for everyone and its file is not walked, anyone is served. */
  lemma ServedWhileUnwalked(
    tagName: string, friend: string, peerName: string, e: Entity, item: SharedItem, limits: PeerLimits,
    rows: set<AudienceRow>)
    requires Slug(friend) != [] && FriendName(peerName) != FriendName(friend)
    requires 1 !in e.tags && NoDuplicates(FilesIn(e))
    requires InFeed(item) && WithinCaps(limits, item) && limits.friend == FriendName(peerName)
    requires item.fileId !in FilesIn(e) || e.tags == []
    ensures item in FeedFor([item], Published(rows, item.source, TwoTags(tagName, friend), tagName, [e]), All, limits)
  {
    var tags := TwoTags(tagName, friend);
    TwoTagsNamed(tagName, friend);
    FeedFollowsTags(tags, tagName, [e], rows, [item], item, All, limits, peerName);
  }

  /** A film shared with one friend, then untagged. */
  lemma UntaggedServedToAnyone(
    tagName: string, friend: string, peerName: string, item: SharedItem, limits: PeerLimits, rows: set<AudienceRow>)
    requires Slug(friend) != [] && FriendName(peerName) != FriendName(friend)
    requires InFeed(item) && WithinCaps(limits, item) && limits.friend == FriendName(peerName)
    ensures var tags, film := TwoTags(tagName, friend), Entity([], MovieFiles(Some(item.fileId), true, []));
            && !SharedWith(tags, tagName, film, FriendName(peerName))
            && item in FeedFor([item], Published(rows, item.source, tags, tagName, [film]), All, limits)
  {
    var film := Entity([], MovieFiles(Some(item.fileId), true, []));
    SharedWithFriend(tagName, friend, peerName, film);
    ServedWhileUnwalked(tagName, friend, peerName, film, item, limits, rows);
  }

  /** A film still shared with one friend, whose file was replaced by an upgrade with an id of its
      own: anyone is served the old file. */
  lemma UpgradedServedToAnyone(
    tagName: string, friend: string, peerName: string, newId: int, item: SharedItem, limits: PeerLimits,
    rows: set<AudienceRow>)
    requires Slug(friend) != [] && FriendName(peerName) != FriendName(friend) && newId != item.fileId
    requires InFeed(item) && WithinCaps(limits, item) && limits.friend == FriendName(peerName)
    ensures var tags, film := TwoTags(tagName, friend), Entity([2], MovieFiles(Some(newId), true, []));
            && SharedWith(tags, tagName, film, FriendName(friend))
            && !SharedWith(tags, tagName, film, FriendName(peerName))
            && item in FeedFor([item], Published(rows, item.source, tags, tagName, [film]), All, limits)
  {
    var film := Entity([2], MovieFiles(Some(newId), true, []));
    SharedWithFriend(tagName, friend, peerName, film);
    ServedWhileUnwalked(tagName, friend, peerName, film, item, limits, rows);
  }

  /** A series still shared with one friend, listing a file no episode links any more: the walk
      drops the file, and anyone is served it. */
  lemma UnlinkedServedToAnyone(
    tagName: string, friend: string, peerName: string, item: SharedItem, limits: PeerLimits, rows: set<AudienceRow>)
    requires Slug(friend) != [] && FriendName(peerName) != FriendName(friend)
    requires InFeed(item) && WithinCaps(limits, item) && limits.friend == FriendName(peerName)
    ensures var tags, show := TwoTags(tagName, friend), Entity([2], SeriesFiles(false, [], [item.fileId]));
            && SharedWith(tags, tagName, show, FriendName(friend))
            && !SharedWith(tags, tagName, show, FriendName(peerName))
            && item in FeedFor([item], Published(rows, item.source, tags, tagName, [show]), All, limits)
  {
    var show := Entity([2], SeriesFiles(false, [], [item.fileId]));
    SharedWithFriend(tagName, friend, peerName, show);
    NothingLinked(show, item.fileId);
    ServedWhileUnwalked(tagName, friend, peerName, show, item, limits, rows);
  }
}
