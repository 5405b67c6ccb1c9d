/**
 * What a friend's feed serves. The scope is compiled to a SQL filter with positional binds;
 * the caps and the audience narrow its rows afterwards. The same rule also exists in memory,
 * for the count shown next to a friend's name.
 */
module Feed {
  import opened Basics
  import opened Media

  datatype PeerScope = All | Tv | Movies | Music | Books

  datatype SharedItem = SharedItem(
    source: MediaSource,
    fileId: int,
    kind: MediaKind,
    size: U64,
    height: Option<nat>,
    state: ShareState,
    infoHash: Option<string>)

  /** The audience rows of one item: `None` is no rows, which reads as everyone. */
  type Audience = Option<set<string>>

  datatype PeerLimits = PeerLimits(maxSize: Option<I64>, maxHeight: Option<I64>, friend: Option<string>)

  // ----- the rule in memory

  predicate Allows(scope: PeerScope, source: MediaSource) {
    match scope
    case All => true
    case Tv => source == Sonarr
    case Movies => source == Radarr
    case Music => source == Lidarr
    case Books => source == Readarr
  }

  /** The kind an item from a kind-scoped source must have under this scope. */
  function DirectoryKind(scope: PeerScope): Option<string> {
    match scope
    case All => None
    case Tv => Some("episode")
    case Movies => Some("movie")
    case Music => Some("track")
    case Books => Some("book")
  }

  predicate ScopeAdmits(scope: PeerScope, item: SharedItem) {
    Allows(scope, item.source)
    || (item.source in KIND_SCOPED && DirectoryKind(scope) == Some(KindTag(item.kind)))
  }

  predicate WithinCaps(limits: PeerLimits, item: SharedItem) {
    && (limits.maxSize.None? || (item.size <= I64_MAX && item.size <= limits.maxSize.value))
    && (limits.maxHeight.None? || item.height.None? || item.height.value <= limits.maxHeight.value)
  }

  predicate ForFriend(friend: Option<string>, audience: Audience) {
    audience.None? || (friend.Some? && friend.value in audience.value)
  }

  predicate LimitsAdmit(limits: PeerLimits, item: SharedItem, audience: Audience) {
    ForFriend(limits.friend, audience) && WithinCaps(limits, item)
  }

  /** The application whose items are of one kind. */
  function AppOf(kind: MediaKind): MediaSource {
    match kind
    case Episode => Sonarr
    case Movie => Radarr
    case Track => Lidarr
    case Book => Readarr
  }

  /** The rule, scope by scope: everyone sees everything under `All`; a narrow scope shows one kind,
      from that kind's application or from a directory declared to hold it, and Whisparr never. */
  lemma ScopeShows(scope: PeerScope, item: SharedItem)
    ensures ScopeAdmits(scope, item)
            <==> match scope
                 case All => true
                 case Tv => item.source == Sonarr || (item.source == Directory && item.kind == Episode)
                 case Movies => item.source == Radarr || (item.source == Directory && item.kind == Movie)
                 case Music => item.source == Lidarr || (item.source == Directory && item.kind == Track)
                 case Books => item.source == Readarr || (item.source == Directory && item.kind == Book)
  {
    NamesAreDistinct();
    assert item.source in KIND_SCOPED <==> item.source == Directory;
    assert KindTag(Episode) == "episode" && KindTag(Movie) == "movie" && KindTag(Track) == "track"
           && KindTag(Book) == "book";
  }

  /** A directory item is visible exactly where an item of that kind's application is, and Whisparr
      is for `All` alone. */
  lemma DirectoryLikeItsApp(scope: PeerScope, fromDirectory: SharedItem, fromApp: SharedItem)
    requires fromDirectory.source == Directory && fromApp.source == AppOf(fromDirectory.kind)
    ensures ScopeAdmits(scope, fromDirectory) <==> ScopeAdmits(scope, fromApp)
    ensures ScopeAdmits(scope, fromApp.(source := Whisparr)) <==> scope == All
  {
    ScopeShows(scope, fromDirectory);
    ScopeShows(scope, fromApp);
    ScopeShows(scope, fromApp.(source := Whisparr));
  }

  // ----- the rule in SQL

  /** The `WHERE` clause. `slots` counts the placeholders of an `IN` list. */
  datatype Clause =
    | StateIs
    | HashNotNull
    | SourceIn(slots: nat)
    | KindIs
    | And(left: Clause, right: Clause)
    | Or(left: Clause, right: Clause)

  /** The columns a clause looks at, as stored. */
  datatype StoredRow = StoredRow(state: string, infoHash: Option<string>, source: string, kind: string)

  function Stored(item: SharedItem): StoredRow {
    StoredRow(StateName(item.state), item.infoHash, SourceName(item.source), KindTag(item.kind))
  }

  function Placeholders(c: Clause): nat {
    match c
    case StateIs => 1
    case HashNotNull => 0
    case SourceIn(slots) => slots
    case KindIs => 1
    case And(l, r) => Placeholders(l) + Placeholders(r)
    case Or(l, r) => Placeholders(l) + Placeholders(r)
  }

  /** Evaluation with positional binds: each `?` in the order of the text takes the next value. */
  predicate Holds(c: Clause, row: StoredRow, binds: seq<string>)
    requires |binds| >= Placeholders(c)
  {
    match c
    case StateIs => row.state == binds[0]
    case HashNotNull => row.infoHash.Some?
    case SourceIn(slots) => row.source in binds[..slots]
    case KindIs => row.kind == binds[0]
    case And(l, r) => Holds(l, row, binds) && Holds(r, row, binds[Placeholders(l)..])
    case Or(l, r) => Holds(l, row, binds) || Holds(r, row, binds[Placeholders(l)..])
  }

  function AllowedSources(scope: PeerScope, sources: seq<MediaSource>): (r: seq<string>)
    ensures forall n :: n in r <==> exists s :: s in sources && Allows(scope, s) && SourceName(s) == n
  {
    if sources == [] then []
    else
      (if Allows(scope, sources[0]) then [SourceName(sources[0])] else [])
      + AllowedSources(scope, sources[1..])
  }

  function Names(sources: seq<MediaSource>): (r: seq<string>)
    ensures |r| == |sources|
    ensures forall i :: 0 <= i < |r| ==> r[i] == SourceName(sources[i])
  {
    seq(|sources|, i requires 0 <= i < |sources| => SourceName(sources[i]))
  }

  /** The part of the clause about what the scope lets through, and its values. */
  function Visible(allowed: seq<string>, kinds: seq<string>, kind: Option<string>): (Clause, seq<string>) {
    var bySource := SourceIn(|allowed|);
    if kind.Some? then (Or(bySource, And(SourceIn(|kinds|), KindIs)), allowed + (kinds + [kind.value]))
    else (bySource, allowed)
  }

  /** `ScopeFilter::new`: the clause and the values for its placeholders. */
  function ScopeFilter(scope: PeerScope): (Clause, seq<string>) {
    var (visible, values) := Visible(AllowedSources(scope, ALL_SOURCES), Names(KIND_SCOPED), DirectoryKind(scope));
    (And(And(StateIs, HashNotNull), visible), [StateName(Seeding)] + values)
  }

  /** Every placeholder has its value and no value is left over. */
  lemma BindsMatchPlaceholders(scope: PeerScope)
    ensures Placeholders(ScopeFilter(scope).0) == |ScopeFilter(scope).1|
  {
    var (visible, values) := Visible(AllowedSources(scope, ALL_SOURCES), Names(KIND_SCOPED), DirectoryKind(scope));
    VisibleBinds(AllowedSources(scope, ALL_SOURCES), Names(KIND_SCOPED), DirectoryKind(scope));
    ClauseBinds(visible, StateName(Seeding), values);
  }

  lemma VisibleBinds(allowed: seq<string>, kinds: seq<string>, kind: Option<string>)
    ensures Placeholders(Visible(allowed, kinds, kind).0) == |Visible(allowed, kinds, kind).1|
  {
    assert Placeholders(And(SourceIn(|kinds|), KindIs)) == |kinds| + 1;
  }

  lemma ClauseBinds(visible: Clause, state: string, values: seq<string>)
    requires Placeholders(visible) == |values|
    ensures Placeholders(And(And(StateIs, HashNotNull), visible)) == |[state] + values|
  {
    assert Placeholders(And(StateIs, HashNotNull)) == 1;
  }

  lemma AllSourcesListed(s: MediaSource)
    ensures s in ALL_SOURCES
  {
    match s
    case Sonarr => assert ALL_SOURCES[0] == s;
    case Radarr => assert ALL_SOURCES[1] == s;
    case Lidarr => assert ALL_SOURCES[2] == s;
    case Readarr => assert ALL_SOURCES[3] == s;
    case Whisparr => assert ALL_SOURCES[4] == s;
    case Directory => assert ALL_SOURCES[5] == s;
  }

  predicate Selected(scope: PeerScope, item: SharedItem)
  {
    BindsMatchPlaceholders(scope);
    Holds(ScopeFilter(scope).0, Stored(item), ScopeFilter(scope).1)
  }

  predicate InFeed(item: SharedItem) { item.state == Seeding && item.infoHash.Some? }

  lemma AllowedByName(scope: PeerScope, source: MediaSource)
    ensures SourceName(source) in AllowedSources(scope, ALL_SOURCES) <==> Allows(scope, source)
  {
    NamesAreDistinct();
    AllSourcesListed(source);
  }

  lemma KindScopedByName(source: MediaSource)
    ensures SourceName(source) in Names(KIND_SCOPED) <==> source in KIND_SCOPED
  {
    NamesAreDistinct();
    assert Names(KIND_SCOPED)[0] == SourceName(Directory);
    assert KIND_SCOPED[0] == Directory;
  }

  /** Both forms of clause start by asking for a seeding row with a hash. */
  lemma ClauseHead(row: StoredRow, visible: Clause, state: string, rest: seq<string>)
    requires |rest| >= Placeholders(visible)
    ensures Placeholders(And(And(StateIs, HashNotNull), visible)) == 1 + Placeholders(visible)
    ensures Holds(And(And(StateIs, HashNotNull), visible), row, [state] + rest)
            <==> row.state == state && row.infoHash.Some? && Holds(visible, row, rest)
  {
    var head := And(StateIs, HashNotNull);
    assert Placeholders(head) == 1;
    assert ([state] + rest)[1..] == rest;
    assert Holds(head, row, [state] + rest) <==> row.state == state && row.infoHash.Some?;
  }

  lemma SourceArm(row: StoredRow, allowed: seq<string>)
    ensures Holds(SourceIn(|allowed|), row, allowed) <==> row.source in allowed
  {
    assert allowed[..|allowed|] == allowed;
  }

  lemma KindArm(row: StoredRow, kinds: seq<string>, kind: string)
    ensures Placeholders(And(SourceIn(|kinds|), KindIs)) == |kinds| + 1
    ensures Holds(And(SourceIn(|kinds|), KindIs), row, kinds + [kind])
            <==> row.source in kinds && row.kind == kind
  {
    var binds := kinds + [kind];
    assert binds[..|kinds|] == kinds && binds[|kinds|..] == [kind];
  }

  lemma VisibleMeans(row: StoredRow, allowed: seq<string>, kinds: seq<string>, kind: Option<string>)
    ensures var (visible, values) := Visible(allowed, kinds, kind);
            && Placeholders(visible) == |values|
            && (Holds(visible, row, values)
                <==> row.source in allowed || (row.source in kinds && kind == Some(row.kind)))
  {
    VisibleBinds(allowed, kinds, kind);
    if kind.Some? {
      var binds := allowed + (kinds + [kind.value]);
      assert binds[..|allowed|] == allowed && binds[|allowed|..] == kinds + [kind.value];
      KindArm(row, kinds, kind.value);
    } else {
      SourceArm(row, allowed);
    }
  }

  /** For every scope, the compiled clause with its binds selects exactly the seeding rows with a
      hash that the in-memory rule admits. */
  lemma FilterMeansAdmits(scope: PeerScope, item: SharedItem)
    ensures Selected(scope, item) <==> InFeed(item) && ScopeAdmits(scope, item)
  {
    var allowed, kinds, kind := AllowedSources(scope, ALL_SOURCES), Names(KIND_SCOPED), DirectoryKind(scope);
    var (visible, values) := Visible(allowed, kinds, kind);
    VisibleMeans(Stored(item), allowed, kinds, kind);
    ClauseHead(Stored(item), visible, StateName(Seeding), values);
    NamesAreDistinct();
    AllowedByName(scope, item.source);
    KindScopedByName(item.source);
  }

  // ----- feeds and summaries

  type Audiences = map<(MediaSource, int), set<string>>

  function AudienceOf(audiences: Audiences, item: SharedItem): Audience {
    if (item.source, item.fileId) in audiences then Some(audiences[(item.source, item.fileId)]) else None
  }

  /** `seeding_items`, over rows already in feed order. */
  function SeedingItems(table: seq<SharedItem>, scope: PeerScope): seq<SharedItem> {
    if table == [] then [] else SelectedOf(table[0], scope) + SeedingItems(table[1..], scope)
  }

  function SelectedOf(item: SharedItem, scope: PeerScope): seq<SharedItem> {
    if Selected(scope, item) then [item] else []
  }

  /** `retain` by a friend's limits. */
  function Narrowed(items: seq<SharedItem>, audiences: Audiences, limits: PeerLimits): seq<SharedItem> {
    if items == [] then []
    else
      (if LimitsAdmit(limits, items[0], AudienceOf(audiences, items[0])) then [items[0]] else [])
      + Narrowed(items[1..], audiences, limits)
  }

  /** `seeding_items_for`: what a friend's feed publishes. */
  function FeedFor(table: seq<SharedItem>, audiences: Audiences, scope: PeerScope, limits: PeerLimits)
    : seq<SharedItem>
  {
    Narrowed(SeedingItems(table, scope), audiences, limits)
  }

  lemma {:induction false} SeedingMembers(table: seq<SharedItem>, scope: PeerScope, item: SharedItem)
    ensures item in SeedingItems(table, scope) <==> item in table && InFeed(item) && ScopeAdmits(scope, item)
  {
    if table != [] {
      SeedingMembers(table[1..], scope, item);
      FilterMeansAdmits(scope, table[0]);
      assert item in table <==> item == table[0] || item in table[1..];
    }
  }

  lemma {:induction false} NarrowedMembers(
    items: seq<SharedItem>, audiences: Audiences, limits: PeerLimits, item: SharedItem)
    ensures item in Narrowed(items, audiences, limits)
            <==> item in items && LimitsAdmit(limits, item, AudienceOf(audiences, item))
  {
    if items != [] {
      NarrowedMembers(items[1..], audiences, limits, item);
      assert item in items <==> item == items[0] || item in items[1..];
    }
  }

  lemma LimitsInFull(limits: PeerLimits, audiences: Audiences, item: SharedItem)
    ensures LimitsAdmit(limits, item, AudienceOf(audiences, item))
            <==> && (limits.maxSize.Some? ==> item.size <= limits.maxSize.value)
                 && (limits.maxHeight.Some? && item.height.Some? ==> item.height.value <= limits.maxHeight.value)
                 && ((item.source, item.fileId) in audiences ==>
                       limits.friend.Some? && limits.friend.value in audiences[(item.source, item.fileId)])
  {
  }

  /** What a friend's feed holds, all of it: stored, seeding, with a hash, in scope, no larger and no
      taller than the caps where the height is known, and for everyone or for that friend by name. */
  lemma FeedMembers(
    table: seq<SharedItem>, audiences: Audiences, scope: PeerScope, limits: PeerLimits, item: SharedItem)
    ensures item in FeedFor(table, audiences, scope, limits)
            <==> && item in table && item.state == Seeding && item.infoHash.Some? && ScopeAdmits(scope, item)
                 && (limits.maxSize.Some? ==> item.size <= limits.maxSize.value)
                 && (limits.maxHeight.Some? && item.height.Some? ==> item.height.value <= limits.maxHeight.value)
                 && ((item.source, item.fileId) in audiences ==>
                       limits.friend.Some? && limits.friend.value in audiences[(item.source, item.fileId)])
  {
    SeedingMembers(table, scope, item);
    NarrowedMembers(SeedingItems(table, scope), audiences, limits, item);
    LimitsInFull(limits, audiences, item);
  }

  lemma {:induction false} SeedingInOrder(table: seq<SharedItem>, item: SharedItem, scope: PeerScope)
    ensures SeedingItems(table + [item], scope) == SeedingItems(table, scope) + SelectedOf(item, scope)
  {
    var all := table + [item];
    if table == [] {
      assert all[1..] == [];
      assert SeedingItems([], scope) == [];
    } else {
      assert all[1..] == table[1..] + [item] && all[0] == table[0];
      SeedingInOrder(table[1..], item, scope);
      JoinsRegroup(SelectedOf(table[0], scope), SeedingItems(table[1..], scope), SelectedOf(item, scope));
    }
  }

  lemma {:induction false} NarrowedInOrder(
    items: seq<SharedItem>, more: seq<SharedItem>, audiences: Audiences, limits: PeerLimits)
    ensures Narrowed(items + more, audiences, limits)
            == Narrowed(items, audiences, limits) + Narrowed(more, audiences, limits)
  {
    if items == [] {
      assert items + more == more;
    } else {
      assert (items + more)[1..] == items[1..] + more && (items + more)[0] == items[0];
      NarrowedInOrder(items[1..], more, audiences, limits);
    }
  }

  /** A feed keeps the order of the rows, and each row's copies. */
  lemma FeedInOrder(
    table: seq<SharedItem>, item: SharedItem, audiences: Audiences, scope: PeerScope, limits: PeerLimits)
    ensures FeedFor(table + [item], audiences, scope, limits)
            == FeedFor(table, audiences, scope, limits) + FeedFor([item], audiences, scope, limits)
  {
    SeedingInOrder(table, item, scope);
    SeedingInOrder([], item, scope);
    assert [] + [item] == [item];
    assert SeedingItems([item], scope) == SelectedOf(item, scope);
    NarrowedInOrder(SeedingItems(table, scope), SelectedOf(item, scope), audiences, limits);
  }

  datatype Summary = Summary(count: nat, size: int)

  /** The exact sum of sizes. */
  function TotalSize(items: seq<SharedItem>): nat {
    if items == [] then 0 else TotalSize(items[..|items| - 1]) + items[|items| - 1].size
  }

  /** Count and saturated total of a list. */
  function SummaryOf(items: seq<SharedItem>): Summary {
    Summary(|items|, Min(TotalSize(items), 0x7FFF_FFFF_FFFF_FFFF))
  }

  datatype Peer = Peer(scope: PeerScope, limits: PeerLimits)

  predicate Counted(peer: Peer, audiences: Audiences, item: SharedItem) {
    ScopeAdmits(peer.scope, item) && LimitsAdmit(peer.limits, item, AudienceOf(audiences, item))
  }

  function CountedOf(items: seq<SharedItem>, audiences: Audiences, peer: Peer): seq<SharedItem> {
    if items == [] then []
    else
      CountedOf(items[..|items| - 1], audiences, peer)
      + if Counted(peer, audiences, items[|items| - 1]) then [items[|items| - 1]] else []
  }

  lemma {:induction false} CountedAppend(
    a: seq<SharedItem>, b: seq<SharedItem>, audiences: Audiences, peer: Peer)
    ensures CountedOf(a + b, audiences, peer) == CountedOf(a, audiences, peer) + CountedOf(b, audiences, peer)
  {
    if b == [] {
      assert a + b == a;
    } else {
      var front := b[..|b| - 1];
      CountedAppend(a, front, audiences, peer);
      assert (a + b)[..|a + b| - 1] == a + front;
    }
  }

  lemma CountedOne(item: SharedItem, audiences: Audiences, peer: Peer)
    ensures CountedOf([item], audiences, peer) == if Counted(peer, audiences, item) then [item] else []
  {
    assert [item][..0] == [];
    assert CountedOf([], audiences, peer) == [];
  }

  /** What the query selects, said by the in-memory rule. */
  function Admitted(table: seq<SharedItem>, scope: PeerScope): seq<SharedItem> {
    if table == [] then []
    else
      (if InFeed(table[0]) && ScopeAdmits(scope, table[0]) then [table[0]] else [])
      + Admitted(table[1..], scope)
  }

  lemma {:induction false} QueryIsAdmitted(table: seq<SharedItem>, scope: PeerScope)
    ensures SeedingItems(table, scope) == Admitted(table, scope)
  {
    if table != [] {
      QueryIsAdmitted(table[1..], scope);
      FilterMeansAdmits(scope, table[0]);
    }
  }

  lemma NarrowedCons(item: SharedItem, items: seq<SharedItem>, audiences: Audiences, limits: PeerLimits)
    ensures Narrowed([item] + items, audiences, limits)
            == (if LimitsAdmit(limits, item, AudienceOf(audiences, item)) then [item] else [])
               + Narrowed(items, audiences, limits)
  {
    assert ([item] + items)[1..] == items;
  }

  lemma {:induction false} CountedIsNarrowed(table: seq<SharedItem>, audiences: Audiences, peer: Peer)
    ensures CountedOf(Admitted(table, All), audiences, peer)
            == Narrowed(Admitted(table, peer.scope), audiences, peer.limits)
  {
    if table != [] {
      var item, more := table[0], table[1..];
      var all, own := Admitted(more, All), Admitted(more, peer.scope);
      CountedIsNarrowed(more, audiences, peer);
      if InFeed(item) {
        assert Admitted(table, All) == [item] + all;
        CountedAppend([item], all, audiences, peer);
        CountedOne(item, audiences, peer);
        if ScopeAdmits(peer.scope, item) {
          assert Admitted(table, peer.scope) == [item] + own;
          NarrowedCons(item, own, audiences, peer.limits);
        } else {
          assert Admitted(table, peer.scope) == own;
        }
      } else {
        assert Admitted(table, All) == all && Admitted(table, peer.scope) == own;
      }
    }
  }

  /** Filtering everything by the in-memory rule lists the same items, in the same order, as the
      friend's own feed query. */
  lemma CountedIsTheFeed(table: seq<SharedItem>, audiences: Audiences, peer: Peer)
    ensures CountedOf(SeedingItems(table, All), audiences, peer)
            == FeedFor(table, audiences, peer.scope, peer.limits)
  {
    QueryIsAdmitted(table, All);
    QueryIsAdmitted(table, peer.scope);
    CountedIsNarrowed(table, audiences, peer);
  }

  ghost predicate SummarizesFeed(
    s: Summary, table: seq<SharedItem>, audiences: Audiences, peer: Peer)
  {
    s == SummaryOf(FeedFor(table, audiences, peer.scope, peer.limits))
  }

  /** The summary next to each friend's name is the count and saturated size of what their feed
      serves. */
  method SeedingSummaries(table: seq<SharedItem>, audiences: Audiences, peers: seq<Peer>)
    returns (r: seq<Summary>)
    ensures |r| == |peers|
    ensures forall i :: 0 <= i < |peers| ==> SummarizesFeed(r[i], table, audiences, peers[i])
  {
    var items := SeedingItems(table, All);
    r := SummarizeEach(items, audiences, peers);
    forall i | 0 <= i < |peers| ensures SummarizesFeed(r[i], table, audiences, peers[i]) {
      CountedIsTheFeed(table, audiences, peers[i]);
    }
  }

  method SummarizeEach(items: seq<SharedItem>, audiences: Audiences, peers: seq<Peer>)
    returns (r: seq<Summary>)
    ensures |r| == |peers|
    ensures forall i :: 0 <= i < |peers| ==> r[i] == SummaryOf(CountedOf(items, audiences, peers[i]))
  {
    r := [];
    for p := 0 to |peers|
      invariant |r| == p
      invariant forall i :: 0 <= i < p ==> r[i] == SummaryOf(CountedOf(items, audiences, peers[i]))
    {
      var summary := SummarizeFor(items, audiences, peers[p]);
      r := r + [summary];
    }
  }

  method SummarizeFor(items: seq<SharedItem>, audiences: Audiences, peer: Peer) returns (r: Summary)
    ensures r == SummaryOf(CountedOf(items, audiences, peer))
  {
    var count, size := 0, 0;
    for i := 0 to |items|
      invariant Summary(count, size) == SummaryOf(CountedOf(items[..i], audiences, peer))
    {
      assert items[..i + 1][..i] == items[..i];
      ghost var before, after := CountedOf(items[..i], audiences, peer), CountedOf(items[..i + 1], audiences, peer);
      if ScopeAdmits(peer.scope, items[i]) && LimitsAdmit(peer.limits, items[i], AudienceOf(audiences, items[i])) {
        assert after == before + [items[i]] && after[..|after| - 1] == before;
        count := count + 1;
        size := Saturate(size + Min(items[i].size, I64_MAX));
      } else {
        assert after == before;
      }
    }
    assert items[..|items|] == items;
    r := Summary(count, size);
  }
}
