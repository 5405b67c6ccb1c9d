/**
 * The `shared_items` table. Discovery re-upserts every item on every pass, knowing only the
 * file; the columns that describe its torrent are written by other updates, and must come
 * through any number of rediscoveries untouched.
 */
module SharedItems {
  import opened Basics
  import opened Media

  type Key = (MediaSource, int)

  /** The columns that only describe the file. */
  datatype Description = Description(
    sourceId: int,
    spec: string,
    releaseTitle: string,
    arrPath: string,
    size: I64,
    ids: string)

  datatype Row = Row(
    description: Description,
    infoHash: Option<string>,
    infoHashV2: Option<string>,
    tokenFp: Option<string>,
    createdBySharerr: bool,
    isPrivate: bool,
    media: Option<string>,
    ratio: Option<real>,
    ratioLimit: Option<real>,
    state: ShareState,
    lastError: Option<string>,
    createdAt: Epoch,
    updatedAt: Epoch)

  /** What a caller hands to `upsert`. */
  datatype Item = Item(
    description: Description,
    infoHash: Option<string>,
    tokenFp: Option<string>,
    createdBySharerr: bool,
    isPrivate: bool,
    media: Option<string>,
    ratio: Option<real>,
    ratioLimit: Option<real>,
    state: ShareState,
    lastError: Option<string>)

  type Table = map<Key, Row>

  datatype Op =
    | Upsert(key: Key, item: Item, now: Epoch)
    | SetState(key: Key, state: ShareState, lastError: Option<string>, now: Epoch)
    | SetSeeding(key: Key, infoHash: string, tokenFp: Option<string>, created: bool,
                 known: Option<bool>, now: Epoch)
    | ConfirmSeeding(key: Key, tokenFp: Option<string>, ratio: Option<real>,
                     ratioLimit: Option<real>, now: Epoch)
    | SetRatio(key: Key, ratio: Option<real>, ratioLimit: Option<real>, now: Epoch)
    | SetInfoHashV2(key: Key, infoHashV2: string, now: Epoch)
    | ResetForRebuild(key: Key, now: Epoch)

  /** SQL `COALESCE`. */
  function Coalesce<T>(a: Option<T>, b: Option<T>): Option<T> {
    if a.Some? then a else b
  }

  function Inserted(item: Item, now: Epoch): Row {
    Row(item.description, item.infoHash, None, item.tokenFp, item.createdBySharerr, item.isPrivate,
        item.media, item.ratio, item.ratioLimit, item.state, item.lastError, now, now)
  }

  /** `ON CONFLICT DO UPDATE`: a torrent's columns are only ever filled in, never blanked, and
      ownership and privacy are not assigned at all. */
  function Merged(row: Row, item: Item, now: Epoch): Row {
    row.(description := item.description,
         infoHash := Coalesce(item.infoHash, row.infoHash),
         tokenFp := Coalesce(item.tokenFp, row.tokenFp),
         media := Coalesce(item.media, row.media),
         ratio := Coalesce(item.ratio, row.ratio),
         ratioLimit := Coalesce(item.ratioLimit, row.ratioLimit),
         state := item.state,
         lastError := item.lastError,
         updatedAt := now)
  }

  /** One `UPDATE` of an existing row. */
  function Updated(row: Row, op: Op): Row {
    match op
    case Upsert(_, item, now) => Merged(row, item, now)
    case SetState(_, state, lastError, now) =>
      row.(state := state, lastError := lastError, updatedAt := now)
    case SetSeeding(_, infoHash, tokenFp, created, known, now) =>
      row.(infoHash := Some(infoHash), infoHashV2 := None, tokenFp := tokenFp,
           createdBySharerr := created,
           isPrivate := if known.Some? then known.value else row.isPrivate,
           state := Seeding, lastError := None, updatedAt := now)
    case ConfirmSeeding(_, tokenFp, ratio, ratioLimit, now) =>
      row.(tokenFp := tokenFp, ratio := ratio, ratioLimit := ratioLimit, updatedAt := now)
    case SetRatio(_, ratio, ratioLimit, now) =>
      row.(ratio := ratio, ratioLimit := ratioLimit, updatedAt := now)
    case SetInfoHashV2(_, infoHashV2, now) =>
      row.(infoHashV2 := Some(infoHashV2), updatedAt := now)
    case ResetForRebuild(_, now) =>
      row.(infoHash := None, infoHashV2 := None, tokenFp := None, createdBySharerr := false,
           isPrivate := true, state := Pending, lastError := None, updatedAt := now)
  }

  function Apply(t: Table, op: Op): Table {
    if op.key in t then t[op.key := Updated(t[op.key], op)]
    else if op.Upsert? then t[op.key := Inserted(op.item, op.now)]
    else t
  }

  class Store {
    var items: Table

    constructor ()
      ensures items == map[]
    {
      items := map[];
    }

    method Upsert(key: Key, item: Item, now: Epoch)
      modifies this
      ensures items == Apply(old(items), Op.Upsert(key, item, now))
    {
      if key !in items {
        items := items[key := Row(item.description, item.infoHash, None, item.tokenFp,
                                  item.createdBySharerr, item.isPrivate, item.media, item.ratio,
                                  item.ratioLimit, item.state, item.lastError, now, now)];
        return;
      }
      var row := items[key];
      row := row.(description := item.description);
      if item.infoHash.Some? { row := row.(infoHash := item.infoHash); }
      if item.tokenFp.Some? { row := row.(tokenFp := item.tokenFp); }
      if item.media.Some? { row := row.(media := item.media); }
      if item.ratio.Some? { row := row.(ratio := item.ratio); }
      if item.ratioLimit.Some? { row := row.(ratioLimit := item.ratioLimit); }
      row := row.(state := item.state, lastError := item.lastError, updatedAt := now);
      items := items[key := row];
    }

    method SetState(key: Key, state: ShareState, lastError: Option<string>, now: Epoch)
      modifies this
      ensures items == Apply(old(items), Op.SetState(key, state, lastError, now))
    {
      if key in items {
        items := items[key := items[key].(state := state, lastError := lastError, updatedAt := now)];
      }
    }

    method SetSeeding(key: Key, infoHash: string, tokenFp: Option<string>, created: bool,
                      known: Option<bool>, now: Epoch)
      modifies this
      ensures items == Apply(old(items), Op.SetSeeding(key, infoHash, tokenFp, created, known, now))
    {
      if key in items {
        var row := items[key];
        row := row.(infoHash := Some(infoHash), infoHashV2 := None, tokenFp := tokenFp,
                    createdBySharerr := created);
        if known.Some? {
          row := row.(isPrivate := known.value);
        }
        items := items[key := row.(state := Seeding, lastError := None, updatedAt := now)];
      }
    }

    method ConfirmSeeding(key: Key, tokenFp: Option<string>, ratio: Option<real>,
                          ratioLimit: Option<real>, now: Epoch)
      modifies this
      ensures items == Apply(old(items), Op.ConfirmSeeding(key, tokenFp, ratio, ratioLimit, now))
    {
      if key in items {
        items := items[key := items[key].(tokenFp := tokenFp, ratio := ratio,
                                          ratioLimit := ratioLimit, updatedAt := now)];
      }
    }

    method SetRatio(key: Key, ratio: Option<real>, ratioLimit: Option<real>, now: Epoch)
      modifies this
      ensures items == Apply(old(items), Op.SetRatio(key, ratio, ratioLimit, now))
    {
      if key in items {
        items := items[key := items[key].(ratio := ratio, ratioLimit := ratioLimit, updatedAt := now)];
      }
    }

    method SetInfoHashV2(key: Key, infoHashV2: string, now: Epoch)
      modifies this
      ensures items == Apply(old(items), Op.SetInfoHashV2(key, infoHashV2, now))
    {
      if key in items {
        items := items[key := items[key].(infoHashV2 := Some(infoHashV2), updatedAt := now)];
      }
    }

    method ResetForRebuild(key: Key, now: Epoch)
      modifies this
      ensures items == Apply(old(items), Op.ResetForRebuild(key, now))
    {
      if key in items {
        var row := items[key].(infoHash := None, infoHashV2 := None, tokenFp := None,
                               createdBySharerr := false, isPrivate := true);
        items := items[key := row.(state := Pending, lastError := None, updatedAt := now)];
      }
    }
  }

  // ----- what each update leaves

  /** An update touches its own row alone, and only an upsert can make one. */
  lemma OneRowAtATime(t: Table, op: Op, key: Key)
    ensures key != op.key ==> (key in Apply(t, op) <==> key in t) && (key in t ==> Apply(t, op)[key] == t[key])
    ensures op.key in Apply(t, op) <==> op.key in t || op.Upsert?
  {
  }

  /** A first discovery stores what it was given, both times the present, and no v2 hash. */
  lemma FirstUpsert(t: Table, key: Key, item: Item, now: Epoch)
    requires key !in t
    ensures var row := Apply(t, Upsert(key, item, now))[key];
            && row.description == item.description && row.infoHash == item.infoHash && row.infoHashV2 == None
            && row.tokenFp == item.tokenFp && row.createdBySharerr == item.createdBySharerr
            && row.isPrivate == item.isPrivate && row.media == item.media && row.ratio == item.ratio
            && row.ratioLimit == item.ratioLimit && row.state == item.state && row.lastError == item.lastError
            && row.createdAt == now && row.updatedAt == now
  {
  }

  /** A later upsert describes the file afresh, fills in whatever torrent column it knows and blanks
      none, and never touches ownership, privacy, the v2 hash or `created_at`. */
  lemma LaterUpsert(t: Table, key: Key, item: Item, now: Epoch)
    requires key in t
    ensures var was, row := t[key], Apply(t, Upsert(key, item, now))[key];
            && row.description == item.description && row.state == item.state && row.lastError == item.lastError
            && row.infoHash == (if item.infoHash == None then was.infoHash else item.infoHash)
            && row.tokenFp == (if item.tokenFp == None then was.tokenFp else item.tokenFp)
            && row.media == (if item.media == None then was.media else item.media)
            && row.ratio == (if item.ratio == None then was.ratio else item.ratio)
            && row.ratioLimit == (if item.ratioLimit == None then was.ratioLimit else item.ratioLimit)
            && (row.infoHashV2, row.createdBySharerr, row.isPrivate, row.createdAt)
               == (was.infoHashV2, was.createdBySharerr, was.isPrivate, was.createdAt)
            && row.updatedAt == now
  {
  }

  /** A share that landed: the hash, fingerprint and ownership given, seeding with no error and no v2
      hash, privacy only where it is known, and the rest of the row as it was. */
  lemma SeedingLeaves(t: Table, key: Key, infoHash: string, tokenFp: Option<string>, created: bool,
                      known: Option<bool>, now: Epoch)
    requires key in t
    ensures var was, row := t[key], Apply(t, SetSeeding(key, infoHash, tokenFp, created, known, now))[key];
            && row.infoHash == Some(infoHash) && row.infoHashV2 == None && row.tokenFp == tokenFp
            && row.createdBySharerr == created && row.state == Seeding && row.lastError == None
            && row.isPrivate == (match known case Some(b) => b case None => was.isPrivate)
            && (row.description, row.media, row.ratio, row.ratioLimit, row.createdAt)
               == (was.description, was.media, was.ratio, was.ratioLimit, was.createdAt)
            && row.updatedAt == now
  {
  }

  /** A confirmation and a ratio report write just the columns they are named for, blanks included,
      and agree on the ratios. */
  lemma ReportsLeave(t: Table, key: Key, tokenFp: Option<string>, ratio: Option<real>, ratioLimit: Option<real>,
                     now: Epoch)
    requires key in t
    ensures var was := t[key];
            var confirmed := Apply(t, ConfirmSeeding(key, tokenFp, ratio, ratioLimit, now))[key];
            var reported := Apply(t, SetRatio(key, ratio, ratioLimit, now))[key];
            && confirmed.ratio == reported.ratio == ratio
            && confirmed.ratioLimit == reported.ratioLimit == ratioLimit
            && confirmed.tokenFp == tokenFp && reported.tokenFp == was.tokenFp
            && confirmed == reported.(tokenFp := tokenFp)
            && (reported.description, reported.infoHash, reported.infoHashV2, reported.createdBySharerr)
               == (was.description, was.infoHash, was.infoHashV2, was.createdBySharerr)
            && (reported.isPrivate, reported.media, reported.state, reported.lastError, reported.createdAt)
               == (was.isPrivate, was.media, was.state, was.lastError, was.createdAt)
            && reported.updatedAt == now
  {
  }

  /** A state change and a v2 hash write just their own columns. */
  lemma StateAndV2Leave(t: Table, key: Key, state: ShareState, lastError: Option<string>, v2: string, now: Epoch)
    requires key in t
    ensures var was := t[key];
            var moved, hybrid := Apply(t, SetState(key, state, lastError, now))[key], Apply(t, SetInfoHashV2(key, v2, now))[key];
            && moved.state == state && moved.lastError == lastError && moved.updatedAt == now
            && KeptOf(moved) == KeptOf(was) && moved.media == was.media && moved.description == was.description
            && hybrid.infoHashV2 == Some(v2) && hybrid.updatedAt == now
            && KeptOf(hybrid) == KeptOf(was).(infoHashV2 := Some(v2)) && hybrid.media == was.media
            && (hybrid.description, hybrid.state, hybrid.lastError) == (was.description, was.state, was.lastError)
  {
  }

  /** A rebuild does lose the hashes, the fingerprint and the ownership, and puts the item back to
      pending and private; the file's own columns, its media, ratios and age stay. */
  lemma RebuildForgets(t: Table, key: Key, now: Epoch)
    requires key in t
    ensures var was, row := t[key], Apply(t, ResetForRebuild(key, now))[key];
            && row.infoHash == None && row.infoHashV2 == None && row.tokenFp == None
            && !row.createdBySharerr && row.isPrivate && row.state == Pending && row.lastError == None
            && (row.description, row.media, row.ratio, row.ratioLimit, row.createdAt)
               == (was.description, was.media, was.ratio, was.ratioLimit, was.createdAt)
            && row.updatedAt == now
  {
  }

  function Run(t: Table, ops: seq<Op>): Table
    decreases |ops|
  {
    if ops == [] then t else Run(Apply(t, ops[0]), ops[1..])
  }

  // ----- rediscovery

  /** What discovery writes: a description, perhaps what a probe found in the file, and nothing
      about a torrent. */
  predicate Rediscovery(op: Op) {
    op.Upsert? && op.item.infoHash.None? && op.item.tokenFp.None?
    && op.item.ratio.None? && op.item.ratioLimit.None?
  }

  /** A rediscovery of a file nothing has analysed. */
  predicate BareRediscovery(op: Op) {
    Rediscovery(op) && op.item.media.None?
  }

  /** The columns a rediscovery must leave alone. */
  datatype Kept = Kept(
    infoHash: Option<string>,
    infoHashV2: Option<string>,
    tokenFp: Option<string>,
    createdBySharerr: bool,
    isPrivate: bool,
    ratio: Option<real>,
    ratioLimit: Option<real>,
    createdAt: Epoch)

  function KeptOf(row: Row): Kept {
    Kept(row.infoHash, row.infoHashV2, row.tokenFp, row.createdBySharerr, row.isPrivate,
         row.ratio, row.ratioLimit, row.createdAt)
  }

  /** The media column of `b` beside that of `a`: the same when only bare rediscoveries set them
      apart, and never blank where `a`'s is not. */
  predicate SameMedia(a: Row, b: Row, bare: bool) {
    if bare then a.media == b.media else a.media.Some? ==> b.media.Some?
  }

  /** The same items, agreeing on every kept column. */
  ghost predicate SameKept(a: Table, b: Table, bare: bool) {
    a.Keys == b.Keys && forall k :: k in a ==> KeptOf(a[k]) == KeptOf(b[k]) && SameMedia(a[k], b[k], bare)
  }

  /** An operation of a run, and whether it is one of the inserted rediscoveries. */
  datatype Marked = Marked(op: Op, inserted: bool)

  function Every(ms: seq<Marked>): seq<Op> {
    if ms == [] then [] else [ms[0].op] + Every(ms[1..])
  }

  function Original(ms: seq<Marked>): seq<Op> {
    if ms == [] then []
    else (if ms[0].inserted then [] else [ms[0].op]) + Original(ms[1..])
  }

  /** Every inserted operation is a rediscovery of an item already stored by then. */
  ghost predicate OnlyRediscoveries(t: Table, ms: seq<Marked>, bare: bool)
    decreases |ms|
  {
    ms != [] ==>
      && (ms[0].inserted ==> Rediscovery(ms[0].op) && (bare ==> BareRediscovery(ms[0].op)) && ms[0].op.key in t)
      && OnlyRediscoveries(Apply(t, ms[0].op), ms[1..], bare)
  }

  lemma StepDependsOnKept(a: Table, b: Table, op: Op, bare: bool)
    requires SameKept(a, b, bare)
    ensures SameKept(Apply(a, op), Apply(b, op), bare)
  {
    if op.key in a {
      assert KeptOf(a[op.key]) == KeptOf(b[op.key]) && SameMedia(a[op.key], b[op.key], bare);
      assert KeptOf(Updated(a[op.key], op)) == KeptOf(Updated(b[op.key], op));
      assert SameMedia(Updated(a[op.key], op), Updated(b[op.key], op), bare);
    }
  }

  lemma RediscoveryKeeps(a: Table, b: Table, op: Op, bare: bool)
    requires SameKept(a, b, bare) && op.key in b && Rediscovery(op) && (bare ==> BareRediscovery(op))
    ensures SameKept(a, Apply(b, op), bare)
  {
    assert KeptOf(Updated(b[op.key], op)) == KeptOf(b[op.key]);
  }

  /** Rediscovery does not interfere: whatever run of updates it is scattered through, and
      however often, the torrent columns and `created_at` of every item end exactly as they would
      have without it, and known media is never blanked. If no rediscovery carries media, that
      column ends the same too. */
  lemma {:induction false} RediscoveryNeverInterferes(a: Table, b: Table, ms: seq<Marked>, bare: bool)
    requires SameKept(a, b, bare) && OnlyRediscoveries(b, ms, bare)
    ensures SameKept(Run(a, Original(ms)), Run(b, Every(ms)), bare)
    decreases |ms|
  {
    if ms != [] {
      var op := ms[0].op;
      assert Every(ms)[0] == op && Every(ms)[1..] == Every(ms[1..]);
      if ms[0].inserted {
        RediscoveryKeeps(a, b, op, bare);
        assert Original(ms) == Original(ms[1..]);
        RediscoveryNeverInterferes(a, Apply(b, op), ms[1..], bare);
      } else {
        StepDependsOnKept(a, b, op, bare);
        assert Original(ms)[0] == op && Original(ms)[1..] == Original(ms[1..]);
        RediscoveryNeverInterferes(Apply(a, op), Apply(b, op), ms[1..], bare);
      }
    }
  }

  /** The columns left out of that promise are out for a reason: a rediscovery does change the
      state, the error and the description, and media it knows replaces what was known. */
  lemma RediscoveryResetsTheRest(t: Table, op: Op)
    requires Rediscovery(op) && op.key in t
    ensures var row := Apply(t, op)[op.key];
            && row.state == op.item.state && row.lastError == op.item.lastError
            && row.description == op.item.description && row.updatedAt == op.now
            && (op.item.media.Some? ==> row.media == op.item.media)
  {
  }

  /** A known info hash is lost only to a rebuild. */
  lemma {:induction false} HashLostOnlyToRebuild(t: Table, ops: seq<Op>, key: Key)
    requires key in t && t[key].infoHash.Some?
    requires forall op :: op in ops && op.key == key ==> !op.ResetForRebuild?
    ensures key in Run(t, ops) && Run(t, ops)[key].infoHash.Some?
    decreases |ops|
  {
    if ops != [] {
      assert ops[0] in ops;
      HashLostOnlyToRebuild(Apply(t, ops[0]), ops[1..], key);
    }
  }

  /** The hash an item should hold, from the updates of that item alone: the last one recorded,
      unless a rebuild has come since. */
  function LastHash(start: Option<string>, ops: seq<Op>, key: Key): Option<string> {
    if ops == [] then start
    else
      var before := LastHash(start, ops[..|ops| - 1], key);
      match ops[|ops| - 1]
      case SetSeeding(k, infoHash, _, _, _, _) => if k == key then Some(infoHash) else before
      case Upsert(k, item, _) => if k == key && item.infoHash.Some? then item.infoHash else before
      case ResetForRebuild(k, _) => if k == key then None else before
      case _ => before
  }

  lemma {:induction false} RunSnoc(t: Table, ops: seq<Op>)
    requires ops != []
    ensures Run(t, ops) == Apply(Run(t, ops[..|ops| - 1]), ops[|ops| - 1])
    decreases |ops|
  {
    if |ops| > 1 {
      RunSnoc(Apply(t, ops[0]), ops[1..]);
      assert ops[1..][..|ops| - 2] == ops[..|ops| - 1][1..];
    }
  }

  /** Over every run an item holds the last hash recorded for it, and none after a rebuild. */
  lemma {:induction false} HashIsTheLastRecorded(t: Table, ops: seq<Op>, key: Key)
    requires key in t
    ensures key in Run(t, ops) && Run(t, ops)[key].infoHash == LastHash(t[key].infoHash, ops, key)
    decreases |ops|
  {
    if ops != [] {
      HashIsTheLastRecorded(t, ops[..|ops| - 1], key);
      RunSnoc(t, ops);
    }
  }

  /** `created_at` is when an item was first stored, whatever happens to it afterwards. */
  lemma {:induction false} CreatedAtNeverMoves(t: Table, ops: seq<Op>, key: Key)
    requires key in t
    ensures key in Run(t, ops) && Run(t, ops)[key].createdAt == t[key].createdAt
    decreases |ops|
  {
    if ops != [] {
      CreatedAtNeverMoves(Apply(t, ops[0]), ops[1..], key);
    }
  }
}
