/**
 * Where each friend was recently seen: a short history per (peer, kind), kept by an upsert that
 * only a newer sighting wins and a prune to the newest few rows. It refines the unbounded record
 * of the greatest timestamp ever seen for each address.
 */
module PeerEndpoints {
  import opened Basics

  const MAX_FUTURE_SKEW_SECS := 300

  datatype Kind = Api | Client | Tracker

  datatype Via = Direct | Gossip | Lighthouse | Restored

  /** One row of `peer_endpoints`, under the (peer, kind, addr) the table is unique on. */
  datatype Row = Row(id: nat, at: I64, via: Via)

  type Group = map<string, Row>

  datatype Table = Table(groups: map<(int, Kind), Group>, nextId: nat)

  /** `observedAt` is `None` for a sighting with no timestamp of its own. */
  datatype Sighting = Sighting(
    peer: int,
    kind: Kind,
    addr: string,
    observedAt: Option<I64>,
    via: Via,
    now: Epoch)

  const EMPTY := Table(map[], 0)

  function GroupOf(t: Table, peer: int, kind: Kind): Group {
    if (peer, kind) in t.groups then t.groups[(peer, kind)] else map[]
  }

  /** `ORDER BY observed_at DESC, id DESC`. */
  predicate Before(a: Row, b: Row) {
    a.at > b.at || (a.at == b.at && a.id > b.id)
  }

  function Ahead(g: Group, addr: string): set<string>
    requires addr in g
  {
    set b | b in g && Before(g[b], g[addr])
  }

  /** What the `DELETE` leaves: the first `history` rows in that order. */
  function Prune(g: Group, history: nat): Group {
    map a | a in g && |Ahead(g, a)| < history :: g[a]
  }

  /** The timestamp a sighting is recorded with: its own, clamped against a fast clock, or the
      present for one that has none. */
  function Stamp(s: Sighting): I64 {
    match s.observedAt
    case Some(at) => Min(at, Saturate(s.now + MAX_FUTURE_SKEW_SECS))
    case None => s.now
  }

  function RecordInGroup(g: Group, s: Sighting, history: nat, id: nat): Group {
    if s.addr !in g then Prune(g[s.addr := Row(id, Stamp(s), s.via)], history)
    else if s.observedAt.Some? && Stamp(s) > g[s.addr].at then
      Prune(g[s.addr := Row(g[s.addr].id, Stamp(s), s.via)], history)
    else g
  }

  function Record(t: Table, s: Sighting, history: nat): Table {
    var g := GroupOf(t, s.peer, s.kind);
    Table(t.groups[(s.peer, s.kind) := RecordInGroup(g, s, history, t.nextId)],
          if s.addr in g then t.nextId else t.nextId + 1)
  }

  class EndpointStore {
    var groups: map<(int, Kind), Group>
    var nextId: nat
    var history: nat

    constructor (history: nat)
      ensures View() == EMPTY && this.history == history
    {
      groups, nextId, this.history := map[], 0, history;
    }

    function View(): Table
      reads this
    {
      Table(groups, nextId)
    }

    /** The transaction: upsert or insert, then prune when a row was written. */
    method RecordPeerEndpoint(s: Sighting)
      modifies this
      ensures View() == Record(old(View()), s, history) && history == old(history)
    {
      var key := (s.peer, s.kind);
      var rows := GroupOf(View(), s.peer, s.kind);
      var at := if s.observedAt.Some?
                then Min(s.observedAt.value, Saturate(s.now + MAX_FUTURE_SKEW_SECS))
                else s.now;
      var written := false;
      if s.addr !in rows {
        rows := rows[s.addr := Row(nextId, at, s.via)];
        nextId := nextId + 1;
        written := true;
      } else if s.observedAt.Some? && at > rows[s.addr].at {
        rows := rows[s.addr := Row(rows[s.addr].id, at, s.via)];
        written := true;
      }
      if written {
        rows := Prune(rows, history);
      }
      groups := groups[key := rows];
    }
  }

  // ----- one sighting

  /** The timestamp a sighting is recorded with: never more than five minutes ahead of the clock that
      records it, its own if that is within those, and the clock's for one that has none. */
  lemma StampIs(s: Sighting)
    ensures Stamp(s) <= s.now + 300
    ensures s.observedAt.Some? && s.observedAt.value <= s.now + 300 ==> Stamp(s) == s.observedAt.value
    ensures s.observedAt.Some? && s.observedAt.value > s.now + 300 ==> Stamp(s) == s.now + 300
    ensures s.observedAt.None? ==> Stamp(s) == s.now
  {
  }

  /** The rows of `g` that `ORDER BY observed_at DESC, id DESC` puts before the one of `addr`. */
  function NewerRows(g: Group, addr: string): set<string>
    requires addr in g
  {
    set b | b in g && (g[b].at > g[addr].at || (g[b].at == g[addr].at && g[b].id > g[addr].id))
  }

  /** What recording does to its history: nothing for a held address unless the sighting has a
      timestamp of its own and a later one; otherwise the address gets that timestamp and source
      under its old id, or a new one, and only the first `history` rows stay. */
  lemma RecordDecides(t: Table, s: Sighting, history: nat)
    ensures var g, t' := GroupOf(t, s.peer, s.kind), Record(t, s, history);
            var g' := GroupOf(t', s.peer, s.kind);
            if s.addr in g && (s.observedAt.None? || Stamp(s) <= g[s.addr].at) then g' == g && t'.nextId == t.nextId
            else
              var held := s.addr in g;
              var all := g[s.addr := Row(if held then g[s.addr].id else t.nextId, Stamp(s), s.via)];
              && t'.nextId == (if held then t.nextId else t.nextId + 1)
              && (forall a :: a in g' <==> a in all && |NewerRows(all, a)| < history)
              && (forall a :: a in g' ==> g'[a] == all[a])
  {
    var g := GroupOf(t, s.peer, s.kind);
    var held := s.addr in g;
    var all := g[s.addr := Row(if held then g[s.addr].id else t.nextId, Stamp(s), s.via)];
    forall a | a in all ensures NewerRows(all, a) == Ahead(all, a) {
    }
  }

  // ----- pruning

  ghost predicate IdsDistinct(g: Group) {
    forall a, b :: a in g && b in g && a != b ==> g[a].id != g[b].id
  }

  lemma FewEnoughToKeep(g: Group, history: nat)
    requires |g| <= history
    ensures Prune(g, history) == g
  {
    forall a | a in g ensures |Ahead(g, a)| < history {
      SubsetSize(Ahead(g, a), g.Keys - {a});
    }
  }

  lemma {:induction false} OldestOf(g: Group, among: set<string>) returns (m: string)
    requires among <= g.Keys && among != {} && IdsDistinct(g)
    ensures m in among && forall b :: b in among && b != m ==> Before(g[b], g[m])
    decreases among
  {
    m :| m in among;
    if among != {m} {
      var r := OldestOf(g, among - {m});
      if Before(g[m], g[r]) {
        m := r;
      }
    }
  }

  ghost predicate IsOldest(g: Group, m: string) {
    && m in g
    && forall b :: b in g && b != m ==> g[b].at > g[m].at || (g[b].at == g[m].at && g[b].id > g[m].id)
  }

  /** With one row too many, the prune drops exactly the oldest. */
  lemma PruneDropsOldest(g: Group, history: nat) returns (m: string)
    requires |g| == history + 1 && IdsDistinct(g)
    ensures IsOldest(g, m) && Prune(g, history) == g - {m}
  {
    assert |g.Keys| == |g|;
    m := OldestOf(g, g.Keys);
    OldestRank(g, m);
  }

  lemma OldestRank(g: Group, m: string)
    requires IsOldest(g, m)
    ensures |Ahead(g, m)| == |g| - 1
    ensures forall a :: a in g && a != m ==> |Ahead(g, a)| < |g| - 1
  {
    assert |g.Keys| == |g|;
    assert Ahead(g, m) == g.Keys - {m};
    forall a | a in g && a != m ensures |Ahead(g, a)| < |g| - 1 {
      SubsetSize(Ahead(g, a), g.Keys - {a, m});
    }
  }

  // ----- the unbounded record

  /** Every address ever recorded, with the greatest timestamp it was recorded with. */
  type Log = map<string, int>

  function Note(log: Log, addr: string, at: int): Log {
    log[addr := if addr in log then Max(log[addr], at) else at]
  }

  /** The kept rows are the `history` newest entries of the log, up to which of several equally
      old addresses is kept. */
  ghost predicate NewestOf(g: Group, log: Log, history: nat) {
    && (forall a :: a in g ==> a in log && g[a].at == log[a])
    && |g| == Min(history, |log|)
    && (forall a, b :: a in g && b in log && b !in g ==> log[b] <= log[a])
  }

  ghost predicate FreshIds(g: Group, nextId: nat) {
    IdsDistinct(g) && forall a :: a in g ==> g[a].id < nextId
  }

  lemma FreshAfterPrune(g: Group, history: nat, id: nat)
    requires FreshIds(g, id)
    ensures FreshIds(Prune(g, history), id)
  {
    var kept := Prune(g, history);
    assert forall a :: a in kept ==> a in g && kept[a] == g[a];
  }

  lemma FreshInsert(g: Group, id: nat, addr: string, row: Row)
    requires FreshIds(g, id) && (if addr in g then row.id == g[addr].id else row.id == id)
    ensures FreshIds(g[addr := row], if addr in g then id else id + 1)
  {
    var g' := g[addr := row];
    assert forall a :: a in g' ==> g'[a].id == if a == addr then row.id else g[a].id;
  }

  lemma AllKept(g: Group, log: Log, history: nat)
    requires NewestOf(g, log, history) && |g| < history
    ensures g.Keys == log.Keys
  {
    assert |g.Keys| == |g| && |log.Keys| == |log|;
    SameSizeSubset(g.Keys, log.Keys);
  }

  lemma NoteSize(log: Log, addr: string, at: int)
    ensures |Note(log, addr, at)| == if addr in log then |log| else |log| + 1
  {
    assert addr in log ==> Note(log, addr, at).Keys == log.Keys;
    assert addr !in log ==> Note(log, addr, at).Keys == log.Keys + {addr};
    assert |Note(log, addr, at)| == |Note(log, addr, at).Keys|;
    assert |log| == |log.Keys|;
  }

  lemma InsertSize(g: Group, addr: string, row: Row)
    requires addr !in g
    ensures |g[addr := row]| == |g| + 1 && g[addr := row].Keys == g.Keys + {addr}
  {
    assert |g.Keys + {addr}| == |g.Keys| + 1;
  }

  /** A new address while there is room. */
  lemma RoomForOne(g: Group, log: Log, history: nat, addr: string, row: Row)
    requires NewestOf(g, log, history) && |g| < history && addr !in g
    ensures addr !in log && NewestOf(g[addr := row], Note(log, addr, row.at), history)
  {
    AllKept(g, log, history);
    InsertSize(g, addr, row);
    NoteSize(log, addr, row.at);
  }

  /** A sighting older than everything in a full history. */
  lemma TurnedAway(g: Group, log: Log, history: nat, addr: string, row: Row)
    requires NewestOf(g, log, history) && |g| == history && addr !in g
    requires forall a :: a in g ==> Before(g[a], row)
    ensures NewestOf(g, Note(log, addr, row.at), history)
  {
    NoteSize(log, addr, row.at);
  }

  /** A sighting that pushes the oldest row `m` out of a full history. */
  lemma PushesOut(g: Group, log: Log, history: nat, addr: string, row: Row, m: string)
    requires NewestOf(g, log, history) && |g| == history && addr !in g && m in g
    requires Before(row, g[m]) && forall a :: a in g && a != m ==> Before(g[a], g[m])
    ensures addr in log ==> log[addr] <= row.at
    ensures NewestOf(g[addr := row] - {m}, Note(log, addr, row.at), history)
  {
    var kept, log' := g[addr := row] - {m}, Note(log, addr, row.at);
    assert addr in log ==> log[addr] <= log[m];
    InsertSize(g, addr, row);
    NoteSize(log, addr, row.at);
    assert kept.Keys == g.Keys + {addr} - {m};
    assert |kept| == |kept.Keys| == history;
    forall a, b | a in kept && b in log' && b !in kept ensures log'[b] <= log'[a] {
      assert log'[m] == log[m] && log[m] <= log'[a];
      if b != m {
        assert b !in g && log'[b] == log[b] <= log[m];
      }
    }
  }

  /** A row for an address that has none: a new one, or one pruned before. */
  lemma InsertKeepsNewest(g: Group, log: Log, history: nat, id: nat, addr: string, row: Row)
    requires NewestOf(g, log, history) && FreshIds(g, id) && addr !in g && row.id == id
    ensures NewestOf(Prune(g[addr := row], history), Note(log, addr, row.at), history)
    ensures addr in log && row.at < log[addr] ==> Prune(g[addr := row], history) == g
  {
    var g' := g[addr := row];
    InsertSize(g, addr, row);
    FreshInsert(g, id, addr, row);
    if |g| < history {
      FewEnoughToKeep(g', history);
      RoomForOne(g, log, history, addr, row);
    } else {
      var m := PruneDropsOldest(g', history);
      OldestLeaves(g, log, history, addr, row, m);
    }
  }

  lemma OldestLeaves(g: Group, log: Log, history: nat, addr: string, row: Row, m: string)
    requires NewestOf(g, log, history) && |g| == history && addr !in g && IsOldest(g[addr := row], m)
    ensures NewestOf(g[addr := row] - {m}, Note(log, addr, row.at), history)
    ensures addr in log && row.at < log[addr] ==> g[addr := row] - {m} == g
  {
    var g' := g[addr := row];
    if m == addr {
      assert g' - {m} == g;
      assert forall a :: a in g ==> Before(g'[a], g'[m]);
      TurnedAway(g, log, history, addr, row);
    } else {
      assert Before(g'[addr], g'[m]);
      assert forall a :: a in g && a != m ==> Before(g'[a], g'[m]);
      PushesOut(g, log, history, addr, row, m);
    }
  }

  /** A newer sighting of an address already held. */
  lemma RefreshKeepsNewest(g: Group, log: Log, history: nat, addr: string, row: Row)
    requires NewestOf(g, log, history) && addr in g && row.at > g[addr].at
    ensures NewestOf(g[addr := row], Note(log, addr, row.at), history)
    ensures |g[addr := row]| <= history
  {
    var g', log' := g[addr := row], Note(log, addr, row.at);
    assert g'.Keys == g.Keys;
    assert |g'| == |g'.Keys| == |g.Keys| == |g|;
    NoteSize(log, addr, row.at);
    assert log' == log[addr := row.at];
    forall a, b | a in g' && b in log' && b !in g' ensures log'[b] <= log'[a] {
      assert log[b] <= log[a];
    }
  }

  // ----- runs

  function After(run: seq<Sighting>, history: nat): Table {
    if run == [] then EMPTY
    else Record(After(run[..|run| - 1], history), run[|run| - 1], history)
  }

  /** Whether a sighting is put on record: one without a timestamp only fills a gap. */
  predicate Recorded(t: Table, s: Sighting) {
    s.observedAt.Some? || s.addr !in GroupOf(t, s.peer, s.kind)
  }

  function LogOf(run: seq<Sighting>, history: nat, peer: int, kind: Kind): Log {
    if run == [] then map[]
    else
      var front, s := run[..|run| - 1], run[|run| - 1];
      var log := LogOf(front, history, peer, kind);
      if s.peer == peer && s.kind == kind && Recorded(After(front, history), s)
      then Note(log, s.addr, Stamp(s)) else log
  }

  lemma OtherGroupsUntouched(t: Table, s: Sighting, history: nat, peer: int, kind: Kind)
    requires (peer, kind) != (s.peer, s.kind)
    ensures GroupOf(Record(t, s, history), peer, kind) == GroupOf(t, peer, kind)
  {
  }

  lemma StepKeepsNewest(t: Table, log: Log, s: Sighting, history: nat)
    requires NewestOf(GroupOf(t, s.peer, s.kind), log, history)
    requires FreshIds(GroupOf(t, s.peer, s.kind), t.nextId)
    ensures var t' := Record(t, s, history);
            && NewestOf(GroupOf(t', s.peer, s.kind),
                        if Recorded(t, s) then Note(log, s.addr, Stamp(s)) else log, history)
            && FreshIds(GroupOf(t', s.peer, s.kind), t'.nextId)
  {
    var g := GroupOf(t, s.peer, s.kind);
    if s.addr !in g {
      var row := Row(t.nextId, Stamp(s), s.via);
      InsertKeepsNewest(g, log, history, t.nextId, s.addr, row);
      FreshInsert(g, t.nextId, s.addr, row);
      FreshAfterPrune(g[s.addr := row], history, t.nextId + 1);
    } else if s.observedAt.Some? && Stamp(s) > g[s.addr].at {
      var row := Row(g[s.addr].id, Stamp(s), s.via);
      RefreshKeepsNewest(g, log, history, s.addr, row);
      FewEnoughToKeep(g[s.addr := row], history);
      FreshInsert(g, t.nextId, s.addr, row);
    } else if s.observedAt.Some? {
      assert Note(log, s.addr, Stamp(s)) == log;
    }
  }

  /** For any history limit and any run of sightings over any peers, what is kept for a
      (peer, kind) is the newest of everything ever recorded for it. */
  lemma {:induction false} KeepsTheNewest(run: seq<Sighting>, history: nat, peer: int, kind: Kind)
    ensures NewestOf(GroupOf(After(run, history), peer, kind), LogOf(run, history, peer, kind), history)
    ensures FreshIds(GroupOf(After(run, history), peer, kind), After(run, history).nextId)
  {
    if run != [] {
      var front, s := run[..|run| - 1], run[|run| - 1];
      KeepsTheNewest(front, history, peer, kind);
      if (s.peer, s.kind) == (peer, kind) {
        StepKeepsNewest(After(front, history), LogOf(front, history, peer, kind), s, history);
      } else {
        OtherGroupsUntouched(After(front, history), s, history, peer, kind);
      }
    }
  }

  /** Sighting `i` of a run is of this address, and is put on record. One with a timestamp always
      is; one without only if the address is not held just then. */
  ghost predicate SightedAt(run: seq<Sighting>, history: nat, i: int, peer: int, kind: Kind, addr: string) {
    && 0 <= i < |run|
    && run[i].peer == peer && run[i].kind == kind && run[i].addr == addr
    && Recorded(After(run[..i], history), run[i])
  }

  lemma SightedBefore(run: seq<Sighting>, history: nat, n: nat, i: int, peer: int, kind: Kind, addr: string)
    requires n <= |run| && i < n
    ensures SightedAt(run[..n], history, i, peer, kind, addr) <==> SightedAt(run, history, i, peer, kind, addr)
  {
    if 0 <= i {
      assert run[..n][..i] == run[..i];
    }
  }

  lemma {:induction false} LogBounds(
    run: seq<Sighting>, history: nat, i: int, peer: int, kind: Kind, addr: string)
    requires SightedAt(run, history, i, peer, kind, addr)
    ensures var log := LogOf(run, history, peer, kind);
            addr in log && Stamp(run[i]) <= log[addr]
    decreases |run|
  {
    var n := |run| - 1;
    OneMoreSighting(run, history, n, peer, kind, addr);
    if i < n {
      SightedBefore(run, history, n, i, peer, kind, addr);
      LogBounds(run[..n], history, i, peer, kind, addr);
    }
  }

  lemma {:induction false} LogAttained(run: seq<Sighting>, history: nat, peer: int, kind: Kind, addr: string)
    returns (i: int)
    requires addr in LogOf(run, history, peer, kind)
    ensures SightedAt(run, history, i, peer, kind, addr)
    ensures Stamp(run[i]) == LogOf(run, history, peer, kind)[addr]
  {
    var n := |run| - 1;
    var before := LogOf(run[..n], history, peer, kind);
    OneMoreSighting(run, history, n, peer, kind, addr);
    if addr in before && LogOf(run, history, peer, kind)[addr] == before[addr] {
      i := LogAttained(run[..n], history, peer, kind, addr);
      SightedBefore(run, history, n, i, peer, kind, addr);
    } else {
      i := n;
    }
  }

  /** The log is what its name says: it maps each address ever put on record to the greatest
      clamped timestamp it was recorded with. */
  lemma LogIsGreatest(run: seq<Sighting>, history: nat, peer: int, kind: Kind, addr: string)
    ensures var log := LogOf(run, history, peer, kind);
            && (addr in log <==> exists i :: SightedAt(run, history, i, peer, kind, addr))
            && (addr in log ==>
                  exists i :: SightedAt(run, history, i, peer, kind, addr) && Stamp(run[i]) == log[addr])
            && (addr in log ==>
                  forall i :: SightedAt(run, history, i, peer, kind, addr) ==> Stamp(run[i]) <= log[addr])
  {
    if addr in LogOf(run, history, peer, kind) {
      var i := LogAttained(run, history, peer, kind, addr);
    }
    forall i | SightedAt(run, history, i, peer, kind, addr)
      ensures var log := LogOf(run, history, peer, kind); addr in log && Stamp(run[i]) <= log[addr]
    {
      LogBounds(run, history, i, peer, kind, addr);
    }
  }

  /** Every row kept is a sighting as it was recorded: some recorded sighting of that address gave
      it its timestamp and its source. */
  lemma {:induction false} KeptRowIsASighting(run: seq<Sighting>, history: nat, peer: int, kind: Kind, addr: string)
    returns (i: int)
    requires addr in GroupOf(After(run, history), peer, kind)
    ensures SightedAt(run, history, i, peer, kind, addr)
    ensures var row := GroupOf(After(run, history), peer, kind)[addr];
            row.at == Stamp(run[i]) && row.via == run[i].via && row.at <= run[i].now + 300
  {
    var n := |run| - 1;
    var s, t := run[n], After(run[..n], history);
    if (s.peer, s.kind) != (peer, kind) {
      OtherGroupsUntouched(t, s, history, peer, kind);
      i := KeptRowIsASighting(run[..n], history, peer, kind, addr);
      SightedBefore(run, history, n, i, peer, kind, addr);
    } else {
      RecordDecides(t, s, history);
      var g := GroupOf(t, peer, kind);
      if addr == s.addr && !(addr in g && (s.observedAt.None? || Stamp(s) <= g[addr].at)) {
        i := n;
        StampIs(s);
      } else {
        i := KeptRowIsASighting(run[..n], history, peer, kind, addr);
        SightedBefore(run, history, n, i, peer, kind, addr);
      }
    }
  }

  lemma OneMoreSighting(run: seq<Sighting>, history: nat, n: nat, peer: int, kind: Kind, addr: string)
    requires n + 1 == |run|
    ensures var before, after := LogOf(run[..n], history, peer, kind), LogOf(run, history, peer, kind);
            if SightedAt(run, history, n, peer, kind, addr)
            then addr in after
                 && after[addr] == if addr in before then Max(before[addr], Stamp(run[n])) else Stamp(run[n])
            else (addr in after <==> addr in before) && (addr in before ==> after[addr] == before[addr])
  {
  }

  /** Pruning and then replaying never rewinds: a sighting older than what its address was ever
      recorded with changes nothing, even when that address has been pruned away since. */
  lemma ReplayChangesNothing(run: seq<Sighting>, history: nat, s: Sighting)
    requires s.observedAt.Some? && s.addr in LogOf(run, history, s.peer, s.kind)
    requires var log := LogOf(run, history, s.peer, s.kind);
             || Stamp(s) < log[s.addr]
             || (Stamp(s) == log[s.addr] && s.addr in GroupOf(After(run, history), s.peer, s.kind))
    ensures GroupOf(Record(After(run, history), s, history), s.peer, s.kind)
            == GroupOf(After(run, history), s.peer, s.kind)
  {
    KeepsTheNewest(run, history, s.peer, s.kind);
    var t := After(run, history);
    var g := GroupOf(t, s.peer, s.kind);
    if s.addr !in g {
      InsertKeepsNewest(g, LogOf(run, history, s.peer, s.kind), history, t.nextId, s.addr,
                        Row(t.nextId, Stamp(s), s.via));
    }
  }

  /** A sighting with no timestamp never touches a row that exists. */
  lemma GapFillNeverOverwrites(t: Table, s: Sighting, history: nat)
    requires s.observedAt.None? && s.addr in GroupOf(t, s.peer, s.kind)
    ensures GroupOf(Record(t, s, history), s.peer, s.kind) == GroupOf(t, s.peer, s.kind)
  {
  }
}
