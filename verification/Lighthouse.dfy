/**
 * The lighthouse: a bounded table from key hash to the latest signed record, with
 * first-use pinning of the public key, a TTL, a future-skew guard and a throttled sweep.
 *
 * Signature checking is a parameter. Every report carries its own clock reading: the
 * source reads the clock before it takes the lock, so clocks need not grow in lock order.
 */
module Lighthouse {
  import opened Basics

  const MAX_FUTURE_SKEW_SECS := 300
  const RECORD_TTL_SECS := 2_592_000
  const MAX_RECORDS := 10_000
  const SWEEP_INTERVAL_SECS := 60

  datatype RecordEndpoint = RecordEndpoint(kind: string, addr: string, observedAt: I64)

  datatype EndpointRecord = EndpointRecord(
    pubkey: string,
    endpoints: seq<RecordEndpoint>,
    signedAt: I64,
    signature: string)

  datatype Outcome =
    | Accepted
    | Stale
    | BadKeyHash
    | InvalidRecord
    | FutureTimestamp
    | Full
    | PubkeyMismatch

  datatype Records = Records(table: map<string, EndpointRecord>, lastSweepAt: Epoch)

  /** One report, with the clock its handler read. */
  datatype Call = Call(keyHash: string, record: EndpointRecord, now: Epoch)

  const EMPTY := Records(map[], 0)

  predicate IsHexDigit(c: char) { IsDigit(c) || 'a' <= c <= 'f' || 'A' <= c <= 'F' }

  predicate IsHex32Bytes(s: string) {
    |s| == 64 && forall i :: 0 <= i < |s| ==> IsHexDigit(s[i])
  }

  predicate Expired(r: EndpointRecord, now: Epoch) {
    Saturate(now - r.signedAt) >= RECORD_TTL_SECS
  }

  predicate SameKeypair(a: EndpointRecord, b: EndpointRecord) {
    Lower(a.pubkey) == Lower(b.pubkey)
  }

  predicate TooFarAhead(r: EndpointRecord, now: Epoch) {
    r.signedAt > Saturate(now + MAX_FUTURE_SKEW_SECS)
  }

  function Unexpired(t: map<string, EndpointRecord>, now: Epoch): map<string, EndpointRecord> {
    map k | k in t && !Expired(t[k], now) :: t[k]
  }

  /** One report as an atomic step of the table. */
  function Step(verify: EndpointRecord -> bool, s: Records, c: Call): (Records, Outcome) {
    var k := Lower(c.keyHash);
    if !IsHex32Bytes(k) then (s, BadKeyHash)
    else if !verify(c.record) then (s, InvalidRecord)
    else if TooFarAhead(c.record, c.now) then (s, FutureTimestamp)
    else if k in s.table then
      if !Expired(s.table[k], c.now) && !SameKeypair(s.table[k], c.record) then (s, PubkeyMismatch)
      else if s.table[k].signedAt >= c.record.signedAt then (s, Stale)
      else (s.(table := s.table[k := c.record]), Accepted)
    else if |s.table| >= MAX_RECORDS then
      if Saturate(c.now - s.lastSweepAt) < SWEEP_INTERVAL_SECS then (s, Full)
      else
        var kept := Unexpired(s.table, c.now);
        if |kept| >= MAX_RECORDS then (Records(kept, c.now), Full)
        else (Records(kept[k := c.record], c.now), Accepted)
    else (s.(table := s.table[k := c.record]), Accepted)
  }

  /** The shared state behind the two routes. */
  class LighthouseState {
    var table: map<string, EndpointRecord>
    var lastSweepAt: Epoch
    const verify: EndpointRecord -> bool
    /** The fabricated answer for a key hash nobody reported, at a given clock. */
    const decoy: (string, Epoch) -> EndpointRecord
    /** Hex SHA-256. */
    const hashKey: string -> string

    constructor (verify: EndpointRecord -> bool, decoy: (string, Epoch) -> EndpointRecord,
                 hashKey: string -> string)
      ensures View() == EMPTY
      ensures this.verify == verify && this.decoy == decoy && this.hashKey == hashKey
    {
      table, lastSweepAt := map[], 0;
      this.verify, this.decoy, this.hashKey := verify, decoy, hashKey;
    }

    function View(): Records
      reads this
    {
      Records(table, lastSweepAt)
    }

    method Report(keyHash: string, record: EndpointRecord, now: Epoch) returns (outcome: Outcome)
      modifies this
      ensures (View(), outcome) == Step(verify, old(View()), Call(keyHash, record, now))
    {
      var k := Lower(keyHash);
      if !IsHex32Bytes(k) {
        return BadKeyHash;
      }
      if !verify(record) {
        return InvalidRecord;
      }
      if record.signedAt > Saturate(now + MAX_FUTURE_SKEW_SECS) {
        return FutureTimestamp;
      }
      if k in table {
        var existing := table[k];
        var expired := Saturate(now - existing.signedAt) >= RECORD_TTL_SECS;
        if !expired && !SameKeypair(existing, record) {
          return PubkeyMismatch;
        }
        if existing.signedAt >= record.signedAt {
          return Stale;
        }
      } else if |table| >= MAX_RECORDS {
        if Saturate(now - lastSweepAt) < SWEEP_INTERVAL_SECS {
          return Full;
        }
        lastSweepAt := now;
        table := Unexpired(table, now);
        if |table| >= MAX_RECORDS {
          return Full;
        }
      }
      table := table[k := record];
      return Accepted;
    }

    method Lookup(keyHash: string, now: Epoch) returns (r: EndpointRecord)
      ensures r == if keyHash in table then table[keyHash] else decoy(keyHash, now)
    {
      if keyHash in table {
        return table[keyHash];
      }
      return decoy(keyHash, now);
    }

    /** The lookup route: any letter case of a stored key hash finds its record, and anything that
        is not a key hash is looked up by its own hash. */
    method LookupRoute(raw: string, now: Epoch) returns (r: EndpointRecord)
      ensures r == Answer(table, decoy, hashKey, raw, now)
      ensures IsHex32Bytes(Lower(raw)) && Lower(raw) in table ==> r == table[Lower(raw)]
      ensures IsHex32Bytes(Lower(raw)) && Lower(raw) !in table ==> r == decoy(Lower(raw), now)
      ensures !IsHex32Bytes(Lower(raw)) && hashKey(Lower(raw)) in table ==> r == table[hashKey(Lower(raw))]
      ensures !IsHex32Bytes(Lower(raw)) && hashKey(Lower(raw)) !in table ==>
                r == decoy(hashKey(Lower(raw)), now)
    {
      var k := Lower(raw);
      if !IsHex32Bytes(k) {
        k := hashKey(k);
      }
      r := Lookup(k, now);
    }
  }

  /** What the lookup route answers. */
  function Answer(
    table: map<string, EndpointRecord>, decoy: (string, Epoch) -> EndpointRecord, hashKey: string -> string,
    raw: string, now: Epoch): EndpointRecord
  {
    var k := if IsHex32Bytes(Lower(raw)) then Lower(raw) else hashKey(Lower(raw));
    if k in table then table[k] else decoy(k, now)
  }

  // ----- what each answer means

  /** The hex digits, one by one. */
  lemma HexDigits(c: char)
    ensures IsHexDigit(c) <==> c in "0123456789abcdefABCDEF"
  {
    var n := c as int;
    if IsHexDigit(c) {
      var digits := "0123456789abcdefABCDEF";
      if n <= '9' as int {
        assert digits[n - '0' as int] == c;
      } else if n >= 'a' as int {
        assert digits[10 + n - 'a' as int] == c;
      } else {
        assert digits[16 + n - 'A' as int] == c;
      }
    }
  }

  lemma KeyHashShape(s: string)
    ensures IsHex32Bytes(s) <==> |s| == 64 && forall c :: c in s ==> c in "0123456789abcdefABCDEF"
  {
    forall c ensures IsHexDigit(c) <==> c in "0123456789abcdefABCDEF" {
      HexDigits(c);
    }
    if IsHex32Bytes(s) {
      forall c | c in s ensures IsHexDigit(c) {
        var i :| 0 <= i < |s| && s[i] == c;
      }
    }
  }

  /** Well-formed, genuine and not from the future: what every report is held to first. */
  predicate Admissible(verify: EndpointRecord -> bool, c: Call) {
    IsHex32Bytes(Lower(c.keyHash)) && verify(c.record) && c.record.signedAt <= c.now + 300
  }

  /** The live records, in exact arithmetic. */
  function Live(t: map<string, EndpointRecord>, now: Epoch): set<string> {
    set k | k in t && now - t[k].signedAt < 2_592_000
  }

  lemma UnexpiredIsLive(t: map<string, EndpointRecord>, now: Epoch)
    ensures Unexpired(t, now).Keys == Live(t, now) && |Unexpired(t, now)| == |Live(t, now)|
  {
    assert |Unexpired(t, now)| == |Unexpired(t, now).Keys|;
  }

  /** Each malformed report is refused for its first fault, in this order, and changes nothing. */
  lemma RefusedAtTheDoor(verify: EndpointRecord -> bool, s: Records, c: Call)
    ensures var (after, outcome) := Step(verify, s, c);
            && (outcome == BadKeyHash <==> !IsHex32Bytes(Lower(c.keyHash)))
            && (outcome == InvalidRecord <==> IsHex32Bytes(Lower(c.keyHash)) && !verify(c.record))
            && (outcome == FutureTimestamp <==>
                  IsHex32Bytes(Lower(c.keyHash)) && verify(c.record) && c.record.signedAt > c.now + 300)
            && (!Admissible(verify, c) ==> after == s)
  {
  }

  /** An occupied slot: another keypair is a mismatch while the record lives, before anything is
      said about staleness; otherwise only a later signature replaces it. Nothing else moves. */
  lemma OccupiedSlot(verify: EndpointRecord -> bool, s: Records, c: Call)
    requires Admissible(verify, c) && Lower(c.keyHash) in s.table
    ensures var (after, outcome) := Step(verify, s, c);
            var held := s.table[Lower(c.keyHash)];
            var mismatch := c.now - held.signedAt < 2_592_000 && Lower(held.pubkey) != Lower(c.record.pubkey);
            && (outcome == PubkeyMismatch <==> mismatch)
            && (outcome == Stale <==> !mismatch && c.record.signedAt <= held.signedAt)
            && (outcome == Accepted <==> !mismatch && c.record.signedAt > held.signedAt)
            && after == if outcome == Accepted then s.(table := s.table[Lower(c.keyHash) := c.record]) else s
  {
  }

  /** A fresh key hash while there is room: always accepted, and nothing else moves. */
  lemma FreshSlot(verify: EndpointRecord -> bool, s: Records, c: Call)
    requires Admissible(verify, c) && Lower(c.keyHash) !in s.table && |s.table| < 10_000
    ensures Step(verify, s, c) == (s.(table := s.table[Lower(c.keyHash) := c.record]), Accepted)
  {
  }

  /** A fresh key hash at capacity: refused untouched within a minute of the last sweep; after it,
      what has lapsed is dropped and the report is accepted exactly if that made room. */
  lemma FullTable(verify: EndpointRecord -> bool, s: Records, c: Call)
    requires Admissible(verify, c) && Lower(c.keyHash) !in s.table && |s.table| >= 10_000
    ensures var (after, outcome) := Step(verify, s, c);
            var k, live := Lower(c.keyHash), Live(s.table, c.now);
            if c.now - s.lastSweepAt < 60 then after == s && outcome == Full
            else
              && after.lastSweepAt == c.now
              && outcome == (if |live| < 10_000 then Accepted else Full)
              && after.table.Keys == (if |live| < 10_000 then live + {k} else live)
              && (forall x :: x in live ==> after.table[x] == s.table[x])
              && (k in after.table ==> after.table[k] == c.record)
  {
    UnexpiredIsLive(s.table, c.now);
  }

  // ----- runs

  /** The table after a run of reports that started empty. */
  function After(verify: EndpointRecord -> bool, calls: seq<Call>): Records {
    if calls == [] then EMPTY
    else Step(verify, After(verify, calls[..|calls| - 1]), calls[|calls| - 1]).0
  }

  /** The table before the `i`th report of a run. */
  function At(verify: EndpointRecord -> bool, calls: seq<Call>, i: nat): Records
    requires i <= |calls|
  {
    After(verify, calls[..i])
  }

  predicate AcceptedAt(verify: EndpointRecord -> bool, calls: seq<Call>, m: nat, k: string)
    requires m < |calls|
  {
    Lower(calls[m].keyHash) == k && Step(verify, At(verify, calls, m), calls[m]).1 == Accepted
  }

  lemma AtNext(verify: EndpointRecord -> bool, calls: seq<Call>, i: nat)
    requires i < |calls|
    ensures At(verify, calls, i + 1) == Step(verify, At(verify, calls, i), calls[i]).0
  {
    assert calls[..i + 1][..i] == calls[..i];
  }

  lemma SweepNeverGrows(t: map<string, EndpointRecord>, now: Epoch)
    ensures Unexpired(t, now).Keys <= t.Keys && |Unexpired(t, now)| <= |t|
  {
    SubsetSize(Unexpired(t, now).Keys, t.Keys);
  }

  ghost predicate Sound(verify: EndpointRecord -> bool, s: Records) {
    && |s.table| <= MAX_RECORDS
    && (forall k :: k in s.table ==> IsHex32Bytes(k) && Lower(k) == k && verify(s.table[k]))
  }

  /** In every reachable state the table is within capacity, every key is 64 lowercase hex
      digits and every record verified. */
  lemma {:induction false} ReachableIsSound(verify: EndpointRecord -> bool, calls: seq<Call>)
    ensures Sound(verify, After(verify, calls))
  {
    if calls != [] {
      var before := After(verify, calls[..|calls| - 1]);
      var c := calls[|calls| - 1];
      ReachableIsSound(verify, calls[..|calls| - 1]);
      SweepNeverGrows(before.table, c.now);
      LowerIdempotent(c.keyHash);
    }
  }

  /** A report under one key hash leaves every unexpired record under another exactly as it
      was, whatever it is answered, and never makes up an entry. */
  lemma OthersUntouched(verify: EndpointRecord -> bool, s: Records, c: Call, k: string)
    requires k != Lower(c.keyHash)
    ensures var t := Step(verify, s, c).0.table;
            && (k in s.table && !Expired(s.table[k], c.now) ==> k in t && t[k] == s.table[k])
            && (k in t ==> k in s.table && t[k] == s.table[k])
  {
  }

  // ----- malformed lookups

  /** In every reachable state, and with decoys that do not verify, a malformed key hash is answered
      by a decoy if and only if its own hash is not on file. */
  lemma MalformedGetsDecoyIff(
    verify: EndpointRecord -> bool, decoy: (string, Epoch) -> EndpointRecord, hashKey: string -> string,
    calls: seq<Call>, raw: string, now: Epoch)
    requires !IsHex32Bytes(Lower(raw)) && !verify(decoy(hashKey(Lower(raw)), now))
    ensures !verify(Answer(After(verify, calls).table, decoy, hashKey, raw, now))
            <==> hashKey(Lower(raw)) !in After(verify, calls).table
    ensures Answer(After(verify, calls).table, decoy, hashKey, raw, now) == decoy(hashKey(Lower(raw)), now)
            <==> hashKey(Lower(raw)) !in After(verify, calls).table
  {
    ReachableIsSound(verify, calls);
  }

  /** An API key as minted: twenty bytes in lowercase hex. */
  predicate IsApiKey(key: string) {
    |key| == 40 && forall i :: 0 <= i < |key| ==> IsDigit(key[i]) || 'a' <= key[i] <= 'f'
  }

  /** An API key is not a key hash, yet looking one up finds the record reported under its hash: the
      answer is real, and not a decoy. */
  lemma ApiKeyFindsItsRecord(
    verify: EndpointRecord -> bool, decoy: (string, Epoch) -> EndpointRecord, hashKey: string -> string,
    key: string, record: EndpointRecord, now: Epoch)
    requires IsApiKey(key) && IsHex32Bytes(hashKey(key)) && Lower(hashKey(key)) == hashKey(key)
    requires verify(record) && !TooFarAhead(record, now)
    ensures var table := After(verify, [Call(hashKey(key), record, now)]).table;
            !IsHex32Bytes(Lower(key)) && Answer(table, decoy, hashKey, key, now) == record
  {
    var calls := [Call(hashKey(key), record, now)];
    assert Lower(key) == key;
    assert calls[..0] == [];
    assert After(verify, calls) == Step(verify, EMPTY, calls[0]).0;
  }

  // ----- sweeps

  /** Sweeping is exactly what moves `lastSweepAt`. */
  predicate Sweeps(verify: EndpointRecord -> bool, s: Records, c: Call) {
    Step(verify, s, c).0.lastSweepAt != s.lastSweepAt
  }

  lemma SweepStep(verify: EndpointRecord -> bool, s: Records, c: Call)
    ensures Sweeps(verify, s, c) ==> Step(verify, s, c).0.lastSweepAt == c.now
                                     && c.now >= s.lastSweepAt + SWEEP_INTERVAL_SECS
    ensures !Sweeps(verify, s, c) ==> s.table.Keys <= Step(verify, s, c).0.table.Keys
  {
  }

  function SweepCount(verify: EndpointRecord -> bool, calls: seq<Call>): nat {
    if calls == [] then 0
    else
      SweepCount(verify, calls[..|calls| - 1])
      + if Sweeps(verify, After(verify, calls[..|calls| - 1]), calls[|calls| - 1]) then 1 else 0
  }

  /** However many reports flood a full table, the sweeps they cause are paid for by the clock:
      `n` sweeps need a clock of at least `n` intervals. */
  lemma {:induction false} SweepBudget(verify: EndpointRecord -> bool, calls: seq<Call>)
    ensures SweepCount(verify, calls) * SWEEP_INTERVAL_SECS <= After(verify, calls).lastSweepAt
    ensures After(verify, calls).lastSweepAt == 0
            || exists c :: c in calls && c.now == After(verify, calls).lastSweepAt
  {
    if calls != [] {
      var front, c := calls[..|calls| - 1], calls[|calls| - 1];
      SweepBudget(verify, front);
      SweepStep(verify, After(verify, front), c);
      assert forall d :: d in front ==> d in calls;
      assert c in calls;
    }
  }

  lemma {:induction false} LastSweepGrows(verify: EndpointRecord -> bool, calls: seq<Call>, i: nat, j: nat)
    requires i <= j <= |calls|
    ensures At(verify, calls, i).lastSweepAt <= At(verify, calls, j).lastSweepAt
    decreases j
  {
    if i < j {
      LastSweepGrows(verify, calls, i, j - 1);
      AtNext(verify, calls, j - 1);
      SweepStep(verify, At(verify, calls, j - 1), calls[j - 1]);
    }
  }

  /** Any two sweeps of a run are at least the interval apart on their own clocks. */
  lemma SweepsApart(verify: EndpointRecord -> bool, calls: seq<Call>, i: nat, j: nat)
    requires i < j < |calls|
    requires Sweeps(verify, At(verify, calls, i), calls[i])
    requires Sweeps(verify, At(verify, calls, j), calls[j])
    ensures calls[j].now - calls[i].now >= SWEEP_INTERVAL_SECS
  {
    SweepStep(verify, At(verify, calls, i), calls[i]);
    SweepStep(verify, At(verify, calls, j), calls[j]);
    AtNext(verify, calls, i);
    LastSweepGrows(verify, calls, i + 1, j);
  }

  // ----- pinning

  ghost predicate HeldAt(verify: EndpointRecord -> bool, calls: seq<Call>, i: nat, k: string)
    requires i <= |calls|
  {
    k in At(verify, calls, i).table
  }

  /** The record under `k` is past its TTL on the clock of step `m`. */
  ghost predicate LapsedAt(verify: EndpointRecord -> bool, calls: seq<Call>, m: nat, k: string)
    requires m < |calls|
  {
    HeldAt(verify, calls, m, k) && Expired(At(verify, calls, m).table[k], calls[m].now)
  }

  /** A holder whose record never reaches its TTL is never displaced: the slot stays occupied,
      by the same keypair, by a record no older. */
  lemma {:induction false} NeverDisplaced(
    verify: EndpointRecord -> bool, calls: seq<Call>, i: nat, j: nat, k: string)
    requires i <= j <= |calls| && HeldAt(verify, calls, i, k)
    requires forall m :: i <= m < j ==> !LapsedAt(verify, calls, m, k)
    ensures HeldAt(verify, calls, j, k)
    ensures var before, after := At(verify, calls, i).table[k], At(verify, calls, j).table[k];
            SameKeypair(before, after) && before.signedAt <= after.signedAt
    decreases j
  {
    if i < j {
      NeverDisplaced(verify, calls, i, j - 1, k);
      AtNext(verify, calls, j - 1);
      assert !LapsedAt(verify, calls, j - 1, k);
      if Lower(calls[j - 1].keyHash) != k {
        OthersUntouched(verify, At(verify, calls, j - 1), calls[j - 1], k);
      }
    }
  }

  /** A slot's keypair changes only across a step whose clock found the record then held past
      its TTL, whether it was overwritten in place or swept and reclaimed. */
  lemma PubkeyChangeNeedsLapse(
    verify: EndpointRecord -> bool, calls: seq<Call>, i: nat, j: nat, k: string)
    requires i <= j <= |calls| && HeldAt(verify, calls, i, k) && HeldAt(verify, calls, j, k)
    requires !SameKeypair(At(verify, calls, i).table[k], At(verify, calls, j).table[k])
    ensures exists m :: i <= m < j && LapsedAt(verify, calls, m, k)
  {
    if forall m :: i <= m < j ==> !LapsedAt(verify, calls, m, k) {
      NeverDisplaced(verify, calls, i, j, k);
    }
  }

  /** The other direction, on one step: a genuine, newer, not-too-future report by a different
      keypair takes an occupied slot exactly when the record there has lapsed. */
  lemma TakeoverIffLapsed(verify: EndpointRecord -> bool, s: Records, c: Call)
    requires var k := Lower(c.keyHash);
             && IsHex32Bytes(k) && k in s.table && !SameKeypair(s.table[k], c.record)
             && verify(c.record) && !TooFarAhead(c.record, c.now)
             && s.table[k].signedAt < c.record.signedAt
    ensures Step(verify, s, c).1 == Accepted <==> Expired(s.table[Lower(c.keyHash)], c.now)
    ensures Step(verify, s, c).0.table[Lower(c.keyHash)]
            == if Expired(s.table[Lower(c.keyHash)], c.now) then c.record else s.table[Lower(c.keyHash)]
  {
  }

  // ----- freshness

  /** Step `m` is the last accepted report under `k`. */
  ghost predicate LastAccept(verify: EndpointRecord -> bool, calls: seq<Call>, k: string, m: nat) {
    && m < |calls|
    && AcceptedAt(verify, calls, m, k)
    && (forall x :: m < x < |calls| ==> !AcceptedAt(verify, calls, x, k))
  }

  lemma AcceptedPrefix(verify: EndpointRecord -> bool, calls: seq<Call>, n: nat, m: nat, k: string)
    requires m < n <= |calls|
    ensures AcceptedAt(verify, calls[..n], m, k) == AcceptedAt(verify, calls, m, k)
  {
    assert calls[..n][..m] == calls[..m];
  }

  lemma HeldPrefix(verify: EndpointRecord -> bool, calls: seq<Call>, n: nat, x: nat, k: string)
    requires x <= n <= |calls|
    ensures HeldAt(verify, calls[..n], x, k) == HeldAt(verify, calls, x, k)
  {
    assert calls[..n][..x] == calls[..x];
  }

  /** What a step does to a slot that is not its own accepted one. */
  lemma SlotKeptUnlessAccepted(verify: EndpointRecord -> bool, s: Records, c: Call, k: string)
    requires !(Lower(c.keyHash) == k && Step(verify, s, c).1 == Accepted)
    ensures k in Step(verify, s, c).0.table
            ==> k in s.table && Step(verify, s, c).0.table[k] == s.table[k]
  {
  }

  /** Whatever is stored is the last record accepted under its key hash, and the slot has been
      occupied ever since it was. */
  lemma {:induction false} StoredIsLastAccepted(verify: EndpointRecord -> bool, calls: seq<Call>, k: string)
    returns (m: nat)
    requires k in After(verify, calls).table
    ensures LastAccept(verify, calls, k, m) && After(verify, calls).table[k] == calls[m].record
    ensures forall x :: m < x <= |calls| ==> HeldAt(verify, calls, x, k)
  {
    var n := |calls| - 1;
    var front := calls[..n];
    assert At(verify, calls, n) == After(verify, front);
    assert calls[..|calls|] == calls;
    if AcceptedAt(verify, calls, n, k) {
      m := n;
      LowerIdempotent(calls[n].keyHash);
    } else {
      SlotKeptUnlessAccepted(verify, After(verify, front), calls[n], k);
      m := StoredIsLastAccepted(verify, front, k);
      AcceptedPrefix(verify, calls, n, m, k);
      forall x | m < x < |calls| ensures !AcceptedAt(verify, calls, x, k) {
        if x < n { AcceptedPrefix(verify, calls, n, x, k); }
      }
      forall x | m < x <= |calls| ensures HeldAt(verify, calls, x, k) {
        if x <= n { HeldPrefix(verify, calls, n, x, k); }
      }
    }
  }

  lemma LastAcceptUnique(verify: EndpointRecord -> bool, calls: seq<Call>, k: string, m: nat, n: nat)
    requires LastAccept(verify, calls, k, m) && LastAccept(verify, calls, k, n)
    ensures m == n
  {
  }

  lemma SlotNeverOlder(verify: EndpointRecord -> bool, s: Records, c: Call, k: string)
    requires k in s.table && k in Step(verify, s, c).0.table
    ensures s.table[k].signedAt <= Step(verify, s, c).0.table[k].signedAt
  {
  }

  lemma NewerByOne(verify: EndpointRecord -> bool, calls: seq<Call>, i: nat, k: string)
    requires i < |calls| && HeldAt(verify, calls, i, k) && HeldAt(verify, calls, i + 1, k)
    ensures At(verify, calls, i).table[k].signedAt <= At(verify, calls, i + 1).table[k].signedAt
  {
    AtNext(verify, calls, i);
    SlotNeverOlder(verify, At(verify, calls, i), calls[i], k);
  }

  lemma {:induction false} NewerWhileOccupied(
    verify: EndpointRecord -> bool, calls: seq<Call>, i: nat, j: nat, k: string)
    requires i <= j <= |calls|
    requires forall x :: i <= x <= j ==> HeldAt(verify, calls, x, k)
    ensures HeldAt(verify, calls, i, k) && HeldAt(verify, calls, j, k)
    ensures At(verify, calls, i).table[k].signedAt <= At(verify, calls, j).table[k].signedAt
    decreases j
  {
    assert HeldAt(verify, calls, i, k) && HeldAt(verify, calls, j, k);
    if i < j {
      NewerWhileOccupied(verify, calls, i, j - 1, k);
      NewerByOne(verify, calls, j - 1, k);
    }
  }

  /** While a slot stays occupied, each accepted report is signed strictly later than the one
      accepted before it. */
  lemma AcceptedStrictlyNewer(
    verify: EndpointRecord -> bool, calls: seq<Call>, m: nat, n: nat, k: string)
    requires m < n < |calls|
    requires AcceptedAt(verify, calls, m, k) && AcceptedAt(verify, calls, n, k)
    requires forall x :: m < x <= n ==> HeldAt(verify, calls, x, k)
    ensures calls[m].record.signedAt < calls[n].record.signedAt
  {
    AtNext(verify, calls, m);
    NewerWhileOccupied(verify, calls, m + 1, n, k);
    assert HeldAt(verify, calls, n, k);
  }

  /** No slot is locked by a fast clock: once the pinned keypair signs at a time more than the
      skew past the clock that stored the current record, its report is accepted. */
  lemma FastClockRecovers(verify: EndpointRecord -> bool, calls: seq<Call>, k: string, m: nat, c: Call)
    requires k in After(verify, calls).table && LastAccept(verify, calls, k, m)
    requires Lower(c.keyHash) == k && verify(c.record) && !TooFarAhead(c.record, c.now)
    requires SameKeypair(After(verify, calls).table[k], c.record)
    requires calls[m].now + MAX_FUTURE_SKEW_SECS < c.record.signedAt
    ensures Step(verify, After(verify, calls), c).1 == Accepted
  {
    var stored := StoredIsLastAccepted(verify, calls, k);
    LastAcceptUnique(verify, calls, k, m, stored);
    ReachableIsSound(verify, calls);
  }

  /** Occupancy matters: a slot that was swept has forgotten its history. When a report under
      `other` sweeps a lapsed record away, its own keypair may be stored again with an older
      `signedAt`, which the occupied slot would have called stale. */
  lemma SweptSlotAcceptsOlder(verify: EndpointRecord -> bool, s: Records, other: Call, again: Call)
    requires var k := Lower(again.keyHash);
             && IsHex32Bytes(k) && verify(again.record) && !TooFarAhead(again.record, again.now)
             && k in s.table && Expired(s.table[k], other.now)
             && again.record.signedAt <= s.table[k].signedAt
    requires IsHex32Bytes(Lower(other.keyHash)) && verify(other.record)
             && !TooFarAhead(other.record, other.now) && Lower(other.keyHash) !in s.table
    requires |s.table| == MAX_RECORDS && |Unexpired(s.table, other.now)| < MAX_RECORDS - 1
    requires other.now - s.lastSweepAt >= SWEEP_INTERVAL_SECS
    ensures Step(verify, s, again).1 in {Stale, PubkeyMismatch}
    ensures Step(verify, Step(verify, s, other).0, again).1 == Accepted
  {
    var swept := Step(verify, s, other).0;
    assert swept.table == Unexpired(s.table, other.now)[Lower(other.keyHash) := other.record];
    assert Lower(again.keyHash) !in swept.table;
  }

  // ----- a run that gets there

  /** `n` in `width` decimal digits, which are hex digits too. */
  function Numeral(n: nat, width: nat): (r: string)
    ensures |r| == width && forall i :: 0 <= i < |r| ==> IsDigit(r[i])
  {
    if width == 0 then [] else Numeral(n / 10, width - 1) + [('0' as int + n % 10) as char]
  }

  predicate Fits(n: nat, width: nat) {
    if width == 0 then n == 0 else Fits(n / 10, width - 1)
  }

  lemma {:induction false} FitsBelow(m: nat, n: nat, width: nat)
    requires m <= n && Fits(n, width)
    ensures Fits(m, width)
  {
    if width > 0 {
      FitsBelow(m / 10, n / 10, width - 1);
    }
  }

  lemma {:induction false} ZeroFits(width: nat)
    ensures Fits(0, width)
  {
    if width > 0 {
      ZeroFits(width - 1);
    }
  }

  lemma {:induction false} NumeralInjective(m: nat, n: nat, width: nat)
    requires Fits(m, width) && Fits(n, width) && Numeral(m, width) == Numeral(n, width)
    ensures m == n
  {
    if width > 0 {
      var a, b := Numeral(m, width), Numeral(n, width);
      assert a[..width - 1] == Numeral(m / 10, width - 1) && b[..width - 1] == Numeral(n / 10, width - 1);
      assert a[width - 1] == b[width - 1];
      NumeralInjective(m / 10, n / 10, width - 1);
    }
  }

  function KeyHash(n: nat): string { Numeral(n, 64) }

  lemma KeyHashes(m: nat, n: nat)
    requires m <= MAX_RECORDS && n <= MAX_RECORDS
    ensures IsHex32Bytes(KeyHash(n)) && Lower(KeyHash(n)) == KeyHash(n)
    ensures KeyHash(m) == KeyHash(n) ==> m == n
  {
    ZeroFits(59);
    assert Fits(1, 60) && Fits(10, 61) && Fits(100, 62) && Fits(1000, 63) && Fits(10_000, 64);
    FitsBelow(m, MAX_RECORDS, 64);
    FitsBelow(n, MAX_RECORDS, 64);
    if KeyHash(m) == KeyHash(n) {
      NumeralInjective(m, n, 64);
    }
  }

  /** The same record reported under `n` key hashes at the epoch. */
  function Filling(r: EndpointRecord, n: nat): seq<Call> {
    if n == 0 then [] else Filling(r, n - 1) + [Call(KeyHash(n - 1), r, 0)]
  }

  function Filled(r: EndpointRecord, n: nat): (t: map<string, EndpointRecord>)
    ensures n > 0 ==> KeyHash(0) in t
    ensures forall k :: k in t ==> t[k] == r
  {
    if n == 0 then map[] else Filled(r, n - 1)[KeyHash(n - 1) := r]
  }

  lemma {:induction false} NotYetFilled(r: EndpointRecord, n: nat, m: nat)
    requires n <= m <= MAX_RECORDS
    ensures KeyHash(m) !in Filled(r, n)
  {
    if n > 0 {
      NotYetFilled(r, n - 1, m);
      KeyHashes(n - 1, m);
    }
  }

  /** A key hash nobody holds, while there is room. */
  lemma PlainInsert(verify: EndpointRecord -> bool, s: Records, k: string, r: EndpointRecord)
    requires IsHex32Bytes(k) && Lower(k) == k && k !in s.table && |s.table| < MAX_RECORDS
    requires verify(r) && r.signedAt == 0
    ensures Step(verify, s, Call(k, r, 0)).0 == s.(table := s.table[k := r])
    ensures |s.table[k := r]| == |s.table| + 1
  {
    assert s.table[k := r].Keys == s.table.Keys + {k};
    assert |s.table.Keys + {k}| == |s.table.Keys| + 1;
  }

  lemma {:induction false} FilledTo(verify: EndpointRecord -> bool, r: EndpointRecord, n: nat)
    requires verify(r) && r.signedAt == 0 && n <= MAX_RECORDS
    ensures |Filled(r, n)| == n && After(verify, Filling(r, n)) == Records(Filled(r, n), 0)
  {
    if n > 0 {
      FilledTo(verify, r, n - 1);
      NotYetFilled(r, n - 1, n - 1);
      KeyHashes(n - 1, n - 1);
      PlainInsert(verify, Records(Filled(r, n - 1), 0), KeyHash(n - 1), r);
      var calls := Filling(r, n);
      assert calls[..|calls| - 1] == Filling(r, n - 1);
    }
  }

  /** `SweptSlotAcceptsOlder` is about runs that happen: a table filled at the epoch answers a
      second report of the same record with `Stale` a TTL later, and accepts that very report once
      another one has swept. */
  lemma SweptRunAcceptsOlder(verify: EndpointRecord -> bool, r: EndpointRecord)
    requires verify(r) && r.signedAt == 0
    ensures var full := After(verify, Filling(r, MAX_RECORDS));
            var other := Call(KeyHash(MAX_RECORDS), r, RECORD_TTL_SECS);
            var again := Call(KeyHash(0), r, RECORD_TTL_SECS);
            && Step(verify, full, again).1 == Stale
            && Step(verify, Step(verify, full, other).0, again).1 == Accepted
  {
    var full := After(verify, Filling(r, MAX_RECORDS));
    var other, again := Call(KeyHash(MAX_RECORDS), r, RECORD_TTL_SECS), Call(KeyHash(0), r, RECORD_TTL_SECS);
    FilledTo(verify, r, MAX_RECORDS);
    NotYetFilled(r, MAX_RECORDS, MAX_RECORDS);
    KeyHashes(0, MAX_RECORDS);
    KeyHashes(0, 0);
    assert Unexpired(full.table, RECORD_TTL_SECS) == map[];
    SweptSlotAcceptsOlder(verify, full, other, again);
  }
}
