/** Bytes moved: an instance total and each friend's own figures, written in one transaction. */
module Transfers {
  import opened Basics

  datatype Bytes = Bytes(down: int, up: int)

  const ZERO := Bytes(0, 0)

  function Plus(a: Bytes, b: Bytes): Bytes { Bytes(a.down + b.down, a.up + b.up) }

  datatype PeerRow = PeerRow(id: int, moved: Bytes)

  /** The `transfer_totals` row and the figures on the peer rows. */
  datatype Ledger = Ledger(total: Bytes, peers: seq<PeerRow>)

  datatype Action =
    | Create(id: int)
    | Delete(id: int)
    | Transfer(peer: Option<int>, down: U64, up: U64)

  predicate Has(peers: seq<PeerRow>, id: int) {
    exists i :: 0 <= i < |peers| && peers[i].id == id
  }

  /** A reported delta as the column type stores it. */
  function Delta(down: U64, up: U64): Bytes {
    Bytes(Saturate(down), Saturate(up))
  }

  /** `UPDATE peers SET downloaded = downloaded + ?, ... WHERE id = ?`. */
  function Credit(peers: seq<PeerRow>, id: int, d: Bytes): seq<PeerRow> {
    if peers == [] then []
    else
      var p := peers[0];
      [if p.id == id then PeerRow(id, Plus(p.moved, d)) else p] + Credit(peers[1..], id, d)
  }

  /** `DELETE FROM peers WHERE id = ?`. */
  function Without(peers: seq<PeerRow>, id: int): seq<PeerRow> {
    if peers == [] then []
    else (if peers[0].id == id then [] else [peers[0]]) + Without(peers[1..], id)
  }

  function RecordTransfer(l: Ledger, peer: Option<int>, down: U64, up: U64): Ledger {
    var d := Delta(down, up);
    Ledger(Plus(l.total, d), if peer.Some? then Credit(l.peers, peer.value, d) else l.peers)
  }

  lemma {:induction false} CreditNothing(peers: seq<PeerRow>, id: int)
    ensures Credit(peers, id, ZERO) == peers
  {
    if peers != [] {
      CreditNothing(peers[1..], id);
      assert peers == [peers[0]] + peers[1..];
    }
  }

  class TransferStore {
    var total: Bytes
    var peers: seq<PeerRow>

    constructor ()
      ensures View() == Ledger(ZERO, [])
    {
      total, peers := ZERO, [];
    }

    function View(): Ledger
      reads this
    {
      Ledger(total, peers)
    }

    /** A zero delta writes nothing, which is what adding it would have come to. */
    method Record(peer: Option<int>, down: U64, up: U64)
      modifies this
      ensures View() == RecordTransfer(old(View()), peer, down, up)
    {
      if down == 0 && up == 0 {
        if peer.Some? {
          CreditNothing(peers, peer.value);
        }
        return;
      }
      var d := Bytes(Saturate(down), Saturate(up));
      total := Plus(total, d);
      if peer.Some? {
        peers := Credit(peers, peer.value, d);
      }
    }

    method DeletePeer(id: int) returns (changed: bool)
      modifies this
      ensures View() == Ledger(old(total), Without(old(peers), id)) && changed == Has(old(peers), id)
    {
      changed := Has(peers, id);
      peers := Without(peers, id);
    }
  }

  /** Ids are allocated once, so `Create` of a live one does not happen and changes nothing. */
  function Apply(l: Ledger, a: Action): Ledger {
    match a
    case Create(id) => if Has(l.peers, id) then l else l.(peers := l.peers + [PeerRow(id, ZERO)])
    case Delete(id) => l.(peers := Without(l.peers, id))
    case Transfer(peer, down, up) => RecordTransfer(l, peer, down, up)
  }

  function After(run: seq<Action>): Ledger {
    if run == [] then Ledger(ZERO, [])
    else Apply(After(run[..|run| - 1]), run[|run| - 1])
  }

  // ----- where bytes go, in either direction

  datatype Direction = Downloaded | Uploaded

  function In(b: Bytes, dir: Direction): int {
    if dir.Downloaded? then b.down else b.up
  }

  /** What a report counts for: the bytes said, as far as 64 signed bits go. */
  function Amount(down: U64, up: U64, dir: Direction): int {
    Min(if dir.Downloaded? then down else up, 0x7FFF_FFFF_FFFF_FFFF)
  }

  /** What all live friends hold. */
  function Sum(peers: seq<PeerRow>, dir: Direction): int {
    if peers == [] then 0 else In(peers[0].moved, dir) + Sum(peers[1..], dir)
  }

  /** What the rows of `id` hold: nothing, or its one row's figure. */
  function Figure(peers: seq<PeerRow>, id: int, dir: Direction): int {
    if peers == [] then 0
    else (if peers[0].id == id then In(peers[0].moved, dir) else 0) + Figure(peers[1..], id, dir)
  }

  /** What deleted friends had accumulated when they were deleted. */
  function Departed(run: seq<Action>, dir: Direction): int {
    if run == [] then 0
    else
      var front, a := run[..|run| - 1], run[|run| - 1];
      Departed(front, dir) + if a.Delete? then Figure(After(front).peers, a.id, dir) else 0
  }

  /** What was credited to nobody: unattributed deltas, and those for friends already gone. */
  function Unattributed(run: seq<Action>, dir: Direction): int {
    if run == [] then 0
    else
      var front, a := run[..|run| - 1], run[|run| - 1];
      Unattributed(front, dir)
      + if a.Transfer? && !(a.peer.Some? && Has(After(front).peers, a.peer.value))
        then Amount(a.down, a.up, dir) else 0
  }

  /** Every reported delta, whoever it is for. */
  function Reported(run: seq<Action>, dir: Direction): int {
    if run == [] then 0
    else
      var front, a := run[..|run| - 1], run[|run| - 1];
      Reported(front, dir) + if a.Transfer? then Amount(a.down, a.up, dir) else 0
  }

  ghost predicate UniqueIds(peers: seq<PeerRow>) {
    forall i, j :: 0 <= i < j < |peers| ==> peers[i].id != peers[j].id
  }

  lemma HasTail(peers: seq<PeerRow>, id: int)
    requires peers != []
    ensures Has(peers, id) <==> peers[0].id == id || Has(peers[1..], id)
    ensures UniqueIds(peers) ==> UniqueIds(peers[1..]) && !Has(peers[1..], peers[0].id)
  {
    assert forall i :: 0 <= i < |peers[1..]| ==> peers[1..][i] == peers[i + 1];
    if Has(peers, id) && peers[0].id != id {
      var i :| 0 <= i < |peers| && peers[i].id == id;
      assert peers[1..][i - 1].id == id;
    }
  }

  lemma {:induction false} CreditTo(peers: seq<PeerRow>, id: int, d: Bytes)
    ensures |Credit(peers, id, d)| == |peers|
    ensures forall i :: 0 <= i < |peers| ==>
              Credit(peers, id, d)[i]
              == if peers[i].id == id
                 then PeerRow(id, Bytes(peers[i].moved.down + d.down, peers[i].moved.up + d.up)) else peers[i]
  {
    if peers != [] {
      CreditTo(peers[1..], id, d);
    }
  }

  lemma {:induction false} WithoutKeepsUnique(peers: seq<PeerRow>, id: int)
    requires UniqueIds(peers)
    ensures UniqueIds(Without(peers, id))
    ensures forall x :: Has(Without(peers, id), x) <==> Has(peers, x) && x != id
  {
    if peers != [] {
      var head, tail := peers[0], Without(peers[1..], id);
      HasTail(peers, id);
      WithoutKeepsUnique(peers[1..], id);
      var r := Without(peers, id);
      forall x ensures Has(r, x) <==> Has(peers, x) && x != id {
        HasTail(peers, x);
        if head.id == id {
          assert r == tail;
        } else {
          HasTail(r, x);
          assert r[1..] == tail;
        }
      }
      assert head.id != id ==> r == [head] + tail && !Has(tail, head.id);
    }
  }

  lemma {:induction false} UniqueAlways(run: seq<Action>)
    ensures UniqueIds(After(run).peers)
  {
    if run != [] {
      var front, a := run[..|run| - 1], run[|run| - 1];
      UniqueAlways(front);
      var peers := After(front).peers;
      if a.Delete? {
        WithoutKeepsUnique(peers, a.id);
      } else if a.Transfer? && a.peer.Some? {
        CreditTo(peers, a.peer.value, Delta(a.down, a.up));
      }
    }
  }

  // ----- whose bytes they are

  /** Whether a friend exists, from what was done to them alone. */
  predicate Exists(run: seq<Action>, id: int) {
    if run == [] then false
    else
      match run[|run| - 1]
      case Create(i) => i == id || Exists(run[..|run| - 1], id)
      case Delete(i) => i != id && Exists(run[..|run| - 1], id)
      case Transfer(_, _, _) => Exists(run[..|run| - 1], id)
  }

  /** What was reported for a friend since they were created. */
  function Own(run: seq<Action>, id: int, dir: Direction): int {
    if !Exists(run, id) then 0
    else
      var front, a := run[..|run| - 1], run[|run| - 1];
      if a.Transfer? && a.peer == Some(id) then Own(front, id, dir) + Amount(a.down, a.up, dir)
      else Own(front, id, dir)
  }

  /** A transfer for one friend leaves every other friend's row as it was. */
  lemma OtherFriendsUntouched(l: Ledger, peer: Option<int>, down: U64, up: U64, i: nat)
    requires i < |l.peers| && peer != Some(l.peers[i].id)
    ensures |RecordTransfer(l, peer, down, up).peers| == |l.peers|
    ensures RecordTransfer(l, peer, down, up).peers[i] == l.peers[i]
  {
    if peer.Some? {
      CreditTo(l.peers, peer.value, Delta(down, up));
    }
  }

  lemma {:induction false} LiveRows(run: seq<Action>, id: int)
    ensures Has(After(run).peers, id) <==> Exists(run, id)
  {
    if run != [] {
      var front, a := run[..|run| - 1], run[|run| - 1];
      LiveRows(front, id);
      var peers, after := After(front).peers, After(run).peers;
      match a
      case Create(i) =>
        if !Has(peers, i) {
          HasMore(peers, i, id);
        }
      case Delete(i) =>
        UniqueAlways(front);
        WithoutKeepsUnique(peers, i);
      case Transfer(peer, down, up) =>
        if peer.Some? {
          CreditTo(peers, peer.value, Delta(down, up));
          assert forall i :: 0 <= i < |peers| ==> after[i].id == peers[i].id;
        }
    }
  }

  lemma HasMore(peers: seq<PeerRow>, i: int, id: int)
    ensures Has(peers + [PeerRow(i, ZERO)], id) <==> i == id || Has(peers, id)
  {
    var more := peers + [PeerRow(i, ZERO)];
    assert more[|peers|].id == i;
    if Has(peers, id) {
      var j :| 0 <= j < |peers| && peers[j].id == id;
      assert more[j].id == id;
    }
  }

  lemma {:induction false} WithoutHolds(peers: seq<PeerRow>, id: int, p: PeerRow)
    ensures p in Without(peers, id) <==> p in peers && p.id != id
  {
    if peers != [] {
      WithoutHolds(peers[1..], id, p);
      assert p in peers <==> p == peers[0] || p in peers[1..];
    }
  }

  /** A row's two figures, both columns named. */
  ghost predicate HoldsOwn(run: seq<Action>, p: PeerRow) {
    p.moved.down == Own(run, p.id, Downloaded) && p.moved.up == Own(run, p.id, Uploaded)
  }

  lemma CreatedHoldsOwn(front: seq<Action>, id: int, p: PeerRow)
    requires p in After(front + [Create(id)]).peers
    requires p in After(front).peers ==> HoldsOwn(front, p)
    ensures HoldsOwn(front + [Create(id)], p)
  {
    var run, peers := front + [Create(id)], After(front).peers;
    assert run[..|run| - 1] == front;
    if p in peers {
      var i :| 0 <= i < |peers| && peers[i] == p;
      LiveRows(front, p.id);
    } else {
      LiveRows(front, id);
      assert p == PeerRow(id, ZERO) && !Exists(front, id);
    }
  }

  lemma CreditedHoldsOwn(front: seq<Action>, peer: Option<int>, down: U64, up: U64, i: nat)
    requires i < |After(front).peers| && HoldsOwn(front, After(front).peers[i])
    ensures var run := front + [Transfer(peer, down, up)];
            |After(run).peers| == |After(front).peers| && HoldsOwn(run, After(run).peers[i])
  {
    var run, peers := front + [Transfer(peer, down, up)], After(front).peers;
    assert run[..|run| - 1] == front;
    assert Has(peers, peers[i].id);
    LiveRows(front, peers[i].id);
    if peer.Some? {
      CreditTo(peers, peer.value, Delta(down, up));
    }
  }

  lemma DeletedHoldsOwn(front: seq<Action>, id: int, p: PeerRow)
    requires p in After(front + [Delete(id)]).peers
    requires p in After(front).peers ==> HoldsOwn(front, p)
    ensures p in After(front).peers && HoldsOwn(front + [Delete(id)], p)
  {
    var run, peers := front + [Delete(id)], After(front).peers;
    assert run[..|run| - 1] == front;
    WithoutHolds(peers, id, p);
    var i :| 0 <= i < |peers| && peers[i] == p;
    LiveRows(front, p.id);
  }

  /** Over every run each live friend's row holds, in each direction, exactly what was reported for
      that friend since it was created. */
  lemma {:induction false} RowsHoldTheirOwn(run: seq<Action>, p: PeerRow)
    requires p in After(run).peers
    ensures HoldsOwn(run, p)
  {
    var front, a := run[..|run| - 1], run[|run| - 1];
    assert run == front + [a];
    var peers := After(front).peers;
    match a
    case Create(id) =>
      if p in peers {
        RowsHoldTheirOwn(front, p);
      }
      CreatedHoldsOwn(front, id, p);
    case Delete(id) =>
      if p in peers {
        RowsHoldTheirOwn(front, p);
      }
      DeletedHoldsOwn(front, id, p);
    case Transfer(peer, down, up) =>
      var i :| 0 <= i < |After(run).peers| && After(run).peers[i] == p;
      if peer.Some? {
        CreditTo(peers, peer.value, Delta(down, up));
      }
      RowsHoldTheirOwn(front, peers[i]);
      CreditedHoldsOwn(front, peer, down, up, i);
  }

  lemma {:induction false} SumCredited(peers: seq<PeerRow>, id: int, d: Bytes, dir: Direction)
    requires UniqueIds(peers)
    ensures Sum(Credit(peers, id, d), dir) == Sum(peers, dir) + if Has(peers, id) then In(d, dir) else 0
  {
    if peers != [] {
      HasTail(peers, id);
      SumCredited(peers[1..], id, d, dir);
      assert Credit(peers, id, d)[1..] == Credit(peers[1..], id, d);
    }
  }

  lemma {:induction false} SumWithout(peers: seq<PeerRow>, id: int, dir: Direction)
    ensures Sum(Without(peers, id), dir) + Figure(peers, id, dir) == Sum(peers, dir)
  {
    if peers != [] {
      SumWithout(peers[1..], id, dir);
      var r, tail := Without(peers, id), Without(peers[1..], id);
      if peers[0].id == id {
        assert r == tail;
      } else {
        assert r[0] == peers[0] && r[1..] == tail;
      }
    }
  }

  lemma {:induction false} SumCreated(peers: seq<PeerRow>, id: int, dir: Direction)
    ensures Sum(peers + [PeerRow(id, ZERO)], dir) == Sum(peers, dir)
  {
    var more := peers + [PeerRow(id, ZERO)];
    if peers == [] {
      assert more[1..] == [];
    } else {
      SumCreated(peers[1..], id, dir);
      assert more[1..] == peers[1..] + [PeerRow(id, ZERO)];
    }
  }

  /** Bytes are conserved over every run, in both directions: the instance total is everything
      reported, and it is what live friends hold, plus what deleted ones had, plus what was
      credited to nobody. */
  lemma {:induction false} BytesAreConserved(run: seq<Action>, dir: Direction)
    ensures After(run).total == Bytes(Reported(run, Downloaded), Reported(run, Uploaded))
    ensures In(After(run).total, dir) == Reported(run, dir)
    ensures In(After(run).total, dir)
            == Sum(After(run).peers, dir) + Departed(run, dir) + Unattributed(run, dir)
  {
    if run != [] {
      var front, a := run[..|run| - 1], run[|run| - 1];
      BytesAreConserved(front, dir);
      UniqueAlways(front);
      var peers := After(front).peers;
      match a
      case Create(id) => SumCreated(peers, id, dir);
      case Delete(id) => SumWithout(peers, id, dir);
      case Transfer(peer, down, up) =>
        if peer.Some? {
          SumCredited(peers, peer.value, Delta(down, up), dir);
        }
    }
  }
}
