/**
 * `touch_peer` under concurrency. One call is two database statements with nothing held between
 * them: a read of `last_seen_at`, then a conditional update chosen by what was read. Any number
 * of calls, each with its own clock reading, interleave statement by statement, and the peer may
 * be deleted at any point.
 */
module TouchPeer {
  import opened Basics

  const TOUCH_WINDOW_SECS := 300

  datatype Touch = First | Refreshed | Throttled

  /** The peer's row. `lastSeen` is NULL until the first contact. */
  datatype Row = Gone | Present(lastSeen: Option<int>)

  /** Where one call stands. */
  datatype Caller =
    | Fresh(now: Epoch)
    | HasRead(now: Epoch, seen: Option<int>)
    | Answered(now: Epoch, touch: Touch)

  datatype System = System(row: Row, callers: seq<Caller>)

  datatype Action = Step(caller: nat) | Delete

  /** `SELECT last_seen_at`, flattened: a missing row reads as never seen. */
  function SeenBy(row: Row): Option<int> {
    if row.Present? then row.lastSeen else None
  }

  predicate WithinWindow(seen: Option<int>, now: Epoch) {
    seen.Some? && seen.value >= now - TOUCH_WINDOW_SECS
  }

  /** The conditional `UPDATE`: the row after it, and whether it matched. */
  function Update(row: Row, seen: Option<int>, now: Epoch): (Row, bool) {
    if row.Gone? then (row, false)
    else if seen.None? then
      if row.lastSeen.None? then (Present(Some(now)), true) else (row, false)
    else if row.lastSeen.Some? && row.lastSeen.value < now - TOUCH_WINDOW_SECS then
      (Present(Some(now)), true)
    else (row, false)
  }

  /** What one call does next. */
  function Next(row: Row, c: Caller): (Row, Caller) {
    match c
    case Fresh(now) =>
      var seen := SeenBy(row);
      if WithinWindow(seen, now) then (row, Answered(now, Throttled)) else (row, HasRead(now, seen))
    case HasRead(now, seen) =>
      var (row', changed) := Update(row, seen, now);
      (row', Answered(now, if !changed then Throttled else if seen.None? then First else Refreshed))
    case Answered(_, _) => (row, c)
  }

  function Act(s: System, a: Action): System {
    match a
    case Delete => s.(row := Gone)
    case Step(i) =>
      if i >= |s.callers| then s
      else
        var (row', c') := Next(s.row, s.callers[i]);
        System(row', s.callers[i := c'])
  }

  function Run(s: System, schedule: seq<Action>): System {
    if schedule == [] then s
    else Act(Run(s, schedule[..|schedule| - 1]), schedule[|schedule| - 1])
  }

  /** A never-seen peer, and calls that have not started. */
  ghost predicate Initial(s: System) {
    s.row == Present(None) && forall i :: 0 <= i < |s.callers| ==> s.callers[i].Fresh?
  }

  /** The call as written, with no one else running: read, decide, update. */
  class PeerRow {
    var row: Row

    constructor (row: Row)
      ensures this.row == row
    {
      this.row := row;
    }

    method TouchPeer(now: Epoch) returns (t: Touch)
      modifies this
      ensures var (row1, c1) := Next(old(row), Fresh(now));
              var (row2, c2) := Next(row1, c1);
              row == row2 && c2 == Answered(now, t)
      ensures match old(row)
              case Gone => row == Gone && t == Throttled
              case Present(None) => row == Present(Some(now)) && t == First
              case Present(Some(seen)) =>
                if seen < now - 300 then row == Present(Some(now)) && t == Refreshed
                else row == old(row) && t == Throttled
    {
      var seen := SeenBy(row);
      if WithinWindow(seen, now) {
        return Throttled;
      }
      var (after, changed) := Update(row, seen, now);
      row := after;
      t := if !changed then Throttled else if seen.None? then First else Refreshed;
    }
  }

  function Answers(s: System, t: Touch): set<nat> {
    set i | 0 <= i < |s.callers| && s.callers[i].Answered? && s.callers[i].touch == t
  }

  // ----- one step

  /** `last_seen_at` never moves back. A `Refreshed` write moves it by more than the window, a
      `First` one only leaves NULL, and anything else leaves it alone. */
  lemma StepMovesForward(row: Row, c: Caller)
    requires !c.Answered?
    ensures var (row', c') := Next(row, c);
            && row'.Present? == row.Present?
            && (row.Present? && row.lastSeen.Some? ==>
                  row'.lastSeen.Some? && row.lastSeen.value <= row'.lastSeen.value)
            && (c' == Answered(c.now, Refreshed) ==>
                  row.Present? && row.lastSeen.Some? && row'.lastSeen == Some(c.now)
                  && c.now > row.lastSeen.value + TOUCH_WINDOW_SECS)
            && (c' == Answered(c.now, First) ==>
                  row == Present(None) && row' == Present(Some(c.now)))
            && (row' != row ==> c'.Answered? && c'.touch != Throttled)
  {
  }

  /** The read: a sighting less than the window old ends the call, anything else is remembered. */
  lemma ReadDecides(row: Row, now: Epoch)
    ensures Next(row, Fresh(now))
            == match row
               case Gone => (row, HasRead(now, None))
               case Present(None) => (row, HasRead(now, None))
               case Present(Some(at)) =>
                 (row, if now - at <= 300 then Answered(now, Throttled) else HasRead(now, Some(at)))
  {
  }

  /** The update, whatever the row has become since the read: a caller that saw NULL is the first
      contact exactly if it still is NULL, and one that saw a time refreshes exactly if the row is
      still more than the window behind its clock. Otherwise nothing is written. */
  lemma UpdateDecides(row: Row, now: Epoch, seen: Option<int>)
    ensures Next(row, HasRead(now, seen))
            == if seen == None && row == Present(None) then (Present(Some(now)), Answered(now, First))
               else if seen != None && row.Present? && row.lastSeen.Some? && now - row.lastSeen.value > 300
               then (Present(Some(now)), Answered(now, Refreshed))
               else (row, Answered(now, Throttled))
  {
  }

  /** An uninterrupted call on a present row, in seconds. */
  lemma CallDecides(row: Row, now: Epoch)
    requires row.Present?
    ensures var (row1, c1) := Next(row, Fresh(now));
            var (row2, c2) := Next(row1, c1);
            && c2.Answered?
            && (c2.touch == First <==> row.lastSeen == None)
            && (c2.touch == Refreshed <==> row.lastSeen.Some? && row.lastSeen.value < now - 300)
            && row2 == if c2.touch == Throttled then row else Present(Some(now))
  {
    ReadDecides(row, now);
    var (row1, c1) := Next(row, Fresh(now));
    if c1.HasRead? {
      UpdateDecides(row1, now, c1.seen);
    }
  }

  // ----- every interleaving

  predicate NothingSeen(c: Caller) {
    c.Fresh? || (c.HasRead? && c.seen.None?)
  }

  /** Whoever read NULL and is still to update did so of a row that may have changed since; the
      guard in the update is what decides. */
  ghost predicate Inv(s: System) {
    && |Answers(s, First)| <= 1
    && (s.row.Present? ==> (|Answers(s, First)| == 1 <==> s.row.lastSeen.Some?))
    && (s.row == Present(None) ==>
          forall i :: 0 <= i < |s.callers| ==> NothingSeen(s.callers[i]))
  }

  lemma AnswersAfter(s: System, i: nat, t: Touch)
    requires i < |s.callers| && !s.callers[i].Answered?
    ensures var (row', c') := Next(s.row, s.callers[i]);
            Answers(Act(s, Step(i)), t)
            == if c' == Answered(s.callers[i].now, t) then Answers(s, t) + {i} else Answers(s, t)
    ensures i !in Answers(s, t)
  {
  }

  lemma StepKeepsInv(s: System, a: Action)
    requires Inv(s)
    ensures Inv(Act(s, a))
  {
    match a
    case Delete =>
      assert Answers(Act(s, a), First) == Answers(s, First);
    case Step(i) =>
      if i < |s.callers| {
        if s.callers[i].Answered? {
          assert Act(s, a) == s;
        } else {
          StepMovesForward(s.row, s.callers[i]);
          AnswersAfter(s, i, First);
        }
      }
  }

  lemma {:induction false} RunKeepsInv(s: System, schedule: seq<Action>)
    requires Initial(s)
    ensures Inv(Run(s, schedule)) && |Run(s, schedule).callers| == |s.callers|
  {
    if schedule == [] {
      assert Answers(s, First) == {};
    } else {
      RunKeepsInv(s, schedule[..|schedule| - 1]);
      StepKeepsInv(Run(s, schedule[..|schedule| - 1]), schedule[|schedule| - 1]);
    }
  }

  /** In every interleaving at most one call answers `First`; while the peer is not deleted,
      exactly one does as soon as any call has finished. */
  lemma FirstContactIsUnique(s: System, schedule: seq<Action>)
    requires Initial(s)
    ensures var end := Run(s, schedule);
            && |Answers(end, First)| <= 1
            && (forall i, j :: i in Answers(end, First) && j in Answers(end, First) ==> i == j)
            && (end.row.Present? && (exists i :: 0 <= i < |end.callers| && end.callers[i].Answered?)
                ==> |Answers(end, First)| == 1)
  {
    RunKeepsInv(s, schedule);
    var firsts := Answers(Run(s, schedule), First);
    forall i, j | i in firsts && j in firsts ensures i == j {
      if i != j {
        SubsetSize({i, j}, firsts);
      }
    }
  }

  /** Over any stretch of any run, `last_seen_at` never moves back or becomes NULL again. */
  lemma {:induction false} LastSeenNeverMovesBack(s: System, before: seq<Action>, more: seq<Action>)
    ensures var was, now := Run(s, before).row, Run(s, before + more).row;
            was.Present? && was.lastSeen.Some? && now.Present? ==>
              now.lastSeen.Some? && was.lastSeen.value <= now.lastSeen.value
    ensures Run(s, before).row.Gone? ==> Run(s, before + more).row.Gone?
  {
    if more == [] {
      assert before + more == before;
    } else {
      var front, a := more[..|more| - 1], more[|more| - 1];
      LastSeenNeverMovesBack(s, before, front);
      assert (before + more)[..|before + more| - 1] == before + front;
      var mid := Run(s, before + front);
      assert Run(s, before + more) == Act(mid, a);
      if a.Step? && a.caller < |mid.callers| && !mid.callers[a.caller].Answered? {
        StepMovesForward(mid.row, mid.callers[a.caller]);
      }
    }
  }

  /** No refresh is lost: at any point of any run, a caller holding an old time refreshes with its
      next step if the row is still more than the window behind its clock. */
  lemma StaleReadRefreshes(s: System, schedule: seq<Action>, i: nat)
    requires var now := Run(s, schedule);
             && i < |now.callers| && now.callers[i].HasRead? && now.callers[i].seen.Some?
             && now.row.Present? && now.row.lastSeen.Some?
             && now.row.lastSeen.value < now.callers[i].now - 300
    ensures var before, after := Run(s, schedule), Run(s, schedule + [Step(i)]);
            && after.row == Present(Some(before.callers[i].now))
            && after.callers == before.callers[i := Answered(before.callers[i].now, Refreshed)]
  {
    var more := schedule + [Step(i)];
    assert more[..|more| - 1] == schedule;
    var before := Run(s, schedule);
    UpdateDecides(before.row, before.callers[i].now, before.callers[i].seen);
  }

  /** What the `First` and `Refreshed` answers say about where `last_seen_at` has got to. */
  ghost predicate Paced(s: System, firstSeen: int) {
    s.row.Present? ==>
      && (s.row.lastSeen.None? ==> Answers(s, Refreshed) == {})
      && (s.row.lastSeen.Some? ==>
            s.row.lastSeen.value >= firstSeen + |Answers(s, Refreshed)| * (TOUCH_WINDOW_SECS + 1))
  }

  /** The throttle holds under every interleaving and whatever stale clock each caller holds:
      after `n` refreshes `last_seen_at` is past the first contact by `n` windows and more, so
      the number of refresh writes is bounded by the clock and not by the number of calls. */
  lemma {:induction false} RefreshesArePaced(s: System, schedule: seq<Action>) returns (firstSeen: int)
    requires Initial(s)
    ensures Paced(Run(s, schedule), firstSeen)
    ensures var end := Run(s, schedule);
            end.row.Present? && end.row.lastSeen.Some? ==>
              exists i :: i in Answers(end, First) && end.callers[i].now == firstSeen
  {
    if schedule == [] {
      firstSeen := 0;
      assert Answers(s, Refreshed) == {};
    } else {
      var before, a := Run(s, schedule[..|schedule| - 1]), schedule[|schedule| - 1];
      firstSeen := RefreshesArePaced(s, schedule[..|schedule| - 1]);
      if a.Step? && a.caller < |before.callers| && !before.callers[a.caller].Answered? {
        var i := a.caller;
        StepMovesForward(before.row, before.callers[i]);
        AnswersAfter(before, i, Refreshed);
        AnswersAfter(before, i, First);
        var (row', c') := Next(before.row, before.callers[i]);
        if c' == Answered(before.callers[i].now, First) {
          firstSeen := before.callers[i].now;
          assert i in Answers(Act(before, a), First);
        } else if before.row.Present? && before.row.lastSeen.Some? {
          var w :| w in Answers(before, First) && before.callers[w].now == firstSeen;
          assert w in Answers(Act(before, a), First);
        }
      } else {
        assert a.Step? ==> Act(before, a) == before;
      }
    }
  }
}
