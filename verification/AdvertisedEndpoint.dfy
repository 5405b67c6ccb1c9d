/**
 * The externally reachable endpoint: a configured static base and a bounded, most-recent-first
 * list of observed ones. The list refines the whole observation log since the last forget: it is
 * the first few distinct bases of that log read backwards, each with its latest timestamp.
 */
module AdvertisedEndpoint {
  import opened Basics

  const MAX_DYNAMIC_HISTORY := 4

  /** A parsed URL; only equality matters here. */
  type Url = string

  datatype Observed = Observed(base: Url, observedAt: Epoch)

  datatype Endpoint = Endpoint(staticBase: Option<Url>, dynamic: seq<Observed>)

  datatype Action =
    | Observe(base: Url, now: Epoch)
    | SetStatic(configured: Option<Url>)
    | ForgetDynamic

  function Bases(os: seq<Observed>): (r: seq<Url>)
    ensures |r| == |os|
    ensures forall i :: 0 <= i < |os| ==> r[i] == os[i].base
  {
    seq(|os|, i requires 0 <= i < |os| => os[i].base)
  }

  /** `retain(|o| o.base != base)`. */
  function Without(os: seq<Observed>, base: Url): (r: seq<Observed>)
    ensures |r| <= |os|
    ensures forall o :: o in r <==> o in os && o.base != base
  {
    if os == [] then []
    else (if os[0].base == base then [] else [os[0]]) + Without(os[1..], base)
  }

  /** `truncate`. */
  function Truncate<T>(xs: seq<T>, n: nat): seq<T> {
    if |xs| <= n then xs else xs[..n]
  }

  function Observing(dynamic: seq<Observed>, base: Url, now: Epoch): (seq<Observed>, bool) {
    if dynamic != [] && dynamic[0].base == base then (dynamic[0 := Observed(base, now)], false)
    else (Truncate([Observed(base, now)] + Without(dynamic, base), MAX_DYNAMIC_HISTORY), true)
  }

  function Current(e: Endpoint): Option<Url> {
    if e.dynamic != [] then Some(e.dynamic[0].base) else e.staticBase
  }

  function Recent(e: Endpoint): seq<Url> {
    var bases := Bases(e.dynamic);
    if e.staticBase.Some? && e.staticBase.value !in bases then bases + [e.staticBase.value] else bases
  }

  function Apply(e: Endpoint, a: Action): Endpoint {
    match a
    case Observe(base, now) => e.(dynamic := Observing(e.dynamic, base, now).0)
    case SetStatic(configured) => e.(staticBase := configured)
    case ForgetDynamic => e.(dynamic := [])
  }

  function Run(staticBase: Option<Url>, actions: seq<Action>): Endpoint {
    if actions == [] then Endpoint(staticBase, [])
    else Apply(Run(staticBase, actions[..|actions| - 1]), actions[|actions| - 1])
  }

  // ----- the log

  /** The observations since the last forget, latest first. */
  function Log(actions: seq<Action>): seq<Observed> {
    if actions == [] then []
    else
      match actions[|actions| - 1]
      case Observe(base, now) => [Observed(base, now)] + Log(actions[..|actions| - 1])
      case ForgetDynamic => []
      case SetStatic(_) => Log(actions[..|actions| - 1])
  }

  /** The first entry for each base, in order. */
  function Distinct(os: seq<Observed>): (r: seq<Observed>)
    ensures |r| <= |os|
  {
    if os == [] then [] else [os[0]] + Without(Distinct(os[1..]), os[0].base)
  }

  lemma {:induction false} WithoutOthers(os: seq<Observed>, base: Url)
    requires forall o :: o in os ==> o.base != base
    ensures Without(os, base) == os
  {
    if os != [] {
      WithoutOthers(os[1..], base);
      assert os == [os[0]] + os[1..];
    }
  }

  ghost predicate BasesDistinct(os: seq<Observed>) {
    forall i, j :: 0 <= i < j < |os| ==> os[i].base != os[j].base
  }

  lemma {:induction false} WithoutKeepsDistinct(os: seq<Observed>, base: Url)
    requires BasesDistinct(os)
    ensures BasesDistinct(Without(os, base))
  {
    if os != [] {
      WithoutKeepsDistinct(os[1..], base);
      var r := Without(os[1..], base);
      assert forall o :: o in r ==> o in os[1..] && o.base != os[0].base;
    }
  }

  lemma {:induction false} DistinctIsDistinct(os: seq<Observed>)
    ensures BasesDistinct(Distinct(os))
  {
    if os != [] {
      DistinctIsDistinct(os[1..]);
      WithoutKeepsDistinct(Distinct(os[1..]), os[0].base);
      var r := Without(Distinct(os[1..]), os[0].base);
      assert forall i :: 0 <= i < |r| ==> r[i] in r;
      assert Distinct(os) == [os[0]] + r;
    }
  }

  /** Entry `i` is a base's latest observation: nothing before it in the reversed log names it. */
  ghost predicate LatestAt(os: seq<Observed>, i: int) {
    0 <= i < |os| && forall j :: 0 <= j < i ==> os[j].base != os[i].base
  }

  lemma LatestBehind(os: seq<Observed>, i: int)
    requires 0 < i < |os|
    ensures LatestAt(os, i) <==> LatestAt(os[1..], i - 1) && os[i].base != os[0].base
  {
    var more := os[1..];
    assert forall j :: 0 < j < |os| ==> os[j] == more[j - 1];
    if LatestAt(more, i - 1) && os[i].base != os[0].base {
      assert forall j :: 0 < j < i ==> os[j] == more[j - 1];
    }
    if LatestAt(os, i) {
      assert forall j :: 0 <= j < i - 1 ==> more[j] == os[j + 1];
    }
  }

  /** `Distinct` holds exactly the latest observation of each base. */
  lemma {:induction false} DistinctHoldsLatest(os: seq<Observed>, o: Observed)
    ensures o in Distinct(os) <==> exists i :: LatestAt(os, i) && os[i] == o
  {
    if os != [] {
      var more := os[1..];
      DistinctHoldsLatest(more, o);
      assert o in Distinct(os) <==> o == os[0] || (o in Distinct(more) && o.base != os[0].base);
      if i :| LatestAt(os, i) && os[i] == o && i > 0 {
        LatestBehind(os, i);
        assert LatestAt(more, i - 1) && more[i - 1] == o;
      }
      if o == os[0] {
        assert LatestAt(os, 0);
      } else if o in Distinct(os) {
        var i :| LatestAt(more, i) && more[i] == o;
        LatestBehind(os, i + 1);
        assert os[i + 1] == o;
      }
    }
  }

  lemma TruncateCons<T>(x: T, xs: seq<T>, n: nat)
    ensures Truncate([x] + xs, n + 1) == [x] + Truncate(xs, n)
  {
  }

  lemma WithoutCons(o: Observed, os: seq<Observed>, base: Url)
    ensures Without([o] + os, base) == if o.base == base then Without(os, base) else [o] + Without(os, base)
  {
    assert ([o] + os)[1..] == os;
  }

  lemma TruncateTwice<T>(xs: seq<T>, n: nat)
    ensures Truncate(Truncate(xs, n), n) == Truncate(xs, n)
  {
  }

  /** Removing a base from a cut list is as good as cutting after removing it, one place on. */
  lemma {:induction false} CutThenRemove(os: seq<Observed>, base: Url, n: nat)
    requires BasesDistinct(os)
    ensures Truncate(Without(Truncate(os, n + 1), base), n) == Truncate(Without(os, base), n)
  {
    if os != [] {
      var o, more := os[0], os[1..];
      assert os == [o] + more;
      TruncateCons(o, more, n);
      WithoutCons(o, more, base);
      WithoutCons(o, Truncate(more, n), base);
      if o.base == base {
        HeadRemoved(os, base, n);
      } else if n > 0 {
        CutThenRemove(more, base, n - 1);
        TruncateCons(o, Without(more, base), n - 1);
        TruncateCons(o, Without(Truncate(more, n), base), n - 1);
      }
    }
  }

  lemma HeadRemoved(os: seq<Observed>, base: Url, n: nat)
    requires os != [] && os[0].base == base && BasesDistinct(os)
    ensures Truncate(Without(Truncate(os[1..], n), base), n) == Truncate(Without(os[1..], base), n)
  {
    var more := os[1..];
    assert forall i :: 0 <= i < |more| ==> more[i] == os[i + 1];
    assert forall o :: o in more ==> o.base != base;
    WithoutOthers(more, base);
    assert forall o :: o in Truncate(more, n) ==> o in more;
    WithoutOthers(Truncate(more, n), base);
    TruncateTwice(more, n);
  }

  /** What the bounded list should be, given the whole log. */
  function Remembered(log: seq<Observed>): seq<Observed> {
    Truncate(Distinct(log), MAX_DYNAMIC_HISTORY)
  }

  lemma ObserveRefines(log: seq<Observed>, base: Url, now: Epoch)
    ensures Observing(Remembered(log), base, now).0 == Remembered([Observed(base, now)] + log)
    ensures Observing(Remembered(log), base, now).1 == !(log != [] && log[0].base == base)
  {
    var d, o := Distinct(log), Observed(base, now);
    assert ([o] + log)[1..] == log;
    assert Distinct([o] + log) == [o] + Without(d, base);
    if log != [] && log[0].base == base {
      ObserveAgain(log, base, now);
    } else {
      DistinctIsDistinct(log);
      CutThenRemove(d, base, MAX_DYNAMIC_HISTORY - 1);
      TruncateCons(o, Without(Remembered(log), base), MAX_DYNAMIC_HISTORY - 1);
      TruncateCons(o, Without(d, base), MAX_DYNAMIC_HISTORY - 1);
    }
  }

  lemma ObserveAgain(log: seq<Observed>, base: Url, now: Epoch)
    requires log != [] && log[0].base == base
    ensures Remembered(log) != [] && Remembered(log)[0].base == base
    ensures Truncate([Observed(base, now)] + Without(Distinct(log), base), MAX_DYNAMIC_HISTORY)
            == Remembered(log)[0 := Observed(base, now)]
  {
    var tail := Without(Distinct(log[1..]), base);
    assert Distinct(log) == [log[0]] + tail;
    WithoutCons(log[0], tail, base);
    WithoutOthers(tail, base);
    NewHead(log[0], Observed(base, now), tail, MAX_DYNAMIC_HISTORY - 1);
  }

  lemma NewHead<T>(x: T, y: T, xs: seq<T>, n: nat)
    ensures Truncate([x] + xs, n + 1) != [] && Truncate([x] + xs, n + 1)[0] == x
    ensures Truncate([y] + xs, n + 1) == Truncate([x] + xs, n + 1)[0 := y]
  {
    TruncateCons(x, xs, n);
    TruncateCons(y, xs, n);
  }

  /** Over any run, the list is the first four distinct bases of the reversed log since the last
      forget, each with the time of its latest observation. */
  lemma {:induction false} ListRefinesLog(staticBase: Option<Url>, actions: seq<Action>)
    ensures Run(staticBase, actions).dynamic == Remembered(Log(actions))
  {
    if actions != [] {
      var front, a := actions[..|actions| - 1], actions[|actions| - 1];
      ListRefinesLog(staticBase, front);
      if a.Observe? {
        ObserveRefines(Log(front), a.base, a.now);
      }
    }
  }

  /** The static base a run leaves: the last one set, or the one it started with. */
  function LastStatic(staticBase: Option<Url>, actions: seq<Action>): Option<Url> {
    if actions == [] then staticBase
    else if actions[|actions| - 1].SetStatic? then actions[|actions| - 1].configured
    else LastStatic(staticBase, actions[..|actions| - 1])
  }

  /** What is advertised over any run: the last base observed since the last forget, and failing
      that the last static base. At most four observed bases are remembered. */
  lemma {:induction false} AdvertisedOverRuns(staticBase: Option<Url>, actions: seq<Action>)
    ensures Run(staticBase, actions).staticBase == LastStatic(staticBase, actions)
    ensures Current(Run(staticBase, actions))
            == if Log(actions) != [] then Some(Log(actions)[0].base) else LastStatic(staticBase, actions)
    ensures Run(staticBase, actions).dynamic
            == if |Distinct(Log(actions))| <= 4 then Distinct(Log(actions)) else Distinct(Log(actions))[..4]
  {
    ListRefinesLog(staticBase, actions);
    if actions != [] {
      AdvertisedOverRuns(staticBase, actions[..|actions| - 1]);
    }
  }

  /** `observe` answers `false` exactly when the base is the last one observed since the last
      forget. */
  lemma ObserveSignalsChange(staticBase: Option<Url>, actions: seq<Action>, base: Url, now: Epoch)
    ensures !Observing(Run(staticBase, actions).dynamic, base, now).1
            <==> Log(actions) != [] && Log(actions)[0].base == base
  {
    ListRefinesLog(staticBase, actions);
    ObserveRefines(Log(actions), base, now);
  }

  /** The signal is not quite "the current endpoint changed": the one time they differ is a first
      observation of the configured base, which is signalled and changes nothing. */
  lemma SignalVersusCurrent(e: Endpoint, base: Url, now: Epoch)
    ensures Current(Apply(e, Observe(base, now))) == Some(base)
    ensures Current(Apply(e, Observe(base, now))) != Current(e)
            <==> Observing(e.dynamic, base, now).1 && !(e.dynamic == [] && e.staticBase == Some(base))
  {
  }

  /** The announce list has no duplicates, leads with the current endpoint, holds the static base
      and every remembered one, and nothing else. */
  lemma AnnounceList(staticBase: Option<Url>, actions: seq<Action>)
    ensures var e := Run(staticBase, actions);
            var recent := Recent(e);
            && NoDuplicates(recent)
            && (recent == [] <==> Current(e).None?)
            && (recent != [] ==> Current(e) == Some(recent[0]))
            && (e.staticBase.Some? ==> e.staticBase.value in recent)
            && (forall b :: b in recent <==> e.staticBase == Some(b) || b in Bases(Remembered(Log(actions))))
            && |recent| <= 5
            && (forall i :: 0 <= i < |e.dynamic| ==> i < |recent| && recent[i] == e.dynamic[i].base)
  {
    var e := Run(staticBase, actions);
    ListRefinesLog(staticBase, actions);
    DistinctIsDistinct(Log(actions));
    assert BasesDistinct(e.dynamic);
  }

  // ----- as written

  class AdvertisedEndpoint {
    var staticBase: Option<Url>
    var dynamic: seq<Observed>

    constructor (staticBase: Option<Url>)
      ensures View() == Run(staticBase, [])
    {
      this.staticBase, dynamic := staticBase, [];
    }

    function View(): Endpoint
      reads this
    {
      Endpoint(staticBase, dynamic)
    }

    method Observe(base: Url, now: Epoch) returns (changed: bool)
      modifies this
      ensures View() == Apply(old(View()), Action.Observe(base, now))
      ensures changed == Observing(old(dynamic), base, now).1
    {
      if dynamic != [] && dynamic[0].base == base {
        dynamic := dynamic[0 := Observed(base, now)];
        return false;
      }
      dynamic := Without(dynamic, base);
      dynamic := [Observed(base, now)] + dynamic;
      dynamic := Truncate(dynamic, MAX_DYNAMIC_HISTORY);
      return true;
    }

    method SetStatic(base: Option<Url>)
      modifies this
      ensures View() == Apply(old(View()), Action.SetStatic(base))
    {
      staticBase := base;
    }

    method ForgetDynamic()
      modifies this
      ensures View() == Apply(old(View()), Action.ForgetDynamic)
    {
      dynamic := [];
    }

    method RecentBases() returns (bases: seq<Url>)
      ensures bases == Recent(View())
    {
      bases := Bases(dynamic);
      if staticBase.Some? && staticBase.value !in bases {
        bases := bases + [staticBase.value];
      }
    }
  }
}
