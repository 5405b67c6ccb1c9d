/**
 * The fault countdown: an atomic counter that any number of threads tick through a load and a
 * compare-exchange loop. Positive counts down, zero fires, negative is disarmed.
 */
module FaultCountdown {
  import opened Basics

  const DISARMED: int := -1

  /** Where one tick stands. `failures` counts its lost compare-exchanges. */
  datatype Tick =
    | Unstarted
    | Loaded(current: int, failures: nat)
    | Done(fired: bool)

  /** `answers` lists what ticks have answered, in the order they answered. */
  datatype System = System(counter: int, ticks: seq<Tick>, answers: seq<bool>)

  /** One atomic step of tick `i`: the load, or one turn of the loop. */
  function Step(s: System, i: nat): System {
    if i >= |s.ticks| then s
    else
      match s.ticks[i]
      case Unstarted => s.(ticks := s.ticks[i := Loaded(s.counter, 0)])
      case Loaded(current, failures) =>
        if current <= 0 then Answer(s, i, current != DISARMED)
        else if s.counter == current then Answer(s.(counter := current - 1), i, false)
        else s.(ticks := s.ticks[i := Loaded(s.counter, failures + 1)])
      case Done(_) => s
  }

  function Answer(s: System, i: nat, fired: bool): System
    requires i < |s.ticks|
  {
    s.(ticks := s.ticks[i := Done(fired)], answers := s.answers + [fired])
  }

  function Run(s: System, schedule: seq<nat>): System {
    if schedule == [] then s
    else Step(Run(s, schedule[..|schedule| - 1]), schedule[|schedule| - 1])
  }

  /** A counter holding `n` and ticks that have not started. */
  ghost predicate Armed(s: System, n: int) {
    && s.counter == n
    && s.answers == []
    && forall i :: 0 <= i < |s.ticks| ==> s.ticks[i].Unstarted?
  }

  /** Of a countdown armed at `n`: each answer so far is `true` exactly from the `n`th on, the
      counter holds what is left, and what a tick has loaded is at least that. */
  ghost predicate Inv(s: System, n: nat) {
    && 0 <= s.counter <= n
    && (s.counter > 0 ==> s.counter + |s.answers| == n)
    && (s.counter == 0 ==> |s.answers| >= n)
    && (forall k :: 0 <= k < |s.answers| ==> (s.answers[k] <==> k >= n))
    && (forall i :: 0 <= i < |s.ticks| && s.ticks[i].Loaded? ==>
          s.counter <= s.ticks[i].current && s.ticks[i].current + s.ticks[i].failures <= n)
  }

  lemma StepKeepsInv(s: System, n: nat, i: nat)
    requires Inv(s, n)
    ensures Inv(Step(s, i), n)
  {
  }

  lemma {:induction false} RunKeepsInv(s: System, n: nat, schedule: seq<nat>)
    requires Armed(s, n)
    ensures Inv(Run(s, schedule), n)
  {
    if schedule != [] {
      RunKeepsInv(s, n, schedule[..|schedule| - 1]);
      StepKeepsInv(Run(s, schedule[..|schedule| - 1]), n, schedule[|schedule| - 1]);
    }
  }

  function Falses(answers: seq<bool>): nat {
    if answers == [] then 0
    else Falses(answers[..|answers| - 1]) + if answers[|answers| - 1] then 0 else 1
  }

  lemma {:induction false} CountFalses(answers: seq<bool>, n: nat)
    requires forall k :: 0 <= k < |answers| ==> (answers[k] <==> k >= n)
    ensures Falses(answers) == Min(n, |answers|)
  {
    if answers != [] {
      CountFalses(answers[..|answers| - 1], n);
    }
  }

  /** In every interleaving of any number of ticks, a countdown armed at `n` answers `false` to
      the first `n` that finish and `true` to every later one. */
  lemma ExactlyNGranted(s: System, n: nat, schedule: seq<nat>)
    requires Armed(s, n)
    ensures var answers := Run(s, schedule).answers;
            && Falses(answers) == Min(n, |answers|)
            && forall k :: 0 <= k < |answers| ==> (answers[k] <==> k >= n)
  {
    RunKeepsInv(s, n, schedule);
    CountFalses(Run(s, schedule).answers, n);
  }

  /** No tick can be made to retry for ever: it loses at most `n` exchanges. */
  lemma RetriesAreBounded(s: System, n: nat, schedule: seq<nat>, i: nat)
    requires Armed(s, n) && i < |Run(s, schedule).ticks| && Run(s, schedule).ticks[i].Loaded?
    ensures Run(s, schedule).ticks[i].failures <= n
  {
    RunKeepsInv(s, n, schedule);
  }

  ghost predicate Quiet(s: System) {
    && s.counter == DISARMED
    && (forall k :: 0 <= k < |s.answers| ==> !s.answers[k])
    && (forall i :: 0 <= i < |s.ticks| && s.ticks[i].Loaded? ==> s.ticks[i].current == DISARMED)
  }

  /** A disarmed countdown never fires. */
  lemma {:induction false} DisarmedNeverFires(s: System, schedule: seq<nat>)
    requires Armed(s, -1)
    ensures Quiet(Run(s, schedule))
  {
    if schedule != [] {
      DisarmedNeverFires(s, schedule[..|schedule| - 1]);
    }
  }

  // ----- the loop as written, with others running between its turns

  /** The state of a countdown that was armed at `n`, or disarmed. */
  ghost predicate Counting(s: System, n: int) {
    if n < 0 then Quiet(s) else Inv(s, n)
  }

  lemma {:induction false} OthersKeepCounting(s: System, n: int, others: seq<nat>, i: nat)
    requires Counting(s, n) && i < |s.ticks| && i !in others
    ensures var s' := Run(s, others);
            Counting(s', n) && |s'.ticks| == |s.ticks| && s'.ticks[i] == s.ticks[i]
  {
    if others != [] {
      OthersKeepCounting(s, n, others[..|others| - 1], i);
      if n >= 0 {
        StepKeepsInv(Run(s, others[..|others| - 1]), n, others[|others| - 1]);
      }
    }
  }

  class Countdown {
    var s: System

    constructor (s: System)
      ensures this.s == s
    {
      this.s := s;
    }

    /** One tick: a load, then turns of the loop, with whatever steps `others(turn)` other ticks
        take before each. It finishes however they are scheduled, because a lost exchange means
        the counter went down. */
    method Tick(i: nat, others: nat -> seq<nat>, ghost n: int) returns (fired: bool)
      requires i < |s.ticks| && s.ticks[i].Unstarted? && Counting(s, n)
      requires forall turn :: i !in others(turn)
      modifies this
      ensures Counting(s, n) && i < |s.ticks| && s.ticks[i] == Done(fired)
      ensures s.answers != [] && s.answers[|s.answers| - 1] == fired
      ensures fired <==> n >= 0 && |s.answers| > n
    {
      var current := s.counter;
      s := s.(ticks := s.ticks[i := Loaded(current, 0)]);
      var turn := 0;
      while true
        invariant i < |s.ticks| && s.ticks[i].Loaded? && s.ticks[i].current == current
        invariant Counting(s, n)
        decreases current
      {
        OthersKeepCounting(s, n, others(turn), i);
        s := Run(s, others(turn));
        if current <= 0 {
          fired := current != DISARMED;
          s := Answer(s, i, fired);
          return;
        }
        if s.counter == current {
          s := Answer(s.(counter := current - 1), i, false);
          return false;
        }
        var failures := s.ticks[i].failures;
        current := s.counter;
        s := s.(ticks := s.ticks[i := Loaded(current, failures + 1)]);
        turn := turn + 1;
      }
    }
  }
}
