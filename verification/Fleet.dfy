/**
 * Any number of engine processes on one shared pool of cores. `Pipeline` looks at one engine and
 * lets the others take and give back cores as they please; here the others are engines too. What
 * one of them does to the pool looks to each of the rest like one of those steps, so whatever
 * holds in every run of one engine holds of every engine of the fleet.
 */
module Fleet {
  import opened QueueProtocol
  import opened Pipeline
  import opened PipelineSafety

  /** The pool is shared; of an engine's own state, `pool` and `others` mean nothing by themselves. */
  datatype Fleet = Fleet(pool: nat, engines: seq<State>)

  ghost function Lent(engines: seq<State>): nat {
    if engines == [] then 0 else Borrowed(engines[0]) + Lent(engines[1..])
  }

  /** What engine `i` sees: the shared pool, and all the cores that the others hold. */
  ghost function Seen(f: Fleet, i: nat): State
    requires i < |f.engines|
  {
    LentExcept(f.engines, i);
    f.engines[i].(pool := f.pool, others := Lent(f.engines) - Borrowed(f.engines[i]))
  }

  lemma {:induction false} LentExcept(engines: seq<State>, i: nat)
    requires i < |engines|
    ensures Borrowed(engines[i]) <= Lent(engines)
  {
    hide Borrowed;
    if i > 0 {
      LentExcept(engines[1..], i - 1);
    }
  }

  lemma {:induction false} LentAfter(engines: seq<State>, i: nat, s: State)
    requires i < |engines|
    ensures Lent(engines[i := s]) == Lent(engines) - Borrowed(engines[i]) + Borrowed(s)
  {
    hide Borrowed;
    if i > 0 {
      assert engines[i := s][1..] == engines[1..][i - 1 := s];
      LentAfter(engines[1..], i - 1, s);
    } else {
      assert engines[i := s][1..] == engines[1..];
    }
  }

  lemma {:induction false} NobodyHasBorrowed(engines: seq<State>)
    requires forall i | 0 <= i < |engines| :: Borrowed(engines[i]) == 0
    ensures Lent(engines) == 0
  {
    hide Borrowed;
    if engines != [] {
      NobodyHasBorrowed(engines[1..]);
    }
  }

  ghost predicate Start(cs: seq<Config>, f: Fleet) {
    && |f.engines| == |cs|
    && forall i | 0 <= i < |cs| :: cs[i].cores == f.pool && Init(cs[i], Seen(f, i))
  }

  /** Engine `i` takes a step of its own; the others keep still. */
  ghost predicate Step(cs: seq<Config>, f: Fleet, f': Fleet, i: nat, who: Who) {
    && i < |f.engines| == |f'.engines| == |cs|
    && f'.engines == f.engines[i := f'.engines[i]]
    && !who.OthersGrab? && !who.OthersReturn?
    && Next(cs[i], Seen(f, i), f'.engines[i].(pool := f'.pool, others := Seen(f, i).others), who)
  }

  ghost predicate IsFleetRun(cs: seq<Config>, run: seq<Fleet>, acts: seq<(nat, Who)>) {
    && |run| == |acts| + 1 && Start(cs, run[0])
    && forall t | 0 <= t < |acts| :: Step(cs, run[t], run[t + 1], acts[t].0, acts[t].1)
  }

  // ---- One engine's step as the others see it ----

  /** What a step of another engine may look like: nothing, cores taken, or cores given back. */
  ghost predicate ByOthers(c: Config, s: State, s': State) {
    || s' == s
    || Next(c, s, s', OthersGrab(if s'.pool <= s.pool then s.pool - s'.pool else 0))
    || Next(c, s, s', OthersReturn(if s'.pool >= s.pool then s'.pool - s.pool else 0))
  }

  lemma StepSeenByItself(cs: seq<Config>, f: Fleet, f': Fleet, i: nat, who: Who)
    requires Step(cs, f, f', i, who)
    ensures Next(cs[i], Seen(f, i), Seen(f', i), who)
  {
    hide Next, Borrowed;
    LentAfter(f.engines, i, f'.engines[i]);
  }

  /** The cores an engine's own step moves leave the pool or enter it. */
  lemma OwnStepBalance(c: Config, s: State, s': State, who: Who)
    requires Safe(c, s) && Next(c, s, s', who) && s'.others == s.others
    ensures s'.pool + Borrowed(s') == s.pool + Borrowed(s) && s'.pool < U32
  {
    hide Next, Borrowed, Phases, OnlyTempsYield, Clients, Jobs, Written, Counted;
    NextKeepsSafe(c, s, s', who);
  }

  lemma StepSeenByOthers(cs: seq<Config>, f: Fleet, f': Fleet, i: nat, who: Who, j: nat)
    requires Step(cs, f, f', i, who) && Safe(cs[i], Seen(f, i))
    requires j < |cs| && j != i
    ensures ByOthers(cs[j], Seen(f, j), Seen(f', j))
  {
    hide Safe, Borrowed, Next, ByOthers;
    var s' := f'.engines[i].(pool := f'.pool, others := Seen(f, i).others);
    SameLoan(f'.engines[i], s');
    SameLoan(f.engines[i], Seen(f, i));
    assert s'.pool + Borrowed(s') == Seen(f, i).pool + Borrowed(Seen(f, i)) && s'.pool < U32 by {
      hide Seen;
      OwnStepBalance(cs[i], Seen(f, i), s', who);
    }
    LentAfter(f.engines, i, f'.engines[i]);
    LentExcept(f'.engines, j);
    OnlyPoolMoved(cs[j], Seen(f, j), Seen(f', j));
  }

  lemma OnlyPoolMoved(c: Config, s: State, s': State)
    requires s' == s.(pool := s'.pool, others := s'.others)
    requires s'.pool + s'.others == s.pool + s.others && s'.pool < U32
    ensures ByOthers(c, s, s')
  {
    hide WorkerStep, WriterStep, MonitorStep, MainStep;
  }

  lemma SameLoan(s: State, s': State)
    requires s' == s.(pool := s'.pool, others := s'.others)
    ensures Borrowed(s') == Borrowed(s)
  {
  }

  // ---- Whole runs ----

  ghost predicate Reachable(c: Config, s: State) {
    exists run: seq<State>, acts: seq<Who> :: EndsIn(c, run, acts, s)
  }

  ghost predicate EndsIn(c: Config, run: seq<State>, acts: seq<Who>, s: State) {
    IsRun(c, run, acts) && run[|acts|] == s
  }

  lemma ReachableAfter(c: Config, s: State, s': State, who: Who)
    requires Reachable(c, s) && Next(c, s, s', who)
    ensures Reachable(c, s')
  {
    hide Next, Init;
    var run: seq<State>, acts: seq<Who> :| EndsIn(c, run, acts, s);
    assert EndsIn(c, run + [s'], acts + [who], s');
  }

  lemma ReachableIsSafe(c: Config, s: State)
    requires Reachable(c, s)
    ensures Safe(c, s)
  {
    hide Safe, IsRun;
    var run: seq<State>, acts: seq<Who> :| EndsIn(c, run, acts, s);
    RunIsSafe(c, run, acts);
  }

  lemma ReachableAfterOthers(c: Config, s: State, s': State)
    requires Reachable(c, s) && ByOthers(c, s, s')
    ensures Reachable(c, s')
  {
    hide Next, Reachable;
    if s' != s {
      if Next(c, s, s', OthersGrab(if s'.pool <= s.pool then s.pool - s'.pool else 0)) {
        ReachableAfter(c, s, s', OthersGrab(if s'.pool <= s.pool then s.pool - s'.pool else 0));
      } else {
        ReachableAfter(c, s, s', OthersReturn(if s'.pool >= s.pool then s'.pool - s.pool else 0));
      }
    }
  }

  ghost predicate AllReachable(cs: seq<Config>, f: Fleet) {
    && |f.engines| == |cs|
    && forall i | 0 <= i < |cs| :: Reachable(cs[i], Seen(f, i))
  }

  lemma StartIsReachable(cs: seq<Config>, f: Fleet)
    requires Start(cs, f)
    ensures AllReachable(cs, f) && Lent(f.engines) == 0
  {
    hide Next;
    forall i | 0 <= i < |cs| ensures Reachable(cs[i], Seen(f, i)) && Borrowed(f.engines[i]) == 0 {
      assert EndsIn(cs[i], [Seen(f, i)], [], Seen(f, i));
      assert Those(f.engines[i].workers, IsHolding) == {};
    }
    NobodyHasBorrowed(f.engines);
  }

  lemma StepKeepsReachable(cs: seq<Config>, f: Fleet, f': Fleet, i: nat, who: Who)
    requires AllReachable(cs, f) && Step(cs, f, f', i, who)
    ensures AllReachable(cs, f') && f'.pool + Lent(f'.engines) == f.pool + Lent(f.engines)
  {
    hide Next, Reachable, Seen, ByOthers, Safe;
    StepSeenByItself(cs, f, f', i, who);
    ReachableAfter(cs[i], Seen(f, i), Seen(f', i), who);
    ReachableIsSafe(cs[i], Seen(f, i));
    forall j | 0 <= j < |cs| && j != i ensures Reachable(cs[j], Seen(f', j)) {
      StepSeenByOthers(cs, f, f', i, who, j);
      ReachableAfterOthers(cs[j], Seen(f, j), Seen(f', j));
    }
    StepConserves(cs, f, f', i, who);
  }

  lemma StepConserves(cs: seq<Config>, f: Fleet, f': Fleet, i: nat, who: Who)
    requires Step(cs, f, f', i, who) && Safe(cs[i], Seen(f, i))
    ensures f'.pool + Lent(f'.engines) == f.pool + Lent(f.engines)
  {
    hide Next, Safe, Borrowed;
    var s' := f'.engines[i].(pool := f'.pool, others := Seen(f, i).others);
    OwnStepBalance(cs[i], Seen(f, i), s', who);
    SameLoan(f'.engines[i], s');
    SameLoan(f.engines[i], Seen(f, i));
    LentAfter(f.engines, i, f'.engines[i]);
  }

  /** At the start the pool holds the cores that every engine was told of. */
  lemma StartsWhole(cs: seq<Config>, f: Fleet)
    requires Start(cs, f)
    ensures forall i | 0 <= i < |cs| :: cs[i].cores == f.pool
  {
  }

  /**
   * Over every run of any number of engines, no core is lost or made, and each engine is in a
   * state that it can also reach by a run of its own among arbitrary others.
   */
  lemma {:induction false} FleetRunConserves(cs: seq<Config>, run: seq<Fleet>, acts: seq<(nat, Who)>)
    requires IsFleetRun(cs, run, acts)
    ensures AllReachable(cs, run[|acts|])
    ensures run[|acts|].pool + Lent(run[|acts|].engines) == run[0].pool
    ensures forall i | 0 <= i < |cs| :: run[|acts|].pool + Lent(run[|acts|].engines) == cs[i].cores
  {
    StartsWhole(cs, run[0]);
    hide Step, Start, AllReachable;
    if acts == [] {
      StartIsReachable(cs, run[0]);
    } else {
      var n := |acts| - 1;
      FleetRunConserves(cs, run[..n + 1], acts[..n]);
      StepKeepsReachable(cs, run[n], run[n + 1], acts[n].0, acts[n].1);
    }
  }

  /** Once every engine has passed its last join, the pool is what it was at the start. */
  lemma AllCoresComeBack(cs: seq<Config>, run: seq<Fleet>, acts: seq<(nat, Who)>)
    requires IsFleetRun(cs, run, acts)
    requires forall i | 0 <= i < |run[|acts|].engines| :: run[|acts|].engines[i].main == Finished
    ensures run[|acts|].pool == run[0].pool
    ensures |run[|acts|].engines| == |cs|
    ensures forall i | 0 <= i < |cs| :: NothingLeft(cs[i], Seen(run[|acts|], i))
  {
    hide Step, Start, NothingLeft;
    FleetRunConserves(cs, run, acts);
    var f := run[|acts|];
    forall i | 0 <= i < |f.engines|
      ensures NothingLeft(cs[i], Seen(f, i)) && Borrowed(f.engines[i]) == 0
    {
      var own: seq<State>, own_acts: seq<Who> :| EndsIn(cs[i], own, own_acts, Seen(f, i));
      FinishedEngine(cs[i], own, own_acts, Seen(f, i));
      SameLoan(f.engines[i], Seen(f, i));
    }
    NobodyHasBorrowed(f.engines);
  }

  lemma FinishedEngine(c: Config, run: seq<State>, acts: seq<Who>, s: State)
    requires EndsIn(c, run, acts, s) && s.main == Finished
    ensures NothingLeft(c, s) && Borrowed(s) == 0
  {
    hide IsRun, Complete;
    FinishedIsComplete(c, run, acts);
  }
}
