/**
 * When a launch can wait for a builder that waits for the launch: never while entry points
 * run one at a time, and with two of them it can happen, is the only deadlock there is, and
 * never ends.
 */
module BuilderDeadlock {
  import opened Basics
  import opened BuilderProtocol
  import opened BuilderSafety

  // ---- Entry points one at a time ----

  /** An indexing entry point that has joined and has not yet launched. */
  ghost predicate PastJoin(cl: Client) {
    || cl.pc == Guarding(Index)
    || (cl.pc != Leaving && Index in cl.stack)
    || (cl.pc == Leaving && cl.stack != [] && Index in cl.stack[..|cl.stack| - 1])
  }

  predicate Launches(pc: Pc) {
    pc.Launching? || pc.Draining? || pc.Claiming? || pc.Resetting? || pc.Spawning?
  }

  /** Indexing entry points do not nest, and the one that launches is the innermost. */
  ghost predicate StackRight(cl: Client) {
    && (forall i, j | 0 <= i < j < |cl.stack| :: cl.stack[i] == Read || cl.stack[j] == Read)
    && (cl.pc == Guarding(Index) || cl.pc.Joining? || cl.pc.Awaiting? || cl.pc.Reaping? ==> Index !in cl.stack)
    && (Launches(cl.pc) ==> cl.stack != [] && cl.stack[|cl.stack| - 1] == Index)
  }

  ghost predicate Alone(s: State) {
    |s.clients| == 1 && StackRight(s.clients[0]) && (PastJoin(s.clients[0]) ==> 0 in s.clean)
  }

  lemma LastIndex(stack: seq<Frame>)
    requires stack != [] && forall i, j | 0 <= i < j < |stack| :: stack[i] == Read || stack[j] == Read
    ensures stack[|stack| - 1] == Index ==> Index !in stack[..|stack| - 1]
    ensures stack[|stack| - 1] == Read ==> (Index in stack <==> Index in stack[..|stack| - 1])
  {
  }

  lemma StepKeepsAlone(s: State, l: Label)
    requires Alone(s) && Enabled(s, l)
    ensures Alone(Do(s, l))
  {
    if IsBuilderStep(l) {
      assert Do(s, l).clients == s.clients && Do(s, l).clean == s.clean;
    } else {
      if s.clients[0].stack != [] {
        LastIndex(s.clients[0].stack);
      }
      if IsJoinStep(l) {
        JoinKeepsAlone(s, l);
      } else if IsEntryStep(l) {
        EntryKeepsAlone(s, l);
      } else {
        LaunchKeepsAlone(s, l);
      }
    }
  }

  lemma JoinKeepsAlone(s: State, l: Label)
    requires Alone(s) && Enabled(s, l) && IsJoinStep(l)
    ensures Alone(DoJoin(s, l))
  {
  }

  lemma EntryKeepsAlone(s: State, l: Label)
    requires Alone(s) && Enabled(s, l) && IsEntryStep(l)
    requires s.clients[0].stack != [] ==>
      var stack := s.clients[0].stack; stack[|stack| - 1] == Index ==> Index !in stack[..|stack| - 1]
    ensures Alone(DoEntry(s, l))
  {
    if l.Acquire? {
      AcquireKeepsAlone(s, l);
    } else {
      var cl' := DoEntry(s, l).clients[0];
      assert StackRight(cl');
      assert PastJoin(cl') ==> PastJoin(s.clients[0]);
    }
  }

  lemma AcquireKeepsAlone(s: State, l: Label)
    requires Alone(s) && Enabled(s, l) && l.Acquire?
    ensures Alone(DoEntry(s, l))
  {
  }

  lemma LaunchKeepsAlone(s: State, l: Label)
    requires Alone(s) && Enabled(s, l) && !IsBuilderStep(l) && !IsJoinStep(l) && !IsEntryStep(l)
    requires s.clients[0].stack != [] ==>
      var stack := s.clients[0].stack; stack[|stack| - 1] == Index ==> Index !in stack[..|stack| - 1]
    ensures Alone(DoLaunch(s, l))
  {
    LaunchMovesPc(s, l);
    hide DoLaunch, Enabled;
  }

  lemma LaunchMovesPc(s: State, l: Label)
    requires Alone(s) && Enabled(s, l) && !IsBuilderStep(l) && !IsJoinStep(l) && !IsEntryStep(l)
    ensures var t := DoLaunch(s, l);
      && |t.clients| == 1 && t.clients[0].stack == s.clients[0].stack
      && (Launches(t.clients[0].pc) || t.clients[0].pc == Leaving)
      && (Launches(s.clients[0].pc) || l.Launch?)
      && s.clients[0].stack != [] && s.clients[0].stack[|s.clients[0].stack| - 1] == Index
      && (!l.Spawn? ==> t.clean == s.clean) && (l.Spawn? ==> t.clients[0].pc == Leaving)
      && s.clients[0].pc != Leaving
  {
    hide PastJoin;
  }

  lemma {:induction false} RunKeepsAlone(run: seq<Label>)
    ensures After(Start(1), run).Some? ==> Alone(After(Start(1), run).value)
  {
    if run != [] && After(Start(1), run).Some? {
      RunKeepsAlone(run[..|run| - 1]);
      StepKeepsAlone(After(Start(1), run[..|run| - 1]).value, run[|run| - 1]);
    }
  }

  // ---- The one deadlock ----

  /** A launch holds the store and waits for a builder that waits for the store. */
  ghost predicate Stuck(s: State, c: nat, b: nat) {
    && c < |s.clients| && s.clients[c].pc == Draining && s.store == OfClient(c)
    && b < |s.builders| && s.handle == Some(b) && s.builders[b] == Waiting
  }

  /** A launch that has to wait at all is stuck. */
  lemma WaitingIsStuck(s: State, c: nat)
    requires LocksRight(s) && HandleRight(s)
    requires c < |s.clients| && s.clients[c].pc == Draining && !HandleEnded(s)
    ensures s.handle.Some? && Stuck(s, c, s.handle.value)
  {
    assert s.clients[c].stack != [];
  }

  /** No builder moves while a client holds the store. */
  lemma BuildersRest(s: State, l: Label)
    requires BuildersRight(s) && s.store.OfClient? && Enabled(s, l)
    ensures !IsBuilderStep(l)
  {
  }

  /** No step of any thread ends it: from then on the store is never free again. */
  lemma StuckStays(s: State, l: Label, c: nat, b: nat)
    requires LocksRight(s) && Stuck(s, c, b) && Enabled(s, l)
    ensures Stuck(Do(s, l), c, b)
  {
    BuildersRest(s, l);
    assert !HandleEnded(s);
    StuckThroughClient(s, l, c, b);
  }

  lemma StuckThroughClient(s: State, l: Label, c: nat, b: nat)
    requires MutexRight(s) && StoreRight(s) && Stuck(s, c, b) && Enabled(s, l) && !IsBuilderStep(l) && !HandleEnded(s)
    ensures Stuck(Do(s, l), c, b)
  {
    assert s.mutex == Some(c);
    assert l.c != c;
    OthersStay(s, l, Do(s, l));
    StoreMoves(s, l, Do(s, l));
  }

  lemma {:induction false} StuckForever(s: State, run: seq<Label>, c: nat, b: nat)
    requires Inv(s) && Stuck(s, c, b)
    ensures After(s, run).Some? ==> Inv(After(s, run).value) && Stuck(After(s, run).value, c, b)
  {
    if run != [] && After(s, run).Some? {
      StuckForever(s, run[..|run| - 1], c, b);
      var t, l := After(s, run[..|run| - 1]).value, run[|run| - 1];
      StepKeepsInv(t, l);
      StuckStays(t, l, c, b);
    }
  }

  /** Nothing is going on. */
  ghost predicate Quiet(s: State) {
    && (forall c | 0 <= c < |s.clients| :: s.clients[c].pc == Idle)
    && forall b | 0 <= b < |s.builders| :: s.builders[b] == Ended
  }

  /** A step that is not the start of an entry point can be taken. */
  ghost predicate CanMove(s: State) { exists l: Label :: !l.Begin? && Enabled(s, l) }

  /** A builder has something to do whenever it or the store is its own. */
  lemma BuilderMoves(s: State, b: nat)
    requires LocksRight(s) && b < |s.builders| && s.builders[b] != Ended && !s.store.OfClient?
    ensures CanMove(s)
  {
    var d := if s.store.OfBuilder? then s.store.b else b;
    var phase := s.builders[d];
    if phase.Waiting? {
      assert Enabled(s, Take(d));
    } else if phase.Building? {
      assert Enabled(s, Clear(d));
    } else if phase.Cleared? {
      assert Enabled(s, Mark(d));
    } else {
      assert Enabled(s, End(d));
    }
  }

  /** A client that need not wait for another, outside its blocking waits. */
  lemma ClientMoves(s: State, c: nat)
    requires LocksRight(s) && c < |s.clients|
    requires var pc := s.clients[c].pc;
      pc != Idle && !pc.Reaping? && !pc.Draining? && (pc.Joining? || pc.Launching? ==> s.mutex == None)
    ensures CanMove(s)
  {
    var cl := s.clients[c];
    var l := match cl.pc
      case Joining => EnterJoin(c)
      case Awaiting => if s.done then SeeDone(c) else GiveUp(c)
      case Guarding(_) => if cl.stack == [] then Timeout(c) else Acquire(c)
      case Working => Finish(c)
      case Launching => Lock(c)
      case Claiming => Claim(c)
      case Resetting => Reset(c)
      case Spawning => Spawn(c)
      case _ => Leave(c);
    assert Enabled(s, l);
  }

  /** A thread being reaped has passed its last completion store. */
  ghost predicate ReapRight(s: State) {
    && HandleRight(s)
    && forall c | 0 <= c < |s.clients| :: s.clients[c].pc.Reaping? ==> !Open(s.builders[s.handle.value])
  }

  lemma StepKeepsReap(s: State, l: Label)
    requires MutexRight(s) && FlagsRight(s) && ReapRight(s) && Enabled(s, l)
    ensures ReapRight(Do(s, l))
  {
    StepKeepsHandle(s, l);
    var t := Do(s, l);
    if IsBuilderStep(l) {
      assert t.clients == s.clients && t.handle == s.handle;
      assert forall b | 0 <= b < |s.builders| :: !Open(s.builders[b]) ==> !Open(t.builders[b]);
    } else {
      OthersStay(s, l, t);
      ReapMoves(s, l, t);
    }
  }

  lemma ReapMoves(s: State, l: Label, t: State)
    requires MutexRight(s) && FlagsRight(s) && ReapRight(s) && Enabled(s, l) && !IsBuilderStep(l) && t == Do(s, l)
    requires OnlyClient(s, t, l.c) && HandleRight(t)
    ensures forall c | 0 <= c < |t.clients| :: t.clients[c].pc.Reaping? ==> !Open(t.builders[t.handle.value])
  {
    HandleMoves(s, l, t);
    assert s.done ==> !SomeOpen(s);
    if l.SeeDone? {
      assert t.builders == s.builders && t.handle == s.handle;
    } else {
      assert !t.clients[l.c].pc.Reaping?;
    }
  }

  lemma {:induction false} RunKeepsReap(n: nat, run: seq<Label>)
    ensures After(Start(n), run).Some? ==> ReapRight(After(Start(n), run).value)
  {
    if run != [] && After(Start(n), run).Some? {
      RunKeepsReap(n, run[..|run| - 1]);
      RunKeepsInv(n, run[..|run| - 1]);
      StepKeepsReap(After(Start(n), run[..|run| - 1]).value, run[|run| - 1]);
    }
  }

  /** Unless everything is at rest, something can happen, or a launch is stuck. */
  lemma OnlyDeadlock(s: State)
    requires Reachable(s) && !Quiet(s)
    ensures CanMove(s) || exists c, b :: Stuck(s, c, b)
  {
    ReachableKeepsInv(s);
    var run :| After(Start(|s.clients|), run) == Some(s);
    RunKeepsReap(|s.clients|, run);
    if s.mutex.Some? {
      HolderMoves(s, s.mutex.value);
    } else if c :| 0 <= c < |s.clients| && s.clients[c].pc != Idle {
      ClientMoves(s, c);
    } else {
      assert forall c | 0 <= c < |s.clients| :: s.clients[c].stack == [];
      var b :| 0 <= b < |s.builders| && s.builders[b] != Ended;
      BuilderMoves(s, b);
    }
  }

  lemma HolderMoves(s: State, c: nat)
    requires LocksRight(s) && HandleRight(s) && ReapRight(s) && s.mutex == Some(c)
    ensures CanMove(s) || exists b :: Stuck(s, c, b)
  {
    var pc := s.clients[c].pc;
    assert HoldsMutex(pc);
    if pc.Draining? {
      if HandleEnded(s) {
        assert Enabled(s, Drain(c));
      } else {
        WaitingIsStuck(s, c);
      }
    } else if pc.Reaping? {
      var b := s.handle.value;
      if s.builders[b] == Ended {
        assert Enabled(s, Reap(c));
      } else {
        assert Enabled(s, End(b));
      }
    } else {
      ClientMoves(s, c);
    }
  }

  // ---- Two entry points at once ----

  lemma OneMore(n: nat, s: State, l: Label)
    requires Reachable(s) && |s.clients| == n && Enabled(s, l) && |Do(s, l).clients| == n
    ensures Reachable(Do(s, l))
  {
    var run :| After(Start(n), run) == Some(s);
    assert (run + [l])[..|run + [l]| - 1] == run;
    assert After(Start(n), run + [l]) == Some(Do(s, l));
  }

  /** Client `c` joins while there is no builder to join. */
  lemma JoinAlone(s: State, c: nat) returns (t: State)
    requires Reachable(s) && c < |s.clients| && s.clients[c] == Client(Idle, [])
    requires s.mutex == None && s.handle == None
    ensures Reachable(t)
    ensures t == s.(clients := s.clients[c := Client(Guarding(Index), [])], clean := s.clean + {c})
  {
    t := Do(s, Begin(c, Index));
    OneMore(|s.clients|, s, Begin(c, Index));
    var u := Do(t, EnterJoin(c));
    OneMore(|s.clients|, t, EnterJoin(c));
    assert u.clients == s.clients[c := Client(Guarding(Index), [])];
    t := u;
  }

  /** Having joined, it takes the free store, and its launch gets as far as the join inside. */
  lemma ReachDrain(s: State, c: nat) returns (t: State)
    requires Reachable(s) && c < |s.clients| && s.clients[c] == Client(Guarding(Index), [])
    requires s.mutex == None && s.store == Free
    ensures Reachable(t)
    ensures t == s.(clients := s.clients[c := Client(Draining, [Index])], mutex := Some(c), store := OfClient(c))
  {
    var n := |s.clients|;
    var a := Do(s, Acquire(c));
    OneMore(n, s, Acquire(c));
    assert a.clients[c].stack == [Index];
    var b := Do(a, Launch(c));
    OneMore(n, a, Launch(c));
    t := Do(b, Lock(c));
    OneMore(n, b, Lock(c));
    assert t.clients == s.clients[c := Client(Draining, [Index])];
  }

  /** With no thread to wait for and no builder running, the launch claims the flag. */
  lemma ReachSpawn(s: State, c: nat) returns (t: State)
    requires Reachable(s) && c < |s.clients| && s.clients[c] == Client(Draining, [Index])
    requires s.handle == None && !s.running
    ensures Reachable(t)
    ensures t == s.(clients := s.clients[c := Client(Spawning, [Index])], running := true, done := false)
  {
    var n := |s.clients|;
    var d := Do(s, Drain(c));
    OneMore(n, s, Drain(c));
    var e := Do(d, Claim(c));
    OneMore(n, d, Claim(c));
    t := Do(e, Reset(c));
    OneMore(n, e, Reset(c));
    assert t.clients == s.clients[c := Client(Spawning, [Index])];
  }

  /** It starts the builder, and the entry point ends. */
  lemma SpawnAndLeave(s: State, c: nat) returns (t: State)
    requires Reachable(s) && c < |s.clients| && s.clients[c] == Client(Spawning, [Index]) && s.builders == []
    ensures Reachable(t)
    ensures t.clients == s.clients[c := Client(Idle, [])] && t.builders == [Waiting]
    ensures t.handle == Some(0) && t.mutex == None && t.store == Free
  {
    var n := |s.clients|;
    var g := Do(s, Spawn(c));
    OneMore(n, s, Spawn(c));
    assert g.clients[c] == Client(Leaving, [Index]);
    t := Do(g, Leave(c));
    OneMore(n, g, Leave(c));
    assert t.clients == s.clients[c := Client(Idle, [])];
  }

  /** One entry point joins; another runs from end to end and launches; the first goes on and is stuck. */
  lemma TwoCanGetStuck(n: nat) returns (s: State)
    requires n >= 2
    ensures Reachable(s) && |s.clients| == n && Stuck(s, 0, 0)
  {
    s := Start(n);
    assert After(Start(n), []) == Some(s);
    s := JoinAlone(s, 0);
    s := JoinAlone(s, 1);
    s := ReachDrain(s, 1);
    s := ReachSpawn(s, 1);
    s := SpawnAndLeave(s, 1);
    s := ReachDrain(s, 0);
  }

  /** In every reachable state of `n` clients, no launch waits for a thread that has not returned. */
  ghost predicate LaunchesNeverWait(n: nat) {
    forall s, c: nat | Reachable(s) && |s.clients| == n && c < n && s.clients[c].pc == Draining :: HandleEnded(s)
  }

  /** The join inside a launch never waits on an unfinished builder exactly when entry points run one at a time. */
  lemma NeverWaitsExactlyWhenOneAtATime(n: nat)
    ensures LaunchesNeverWait(n) <==> n <= 1
  {
    if n >= 2 {
      var s := TwoCanGetStuck(n);
      assert !HandleEnded(s);
    } else {
      forall s, c: nat | Reachable(s) && |s.clients| == n && c < n && s.clients[c].pc == Draining
        ensures HandleEnded(s)
      {
        OneClientNeverWaits(s);
      }
    }
  }

  lemma OneClientNeverWaits(s: State)
    requires Reachable(s) && |s.clients| == 1 && s.clients[0].pc == Draining
    ensures s.handle == None
  {
    var run :| After(Start(1), run) == Some(s);
    RunKeepsAlone(run);
    ReachableKeepsInv(s);
  }

  lemma OneClientIsNeverStuck(s: State, c: nat, b: nat)
    requires Reachable(s) && |s.clients| <= 1
    ensures !Stuck(s, c, b)
  {
    NeverWaitsExactlyWhenOneAtATime(|s.clients|);
    assert c < |s.clients| && s.clients[c].pc == Draining ==> HandleEnded(s);
  }

  /** So a single dispatch thread never deadlocks. */
  lemma OneClientAlwaysMoves(s: State)
    requires Reachable(s) && |s.clients| <= 1 && !Quiet(s)
    ensures CanMove(s)
  {
    OnlyDeadlock(s);
    forall c, b ensures !Stuck(s, c, b) {
      OneClientIsNeverStuck(s, c, b);
    }
  }
}
