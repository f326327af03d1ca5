/**
 * What holds in every reachable state of the builder protocol, for any number of clients,
 * and what holds only when entry points run one at a time.
 */
module BuilderSafety {
  import opened Basics
  import opened BuilderProtocol

  ghost predicate Inv(s: State) { LocksRight(s) && FlagsRight(s) && HandleRight(s) }

  /** A step changes one thread and leaves the others where they are. */
  ghost predicate OnlyClient(s: State, t: State, c: nat) {
    && c < |s.clients| == |t.clients| && forall d | 0 <= d < |s.clients| && d != c :: t.clients[d] == s.clients[d]
  }

  lemma OthersStay(s: State, l: Label, t: State)
    requires Enabled(s, l) && !IsBuilderStep(l) && t == Do(s, l)
    ensures OnlyClient(s, t, l.c)
  {
  }

  lemma StepKeepsMutex(s: State, l: Label)
    requires MutexRight(s) && Enabled(s, l)
    ensures MutexRight(Do(s, l))
  {
    if !IsBuilderStep(l) {
      OthersStay(s, l, Do(s, l));
      MutexMoves(s, l, Do(s, l));
      hide Do, Enabled;
    }
  }

  /** A client's step takes the thread mutex only when it is free and drops only its own. */
  ghost predicate MutexMove(s: State, t: State, c: nat) {
    && c < |t.clients| && (HoldsMutex(t.clients[c].pc) <==> t.mutex == Some(c))
    && (t.mutex == s.mutex || ((s.mutex == None || s.mutex == Some(c)) && (t.mutex == None || t.mutex == Some(c))))
  }

  lemma MutexMoves(s: State, l: Label, t: State)
    requires MutexRight(s) && Enabled(s, l) && !IsBuilderStep(l) && t == Do(s, l)
    ensures MutexMove(s, t, l.c)
  {
    hide MutexMove;
    if IsJoinStep(l) {
      JoinMovesMutex(s, l, t);
    } else if IsEntryStep(l) {
      EntryMovesMutex(s, l, t);
    } else {
      LaunchMovesMutex(s, l, t);
    }
  }

  lemma JoinMovesMutex(s: State, l: Label, t: State)
    requires MutexRight(s) && Enabled(s, l) && IsJoinStep(l) && t == DoJoin(s, l)
    ensures MutexMove(s, t, l.c)
  {
    assert HoldsMutex(s.clients[l.c].pc) <==> s.mutex == Some(l.c);
  }

  lemma EntryMovesMutex(s: State, l: Label, t: State)
    requires MutexRight(s) && Enabled(s, l) && IsEntryStep(l) && t == DoEntry(s, l)
    ensures MutexMove(s, t, l.c)
  {
    assert HoldsMutex(s.clients[l.c].pc) <==> s.mutex == Some(l.c);
  }

  lemma LaunchMovesMutex(s: State, l: Label, t: State)
    requires MutexRight(s) && Enabled(s, l) && !IsBuilderStep(l) && !IsJoinStep(l) && !IsEntryStep(l)
    requires t == DoLaunch(s, l)
    ensures MutexMove(s, t, l.c)
  {
    assert HoldsMutex(s.clients[l.c].pc) <==> s.mutex == Some(l.c);
  }

  lemma StepKeepsStore(s: State, l: Label)
    requires StoreRight(s) && BuildersRight(s) && Enabled(s, l)
    ensures StoreRight(Do(s, l))
  {
    if IsBuilderStep(l) {
      assert Do(s, l).clients == s.clients;
      assert s.store == Free || s.store == OfBuilder(l.b);
    } else {
      OthersStay(s, l, Do(s, l));
      StoreMoves(s, l, Do(s, l));
      hide Do, Enabled, BuildersRight;
    }
  }

  /** A client's step takes the store mutex only when it is free and drops only its own. */
  ghost predicate StoreMove(s: State, t: State, c: nat) {
    && c < |t.clients|
    && (NeedsStore(t.clients[c].pc) ==> t.clients[c].stack != [])
    && (t.clients[c].pc == Idle ==> t.clients[c].stack == [])
    && (t.clients[c].stack != [] <==> t.store == OfClient(c))
    && (t.store == s.store || s.store == Free || (s.store == OfClient(c) && t.store == Free))
  }

  lemma StoreMoves(s: State, l: Label, t: State)
    requires StoreRight(s) && Enabled(s, l) && !IsBuilderStep(l) && t == Do(s, l)
    ensures StoreMove(s, t, l.c)
  {
    hide StoreMove;
    if IsEntryStep(l) {
      EntryMovesStore(s, l, t);
    } else if IsJoinStep(l) {
      JoinKeepsStore(s, l, t);
    } else {
      LaunchKeepsStore(s, l, t);
    }
  }

  lemma JoinKeepsStore(s: State, l: Label, t: State)
    requires StoreRight(s) && Enabled(s, l) && IsJoinStep(l) && t == DoJoin(s, l)
    ensures StoreMove(s, t, l.c)
  {
    assert s.clients[l.c].stack != [] <==> s.store == OfClient(l.c);
  }

  lemma LaunchKeepsStore(s: State, l: Label, t: State)
    requires StoreRight(s) && Enabled(s, l) && !IsBuilderStep(l) && !IsJoinStep(l) && !IsEntryStep(l)
    requires t == DoLaunch(s, l)
    ensures StoreMove(s, t, l.c)
  {
    assert s.clients[l.c].stack != [] <==> s.store == OfClient(l.c);
  }

  lemma EntryMovesStore(s: State, l: Label, t: State)
    requires StoreRight(s) && Enabled(s, l) && IsEntryStep(l) && t == DoEntry(s, l)
    ensures StoreMove(s, t, l.c)
  {
    assert s.clients[l.c].stack != [] <==> s.store == OfClient(l.c);
  }

  lemma StepKeepsBuilders(s: State, l: Label)
    requires StoreRight(s) && BuildersRight(s) && Enabled(s, l)
    ensures BuildersRight(Do(s, l))
  {
  }

  lemma BuilderStepKeepsFlags(s: State, l: Label)
    requires LocksRight(s) && FlagsRight(s) && Enabled(s, l) && IsBuilderStep(l)
    ensures FlagsRight(Do(s, l))
  {
    var t := Do(s, l);
    assert t.clients == s.clients && t.mutex == s.mutex;
    assert forall d | 0 <= d < |s.builders| && d != l.b :: t.builders[d] == s.builders[d];
    if l.End? {
      assert SomeOpen(t) <==> SomeOpen(s);
      assert SomeLive(t) <==> SomeLive(s);
    } else {
      assert Open(s.builders[l.b]);
      assert SomeOpen(t) <==> Open(t.builders[l.b]);
      assert SomeLive(t) <==> Live(t.builders[l.b]);
    }
  }

  lemma ClientStepKeepsFlags(s: State, l: Label)
    requires LocksRight(s) && FlagsRight(s) && Enabled(s, l) && !IsBuilderStep(l)
    ensures FlagsRight(Do(s, l))
  {
    var t := Do(s, l);
    if l.Claim? || l.Reset? || l.Spawn? {
      LaunchStepKeepsFlags(s, l);
    } else {
      assert t.builders == s.builders && t.running == s.running && t.done == s.done;
      assert Claimed(t) <==> Claimed(s);
      assert AtSpawn(t) <==> AtSpawn(s);
    }
  }

  lemma LaunchStepKeepsFlags(s: State, l: Label)
    requires LocksRight(s) && FlagsRight(s) && Enabled(s, l) && (l.Claim? || l.Reset? || l.Spawn?)
    ensures FlagsRight(Do(s, l))
  {
    var t := Do(s, l);
    assert s.mutex == Some(l.c) && s.store == OfClient(l.c);
    assert forall b | 0 <= b < |s.builders| :: t.builders[b] == s.builders[b];
    if l.Spawn? {
      assert !SomeOpen(s) && Live(t.builders[|s.builders|]);
    } else {
      assert SomeOpen(t) <==> SomeOpen(s);
      assert SomeLive(t) <==> SomeLive(s);
      assert SomeOpen(s) ==> SomeLive(s);
    }
  }

  lemma StepKeepsHandle(s: State, l: Label)
    requires MutexRight(s) && HandleRight(s) && Enabled(s, l)
    ensures HandleRight(Do(s, l))
  {
    if IsBuilderStep(l) {
      BuilderKeepsHandle(s, l);
    } else {
      hide Do, Enabled, HandleRight, HandleMove;
      OthersStay(s, l, Do(s, l));
      HandleMoves(s, l, Do(s, l));
      MoveKeepsHandle(s, Do(s, l), l.c);
    }
  }

  lemma BuilderKeepsHandle(s: State, l: Label)
    requires HandleRight(s) && Enabled(s, l) && IsBuilderStep(l)
    ensures HandleRight(Do(s, l))
  {
    var t := Do(s, l);
    assert t.clients == s.clients && t.handle == s.handle && t.clean == s.clean && t.detached == s.detached;
    assert s.builders[l.b] != Ended;
  }

  lemma MoveKeepsHandle(s: State, t: State, c: nat)
    requires MutexRight(s) && HandleRight(s) && HandleMove(s, t, c)
    requires |t.clients| == |s.clients| && forall d | 0 <= d < |s.clients| && d != c :: t.clients[d] == s.clients[d]
    ensures HandleRight(t)
  {
  }

  /** Only the holder of the thread mutex changes the handle. */
  ghost predicate HandleMove(s: State, t: State, c: nat) {
    && c < |t.clients|
    && (t.clients[c].pc.Awaiting? || t.clients[c].pc.Reaping? ==> t.handle.Some?)
    && (t.clients[c].pc.Claiming? || t.clients[c].pc.Resetting? || t.clients[c].pc.Spawning? ==> t.handle == None)
    && (t.clean != {} ==> t.handle == None)
    && (t.handle != s.handle ==> s.mutex == Some(c))
    && (s.detached ==> t.detached)
    && (|| (t.builders == s.builders && t.handle == s.handle)
        || (t.builders == s.builders && t.handle == None && (HandleEnded(s) || t.detached))
        || (t.builders == s.builders + [Waiting] && t.handle == Some(|s.builders|) && s.handle == None))
  }

  lemma HandleMoves(s: State, l: Label, t: State)
    requires MutexRight(s) && HandleRight(s) && Enabled(s, l) && !IsBuilderStep(l) && t == Do(s, l)
    ensures HandleMove(s, t, l.c)
  {
    hide HandleMove;
    if IsJoinStep(l) {
      JoinMovesHandle(s, l, t);
    } else if IsEntryStep(l) {
      EntryKeepsHandle(s, l, t);
    } else {
      LaunchMovesHandle(s, l, t);
    }
  }

  lemma JoinMovesHandle(s: State, l: Label, t: State)
    requires MutexRight(s) && HandleRight(s) && Enabled(s, l) && IsJoinStep(l) && t == DoJoin(s, l)
    ensures HandleMove(s, t, l.c)
  {
    assert HoldsMutex(s.clients[l.c].pc) <==> s.mutex == Some(l.c);
  }

  lemma EntryKeepsHandle(s: State, l: Label, t: State)
    requires HandleRight(s) && Enabled(s, l) && IsEntryStep(l) && t == DoEntry(s, l)
    ensures HandleMove(s, t, l.c)
  {
  }

  lemma LaunchMovesHandle(s: State, l: Label, t: State)
    requires MutexRight(s) && HandleRight(s) && Enabled(s, l)
    requires !IsBuilderStep(l) && !IsJoinStep(l) && !IsEntryStep(l) && t == DoLaunch(s, l)
    ensures HandleMove(s, t, l.c)
  {
    assert HoldsMutex(s.clients[l.c].pc) <==> s.mutex == Some(l.c);
  }

  lemma StepKeepsInv(s: State, l: Label)
    requires Inv(s) && Enabled(s, l)
    ensures Inv(Do(s, l))
  {
    hide MutexRight, StoreRight, BuildersRight, FlagsRight, HandleRight, Enabled, Do;
    StepKeepsMutex(s, l);
    StepKeepsStore(s, l);
    StepKeepsBuilders(s, l);
    if IsBuilderStep(l) {
      BuilderStepKeepsFlags(s, l);
    } else {
      ClientStepKeepsFlags(s, l);
    }
    StepKeepsHandle(s, l);
  }

  lemma {:induction false} RunKeepsInv(n: nat, run: seq<Label>)
    ensures After(Start(n), run).Some? ==> Inv(After(Start(n), run).value)
  {
    if run != [] && After(Start(n), run).Some? {
      RunKeepsInv(n, run[..|run| - 1]);
      var s, l := After(Start(n), run[..|run| - 1]).value, run[|run| - 1];
      StepKeepsInv(s, l);
    }
  }

  lemma ReachableKeepsInv(s: State)
    requires Reachable(s)
    ensures Inv(s)
  {
    var run :| After(Start(|s.clients|), run) == Some(s);
    RunKeepsInv(|s.clients|, run);
  }

  // ---- Any number of clients ----

  /**
   * Between its claim and the clearing of the running flag there is one builder at most; no
   * builder works, and none is between its two completion stores, while an entry point
   * holds the store.
   */
  lemma BuilderIsAloneAndKeptOut(s: State, b: nat)
    requires Reachable(s) && b < |s.builders|
    ensures Live(s.builders[b]) ==> !Claimed(s) && forall d | 0 <= d < |s.builders| && d != b :: !Live(s.builders[d])
    ensures s.builders[b].Building? || s.builders[b].Cleared? || s.builders[b].Marked? ==>
      forall c | 0 <= c < |s.clients| :: s.clients[c].stack == []
  {
    ReachableKeepsInv(s);
  }

  /** At most one entry point uses the store at a time. */
  lemma EntryPointsExclude(s: State, c: nat, d: nat)
    requires Reachable(s) && c < d < |s.clients|
    ensures s.clients[c].stack == [] || s.clients[d].stack == []
  {
    ReachableKeepsInv(s);
  }

  /**
   * The flags never lie: done means that every builder has passed its second completion
   * store, and a builder that could still touch the store is named by the handle unless a
   * join once timed out.
   */
  lemma FlagsTellTheTruth(s: State, b: nat)
    requires Reachable(s) && b < |s.builders|
    ensures s.done ==> s.builders[b].Marked? || s.builders[b].Ended?
    ensures s.handle == None && !s.detached ==> s.builders[b] == Ended
  {
    ReachableKeepsInv(s);
    assert s.done ==> !Open(s.builders[b]);
  }

  /**
   * The join inside a launch finds no thread to wait for when no other entry point has
   * launched since this one joined.
   */
  lemma LaunchAfterItsJoinNeverWaits(s: State, c: nat)
    requires Reachable(s) && c < |s.clients| && s.clients[c].pc == Draining && c in s.clean
    ensures s.handle == None && Enabled(s, Drain(c))
  {
    ReachableKeepsInv(s);
  }
}
