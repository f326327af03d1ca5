/**
 * The builder protocol on one thread, step by step: a launch and the join that reaps it, a join
 * that gives up, and a launch while a builder is running.
 */
module BuilderFacts {
  import opened Basics
  import opened BuilderProtocol

  /** The state of one client, in full. */
  function One(pc: Pc, stack: seq<Frame>, builders: seq<Builder>, handle: Option<nat>, mutex: Option<nat>,
               store: Owner, running: bool, done: bool, clean: set<nat>, detached: bool): State
  {
    State([Client(pc, stack)], builders, handle, mutex, store, running, done, clean, detached)
  }

  ghost predicate Goes(s: State, l: Label, t: State) { Enabled(s, l) && Do(s, l) == t }

  /** An index request with nothing running: it joins nobody, takes the store, and goes to launch. */
  lemma Arrives()
    ensures Start(1) == One(Idle, [], [], None, None, Free, false, true, {}, false)
    ensures Goes(Start(1), Begin(0, Index), One(Joining, [], [], None, None, Free, false, true, {}, false))
    ensures Goes(One(Joining, [], [], None, None, Free, false, true, {}, false), EnterJoin(0),
                 One(Guarding(Index), [], [], None, None, Free, false, true, {0}, false))
    ensures Goes(One(Guarding(Index), [], [], None, None, Free, false, true, {0}, false), Acquire(0),
                 One(Working, [Index], [], None, None, OfClient(0), false, true, {0}, false))
  {
    assert Start(1).clients == [Client(Idle, [])];
    assert [] + [Index] == [Index];
  }

  // The launch: under the thread mutex it drains and claims the running flag, resets done, spawns and leaves.
  lemma Launches()
    ensures Goes(One(Working, [Index], [], None, None, OfClient(0), false, true, {0}, false), Launch(0),
                 One(Launching, [Index], [], None, None, OfClient(0), false, true, {0}, false))
    ensures Goes(One(Launching, [Index], [], None, None, OfClient(0), false, true, {0}, false), Lock(0),
                 One(Draining, [Index], [], None, Some(0), OfClient(0), false, true, {0}, false))
  {
  }

  lemma Drains()
    ensures Goes(One(Draining, [Index], [], None, Some(0), OfClient(0), false, true, {0}, false), Drain(0),
                 One(Claiming, [Index], [], None, Some(0), OfClient(0), false, true, {0}, false))
    ensures Goes(One(Claiming, [Index], [], None, Some(0), OfClient(0), false, true, {0}, false), Claim(0),
                 One(Resetting, [Index], [], None, Some(0), OfClient(0), true, true, {0}, false))
  {
  }

  lemma Spawns()
    ensures Goes(One(Resetting, [Index], [], None, Some(0), OfClient(0), true, true, {0}, false), Reset(0),
                 One(Spawning, [Index], [], None, Some(0), OfClient(0), true, false, {0}, false))
  {
  }

  lemma Departs()
    ensures Goes(One(Spawning, [Index], [], None, Some(0), OfClient(0), true, false, {0}, false), Spawn(0),
                 One(Leaving, [Index], [Waiting], Some(0), None, OfClient(0), true, false, {}, false))
    ensures Goes(One(Leaving, [Index], [Waiting], Some(0), None, OfClient(0), true, false, {}, false), Leave(0),
                 One(Idle, [], [Waiting], Some(0), None, Free, true, false, {}, false))
  {
  }

  /** The builder: it takes the free store, and clears running before it sets done and lets go. */
  lemma Builds()
    ensures Goes(One(Idle, [], [Waiting], Some(0), None, Free, true, false, {}, false), Take(0),
                 One(Idle, [], [Building], Some(0), None, OfBuilder(0), true, false, {}, false))
    ensures Goes(One(Idle, [], [Building], Some(0), None, OfBuilder(0), true, false, {}, false), Clear(0),
                 One(Idle, [], [Cleared], Some(0), None, OfBuilder(0), false, false, {}, false))
    ensures Goes(One(Idle, [], [Cleared], Some(0), None, OfBuilder(0), false, false, {}, false), Mark(0),
                 One(Idle, [], [Marked], Some(0), None, OfBuilder(0), false, true, {}, false))
    ensures Goes(One(Idle, [], [Marked], Some(0), None, OfBuilder(0), false, true, {}, false), End(0),
                 One(Idle, [], [Ended], Some(0), None, Free, false, true, {}, false))
  {
  }

  /** The next join waits for done under the thread mutex, then for the thread, and leaves no handle. */
  lemma Reaps()
    ensures Goes(One(Joining, [], [Marked], Some(0), None, OfBuilder(0), false, true, {}, false), EnterJoin(0),
                 One(Awaiting, [], [Marked], Some(0), Some(0), OfBuilder(0), false, true, {}, false))
    ensures Goes(One(Awaiting, [], [Marked], Some(0), Some(0), OfBuilder(0), false, true, {}, false), SeeDone(0),
                 One(Reaping, [], [Marked], Some(0), Some(0), OfBuilder(0), false, true, {}, false))
    ensures !Enabled(One(Reaping, [], [Marked], Some(0), Some(0), OfBuilder(0), false, true, {}, false), Reap(0))
    ensures Goes(One(Reaping, [], [Ended], Some(0), Some(0), Free, false, true, {}, false), Reap(0),
                 One(Guarding(Index), [], [Ended], None, None, Free, false, true, {0}, false))
  {
  }

  /** A join that times out lets the builder go; the store guard that follows may time out too. */
  lemma GivesUp()
    ensures Goes(One(Awaiting, [], [Building], Some(0), Some(0), OfBuilder(0), true, false, {}, false), GiveUp(0),
                 One(Guarding(Index), [], [Building], None, None, OfBuilder(0), true, false, {0}, true))
    ensures !Enabled(One(Guarding(Index), [], [Building], None, None, OfBuilder(0), true, false, {0}, true), Acquire(0))
    ensures Goes(One(Guarding(Index), [], [Building], None, None, OfBuilder(0), true, false, {0}, true), Timeout(0),
                 One(Idle, [], [Building], None, None, OfBuilder(0), true, false, {0}, true))
  {
  }

  /** A launch that finds the running flag set leaves without a builder of its own. */
  lemma SkipsWhileRunning()
    ensures Goes(One(Claiming, [Index], [Waiting], None, Some(0), OfClient(0), true, false, {0}, true), Claim(0),
                 One(Leaving, [Index], [Waiting], None, None, OfClient(0), true, false, {0}, true))
  {
  }

  /** An entry point inside another takes the store again, and only the outermost gives it back. */
  lemma Nests()
    ensures Goes(One(Working, [Read], [], None, None, OfClient(0), false, true, {}, false), Begin(0, Index),
                 One(Joining, [Read], [], None, None, OfClient(0), false, true, {}, false))
    ensures Goes(One(Guarding(Index), [Read], [], None, None, OfClient(0), false, true, {0}, false), Acquire(0),
                 One(Working, [Read, Index], [], None, None, OfClient(0), false, true, {0}, false))
    ensures Goes(One(Leaving, [Read, Index], [], None, None, OfClient(0), false, true, {0}, false), Leave(0),
                 One(Working, [Read], [], None, None, OfClient(0), false, true, {0}, false))
    ensures !Enabled(One(Guarding(Index), [Read], [], None, None, OfClient(0), false, true, {0}, false), Timeout(0))
    ensures !Enabled(One(Working, [Read], [], None, None, OfClient(0), false, true, {0}, false), Launch(0))
  {
    assert [Read] + [Index] == [Read, Index] && [Read, Index][..1] == [Read];
  }
}
