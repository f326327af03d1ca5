/**
 * How the threads of the pipeline decide, told of one step: what each branch depends on, and
 * what it changes besides the program counter.
 */
module PipelineFacts {
  import opened QueueProtocol
  import opened Pipeline
  import opened PipelineSafety

  /** A temporary worker looks twice before each job: it goes when parsing is done, and when the pool has run dry. */
  lemma Yields(c: Config, s: State, s': State, w: nat)
    requires WorkerStep(c, s, s', w) && (s.workers[w].pc == CheckDone || s.workers[w].pc == CheckPool)
    ensures w in s'.workers && s' == s.(workers := s'.workers)
    ensures s.workers[w].pc == CheckDone ==> s'.workers[w].pc == if s.parseDone then ReturnCore else CheckPool
    ensures s.workers[w].pc == CheckPool ==> s'.workers[w].pc == if s.pool > 0 then Claim else ReturnCore
  {
  }

  /** After its last job a temporary worker returns its core, a static one is gone; each job is claimed by number. */
  lemma Claims(c: Config, s: State, s': State, w: nat)
    requires WorkerStep(c, s, s', w) && s.workers[w].pc == Claim
    ensures w in s'.workers && s'.nextJob == s.nextJob + 1 && s'.q == s.q
    ensures s'.workers[w].pc ==
      if s.nextJob < c.jobs then Parse(s.nextJob) else if s.workers[w].temp then ReturnCore else Gone
  {
  }

  /** Having handed a job over or dropped it, a temporary worker looks again; a static one claims the next. */
  lemma GoesOn(c: Config, s: State, s': State, w: nat)
    requires WorkerStep(c, s, s', w)
    requires s.workers[w].pc.Parse? || s.workers[w].pc.CountQueued?
    ensures w in s'.workers
    ensures s.workers[w].pc.CountQueued? ==>
        s'.filesQueued == s.filesQueued + 1 && s'.workers[w].pc == if s.workers[w].temp then CheckDone else Claim
    ensures s.workers[w].pc.Parse? ==>
        || s'.workers[w].pc == Pushing(s.workers[w].pc.job)
        || s'.workers[w].pc == (if s.workers[w].temp then CheckDone else Claim)
        || (s.workers[w].temp && s'.workers[w].pc == ReturnCore)
  {
    hide Enter;
  }

  /** The writer inserts when it has fifty results or the queue is closed, and remembers a failed insert. */
  lemma Writes(s: State, s': State)
    requires WriterStep(s, s')
    ensures s.writer == InnerHead ==> (s'.writer == Gate <==> |s.batch| >= 50)
    ensures s.writer == Gate ==> s' == s.(writer := if |s.batch| >= 50 || s.q.done then Insert else OuterHead)
    ensures s.writer == Insert ==>
      && s'.flushed == s.flushed + [s.batch] && s'.batch == [] && s'.writer == OuterHead
      && exists ok :: s'.inserted == s.inserted + [ok] && (s'.writerError <==> s.writerError || !ok)
    ensures s.writer == Ending ==> s'.verdict == if s.writerError then RolledBack else Committed
  {
    hide Enter, WriterPops;
  }

  /** The monitor goes when parsing is done, and grabs one core, below its cap and from a pool that has some. */
  lemma Monitors(c: Config, s: State, s': State)
    requires MonitorStep(c, s, s')
    ensures s.monitor == Loop ==> s' == s.(monitor := if s.parseDone then MonitorGone else Recheck)
    ensures s.monitor == Recheck ==> s' == s.(monitor := if s.parseDone then MonitorGone else LoadActive)
    ensures s.monitor == LoadActive ==> s' == s.(monitor := if s.active < 2 * c.want then GrabLoad else Loop)
    ensures s.monitor == GrabLoad ==> s' == s.(monitor := if s.pool > 0 then GrabCas(s.pool) else Loop)
    ensures s.monitor.GrabCas? && 0 < s.monitor.seen < U32 ==>
        || s' == s.(monitor := GrabLoad)
        || (s.pool == s.monitor.seen && s' == s.(pool := s.pool - 1, monitor := AddActive))
  {
  }

  /** The main thread shuts down in this order and waits where it says. */
  lemma ShutsDown(s: State, s': State)
    requires MainStep(s, s')
    ensures s.main == SpawnMonitor ==> s' == s.(monitor := Start, main := JoinStatic)
    ensures s.main == JoinStatic ==>
        s' == s.(main := SetDone) && forall w | w in s.workers :: s.workers[w].temp || s.workers[w].pc == Gone
    ensures s.main == SetDone ==> s' == s.(parseDone := true, main := JoinMonitor)
    ensures s.main == JoinMonitor ==> s' == s.(main := AwaitTemps) && s.monitor == MonitorGone
    ensures s.main == AwaitTemps ==> s' == s.(main := Close) && s.active == 0
    ensures s.main == Close ==> s'.main == JoinWriter && s'.q.done && s'.q.items == s.q.items
    ensures s.main == JoinWriter ==> s' == s.(main := Finished) && s.writer == Stopped
  {
  }

  /** Every number of static workers from one up is possible, with any pool, as far as 32 bits go. */
  lemma CanStart(c: Config)
    ensures (exists s :: Init(c, s)) <==> 1 <= c.want < 0x8000_0000 && c.cores < 0x1_0000_0000
  {
    if 1 <= c.want < 0x8000_0000 && c.cores < 0x1_0000_0000 {
      var s := State(New<nat>(c.capacity), map[], 0, map[], 0, OuterHead, [], [], [], false, 0, Open, false, 0,
                     c.cores, 0, NotStarted, SpawnStatic(c.want));
      assert Init(c, s);
    }
  }
}
