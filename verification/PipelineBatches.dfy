/** The writer's batches: fifty results each, except that the last may be shorter. */
module PipelineBatches {
  import opened Basics
  import opened QueueProtocol
  import opened Pipeline
  import opened PipelineSafety

  /** Nothing more can come out of the queue. */
  ghost predicate Drained(s: State) { s.q.done && s.q.items == [] }

  ghost predicate FullBatches(s: State) {
    && (forall i | 0 <= i < |s.flushed| - 1 :: |s.flushed[i]| == 50)
    && (s.flushed != [] && |s.flushed[|s.flushed| - 1]| != 50 ==> Drained(s) && s.batch == [])
    && (s.writer.Insert? && |s.batch| < 50 ==> Drained(s))
  }

  lemma WorkerKeepsDrained(c: Config, s: State, s': State, w: nat)
    requires WorkerStep(c, s, s', w)
    ensures Drained(s) ==> Drained(s')
    ensures s'.flushed == s.flushed && s'.batch == s.batch && s'.writer == s.writer
  {
    hide WorkerStep;
    WorkerEffect(c, s, s', w);
  }

  lemma WriterKeepsBatches(s: State, s': State)
    requires Written(s) && FullBatches(s) && WriterStep(s, s')
    ensures FullBatches(s')
  {
    if s.writer.Insert? {
      hide Concat;
      assert s'.flushed == s.flushed + [s.batch];
    } else {
      WriterMoves(s, s');
    }
  }

  lemma WriterMoves(s: State, s': State)
    requires Written(s) && FullBatches(s) && WriterStep(s, s') && !s.writer.Insert?
    ensures FullBatches(s')
  {
    hide Concat, NotifyOne, WriterPops;
    if s.writer.OuterPop? || s.writer.InnerPop? {
      PopsKeepDrained(s, s', if s.writer.OuterPop? then TailCheck else Gate);
    } else {
      OtherMoves(s, s');
      hide WriterStep, Written;
    }
  }

  lemma OtherMoves(s: State, s': State)
    requires Written(s) && WriterStep(s, s') && !s.writer.Insert? && !s.writer.OuterPop? && !s.writer.InnerPop?
    ensures s'.flushed == s.flushed && s'.batch == s.batch && s'.q.items == s.q.items && s'.q.done == s.q.done
    ensures s'.writer.Insert? && |s.batch| < 50 ==> Drained(s)
  {
    NoTailInsert(s);
    if s.writer.Gate? && |s.batch| < 50 {
      GateIsShort(s);
    }
    hide Written, WriterPops, InsertsBatch;
  }

  lemma NoTailInsert(s: State)
    requires Written(s)
    ensures !s.writer.TailInsert?
  {
  }

  lemma GateIsShort(s: State)
    requires Written(s) && s.writer.Gate? && |s.batch| < 50
    ensures Drained(s)
  {
  }

  lemma PopsKeepDrained(s: State, s': State, closed: WriterPc)
    requires WriterPops(s, s', closed)
    ensures s'.flushed == s.flushed && s'.q.done == s.q.done
    ensures s'.writer == s.writer || s'.writer == InnerHead || s'.writer == closed
    ensures s.q.items == [] ==> s'.q.items == [] && s'.batch == s.batch
  {
    hide NotifyOne;
  }

  lemma NextKeepsBatches(c: Config, s: State, s': State, who: Who)
    requires Written(s) && FullBatches(s) && Next(c, s, s', who)
    ensures FullBatches(s')
  {
    hide WorkerStep, WriterStep, MonitorStep, MainStep, Written;
    match who
    case ByWorker(w) => WorkerKeepsDrained(c, s, s', w);
    case ByWriter => WriterKeepsBatches(s, s');
    case ByMonitor => MonitorFrame(c, s, s');
    case ByMain => MainFrame(s, s');
    case Spurious(_) =>
    case OthersGrab(_) =>
    case OthersReturn(_) =>
  }

  /** In every run all batches written but the last hold fifty results, and the last no more than that. */
  lemma {:induction false} BatchesAreFull(c: Config, run: seq<State>, acts: seq<Who>)
    requires IsRun(c, run, acts)
    ensures FullBatches(run[|acts|])
    ensures forall b | b in run[|acts|].flushed :: 1 <= |b| <= 50
  {
    hide Next, Cores, Phases, OnlyTempsYield, Clients, Jobs, Counted;
    RunIsSafe(c, run, acts);
    if acts != [] {
      var n := |acts| - 1;
      BatchesAreFull(c, run[..n + 1], acts[..n]);
      RunIsSafe(c, run[..n + 1], acts[..n]);
      NextKeepsBatches(c, run[n], run[n + 1], acts[n]);
    }
  }
}
