/**
 * The streaming pipeline cannot get stuck: from every state a run can reach, its own threads
 * can go on to the end, without waiting for a spurious wakeup or for another process, and
 * however parses, thread starts and inserts turn out.
 */
module PipelineProgress {
  import opened Basics
  import opened QueueProtocol
  import opened Pipeline
  import opened PipelineSafety

  // ---- Outcomes the pipeline does not choose ----

  datatype ParseOutcome = Nothing | Result | Exception

  /** How every parse, thread start and insert turns out, in whatever state it happens. */
  datatype Plan = Plan(parseStatic: (State, nat) -> bool, parseTemp: (State, nat) -> ParseOutcome,
                       startStatic: State -> bool, startTemp: State -> bool, insert: State -> bool)

  ghost function Outcome(plan: Plan, s: State, w: nat): ParseOutcome
    requires w in s.workers
  {
    if s.workers[w].temp then plan.parseTemp(s, w)
    else if plan.parseStatic(s, w) then Result else Nothing
  }

  /** A step whose outcome, if it has one, is the one the plan lays down. */
  ghost predicate Conforms(plan: Plan, s: State, s': State, who: Who) {
    match who
    case ByWorker(w) =>
      && w in s.workers && w in s'.workers
      && (s.workers[w].pc.Parse? ==>
          match Outcome(plan, s, w)
          case Result => s'.workers[w].pc.Pushing?
          case Nothing => s'.fate == s.fate[s.workers[w].pc.job := Skipped]
          case Exception => s'.fate == s.fate[s.workers[w].pc.job := Thrown])
    case ByMain => s.main.SpawnStatic? && s.main.left > 0 ==> (s'.workers != s.workers <==> plan.startStatic(s))
    case ByMonitor => s.monitor.Spawn? ==> (s'.workers != s.workers <==> plan.startTemp(s))
    case ByWriter => s.writer.Insert? || s.writer.TailInsert? ==> s'.inserted == s.inserted + [plan.insert(s)]
    case _ => true
  }

  // ---- A measure that some step can always lower ----

  ghost function PcRank(pc: Pc): nat {
    match pc
    case Gone => 0
    case Retire => 1
    case ReturnCore => 2
    case Claim => 3
    case CheckPool => 4
    case CheckDone => 5
    case CountQueued => 6
    case Pushing(_) => 7
    case Parse(_) => 8
  }

  const TOP_RANK := 8

  ghost function AtLeast(k: nat): Worker -> bool {
    (x: Worker) => PcRank(x.pc) >= k
  }

  /** The sum of all ranks, counted level by level. */
  ghost function RankSum(workers: map<nat, Worker>, k: nat): nat {
    if k == 0 then 0 else |Those(workers, AtLeast(k))| + RankSum(workers, k - 1)
  }

  lemma {:induction false} RankSumChanged(workers: map<nat, Worker>, w: nat, x: Worker, k: nat)
    requires w in workers
    ensures RankSum(workers[w := x], k) + Min(PcRank(workers[w].pc), k) == RankSum(workers, k) + Min(PcRank(x.pc), k)
  {
    if k > 0 {
      WorkerChanged(workers, w, x, AtLeast(k));
      RankSumChanged(workers, w, x, k - 1);
    }
  }

  /** A worker with a job in its hands. */
  ghost predicate IsLoaded(x: Worker) { x.pc.Parse? || x.pc.Pushing? }

  ghost function Awake<V>(clients: map<nat, Client<V>>): set<nat> {
    set t | t in clients && clients[t].call.Push? && !clients[t].wait.Asleep?
  }

  ghost function MonitorRank(s: State): nat {
    match s.monitor
    case MonitorGone => 0
    case Loop => 1
    case FailRetire => 2
    case FailReturn => 3
    case Spawn => 4
    case AddActive => 5
    case GrabCas(seen) => if s.pool == seen then 6 else 8
    case GrabLoad => 7
    case LoadActive => 9
    case Recheck => 10
    case Start => 11
    case NotStarted => 12
  }

  /** The monitor can start one more temporary worker, at most, once the parse phase is over. */
  ghost function MayStart(s: State): nat {
    var m := s.monitor;
    if !s.parseDone || m.LoadActive? || m.GrabLoad? || m.GrabCas? || m.AddActive? || m.Spawn? then 1 else 0
  }

  ghost predicate WriterSleeps(s: State) {
    WRITER in s.q.clients && s.q.clients[WRITER].wait.Asleep?
  }

  ghost function WriterRank(s: State): nat {
    match s.writer
    case Stopped => 0
    case Ending => 1
    case TailInsert => 2
    case TailCheck => 3
    case OuterPop => if WriterSleeps(s) then 4 else 5
    case OuterHead => 6
    case Insert => 7
    case Gate => 8
    case InnerPop => if WriterSleeps(s) then 9 else 10
    case InnerHead => 11
  }

  /** Compared from left to right. */
  datatype Measure = Measure(
    spawns: nat, unclaimed: nat, undelivered: nat, starts: nat, ranks: nat, stages: nat, monitor: nat, awake: nat,
    writer: nat)

  ghost function MeasureOf(c: Config, s: State): Measure {
    Measure(
      if s.main.SpawnStatic? then s.main.left else 0,
      c.jobs - Claimed(c, s),
      |s.q.items| + |Those(s.workers, IsLoaded)|,
      MayStart(s),
      RankSum(s.workers, TOP_RANK),
      8 - Stage(s.main),
      MonitorRank(s),
      |Awake(s.q.clients)|,
      WriterRank(s))
  }

  ghost predicate Less(m: Measure, n: Measure) {
    m.spawns < n.spawns || (m.spawns == n.spawns && (
    m.unclaimed < n.unclaimed || (m.unclaimed == n.unclaimed && (
    m.undelivered < n.undelivered || (m.undelivered == n.undelivered && (
    m.starts < n.starts || (m.starts == n.starts && (
    m.ranks < n.ranks || (m.ranks == n.ranks && (
    m.stages < n.stages || (m.stages == n.stages && (
    m.monitor < n.monitor || (m.monitor == n.monitor && (
    m.awake < n.awake || (m.awake == n.awake && m.writer < n.writer)))))))))))))))
  }

  // ---- Every thread that is not asleep can take a step that lowers the measure ----

  lemma PushCanRun(s: State, w: nat) returns (q': Queue<nat>)
    requires Clients(s) && w in s.workers && s.workers[w].pc.Pushing? && !s.q.done && Runs(s.q, w)
    ensures Block(s.q, q', w) || PushReturns(s.q, q', w)
  {
    if |s.q.items| < s.q.capacity {
      var after := SomeoneIsNotified(s.q.clients - {w}, false);
      var v := s.q.clients[w].call.value;
      q' := Queue(s.q.capacity, s.q.items + [v], false, after, s.q.accepted + [v], s.q.taken);
    } else {
      q' := s.q.(clients := s.q.clients[w := s.q.clients[w].(wait := Asleep)]);
    }
  }

  /** A worker outside the queue: any step it takes, except entering the queue. */
  lemma WorkerLowers(c: Config, s: State, s': State, w: nat)
    requires w in s.workers && w in s'.workers && Effect(c, s, s', w, s.workers[w], s'.workers[w])
    requires !s.workers[w].pc.Pushing? && !s'.workers[w].pc.Pushing?
    requires (s.workers[w].pc.Claim? && s.nextJob < c.jobs) || PcRank(s'.workers[w].pc) < PcRank(s.workers[w].pc)
    ensures Less(MeasureOf(c, s'), MeasureOf(c, s))
  {
    hide Those, MonitorRank, WriterRank, Awake, Counts;
    WorkerChanged(s.workers, w, s'.workers[w], IsLoaded);
    RankSumChanged(s.workers, w, s'.workers[w], TOP_RANK);
  }

  lemma BlockedPushLowers(c: Config, s: State, s': State, w: nat)
    requires Clients(s) && w in s.workers && s.workers[w].pc.Pushing?
    requires Block(s.q, s'.q, w) && s' == s.(q := s'.q)
    ensures Less(MeasureOf(c, s'), MeasureOf(c, s))
  {
    assert Awake(s'.q.clients) == Awake(s.q.clients) - {w} && w in Awake(s.q.clients);
    hide Those, WriterRank, Awake;
  }

  lemma PushLowers(c: Config, s: State, s': State, w: nat)
    requires w in s.workers && w in s'.workers && Effect(c, s, s', w, s.workers[w], s'.workers[w])
    requires s.workers[w].pc.Pushing? && s'.workers[w].pc.CountQueued? && !s.q.done
    ensures Less(MeasureOf(c, s'), MeasureOf(c, s))
  {
    hide Those, MonitorRank, WriterRank, Counts, NotifyOne, Awake;
    WorkerChanged(s.workers, w, s'.workers[w], IsLoaded);
    RankSumChanged(s.workers, w, s'.workers[w], TOP_RANK);
  }

  lemma PushingWorkerCanStep(plan: Plan, c: Config, s: State, w: nat) returns (s': State)
    requires Safe(c, s) && w in s.workers && s.workers[w].pc.Pushing? && Runs(s.q, w)
    ensures WorkerStep(c, s, s', w) && Conforms(plan, s, s', ByWorker(w)) && Less(MeasureOf(c, s'), MeasureOf(c, s))
  {
    OpenWhileWorking(c, s, w);
    var q' := PushCanRun(s, w);
    hide Safe, MeasureOf, Less, PushReturns, Block;
    if Block(s.q, q', w) {
      s' := s.(q := q');
      BlockedPushLowers(c, s, s', w);
    } else {
      s' := To(s.(fate := s.fate[s.workers[w].pc.job := Delivered], q := q'), w, CountQueued);
      assert PushStep(s, s', w, s.workers[w].pc.job);
      PushEffect(c, s, s', w);
      PushLowers(c, s, s', w);
    }
  }

  /** A parse that ends in a result: the job is still in hand, now on its way to the queue. */
  lemma ResultLowers(c: Config, s: State, s': State, w: nat)
    requires w in s.workers && w in s'.workers && Effect(c, s, s', w, s.workers[w], s'.workers[w])
    requires s.workers[w].pc.Parse? && s'.workers[w].pc.Pushing?
    ensures Less(MeasureOf(c, s'), MeasureOf(c, s))
  {
    hide Those, MonitorRank, WriterRank, Counts, Awake;
    WorkerChanged(s.workers, w, s'.workers[w], IsLoaded);
    RankSumChanged(s.workers, w, s'.workers[w], TOP_RANK);
  }

  lemma ParsingWorkerCanStep(plan: Plan, c: Config, s: State, w: nat) returns (s': State)
    requires Safe(c, s) && w in s.workers && s.workers[w].pc.Parse?
    ensures WorkerStep(c, s, s', w) && Conforms(plan, s, s', ByWorker(w)) && Less(MeasureOf(c, s'), MeasureOf(c, s))
  {
    NotInQueue(c, s, w);
    hide Safe, MeasureOf, Less, Conforms, ParseStep;
    s' := PrescribedParse(plan, s, w);
    WorkerEffect(c, s, s', w);
    if s'.workers[w].pc.Pushing? {
      ResultLowers(c, s, s', w);
    } else {
      WorkerLowers(c, s, s', w);
    }
  }

  /** The parse with the outcome the plan has for it. */
  lemma PrescribedParse(plan: Plan, s: State, w: nat) returns (s': State)
    requires w in s.workers && s.workers[w].pc.Parse? && w !in s.q.clients
    ensures ParseStep(s, s', w, s.workers[w].pc.job) && Conforms(plan, s, s', ByWorker(w))
    ensures w in s'.workers
  {
    var temp, j := s.workers[w].temp, s.workers[w].pc.job;
    match Outcome(plan, s, w) {
      case Nothing => s' := To(s.(fate := s.fate[j := Skipped]), w, Head(temp));
      case Exception => s' := To(s.(fate := s.fate[j := Thrown]), w, ReturnCore);
      case Result =>
        var q' := s.q.(clients := s.q.clients[w := Client(Push(j), Trying)]);
        s' := To(s.(fate := s.fate[j := AtQueue(w)], q := q'), w, Pushing(j));
    }
  }

  lemma NotInQueue(c: Config, s: State, w: nat)
    requires Safe(c, s) && w in s.workers && !s.workers[w].pc.Pushing?
    ensures w !in s.q.clients
  {
  }

  /** Any other worker just goes on. */
  lemma OtherWorkerCanStep(plan: Plan, c: Config, s: State, w: nat) returns (s': State)
    requires Safe(c, s) && w in s.workers && !IsLoaded(s.workers[w]) && s.workers[w].pc != Gone
    ensures WorkerStep(c, s, s', w) && Conforms(plan, s, s', ByWorker(w)) && Less(MeasureOf(c, s'), MeasureOf(c, s))
  {
    hide Safe, MeasureOf, Less, WorkerStep, Conforms;
    s' := OtherMove(plan, c, s, w);
    WorkerEffect(c, s, s', w);
    WorkerLowers(c, s, s', w);
  }

  lemma OtherMove(plan: Plan, c: Config, s: State, w: nat) returns (s': State)
    requires w in s.workers && !IsLoaded(s.workers[w]) && s.workers[w].pc != Gone
    ensures WorkerStep(c, s, s', w) && Conforms(plan, s, s', ByWorker(w))
    ensures w in s'.workers && !s.workers[w].pc.Pushing? && !s'.workers[w].pc.Pushing?
    ensures (s.workers[w].pc.Claim? && s.nextJob < c.jobs) || PcRank(s'.workers[w].pc) < PcRank(s.workers[w].pc)
  {
    var temp := s.workers[w].temp;
    match s.workers[w].pc {
      case CheckDone => s' := To(s, w, if s.parseDone then ReturnCore else CheckPool);
      case CheckPool => s' := To(s, w, if s.pool == 0 then ReturnCore else Claim);
      case Claim =>
        if s.nextJob < c.jobs {
          s' := To(s.(nextJob := s.nextJob + 1, fate := s.fate[s.nextJob := InHand(w)]), w, Parse(s.nextJob));
        } else {
          s' := To(s.(nextJob := s.nextJob + 1), w, Quit(temp));
        }
      case CountQueued => s' := To(s.(filesQueued := s.filesQueued + 1), w, Head(temp));
      case ReturnCore => s' := To(s.(pool := Inc32(s.pool)), w, Retire);
      case Retire => s' := To(s.(active := Dec32(s.active)), w, Gone);
    }
  }

  // ---- The writer ----

  lemma WriterPopLowers(c: Config, s: State, s': State, closed: WriterPc)
    requires Clients(s) && Written(s) && (s.writer.OuterPop? || s.writer.InnerPop?)
    requires closed == if s.writer.OuterPop? then TailCheck else Gate
    requires WriterPops(s, s', closed)
    ensures Less(MeasureOf(c, s'), MeasureOf(c, s))
  {
    hide Those, Written, NotifyOne, RankSum, MonitorRank, Clients, WriterRank, Awake;
    SameMonitorRank(s, s');
    if Block(s.q, s'.q, WRITER) || s.q.items == [] {
      WriterWaitsOrEnds(s, s', closed);
    }
    WriterPopFrame(s, s', closed);
    hide WriterPops, Block;
  }

  lemma WriterPopFrame(s: State, s': State, closed: WriterPc)
    requires WriterPops(s, s', closed)
    ensures s' == s.(q := s'.q, batch := s'.batch, writer := s'.writer)
    ensures s'.q.items == s.q.items || |s'.q.items| < |s.q.items|
    ensures s'.q.items == s.q.items ==> Block(s.q, s'.q, WRITER) || s.q.items == []
  {
  }

  lemma SameMonitorRank(s: State, s': State)
    requires s'.monitor == s.monitor && s'.pool == s.pool
    ensures MonitorRank(s') == MonitorRank(s)
  {
  }

  lemma WriterWaitsOrEnds(s: State, s': State, closed: WriterPc)
    requires Clients(s) && (s.writer.OuterPop? || s.writer.InnerPop?)
    requires closed == if s.writer.OuterPop? then TailCheck else Gate
    requires WriterPops(s, s', closed) && (Block(s.q, s'.q, WRITER) || s.q.items == [])
    ensures Awake(s'.q.clients) == Awake(s.q.clients) && WriterRank(s') < WriterRank(s)
  {
    hide NotifyOne, Inv;
  }

  lemma WriterMoveLowers(c: Config, s: State, s': State)
    requires Clients(s) && !s.writer.OuterPop? && !s.writer.InnerPop? && WriterStep(s, s')
    ensures Less(MeasureOf(c, s'), MeasureOf(c, s))
  {
    WriterMoveRank(s, s');
    assert Awake(s'.q.clients) == Awake(s.q.clients);
    WriterFrame(s, s');
    hide WriterStep, Those, Clients, Awake, WriterRank;
  }

  lemma WriterMoveRank(s: State, s': State)
    requires !s.writer.OuterPop? && !s.writer.InnerPop? && WriterStep(s, s')
    ensures WriterRank(s') < WriterRank(s) && s'.q.items == s.q.items
    ensures s'.q.clients == s.q.clients || s'.q.clients == s.q.clients[WRITER := Client(Pop, Trying)]
  {
    hide WriterPops;
  }

  lemma WriterCanStep(plan: Plan, c: Config, s: State) returns (s': State)
    requires Safe(c, s) && !s.writer.Stopped? && !WriterSleeps(s)
    ensures WriterStep(s, s') && Conforms(plan, s, s', ByWriter) && Less(MeasureOf(c, s'), MeasureOf(c, s))
  {
    if s.writer.OuterPop? || s.writer.InnerPop? {
      var closed := if s.writer.OuterPop? then TailCheck else Gate;
      if !Ready(s.q, Pop) {
        s' := s.(q := s.q.(clients := s.q.clients[WRITER := s.q.clients[WRITER].(wait := Asleep)]));
      } else if s.q.items == [] {
        s' := s.(q := s.q.(clients := s.q.clients - {WRITER}), writer := closed);
      } else {
        var after := SomeoneIsNotified(s.q.clients - {WRITER}, true);
        var q' := Queue(s.q.capacity, s.q.items[1..], s.q.done, after, s.q.accepted, s.q.taken + [s.q.items[0]]);
        s' := s.(q := q', batch := s.batch + [s.q.items[0]], writer := InnerHead);
      }
      assert WriterPops(s, s', closed);
      WriterPopLowers(c, s, s', closed);
    } else {
      s' := WriterNext(plan, s);
      WriterMoveLowers(c, s, s');
    }
  }

  ghost function WriterNext(plan: Plan, s: State): (s': State)
    requires Clients(s) && !s.writer.OuterPop? && !s.writer.InnerPop? && !s.writer.Stopped?
    ensures WriterStep(s, s') && Conforms(plan, s, s', ByWriter)
  {
    var q' := s.q.(clients := s.q.clients[WRITER := Client(Pop, Trying)]);
    match s.writer
    case OuterHead => s.(q := q', writer := OuterPop)
    case InnerHead => if |s.batch| < BATCH then s.(q := q', writer := InnerPop) else s.(writer := Gate)
    case Gate => s.(writer := if |s.batch| >= BATCH || s.q.done then Insert else OuterHead)
    case Insert => Inserted(s, plan.insert(s), [], OuterHead)
    case TailCheck => s.(writer := if s.batch == [] then Ending else TailInsert)
    case TailInsert => Inserted(s, plan.insert(s), s.batch, Ending)
    case Ending => s.(verdict := if s.writerError then RolledBack else Committed, writer := Stopped)
  }

  ghost function Inserted(s: State, ok: bool, batch': seq<nat>, next: WriterPc): (s': State)
    ensures InsertsBatch(s, s', batch', next) && s'.inserted == s.inserted + [ok]
  {
    s.(inserted := s.inserted + [ok], writerError := s.writerError || !ok, flushed := s.flushed + [s.batch],
       filesWritten := s.filesWritten + |s.batch|, batch := batch', writer := next)
  }

  // ---- The monitor, once the parse phase is over ----

  lemma MonitorCanStep(plan: Plan, c: Config, s: State) returns (s': State)
    requires Safe(c, s) && s.parseDone && !s.monitor.MonitorGone?
    ensures MonitorStep(c, s, s') && Conforms(plan, s, s', ByMonitor) && Less(MeasureOf(c, s'), MeasureOf(c, s))
  {
    hide Those, Cores, Clients, Jobs, Written, Counted, SpawnsTemp, WriterRank, Awake, RankSum;
    match s.monitor {
      case Start => s' := s.(monitor := if c.shared then Loop else MonitorGone);
      case Loop => s' := s.(monitor := MonitorGone);
      case Recheck => s' := s.(monitor := MonitorGone);
      case LoadActive => s' := s.(monitor := if s.active >= c.want * 2 then Loop else GrabLoad);
      case GrabLoad => s' := s.(monitor := if s.pool == 0 then Loop else GrabCas(s.pool));
      case GrabCas(seen) =>
        if s.pool == seen {
          s' := s.(pool := Dec32(seen), monitor := AddActive);
        } else {
          s' := s.(monitor := GrabLoad);
        }
      case AddActive => s' := s.(active := Inc32(s.active), monitor := Spawn);
      case Spawn =>
        if plan.startTemp(s) {
          s' := StartedTemp(c, s);
        } else {
          s' := s.(monitor := FailReturn);
        }
      case FailReturn => s' := s.(pool := Inc32(s.pool), monitor := FailRetire);
      case FailRetire => s' := s.(active := Dec32(s.active), monitor := Loop);
    }
  }

  /** One more temporary worker: the monitor cannot start another. */
  lemma StartedTemp(c: Config, s: State) returns (s': State)
    requires WRITER !in s.workers && s.parseDone && s.monitor.Spawn?
    ensures SpawnsTemp(s, s') && s'.workers != s.workers && Less(MeasureOf(c, s'), MeasureOf(c, s))
  {
    var w := LargerThanAll(s.workers.Keys);
    s' := s.(workers := s.workers[w := Worker(true, CheckDone)], monitor := Loop);
    hide Those, WriterRank, Awake, RankSum, MonitorRank;
    WorkerChanged(s.workers, w, Worker(true, CheckDone), IsLoaded);
  }

  // ---- The main thread ----

  lemma {:induction false} LargerThanAll(used: set<nat>) returns (w: nat)
    ensures w >= 1 && forall v: nat | v in used :: v < w
  {
    if used == {} {
      w := 1;
    } else {
      var v :| v in used;
      var u := LargerThanAll(used - {v});
      assert forall x | x in used :: x == v || x in used - {v};
      w := if u > v then u else v + 1;
    }
  }

  /** The main thread has nothing to wait for. */
  ghost predicate MainReady(s: State) {
    match s.main
    case JoinStatic => StaticGone(s)
    case JoinMonitor => s.monitor == MonitorGone
    case AwaitTemps => s.active == 0
    case JoinWriter => s.writer == Stopped
    case Finished => false
    case _ => true
  }

  lemma MainCanStep(plan: Plan, c: Config, s: State) returns (s': State)
    requires Safe(c, s) && MainReady(s)
    ensures MainStep(s, s') && Conforms(plan, s, s', ByMain) && Less(MeasureOf(c, s'), MeasureOf(c, s))
  {
    hide Those, Cores, Clients, Jobs, Written, Counted, WriterRank, Awake, RankSum;
    match s.main {
      case SpawnStatic(left) =>
        if left == 0 {
          s' := s.(main := SpawnMonitor);
        } else {
          s' := StartedStatic(plan, c, s);
        }
      case SpawnMonitor => s' := s.(monitor := Start, main := JoinStatic);
      case JoinStatic => s' := s.(main := SetDone);
      case SetDone => s' := s.(parseDone := true, main := JoinMonitor);
      case JoinMonitor => s' := s.(main := AwaitTemps);
      case AwaitTemps => s' := s.(main := Close);
      case Close =>
        var clients := NotifyAll(NotifyAll(s.q.clients, false), true);
        s' := s.(q := s.q.(done := true, clients := clients), main := JoinWriter);
      case JoinWriter => s' := s.(main := Finished);
    }
  }

  lemma StartedStatic(plan: Plan, c: Config, s: State) returns (s': State)
    requires s.main.SpawnStatic? && s.main.left > 0
    ensures MainStep(s, s') && Conforms(plan, s, s', ByMain) && Less(MeasureOf(c, s'), MeasureOf(c, s))
  {
    var w := LargerThanAll(s.workers.Keys);
    assert w !in s.workers;
    var workers := if plan.startStatic(s) then s.workers[w := Worker(false, Claim)] else s.workers;
    s' := s.(workers := workers, main := SpawnStatic(s.main.left - 1));
  }

  // ---- Putting it together ----

  /** With every worker asleep in a push, the queue is full and the writer is not asleep. */
  lemma SleepingPushersFreeTheWriter(c: Config, s: State, w: nat)
    requires Safe(c, s) && w in s.workers && s.workers[w].pc != Gone
    requires forall v | v in s.workers && s.workers[v].pc != Gone :: s.workers[v].pc.Pushing? && !Runs(s.q, v)
    ensures !s.writer.Stopped? && !WriterSleeps(s)
  {
    hide Clients, Cores, Jobs, Counted, OnlyTempsYield, Runs, WriterSleeps;
    OpenWhileWorking(c, s, w);
    SleepersFillTheQueue(s, w);
    FullQueueWakesTheWriter(s);
  }

  lemma SleepersFillTheQueue(s: State, w: nat)
    requires Clients(s) && !s.q.done && w in s.workers && s.workers[w].pc != Gone
    requires forall v | v in s.workers && s.workers[v].pc != Gone :: s.workers[v].pc.Pushing? && !Runs(s.q, v)
    ensures |s.q.items| == s.q.capacity >= 1
  {
    assert w in Sleepers(s.q.clients, true);
    assert Notified(s.q.clients, true) == {};
  }

  lemma FullQueueWakesTheWriter(s: State)
    requires Clients(s) && |s.q.items| >= 1 && !s.q.done
    ensures !WriterSleeps(s)
  {
    assert WriterSleeps(s) ==> WRITER in Sleepers(s.q.clients, false);
    assert Notified(s.q.clients, false) <= {WRITER};
    assert WriterSleeps(s) ==> Notified(s.q.clients, false) == {};
  }

  /** Some thread of the pipeline itself can go on, and brings the end nearer by doing so. */
  lemma Progress(plan: Plan, c: Config, s: State) returns (s': State, who: Who)
    requires Safe(c, s) && s.main != Finished
    ensures Next(c, s, s', who) && Conforms(plan, s, s', who)
    ensures (who.ByWorker? || who.ByWriter? || who.ByMonitor? || who.ByMain?)
    ensures Less(MeasureOf(c, s'), MeasureOf(c, s))
  {
    hide MeasureOf, Less, WorkerStep, WriterStep, MonitorStep, MainStep, WriterSleeps, Conforms;
    if MainReady(s) {
      s' := MainCanStep(plan, c, s);
      who := ByMain;
    } else if w :| w in s.workers && s.workers[w].pc != Gone && !(s.workers[w].pc.Pushing? && !Runs(s.q, w)) {
      if s.workers[w].pc.Parse? {
        s' := ParsingWorkerCanStep(plan, c, s, w);
      } else if s.workers[w].pc.Pushing? {
        s' := PushingWorkerCanStep(plan, c, s, w);
      } else {
        s' := OtherWorkerCanStep(plan, c, s, w);
      }
      who := ByWorker(w);
    } else if w :| w in s.workers && s.workers[w].pc != Gone {
      SleepingPushersFreeTheWriter(c, s, w);
      s' := WriterCanStep(plan, c, s);
      who := ByWriter;
    } else {
      AllGoneLeavesOne(c, s);
      if s.main == JoinWriter {
        s' := WriterCanStep(plan, c, s);
        who := ByWriter;
      } else {
        s' := MonitorCanStep(plan, c, s);
        who := ByMonitor;
      }
    }
  }

  /** With no worker left, the main thread can only be waiting for the monitor or the writer. */
  lemma AllGoneLeavesOne(c: Config, s: State)
    requires Safe(c, s) && s.main != Finished && !MainReady(s) && AllGone(s)
    ensures s.main == JoinMonitor || s.main == JoinWriter
    ensures s.main == JoinMonitor ==> s.parseDone && !s.monitor.MonitorGone?
    ensures s.main == JoinWriter ==> !s.writer.Stopped? && !WriterSleeps(s)
  {
    assert Those(s.workers, IsLive) == {};
    assert WriterSleeps(s) && s.writer.OuterPop? ==> WRITER in Sleepers(s.q.clients, false);
    assert WriterSleeps(s) && s.writer.InnerPop? ==> WRITER in Sleepers(s.q.clients, false);
  }

  /** A continuation of the run by the pipeline's own threads, with the outcomes of the plan. */
  ghost predicate Continues(plan: Plan, c: Config, path: seq<State>, acts: seq<Who>) {
    && |path| == |acts| + 1
    && forall i | 0 <= i < |acts| ::
        && Next(c, path[i], path[i + 1], acts[i]) && Conforms(plan, path[i], path[i + 1], acts[i])
        && (acts[i].ByWorker? || acts[i].ByWriter? || acts[i].ByMonitor? || acts[i].ByMain?)
  }

  lemma {:induction false} SafeCanFinish(plan: Plan, c: Config, s: State) returns (path: seq<State>, acts: seq<Who>)
    requires Safe(c, s)
    ensures Continues(plan, c, path, acts) && path[0] == s && path[|acts|].main == Finished
    decreases MeasureOf(c, s).spawns, MeasureOf(c, s).unclaimed, MeasureOf(c, s).undelivered, MeasureOf(c, s).starts,
              MeasureOf(c, s).ranks, MeasureOf(c, s).stages, MeasureOf(c, s).monitor, MeasureOf(c, s).awake,
              MeasureOf(c, s).writer
  {
    hide Safe, Next, MeasureOf, Conforms;
    if s.main == Finished {
      path, acts := [s], [];
    } else {
      var s', who := Progress(plan, c, s);
      NextKeepsSafe(c, s, s', who);
      var rest, more := SafeCanFinish(plan, c, s');
      path, acts := [s] + rest, [who] + more;
    }
  }

  /**
   * No run of the pipeline ends in a deadlock: whatever outcomes are laid down for parses,
   * thread starts and inserts, it can be continued with them to the last join.
   */
  lemma EveryRunCanFinish(plan: Plan, c: Config, run: seq<State>, done: seq<Who>)
    returns (path: seq<State>, acts: seq<Who>)
    requires IsRun(c, run, done)
    ensures Continues(plan, c, path, acts) && path[0] == run[|done|] && path[|acts|].main == Finished
  {
    RunIsSafe(c, run, done);
    path, acts := SafeCanFinish(plan, c, run[|done|]);
  }
}
