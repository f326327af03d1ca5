/**
 * What every run of the streaming pipeline keeps, and what that means once the main thread
 * has passed its last join.
 */
module PipelineSafety {
  import opened Basics
  import opened QueueProtocol
  import opened Pipeline

  // ---- Borrowed cores ----

  ghost function Those(workers: map<nat, Worker>, p: Worker -> bool): set<nat> {
    set w | w in workers && p(workers[w])
  }

  ghost function One(b: bool): nat { if b then 1 else 0 }

  /** Counting after one worker has been added or has moved on. */
  lemma WorkerChanged(workers: map<nat, Worker>, w: nat, x: Worker, p: Worker -> bool)
    ensures |Those(workers[w := x], p)| == |Those(workers, p)| - One(w in workers && p(workers[w])) + One(p(x))
    ensures w in workers && p(workers[w]) ==> |Those(workers, p)| >= 1
  {
    var rest := Those(workers, p) - {w};
    assert Those(workers[w := x], p) == if p(x) then rest + {w} else rest;
    assert Those(workers, p) == if w in workers && p(workers[w]) then rest + {w} else rest;
  }

  /** A temporary thread the counter `g_active_parse_threads` still stands for. */
  ghost predicate IsLive(x: Worker) { x.temp && x.pc != Gone }

  /** A temporary thread that has not given its core back yet. */
  ghost predicate IsHolding(x: Worker) { x.temp && x.pc != Gone && !x.pc.Retire? }

  ghost function Live(workers: map<nat, Worker>): nat { |Those(workers, IsLive)| }

  ghost function Holding(workers: map<nat, Worker>): nat { |Those(workers, IsHolding)| }

  ghost function MonitorLive(m: MonitorPc): nat {
    if m.Spawn? || m.FailReturn? || m.FailRetire? then 1 else 0
  }

  ghost function MonitorHolds(m: MonitorPc): nat {
    if m.AddActive? || m.Spawn? || m.FailReturn? then 1 else 0
  }

  ghost function Borrowed(s: State): nat {
    Holding(s.workers) + MonitorHolds(s.monitor)
  }

  /** Cores are conserved, counted exactly, and never borrowed beyond the cap. */
  ghost predicate Cores(c: Config, s: State) {
    && s.pool + Borrowed(s) + s.others == c.cores < U32 && 2 * c.want < U32
    && s.active == Live(s.workers) + MonitorLive(s.monitor)
    && s.active <= 2 * c.want
    && (MayGrab(s.monitor) ==> s.active < 2 * c.want)
    && (s.monitor.GrabCas? ==> s.monitor.seen > 0)
    && (s.monitor.NotStarted? ==> Live(s.workers) == 0)
  }

  // ---- What one worker step can do ----

  ghost predicate IsCounting(x: Worker) { x.pc.CountQueued? }

  /** Only temporary workers look whether to yield, or pass through the core-returning exit. */
  ghost predicate IsYielding(pc: Pc) {
    pc.CheckDone? || pc.CheckPool? || pc.ReturnCore? || pc.Retire?
  }

  /** It moves worker `w` from `x` to `x'`, leaving most of the state alone. */
  ghost predicate Moves(s: State, s': State, w: nat, x: Worker, x': Worker) {
    && w in s.workers && x == s.workers[w] && s'.workers == s.workers[w := x']
    && x'.temp == x.temp && x.pc != Gone
    && s' == s.(q := s'.q, workers := s'.workers, nextJob := s'.nextJob, fate := s'.fate,
                filesQueued := s'.filesQueued, active := s'.active, pool := s'.pool)
  }

  /** Counters change where the counting instructions are, and nowhere else. */
  ghost predicate Counts(s: State, s': State, x: Worker, x': Worker) {
    && s'.pool == (if x.pc.ReturnCore? then Inc32(s.pool) else s.pool)
    && s'.active == (if x.pc.Retire? then Dec32(s.active) else s.active)
    && s'.filesQueued == s.filesQueued + One(IsCounting(x))
    && (IsHolding(x') <==> IsHolding(x) && !x.pc.ReturnCore?)
    && (IsLive(x') <==> IsLive(x) && !x.pc.Retire?)
    && (x'.pc == Gone ==> x.pc.Retire? || (x.pc.Claim? && !x.temp))
    && (IsYielding(x'.pc) ==> x.temp || IsYielding(x.pc))
  }

  /** The queue: entered after parsing, left when the push returns. */
  ghost predicate UsesQueue(s: State, s': State, w: nat, x: Worker, x': Worker) {
    match x.pc
    case Parse(j) =>
      || (s'.q == s.q && !x'.pc.Pushing? && !x'.pc.CountQueued?)
      || (Enter(s.q, s'.q, w, Push(j)) && x'.pc == Pushing(j))
    case Pushing(j) =>
      || (Block(s.q, s'.q, w) && x' == x)
      || (PushReturns(s.q, s'.q, w) && x'.pc.CountQueued?)
    case _ => s'.q == s.q && !x'.pc.Pushing? && !x'.pc.CountQueued?
  }

  /** Jobs: claimed in order, and passed on from hand to queue. */
  ghost predicate UsesJobs(c: Config, s: State, s': State, w: nat, x: Worker, x': Worker) {
    match x.pc
    case Claim =>
      && s'.nextJob == s.nextJob + 1
      && (if s.nextJob < c.jobs then s'.fate == s.fate[s.nextJob := InHand(w)] && x'.pc == Parse(s.nextJob)
          else s'.fate == s.fate && !x'.pc.Parse?)
    case Parse(j) =>
      && s'.nextJob == s.nextJob && !x'.pc.Parse?
      && if x'.pc.Pushing? then s'.fate == s.fate[j := AtQueue(w)]
         else s'.fate == s.fate[j := Skipped] || (x.temp && s'.fate == s.fate[j := Thrown])
    case Pushing(j) =>
      && s'.nextJob == s.nextJob && !x'.pc.Parse?
      && if x'.pc.Pushing? then s'.fate == s.fate
         else s'.fate == s.fate[j := if s.q.done then Dropped else Delivered]
    case _ => s'.nextJob == s.nextJob && s'.fate == s.fate && !x'.pc.Parse?
  }

  ghost predicate Effect(c: Config, s: State, s': State, w: nat, x: Worker, x': Worker) {
    Moves(s, s', w, x, x') && Counts(s, s', x, x') && UsesQueue(s, s', w, x, x') && UsesJobs(c, s, s', w, x, x')
  }

  lemma ClaimEffect(c: Config, s: State, s': State, w: nat)
    requires w in s.workers && s.workers[w].pc.Claim? && ClaimStep(c, s, s', w)
    ensures w in s'.workers && Effect(c, s, s', w, s.workers[w], s'.workers[w])
  {
  }

  lemma ParseEffect(c: Config, s: State, s': State, w: nat)
    requires w in s.workers && s.workers[w].pc.Parse? && ParseStep(s, s', w, s.workers[w].pc.job)
    ensures w in s'.workers && Effect(c, s, s', w, s.workers[w], s'.workers[w])
  {
    hide Enter;
  }

  lemma PushEffect(c: Config, s: State, s': State, w: nat)
    requires w in s.workers && s.workers[w].pc.Pushing? && PushStep(s, s', w, s.workers[w].pc.job)
    ensures w in s'.workers && Effect(c, s, s', w, s.workers[w], s'.workers[w])
  {
    hide Block, PushReturns;
    if s'.workers == s.workers {
      assert s'.workers == s.workers[w := s.workers[w]];
    }
  }

  lemma WorkerEffect(c: Config, s: State, s': State, w: nat)
    requires WorkerStep(c, s, s', w)
    ensures w in s.workers && w in s'.workers && Effect(c, s, s', w, s.workers[w], s'.workers[w])
  {
    hide ClaimStep, ParseStep, PushStep;
    match s.workers[w].pc
    case Claim => ClaimEffect(c, s, s', w);
    case Parse(_) => ParseEffect(c, s, s', w);
    case Pushing(_) => PushEffect(c, s, s', w);
    case _ =>
  }

  lemma WorkerKeepsCores(c: Config, s: State, s': State, w: nat)
    requires Cores(c, s) && OnlyTempsYield(s) && WorkerStep(c, s, s', w)
    ensures Cores(c, s')
  {
    hide WorkerStep, Those, Inc32, Dec32, UsesQueue, UsesJobs;
    NoWrap(s.pool);
    NoWrap(s.active);
    WorkerEffect(c, s, s', w);
    WorkerChanged(s.workers, w, s'.workers[w], IsLive);
    WorkerChanged(s.workers, w, s'.workers[w], IsHolding);
  }

  /** What the monitor's counting instructions add up to. */
  lemma MonitorPoolBalance(c: Config, s: State, s': State)
    requires MonitorStep(c, s, s') && !SpawnsTemp(s, s')
    requires s.pool + MonitorHolds(s.monitor) < U32 && (s.monitor.GrabCas? ==> s.monitor.seen > 0)
    ensures s'.pool + MonitorHolds(s'.monitor) == s.pool + MonitorHolds(s.monitor)
    ensures s'.monitor.GrabCas? ==> s'.monitor.seen > 0
  {
    hide Inc32, Dec32, SpawnsTemp;
    if Touches(s.monitor) {
      TouchPoolBalance(c, s, s');
    } else {
      hide MonitorStep;
      MonitorLooks(c, s, s');
    }
  }

  lemma TouchPoolBalance(c: Config, s: State, s': State)
    requires MonitorStep(c, s, s') && !SpawnsTemp(s, s') && Touches(s.monitor)
    requires s.pool + MonitorHolds(s.monitor) < U32 && (s.monitor.GrabCas? ==> s.monitor.seen > 0)
    ensures s'.pool + MonitorHolds(s'.monitor) == s.pool + MonitorHolds(s.monitor) && !s'.monitor.GrabCas?
  {
    hide Inc32, Dec32, SpawnsTemp;
    NoWrap(s.pool);
  }

  lemma MonitorActiveBalance(c: Config, s: State, s': State)
    requires MonitorStep(c, s, s') && !SpawnsTemp(s, s')
    requires MonitorLive(s.monitor) <= s.active && s.active + 1 < U32
    ensures s'.active + MonitorLive(s.monitor) == s.active + MonitorLive(s'.monitor)
  {
    hide Inc32, Dec32, SpawnsTemp;
    NoWrap(s.active);
  }

  ghost predicate MayGrab(m: MonitorPc) {
    m.GrabLoad? || m.GrabCas? || m.AddActive?
  }

  /** The cap is tested before a core is taken, and only the monitor raises the counter. */
  lemma MonitorCap(c: Config, s: State, s': State)
    requires MonitorStep(c, s, s') && !SpawnsTemp(s, s')
    requires (MayGrab(s.monitor) ==> s.active < 2 * c.want) && s.active <= 2 * c.want < U32
    requires MonitorLive(s.monitor) <= s.active
    ensures (MayGrab(s'.monitor) ==> s'.active < 2 * c.want) && s'.active <= 2 * c.want
  {
    hide Inc32, Dec32, SpawnsTemp;
    NoWrap(s.active);
  }

  lemma MonitorCountsCores(c: Config, s: State, s': State)
    requires Cores(c, s) && MonitorStep(c, s, s') && !SpawnsTemp(s, s')
    ensures Cores(c, s')
  {
    hide Live, Holding, MonitorStep, SpawnsTemp;
    MonitorFrame(c, s, s');
    MonitorPoolBalance(c, s, s');
    MonitorActiveBalance(c, s, s');
    MonitorCap(c, s, s');
  }

  /** The counters stay inside 32 bits, so their arithmetic is exact. */
  lemma NoWrap(x: nat)
    ensures x + 1 < U32 ==> Inc32(x) == x + 1
    ensures 0 < x < U32 ==> Dec32(x) == x - 1
  {
  }

  lemma MonitorSpawnsOnCore(c: Config, s: State, s': State, w: nat)
    requires Cores(c, s) && s.monitor.Spawn? && w !in s.workers
    requires s' == s.(workers := s.workers[w := Worker(true, CheckDone)], monitor := Loop)
    ensures Cores(c, s')
  {
    hide Those;
    WorkerChanged(s.workers, w, Worker(true, CheckDone), IsLive);
    WorkerChanged(s.workers, w, Worker(true, CheckDone), IsHolding);
  }

  lemma MonitorKeepsCores(c: Config, s: State, s': State)
    requires Cores(c, s) && MonitorStep(c, s, s')
    ensures Cores(c, s')
  {
    hide Cores;
    if SpawnsTemp(s, s') && s.monitor.Spawn? {
      var w: nat :| w != WRITER && w !in s.workers &&
        s' == s.(workers := s.workers[w := Worker(true, CheckDone)], monitor := Loop);
      MonitorSpawnsOnCore(c, s, s', w);
    } else {
      MonitorCountsCores(c, s, s');
    }
  }

  lemma MainKeepsCores(c: Config, s: State, s': State)
    requires Cores(c, s) && Phases(c, s) && MainStep(s, s')
    ensures Cores(c, s')
  {
    hide Those, MainStep;
    MainFrame(s, s');
    if s'.workers != s.workers {
      var w: nat :| w != WRITER && w !in s.workers && s'.workers == s.workers[w := Worker(false, Claim)];
      WorkerChanged(s.workers, w, Worker(false, Claim), IsLive);
      WorkerChanged(s.workers, w, Worker(false, Claim), IsHolding);
    }
  }

  lemma NextKeepsCores(c: Config, s: State, s': State, who: Who)
    requires Cores(c, s) && Phases(c, s) && OnlyTempsYield(s) && Next(c, s, s', who)
    ensures Cores(c, s')
  {
    hide WorkerStep, WriterStep, MonitorStep, MainStep, Those;
    match who
    case ByWorker(w) => WorkerKeepsCores(c, s, s', w);
    case ByMonitor => MonitorKeepsCores(c, s, s');
    case ByMain => MainKeepsCores(c, s, s');
    case ByWriter => WriterFrame(s, s');
    case Spurious(_) =>
    case OthersGrab(_) =>
    case OthersReturn(_) =>
  }

  ghost predicate OnlyTempsYield(s: State) {
    forall w | w in s.workers && IsYielding(s.workers[w].pc) :: s.workers[w].temp
  }

  // ---- Shutdown order ----

  /** The main thread has got as far as the given stage or beyond. */
  ghost function Stage(m: MainPc): nat {
    match m
    case SpawnStatic(_) => 0
    case SpawnMonitor => 1
    case JoinStatic => 2
    case SetDone => 3
    case JoinMonitor => 4
    case AwaitTemps => 5
    case Close => 6
    case JoinWriter => 7
    case Finished => 8
  }

  ghost predicate AllGone(s: State) {
    forall w | w in s.workers :: s.workers[w].pc == Gone
  }

  ghost predicate Phases(c: Config, s: State) {
    && WRITER !in s.workers
    && (s.monitor.NotStarted? <==> Stage(s.main) < 2)
    && (s.parseDone <==> Stage(s.main) >= 4)
    && (s.q.done <==> Stage(s.main) >= 7)
    && (Stage(s.main) >= 3 ==> StaticGone(s))
    && (Stage(s.main) >= 5 ==> s.monitor.MonitorGone?)
    && (Stage(s.main) >= 6 ==> AllGone(s))
    && (Stage(s.main) == 8 ==> s.writer.Stopped?)
  }

  lemma WriterFrame(s: State, s': State)
    requires WriterStep(s, s')
    ensures s' == s.(q := s'.q, writer := s'.writer, batch := s'.batch, flushed := s'.flushed, inserted := s'.inserted,
                     writerError := s'.writerError, filesWritten := s'.filesWritten, verdict := s'.verdict)
    ensures s'.q.done == s.q.done && s'.q.accepted == s.q.accepted
    ensures !s.writer.Stopped?
  {
  }

  lemma MonitorFrame(c: Config, s: State, s': State)
    requires MonitorStep(c, s, s')
    ensures s' == s.(workers := s'.workers, active := s'.active, pool := s'.pool, monitor := s'.monitor)
    ensures !s.monitor.NotStarted? && !s.monitor.MonitorGone? && !s'.monitor.NotStarted?
    ensures s'.workers == s.workers || (s.monitor.Spawn? && SpawnsTemp(s, s'))
  {
    hide MonitorStep, SpawnsTemp;
    if Touches(s.monitor) {
      MonitorTouches(c, s, s');
    } else {
      MonitorLooks(c, s, s');
    }
  }

  /** The monitor is about to change a counter or to start a thread. */
  ghost predicate Touches(m: MonitorPc) {
    m.GrabCas? || m.AddActive? || m.Spawn? || m.FailReturn? || m.FailRetire?
  }

  lemma MonitorLooks(c: Config, s: State, s': State)
    requires MonitorStep(c, s, s') && !Touches(s.monitor)
    ensures s' == s.(monitor := s'.monitor) && !s.monitor.NotStarted? && !s.monitor.MonitorGone?
    ensures !s'.monitor.NotStarted? && (Touches(s'.monitor) ==> s'.monitor == GrabCas(s.pool) && s.pool > 0)
  {
  }

  lemma MonitorTouches(c: Config, s: State, s': State)
    requires MonitorStep(c, s, s') && Touches(s.monitor)
    ensures s' == s.(workers := s'.workers, active := s'.active, pool := s'.pool, monitor := s'.monitor)
    ensures !s'.monitor.NotStarted?
    ensures s'.workers == s.workers || (s.monitor.Spawn? && SpawnsTemp(s, s'))
  {
    hide SpawnsTemp;
    if s.monitor.Spawn? && SpawnsTemp(s, s') {
      SpawnFrame(s, s');
    }
  }

  lemma SpawnFrame(s: State, s': State)
    requires SpawnsTemp(s, s')
    ensures s' == s.(workers := s'.workers, monitor := Loop)
    ensures exists w: nat | w != WRITER && w !in s.workers :: s'.workers == s.workers[w := Worker(true, CheckDone)]
  {
  }

  lemma MainFrame(s: State, s': State)
    requires MainStep(s, s')
    ensures s' == s.(workers := s'.workers, q := s'.q, parseDone := s'.parseDone, monitor := s'.monitor,
                     main := s'.main)
    ensures s'.workers == s.workers ||
      (s.main.SpawnStatic? && exists w: nat | w != WRITER && w !in s.workers ::
         s'.workers == s.workers[w := Worker(false, Claim)])
    ensures s.monitor.NotStarted? || s'.monitor == s.monitor || s.main == SpawnMonitor
    ensures s'.monitor == s.monitor || s'.monitor == Start
    ensures s'.q == s.q || (s.main == Close && MarkDone(s.q, s'.q))
  {
  }

  lemma WorkerKeepsPhases(c: Config, s: State, s': State, w: nat)
    requires Phases(c, s) && WorkerStep(c, s, s', w)
    ensures Phases(c, s')
  {
    hide WorkerStep;
    WorkerEffect(c, s, s', w);
  }

  lemma MonitorKeepsPhases(c: Config, s: State, s': State)
    requires Phases(c, s) && MonitorStep(c, s, s')
    ensures Phases(c, s')
  {
    hide MonitorStep;
    MonitorFrame(c, s, s');
  }

  lemma MainKeepsPhases(c: Config, s: State, s': State)
    requires Phases(c, s) && Cores(c, s) && MainStep(s, s')
    ensures Phases(c, s')
  {
    if s.main == AwaitTemps {
      forall w | w in s.workers ensures s.workers[w].pc == Gone {
        WorkerChanged(s.workers, w, s.workers[w], IsLive);
      }
    }
  }

  lemma NextKeepsPhases(c: Config, s: State, s': State, who: Who)
    requires Phases(c, s) && Cores(c, s) && Next(c, s, s', who)
    ensures Phases(c, s')
  {
    hide WorkerStep, WriterStep, MonitorStep, MainStep, Cores;
    match who
    case ByWorker(w) => WorkerKeepsPhases(c, s, s', w);
    case ByMonitor => MonitorKeepsPhases(c, s, s');
    case ByMain => MainKeepsPhases(c, s, s');
    case ByWriter => WriterFrame(s, s');
    case Spurious(_) =>
    case OthersGrab(_) =>
    case OthersReturn(_) =>
  }

  lemma NextKeepsOnlyTempsYield(c: Config, s: State, s': State, who: Who)
    requires OnlyTempsYield(s) && Next(c, s, s', who)
    ensures OnlyTempsYield(s')
  {
    hide WorkerStep, WriterStep, MonitorStep, MainStep;
    match who
    case ByWorker(w) => WorkerEffect(c, s, s', w);
    case ByMonitor => MonitorFrame(c, s, s');
    case ByMain => MainFrame(s, s');
    case ByWriter => WriterFrame(s, s');
    case Spurious(_) =>
    case OthersGrab(_) =>
    case OthersReturn(_) =>
  }

  // ---- Who is inside a queue call ----

  ghost predicate Clients(s: State) {
    && Inv(s.q)
    && (forall w | w in s.workers && s.workers[w].pc.Pushing? ::
          w in s.q.clients && s.q.clients[w].call == Push(s.workers[w].pc.job))
    && (forall t | t in s.q.clients && t != WRITER :: t in s.workers && s.workers[t].pc.Pushing?)
    && (WRITER in s.q.clients <==> s.writer.OuterPop? || s.writer.InnerPop?)
    && (WRITER in s.q.clients ==> s.q.clients[WRITER].call == Pop)
  }

  lemma WorkerKeepsClients(c: Config, s: State, s': State, w: nat)
    requires Clients(s) && WRITER !in s.workers && WorkerStep(c, s, s', w)
    ensures Clients(s')
  {
    hide WorkerStep, Inv, NotifyOne;
    WorkerEffect(c, s, s', w);
    match s.workers[w].pc
    case Parse(j) =>
      if s'.q != s.q {
        EnterKeepsInv(s.q, s'.q, w, Push(j));
      }
    case Pushing(j) =>
      if s'.workers[w].pc.Pushing? {
        BlockKeepsInv(s.q, s'.q, w);
      } else {
        PushKeepsInv(s.q, s'.q, w);
        ReturnKeepsOthers(s.q, s'.q, w);
      }
    case _ =>
  }

  /** What a writer step does to the queue, and when the writer is inside it. */
  lemma WriterAtQueue(s: State, s': State)
    requires WriterStep(s, s')
    ensures if s.writer.OuterPop? || s.writer.InnerPop? then
        || (Block(s.q, s'.q, WRITER) && s'.writer == s.writer)
        || (PopReturns(s.q, s'.q, WRITER) && !s'.writer.OuterPop? && !s'.writer.InnerPop?)
      else
        || (s'.q == s.q && !s'.writer.OuterPop? && !s'.writer.InnerPop?)
        || (Enter(s.q, s'.q, WRITER, Pop) && (s'.writer.OuterPop? || s'.writer.InnerPop?))
  {
  }

  lemma WriterKeepsClients(s: State, s': State)
    requires Clients(s) && WRITER !in s.workers && WriterStep(s, s')
    ensures Clients(s')
  {
    hide WriterStep, Inv, NotifyOne;
    WriterFrame(s, s');
    WriterAtQueue(s, s');
    if s.writer.OuterPop? || s.writer.InnerPop? {
      if s'.writer == s.writer {
        BlockKeepsInv(s.q, s'.q, WRITER);
      } else {
        PopKeepsInv(s.q, s'.q, WRITER);
        ReturnKeepsOthers(s.q, s'.q, WRITER);
      }
    } else if s'.q != s.q {
      EnterKeepsInv(s.q, s'.q, WRITER, Pop);
    }
  }

  lemma MainKeepsClients(c: Config, s: State, s': State)
    requires Clients(s) && WRITER !in s.workers && MainStep(s, s')
    ensures Clients(s')
  {
    hide MainStep, Inv;
    MainFrame(s, s');
    if s'.q != s.q {
      MarkDoneKeepsInv(s.q, s'.q);
    }
  }

  lemma NextKeepsClients(c: Config, s: State, s': State, who: Who)
    requires Clients(s) && Phases(c, s) && Next(c, s, s', who)
    ensures Clients(s')
  {
    hide WorkerStep, WriterStep, MonitorStep, MainStep, Inv;
    match who
    case ByWorker(w) => WorkerKeepsClients(c, s, s', w);
    case ByWriter => WriterKeepsClients(s, s');
    case ByMonitor => MonitorFrame(c, s, s');
    case ByMain => MainKeepsClients(c, s, s');
    case Spurious(t) => WakeupKeepsInv(s.q, s'.q, t);
    case OthersGrab(_) =>
    case OthersReturn(_) =>
  }

  // ---- Where every job is ----

  ghost function Claimed(c: Config, s: State): nat {
    if s.nextJob < c.jobs then s.nextJob else c.jobs
  }

  /** The worker named by a fate holds that job and no other. */
  ghost predicate Held(s: State, j: nat, f: Fate) {
    match f
    case InHand(w) => w in s.workers && s.workers[w].pc == Parse(j)
    case AtQueue(w) => w in s.workers && s.workers[w].pc == Pushing(j)
    case _ => true
  }

  ghost predicate Jobs(c: Config, s: State) {
    && (forall j: nat :: j in s.fate <==> j < Claimed(c, s))
    && (forall j | j in s.fate :: Held(s, j, s.fate[j]) && s.fate[j] != Dropped)
    && (forall w | w in s.workers && s.workers[w].pc.Parse? ::
          s.workers[w].pc.job in s.fate && s.fate[s.workers[w].pc.job] == InHand(w))
    && (forall w | w in s.workers && s.workers[w].pc.Pushing? ::
          s.workers[w].pc.job in s.fate && s.fate[s.workers[w].pc.job] == AtQueue(w))
    && (forall j: nat :: j in s.q.accepted <==> j in s.fate && s.fate[j] == Delivered)
    && NoRepeats(s.q.accepted)
    && (forall w | w in s.workers && !s.workers[w].temp && s.workers[w].pc == Gone :: s.nextJob >= c.jobs)
  }

  /** No worker can find the queue closed: the close comes after the last of them has gone. */
  lemma OpenWhileWorking(c: Config, s: State, w: nat)
    requires Phases(c, s) && w in s.workers && s.workers[w].pc != Gone
    ensures !s.q.done
  {
  }

  lemma ClaimKeepsJobs(c: Config, s: State, s': State, w: nat)
    requires Jobs(c, s) && OnlyTempsYield(s) && WorkerStep(c, s, s', w) && !s.workers[w].pc.Pushing?
    ensures Jobs(c, s')
  {
    hide WorkerStep, Jobs;
    WorkerEffect(c, s, s', w);
    match s.workers[w].pc
    case Claim => NextClaimKeepsJobs(c, s, s', w);
    case Parse(_) => ParsedKeepsJobs(c, s, s', w);
    case _ => OtherMoveKeepsJobs(c, s, s', w);
  }

  lemma NextClaimKeepsJobs(c: Config, s: State, s': State, w: nat)
    requires Jobs(c, s) && w in s.workers && s.workers[w].pc.Claim?
    requires w in s'.workers && Effect(c, s, s', w, s.workers[w], s'.workers[w])
    ensures Jobs(c, s')
  {
    hide Counts;
    assert s'.workers[w].pc == Gone ==> s.nextJob >= c.jobs;
  }

  lemma ParsedKeepsJobs(c: Config, s: State, s': State, w: nat)
    requires Jobs(c, s) && w in s.workers && w in s'.workers && s.workers[w].pc.Parse? && s'.workers[w].pc != Gone
    requires Moves(s, s', w, s.workers[w], s'.workers[w]) && UsesQueue(s, s', w, s.workers[w], s'.workers[w])
    requires UsesJobs(c, s, s', w, s.workers[w], s'.workers[w])
    ensures Jobs(c, s')
  {
  }

  lemma OtherMoveKeepsJobs(c: Config, s: State, s': State, w: nat)
    requires Jobs(c, s) && OnlyTempsYield(s) && w in s.workers
    requires !s.workers[w].pc.Claim? && !s.workers[w].pc.Parse? && !s.workers[w].pc.Pushing?
    requires w in s'.workers && Effect(c, s, s', w, s.workers[w], s'.workers[w])
    ensures Jobs(c, s')
  {
  }

  /** A push that goes through: the job leaves the worker's hands for the queue. */
  lemma DeliveryKeepsJobs(c: Config, s: State, s': State, w: nat, job: nat)
    requires Jobs(c, s) && w in s.workers && s.workers[w].pc == Pushing(job)
    requires s'.workers == s.workers[w := Worker(s.workers[w].temp, CountQueued)]
    requires s'.fate == s.fate[job := Delivered] && s'.nextJob == s.nextJob
    requires s'.q.accepted == s.q.accepted + [job]
    ensures Jobs(c, s')
  {
  }

  lemma PushKeepsJobs(c: Config, s: State, s': State, w: nat)
    requires Jobs(c, s) && Clients(s) && !s.q.done && WorkerStep(c, s, s', w) && s.workers[w].pc.Pushing?
    ensures Jobs(c, s')
  {
    hide WorkerStep, Inv, NotifyOne, Jobs;
    WorkerEffect(c, s, s', w);
    if s'.workers[w].pc.Pushing? {
      assert s'.workers == s.workers;
      QueueOnlyKeepsJobs(c, s, s');
    } else {
      DeliveryKeepsJobs(c, s, s', w, s.workers[w].pc.job);
    }
  }

  lemma WorkerKeepsJobs(c: Config, s: State, s': State, w: nat)
    requires Jobs(c, s) && Clients(s) && Phases(c, s) && OnlyTempsYield(s) && WorkerStep(c, s, s', w)
    ensures Jobs(c, s')
  {
    hide Clients, Jobs, Phases;
    if s.workers[w].pc.Pushing? {
      OpenWhileWorking(c, s, w);
      PushKeepsJobs(c, s, s', w);
    } else {
      ClaimKeepsJobs(c, s, s', w);
    }
  }

  lemma MonitorKeepsJobs(c: Config, s: State, s': State)
    requires Jobs(c, s) && MonitorStep(c, s, s')
    ensures Jobs(c, s')
  {
    hide MonitorStep;
    MonitorFrame(c, s, s');
  }

  lemma MainKeepsJobs(c: Config, s: State, s': State)
    requires Jobs(c, s) && MainStep(s, s')
    ensures Jobs(c, s')
  {
    hide MainStep;
    MainFrame(s, s');
  }

  lemma QueueOnlyKeepsJobs(c: Config, s: State, s': State)
    requires Jobs(c, s) && s'.workers == s.workers && s'.nextJob == s.nextJob && s'.fate == s.fate
    requires s'.q.accepted == s.q.accepted
    ensures Jobs(c, s')
  {
  }

  lemma NextKeepsJobs(c: Config, s: State, s': State, who: Who)
    requires Jobs(c, s) && Clients(s) && Phases(c, s) && OnlyTempsYield(s) && Next(c, s, s', who)
    ensures Jobs(c, s')
  {
    hide WorkerStep, WriterStep, MonitorStep, MainStep, Clients, Jobs, Phases, OnlyTempsYield;
    match who
    case ByWorker(w) => WorkerKeepsJobs(c, s, s', w);
    case ByWriter =>
      WriterFrame(s, s');
      QueueOnlyKeepsJobs(c, s, s');
    case ByMonitor => MonitorKeepsJobs(c, s, s');
    case ByMain => MainKeepsJobs(c, s, s');
    case Spurious(t) => QueueOnlyKeepsJobs(c, s, s');
    case OthersGrab(_) => QueueOnlyKeepsJobs(c, s, s');
    case OthersReturn(_) => QueueOnlyKeepsJobs(c, s, s');
  }

  // ---- What the writer has done ----

  ghost predicate Written(s: State) {
    && Concat(s.flushed) + s.batch == s.q.taken
    && s.filesWritten == |Concat(s.flushed)|
    && |s.inserted| == |s.flushed|
    && (forall b | b in s.flushed :: 1 <= |b| <= BATCH)
    && (s.writerError <==> false in s.inserted)
    && (match s.writer
        case OuterHead => s.batch == [] && s.verdict == Open
        case OuterPop => s.batch == [] && s.verdict == Open
        case InnerHead => 1 <= |s.batch| <= BATCH && s.verdict == Open
        case InnerPop => 1 <= |s.batch| < BATCH && s.verdict == Open
        case Gate => 1 <= |s.batch| <= BATCH && s.verdict == Open && (|s.batch| < BATCH ==> s.q.done && s.q.items == [])
        case Insert => 1 <= |s.batch| <= BATCH && s.verdict == Open
        case TailCheck => s.batch == [] && s.verdict == Open && s.q.done && s.q.items == []
        case TailInsert => false
        case Ending => s.batch == [] && s.verdict == Open && s.q.done && s.q.items == []
        case Stopped =>
          && s.batch == [] && s.q.done && s.q.items == []
          && s.verdict == if false in s.inserted then RolledBack else Committed)
  }

  lemma FlushKeepsWritten(s: State, s': State)
    requires Written(s) && s.writer.Insert? && WriterStep(s, s')
    ensures Written(s')
  {
    ConcatLast(s.flushed, s.batch);
  }

  lemma PopKeepsWritten(s: State, s': State, closed: WriterPc)
    requires Written(s) && WriterPops(s, s', closed)
    requires (s.writer.OuterPop? && closed == TailCheck) || (s.writer.InnerPop? && closed == Gate)
    ensures Written(s')
  {
    hide Concat, NotifyOne, Block;
    if s'.writer != s.writer {
      if s.q.items != [] {
        TakeKeepsWritten(s, s');
      }
    } else {
      assert Block(s.q, s'.q, WRITER);
      BlockKeepsItems(s.q, s'.q, WRITER);
    }
  }

  lemma BlockKeepsItems(q: Queue<nat>, q': Queue<nat>, t: nat)
    requires Block(q, q', t)
    ensures q' == q.(clients := q'.clients)
  {
  }

  lemma TakeKeepsWritten(s: State, s': State)
    requires Written(s) && (s.writer.OuterPop? || s.writer.InnerPop?) && s.q.items != []
    requires s'.q.taken == s.q.taken + [s.q.items[0]]
    requires s' == s.(q := s'.q, batch := s.batch + [s.q.items[0]], writer := InnerHead)
    ensures Written(s')
  {
    hide Concat;
    assert Concat(s.flushed) + (s.batch + [s.q.items[0]]) == s.q.taken + [s.q.items[0]];
  }

  lemma MoveKeepsWritten(s: State, s': State)
    requires Written(s) && (s.writer.OuterHead? || s.writer.InnerHead? || s.writer.Gate?) && WriterStep(s, s')
    ensures Written(s')
  {
    hide Concat, WriterPops, InsertsBatch;
  }

  lemma EndKeepsWritten(s: State, s': State)
    requires Written(s) && (s.writer.TailCheck? || s.writer.TailInsert? || s.writer.Ending?) && WriterStep(s, s')
    ensures Written(s')
  {
    hide Concat, WriterPops, InsertsBatch;
  }

  lemma WriterKeepsWritten(s: State, s': State)
    requires Written(s) && WriterStep(s, s')
    ensures Written(s')
  {
    hide Written, WriterPops, InsertsBatch;
    if s.writer.Insert? {
      FlushKeepsWritten(s, s');
    } else if s.writer.OuterPop? || s.writer.InnerPop? {
      PopKeepsWritten(s, s', if s.writer.OuterPop? then TailCheck else Gate);
    } else if s.writer.OuterHead? || s.writer.InnerHead? || s.writer.Gate? {
      MoveKeepsWritten(s, s');
    } else {
      EndKeepsWritten(s, s');
    }
  }

  /** A closed, empty queue stays empty: nobody but a push before the close fills it. */
  lemma WorkerKeepsWritten(c: Config, s: State, s': State, w: nat)
    requires Written(s) && WorkerStep(c, s, s', w)
    ensures Written(s')
  {
    hide WorkerStep, Concat;
    WorkerEffect(c, s, s', w);
  }

  lemma NextKeepsWritten(c: Config, s: State, s': State, who: Who)
    requires Written(s) && Next(c, s, s', who)
    ensures Written(s')
  {
    hide WorkerStep, WriterStep, MonitorStep, MainStep, Concat;
    match who
    case ByWorker(w) => WorkerKeepsWritten(c, s, s', w);
    case ByWriter => WriterKeepsWritten(s, s');
    case ByMonitor => MonitorFrame(c, s, s');
    case ByMain => MainFrame(s, s');
    case Spurious(t) =>
    case OthersGrab(_) =>
    case OthersReturn(_) =>
  }

  // ---- The counter of queued files ----

  ghost predicate Counted(s: State) {
    s.filesQueued + |Those(s.workers, IsCounting)| == |s.q.accepted|
  }

  lemma WorkerKeepsCounted(c: Config, s: State, s': State, w: nat)
    requires Counted(s) && !s.q.done && WorkerStep(c, s, s', w)
    ensures Counted(s')
  {
    hide WorkerStep, Those;
    WorkerEffect(c, s, s', w);
    WorkerChanged(s.workers, w, s'.workers[w], IsCounting);
  }

  lemma SpawnKeepsCounted(s: State, s': State)
    requires Counted(s) && s'.filesQueued == s.filesQueued && s'.q.accepted == s.q.accepted
    requires s'.workers == s.workers ||
      (exists w: nat, temp: bool | w !in s.workers :: s'.workers == s.workers[w := Worker(temp, Head(temp))])
    ensures Counted(s')
  {
    hide Those;
    if s'.workers != s.workers {
      var w: nat, temp: bool :| w !in s.workers && s'.workers == s.workers[w := Worker(temp, Head(temp))];
      WorkerChanged(s.workers, w, Worker(temp, Head(temp)), IsCounting);
    }
  }

  lemma NextKeepsCounted(c: Config, s: State, s': State, who: Who)
    requires Counted(s) && Phases(c, s) && Next(c, s, s', who)
    ensures Counted(s')
  {
    hide WorkerStep, WriterStep, MonitorStep, MainStep, Counted, Phases;
    match who
    case ByWorker(w) =>
      WorkerEffect(c, s, s', w);
      OpenWhileWorking(c, s, w);
      WorkerKeepsCounted(c, s, s', w);
    case ByWriter =>
      WriterFrame(s, s');
      SpawnKeepsCounted(s, s');
    case ByMonitor =>
      MonitorFrame(c, s, s');
      if s'.workers != s.workers {
        var w: nat :| w !in s.workers && s'.workers == s.workers[w := Worker(true, CheckDone)];
        assert s'.workers == s.workers[w := Worker(true, Head(true))];
      }
      SpawnKeepsCounted(s, s');
    case ByMain =>
      MainFrame(s, s');
      if s'.workers != s.workers {
        var w: nat :| w !in s.workers && s'.workers == s.workers[w := Worker(false, Claim)];
        assert s'.workers == s.workers[w := Worker(false, Head(false))];
      }
      SpawnKeepsCounted(s, s');
    case Spurious(t) => SpawnKeepsCounted(s, s');
    case OthersGrab(_) => SpawnKeepsCounted(s, s');
    case OthersReturn(_) => SpawnKeepsCounted(s, s');
  }

  // ---- Every run ----

  /** The whole invariant of the pipeline. */
  ghost predicate Safe(c: Config, s: State) {
    && Cores(c, s) && Phases(c, s) && OnlyTempsYield(s) && Clients(s) && Jobs(c, s) && Written(s) && Counted(s)
  }

  lemma InitIsSafe(c: Config, s: State)
    requires Init(c, s)
    ensures Safe(c, s)
  {
    assert Those(s.workers, IsLive) == {} && Those(s.workers, IsHolding) == {} && Those(s.workers, IsCounting) == {};
    NewIsInv<nat>(c.capacity);
  }

  lemma NextKeepsSafe(c: Config, s: State, s': State, who: Who)
    requires Safe(c, s) && Next(c, s, s', who)
    ensures Safe(c, s')
  {
    hide Next, Cores, Phases, OnlyTempsYield, Clients, Jobs, Written, Counted;
    NextKeepsCores(c, s, s', who);
    NextKeepsPhases(c, s, s', who);
    NextKeepsOnlyTempsYield(c, s, s', who);
    NextKeepsClients(c, s, s', who);
    NextKeepsJobs(c, s, s', who);
    NextKeepsWritten(c, s, s', who);
    NextKeepsCounted(c, s, s', who);
  }

  lemma {:induction false} RunIsSafe(c: Config, run: seq<State>, acts: seq<Who>)
    requires IsRun(c, run, acts)
    ensures Safe(c, run[|acts|])
  {
    hide Init, Next, Safe;
    if acts == [] {
      InitIsSafe(c, run[0]);
    } else {
      var n := |acts| - 1;
      RunIsSafe(c, run[..n + 1], acts[..n]);
      NextKeepsSafe(c, run[n], run[n + 1], acts[n]);
    }
  }

  // ---- What it means at the end ----

  /**
   * What a finished run should have done: every job was claimed once and is accounted for, and
   * what was pushed is exactly what was flushed, in the same order.
   */
  ghost predicate Complete(c: Config, s: State) {
    && (forall j: nat :: j in s.fate <==> j < c.jobs)
    && (forall j | j in s.fate :: s.fate[j].Delivered? || s.fate[j].Skipped? || s.fate[j].Thrown?)
    && NoRepeats(s.q.accepted)
    && (forall j: nat :: j in s.q.accepted <==> j < c.jobs && s.fate[j].Delivered?)
    && Concat(s.flushed) == s.q.accepted
    && (forall b | b in s.flushed :: 1 <= |b| <= BATCH)
    && s.filesWritten == s.filesQueued == |s.q.accepted|
    && |s.inserted| == |s.flushed|
    && s.verdict == (if false in s.inserted then RolledBack else Committed)
  }

  ghost predicate NothingLeft(c: Config, s: State) {
    && AllGone(s) && s.monitor.MonitorGone? && s.q.clients == map[]
    && s.active == 0 && Borrowed(s) == 0 && s.pool + s.others == c.cores
  }

  /**
   * At the end nothing is left over, and the run is complete exactly when every index has
   * been claimed, as it has if a static worker was started.
   */
  lemma FinishedIsComplete(c: Config, run: seq<State>, acts: seq<Who>)
    requires IsRun(c, run, acts) && run[|acts|].main == Finished
    ensures NothingLeft(c, run[|acts|])
    ensures Complete(c, run[|acts|]) <==> run[|acts|].nextJob >= c.jobs
    ensures (exists w :: w in run[|acts|].workers && !run[|acts|].workers[w].temp) ==> Complete(c, run[|acts|])
  {
    RunIsSafe(c, run, acts);
    var s := run[|acts|];
    assert Those(s.workers, IsLive) == {} && Those(s.workers, IsHolding) == {} && Those(s.workers, IsCounting) == {};
    FinishedState(c, s);
  }

  lemma FinishedState(c: Config, s: State)
    requires Safe(c, s) && s.main == Finished
    requires |Those(s.workers, IsLive)| == |Those(s.workers, IsHolding)| == |Those(s.workers, IsCounting)| == 0
    ensures NothingLeft(c, s)
    ensures Complete(c, s) <==> s.nextJob >= c.jobs
    ensures (exists w :: w in s.workers && !s.workers[w].temp) ==> s.nextJob >= c.jobs
  {
    hide Those, Concat;
    assert s.q.clients == map[];
    forall j | j in s.fate ensures s.fate[j].Delivered? || s.fate[j].Skipped? || s.fate[j].Thrown? {
      assert Held(s, j, s.fate[j]);
    }
    if s.nextJob < c.jobs {
      assert s.nextJob !in s.fate;
    }
  }

  /** Without the shared pool the monitor borrows nothing, and only workers claim jobs. */
  ghost predicate StaticMode(s: State) {
    && (s.monitor.NotStarted? || s.monitor.Start? || s.monitor.MonitorGone?)
    && (forall w | w in s.workers :: !s.workers[w].temp)
    && (s.workers == map[] ==> s.nextJob == 0)
  }

  lemma NextKeepsStaticMode(c: Config, s: State, s': State, who: Who)
    requires !c.shared && StaticMode(s) && Next(c, s, s', who)
    ensures StaticMode(s')
  {
    hide WorkerStep, WriterStep, MainStep;
    match who
    case ByWorker(w) => WorkerEffect(c, s, s', w);
    case ByMonitor =>
    case ByMain => MainFrame(s, s');
    case ByWriter => WriterFrame(s, s');
    case Spurious(_) =>
    case OthersGrab(_) =>
    case OthersReturn(_) =>
  }

  lemma {:induction false} RunKeepsStaticMode(c: Config, run: seq<State>, acts: seq<Who>)
    requires IsRun(c, run, acts) && !c.shared
    ensures StaticMode(run[|acts|])
  {
    hide Next;
    if acts != [] {
      var n := |acts| - 1;
      RunKeepsStaticMode(c, run[..n + 1], acts[..n]);
      NextKeepsStaticMode(c, run[n], run[n + 1], acts[n]);
    }
  }

  /** Without the shared pool: complete exactly when a worker could be started or there was nothing to do. */
  lemma StaticRunIsComplete(c: Config, run: seq<State>, acts: seq<Who>)
    requires IsRun(c, run, acts) && run[|acts|].main == Finished && !c.shared
    ensures Complete(c, run[|acts|]) <==> run[|acts|].workers != map[] || c.jobs == 0
  {
    RunKeepsStaticMode(c, run, acts);
    FinishedIsComplete(c, run, acts);
    var s := run[|acts|];
    if s.workers != map[] {
      var w :| w in s.workers;
      assert !s.workers[w].temp;
    }
  }

  /** Once the queue is closed no worker runs, so no push can be dropped at any time. */
  lemma NoPushAfterClose(c: Config, run: seq<State>, acts: seq<Who>)
    requires IsRun(c, run, acts)
    ensures var s := run[|acts|];
      && (s.q.done ==> AllGone(s))
      && (forall j | j in s.fate :: s.fate[j] != Dropped)
      && |s.q.items| <= s.q.capacity
      && Concat(s.flushed) + s.batch + s.q.items == s.q.accepted
  {
    RunIsSafe(c, run, acts);
    var s := run[|acts|];
    assert Concat(s.flushed) + s.batch + s.q.items == s.q.taken + s.q.items;
  }

  /** In every reachable state cores are conserved and the temporary threads stay within the cap. */
  lemma CoresInEveryRun(c: Config, run: seq<State>, acts: seq<Who>)
    requires IsRun(c, run, acts)
    ensures var s := run[|acts|];
      s.pool + Borrowed(s) + s.others == c.cores && Live(s.workers) <= s.active <= 2 * c.want
  {
    RunIsSafe(c, run, acts);
  }

  // ---- Each borrowed core goes back once ----

  ghost predicate Returns(s: State, who: Who, w: nat) {
    who == ByWorker(w) && w in s.workers && s.workers[w].pc.ReturnCore?
  }

  /** How often worker `w` has given a core back in the run. */
  ghost function ReturnsOf(run: seq<State>, acts: seq<Who>, w: nat): nat
    requires |run| == |acts| + 1
  {
    if acts == [] then 0
    else ReturnsOf(run[..|acts|], acts[..|acts| - 1], w) + One(Returns(run[|acts| - 1], acts[|acts| - 1], w))
  }

  ghost predicate HasReturned(s: State, w: nat) {
    w in s.workers && s.workers[w].temp && (s.workers[w].pc.Retire? || s.workers[w].pc.Gone?)
  }

  lemma NextCountsReturns(c: Config, s: State, s': State, who: Who, w: nat)
    requires OnlyTempsYield(s) && Next(c, s, s', who)
    ensures One(HasReturned(s', w)) == One(HasReturned(s, w)) + One(Returns(s, who, w))
  {
    hide WorkerStep, WriterStep, MonitorStep, MainStep, UsesQueue, UsesJobs;
    match who
    case ByWorker(v) => WorkerEffect(c, s, s', v);
    case ByMonitor =>
      MonitorFrame(c, s, s');
      if s.monitor.Spawn? && SpawnsTemp(s, s') {
        SpawnFrame(s, s');
      }
    case ByMain => MainFrame(s, s');
    case ByWriter => WriterFrame(s, s');
    case Spurious(_) =>
    case OthersGrab(_) =>
    case OthersReturn(_) =>
  }

  /**
   * However a temporary worker leaves, normally, yielding or thrown out of a parse, it gives its
   * core back once before it retires and never again; a static worker gives back none.
   */
  lemma {:induction false} EachCoreReturnedOnce(c: Config, run: seq<State>, acts: seq<Who>, w: nat)
    requires IsRun(c, run, acts)
    ensures ReturnsOf(run, acts, w) == One(HasReturned(run[|acts|], w))
  {
    hide Next, Cores, Phases, Clients, Jobs, Written, Counted, Returns;
    if acts != [] {
      var n := |acts| - 1;
      EachCoreReturnedOnce(c, run[..n + 1], acts[..n], w);
      RunIsSafe(c, run[..n + 1], acts[..n]);
      NextCountsReturns(c, run[n], run[n + 1], acts[n], w);
    }
  }
}
