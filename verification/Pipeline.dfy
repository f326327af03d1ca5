/**
 * The streaming parse pipeline of engine_index_project.cpp as an interleaving of steps:
 * static workers, temporary workers on borrowed cores, the monitor that borrows them, one
 * batching writer, and the main thread that shuts everything down. Each atomic operation,
 * and each stretch of a queue call between two waits, is one step.
 */
module Pipeline {
  import opened QueueProtocol

  const BATCH := 50
  const U32 := 0x1_0000_0000

  /** `want` is the number of static workers asked for; `cores` what the shared pool held at first. */
  datatype Config = Config(jobs: nat, capacity: nat, want: nat, shared: bool, cores: nat)

  datatype Pc =
    | CheckDone | CheckPool | Claim | Parse(job: nat) | Pushing(job: nat) | CountQueued
    | ReturnCore | Retire | Gone

  datatype Worker = Worker(temp: bool, pc: Pc)

  datatype WriterPc =
    | OuterHead | OuterPop | InnerHead | InnerPop | Gate | Insert | TailCheck | TailInsert | Ending | Stopped

  datatype MonitorPc =
    | NotStarted | Start | Loop | Recheck | LoadActive | GrabLoad | GrabCas(seen: nat) | AddActive
    | Spawn | FailReturn | FailRetire | MonitorGone

  datatype MainPc =
    | SpawnStatic(left: nat) | SpawnMonitor | JoinStatic | SetDone | JoinMonitor | AwaitTemps
    | Close | JoinWriter | Finished

  /** What became of a claimed job; the worker is named while it still holds it. */
  datatype Fate = InHand(worker: nat) | AtQueue(worker: nat) | Delivered | Skipped | Thrown | Dropped

  datatype Verdict = Open | Committed | RolledBack

  // Queue clients: 0 is the writer, a worker is known by its own number.
  const WRITER := 0

  datatype State = State(
    q: Queue<nat>, workers: map<nat, Worker>, nextJob: nat, fate: map<nat, Fate>, filesQueued: nat,
    writer: WriterPc, batch: seq<nat>, flushed: seq<seq<nat>>, inserted: seq<bool>, writerError: bool,
    filesWritten: nat, verdict: Verdict,
    parseDone: bool, active: nat, pool: nat, others: nat, monitor: MonitorPc, main: MainPc)

  ghost predicate Init(c: Config, s: State) {
    && s.q == New<nat>(c.capacity) && s.workers == map[] && s.nextJob == 0 && s.fate == map[]
    && s.filesQueued == 0 && s.writer == OuterHead && s.batch == [] && s.flushed == [] && s.inserted == []
    && !s.writerError && s.filesWritten == 0 && s.verdict == Open && !s.parseDone && s.active == 0
    && s.monitor == NotStarted && s.main == SpawnStatic(c.want)
    && s.pool + s.others == c.cores < U32 && 1 <= c.want && 2 * c.want < U32
  }

  // Unsigned 32-bit fetch_add(1) and fetch_sub(1).
  function Inc32(x: nat): nat { (x + 1) % U32 }
  function Dec32(x: nat): nat { (x + U32 - 1) % U32 }

  // ---- Worker threads ----

  ghost function To(s: State, w: nat, pc: Pc): State
    requires w in s.workers
  {
    s.(workers := s.workers[w := Worker(s.workers[w].temp, pc)])
  }

  function Head(temp: bool): Pc { if temp then CheckDone else Claim }

  function Quit(temp: bool): Pc { if temp then ReturnCore else Gone }

  /** Claiming: one fetch_add on the shared counter. */
  ghost predicate ClaimStep(c: Config, s: State, s': State, w: nat)
    requires w in s.workers
  {
    if s.nextJob < c.jobs then
      s' == To(s.(nextJob := s.nextJob + 1, fate := s.fate[s.nextJob := InHand(w)]), w, Parse(s.nextJob))
    else s' == To(s.(nextJob := s.nextJob + 1), w, Quit(s.workers[w].temp))
  }

  /** Parsing: nothing to store, or a result to push, or, in a temporary worker, an exception. */
  ghost predicate ParseStep(s: State, s': State, w: nat, j: nat)
    requires w in s.workers
  {
    || s' == To(s.(fate := s.fate[j := Skipped]), w, Head(s.workers[w].temp))
    || (s.workers[w].temp && s' == To(s.(fate := s.fate[j := Thrown]), w, ReturnCore))
    || (Enter(s.q, s'.q, w, Push(j)) && s' == To(s.(fate := s.fate[j := AtQueue(w)], q := s'.q), w, Pushing(j)))
  }

  ghost predicate PushStep(s: State, s': State, w: nat, j: nat)
    requires w in s.workers
  {
    || (Block(s.q, s'.q, w) && s' == s.(q := s'.q))
    || (PushReturns(s.q, s'.q, w) &&
        s' == To(s.(fate := s.fate[j := if s.q.done then Dropped else Delivered], q := s'.q), w, CountQueued))
  }

  ghost predicate WorkerStep(c: Config, s: State, s': State, w: nat) {
    && w in s.workers
    && match s.workers[w].pc
      case CheckDone => s' == To(s, w, if s.parseDone then ReturnCore else CheckPool)
      case CheckPool => s' == To(s, w, if s.pool == 0 then ReturnCore else Claim)
      case Claim => ClaimStep(c, s, s', w)
      case Parse(j) => ParseStep(s, s', w, j)
      case Pushing(j) => PushStep(s, s', w, j)
      case CountQueued => s' == To(s.(filesQueued := s.filesQueued + 1), w, Head(s.workers[w].temp))
      case ReturnCore => s' == To(s.(pool := Inc32(s.pool)), w, Retire)
      case Retire => s' == To(s.(active := Dec32(s.active)), w, Gone)
      case Gone => false
  }

  // ---- Writer thread ----

  /** One `insertFileResultBatch` call, which may fail; the batch counts as written either way. */
  ghost predicate InsertsBatch(s: State, s': State, batch': seq<nat>, next: WriterPc) {
    exists ok: bool ::
      s' == s.(inserted := s.inserted + [ok], writerError := s.writerError || !ok, flushed := s.flushed + [s.batch],
               filesWritten := s.filesWritten + |s.batch|, batch := batch', writer := next)
  }

  ghost predicate WriterPops(s: State, s': State, closed: WriterPc) {
    || (Block(s.q, s'.q, WRITER) && s' == s.(q := s'.q))
    || (PopReturns(s.q, s'.q, WRITER) &&
        if s.q.items == [] then s' == s.(q := s'.q, writer := closed)
        else s' == s.(q := s'.q, batch := s.batch + [s.q.items[0]], writer := InnerHead))
  }

  ghost predicate WriterStep(s: State, s': State) {
    match s.writer
    case OuterHead => Enter(s.q, s'.q, WRITER, Pop) && s' == s.(q := s'.q, writer := OuterPop)
    case OuterPop => WriterPops(s, s', TailCheck)
    case InnerHead =>
      if |s.batch| < BATCH then Enter(s.q, s'.q, WRITER, Pop) && s' == s.(q := s'.q, writer := InnerPop)
      else s' == s.(writer := Gate)
    case InnerPop => WriterPops(s, s', Gate)
    case Gate => s' == s.(writer := if |s.batch| >= BATCH || s.q.done then Insert else OuterHead)
    case Insert => InsertsBatch(s, s', [], OuterHead)
    case TailCheck => s' == s.(writer := if s.batch == [] then Ending else TailInsert)
    case TailInsert => InsertsBatch(s, s', s.batch, Ending)
    case Ending => s' == s.(verdict := if s.writerError then RolledBack else Committed, writer := Stopped)
    case Stopped => false
  }

  // ---- Monitor thread ----

  ghost predicate SpawnsTemp(s: State, s': State) {
    exists w: nat | w != WRITER && w !in s.workers ::
      s' == s.(workers := s.workers[w := Worker(true, CheckDone)], monitor := Loop)
  }

  ghost predicate MonitorStep(c: Config, s: State, s': State) {
    match s.monitor
    case NotStarted => false
    case Start => s' == s.(monitor := if c.shared then Loop else MonitorGone)
    case Loop => s' == s.(monitor := if s.parseDone then MonitorGone else Recheck)
    case Recheck => s' == s.(monitor := if s.parseDone then MonitorGone else LoadActive)
    case LoadActive => s' == s.(monitor := if s.active >= c.want * 2 then Loop else GrabLoad)
    case GrabLoad => s' == s.(monitor := if s.pool == 0 then Loop else GrabCas(s.pool))
    case GrabCas(seen) =>
      || (s.pool == seen && s' == s.(pool := Dec32(seen), monitor := AddActive))
      || s' == s.(monitor := GrabLoad)
    case AddActive => s' == s.(active := Inc32(s.active), monitor := Spawn)
    case Spawn =>
      || s' == s.(monitor := FailReturn)
      || SpawnsTemp(s, s')
    case FailReturn => s' == s.(pool := Inc32(s.pool), monitor := FailRetire)
    case FailRetire => s' == s.(active := Dec32(s.active), monitor := Loop)
    case MonitorGone => false
  }

  // ---- Main thread ----

  ghost predicate MainStep(s: State, s': State) {
    match s.main
    case SpawnStatic(left) =>
      if left == 0 then s' == s.(main := SpawnMonitor)
      else
        || s' == s.(main := SpawnStatic(left - 1))
        || (exists w: nat | w != WRITER && w !in s.workers ::
              s' == s.(workers := s.workers[w := Worker(false, Claim)], main := SpawnStatic(left - 1)))
    case SpawnMonitor => s' == s.(monitor := Start, main := JoinStatic)
    case JoinStatic => StaticGone(s) && s' == s.(main := SetDone)
    case SetDone => s' == s.(parseDone := true, main := JoinMonitor)
    case JoinMonitor => s.monitor == MonitorGone && s' == s.(main := AwaitTemps)
    case AwaitTemps => s.active == 0 && s' == s.(main := Close)
    case Close => MarkDone(s.q, s'.q) && s' == s.(q := s'.q, main := JoinWriter)
    case JoinWriter => s.writer == Stopped && s' == s.(main := Finished)
    case Finished => false
  }

  ghost predicate StaticGone(s: State) {
    forall w | w in s.workers && !s.workers[w].temp :: s.workers[w].pc == Gone
  }

  // ---- Surroundings: spurious wakeups and the other engine processes on the same pool ----

  datatype Who =
    | ByWorker(w: nat) | ByWriter | ByMonitor | ByMain
    | Spurious(t: nat) | OthersGrab(k: nat) | OthersReturn(k: nat)

  ghost predicate Next(c: Config, s: State, s': State, who: Who) {
    match who
    case ByWorker(w) => WorkerStep(c, s, s', w)
    case ByWriter => WriterStep(s, s')
    case ByMonitor => MonitorStep(c, s, s')
    case ByMain => MainStep(s, s')
    case Spurious(t) => SpuriousWakeup(s.q, s'.q, t) && s' == s.(q := s'.q)
    case OthersGrab(k) => k <= s.pool && s' == s.(pool := s.pool - k, others := s.others + k)
    case OthersReturn(k) => k <= s.others && s' == s.(pool := (s.pool + k) % U32, others := s.others - k)
  }

  ghost predicate IsRun(c: Config, run: seq<State>, acts: seq<Who>) {
    && |run| == |acts| + 1 && Init(c, run[0])
    && forall i | 0 <= i < |acts| :: Next(c, run[i], run[i + 1], acts[i])
  }
}
