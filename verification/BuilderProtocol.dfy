/**
 * The background knowledge builder and the entry points that share its store connection, as
 * an interleaving of steps: the thread handle and its mutex, the recursive store mutex, and
 * the two completion flags. Timeouts may happen whenever the code allows them.
 */
module BuilderProtocol {
  import opened Basics

  /** What an open entry point is: one that only needs the store, or one that joins and launches. */
  datatype Frame = Read | Index

  /**
   * Where a client thread is. From `Awaiting` to `Reaping` and from `Draining` to `Spawning`
   * it holds the thread mutex.
   */
  datatype Pc =
    | Idle
    | Joining | Awaiting | Reaping
    | Guarding(frame: Frame)
    | Working
    | Launching | Draining | Claiming | Resetting | Spawning
    | Leaving

  /** A client thread and the entry points it has open, each of them holding the store mutex once. */
  datatype Client = Client(pc: Pc, stack: seq<Frame>)

  /** A builder thread: waiting for the store mutex, working under it, then past each completion store. */
  datatype Builder = Waiting | Building | Cleared | Marked | Ended

  datatype Owner = Free | OfClient(c: nat) | OfBuilder(b: nat)

  /**
   * `clean` and `detached` are history: the clients whose last join is not older than the
   * last launch, and whether a timed-out join ever let a builder go.
   */
  datatype State = State(clients: seq<Client>, builders: seq<Builder>, handle: Option<nat>, mutex: Option<nat>,
                         store: Owner, running: bool, done: bool, clean: set<nat>, detached: bool)

  datatype Label =
    | Begin(c: nat, frame: Frame) | EnterJoin(c: nat) | SeeDone(c: nat) | GiveUp(c: nat) | Reap(c: nat)
    | Acquire(c: nat) | Timeout(c: nat) | Finish(c: nat) | Leave(c: nat)
    | Launch(c: nat) | Lock(c: nat) | Drain(c: nat) | Claim(c: nat) | Reset(c: nat) | Spawn(c: nat)
    | Take(b: nat) | Clear(b: nat) | Mark(b: nat) | End(b: nat)

  predicate IsBuilderStep(l: Label) { l.Take? || l.Clear? || l.Mark? || l.End? }

  ghost predicate Enabled(s: State, l: Label) {
    if IsBuilderStep(l) then l.b < |s.builders| && BuilderEnabled(s, l, s.builders[l.b])
    else l.c < |s.clients| && ClientEnabled(s, l, s.clients[l.c])
  }

  ghost predicate BuilderEnabled(s: State, l: Label, phase: Builder)
    requires IsBuilderStep(l)
  {
    match l
    case Take(_) => phase == Waiting && s.store == Free
    case Clear(_) => phase == Building
    case Mark(_) => phase == Cleared
    case End(_) => phase == Marked
  }

  /** The thread a handle names has returned. */
  ghost predicate HandleEnded(s: State) {
    s.handle.Some? ==> s.handle.value < |s.builders| && s.builders[s.handle.value] == Ended
  }

  ghost predicate ClientEnabled(s: State, l: Label, cl: Client)
    requires !IsBuilderStep(l)
  {
    match l
    case Begin(_, frame) => (cl.pc == Idle || cl.pc == Working) && (frame == Index ==> Index !in cl.stack)
    case EnterJoin(_) => cl.pc == Joining && s.mutex == None
    case SeeDone(_) => cl.pc == Awaiting && s.done
    case GiveUp(_) => cl.pc == Awaiting && !s.done
    case Reap(_) => cl.pc == Reaping && HandleEnded(s)
    case Acquire(_) => cl.pc.Guarding? && (s.store == Free || s.store == OfClient(l.c))
    case Timeout(_) => cl.pc.Guarding? && cl.stack == []
    case Finish(_) => cl.pc == Working && cl.stack != []
    case Leave(_) => cl.pc == Leaving && cl.stack != []
    case Launch(_) => cl.pc == Working && cl.stack != [] && cl.stack[|cl.stack| - 1] == Index
    case Lock(_) => cl.pc == Launching && s.mutex == None
    case Drain(_) => cl.pc == Draining && HandleEnded(s)
    case Claim(_) => cl.pc == Claiming
    case Reset(_) => cl.pc == Resetting
    case Spawn(_) => cl.pc == Spawning
  }

  predicate IsJoinStep(l: Label) { l.Begin? || l.EnterJoin? || l.SeeDone? || l.GiveUp? || l.Reap? }

  predicate IsEntryStep(l: Label) { l.Acquire? || l.Timeout? || l.Finish? || l.Leave? }

  ghost function Do(s: State, l: Label): State
    requires Enabled(s, l)
  {
    if IsBuilderStep(l) then DoBuilder(s, l)
    else if IsJoinStep(l) then DoJoin(s, l)
    else if IsEntryStep(l) then DoEntry(s, l)
    else DoLaunch(s, l)
  }

  ghost function DoBuilder(s: State, l: Label): State
    requires Enabled(s, l) && IsBuilderStep(l)
  {
    match l
    case Take(b) => s.(builders := s.builders[b := Building], store := OfBuilder(b))
    case Clear(b) => s.(builders := s.builders[b := Cleared], running := false)
    case Mark(b) => s.(builders := s.builders[b := Marked], done := true)
    case End(b) => s.(builders := s.builders[b := Ended], store := Free)
  }

  ghost function DoJoin(s: State, l: Label): State
    requires Enabled(s, l) && IsJoinStep(l)
  {
    match l
    case Begin(c, frame) => At(s, c, if frame == Index then Joining else Guarding(frame))
    case EnterJoin(c) => if s.handle == None then Joined(s, c) else At(s, c, Awaiting).(mutex := Some(c))
    case SeeDone(c) => At(s, c, Reaping)
    case GiveUp(c) => Joined(s, c).(detached := true)
    case Reap(c) => Joined(s, c)
  }

  ghost function DoEntry(s: State, l: Label): State
    requires Enabled(s, l) && IsEntryStep(l)
  {
    var cl := s.clients[l.c];
    match l
    case Acquire(c) => s.(clients := s.clients[c := Client(Working, cl.stack + [cl.pc.frame])], store := OfClient(c))
    case Timeout(c) => At(s, c, Idle)
    case Finish(c) => At(s, c, Leaving)
    case Leave(c) =>
      var stack := cl.stack[..|cl.stack| - 1];
      s.(clients := s.clients[c := Client(if stack == [] then Idle else Working, stack)],
         store := if stack == [] then Free else s.store)
  }

  ghost function DoLaunch(s: State, l: Label): State
    requires Enabled(s, l) && !IsBuilderStep(l) && !IsJoinStep(l) && !IsEntryStep(l)
  {
    match l
    case Launch(c) => At(s, c, Launching)
    case Lock(c) => At(s, c, Draining).(mutex := Some(c))
    case Drain(c) => At(s, c, Claiming).(handle := None)
    case Claim(c) => if s.running then At(s, c, Leaving).(mutex := None) else At(s, c, Resetting).(running := true)
    case Reset(c) => At(s, c, Spawning).(done := false)
    case Spawn(c) =>
      At(s, c, Leaving).(builders := s.builders + [Waiting], handle := Some(|s.builders|), mutex := None, clean := {})
  }

  ghost function At(s: State, c: nat, pc: Pc): State
    requires c < |s.clients|
  {
    s.(clients := s.clients[c := s.clients[c].(pc := pc)])
  }

  /** A join returns: no handle is left, whether it was reaped, detached, or never there. */
  ghost function Joined(s: State, c: nat): State
    requires c < |s.clients|
  {
    At(s, c, Guarding(Index)).(handle := None, mutex := None, clean := s.clean + {c})
  }

  ghost function Start(n: nat): State {
    State(seq(n, (i: nat) => Client(Idle, [])), [], None, None, Free, false, true, {}, false)
  }

  /** A run: every label is enabled where it is taken. */
  ghost function After(s: State, run: seq<Label>): Option<State> {
    if run == [] then Some(s)
    else
      match After(s, run[..|run| - 1])
      case None => None
      case Some(t) => if Enabled(t, run[|run| - 1]) then Some(Do(t, run[|run| - 1])) else None
  }

  ghost predicate Reachable(s: State) { exists run :: After(Start(|s.clients|), run) == Some(s) }

  // ---- What every step keeps ----

  predicate HoldsMutex(pc: Pc) {
    pc.Awaiting? || pc.Reaping? || pc.Draining? || pc.Claiming? || pc.Resetting? || pc.Spawning?
  }

  predicate NeedsStore(pc: Pc) {
    pc.Working? || pc.Launching? || pc.Draining? || pc.Claiming? || pc.Resetting? || pc.Spawning? || pc.Leaving?
  }

  /** The thread mutex is held by whom it says. */
  ghost predicate MutexRight(s: State) {
    && (s.mutex.Some? ==> s.mutex.value < |s.clients|)
    && forall c | 0 <= c < |s.clients| :: HoldsMutex(s.clients[c].pc) <==> s.mutex == Some(c)
  }

  /** So is the store mutex, which a client holds as long as it has an entry point open. */
  ghost predicate StoreRight(s: State) {
    && (s.store.OfClient? ==> s.store.c < |s.clients|)
    && (forall c | 0 <= c < |s.clients| :: s.clients[c].stack != [] <==> s.store == OfClient(c))
    && (forall c | 0 <= c < |s.clients| :: NeedsStore(s.clients[c].pc) ==> s.clients[c].stack != [])
    && (forall c | 0 <= c < |s.clients| :: s.clients[c].pc == Idle ==> s.clients[c].stack == [])
  }

  ghost predicate BuildersRight(s: State) {
    && (s.store.OfBuilder? ==> s.store.b < |s.builders|)
    && forall b | 0 <= b < |s.builders| ::
         (s.builders[b].Building? || s.builders[b].Cleared? || s.builders[b].Marked?) <==> s.store == OfBuilder(b)
  }

  ghost predicate LocksRight(s: State) { MutexRight(s) && StoreRight(s) && BuildersRight(s) }

  /** A builder that has not yet cleared the running flag, and one that has not yet set the done flag. */
  predicate Live(b: Builder) { b.Waiting? || b.Building? }

  predicate Open(b: Builder) { Live(b) || b.Cleared? }

  /** A launch that holds the thread mutex has claimed the running flag, and is about to start its thread. */
  ghost predicate Claimed(s: State) {
    s.mutex.Some? && s.mutex.value < |s.clients|
    && (s.clients[s.mutex.value].pc == Resetting || s.clients[s.mutex.value].pc == Spawning)
  }

  ghost predicate AtSpawn(s: State) {
    s.mutex.Some? && s.mutex.value < |s.clients| && s.clients[s.mutex.value].pc == Spawning
  }

  ghost predicate SomeOpen(s: State) { exists b | 0 <= b < |s.builders| :: Open(s.builders[b]) }

  ghost predicate SomeLive(s: State) { exists b | 0 <= b < |s.builders| :: Live(s.builders[b]) }

  /** The flags say what they are read for, and there is one builder at most. */
  ghost predicate FlagsRight(s: State) {
    && (s.running <==> Claimed(s) || SomeLive(s))
    && (s.done <==> !AtSpawn(s) && !SomeOpen(s))
    && (forall b, d | 0 <= b < d < |s.builders| :: !(Open(s.builders[b]) && Open(s.builders[d])))
    && (Claimed(s) ==> !SomeOpen(s))
  }

  /** The handle names the builder, unless one was let go; a join not yet outdated leaves no handle. */
  ghost predicate HandleRight(s: State) {
    && (s.handle.Some? ==> s.handle.value < |s.builders|)
    && (forall c | 0 <= c < |s.clients| :: s.clients[c].pc.Awaiting? || s.clients[c].pc.Reaping? ==> s.handle.Some?)
    && (forall c | 0 <= c < |s.clients| ::
          s.clients[c].pc.Claiming? || s.clients[c].pc.Resetting? || s.clients[c].pc.Spawning? ==> s.handle == None)
    && (forall b | 0 <= b < |s.builders| :: s.builders[b] != Ended ==> s.handle == Some(b) || s.detached)
    && (s.clean != {} ==> s.handle == None)
  }
}
