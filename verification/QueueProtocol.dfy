/**
 * The bounded queue of engine_internal.h under any number of threads. A mutex makes every
 * stretch between two waits one step; what is left to choose is which sleeper a
 * `notify_one` wakes, and when a sleeper wakes for no reason.
 */
module QueueProtocol {

  datatype Call<V> = Push(value: V) | Pop | PopBatch(max: nat)

  /** `Woken` has been notified but has not run yet; `Trying` runs without owing it to a notification. */
  datatype Wait = Trying | Asleep | Woken

  datatype Client<V> = Client(call: Call<V>, wait: Wait)

  /** `accepted` and `taken` record, in order, what went into and came out of `items`. */
  datatype Queue<V> = Queue(
    capacity: nat, items: seq<V>, done: bool, clients: map<nat, Client<V>>,
    accepted: seq<V>, taken: seq<V>)

  ghost function New<V>(capacity: nat): Queue<V> {
    Queue(if capacity > 0 then capacity else 1, [], false, map[], [], [])
  }

  /** The predicate the call waits for. */
  ghost predicate Ready<V>(q: Queue<V>, call: Call<V>) {
    if call.Push? then |q.items| < q.capacity || q.done else q.items != [] || q.done
  }

  ghost function Sleepers<V>(clients: map<nat, Client<V>>, producers: bool): set<nat> {
    set t | t in clients && clients[t].call.Push? == producers && clients[t].wait.Asleep?
  }

  ghost function Notified<V>(clients: map<nat, Client<V>>, producers: bool): set<nat> {
    set t | t in clients && clients[t].call.Push? == producers && clients[t].wait.Woken?
  }

  ghost function Wake<V>(clients: map<nat, Client<V>>, t: nat): map<nat, Client<V>>
    requires t in clients
  {
    clients[t := clients[t].(wait := Woken)]
  }

  /** One sleeper of that side, whichever, is woken; with no sleeper the signal is lost. */
  ghost predicate NotifyOne<V>(before: map<nat, Client<V>>, after: map<nat, Client<V>>, producers: bool) {
    if Sleepers(before, producers) == {} then after == before
    else exists t | t in Sleepers(before, producers) :: after == Wake(before, t)
  }

  ghost function NotifyAll<V>(clients: map<nat, Client<V>>, producers: bool): map<nat, Client<V>> {
    map t | t in clients ::
      if t in Sleepers(clients, producers) then clients[t].(wait := Woken) else clients[t]
  }

  // ---- Steps ----

  ghost predicate Enter<V>(q: Queue<V>, q': Queue<V>, t: nat, call: Call<V>) {
    t !in q.clients && q' == q.(clients := q.clients[t := Client(call, Trying)])
  }

  ghost predicate SpuriousWakeup<V>(q: Queue<V>, q': Queue<V>, t: nat) {
    && t in q.clients && q.clients[t].wait.Asleep?
    && q' == q.(clients := q.clients[t := q.clients[t].(wait := Trying)])
  }

  ghost predicate Runs<V>(q: Queue<V>, t: nat) {
    t in q.clients && !q.clients[t].wait.Asleep?
  }

  ghost predicate Block<V>(q: Queue<V>, q': Queue<V>, t: nat) {
    && Runs(q, t) && !Ready(q, q.clients[t].call)
    && q' == q.(clients := q.clients[t := q.clients[t].(wait := Asleep)])
  }

  /** `push` returning: on a closed queue the value is dropped. */
  ghost predicate PushReturns<V>(q: Queue<V>, q': Queue<V>, t: nat) {
    && Runs(q, t) && q.clients[t].call.Push? && Ready(q, q.clients[t].call)
    && var v, rest := q.clients[t].call.value, q.clients - {t};
      if q.done then q' == q.(clients := rest)
      else
        && NotifyOne(rest, q'.clients, false)
        && q' == Queue(q.capacity, q.items + [v], false, q'.clients, q.accepted + [v], q.taken)
  }

  /** `pop` returning: false on a closed, empty queue. */
  ghost predicate PopReturns<V>(q: Queue<V>, q': Queue<V>, t: nat) {
    && Runs(q, t) && q.clients[t].call.Pop? && Ready(q, q.clients[t].call)
    && var rest := q.clients - {t};
      if q.items == [] then q' == q.(clients := rest)
      else
        && NotifyOne(rest, q'.clients, true)
        && q' == Queue(q.capacity, q.items[1..], q.done, q'.clients, q.accepted, q.taken + [q.items[0]])
  }

  /** `popBatch` returning: takes what is there, up to its limit, and wakes every producer. */
  ghost predicate PopBatchReturns<V>(q: Queue<V>, q': Queue<V>, t: nat) {
    && Runs(q, t) && q.clients[t].call.PopBatch? && Ready(q, q.clients[t].call)
    && var rest := q.clients - {t};
      var n := if |q.items| < q.clients[t].call.max then |q.items| else q.clients[t].call.max;
      q' == Queue(q.capacity, q.items[n..], q.done, if n > 0 then NotifyAll(rest, true) else rest,
                  q.accepted, q.taken + q.items[..n])
  }

  ghost predicate MarkDone<V>(q: Queue<V>, q': Queue<V>) {
    q' == q.(done := true, clients := NotifyAll(NotifyAll(q.clients, false), true))
  }

  datatype Action<V> =
    | Enters(t: nat, call: Call<V>)
    | Wakes(t: nat)
    | Blocks(t: nat)
    | Returns(t: nat)
    | Closes

  ghost predicate Step<V>(q: Queue<V>, q': Queue<V>, a: Action<V>) {
    match a
    case Enters(t, call) => Enter(q, q', t, call)
    case Wakes(t) => SpuriousWakeup(q, q', t)
    case Blocks(t) => Block(q, q', t)
    case Returns(t) => PushReturns(q, q', t) || PopReturns(q, q', t) || PopBatchReturns(q, q', t)
    case Closes => MarkDone(q, q')
  }

  // ---- The invariant ----

  /** Every batch call asks for at least one element. */
  ghost predicate BatchesAsk<V>(q: Queue<V>) {
    forall t | t in q.clients && q.clients[t].call.PopBatch? :: q.clients[t].call.max > 0
  }

  /** No wakeup is lost: whoever sleeps un-notified is outnumbered by others already on their way. */
  ghost predicate NoLostWakeup<V>(q: Queue<V>) {
    && (q.done ==> Sleepers(q.clients, true) == {} && Sleepers(q.clients, false) == {})
    && (Sleepers(q.clients, true) != {} ==> q.capacity - |q.items| <= |Notified(q.clients, true)|)
    && (Sleepers(q.clients, false) != {} ==> |q.items| <= |Notified(q.clients, false)|)
  }

  ghost predicate Inv<V>(q: Queue<V>) {
    && 1 <= q.capacity && |q.items| <= q.capacity
    && q.accepted == q.taken + q.items
    && BatchesAsk(q) && NoLostWakeup(q)
  }

  lemma NewIsInv<V>(capacity: nat)
    ensures Inv(New<V>(capacity))
  {
  }

  lemma NotifyOneCounts<V>(before: map<nat, Client<V>>, after: map<nat, Client<V>>, producers: bool)
    requires NotifyOne(before, after, producers)
    ensures Sleepers(after, !producers) == Sleepers(before, !producers)
    ensures Notified(after, !producers) == Notified(before, !producers)
    ensures Sleepers(after, producers) != {} ==> |Notified(after, producers)| == |Notified(before, producers)| + 1
    ensures Sleepers(after, producers) <= Sleepers(before, producers)
    ensures after.Keys == before.Keys && forall t | t in after :: after[t].call == before[t].call
  {
    if Sleepers(before, producers) != {} {
      var t :| t in Sleepers(before, producers) && after == Wake(before, t);
      assert Notified(after, producers) == Notified(before, producers) + {t};
      assert Notified(after, !producers) == Notified(before, !producers);
      assert Sleepers(after, !producers) == Sleepers(before, !producers);
    }
  }

  /** A notification can always be sent: to some sleeper, or to nobody. */
  lemma SomeoneIsNotified<V>(before: map<nat, Client<V>>, producers: bool) returns (after: map<nat, Client<V>>)
    ensures NotifyOne(before, after, producers)
  {
    if Sleepers(before, producers) == {} {
      after := before;
    } else {
      var t :| t in Sleepers(before, producers);
      after := Wake(before, t);
    }
  }

  /** A running thread leaving the queue takes at most its own notification with it. */
  lemma LeaveCounts<V>(clients: map<nat, Client<V>>, t: nat)
    requires t in clients && !clients[t].wait.Asleep?
    ensures var rest, side := clients - {t}, clients[t].call.Push?;
      && Sleepers(rest, true) == Sleepers(clients, true) && Sleepers(rest, false) == Sleepers(clients, false)
      && Notified(rest, !side) == Notified(clients, !side)
      && |Notified(rest, side)| >= |Notified(clients, side)| - 1
  {
    var rest, side := clients - {t}, clients[t].call.Push?;
    assert Notified(rest, side) == Notified(clients, side) - {t};
    assert Notified(rest, !side) == Notified(clients, !side);
    assert forall b :: Sleepers(rest, b) == Sleepers(clients, b);
  }

  /** A call that returns takes only its own thread out of the queue. */
  lemma ReturnKeepsOthers<V>(q: Queue<V>, q': Queue<V>, t: nat)
    requires PushReturns(q, q', t) || PopReturns(q, q', t)
    ensures t in q.clients && q'.clients.Keys == q.clients.Keys - {t}
    ensures forall u | u in q'.clients :: q'.clients[u].call == q.clients[u].call
  {
    var rest := q.clients - {t};
    assert rest.Keys == q.clients.Keys - {t};
    if q'.clients != rest {
      NotifyOneCounts(rest, q'.clients, PopReturns(q, q', t));
    }
  }

  lemma EnterKeepsInv<V>(q: Queue<V>, q': Queue<V>, t: nat, call: Call<V>)
    requires Inv(q) && Enter(q, q', t, call) && (call.PopBatch? ==> call.max > 0)
    ensures Inv(q')
  {
    assert forall b :: Sleepers(q'.clients, b) == Sleepers(q.clients, b);
    assert forall b :: Notified(q'.clients, b) == Notified(q.clients, b);
  }

  lemma WakeupKeepsInv<V>(q: Queue<V>, q': Queue<V>, t: nat)
    requires Inv(q) && SpuriousWakeup(q, q', t)
    ensures Inv(q')
  {
    assert forall b :: Sleepers(q'.clients, b) <= Sleepers(q.clients, b);
    assert forall b :: Notified(q'.clients, b) == Notified(q.clients, b);
  }

  lemma BlockKeepsInv<V>(q: Queue<V>, q': Queue<V>, t: nat)
    requires Inv(q) && Block(q, q', t)
    ensures Inv(q')
  {
    var side := q.clients[t].call.Push?;
    assert Sleepers(q'.clients, !side) == Sleepers(q.clients, !side);
    assert Notified(q'.clients, !side) == Notified(q.clients, !side);
  }

  lemma PushKeepsInv<V>(q: Queue<V>, q': Queue<V>, t: nat)
    requires Inv(q) && PushReturns(q, q', t)
    ensures Inv(q')
  {
    LeaveCounts(q.clients, t);
    if !q.done {
      NotifyOneCounts(q.clients - {t}, q'.clients, false);
    }
  }

  lemma PopKeepsInv<V>(q: Queue<V>, q': Queue<V>, t: nat)
    requires Inv(q) && PopReturns(q, q', t)
    ensures Inv(q')
  {
    LeaveCounts(q.clients, t);
    if q.items != [] {
      NotifyOneCounts(q.clients - {t}, q'.clients, true);
    }
  }

  lemma PopBatchKeepsInv<V>(q: Queue<V>, q': Queue<V>, t: nat)
    requires Inv(q) && PopBatchReturns(q, q', t)
    ensures Inv(q')
  {
    LeaveCounts(q.clients, t);
    var rest := q.clients - {t};
    assert Sleepers(NotifyAll(rest, true), true) == {};
    assert Sleepers(NotifyAll(rest, true), false) == Sleepers(rest, false);
    assert Notified(NotifyAll(rest, true), false) == Notified(rest, false);
  }

  lemma MarkDoneKeepsInv<V>(q: Queue<V>, q': Queue<V>)
    requires Inv(q) && MarkDone(q, q')
    ensures Inv(q')
  {
    assert Sleepers(NotifyAll(q.clients, false), false) == {};
  }

  /** Every step of every thread keeps the invariant, if batch calls ask for something. */
  lemma StepKeepsInv<V>(q: Queue<V>, q': Queue<V>, a: Action<V>)
    requires Inv(q) && Step(q, q', a)
    requires a.Enters? && a.call.PopBatch? ==> a.call.max > 0
    ensures Inv(q')
  {
    match a
    case Enters(t, call) => EnterKeepsInv(q, q', t, call);
    case Wakes(t) => WakeupKeepsInv(q, q', t);
    case Blocks(t) => BlockKeepsInv(q, q', t);
    case Closes => MarkDoneKeepsInv(q, q');
    case Returns(t) =>
      if PushReturns(q, q', t) {
        PushKeepsInv(q, q', t);
      } else if PopReturns(q, q', t) {
        PopKeepsInv(q, q', t);
      } else {
        PopBatchKeepsInv(q, q', t);
      }
  }

  // ---- Whole runs ----

  ghost predicate IsQueueRun<V>(run: seq<Queue<V>>, acts: seq<Action<V>>, capacity: nat) {
    && |run| == |acts| + 1 && run[0] == New(capacity)
    && forall i | 0 <= i < |acts| :: Step(run[i], run[i + 1], acts[i])
  }

  lemma {:induction false} QueueRunKeepsInv<V>(run: seq<Queue<V>>, acts: seq<Action<V>>, capacity: nat)
    requires IsQueueRun(run, acts, capacity)
    requires forall i | 0 <= i < |acts| && acts[i].Enters? && acts[i].call.PopBatch? :: acts[i].call.max > 0
    ensures Inv(run[|acts|])
  {
    if acts == [] {
      NewIsInv<V>(capacity);
    } else {
      var n := |acts| - 1;
      QueueRunKeepsInv(run[..n + 1], acts[..n], capacity);
      StepKeepsInv(run[n], run[n + 1], acts[n]);
    }
  }

  /**
   * The queue alone never deadlocks its users: when every thread inside a call sleeps, they
   * all wait on the same side, producers on a full queue or consumers on an empty one.
   */
  lemma AllAsleepMeansOneSided<V>(q: Queue<V>)
    requires Inv(q) && q.clients != map[]
    requires forall t | t in q.clients :: q.clients[t].wait.Asleep?
    ensures !q.done
    ensures || (|q.items| == q.capacity && forall t | t in q.clients :: q.clients[t].call.Push?)
            || (q.items == [] && forall t | t in q.clients :: !q.clients[t].call.Push?)
  {
    var t :| t in q.clients;
    assert t in Sleepers(q.clients, q.clients[t].call.Push?);
    assert Notified(q.clients, true) == {} && Notified(q.clients, false) == {};
    forall u | u in q.clients ensures u in Sleepers(q.clients, q.clients[u].call.Push?) {
    }
  }

  // ---- What the limit zero breaks ----

  /** A batch call that asks for nothing and a plain `pop`, both asleep on an empty queue. */
  ghost function WaitingPair(capacity: nat): Queue<int> {
    New<int>(capacity).(clients := map[0 := Client(PopBatch(0), Asleep), 1 := Client(Pop, Asleep)])
  }

  lemma WaitingPairIsReachable(capacity: nat) returns (run: seq<Queue<int>>, acts: seq<Action<int>>)
    ensures IsQueueRun(run, acts, capacity) && run[|acts|] == WaitingPair(capacity)
    ensures acts == [Enters(0, PopBatch(0)), Blocks(0), Enters(1, Pop), Blocks(1)]
  {
    var batch0: Call<int>, pop1: Call<int> := PopBatch(0), Pop;
    var q0 := New<int>(capacity);
    var q1 := q0.(clients := map[0 := Client(batch0, Trying)]);
    var q2 := q0.(clients := map[0 := Client(batch0, Asleep)]);
    var q3 := q0.(clients := map[0 := Client(batch0, Asleep), 1 := Client(pop1, Trying)]);
    run := [q0, q1, q2, q3, WaitingPair(capacity)];
    acts := [Enters(0, batch0), Blocks(0), Enters(1, pop1), Blocks(1)];
  }

  /**
   * A batch call that asks for nothing swallows the only notification, and a consumer sleeps
   * on beside an element nobody was told about.
   */
  lemma EmptyBatchLosesWakeup(capacity: nat) returns (run: seq<Queue<int>>, acts: seq<Action<int>>)
    ensures IsQueueRun(run, acts, capacity) && LimitsIn(acts, iset{0})
    ensures !run[|acts|].done && run[|acts|].items == [7] && run[|acts|].clients == map[1 := Client(Pop, Asleep)]
  {
    run, acts := WaitingPairIsReachable(capacity);
    var q4 := run[4];
    var q5 := q4.(clients := q4.clients[2 := Client(Push(7), Trying)]);
    var q6 := Queue(q4.capacity, [7], false, Wake(q4.clients, 0), [7], []);
    var q7 := q6.(clients := map[1 := Client(Pop, Asleep)]);
    assert Step(q4, q5, Enters(2, Push(7)));
    assert Step(q5, q6, Returns(2)) by {
      assert q5.clients - {2} == q4.clients;
      assert 0 in Sleepers(q4.clients, false);
    }
    assert Step(q6, q7, Returns(0)) by {
      assert q6.clients - {0} == q7.clients;
    }
    hide Step;
    run, acts := run + [q5, q6, q7], acts + [Enters(2, Push(7)), Returns(2), Returns(0)];
  }

  /** Every batch call of a run has one of the allowed limits. */
  ghost predicate LimitsIn<V>(acts: seq<Action<V>>, limits: iset<nat>) {
    forall i | 0 <= i < |acts| && acts[i].Enters? && acts[i].call.PopBatch? :: acts[i].call.max in limits
  }

  ghost predicate LosesNoWakeup(capacity: nat, limits: iset<nat>) {
    forall run, acts | IsQueueRun<int>(run, acts, capacity) && LimitsIn(acts, limits) :: NoLostWakeup(run[|acts|])
  }

  /** For every capacity and any allowed limits, no run loses a wakeup exactly when zero is not allowed. */
  lemma WakeupsAreSafeExactlyWithoutLimitZero(capacity: nat, limits: iset<nat>)
    ensures LosesNoWakeup(capacity, limits) <==> 0 !in limits
  {
    hide Step, New, NoLostWakeup, LimitsIn;
    if 0 in limits {
      var run, acts := EmptyBatchLosesWakeup(capacity);
      SwallowedIsLost(run[|acts|]);
      MoreLimits(acts, limits);
    } else {
      forall run, acts | IsQueueRun<int>(run, acts, capacity) && LimitsIn(acts, limits)
        ensures NoLostWakeup(run[|acts|])
      {
        PositiveLimits(acts, limits);
        QueueRunKeepsInv(run, acts, capacity);
      }
    }
  }

  lemma SwallowedIsLost(q: Queue<int>)
    requires !q.done && q.items == [7] && q.clients == map[1 := Client(Pop, Asleep)]
    ensures !NoLostWakeup(q)
  {
    assert 1 in Sleepers(q.clients, false) && Notified(q.clients, false) == {};
  }

  lemma MoreLimits<V>(acts: seq<Action<V>>, limits: iset<nat>)
    requires LimitsIn(acts, iset{0}) && 0 in limits
    ensures LimitsIn(acts, limits)
  {
  }

  lemma PositiveLimits<V>(acts: seq<Action<V>>, limits: iset<nat>)
    requires LimitsIn(acts, limits) && 0 !in limits
    ensures forall i | 0 <= i < |acts| && acts[i].Enters? && acts[i].call.PopBatch? :: acts[i].call.max > 0
  {
  }
}
