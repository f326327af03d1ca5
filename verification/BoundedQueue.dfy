/**
 * The bounded queue of engine_internal.h as an object. Each method is the stretch of its
 * C++ counterpart that runs under the mutex in one go: from taking the lock, or waking
 * with it, to returning or going back to sleep. The ghost field follows the protocol, so
 * every method is proved to be one of the protocol's steps.
 */
module BoundedQueue {
  import opened QueueProtocol

  class Buffer<V> {
    const capacity: nat
    var queue: seq<V>
    var done: bool
    ghost var state: Queue<V>

    ghost predicate Valid()
      reads this
    {
      state.capacity == capacity && state.items == queue && state.done == done && Inv(state)
    }

    constructor (capacity: nat)
      ensures Valid() && state == New<V>(capacity)
    {
      this.capacity := if capacity > 0 then capacity else 1;
      queue, done := [], false;
      state := New<V>(capacity);
    }

    /** A thread takes the mutex for the first time in this call. */
    ghost method Begin(t: nat, call: Call<V>)
      requires Valid() && t !in state.clients && (call.PopBatch? ==> call.max > 0)
      modifies this`state
      ensures Valid() && Enter(old(state), state, t, call)
    {
      state := state.(clients := state.clients[t := Client(call, Trying)]);
      EnterKeepsInv(old(state), state, t, call);
    }

    /** The wait predicate is false: sleep on the condition variable, releasing the mutex. */
    ghost method Sleep(t: nat)
      requires Valid() && Runs(state, t) && !Ready(state, state.clients[t].call)
      modifies this`state
      ensures Valid() && Block(old(state), state, t)
    {
      state := state.(clients := state.clients[t := state.clients[t].(wait := Asleep)]);
      BlockKeepsInv(old(state), state, t);
    }

    /** `push`; `waits` tells whether the thread went to sleep instead of returning. */
    method Push(ghost t: nat, value: V) returns (waits: bool)
      requires Valid() && Runs(state, t) && state.clients[t].call == Call.Push(value)
      modifies this
      ensures Valid() && waits == (|old(queue)| >= capacity && !old(done))
      ensures queue == if waits || old(done) then old(queue) else old(queue) + [value]
      ensures done == old(done)
      ensures if waits then Block(old(state), state, t) else PushReturns(old(state), state, t)
    {
      waits := !(|queue| < capacity || done);
      if waits {
        Sleep(t);
        return;
      }
      ghost var rest := state.clients - {t};
      if done {
        state := state.(clients := rest);
      } else {
        queue := queue + [value];
        ghost var after := SomeoneIsNotified(rest, false);
        state := Queue(capacity, queue, false, after, state.accepted + [value], state.taken);
      }
      PushKeepsInv(old(state), state, t);
    }

    /** `pop`; `value` is empty when the queue is closed and drained. */
    method Pop(ghost t: nat) returns (waits: bool, value: seq<V>)
      requires Valid() && Runs(state, t) && state.clients[t].call == Call.Pop
      modifies this
      ensures Valid() && waits == (old(queue) == [] && !old(done))
      ensures value + queue == old(queue) && |value| == (if old(queue) == [] then 0 else 1)
      ensures done == old(done)
      ensures if waits then Block(old(state), state, t) else PopReturns(old(state), state, t)
    {
      value := [];
      waits := !(|queue| > 0 || done);
      if waits {
        Sleep(t);
        return;
      }
      ghost var rest := state.clients - {t};
      if |queue| == 0 {
        state := state.(clients := rest);
      } else {
        value := [queue[0]];
        queue := queue[1..];
        ghost var after := SomeoneIsNotified(rest, true);
        state := Queue(capacity, queue, done, after, state.accepted, state.taken + value);
      }
      PopKeepsInv(old(state), state, t);
    }

    /** `popBatch`: the loop moves elements while there are any and the limit is not reached. */
    method PopBatch(ghost t: nat, max: nat) returns (waits: bool, values: seq<V>)
      requires Valid() && Runs(state, t) && state.clients[t].call == Call.PopBatch(max)
      modifies this
      ensures Valid() && waits == (old(queue) == [] && !old(done))
      ensures values + queue == old(queue)
      ensures |values| == if max < |old(queue)| then max else |old(queue)|
      ensures done == old(done)
      ensures if waits then Block(old(state), state, t) else PopBatchReturns(old(state), state, t)
    {
      hide NoLostWakeup, BatchesAsk, NotifyAll;
      values := [];
      waits := !(|queue| > 0 || done);
      if waits {
        Sleep(t);
        return;
      }
      while |queue| > 0 && |values| < max
        invariant values + queue == old(queue) && |values| <= max
        invariant done == old(done) && state == old(state)
      {
        values, queue := values + [queue[0]], queue[1..];
      }
      ghost var rest := state.clients - {t};
      assert old(queue)[|values|..] == queue && old(queue)[..|values|] == values;
      state := Queue(capacity, queue, done, if |values| > 0 then NotifyAll(rest, true) else rest,
                     state.accepted, state.taken + values);
      assert PopBatchReturns(old(state), state, t);
      hide PopBatchReturns, Inv;
      PopBatchKeepsInv(old(state), state, t);
    }

    method Close()
      requires Valid()
      modifies this
      ensures Valid() && MarkDone(old(state), state) && done && queue == old(queue)
    {
      done := true;
      state := state.(done := true, clients := NotifyAll(NotifyAll(state.clients, false), true));
      MarkDoneKeepsInv(old(state), state);
    }
  }
}
