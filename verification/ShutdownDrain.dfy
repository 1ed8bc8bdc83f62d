/**
 `drain` and `drain_all`: polling queues that producers and consumers keep changing, against one shared deadline.
 Times are whole milliseconds and only the poll's sleep takes any.
 */
module ShutdownDrain {
  const POLL := 50

  /** Whether `_queue.empty()` holds of queue number `q` at a given time; any behaviour of the queues is allowed. */
  type Sight = (nat, int) -> bool

  class Clock {
    var now: int
    ghost var sleeps: nat
    /** The longest that one sleep of 50 ms can really take. */
    const worst: nat

    ghost predicate Valid() {
      POLL <= worst
    }

    constructor (now: int, worst: nat)
      requires POLL <= worst
      ensures Valid() && this.now == now && this.worst == worst && sleeps == 0
    {
      this.now := now;
      this.worst := worst;
      this.sleeps := 0;
    }

    method Sleep()
      requires Valid()
      modifies this
      ensures old(now) + POLL <= now <= old(now) + worst && sleeps == old(sleeps) + 1
    {
      var late :| 0 <= late <= worst - POLL;
      now := now + POLL + late;
      sleeps := sleeps + 1;
    }
  }

  function Max(a: int, b: int): int {
    if a < b then b else a
  }

  /**
   Polls queue `q` until it is seen empty or the deadline has passed. `polls` are the times of the looks: every
   look but the last found the queue non-empty before the deadline, and the last one decides.
   */
  method Drain(clock: Clock, empty: Sight, q: nat, timeout: int) returns (ok: bool, ghost polls: seq<int>)
    requires clock.Valid()
    modifies clock
    ensures polls != [] && polls[0] == old(clock.now) && polls[|polls| - 1] == clock.now
    ensures forall i :: 0 <= i < |polls| - 1 ==> !empty(q, polls[i]) && polls[i] < old(clock.now) + timeout
    ensures forall i :: 0 < i < |polls| ==> POLL <= polls[i] - polls[i - 1] <= clock.worst
    ensures ok == empty(q, clock.now)
    ensures !ok ==> old(clock.now) + timeout <= clock.now
    ensures clock.sleeps == old(clock.sleeps) + |polls| - 1
    ensures old(clock.now) <= clock.now
    ensures clock.now == old(clock.now) || clock.now < old(clock.now) + timeout + clock.worst
    ensures timeout <= 0 ==> |polls| == 1
  {
    var deadline := clock.now + timeout;
    polls := [clock.now];
    while !empty(q, clock.now)
      invariant polls != [] && polls[0] == old(clock.now) && polls[|polls| - 1] == clock.now
      invariant forall i :: 0 <= i < |polls| - 1 ==> !empty(q, polls[i]) && polls[i] < deadline
      invariant forall i :: 0 < i < |polls| ==> POLL <= polls[i] - polls[i - 1] <= clock.worst
      invariant clock.sleeps == old(clock.sleeps) + |polls| - 1
      invariant old(clock.now) <= clock.now
      invariant clock.now == old(clock.now) || clock.now < deadline + clock.worst
      invariant timeout <= 0 ==> |polls| == 1
      decreases deadline - clock.now
    {
      if clock.now >= deadline {
        return false, polls;
      }
      clock.Sleep();
      polls := polls + [clock.now];
    }
    ok := true;
  }

  /**
   Drains `n` queues one after another on one budget. `seen[q]` is when queue `q` had its last look. However many
   queues there are, the whole call overruns the budget by less than one sleep; with no budget it never sleeps.
   */
  method DrainAll(clock: Clock, empty: Sight, n: nat, timeout: int) returns (allDrained: bool, ghost seen: seq<int>)
    requires clock.Valid()
    modifies clock
    ensures |seen| == n
    ensures forall q :: 0 <= q < n ==> old(clock.now) <= seen[q] <= clock.now
    ensures forall p, q :: 0 <= p < q < n ==> seen[p] <= seen[q]
    ensures allDrained <==> forall q :: 0 <= q < n ==> empty(q, seen[q])
    ensures forall q :: 0 <= q < n && !empty(q, seen[q]) ==> old(clock.now) + timeout <= seen[q]
    ensures clock.now - old(clock.now) < Max(timeout, 0) + clock.worst
    ensures timeout <= 0 ==> clock.now == old(clock.now) && clock.sleeps == old(clock.sleeps)
  {
    var deadline := clock.now + timeout;
    allDrained, seen := true, [];
    for i := 0 to n
      invariant |seen| == i
      invariant forall q :: 0 <= q < i ==> old(clock.now) <= seen[q] <= clock.now
      invariant forall p, q :: 0 <= p < q < i ==> seen[p] <= seen[q]
      invariant allDrained <==> forall q :: 0 <= q < i ==> empty(q, seen[q])
      invariant forall q :: 0 <= q < i && !empty(q, seen[q]) ==> deadline <= seen[q]
      invariant old(clock.now) <= clock.now
      invariant clock.now == old(clock.now) || clock.now < deadline + clock.worst
      invariant timeout <= 0 ==> clock.now == old(clock.now) && clock.sleeps == old(clock.sleeps)
    {
      var remaining := Max(0, deadline - clock.now);
      ghost var before := seen;
      var ok, polls := Drain(clock, empty, i, remaining);
      seen := seen + [clock.now];
      if !ok {
        allDrained := false;
      }
      assert forall q :: 0 <= q < i ==> seen[q] == before[q];
      assert seen[i] == clock.now && empty(i, seen[i]) == ok;
      assert (forall q :: 0 <= q < i + 1 ==> empty(q, seen[q])) <==>
             (forall q :: 0 <= q < i ==> empty(q, before[q])) && ok;
    }
  }
}
