/**
 * `waitForExit`: the parent process reaps its worker processes with
 * `wait()`. The outcomes of successive `wait()` calls are an input
 * sequence; when it runs out while the loop would still call `wait()`, the
 * model reports that the parent is still waiting.
 */
module WaitForExit {
  import opened Elft

  /** Linux `errno` values the loop distinguishes. */
  const EINTR := 4
  const ECHILD := 10

  /** What one `wait()` call returns. */
  datatype WaitOutcome =
    | ChildExited          // a process id
    | StatusNotAvailable   // 0
    | Error(errno: int)    // -1, with errno set

  datatype WaitResult =
    | Returned(consumed: nat)   // after this many `wait()` calls
    | Threw(errno: int)         // std::runtime_error "Error while reaping"
    | StillWaiting              // the outcomes ran out inside the loop

  /**
   * The loop from a given point: `atHead` is the test of the outer loop
   * (`exitedChildren != numChildren`), otherwise the inner loop calls
   * `wait()` until ECHILD stops it. The count is a `uint8` and wraps.
   */
  function Reap(n: uint8, count: uint8, outcomes: seq<WaitOutcome>, next: nat, atHead: bool): WaitResult
    requires next <= |outcomes|
    decreases |outcomes| - next, if atHead then 1 else 0
  {
    if atHead then
      if count == n then Returned(next) else Reap(n, count, outcomes, next, false)
    else if next == |outcomes| then StillWaiting
    else
      match outcomes[next]
      case StatusNotAvailable => Reap(n, count, outcomes, next + 1, false)
      case ChildExited => Reap(n, (count + 1) % 0x100, outcomes, next + 1, false)
      case Error(e) =>
        if e == ECHILD then Reap(n, count, outcomes, next + 1, true)
        else if e == EINTR then Reap(n, count, outcomes, next + 1, false)
        else Threw(e)
  }

  method WaitForExit(numChildren: uint8, outcomes: seq<WaitOutcome>) returns (r: WaitResult)
    ensures r == Reap(numChildren, 0, outcomes, 0, true)
    ensures numChildren == 0 ==> r == Returned(0)
  {
    var exitedChildren: uint8 := 0;
    var next := 0;
    while exitedChildren != numChildren
      invariant next <= |outcomes|
      invariant Reap(numChildren, exitedChildren, outcomes, next, true) == Reap(numChildren, 0, outcomes, 0, true)
      decreases |outcomes| - next
    {
      var stop := false;
      ghost var start := next;
      while !stop
        invariant start <= next <= |outcomes|
        invariant stop ==> next > start
        invariant Reap(numChildren, exitedChildren, outcomes, next, stop) == Reap(numChildren, 0, outcomes, 0, true)
        decreases |outcomes| - next, if stop then 0 else 1
      {
        if next == |outcomes| {
          return StillWaiting;
        }
        var outcome := outcomes[next];
        next := next + 1;
        match outcome {
          case StatusNotAvailable =>
          case ChildExited =>
            exitedChildren := (exitedChildren + 1) % 0x100;
          case Error(e) =>
            if e == ECHILD {
              stop := true;
            } else if e != EINTR {
              return Threw(e);
            }
        }
      }
    }
    return Returned(next);
  }

  function Exits(s: seq<WaitOutcome>): nat
  {
    if s == [] then 0 else (if s[0].ChildExited? then 1 else 0) + Exits(s[1..])
  }

  /** An outcome the loop does not throw on. */
  predicate Tolerated(o: WaitOutcome) { o.Error? ==> o.errno == ECHILD || o.errno == EINTR }

  /**
   * The loop returns only right after an ECHILD (or at once when the count
   * already matches), when the children reaped so far match the expected
   * number modulo 256, and when no other error came first.
   */
  lemma {:induction false} ReapReturned(n: uint8, count: uint8, outcomes: seq<WaitOutcome>, next: nat, atHead: bool, k: nat)
    requires next <= |outcomes|
    requires Reap(n, count, outcomes, next, atHead) == Returned(k)
    ensures next <= k <= |outcomes|
    ensures (count + Exits(outcomes[next..k])) % 0x100 == n
    ensures forall i :: next <= i < k ==> Tolerated(outcomes[i])
    ensures k == next ==> atHead && count == n
    ensures k > next ==> outcomes[k - 1] == Error(ECHILD)
    decreases |outcomes| - next, if atHead then 1 else 0
  {
    if atHead && count == n {
      assert outcomes[next..k] == [];
    } else if atHead {
      ReapReturned(n, count, outcomes, next, false, k);
    } else {
      var o := outcomes[next];
      var count' := if o.ChildExited? then (count + 1) % 0x100 else count;
      ReapReturned(n, count', outcomes, next + 1, o == Error(ECHILD), k);
      assert outcomes[next..k][1..] == outcomes[next + 1..k];
      assert outcomes[next..k][0] == o;
    }
  }

  /** The loop throws only on an error other than ECHILD and EINTR. */
  lemma {:induction false} ReapThrew(n: uint8, count: uint8, outcomes: seq<WaitOutcome>, next: nat, atHead: bool, e: int)
    requires next <= |outcomes|
    requires Reap(n, count, outcomes, next, atHead) == Threw(e)
    ensures e != ECHILD && e != EINTR
    ensures Error(e) in outcomes[next..]
    decreases |outcomes| - next, if atHead then 1 else 0
  {
    if atHead {
      ReapThrew(n, count, outcomes, next, false, e);
    } else {
      var o := outcomes[next];
      assert outcomes[next..][0] == o;
      if !(o.Error? && o.errno != ECHILD && o.errno != EINTR) {
        var count' := if o.ChildExited? then (count + 1) % 0x100 else count;
        ReapThrew(n, count', outcomes, next + 1, o == Error(ECHILD), e);
        assert outcomes[next + 1..] == outcomes[next..][1..];
      }
    }
  }

  /**
   * ECHILD before all children are counted does not end the loop: with
   * nothing left to reap, `wait()` keeps failing with ECHILD and the parent
   * never returns.
   */
  lemma {:induction false} EarlyEchildSpins(n: uint8, count: uint8, m: nat, next: nat, atHead: bool)
    requires count != n && next <= m
    ensures Reap(n, count, seq(m, _ => Error(ECHILD)), next, atHead) == StillWaiting
    decreases m - next, if atHead then 1 else 0
  {
    if atHead {
      EarlyEchildSpins(n, count, m, next, false);
    } else if next < m {
      EarlyEchildSpins(n, count, m, next + 1, true);
    }
  }
}
