/** Automatic reconnection: the guard that keeps reconnect loops from multiplying, the backoff
    between attempts, and the retries of a request before reconnection is triggered. */
module Reconnect {
  import opened Bytes
  import opened Outcomes

  // ---------- backoff, in int64 nanoseconds ----------

  const SECOND: int := 1_000_000_000
  const TWO_62: int := 0x4000_0000_0000_0000
  const TWO_63: int := 0x8000_0000_0000_0000

  type duration = x: int | -0x8000_0000_0000_0000 <= x < 0x8000_0000_0000_0000

  /** int64 arithmetic wraps. */
  function Wrap64(n: int): (r: duration)
    ensures -TWO_63 <= n < TWO_63 ==> r == n
  {
    (n + TWO_63) % (2 * TWO_63) - TWO_63
  }

  /** One failed attempt doubles the backoff, up to the limit. */
  function NextBackoff(backoff: duration, limit: duration): duration {
    var doubled := Wrap64(backoff * 2);
    if doubled > limit then limit else doubled
  }

  /** The wait before attempt k + 1, after k failures. */
  function Backoff(k: nat, limit: duration): duration {
    if k == 0 then SECOND else NextBackoff(Backoff(k - 1, limit), limit)
  }

  function Pow2(k: nat): (p: nat)
    ensures p >= 1
  {
    if k == 0 then 1 else 2 * Pow2(k - 1)
  }

  /** 2^k seconds, at most the limit. */
  function CappedDelay(k: nat, limit: int): int {
    if Pow2(k) * 1_000_000_000 <= limit then Pow2(k) * 1_000_000_000 else limit
  }

  lemma {:induction false} BackoffBelowLimit(k: nat, limit: duration)
    requires 0 < limit < TWO_62 && k >= 1
    ensures Backoff(k, limit) == CappedDelay(k, limit)
  {
    if k == 1 {
      assert Backoff(0, limit) == SECOND && Pow2(1) == 2;
    } else {
      BackoffBelowLimit(k - 1, limit);
      assert Pow2(k) == 2 * Pow2(k - 1);
    }
  }

  lemma {:induction false} BackoffBeforeOverflow(k: nat, limit: duration)
    requires TWO_62 <= limit && k <= 33
    ensures Backoff(k, limit) == CappedDelay(k, limit)
  {
    Power33();
    if k == 0 {
    } else {
      PowersGrow(k - 1, 32);
      BackoffBeforeOverflow(k - 1, limit);
      assert Pow2(k) == 2 * Pow2(k - 1);
    }
  }

  lemma {:induction false} PowersGrow(k: nat, m: nat)
    requires k <= m
    ensures Pow2(k) <= Pow2(m)
  {
    if k < m {
      PowersGrow(k, m - 1);
    }
  }

  lemma Power33()
    ensures Pow2(32) == 0x1_0000_0000 && Pow2(33) == 0x2_0000_0000
  {
    assert Pow2(8) == 0x100;
    assert Pow2(16) == 0x1_0000;
    assert Pow2(24) == 0x100_0000;
  }

  /** The delay after every number of failures is 2^k seconds capped at the limit, exactly when the
      limit is below 2^62 ns; from there on the doubling overflows int64 and turns negative. */
  lemma BackoffExact(limit: duration)
    requires limit > 0
    ensures (forall k: nat | k >= 1 :: Backoff(k, limit) == CappedDelay(k, limit)) <==> limit < TWO_62
    ensures limit >= TWO_62 ==> Backoff(34, limit) < 0
    ensures Backoff(0, limit) == 1_000_000_000
  {
    if limit < TWO_62 {
      forall k: nat | k >= 1
        ensures Backoff(k, limit) == CappedDelay(k, limit)
      {
        BackoffBelowLimit(k, limit);
      }
    } else {
      Power33();
      BackoffBeforeOverflow(33, limit);
      assert Backoff(33, limit) >= TWO_62;
      assert Backoff(34, limit) == NextBackoff(Backoff(33, limit), limit) < 0;
      assert CappedDelay(34, limit) > 0;
    }
  }

  // ---------- the reconnect guard as a transition system ----------

  /** A reconnect loop, from the moment triggerReconnection sets the attempt count. */
  datatype Loop =
    | Launching
    | Waiting(backoff: duration, attempt: nat)
    | Dialling(backoff: duration, attempt: nat)
    | Reestablishing
    | Over

  datatype State = State(attempts: nat, loops: seq<Loop>, shutdown: bool, connected: bool)

  datatype Step =
    | Trigger
    | Launch(l: nat)
    | TimerFires(l: nat)
    | ConnectFails(l: nat)
    | ConnectSucceeds(l: nat)
    | Reset(l: nat)
    | Shutdown
    | SeeShutdown(l: nat)

  /** After New with a successful first connect. */
  function FirstConnected(): State { State(0, [], false, true) }

  /** After New with a failed first connect and auto-reconnect on: a loop runs, the count is 0. */
  function FirstFailed(): State { State(0, [Waiting(SECOND, 1)], false, false) }

  predicate Enabled(s: State, step: Step) {
    match step
    case Trigger => true
    case Launch(l) => l < |s.loops| && s.loops[l].Launching?
    case TimerFires(l) => l < |s.loops| && s.loops[l].Waiting?
    case ConnectFails(l) => l < |s.loops| && s.loops[l].Dialling?
    case ConnectSucceeds(l) => l < |s.loops| && s.loops[l].Dialling?
    case Reset(l) => l < |s.loops| && s.loops[l].Reestablishing?
    case Shutdown => true
    case SeeShutdown(l) => l < |s.loops| && s.loops[l].Waiting? && s.shutdown
  }

  function Apply(s: State, step: Step, limit: duration): State
    requires Enabled(s, step)
  {
    match step
    case Trigger => if s.attempts > 0 then s else s.(attempts := 1, loops := s.loops + [Launching])
    case Launch(l) => s.(loops := s.loops[l := Waiting(SECOND, 1)], connected := false)
    case TimerFires(l) =>
      s.(attempts := s.loops[l].attempt, loops := s.loops[l := Dialling(s.loops[l].backoff, s.loops[l].attempt)])
    case ConnectFails(l) =>
      s.(connected := false,
         loops := s.loops[l := Waiting(NextBackoff(s.loops[l].backoff, limit), s.loops[l].attempt + 1)])
    case ConnectSucceeds(l) => s.(connected := true, loops := s.loops[l := Reestablishing])
    case Reset(l) => s.(attempts := 0, loops := s.loops[l := Over])
    case Shutdown => s.(shutdown := true)
    case SeeShutdown(l) => s.(loops := s.loops[l := Over])
  }

  predicate IsRun(s: State, steps: seq<Step>, limit: duration)
    decreases |steps|
  {
    steps == [] || (Enabled(s, steps[0]) && IsRun(Apply(s, steps[0], limit), steps[1..], limit))
  }

  function Exec(s: State, steps: seq<Step>, limit: duration): State
    requires IsRun(s, steps, limit)
    decreases |steps|
  {
    if steps == [] then s else Exec(Apply(s, steps[0], limit), steps[1..], limit)
  }

  predicate Live(s: State, l: int) {
    0 <= l < |s.loops| && s.loops[l] != Over
  }

  /** The backoff a loop carries is the one its number of failures calls for. */
  predicate BackoffOk(loop: Loop, limit: duration) {
    match loop
    case Waiting(b, a) => a >= 1 && b == Backoff(a - 1, limit)
    case Dialling(b, a) => a >= 1 && b == Backoff(a - 1, limit)
    case _ => true
  }

  ghost predicate OneLoop(s: State) {
    && (forall l1, l2 | Live(s, l1) && Live(s, l2) :: l1 == l2)
    && (forall l | Live(s, l) :: s.attempts >= 1)
  }

  ghost predicate Good(s: State, limit: duration) {
    && OneLoop(s)
    && (forall l :: 0 <= l < |s.loops| ==> BackoffOk(s.loops[l], limit))
  }

  lemma StepKeepsGood(s: State, step: Step, limit: duration)
    requires Good(s, limit) && Enabled(s, step)
    ensures Good(Apply(s, step, limit), limit)
  {
    hide Backoff;
    var t := Apply(s, step, limit);
    assert forall l | Live(t, l) && l < |s.loops| :: Live(s, l);
    if !step.Trigger? && !step.Shutdown? {
      assert Live(s, step.l) && BackoffOk(s.loops[step.l], limit);
    }
    if step.ConnectFails? {
      BackoffGrows(s.loops[step.l].attempt, limit);
    } else if step.Launch? {
      BackoffStarts(limit);
    }
  }

  lemma BackoffGrows(k: nat, limit: duration)
    requires k >= 1
    ensures NextBackoff(Backoff(k - 1, limit), limit) == Backoff(k, limit)
  {
  }

  lemma BackoffStarts(limit: duration)
    ensures Backoff(0, limit) == SECOND
  {
  }

  lemma {:induction false} RunKeepsGood(s: State, steps: seq<Step>, limit: duration)
    requires Good(s, limit) && IsRun(s, steps, limit)
    ensures Good(Exec(s, steps, limit), limit)
    decreases |steps|
  {
    hide Good, Enabled, Apply;
    if steps == [] {
    } else {
      assert Enabled(s, steps[0]);
      StepKeepsGood(s, steps[0], limit);
      RunKeepsGood(Apply(s, steps[0], limit), steps[1..], limit);
    }
  }

  /** For a client whose first connect succeeded, over every interleaving of triggers, loop
      iterations and shutdown: at most one loop is live, the attempt count is at least 1 while one
      is, and each waits the delay its failures call for. */
  lemma AtMostOneLoop(steps: seq<Step>, limit: duration)
    requires IsRun(FirstConnected(), steps, limit)
    ensures var s := Exec(FirstConnected(), steps, limit);
            && (forall l1, l2 | Live(s, l1) && Live(s, l2) :: l1 == l2)
            && (forall l | Live(s, l) :: s.attempts >= 1)
            && (forall l | 0 <= l < |s.loops| && s.loops[l].Waiting? ::
                  s.loops[l].attempt >= 1 && s.loops[l].backoff == Backoff(s.loops[l].attempt - 1, limit))
  {
    hide Backoff;
    RunKeepsGood(FirstConnected(), steps, limit);
    var s := Exec(FirstConnected(), steps, limit);
    assert forall l | 0 <= l < |s.loops| && s.loops[l].Waiting? :: BackoffOk(s.loops[l], limit);
  }

  /** What the guard's count and the connection say of the loops: until shutdown, the count is 0 and the client
      connected when none is live; a loop that waits or dials has no connection, and one that dials has set the
      count to its attempt. */
  ghost predicate GuardOk(s: State) {
    && (!s.shutdown && !(exists l :: Live(s, l)) ==> s.attempts == 0 && s.connected)
    && (forall l | Live(s, l) ::
          match s.loops[l]
          case Launching => s.attempts == 1
          case Waiting(_, a) => !s.connected && (s.attempts == a - 1 || (a == 1 && s.attempts == 1))
          case Dialling(_, a) => !s.connected && s.attempts == a
          case Reestablishing => s.connected
          case Over => true)
  }

  lemma StepKeepsGuard(s: State, step: Step, limit: duration)
    requires OneLoop(s) && GuardOk(s) && Enabled(s, step)
    ensures GuardOk(Apply(s, step, limit))
  {
    hide NextBackoff;
    var t := Apply(s, step, limit);
    if step.Trigger? {
      if s.attempts == 0 {
        assert Live(t, |s.loops|);
        assert forall l :: 0 <= l < |s.loops| ==> (Live(t, l) <==> Live(s, l));
        assert forall l :: Live(t, l) ==> l == |s.loops|;
      } else {
        assert t == s;
      }
    } else if !step.Shutdown? {
      assert Live(s, step.l);
      assert forall l :: 0 <= l < |s.loops| && l != step.l ==> (Live(t, l) <==> Live(s, l));
      assert forall l :: Live(t, l) ==> l == step.l;
      if !step.Reset? && !step.SeeShutdown? { assert Live(t, step.l); }
    } else {
      assert forall l :: Live(t, l) <==> Live(s, l);
    }
  }

  lemma {:induction false} RunKeepsGuard(s: State, steps: seq<Step>, limit: duration)
    requires Good(s, limit) && GuardOk(s) && IsRun(s, steps, limit)
    ensures GuardOk(Exec(s, steps, limit))
    decreases |steps|
  {
    hide GuardOk, BackoffOk, OneLoop, Enabled, Apply;
    if steps != [] {
      assert Enabled(s, steps[0]);
      StepKeepsGood(s, steps[0], limit);
      StepKeepsGuard(s, steps[0], limit);
      RunKeepsGuard(Apply(s, steps[0], limit), steps[1..], limit);
    }
  }

  /** For a client whose first connect succeeded, over every run until shutdown: a trigger starts a loop exactly
      when none is live, and the client counts as connected exactly when no loop waits, dials or has not begun. */
  lemma TriggerExactly(steps: seq<Step>, limit: duration)
    requires IsRun(FirstConnected(), steps, limit) && !Exec(FirstConnected(), steps, limit).shutdown
    ensures var s := Exec(FirstConnected(), steps, limit);
            && (|Apply(s, Trigger, limit).loops| == |s.loops| + 1 <==> !exists l :: Live(s, l))
            && (!(exists l :: Live(s, l)) ==> s.connected && s.attempts == 0)
            && (forall l | Live(s, l) && (s.loops[l].Waiting? || s.loops[l].Dialling?) :: !s.connected)
            && (forall l | Live(s, l) && s.loops[l].Dialling? :: s.attempts == s.loops[l].attempt)
  {
    RunKeepsGood(FirstConnected(), steps, limit);
    RunKeepsGuard(FirstConnected(), steps, limit);
    hide IsRun, Exec, BackoffOk;
  }

  /** The loop New started is still in its first wait. */
  predicate InFirstWait(s: State) {
    s.loops != [] && s.loops[0].Waiting? && s.loops[0].attempt == 1
  }

  /** At no point of the run is more than one loop live. */
  ghost predicate AlwaysOneLoop(s: State, steps: seq<Step>, limit: duration)
    requires IsRun(s, steps, limit)
    decreases |steps|
  {
    && (forall l1, l2 | Live(s, l1) && Live(s, l2) :: l1 == l2)
    && (steps != [] ==> AlwaysOneLoop(Apply(s, steps[0], limit), steps[1..], limit))
  }

  /** A trigger comes while the loop New started is in its first wait. */
  ghost predicate TriggeredEarly(s: State, steps: seq<Step>, limit: duration)
    requires IsRun(s, steps, limit)
    decreases |steps|
  {
    steps != [] && ((InFirstWait(s) && steps[0] == Trigger)
                    || TriggeredEarly(Apply(s, steps[0], limit), steps[1..], limit))
  }

  /** Once the first wait is over the guard holds as if the first connect had succeeded. */
  ghost predicate WaitOver(s: State, limit: duration) {
    Good(s, limit) && !InFirstWait(s) && s.loops != [] && !s.loops[0].Launching?
  }

  lemma {:induction false} GuardedFromThere(s: State, steps: seq<Step>, limit: duration)
    requires WaitOver(s, limit) && IsRun(s, steps, limit)
    ensures AlwaysOneLoop(s, steps, limit) && !TriggeredEarly(s, steps, limit)
    decreases |steps|
  {
    hide Good, Backoff;
    GoodIsOne(s, limit);
    if steps == [] {
    } else {
      StepKeepsGood(s, steps[0], limit);
      GuardedFromThere(Apply(s, steps[0], limit), steps[1..], limit);
    }
  }

  lemma GoodIsOne(s: State, limit: duration)
    requires Good(s, limit) && s.loops != []
    ensures OneLoop(s)
    ensures s.loops[0].Dialling? ==> s.loops[0].attempt >= 1
  {
    assert BackoffOk(s.loops[0], limit);
  }

  lemma {:induction false} FirstWait(s: State, steps: seq<Step>, limit: duration)
    requires s.attempts == 0 && s.loops == [Waiting(SECOND, 1)] && IsRun(s, steps, limit)
    ensures AlwaysOneLoop(s, steps, limit) <==> !TriggeredEarly(s, steps, limit)
    decreases |steps|
  {
    hide Backoff;
    assert forall l :: Live(s, l) ==> l == 0;
    if steps == [] {
    } else {
      var t := Apply(s, steps[0], limit);
      match steps[0] {
        case Trigger =>
          assert Live(t, 0) && Live(t, 1);
          assert !AlwaysOneLoop(t, steps[1..], limit);
        case Shutdown => FirstWait(t, steps[1..], limit);
        case TimerFires(l) =>
          BackoffStarts(limit);
          assert forall i :: Live(t, i) ==> i == 0;
          GuardedFromThere(t, steps[1..], limit);
        case SeeShutdown(l) =>
          assert forall i :: !Live(t, i);
          GuardedFromThere(t, steps[1..], limit);
      }
    }
  }

  /** For a client whose first connect failed: at most one loop is ever live if and only if no trigger comes
      while the loop New started is in its first wait, when the attempt count is still 0. */
  lemma OneLoopAfterFirstFailure(steps: seq<Step>, limit: duration)
    requires IsRun(FirstFailed(), steps, limit)
    ensures AlwaysOneLoop(FirstFailed(), steps, limit) <==> !TriggeredEarly(FirstFailed(), steps, limit)
  {
    FirstWait(FirstFailed(), steps, limit);
  }

  /** The shortest run that makes two loops live. */
  lemma FirstFailureAdmitsTwoLoops(limit: duration)
    ensures IsRun(FirstFailed(), [Trigger], limit)
    ensures var s := Exec(FirstFailed(), [Trigger], limit); Live(s, 0) && Live(s, 1)
    ensures Live(FirstFailed(), 0) && FirstFailed().attempts == 0
  {
    var s := Apply(FirstFailed(), Trigger, limit);
    assert IsRun(s, [], limit);
    assert [Trigger][1..] == [];
  }

  // ---------- the client object ----------

  /** What a read of the connection pointer finds: nil, the connection last found, or one made since. */
  datatype Found = Nil | Same | Replaced

  datatype Ending = Reply(errorCode: u32) | Retryable | Fatal

  /** What a send attempt meets. The pointer is read three times: for the nil check, to take an invoke ID, and
      to send. Other requests take IDs in between; SendRequest ends somehow; the context may end in the wait. */
  datatype Attempt = Attempt(
    atCheck: Found, atAllocation: Found, atSend: Found, others: nat, ending: Ending, cancelled: bool)

  datatype Reason = NotConnected | AdsError(code: u32) | SendFailed | Cancelled | Exhausted

  /** Crashed: a method is called on the nil pointer. */
  datatype SendResult = Replied | Refused(reason: Reason) | Crashed

  /** The packet goes out: the pointer is nil at none of the three reads. */
  predicate Goes(a: Attempt) {
    a.atCheck != Nil && a.atAllocation != Nil && a.atSend != Nil
  }

  predicate Stops(a: Attempt) {
    !Goes(a) || a.ending != Retryable || a.cancelled
  }

  /** The first attempt, from i on, that does not lead to another one; the last is always one. */
  function StopsAt(env: nat -> Attempt, i: nat, n: nat): (k: nat)
    requires i <= n
    ensures i <= k <= n
    ensures k < n ==> Stops(env(k))
    ensures forall j :: i <= j < k ==> !Stops(env(j))
    decreases n - i
  {
    if i == n || Stops(env(i)) then i else StopsAt(env, i + 1, n)
  }

  function ResultOf(a: Attempt, last: bool): SendResult {
    if a.atCheck == Nil then Refused(NotConnected)
    else if !Goes(a) then Crashed
    else match a.ending
         case Reply(code) => if code != 0 then Refused(AdsError(code)) else Replied
         case Fatal => Refused(SendFailed)
         case Retryable => if last then Refused(Exhausted) else Refused(Cancelled)
  }

  /** Every one of the n + 1 sends fails with a connection error and no wait is cut short. */
  predicate AllRetryable(env: nat -> Attempt, n: nat) {
    var k := StopsAt(env, 0, n);
    k == n && Goes(env(n)) && env(n).ending == Retryable
  }

  lemma StopsHere(env: nat -> Attempt, i: nat, n: nat)
    requires i <= n && StopsAt(env, 0, n) == StopsAt(env, i, n)
    requires i == n || Stops(env(i))
    ensures StopsAt(env, 0, n) == i
    ensures AllRetryable(env, n) <==> i == n && Goes(env(n)) && env(n).ending == Retryable
  {
  }

  /** What the call returns, from what its attempts met: the first that does not fail with a connection error
      decides, if the ones before it were not cut short. */
  lemma RetryResult(env: nat -> Attempt, n: nat)
    ensures var k := StopsAt(env, 0, n);
            var r, a := ResultOf(env(k), k == n), env(k);
            && (forall j :: 0 <= j < k ==> Goes(env(j)) && env(j).ending == Retryable && !env(j).cancelled)
            && (r == Replied <==> Goes(a) && a.ending == Reply(0))
            && (forall code: u32 :: r == Refused(AdsError(code)) <==>
                  Goes(a) && a.ending == Reply(code) && code != 0)
            && (r == Refused(SendFailed) <==> Goes(a) && a.ending == Fatal)
            && (r == Refused(Exhausted) <==> k == n && Goes(a) && a.ending == Retryable)
            && (r == Refused(Cancelled) <==> k < n && Goes(a) && a.ending == Retryable)
            && (r == Refused(Cancelled) ==> a.cancelled)
            && (r == Refused(NotConnected) <==> a.atCheck == Nil)
            && (r == Crashed <==> a.atCheck != Nil && !Goes(a))
  {
    var k := StopsAt(env, 0, n);
    assert forall j :: 0 <= j < k ==> !Stops(env(j));
    hide StopsAt;
  }

  lemma GoesOn(env: nat -> Attempt, i: nat, n: nat)
    requires i < n && !Stops(env(i))
    ensures StopsAt(env, i, n) == StopsAt(env, i + 1, n)
  {
  }

  /** Waiting 100 ms, then 200 ms, and so on. */
  function TotalWait(k: nat): nat { 50 * k * (k + 1) }

  /** The k-th retry waits k times 100 ms. */
  lemma WaitGrows(k: nat)
    ensures TotalWait(0) == 0
    ensures TotalWait(k + 1) == TotalWait(k) + (k + 1) * 100
  {
  }

  // ---------- the invoke IDs of the attempts ----------

  /** The connection last found, numbered in the order they were made, and how many invoke IDs it has handed
      out: a new connection counts from 0 again. */
  datatype Counter = Counter(connection: nat, count: nat)

  function Moved(c: Counter, f: Found): Counter {
    if f == Replaced then Counter(c.connection + 1, 0) else c
  }

  /** After the attempt's ID was taken. */
  function Taken(c: Counter, a: Attempt): Counter {
    var at := Moved(Moved(c, a.atCheck), a.atAllocation);
    Counter(at.connection, at.count + a.others + 1)
  }

  /** After the attempt. */
  function After(c: Counter, a: Attempt): Counter {
    if a.atCheck == Nil then c
    else if a.atAllocation == Nil then Moved(c, a.atCheck)
    else Moved(Taken(c, a), a.atSend)
  }

  /** A packet sent: its ID, which allocation of which connection that was, and the connection it went out on. */
  datatype Sent = Sent(id: u32, from: Counter, on: nat)

  function SentIn(c: Counter, a: Attempt): Sent {
    var from := Taken(c, a);
    Sent(Wrap32(from.count), from, Moved(from, a.atSend).connection)
  }

  /** The packets from attempt i on, with the counter standing at c. */
  function SentFrom(env: nat -> Attempt, i: nat, n: nat, c: Counter): seq<Sent>
    requires i <= n
    decreases n - i
  {
    var a := env(i);
    if !Goes(a) then []
    else if i == n || Stops(a) then [SentIn(c, a)]
    else [SentIn(c, a)] + SentFrom(env, i + 1, n, After(c, a))
  }

  function CounterAfter(env: nat -> Attempt, i: nat, n: nat, c: Counter): Counter
    requires i <= n
    decreases n - i
  {
    if i == n || Stops(env(i)) then After(c, env(i)) else CounterAfter(env, i + 1, n, After(c, env(i)))
  }

  /** The last attempt's packet, and those of an attempt that goes on. */
  lemma LastPacket(env: nat -> Attempt, i: nat, n: nat, c: Counter)
    requires i <= n && (i == n || Stops(env(i)))
    ensures SentFrom(env, i, n, c) == if Goes(env(i)) then [SentIn(c, env(i))] else []
    ensures CounterAfter(env, i, n, c) == After(c, env(i))
  {
  }

  lemma NextPacket(env: nat -> Attempt, i: nat, n: nat, c: Counter)
    requires i < n && !Stops(env(i))
    ensures SentFrom(env, i, n, c) == [SentIn(c, env(i))] + SentFrom(env, i + 1, n, After(c, env(i)))
    ensures CounterAfter(env, i, n, c) == CounterAfter(env, i + 1, n, After(c, env(i)))
  {
  }

  lemma OnePacketMore(packets: seq<Sent>, p: Sent, rest: seq<Sent>)
    ensures packets + ([p] + rest) == (packets + [p]) + rest
    ensures IDsOf(packets + [p]) == IDsOf(packets) + [p.id]
  {
  }

  function IDsOf(packets: seq<Sent>): (ids: seq<u32>)
    ensures |ids| == |packets|
  {
    seq(|packets|, i requires 0 <= i < |packets| => packets[i].id)
  }

  /** a was handed out before b: by an earlier connection, or earlier by the same one. */
  predicate Earlier(a: Counter, b: Counter) {
    a.connection < b.connection || (a.connection == b.connection && a.count < b.count)
  }

  /** What is handed out after an attempt comes after its own ID. */
  lemma Onward(c: Counter, a: Attempt, later: Counter)
    ensures Goes(a) ==> Earlier(c, SentIn(c, a).from)
    ensures Goes(a) && Earlier(After(c, a), later) ==> Earlier(SentIn(c, a).from, later) && Earlier(c, later)
  {
  }

  /** The j-th packet is the j-th attempt's, with the counter standing where the attempts before left it. */
  lemma {:induction false} PacketsOfAttempts(env: nat -> Attempt, i: nat, n: nat, c: Counter)
    requires i <= n
    ensures var sent, k := SentFrom(env, i, n, c), StopsAt(env, i, n);
            && |sent| == k - i + (if Goes(env(k)) then 1 else 0)
            && forall j :: 0 <= j < |sent| ==>
                 && sent[j].id == Wrap32(sent[j].from.count)
                 && sent[j].on == sent[j].from.connection + (if env(i + j).atSend == Replaced then 1 else 0)
    decreases n - i
  {
    var sent, first := SentFrom(env, i, n, c), SentIn(c, env(i));
    FirstPacket(c, env(i));
    if i == n || Stops(env(i)) {
      LastPacket(env, i, n, c);
      hide SentIn, SentFrom, Wrap32;
    } else {
      NextPacket(env, i, n, c);
      var d := After(c, env(i));
      PacketsOfAttempts(env, i + 1, n, d);
      var rest := SentFrom(env, i + 1, n, d);
      hide After, SentIn, Stops, SentFrom, Wrap32;
      ShiftOne(sent, first, rest);
      forall j | 0 < j < |sent|
        ensures sent[j] == rest[j - 1] && env(i + j) == env(i + 1 + (j - 1))
      {
      }
    }
  }

  /** The allocations follow one another. */
  lemma {:induction false} PacketsInOrder(env: nat -> Attempt, i: nat, n: nat, c: Counter)
    requires i <= n
    ensures var sent := SentFrom(env, i, n, c);
            && (forall j :: 0 <= j < |sent| ==> Earlier(c, sent[j].from))
            && (forall j1, j2 :: 0 <= j1 < j2 < |sent| ==> Earlier(sent[j1].from, sent[j2].from))
    decreases n - i
  {
    var sent, first := SentFrom(env, i, n, c), SentIn(c, env(i));
    Onward(c, env(i), c);
    if i == n || Stops(env(i)) {
      LastPacket(env, i, n, c);
      hide After, SentIn, SentFrom, Earlier;
    } else {
      NextPacket(env, i, n, c);
      var d := After(c, env(i));
      PacketsInOrder(env, i + 1, n, d);
      var rest := SentFrom(env, i + 1, n, d);
      hide After, SentIn, Earlier, Stops, SentFrom;
      ShiftOne(sent, first, rest);
      forall j | 0 < j < |sent|
        ensures Earlier(c, sent[j].from) && Earlier(first.from, sent[j].from)
      {
        Onward(c, env(i), rest[j - 1].from);
      }
    }
  }

  /** Every packet has an ID that was allocated for it alone: at most n + 1 packets, one for each attempt that
      goes, whose allocations follow one another. It goes out on the connection the ID came from unless the
      connection was replaced between the two reads. */
  lemma EachItsOwnID(env: nat -> Attempt, n: nat, c: Counter)
    ensures var sent, k := SentFrom(env, 0, n, c), StopsAt(env, 0, n);
            && |sent| == k + (if Goes(env(k)) then 1 else 0) <= n + 1
            && (forall j :: 0 <= j < |sent| ==>
                  && sent[j].id == Wrap32(sent[j].from.count) && Earlier(c, sent[j].from)
                  && sent[j].on == sent[j].from.connection + (if env(j).atSend == Replaced then 1 else 0))
            && (forall j1, j2 :: 0 <= j1 < j2 < |sent| ==> Earlier(sent[j1].from, sent[j2].from))
  {
    hide SentFrom, Earlier, Wrap32, StopsAt, Goes;
    PacketsOfAttempts(env, 0, n, c);
    PacketsInOrder(env, 0, n, c);
    var sent := SentFrom(env, 0, n, c);
    forall j | 0 <= j < |sent|
      ensures sent[j].on == sent[j].from.connection + (if env(j).atSend == Replaced then 1 else 0)
    {
      assert env(0 + j) == env(j);
    }
  }

  lemma FirstPacket(c: Counter, a: Attempt)
    ensures var first := SentIn(c, a);
            && first.id == Wrap32(first.from.count)
            && first.on == first.from.connection + (if a.atSend == Replaced then 1 else 0)
  {
  }

  lemma ShiftOne<T>(whole: seq<T>, first: T, rest: seq<T>)
    requires whole == [first] + rest
    ensures |whole| == |rest| + 1 && whole[0] == first && forall j :: 0 < j < |whole| ==> whole[j] == rest[j - 1]
  {
  }

  /** Two packets of one call bear the same ID only if a new connection gave the second one, or 2^32 IDs of one
      connection were handed out from the first to the second. */
  lemma SameIDs(env: nat -> Attempt, n: nat, c: Counter, j1: nat, j2: nat)
    requires j1 < j2 < |SentFrom(env, 0, n, c)|
    ensures var a, b := SentFrom(env, 0, n, c)[j1], SentFrom(env, 0, n, c)[j2];
            && (a.id == b.id <==> (b.from.count - a.from.count) % U32_MODULUS == 0)
            && (a.id == b.id ==>
                  a.from.connection < b.from.connection || b.from.count - a.from.count >= U32_MODULUS)
  {
    EachItsOwnID(env, n, c);
    var a, b := SentFrom(env, 0, n, c)[j1], SentFrom(env, 0, n, c)[j2];
    hide SentFrom;
    SameResidue(a.from.count, b.from.count);
  }

  lemma SameResidue(a: nat, b: nat)
    ensures Wrap32(a) == Wrap32(b) <==> (b - a) % U32_MODULUS == 0
  {
  }

  /** A connection replaced in the first wait: the new one's verification took its first ID, and the retry
      bears the ID of the attempt before it. */
  function ReplacedInWait(): nat -> Attempt {
    i => Attempt(if i == 1 then Replaced else Same, Same, Same, 1, Retryable, false)
  }

  lemma RetryRepeatsID()
    ensures var sent := SentFrom(ReplacedInWait(), 0, 1, Counter(0, 0));
            && |sent| == 2 && sent[0].id == sent[1].id == 2
            && sent[0].on == 0 && sent[1].on == 1
  {
    var env := ReplacedInWait();
    var c := After(Counter(0, 0), env(0));
    assert SentFrom(env, 1, 1, c) == [SentIn(c, env(1))];
  }

  datatype Event = ConnectFailed | ConnectOk | ShutdownSeen

  class Client {
    var autoReconnect: bool
    var reconnectAttempts: nat
    var maxReconnectDelay: duration
    var connected: bool
    /** The current connection's counter: the ID handed out last. */
    var invokeID: u32
    ghost var counter: Counter
    var triggers: nat

    constructor (auto: bool, limit: duration)
      ensures autoReconnect == auto && maxReconnectDelay == limit
      ensures reconnectAttempts == 0 && connected && triggers == 0
      ensures invokeID == 0 && counter == Counter(0, 0)
    {
      autoReconnect, maxReconnectDelay := auto, limit;
      reconnectAttempts, connected, triggers := 0, true, 0;
      invokeID, counter := 0, Counter(0, 0);
    }

    /** Starts a loop exactly when auto-reconnect is on and none is under way. */
    method TriggerReconnection() returns (spawned: bool)
      modifies this`reconnectAttempts, this`connected, this`triggers
      ensures spawned <==> autoReconnect && old(reconnectAttempts) == 0
      ensures reconnectAttempts == if spawned then 1 else old(reconnectAttempts)
      ensures connected == if spawned then false else old(connected)
      ensures triggers == old(triggers) + 1
      ensures forall s: State, limit: duration ::
                s.attempts == old(reconnectAttempts) && autoReconnect ==>
                Apply(s, Trigger, limit).attempts == reconnectAttempts
                && |Apply(s, Trigger, limit).loops| == |s.loops| + if spawned then 1 else 0
    {
      triggers := triggers + 1;
      if !autoReconnect {
        return false;
      }
      var alreadyReconnecting := reconnectAttempts > 0;
      if !alreadyReconnecting {
        reconnectAttempts := 1;
      }
      if alreadyReconnecting {
        return false;
      }
      connected := false;
      spawned := true;
    }

    /** One reconnect loop against a list of what each round meets: it waits the backoff before every
        round (what that is, BackoffExact says), and leaves the count 0 after a success and at the attempt
        number otherwise. */
    method ReconnectLoop(events: seq<Event>) returns (delays: seq<duration>)
      modifies this`reconnectAttempts, this`connected
      ensures |delays| <= |events|
      ensures forall k :: 0 <= k < |delays| ==> delays[k] == Backoff(k, maxReconnectDelay)
      ensures forall k :: 0 <= k < |delays| - 1 ==> events[k] == ConnectFailed
      ensures |delays| > 0 && events[|delays| - 1] == ConnectOk ==> reconnectAttempts == 0 && connected
      ensures |delays| > 0 && events[|delays| - 1] == ConnectFailed ==>
                reconnectAttempts == |delays| && !connected
      ensures |delays| < |events| ==>
                (|delays| > 0 && events[|delays| - 1] == ConnectOk) || events[|delays|] == ShutdownSeen
    {
      BackoffStarts(maxReconnectDelay);
      hide Backoff;
      var backoff: duration := SECOND;
      var attempt := 1;
      delays := [];
      while attempt <= |events|
        invariant 1 <= attempt <= |events| + 1 && |delays| == attempt - 1
        invariant backoff == Backoff(attempt - 1, maxReconnectDelay)
        invariant forall k :: 0 <= k < |delays| ==> delays[k] == Backoff(k, maxReconnectDelay)
        invariant forall k :: 0 <= k < |delays| ==> events[k] == ConnectFailed
        invariant |delays| > 0 ==> reconnectAttempts == |delays| && !connected
        decreases |events| - attempt
      {
        var event := events[attempt - 1];
        if event == ShutdownSeen {
          return;
        }
        delays := delays + [backoff];
        reconnectAttempts := attempt;
        if event == ConnectFailed {
          connected := false;
          backoff := Wrap64(backoff * 2);
          if backoff > maxReconnectDelay {
            backoff := maxReconnectDelay;
          }
          BackoffGrows(attempt, maxReconnectDelay);
          attempt := attempt + 1;
          continue;
        }
        connected := true;
        reconnectAttempts := 0;
        return;
      }
    }

    /** A read of the connection pointer: a new connection counts from 0. */
    method Look(f: Found)
      requires invokeID == Wrap32(counter.count)
      modifies this`invokeID, this`counter
      ensures counter == Moved(old(counter), f) && invokeID == Wrap32(counter.count)
    {
      if f == Replaced {
        invokeID, counter := 0, Counter(counter.connection + 1, 0);
      }
    }

    /** NextInvokeID, after others took theirs. */
    method Take(others: nat) returns (id: u32)
      requires invokeID == Wrap32(counter.count)
      modifies this`invokeID, this`counter
      ensures counter == Counter(old(counter).connection, old(counter).count + others + 1)
      ensures id == invokeID == Wrap32(counter.count)
    {
      invokeID := Wrap32(invokeID + others + 1);
      counter := Counter(counter.connection, counter.count + others + 1);
      id := invokeID;
    }

    /** One attempt up to its send: the nil check, the invoke ID, and the packet, if the pointer is still there. */
    method SendOnce(a: Attempt) returns (found: bool, id: Option<u32>)
      requires invokeID == Wrap32(counter.count)
      modifies this`invokeID, this`counter
      ensures invokeID == Wrap32(counter.count) && counter == After(old(counter), a)
      ensures found <==> a.atCheck != Nil
      ensures id == if Goes(a) then Some(SentIn(old(counter), a).id) else None
    {
      id := None;
      found := a.atCheck != Nil;
      if !found {
        return;
      }
      Look(a.atCheck);
      if a.atAllocation == Nil {
        return;
      }
      Look(a.atAllocation);
      var taken := Take(a.others);
      if a.atSend == Nil {
        return;
      }
      Look(a.atSend);
      id := Some(taken);
    }

    /** With n retries: the packets SentFrom says, which EachItsOwnID and SameIDs are about; the waits add up to
        50 k (k + 1) ms after k retries; reconnection is triggered exactly when all n + 1 sends failed with a
        connection error; and the call crashes exactly when the pointer turns nil after its check. */
    method SendRequestWithRetry(n: nat, env: nat -> Attempt)
      returns (r: SendResult, sent: seq<u32>, waited: nat, ghost packets: seq<Sent>)
      requires invokeID == Wrap32(counter.count)
      modifies this`invokeID, this`counter, this`reconnectAttempts, this`connected, this`triggers
      ensures invokeID == Wrap32(counter.count) && counter == CounterAfter(env, 0, n, old(counter))
      ensures packets == SentFrom(env, 0, n, old(counter)) && sent == IDsOf(packets)
      ensures var k := StopsAt(env, 0, n);
              && r == ResultOf(env(k), k == n)
              && waited == TotalWait(k)
      ensures triggers == old(triggers) + if AllRetryable(env, n) then 1 else 0
      ensures AllRetryable(env, n) && autoReconnect ==> reconnectAttempts >= 1
      ensures !AllRetryable(env, n) ==>
                reconnectAttempts == old(reconnectAttempts) && connected == old(connected)
    {
      assert TotalWait(0) == 0;
      hide TotalWait, NextBackoff, Apply, Enabled, Wrap64, Backoff, Wrap32, StopsAt, AllRetryable,
           SentFrom, CounterAfter, After, SentIn, IDsOf;
      sent, waited, packets := [], 0, [];
      assert sent == IDsOf(packets) && packets + SentFrom(env, 0, n, counter) == SentFrom(env, 0, n, counter);
      var attempt := 0;
      while true
        invariant attempt <= n && waited == TotalWait(attempt)
        invariant StopsAt(env, 0, n) == StopsAt(env, attempt, n)
        invariant invokeID == Wrap32(counter.count)
        invariant packets + SentFrom(env, attempt, n, counter) == SentFrom(env, 0, n, old(counter))
        invariant sent == IDsOf(packets)
        invariant CounterAfter(env, attempt, n, counter) == CounterAfter(env, 0, n, old(counter))
        invariant triggers == old(triggers)
        invariant reconnectAttempts == old(reconnectAttempts) && connected == old(connected)
        decreases n - attempt
      {
        var a := env(attempt);
        ghost var packet := SentIn(counter, a);
        if attempt == n || Stops(a) {
          StopsHere(env, attempt, n);
          LastPacket(env, attempt, n, counter);
          OnePacketMore(packets, packet, []);
        } else {
          GoesOn(env, attempt, n);
          NextPacket(env, attempt, n, counter);
          OnePacketMore(packets, packet, SentFrom(env, attempt + 1, n, After(counter, a)));
        }
        var found, id := SendOnce(a);
        if !found {
          return Refused(NotConnected), sent, waited, packets;
        }
        if id.None? {
          return Crashed, sent, waited, packets;
        }
        sent, packets := sent + [id.value], packets + [packet];
        match a.ending {
          case Reply(code) =>
            r := if code != 0 then Refused(AdsError(code)) else Replied;
            return;
          case Fatal =>
            return Refused(SendFailed), sent, waited, packets;
          case Retryable =>
        }
        if attempt == n {
          break;
        }
        if a.cancelled {
          return Refused(Cancelled), sent, waited, packets;
        }
        waited := waited + (attempt + 1) * 100;
        WaitGrows(attempt);
        attempt := attempt + 1;
      }
      var _ := TriggerReconnection();
      r := Refused(Exhausted);
    }
  }
}
