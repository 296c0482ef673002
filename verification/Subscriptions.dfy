/** Notification subscriptions over their whole life: subscribe, notify, receive, close, and the
    clearing and rebuilding that follow a reconnect. Every operation is one atomic step. */
module Subscriptions {
  import opened Bytes
  import opened Outcomes
  import Wire = Notification

  const CHANNEL_CAPACITY: nat := 16

  datatype Notification = Notification(data: seq<byte>, unixNano: int)

  datatype Options = Options(
    indexGroup: u32, indexOffset: u32, length: u32, mode: u32, maxDelay: int, cycleTime: int)

  /** One subscription: its channel's contents, how often the channel was closed, and the history of
      notify calls (offered) and of values taken by the application (received). */
  datatype Sub = Sub(
    handle: u32, options: Options, closed: bool, closeErr: bool,
    buffer: seq<Notification>, channelCloses: nat,
    offered: seq<Notification>, received: seq<Notification>)

  function NewSub(handle: u32, options: Options): Sub {
    Sub(handle, options, false, false, [], 0, [], [])
  }

  /** notify: nothing once closed, otherwise a send that drops when the buffer is full. */
  function Notified(s: Sub, n: Notification): Sub {
    var s := s.(offered := s.offered + [n]);
    if s.closed || |s.buffer| >= CHANNEL_CAPACITY then s else s.(buffer := s.buffer + [n])
  }

  /** Close: the first call closes the channel and keeps the PLC's answer, later calls do nothing. */
  function ClosedSub(s: Sub, failed: bool): Sub {
    if s.closed then s else s.(closed := true, closeErr := failed, channelCloses := s.channelCloses + 1)
  }

  /** The application takes one value from the channel. */
  function Received(s: Sub): Sub {
    if s.buffer == [] then s
    else s.(buffer := s.buffer[1..], received := s.received + [s.buffer[0]])
  }

  /** Everything that went into the channel. */
  function Sent(s: Sub): seq<Notification> { s.received + s.buffer }

  /** a can be obtained from b by leaving elements out. */
  predicate InOrder<T(==)>(a: seq<T>, b: seq<T>) {
    if a == [] then true
    else if b == [] then false
    else if a[|a| - 1] == b[|b| - 1] && InOrder(a[..|a| - 1], b[..|b| - 1]) then true
    else InOrder(a, b[..|b| - 1])
  }

  lemma InOrderSkip<T>(a: seq<T>, b: seq<T>, x: T)
    requires InOrder(a, b)
    ensures InOrder(a, b + [x])
  {
    assert (b + [x])[..|b|] == b;
  }

  lemma InOrderTake<T>(a: seq<T>, b: seq<T>, x: T)
    requires InOrder(a, b)
    ensures InOrder(a + [x], b + [x])
  {
    assert (b + [x])[..|b|] == b && (a + [x])[..|a|] == a;
  }

  predicate SubOk(s: Sub) {
    && s.channelCloses == (if s.closed then 1 else 0)
    && |s.buffer| <= CHANNEL_CAPACITY
    && InOrder(Sent(s), s.offered)
  }

  lemma NotifiedOk(s: Sub, n: Notification)
    requires SubOk(s)
    ensures SubOk(Notified(s, n))
    ensures s.closed ==> Sent(Notified(s, n)) == Sent(s)
  {
    if s.closed || |s.buffer| >= CHANNEL_CAPACITY {
      InOrderSkip(Sent(s), s.offered, n);
    } else {
      InOrderTake(Sent(s), s.offered, n);
      assert Sent(Notified(s, n)) == Sent(s) + [n];
    }
  }

  lemma ReceivedOk(s: Sub)
    requires SubOk(s)
    ensures SubOk(Received(s)) && Sent(Received(s)) == Sent(s)
  {
    if s.buffer != [] {
      assert s.received + s.buffer == (s.received + [s.buffer[0]]) + s.buffer[1..];
    }
  }

  // ---------- the client's registry, as a transition system ----------

  /** Every subscription ever made, in order, and the registry from handle to position. */
  datatype State = State(subs: seq<Sub>, registry: map<u32, nat>)

  datatype Step =
    | Subscribe(handle: u32, options: Options)
    | Notify(i: nat, notification: Notification)
    | Receive(i: nat)
    | Close(i: nat, failed: bool)
    | ClearForReconnect

  /** Notify does not ask for a registry entry: the caller may have looked the subscription up earlier. */
  predicate Enabled(s: State, step: Step) {
    match step
    case Notify(i, _) => i < |s.subs|
    case Receive(i) => i < |s.subs|
    case Close(i, _) => i < |s.subs|
    case _ => true
  }

  function Apply(s: State, step: Step): State
    requires Enabled(s, step)
  {
    match step
    case Subscribe(handle, options) =>
      State(s.subs + [NewSub(handle, options)], s.registry[handle := |s.subs|])
    case Notify(i, n) => s.(subs := s.subs[i := Notified(s.subs[i], n)])
    case Receive(i) => s.(subs := s.subs[i := Received(s.subs[i])])
    case Close(i, failed) =>
      if s.subs[i].closed then s
      else State(s.subs[i := ClosedSub(s.subs[i], failed)], s.registry - {s.subs[i].handle})
    case ClearForReconnect =>
      State(seq(|s.subs|, i requires 0 <= i < |s.subs| =>
              if i in s.registry.Values then ClosedSub(s.subs[i], false) else s.subs[i]),
            map[])
  }

  predicate IsRun(s: State, steps: seq<Step>)
    decreases |steps|
  {
    steps == [] || (Enabled(s, steps[0]) && IsRun(Apply(s, steps[0]), steps[1..]))
  }

  function Exec(s: State, steps: seq<Step>): State
    requires IsRun(s, steps)
    decreases |steps|
  {
    if steps == [] then s else Exec(Apply(s, steps[0]), steps[1..])
  }

  function Empty(): State { State([], map[]) }

  ghost predicate Inv(s: State) {
    && (forall i :: 0 <= i < |s.subs| ==> SubOk(s.subs[i]))
    && (forall h :: h in s.registry ==>
          && s.registry[h] < |s.subs|
          && s.subs[s.registry[h]].handle == h
          && !s.subs[s.registry[h]].closed)
    && (forall i :: 0 <= i < |s.subs| && !s.subs[i].closed && s.subs[i].handle in s.registry ==>
          i <= s.registry[s.subs[i].handle])
  }

  lemma StepKeepsInv(s: State, step: Step)
    requires Inv(s) && Enabled(s, step)
    ensures Inv(Apply(s, step))
  {
    hide InOrder;
    match step {
      case Notify(i, n) => NotifiedOk(s.subs[i], n);
      case Receive(i) => ReceivedOk(s.subs[i]);
      case Subscribe(handle, options) => NewSubOk(handle, options);
      case Close(_, _) =>
      case ClearForReconnect =>
    }
  }

  lemma NewSubOk(handle: u32, options: Options)
    ensures SubOk(NewSub(handle, options))
  {
    assert Sent(NewSub(handle, options)) == [];
  }

  lemma {:induction false} RunKeepsInv(s: State, steps: seq<Step>)
    requires Inv(s) && IsRun(s, steps)
    ensures Inv(Exec(s, steps))
    decreases |steps|
  {
    hide Inv, Enabled, Apply;
    if steps == [] {
    } else {
      assert Enabled(s, steps[0]);
      StepKeepsInv(s, steps[0]);
      RunKeepsInv(Apply(s, steps[0]), steps[1..]);
    }
  }

  /** Over any run: a channel is closed at most once, holds at most 16 values, and what was sent
      into it is the notify calls in order, with some left out. */
  lemma ChannelsBehave(steps: seq<Step>, i: nat)
    requires IsRun(Empty(), steps) && i < |Exec(Empty(), steps).subs|
    ensures var sub := Exec(Empty(), steps).subs[i];
            && sub.channelCloses <= 1
            && |sub.buffer| <= CHANNEL_CAPACITY
            && InOrder(sub.received + sub.buffer, sub.offered)
  {
    RunKeepsInv(Empty(), steps);
    hide Exec, IsRun, InOrder;
    assert SubOk(Exec(Empty(), steps).subs[i]);
  }

  /** Nothing is ever sent into a closed channel, and it stays closed. */
  lemma {:induction false} ClosedStaysClosed(s: State, steps: seq<Step>, i: nat)
    requires Inv(s) && IsRun(s, steps) && i < |s.subs| && s.subs[i].closed
    ensures var t := Exec(s, steps);
            && i < |t.subs| && t.subs[i].closed
            && Sent(t.subs[i]) == Sent(s.subs[i])
            && t.subs[i].channelCloses == s.subs[i].channelCloses
    decreases |steps|
  {
    if steps == [] {
    } else {
      var t := Apply(s, steps[0]);
      StepKeepsInv(s, steps[0]);
      assert SubOk(s.subs[i]);
      ReceivedOk(s.subs[i]);
      assert i < |t.subs| && t.subs[i].closed && Sent(t.subs[i]) == Sent(s.subs[i])
             && t.subs[i].channelCloses == s.subs[i].channelCloses;
      ClosedStaysClosed(t, steps[1..], i);
    }
  }

  /** Whatever happens after a reconnect cleared the registry, closing a subscription that the
      reconnect closed changes nothing: no newer subscription is unregistered, same handle or not. */
  lemma StaleCloseIsHarmless(before: seq<Step>, after: seq<Step>, i: nat, failed: bool)
    requires IsRun(Empty(), before) && i in Exec(Empty(), before).registry.Values
    requires IsRun(Apply(Exec(Empty(), before), ClearForReconnect), after)
    ensures var t := Exec(Apply(Exec(Empty(), before), ClearForReconnect), after);
            Enabled(t, Close(i, failed)) && Apply(t, Close(i, failed)) == t
  {
    RunKeepsInv(Empty(), before);
    var s := Exec(Empty(), before);
    var c := Apply(s, ClearForReconnect);
    StepKeepsInv(s, ClearForReconnect);
    assert i < |s.subs| by {
      var h :| h in s.registry && s.registry[h] == i;
    }
    ClosedStaysClosed(c, after, i);
  }

  // ---------- handles the PLC gives twice ----------

  /** Closing i would remove the entry of another subscription. */
  ghost predicate TakesAnother(s: State, i: nat, failed: bool)
    requires Enabled(s, Close(i, failed))
  {
    exists h :: h in s.registry && s.registry[h] != i && h !in Apply(s, Close(i, failed)).registry
  }

  /** At some point of the run some Close would. */
  ghost predicate EverTakesAnother(s: State, steps: seq<Step>)
    requires IsRun(s, steps)
    decreases |steps|
  {
    || (exists i, failed :: Enabled(s, Close(i, failed)) && TakesAnother(s, i, failed))
    || (steps != [] && EverTakesAnother(Apply(s, steps[0]), steps[1..]))
  }

  /** A Subscribe of the run is answered with the handle of a subscription that is still open. */
  ghost predicate HandleReused(s: State, steps: seq<Step>)
    requires IsRun(s, steps)
    decreases |steps|
  {
    steps != [] && (Reuses(s, steps[0]) || HandleReused(Apply(s, steps[0]), steps[1..]))
  }

  ghost predicate Reuses(s: State, step: Step) {
    step.Subscribe? && exists i :: 0 <= i < |s.subs| && !s.subs[i].closed && s.subs[i].handle == step.handle
  }

  /** Every open subscription stands in the registry under its handle. */
  ghost predicate AllRegistered(s: State) {
    forall i :: 0 <= i < |s.subs| && !s.subs[i].closed ==>
      s.subs[i].handle in s.registry && s.registry[s.subs[i].handle] == i
  }

  lemma TakesOnlyOwn(s: State, i: nat, failed: bool)
    requires AllRegistered(s) && Enabled(s, Close(i, failed))
    ensures !TakesAnother(s, i, failed)
  {
  }

  lemma StepKeepsRegistered(s: State, step: Step)
    requires Inv(s) && AllRegistered(s) && Enabled(s, step) && !Reuses(s, step)
    ensures AllRegistered(Apply(s, step))
  {
    hide SubOk;
    if step.ClearForReconnect? {
      forall i | 0 <= i < |s.subs| && !s.subs[i].closed
        ensures i in s.registry.Values
      {
        assert s.registry[s.subs[i].handle] == i;
      }
    }
  }

  lemma ReuseTakes(s: State, step: Step)
    requires Enabled(s, step) && Reuses(s, step)
    ensures exists i, failed ::
              Enabled(Apply(s, step), Close(i, failed)) && TakesAnother(Apply(s, step), i, failed)
  {
    var i :| 0 <= i < |s.subs| && !s.subs[i].closed && s.subs[i].handle == step.handle;
    var t := Apply(s, step);
    assert t.registry[step.handle] == |s.subs| != i;
    assert step.handle !in Apply(t, Close(i, false)).registry;
    assert Enabled(t, Close(i, false)) && TakesAnother(t, i, false);
  }

  lemma {:induction false} TakesFrom(s: State, steps: seq<Step>)
    requires Inv(s) && AllRegistered(s) && IsRun(s, steps)
    ensures EverTakesAnother(s, steps) <==> HandleReused(s, steps)
    ensures !HandleReused(s, steps) ==> AllRegistered(Exec(s, steps))
    decreases |steps|
  {
    hide Inv, AllRegistered, TakesAnother, Reuses, Apply, Enabled;
    forall i, failed | Enabled(s, Close(i, failed))
      ensures !TakesAnother(s, i, failed)
    {
      TakesOnlyOwn(s, i, failed);
    }
    if steps == [] {
    } else if Reuses(s, steps[0]) {
      ReuseTakes(s, steps[0]);
    } else {
      StepKeepsInv(s, steps[0]);
      StepKeepsRegistered(s, steps[0]);
      TakesFrom(Apply(s, steps[0]), steps[1..]);
    }
  }

  /** Over any run from the empty client, some Close could remove another subscription's entry at some
      point if and only if the PLC answered a Subscribe with the handle of a subscription still open. */
  lemma CloseTakesAnothersExactly(steps: seq<Step>)
    requires IsRun(Empty(), steps)
    ensures EverTakesAnother(Empty(), steps) <==> HandleReused(Empty(), steps)
  {
    TakesFrom(Empty(), steps);
  }

  /** Over any run in which no handle is reused, the registry holds exactly the open subscriptions, each under
      its handle. */
  lemma RegistryIsTheOpenOnes(steps: seq<Step>, h: u32, i: nat)
    requires IsRun(Empty(), steps) && !HandleReused(Empty(), steps)
    ensures var s := Exec(Empty(), steps);
            h in s.registry && s.registry[h] == i <==>
            i < |s.subs| && !s.subs[i].closed && s.subs[i].handle == h
  {
    TakesFrom(Empty(), steps);
    RunKeepsInv(Empty(), steps);
  }

  /** Over any run, closing i removes the entry of another subscription j exactly when i is open under j's
      handle; j then came later, and is left open but unregistered. */
  lemma CloseUnregisters(steps: seq<Step>, i: nat, j: nat, failed: bool, h: u32)
    requires IsRun(Empty(), steps) && i < |Exec(Empty(), steps).subs| && i != j
    requires h in Exec(Empty(), steps).registry && Exec(Empty(), steps).registry[h] == j
    ensures var s := Exec(Empty(), steps);
            var t := Apply(s, Close(i, failed));
            && (h !in t.registry <==> !s.subs[i].closed && s.subs[i].handle == h)
            && (h !in t.registry ==> i < j < |t.subs| && j !in t.registry.Values
                                     && t.subs[j] == s.subs[j] && !t.subs[j].closed && t.subs[j].handle == h)
  {
    RunKeepsInv(Empty(), steps);
    hide Exec, IsRun, SubOk;
    var s := Exec(Empty(), steps);
    StepKeepsInv(s, Close(i, failed));
  }

  // ---------- the options a registry stands for ----------

  /** The values of a map, with multiplicity. */
  ghost function Values<K, V>(m: map<K, V>): multiset<V> {
    if m == map[] then multiset{}
    else
      var k :| k in m;
      multiset{m[k]} + Values(m - {k})
  }

  lemma {:induction false} ValuesRemove<K, V>(m: map<K, V>, k: K)
    requires k in m
    ensures Values(m) == multiset{m[k]} + Values(m - {k})
    decreases m
  {
    var j :| j in m && Values(m) == multiset{m[j]} + Values(m - {j});
    if j != k {
      hide Values;
      var rest := m - {j} - {k};
      assert rest == m - {k} - {j};
      ValuesRemove(m - {j}, k);
      ValuesRemove(m - {k}, j);
      assert Values(m - {k}) == multiset{m[j]} + Values(rest);
      assert Values(m) == multiset{m[j]} + (multiset{m[k]} + Values(rest));
    }
  }

  lemma ValuesAdd<K, V>(m: map<K, V>, k: K, v: V)
    requires k !in m
    ensures Values(m[k := v]) == multiset{v} + Values(m)
  {
    ValuesRemove(m[k := v], k);
    assert m[k := v] - {k} == m;
  }

  // ---------- the objects ----------

  class Subscription {
    const handle: u32
    const options: Options
    var closed: bool
    var closeErr: bool
    var buffer: seq<Notification>
    var channelCloses: nat
    ghost var offered: seq<Notification>
    ghost var received: seq<Notification>

    ghost function View(): Sub
      reads this
    {
      Sub(handle, options, closed, closeErr, buffer, channelCloses, offered, received)
    }

    constructor (handle: u32, options: Options)
      ensures View() == NewSub(handle, options)
    {
      this.handle, this.options := handle, options;
      closed, closeErr, buffer, channelCloses := false, false, [], 0;
      offered, received := [], [];
    }

    method Notify(n: Notification)
      modifies this
      ensures View() == Notified(old(View()), n)
      ensures old(SubOk(View())) ==> SubOk(View())
    {
      if SubOk(View()) { NotifiedOk(View(), n); }
      offered := offered + [n];
      if closed {
        return;
      }
      if |buffer| < CHANNEL_CAPACITY {
        buffer := buffer + [n];
      }
    }

    method Receive() returns (n: Option<Notification>)
      modifies this
      ensures View() == Received(old(View()))
      ensures n == if old(buffer) == [] then None else Some(old(buffer)[0])
    {
      if buffer == [] {
        return None;
      }
      n := Some(buffer[0]);
      received := received + [buffer[0]];
      buffer := buffer[1..];
    }

    /** Close against a client: unregisters by handle, asks the PLC, closes the channel. A second
        call returns the first call's error and touches nothing. */
    method Close(client: Client, failed: bool) returns (err: bool)
      modifies this, client`subscriptions
      ensures View() == ClosedSub(old(View()), failed)
      ensures err == closeErr
      ensures err == if old(closed) then old(closeErr) else failed
      ensures closed && channelCloses == old(channelCloses) + if old(closed) then 0 else 1
      ensures buffer == old(buffer)
      ensures client.subscriptions == if old(closed) then old(client.subscriptions)
                                      else old(client.subscriptions) - {handle}
    {
      if closed {
        return closeErr;
      }
      closed := true;
      client.Unregister(handle);
      closeErr := failed;
      channelCloses := channelCloses + 1;
      err := closeErr;
    }

    /** How a reconnect closes it: the channel only, no request to the PLC. */
    method CloseChannel()
      modifies this
      ensures View() == ClosedSub(old(View()), old(closeErr))
    {
      if !closed {
        closed := true;
        channelCloses := channelCloses + 1;
      }
    }
  }

  /** A notification as the decoder delivers it: handle, payload, time. */
  datatype Sample = Sample(handle: u32, notification: Notification)

  function OfferedTo(handle: u32, samples: seq<Sample>): seq<Notification> {
    if samples == [] then []
    else
      var rest := OfferedTo(handle, samples[..|samples| - 1]);
      var last := samples[|samples| - 1];
      if last.handle == handle then rest + [last.notification] else rest
  }

  function NotifiedAll(s: Sub, ns: seq<Notification>): Sub {
    if ns == [] then s else Notified(NotifiedAll(s, ns[..|ns| - 1]), ns[|ns| - 1])
  }

  /** A batch of notify calls keeps what holds of the channel. */
  lemma {:induction false} NotifiedAllOk(s: Sub, ns: seq<Notification>)
    requires SubOk(s)
    ensures SubOk(NotifiedAll(s, ns)) && NotifiedAll(s, ns).offered == s.offered + ns
  {
    hide InOrder;
    if ns == [] {
    } else {
      NotifiedAllOk(s, ns[..|ns| - 1]);
      NotifiedOk(NotifiedAll(s, ns[..|ns| - 1]), ns[|ns| - 1]);
      assert ns == ns[..|ns| - 1] + [ns[|ns| - 1]];
    }
  }

  /** A batch of notify calls with nothing taken in between fills the channel up to 16 values. */
  lemma {:induction false} BatchExactly(s: Sub, ns: seq<Notification>)
    requires |s.buffer| <= 16
    ensures var t := NotifiedAll(s, ns);
            && t.received == s.received && t.closed == s.closed && t.offered == s.offered + ns
            && t.buffer == if s.closed then s.buffer else s.buffer + ns[..Min(|ns|, 16 - |s.buffer|)]
  {
    if ns != [] {
      var init, last := ns[..|ns| - 1], ns[|ns| - 1];
      BatchExactly(s, init);
      assert ns == init + [last];
      var before := NotifiedAll(s, init);
      if !s.closed && |before.buffer| < 16 {
        assert ns[..|ns|] == init[..|init|] + [last];
      } else if !s.closed {
        assert ns[..16 - |s.buffer|] == init[..16 - |s.buffer|];
      }
    }
  }

  /** The channel of an open subscription gains the first of these values, as many as fit into 16. */
  predicate Gains(before: Sub, after: Sub, ns: seq<Notification>) {
    |before.buffer| <= 16 ==>
      after.buffer == if before.closed then before.buffer
                      else before.buffer + ns[..Min(|ns|, 16 - |before.buffer|)]
  }

  lemma GainsBatch(s: Sub, ns: seq<Notification>)
    ensures Gains(s, NotifiedAll(s, ns), ns)
  {
    if |s.buffer| <= 16 {
      BatchExactly(s, ns);
    }
  }

  function OptionsOf(subscriptions: map<u32, Subscription>): map<u32, Options> {
    map h | h in subscriptions :: subscriptions[h].options
  }

  lemma OptionsAdd(subscriptions: map<u32, Subscription>, h: u32, s: Subscription)
    requires h !in subscriptions
    ensures Values(OptionsOf(subscriptions[h := s])) == multiset{s.options} + Values(OptionsOf(subscriptions))
  {
    assert OptionsOf(subscriptions[h := s]) == OptionsOf(subscriptions)[h := s.options];
    ValuesAdd(OptionsOf(subscriptions), h, s.options);
  }

  /** The first n answers are handles, no two the same. */
  ghost predicate DistinctHandles(answers: seq<Option<u32>>, n: nat)
    requires n <= |answers|
  {
    && (forall j :: 0 <= j < n ==> answers[j].Some?)
    && (forall j, k :: 0 <= j < k < n ==> answers[j] != answers[k])
  }

  /** Part-way through re-subscribing: new entries under the handles answered so far, and the options
      registered and those still to come make up the total. */
  ghost predicate Resubscribed(answers: seq<Option<u32>>, j: nat, subscriptions: map<u32, Subscription>,
                               remaining: map<u32, Options>, total: multiset<Options>)
  {
    && j <= |answers|
    && (forall h :: h in subscriptions ==> Some(h) in answers[..j])
    && Values(OptionsOf(subscriptions)) + Values(remaining) == total
  }

  lemma ResubscribeOne(answers: seq<Option<u32>>, j: nat, subscriptions: map<u32, Subscription>,
                       remaining: map<u32, Options>, total: multiset<Options>, h: u32, s: Subscription)
    requires Resubscribed(answers, j, subscriptions, remaining, total)
    requires j < |answers| && DistinctHandles(answers, j + 1)
    requires h in remaining && s.options == remaining[h]
    ensures Resubscribed(answers, j + 1, subscriptions[answers[j].value := s], remaining - {h}, total)
  {
    hide Values, OptionsOf;
    assert Some(answers[j].value) !in answers[..j];
    ValuesRemove(remaining, h);
    OptionsAdd(subscriptions, answers[j].value, s);
    assert answers[..j + 1] == answers[..j] + [answers[j]];
  }

  lemma {:induction false} OfferedToJoin(h: u32, a: seq<Sample>, b: seq<Sample>)
    ensures OfferedTo(h, a + b) == OfferedTo(h, a) + OfferedTo(h, b)
  {
    if b == [] {
      assert a + b == a;
    } else {
      var b' := b[..|b| - 1];
      OfferedToJoin(h, a, b');
      assert (a + b)[..|a + b| - 1] == a + b';
    }
  }

  lemma {:induction false} NotifiedAllJoin(s: Sub, a: seq<Notification>, b: seq<Notification>)
    ensures NotifiedAll(s, a + b) == NotifiedAll(NotifiedAll(s, a), b)
  {
    if b == [] {
      assert a + b == a;
    } else {
      var b' := b[..|b| - 1];
      NotifiedAllJoin(s, a, b');
      assert (a + b)[..|a + b| - 1] == a + b';
    }
  }

  /** int64(stamp - epoch) * 100: FILETIME ticks to Unix nanoseconds, in wrapping arithmetic. */
  function UnixNano(filetime: u64): int {
    var ticks := (filetime - 116444736000000000) % 0x1_0000_0000_0000_0000;
    var signed := if ticks >= 0x8000_0000_0000_0000 then ticks - 0x1_0000_0000_0000_0000 else ticks;
    (signed * 100 + 0x8000_0000_0000_0000) % 0x1_0000_0000_0000_0000 - 0x8000_0000_0000_0000
  }

  function SamplesOf(stamp: Wire.Stamp): seq<Sample> {
    seq(|stamp.samples|, j requires 0 <= j < |stamp.samples| =>
      Sample(stamp.samples[j].handle, Notification(stamp.samples[j].data, UnixNano(stamp.timestamp))))
  }

  /** All samples of a message, in the order they appear in it. */
  function Flatten(stamps: seq<Wire.Stamp>): seq<Sample> {
    if stamps == [] then [] else Flatten(stamps[..|stamps| - 1]) + SamplesOf(stamps[|stamps| - 1])
  }

  lemma RouteStamp(s: Sub, h: u32, stamps: seq<Wire.Stamp>, i: nat)
    requires i < |stamps|
    ensures NotifiedAll(NotifiedAll(s, OfferedTo(h, Flatten(stamps[..i]))), OfferedTo(h, SamplesOf(stamps[i])))
         == NotifiedAll(s, OfferedTo(h, Flatten(stamps[..i + 1])))
  {
    assert stamps[..i + 1][..i] == stamps[..i];
    OfferedToJoin(h, Flatten(stamps[..i]), SamplesOf(stamps[i]));
    NotifiedAllJoin(s, OfferedTo(h, Flatten(stamps[..i])), OfferedTo(h, SamplesOf(stamps[i])));
  }

  lemma RouteNothing(s: Sub, h: u32)
    ensures NotifiedAll(s, OfferedTo(h, [])) == s && Flatten([]) == []
  {
  }

  /** What a notification payload says, when it decodes at all. */
  function SamplesIn(data: seq<byte>): seq<Sample> {
    if Wire.HeaderOk(data) && Wire.DecodeBody(data).ok then Flatten(Wire.DecodeBody(data).items) else []
  }

  class Client {
    var subscriptions: map<u32, Subscription>

    constructor ()
      ensures subscriptions == map[]
    {
      subscriptions := map[];
    }

    /** Distinct objects, each under its own handle. */
    ghost predicate Valid()
      reads this
    {
      forall h :: h in subscriptions ==> subscriptions[h].handle == h
    }

    ghost function OptionsHeld(): multiset<Options>
      reads this
    {
      Values(OptionsOf(subscriptions))
    }

    method Unregister(handle: u32)
      modifies this`subscriptions
      ensures subscriptions == old(subscriptions) - {handle}
    {
      subscriptions := subscriptions - {handle};
    }

    /** The registration part of Subscribe, for the PLC's answer to AddDeviceNotification. */
    method Subscribe(options: Options, answer: Option<u32>) returns (sub: Option<Subscription>)
      requires Valid()
      modifies this`subscriptions
      ensures Valid()
      ensures answer.None? ==> sub == None && subscriptions == old(subscriptions)
      ensures answer.Some? ==>
                && sub.Some? && fresh(sub.value)
                && sub.value.View() == NewSub(answer.value, options)
                && subscriptions == old(subscriptions)[answer.value := sub.value]
    {
      if answer.None? {
        return None;
      }
      var s := new Subscription(answer.value, options);
      assert s.View().options == options && s.View().handle == answer.value;
      subscriptions := subscriptions[answer.value := s];
      sub := Some(s);
    }

    /** Routing: each registered subscription is offered exactly the samples bearing its handle, in
        the order they stand in the message, and its channel gains those there is room for; a message that
        does not decode offers nothing. */
    method HandleNotification(data: seq<byte>)
      requires Valid()
      modifies subscriptions.Values
      ensures forall h :: h in subscriptions ==>
                subscriptions[h].View() == NotifiedAll(old(subscriptions[h].View()), OfferedTo(h, SamplesIn(data)))
      ensures forall h :: h in subscriptions ==>
                Gains(old(subscriptions[h].View()), subscriptions[h].View(), OfferedTo(h, SamplesIn(data)))
    {
      ghost var start := map h | h in subscriptions :: subscriptions[h].View();
      Route(data);
      hide NotifiedAll, OfferedTo, SamplesIn, Gains;
      forall h | h in subscriptions {
        GainsBatch(start[h], OfferedTo(h, SamplesIn(data)));
      }
    }

    method Route(data: seq<byte>)
      requires Valid()
      modifies subscriptions.Values
      ensures forall h :: h in subscriptions ==>
                subscriptions[h].View() == NotifiedAll(old(subscriptions[h].View()), OfferedTo(h, SamplesIn(data)))
    {
      hide Wire.HeaderOk, Wire.DecodeBody, NotifiedAll, OfferedTo, Flatten, SamplesOf;
      ghost var start := map h | h in subscriptions :: subscriptions[h].View();
      forall h | h in subscriptions { RouteNothing(start[h], h); }
      var request := new Wire.DeviceNotificationRequest();
      var ok := request.UnmarshalBinary(data);
      if !ok {
        return;
      }
      var stamps := request.stampHeaders;
      DeliverAll(stamps);
    }

    /** The outer loop: the stamps of one message. */
    method DeliverAll(stamps: seq<Wire.Stamp>)
      requires Valid()
      modifies subscriptions.Values
      ensures forall h :: h in subscriptions ==>
                subscriptions[h].View() == NotifiedAll(old(subscriptions[h].View()), OfferedTo(h, Flatten(stamps)))
    {
      hide NotifiedAll, OfferedTo, Flatten, SamplesOf;
      ghost var start := map h | h in subscriptions :: subscriptions[h].View();
      forall h | h in subscriptions { RouteNothing(start[h], h); }
      var i := 0;
      assert stamps[..0] == [];
      while i < |stamps|
        invariant i <= |stamps|
        invariant forall h :: h in subscriptions ==>
                    subscriptions[h].View() == NotifiedAll(start[h], OfferedTo(h, Flatten(stamps[..i])))
      {
        ghost var now := map h | h in subscriptions :: subscriptions[h].View();
        Deliver(SamplesOf(stamps[i]));
        forall h | h in subscriptions
          ensures subscriptions[h].View() == NotifiedAll(start[h], OfferedTo(h, Flatten(stamps[..i + 1])))
        {
          assert subscriptions[h].View() == NotifiedAll(now[h], OfferedTo(h, SamplesOf(stamps[i])));
          RouteStamp(start[h], h, stamps, i);
        }
        i := i + 1;
      }
      assert stamps[..i] == stamps;
    }

    /** The inner loop: the samples of one stamp. */
    method Deliver(samples: seq<Sample>)
      requires Valid()
      modifies subscriptions.Values
      ensures forall h :: h in subscriptions ==>
                subscriptions[h].View() == NotifiedAll(old(subscriptions[h].View()), OfferedTo(h, samples))
    {
      var i := 0;
      while i < |samples|
        invariant i <= |samples|
        invariant forall h :: h in subscriptions ==>
                    subscriptions[h].View()
                    == NotifiedAll(old(subscriptions[h].View()), OfferedTo(h, samples[..i]))
      {
        assert samples[..i + 1][..i] == samples[..i];
        var sample := samples[i];
        if sample.handle in subscriptions {
          subscriptions[sample.handle].Notify(sample.notification);
        }
        i := i + 1;
      }
      assert samples[..i] == samples;
    }

    /** reestablishSubscriptions without interference: closes every registered subscription, clears
        the registry, then subscribes again with the saved options, in any order. answers[j] is the
        handle the PLC gives the j-th request, if it succeeds. */
    method Reestablish(answers: seq<Option<u32>>)
      requires Valid() && |answers| >= |subscriptions|
      modifies this`subscriptions, subscriptions.Values
      ensures Valid()
      ensures forall h :: h in old(subscriptions) ==>
                old(subscriptions)[h].View()
                == ClosedSub(old(subscriptions[h].View()), old(subscriptions[h].closeErr))
      ensures (forall h :: h in subscriptions ==> fresh(subscriptions[h]))
      ensures DistinctHandles(answers, |old(subscriptions)|) ==> OptionsHeld() == old(OptionsHeld())
    {
      var oldSubs := OptionsOf(subscriptions);
      assert oldSubs.Keys == subscriptions.Keys;
      assert |oldSubs| == |oldSubs.Keys| && |subscriptions| == |subscriptions.Keys|;
      CloseChannels(subscriptions);
      subscriptions := map[];
      Resubscribe(oldSubs, answers);
    }

    /** The loop over the saved options, in whatever order the map yields them. */
    method Resubscribe(oldSubs: map<u32, Options>, answers: seq<Option<u32>>)
      requires subscriptions == map[] && |answers| >= |oldSubs|
      modifies this`subscriptions
      ensures Valid() && (forall h :: h in subscriptions ==> fresh(subscriptions[h]))
      ensures DistinctHandles(answers, |oldSubs|) ==> OptionsHeld() == Values(oldSubs)
    {
      var remaining := oldSubs;
      var j: nat := 0;
      assert OptionsOf(subscriptions) == map[];
      assert Resubscribed(answers, 0, subscriptions, remaining, Values(oldSubs));
      while remaining != map[]
        invariant Valid() && (forall h :: h in subscriptions ==> fresh(subscriptions[h]))
        invariant j + |remaining| == |oldSubs|
        invariant DistinctHandles(answers, j) ==>
                    Resubscribed(answers, j, subscriptions, remaining, Values(oldSubs))
        decreases remaining
      {
        hide Values, OptionsOf, Resubscribed;
        var h :| h in remaining;
        ghost var before := subscriptions;
        var sub := Subscribe(remaining[h], answers[j]);
        if DistinctHandles(answers, j + 1) {
          assert sub.value.View().options == remaining[h];
          ResubscribeOne(answers, j, before, remaining, Values(oldSubs), h, sub.value);
        }
        remaining := remaining - {h};
        j := j + 1;
      }
    }
  }

  method CloseChannels(subscriptions: map<u32, Subscription>)
    requires forall h :: h in subscriptions ==> subscriptions[h].handle == h
    modifies subscriptions.Values
    ensures forall h :: h in subscriptions ==>
              subscriptions[h].View()
              == ClosedSub(old(subscriptions[h].View()), old(subscriptions[h].closeErr))
  {
    var remaining := subscriptions.Keys;
    while remaining != {}
      invariant remaining <= subscriptions.Keys
      invariant forall h :: h in subscriptions ==>
                  subscriptions[h].View()
                  == if h in remaining then old(subscriptions[h].View())
                     else ClosedSub(old(subscriptions[h].View()), old(subscriptions[h].closeErr))
      decreases remaining
    {
      var h :| h in remaining;
      subscriptions[h].CloseChannel();
      remaining := remaining - {h};
    }
  }
}
