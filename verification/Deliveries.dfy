/** Which notifications reach a subscription's channel: exactly those that find it open with room, and exactly
    the samples of a message that bear its handle. */
module Deliveries {
  import opened Bytes
  import opened Outcomes
  import opened Subscriptions
  import Wire = Notification

  /** A send finds room: the subscription is open and its channel holds fewer than 16 values. */
  predicate HasRoom(s: Sub) { !s.closed && |s.buffer| < 16 }

  /** One notify call: what goes into the channel. */
  lemma NotifyExactly(s: Sub, n: Notification)
    ensures Sent(Notified(s, n)) == if HasRoom(s) then Sent(s) + [n] else Sent(s)
    ensures Notified(s, n).offered == s.offered + [n]
    ensures Notified(s, n).received == s.received && Notified(s, n).closed == s.closed
  {
    if HasRoom(s) {
      assert s.received + (s.buffer + [n]) == s.received + s.buffer + [n];
    }
  }

  // ---------- over runs ----------

  /** The values notify was called with for subscription i, and those of them that found room. */
  ghost function Offers(s: State, steps: seq<Step>, i: nat): seq<Notification>
    requires IsRun(s, steps)
    decreases |steps|
  {
    if steps == [] then []
    else
      (if steps[0].Notify? && steps[0].i == i then [steps[0].notification] else [])
      + Offers(Apply(s, steps[0]), steps[1..], i)
  }

  ghost function Accepted(s: State, steps: seq<Step>, i: nat): seq<Notification>
    requires IsRun(s, steps)
    decreases |steps|
  {
    if steps == [] then []
    else
      (if steps[0].Notify? && steps[0].i == i && i < |s.subs| && HasRoom(s.subs[i])
       then [steps[0].notification] else [])
      + Accepted(Apply(s, steps[0]), steps[1..], i)
  }

  /** Every notify call of the run for subscription i finds room. */
  ghost predicate AlwaysRoom(s: State, steps: seq<Step>, i: nat)
    requires IsRun(s, steps)
    decreases |steps|
  {
    steps != [] ==>
      && (steps[0].Notify? && steps[0].i == i ==> i < |s.subs| && HasRoom(s.subs[i]))
      && AlwaysRoom(Apply(s, steps[0]), steps[1..], i)
  }

  function SentTo(s: State, i: nat): seq<Notification> {
    if i < |s.subs| then Sent(s.subs[i]) else []
  }

  function OfferedSoFar(s: State, i: nat): seq<Notification> {
    if i < |s.subs| then s.subs[i].offered else []
  }

  lemma StepDelivers(s: State, step: Step, i: nat)
    requires Enabled(s, step)
    ensures var t := Apply(s, step);
            var hit := step.Notify? && step.i == i;
            && (i < |s.subs| ==> i < |t.subs|)
            && SentTo(t, i) == SentTo(s, i)
                               + (if hit && i < |s.subs| && HasRoom(s.subs[i]) then [step.notification] else [])
            && OfferedSoFar(t, i) == OfferedSoFar(s, i) + (if hit then [step.notification] else [])
  {
    if step.Notify? && step.i == i {
      NotifyExactly(s.subs[i], step.notification);
    } else if step.Receive? && step.i == i {
      var sub := s.subs[i];
      if sub.buffer != [] {
        assert sub.received + sub.buffer == (sub.received + [sub.buffer[0]]) + sub.buffer[1..];
      }
    }
  }

  lemma {:induction false} RunDelivers(s: State, steps: seq<Step>, i: nat)
    requires IsRun(s, steps)
    ensures SentTo(Exec(s, steps), i) == SentTo(s, i) + Accepted(s, steps, i)
    ensures OfferedSoFar(Exec(s, steps), i) == OfferedSoFar(s, i) + Offers(s, steps, i)
    ensures AlwaysRoom(s, steps, i) ==> Accepted(s, steps, i) == Offers(s, steps, i)
    decreases |steps|
  {
    hide SentTo, OfferedSoFar, Apply, Enabled, HasRoom;
    if steps != [] {
      var t := Apply(s, steps[0]);
      StepDelivers(s, steps[0], i);
      RunDelivers(t, steps[1..], i);
      var hit := steps[0].Notify? && steps[0].i == i;
      var offer := if hit then [steps[0].notification] else [];
      var accept := if hit && i < |s.subs| && HasRoom(s.subs[i]) then [steps[0].notification] else [];
      Joined(SentTo(s, i), accept, Accepted(t, steps[1..], i));
      Joined(OfferedSoFar(s, i), offer, Offers(t, steps[1..], i));
    }
  }

  lemma Joined<T>(a: seq<T>, b: seq<T>, c: seq<T>)
    ensures a + b + c == a + (b + c)
  {
  }

  /** Over every run: what entered a subscription's channel, taken or not, is the values of exactly those notify
      calls that found it open with fewer than 16 values, in order; so nothing is lost if all did. */
  lemma DeliveredExactly(steps: seq<Step>, i: nat)
    requires IsRun(Empty(), steps) && i < |Exec(Empty(), steps).subs|
    ensures var sub := Exec(Empty(), steps).subs[i];
            && sub.received + sub.buffer == Accepted(Empty(), steps, i)
            && sub.offered == Offers(Empty(), steps, i)
            && (AlwaysRoom(Empty(), steps, i) ==> sub.received + sub.buffer == sub.offered)
  {
    RunDelivers(Empty(), steps, i);
    hide Exec, IsRun, Accepted, Offers;
  }

  // ---------- a whole message ----------

  /** A handle's samples: of one sample and of two lists after each other. Together these fix them. */
  lemma SamplesOfHandle(h: u32, sample: Sample, a: seq<Sample>, b: seq<Sample>)
    ensures OfferedTo(h, []) == []
    ensures OfferedTo(h, [sample]) == if sample.handle == h then [sample.notification] else []
    ensures OfferedTo(h, a + b) == OfferedTo(h, a) + OfferedTo(h, b)
  {
    var none: seq<Sample> := [];
    assert [sample][..0] == none;
    OfferedToJoin(h, a, b);
  }

  lemma {:induction false} FlattenJoin(a: seq<Wire.Stamp>, b: seq<Wire.Stamp>)
    ensures Flatten(a + b) == Flatten(a) + Flatten(b)
    decreases |b|
  {
    hide SamplesOf;
    if b == [] {
      assert a + b == a;
    } else {
      var b' := b[..|b| - 1];
      FlattenJoin(a, b');
      assert (a + b)[..|a + b| - 1] == a + b';
      Joined(Flatten(a), Flatten(b'), SamplesOf(b[|b| - 1]));
    }
  }

  /** A stamp's samples, with their payloads and its time; and those of stamps after each other. */
  lemma SamplesOfStamps(stamp: Wire.Stamp, a: seq<Wire.Stamp>, b: seq<Wire.Stamp>)
    ensures Flatten([]) == []
    ensures |Flatten([stamp])| == |stamp.samples|
    ensures forall j :: 0 <= j < |stamp.samples| ==>
              Flatten([stamp])[j]
              == Sample(stamp.samples[j].handle,
                        Subscriptions.Notification(stamp.samples[j].data, UnixNano(stamp.timestamp)))
    ensures Flatten(a + b) == Flatten(a) + Flatten(b)
  {
    FlattenJoin(a, b);
    var none: seq<Wire.Stamp> := [];
    assert [stamp][..0] == none;
    assert Flatten([stamp]) == SamplesOf(stamp);
    hide UnixNano;
  }

  /** The samples of a printed message are those of its stamps; a message that does not decode has none. */
  lemma SamplesOfPrinted(stamps: seq<Wire.Stamp>, tail: seq<byte>)
    requires Wire.FitsStamps(stamps) && 8 + |Wire.PrintBody(stamps)| + |tail| < U32_MODULUS
    ensures SamplesIn(Wire.Print(stamps) + tail) == Flatten(stamps)
  {
    hide Wire.Print, Wire.HeaderOk, Wire.DecodeBody, Flatten;
    Wire.DecodePrint(stamps, tail);
  }

  /** A printed message that is cut off anywhere is not decoded: its length field asks for all of it. */
  lemma CutMessage(stamps: seq<Wire.Stamp>, n: nat)
    requires Wire.FitsStamps(stamps) && 8 + |Wire.PrintBody(stamps)| < U32_MODULUS
    requires n < |Wire.Print(stamps)|
    ensures !Wire.HeaderOk(Wire.Print(stamps)[..n]) && SamplesIn(Wire.Print(stamps)[..n]) == []
  {
    hide Put32, Get32, Wire.PrintBody, Wire.DecodeBody;
    var whole := Wire.Print(stamps);
    if n >= 8 {
      assert whole[..n][0..4] == Put32(4 + |Wire.PrintBody(stamps)|);
    }
  }

  /** Days from 1601-01-01, where FILETIME starts, to 1970-01-01: 369 years, 89 of them leap years. */
  const EPOCH_DAYS: nat := 369 * 365 + 89

  /** A FILETIME n ticks of 100 ns after 1970-01-01 is n * 100 nanoseconds of Unix time, wherever int64 holds
      that; earlier times are negative. */
  lemma TimeOfFiletime(n: int)
    requires -0x8000_0000_0000_0000 <= n * 100 < 0x8000_0000_0000_0000
    requires 0 <= EPOCH_DAYS * 86_400 * 10_000_000 + n
    ensures UnixNano(EPOCH_DAYS * 86_400 * 10_000_000 + n) == n * 100
  {
  }
}
