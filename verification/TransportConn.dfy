/** The connection object itself: the shared fields, and each critical section of the Go code as a
    method that makes exactly the corresponding step of the transition system. */
module TransportConn {
  import opened Bytes
  import opened Outcomes
  import opened Transport

  /** A response channel of capacity one. */
  class Chan {
    var buffer: Option<nat>
    var closes: nat

    constructor ()
      ensures buffer == None && closes == 0
    {
      buffer, closes := None, 0;
    }
  }

  /** close(ch) for each channel of the map, in whatever order the map yields them. */
  method CloseAll(m: map<u32, Chan>)
    requires forall j, k | j in m && k in m :: j != k ==> m[j] != m[k]
    requires forall k :: k in m ==> m[k].closes == 0
    modifies m.Values
    ensures forall ch :: ch in m.Values ==> ch.closes == 1 && ch.buffer == old(ch.buffer)
  {
    var remaining := m.Keys;
    while remaining != {}
      invariant remaining <= m.Keys
      invariant forall k :: k in m ==> m[k].closes == (if k in remaining then 0 else 1)
      invariant forall k :: k in m ==> m[k].buffer == old(m[k].buffer)
      decreases remaining
    {
      var k :| k in remaining;
      m[k].closes := m[k].closes + 1;
      remaining := remaining - {k};
    }
  }

  /** The channels in the map are those of the requests in the model's map. */
  lemma PendingChannels(m: map<u32, Chan>, index: map<u32, nat>, chans: seq<Chan>)
    requires forall i, j :: 0 <= i < j < |chans| ==> chans[i] != chans[j]
    requires m.Keys == index.Keys && forall k :: k in m ==> index[k] < |chans| && m[k] == chans[index[k]]
    requires forall j, k | j in index && k in index :: j != k ==> index[j] != index[k]
    ensures forall i :: 0 <= i < |chans| ==> (chans[i] in m.Values <==> i in index.Values)
    ensures forall j, k | j in m && k in m :: j != k ==> m[j] != m[k]
    ensures forall k :: k in m ==> m[k] in m.Values && index[k] in index.Values
  {
    forall i | 0 <= i < |chans|
      ensures chans[i] in m.Values <==> i in index.Values
    {
      if chans[i] in m.Values {
        var k :| k in m && m[k] == chans[i];
        assert index[k] == i;
      }
      if i in index.Values {
        var k :| k in index && index[k] == i;
        assert m[k] == chans[i];
      }
    }
  }

  class Conn {
    var state: ConnState
    var invokeID: u32
    var pending: Option<map<u32, Chan>>
    /** The channels of all SendRequest calls so far, in order. */
    ghost var chans: seq<Chan>

    /** The fields hold what model state s says. */
    ghost predicate Represents(s: State)
      reads this, chans
    {
      && state == s.conn
      && invokeID == s.invokeID
      && |chans| == |s.requests|
      && (forall i, j :: 0 <= i < j < |chans| ==> chans[i] != chans[j])
      && (forall i :: 0 <= i < |chans| ==>
            chans[i].buffer == s.requests[i].buffer && chans[i].closes == s.requests[i].closes)
      && match s.pending
         case None => pending == None
         case Some(m) =>
           && pending.Some? && pending.value.Keys == m.Keys
           && forall k :: k in m ==> m[k] < |chans| && pending.value[k] == chans[m[k]]
    }

    constructor ()
      ensures Represents(Dialled())
      ensures chans == []
    {
      state := Connected;
      invokeID := 0;
      pending := Some(map[]);
      chans := [];
    }

    /** NextInvokeID, with the channel the call will wait on. */
    method NewRequest(ghost s: State) returns (id: u32, ch: Chan)
      requires Represents(s)
      modifies this
      ensures fresh(ch) && chans == old(chans) + [ch]
      ensures Represents(RequestStep(s, Step.NewRequest)) && id == invokeID
    {
      invokeID := Wrap32(invokeID + 1);
      id := invokeID;
      ch := new Chan();
      chans := chans + [ch];
    }

    /** The swap Close starts with is the model's step; any other pair of states swaps likewise. */
    method CompareAndSwapState(ghost s: State, ghost c: nat, before: ConnState, after: ConnState)
      returns (swapped: bool)
      requires Represents(s)
      modifies this`state
      ensures swapped <==> old(state) == before
      ensures state == if swapped then after else old(state)
      ensures before == Connected && after == Disconnecting && CloseEnabled(s, CloseSwap(c)) ==>
                Represents(CloseStep(s, CloseSwap(c)))
    {
      hide ClosedChannels;
      swapped := state == before;
      if swapped {
        state := after;
      }
    }

    /** setError, called by a SendRequest, by the read loop in three places, or by a Close that timed out. */
    method SetError(ghost s: State, ghost step: Step)
      requires Represents(s) && Enabled(s, step) && SetsError(step)
      modifies this`state
      ensures Represents(Apply(s, step)) && state == Errored
    {
      hide ClosedChannels;
      state := Errored;
    }

    /** c.pending[invokeID] = respCh under pendingMu: panics once Close has cleared the map. */
    method RegisterPending(ghost s: State, ghost r: nat, id: u32, ch: Chan) returns (outcome: Outcome<()>)
      requires Represents(s) && RequestEnabled(s, Register(r))
      requires ch == chans[r] && id == s.requests[r].id
      modifies this`pending
      ensures outcome == if s.pending.Some? then Ok(()) else Panic
      ensures Represents(RequestStep(s, Register(r)))
    {
      if pending.None? {
        return Panic;
      }
      pending := Some(pending.value[id := ch]);
      outcome := Ok(());
    }

    /** The deferred delete(c.pending, invokeID). */
    method UnregisterPending(ghost s: State, ghost r: nat, id: u32)
      requires Represents(s) && RequestEnabled(s, Unregister(r)) && id == s.requests[r].id
      modifies this`pending
      ensures Represents(RequestStep(s, Unregister(r)))
    {
      if pending.Some? {
        pending := Some(pending.value - {id});
      }
    }

    /** The dispatcher's lookup under the read lock. */
    method LookupPending(ghost s: State, id: u32) returns (ch: Option<Chan>)
      requires Represents(s) && DispatchEnabled(s, DispatchLookup)
      requires id == s.wire[s.dispatcher.index].invokeID
      ensures match DispatchStep(s, DispatchLookup).dispatcher
              case Delivering(_, r) => r < |chans| && ch == Some(chans[r])
              case _ => ch == None
    {
      ch := if pending.Some? && id in pending.value then Some(pending.value[id]) else None;
    }

    /** The dispatcher's non-blocking send: dropped when the buffer is full, a panic when closed. */
    method Offer(ghost s: State, ch: Chan, packet: nat) returns (outcome: Outcome<()>)
      requires Represents(s) && DispatchEnabled(s, DispatchDeliver)
      requires ch == chans[s.dispatcher.request] && packet == s.dispatcher.index
      modifies ch
      ensures Represents(DispatchStep(s, DispatchDeliver))
      ensures outcome == Panic <==> DispatchStep(s, DispatchDeliver).panic == Some(SendOnClosedChannel)
                                    && s.requests[s.dispatcher.request].closes > 0
    {
      if ch.closes > 0 {
        return Panic;
      }
      if ch.buffer.None? {
        ch.buffer := Some(packet);
      }
      outcome := Ok(());
    }

    /** Closes every pending channel, in whatever order the map yields them, and clears the map. */
    method DrainPending(ghost s: State, ghost c: nat)
      requires Represents(s) && IdsOk(s) && CloseEnabled(s, Drain(c)) && s.panic.None?
      modifies this`pending, if pending.Some? then pending.value.Values else {}
      ensures Represents(CloseStep(s, Drain(c)))
      ensures pending == None
    {
      ghost var t := CloseStep(s, Drain(c));
      DrainEffect(s, c);
      hide IdsOk, CloseStep, CloseEnabled, ClosedChannels, WithCloser;
      if pending.None? {
        return;
      }
      var m := pending.value;
      ghost var index := s.pending.value;
      PendingChannels(m, index, chans);
      CloseAll(m);
      pending := None;
    }
  }
}
