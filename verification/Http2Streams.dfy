/** The connection object: its methods, with their loops, are the steps of `Http2`. */
module Http2Streams {
  import opened Lists
  import opened Http2

  /** A semaphore with a maximum value, as the async libraries provide it: releasing past it is an error. */
  class Semaphore {
    const bound: nat
    var value: nat

    constructor (bound: nat)
      ensures this.bound == bound && value == bound
    {
      this.bound, value := bound, bound;
    }

    method AcquireIfAvailable() returns (ok: bool)
      modifies this
      ensures ok == (old(value) > 0) && value == old(value) - (if ok then 1 else 0)
    {
      ok := value > 0;
      if ok { value := value - 1; }
    }

    method Release()
      requires value < bound
      modifies this
      ensures value == old(value) + 1
    {
      value := value + 1;
    }
  }

  datatype Received = Got(event: Event) | Reset | NotAvailable | Terminated | Blocked

  class Http2Connection {
    const localMax: nat
    const permits: Semaphore
    const keepaliveExpiry: Option<real>
    var maxStreams: nat
    var deficit: nat
    var nextId: StreamId
    var events: map<StreamId, seq<Event>>
    var terminated: Option<nat>
    var state: ConnectionState
    var expireAt: Option<real>
    ghost var taken: nat
    ghost var admitted: nat

    ghost function View(): Connection
      reads this, permits
    {
      Connection(localMax, maxStreams, deficit, permits.value, taken, admitted, nextId, events, terminated, state)
    }

    ghost predicate Valid()
      reads this, permits
    {
      permits.bound == localMax && View().Valid()
    }

    constructor (localMax: nat, keepaliveExpiry: Option<real>)
      requires localMax >= 1
      ensures fresh(permits) && Valid() && View() == Initial(localMax) && expireAt == None
    {
      this.keepaliveExpiry, expireAt := keepaliveExpiry, None;
      this.localMax := localMax;
      var sem := new Semaphore(localMax);
      permits := sem;
      maxStreams, deficit, nextId, events, terminated, state := 1, 0, 1, map[], None, IDLE;
      taken, admitted := 0, 0;
      new;
      for i := 0 to localMax - maxStreams
        invariant permits.value == localMax - i && permits.bound == localMax
        invariant taken == admitted == 0 && maxStreams == 1 && deficit == 0 && nextId == 1
        invariant events == map[] && terminated == None && state == IDLE
        modifies permits
      {
        var ok := permits.AcquireIfAvailable();
      }
    }

    /** Entry of a request: a closed connection refuses it, any other becomes active. */
    method EnterRequest() returns (ok: bool)
      requires Valid()
      modifies this`state, this`expireAt
      ensures Valid() && View() == Enter(old(View())) && (ok <==> old(state) != CLOSED)
      ensures expireAt == if ok then None else old(expireAt)
    {
      ok := state in {ACTIVE, IDLE};
      if ok {
        expireAt := None;
        state := ACTIVE;
      }
    }

    /** A waiter that finds no permit keeps waiting; getting one changes nothing else. */
    method AcquirePermit() returns (ok: bool)
      requires Valid()
      modifies permits, this`taken
      ensures Valid() && View() == Acquire(old(View()))
      ensures ok <==> old(permits.value) > 0
      ensures old(View()).Exact() ==> (ok <==> old(View().Held()) < maxStreams)
    {
      ok := permits.AcquireIfAvailable();
      if ok {
        taken := taken + 1;
      }
    }

    /** Cancelled with a permit in hand: the semaphore has room for it, whatever is owed. */
    method CancelWaiter()
      requires Valid() && taken > 0
      modifies permits, this`taken
      ensures Valid() && View() == Http2.CancelWaiter(old(View()))
    {
      taken := taken - 1;
      permits.Release();
    }

    /**
      Whoever is admitted is within the current limit, counting the permit held; with exact counters, whoever is
      within the limit is admitted.
     */
    method PassDeficitCheck() returns (ok: bool)
      requires Valid() && taken > 0
      modifies this`taken, this`admitted, this`deficit
      ensures Valid() && View() == CheckDeficit(old(View()))
      ensures ok <==> old(deficit) == 0
      ensures ok ==> old(View().Held()) <= maxStreams
      ensures old(View()).Exact() ==> (ok <==> old(View().Held()) <= maxStreams)
    {
      taken := taken - 1;
      if deficit == 0 {
        admitted := admitted + 1;
        return true;
      }
      deficit := deficit - 1;
      return false;
    }

    method Register() returns (id: StreamId)
      requires Valid() && admitted > 0
      modifies this`admitted, this`nextId, this`events
      ensures Valid() && View() == OpenStream(old(View())) && id == old(nextId) && id !in old(events)
    {
      id := nextId;
      nextId := nextId + 2;
      events := events[id := []];
      admitted := admitted - 1;
      assert events.Keys == old(events).Keys + {id};
      assert |events| == |events.Keys| == |old(events)| + 1;
    }

    /** Raising and lowering the limit one permit at a time ends as doing it at once. */
    method ReceiveRemoteSettingsChange(value: Option<nat>)
      requires Valid()
      modifies this`maxStreams, this`deficit, permits
      ensures Valid()
      ensures View() == if value.Some? then ApplySettings(old(View()), value.value) else old(View())
    {
      if value.Some? {
        var newMaxStreams := Min(value.value, localMax);
        if newMaxStreams != 0 && newMaxStreams != maxStreams {
          while newMaxStreams > maxStreams
            invariant old(maxStreams) <= newMaxStreams ==> maxStreams <= newMaxStreams
            invariant permits.bound == localMax && old(maxStreams) <= maxStreams
            invariant old(maxStreams) > newMaxStreams ==> maxStreams == old(maxStreams)
            invariant View() == Raised(old(View()), maxStreams - old(maxStreams))
          {
            if deficit > 0 {
              deficit := deficit - 1;
            } else {
              permits.Release();
            }
            maxStreams := maxStreams + 1;
          }
          while newMaxStreams < maxStreams
            invariant old(maxStreams) >= newMaxStreams ==> newMaxStreams <= maxStreams <= old(maxStreams)
            invariant permits.bound == localMax
            invariant old(maxStreams) < newMaxStreams ==>
              maxStreams == newMaxStreams && View() == Raised(old(View()), maxStreams - old(maxStreams))
            invariant old(maxStreams) >= newMaxStreams ==> View() == Lowered(old(View()), old(maxStreams) - maxStreams)
          {
            var ok := permits.AcquireIfAvailable();
            if !ok {
              deficit := deficit + 1;
            }
            maxStreams := maxStreams - 1;
          }
        }
      }
    }

    /**
      Closing a response any number of times gives its permit back once; no release exceeds the bound. The keep-alive
      clock starts when the last stream of an active connection goes and the peer has not ended the connection.
     */
    method CloseResponse(id: StreamId, now: real)
      requires Valid()
      modifies this`deficit, this`events, this`state, this`expireAt, permits
      ensures Valid() && View() == ResponseClosed(old(View()), id)
      ensures expireAt
        == if old(state) == ACTIVE && state == IDLE && keepaliveExpiry.Some? then Some(now + keepaliveExpiry.value)
           else old(expireAt)
    {
      ReleaseStreamPermit(id);
      if terminated.Some? && events == map[] {
        state := CLOSED;
      } else if state == ACTIVE && events == map[] {
        state := IDLE;
        if keepaliveExpiry.Some? {
          expireAt := Some(now + keepaliveExpiry.value);
        }
      }
    }

    /** An open stream's permit goes to the deficit first; otherwise the semaphore has room for it. */
    method ReleaseStreamPermit(id: StreamId)
      requires Valid()
      modifies this`deficit, this`events, permits
      ensures Valid() && View() == ReleaseStream(old(View()), id)
    {
      if id in events {
        assert |events.Keys - {id}| == |events| - 1;
        if deficit > 0 {
          deficit := deficit - 1;
        } else {
          permits.Release();
        }
        events := events - {id};
        assert events.Keys == old(events).Keys - {id};
      }
    }

    /** One read: settings and admission limits first, then every event in order. */
    method ReceiveEvents(batch: seq<Incoming>)
      requires Valid()
      modifies this`maxStreams, this`deficit, this`events, this`terminated, permits
      ensures Valid() && View() == Receive(old(View()), batch)
    {
      ghost var c := View();
      for i := 0 to |batch|
        invariant Valid() && View() == ApplyAll(c, batch[..i])
      {
        assert batch[..i + 1][..i] == batch[..i];
        if batch[i].RemoteSettingsChanged? {
          ReceiveRemoteSettingsChange(batch[i].maxStreams);
        }
      }
      assert batch[..|batch|] == batch;
      ghost var d := View();
      for i := 0 to |batch|
        invariant Valid() && View() == DispatchAll(d, batch[..i])
      {
        assert batch[..i + 1][..i] == batch[..i];
        ReceiveEvent(batch[i]);
      }
    }

    /** Events of streams that are not open are discarded. */
    method ReceiveEvent(e: Incoming)
      requires Valid()
      modifies this`events, this`terminated
      ensures Valid() && View() == Dispatch(old(View()), e)
    {
      match e
      case OnStream(id, event) =>
        if id in events {
          events := events[id := events[id] + [event]];
          assert events.Keys == old(events).Keys;
        }
      case ConnectionTerminated(last) => terminated := Some(last);
      case RemoteSettingsChanged(_) =>
      case Other =>
    }

    /**
      The next event of a stream, reading batches of `network` until one is there. `used` batches are read, no more
      than needed; what is returned is the head of the queue those batches build.
     */
    method ReceiveStreamEvent(id: StreamId, network: seq<seq<Incoming>>) returns (r: Received, used: nat)
      requires Valid() && id in events
      modifies this`maxStreams, this`deficit, this`events, this`terminated, permits
      ensures Valid() && used <= |network|
      ensures var c := ReceiveAll(old(View()), network[..used]);
        && id in c.events
        && (if r.Got? || r.Reset? then c.events[id] != [] && View() == Pop(c, id)
            else c.events[id] == [] && View() == c)
        && (r.Got? || r.Reset? ==> r == if c.events[id][0].StreamReset? then Reset else Got(c.events[id][0]))
        && (r == Blocked ==> used == |network| && c.terminated.None?)
        && (r == NotAvailable <==> c.events[id] == [] && c.terminated.Some? && id > c.terminated.value > 0)
        && (r == Terminated ==> c.terminated.Some?)
      ensures forall k :: 0 <= k < used ==>
        id in ReceiveAll(old(View()), network[..k]).events && ReceiveAll(old(View()), network[..k]).events[id] == []
    {
      ghost var c := View();
      used := 0;
      assert network[..0] == [];
      while events[id] == []
        invariant Valid() && used <= |network| && id in events && View() == ReceiveAll(c, network[..used])
        invariant forall k :: 0 <= k < used ==>
          id in ReceiveAll(c, network[..k]).events && ReceiveAll(c, network[..k]).events[id] == []
        decreases |network| - used
      {
        if terminated.Some? {
          if id > 0 && terminated.value > 0 && id > terminated.value {
            return NotAvailable, used;
          }
          return Terminated, used;
        }
        if used == |network| {
          return Blocked, used;
        }
        assert network[..used + 1][..used] == network[..used];
        ReceiveKeepsStreams(View(), network[used]);
        ReceiveEvents(network[used]);
        used := used + 1;
      }
      var event := PopEvent(id);
      r := if event.StreamReset? then Reset else Got(event);
    }

    method PopEvent(id: StreamId) returns (event: Event)
      requires Valid() && id in events && events[id] != []
      modifies this`events
      ensures Valid() && View() == Pop(old(View()), id) && event == old(events[id])[0]
    {
      event := events[id][0];
      events := events[id := events[id][1..]];
      assert events.Keys == old(events).Keys;
    }
  }

  function ReceiveAll(c: Connection, batches: seq<seq<Incoming>>): Connection {
    if batches == [] then c else Receive(ReceiveAll(c, batches[..|batches| - 1]), batches[|batches| - 1])
  }

  /** Reading opens and closes no stream. */
  lemma ReceiveKeepsStreams(c: Connection, batch: seq<Incoming>)
    ensures Receive(c, batch).events.Keys == c.events.Keys
  {
    ApplyKeepsStreams(c, batch);
    DispatchKeepsStreams(ApplyAll(c, batch), batch);
  }

  lemma {:induction false} ApplyKeepsStreams(c: Connection, batch: seq<Incoming>)
    ensures ApplyAll(c, batch).events == c.events
  {
    if batch != [] {
      ApplyKeepsStreams(c, batch[..|batch| - 1]);
    }
  }

  lemma {:induction false} DispatchKeepsStreams(c: Connection, batch: seq<Incoming>)
    ensures DispatchAll(c, batch).events.Keys == c.events.Keys
  {
    if batch != [] {
      DispatchKeepsStreams(c, batch[..|batch| - 1]);
    }
  }
}
