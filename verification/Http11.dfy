/**
  The life of a direct HTTP/1.1 connection: the wrapper that connects lazily (`_async/connection.py`)
  around the NEW / ACTIVE / IDLE / CLOSED machine (`_async/http11.py`), with HTTP/2 switched off.
 */
module Http11 {
  import opened Lists
  import opened ConnectionPool

  datatype HttpState = NEW | ACTIVE | IDLE | CLOSED

  /** The wrapper and the machine inside it, as the pool sees them together. */
  datatype Net = Connecting | Failed | Open(state: HttpState)

  /** The pool's view of a connection; `expired` stands for the clock and the socket. */
  function FlagsOf(n: Net, expired: bool): Flags {
    Flags(
      n == Failed || n == Open(CLOSED),
      n.Open? && n.state != CLOSED,
      n == Failed || (n.Open? && n.state in {IDLE, CLOSED} && expired),
      n == Failed || n == Open(IDLE),
      n == Open(IDLE),
      false)
  }

  /** A request may be sent on a connection that is new or idle. */
  predicate CanStart(n: Net) { n == Open(NEW) || n == Open(IDLE) }

  function Started(n: Net): Net {
    if CanStart(n) then Open(ACTIVE) else n
  }

  /** The end of a response: idle again if both sides completed the exchange, closed otherwise. */
  function Ended(bothDone: bool): Net {
    Open(if bothDone then IDLE else CLOSED)
  }

  function Shut(n: Net): Net {
    if n.Open? then Open(CLOSED) else n
  }

  class HttpConnection {
    var connection: Option<HttpState>
    var connectFailed: bool
    var requestCount: nat
    var expireAt: Option<real>
    const keepaliveExpiry: Option<real>

    ghost predicate Valid()
      reads this
    {
      expireAt.Some? ==> connection.Some? && connection.value in {IDLE, CLOSED}
    }

    function View(): Net
      reads this
    {
      match connection
      case Some(state) => Open(state)
      case None => if connectFailed then Failed else Connecting
    }

    constructor (keepaliveExpiry: Option<real>)
      ensures Valid() && View() == Connecting && requestCount == 0
    {
      this.keepaliveExpiry := keepaliveExpiry;
      connection, connectFailed, requestCount, expireAt := None, false, 0, None;
    }

    /** The outcome of the first connection attempt. */
    method Connected(ok: bool)
      requires Valid() && View() == Connecting
      modifies this
      ensures Valid() && View() == (if ok then Open(NEW) else Failed) && requestCount == old(requestCount)
    {
      if ok { connection := Some(NEW); } else { connectFailed := true; }
    }

    /** The guard of `handle_async_request`: refusal is `ConnectionNotAvailable` and changes nothing. */
    method HandleRequest() returns (accepted: bool)
      requires Valid() && View().Open?
      modifies this
      ensures Valid() && accepted == CanStart(old(View())) && View() == Started(old(View()))
      ensures accepted ==> requestCount == old(requestCount) + 1 && expireAt == None
      ensures !accepted ==> requestCount == old(requestCount) && expireAt == old(expireAt)
    {
      if connection.value in {NEW, IDLE} {
        requestCount := requestCount + 1;
        connection := Some(ACTIVE);
        expireAt := None;
        return true;
      }
      return false;
    }

    method ResponseClosed(ourDone: bool, theirDone: bool, now: real)
      requires Valid() && View().Open?
      modifies this
      ensures Valid() && View() == Ended(ourDone && theirDone) && requestCount == old(requestCount)
      ensures ourDone && theirDone && keepaliveExpiry.Some? ==> expireAt == Some(now + keepaliveExpiry.value)
      ensures !(ourDone && theirDone && keepaliveExpiry.Some?) ==> expireAt == old(expireAt)
    {
      if ourDone && theirDone {
        connection := Some(IDLE);
        if keepaliveExpiry.Some? {
          expireAt := Some(now + keepaliveExpiry.value);
        }
      } else {
        Aclose();
      }
    }

    method Aclose()
      requires Valid()
      modifies this`connection
      ensures Valid() && View() == Shut(old(View()))
    {
      if connection.Some? {
        connection := Some(CLOSED);
      }
    }

    function IsClosed(): bool
      reads this
    {
      if connection.None? then connectFailed else connection.value == CLOSED
    }

    function IsConnected(): bool
      reads this
    {
      connection.Some? && connection.value != CLOSED
    }

    function IsAvailable(): bool
      reads this
    {
      connection.Some? && connection.value == IDLE
    }

    function IsIdle(): bool
      reads this
    {
      if connection.None? then connectFailed else connection.value == IDLE
    }

    function HasExpired(now: real, readable: bool): bool
      reads this
    {
      if connection.None? then connectFailed
      else (expireAt.Some? && now > expireAt.value) || (connection.value == IDLE && readable)
    }

    /** Whatever the clock and the socket say, the queries answer as `FlagsOf` describes. */
    method Query(now: real, readable: bool) returns (f: Flags)
      requires Valid()
      ensures exists expired :: f == FlagsOf(View(), expired)
      ensures f.expired == HasExpired(now, readable)
    {
      f := Flags(IsClosed(), IsConnected(), HasExpired(now, readable), IsIdle(), IsAvailable(), false);
      assert f == FlagsOf(View(), f.expired);
    }
  }

  /** The guards do not make CLOSED final: a connection closed under a finished exchange becomes idle again. */
  method CloseUnderResponse(c: HttpConnection, now: real) returns (accepted: bool)
    requires c.Valid() && c.View() == Open(NEW)
    modifies c
    ensures accepted && c.Valid() && c.View() == Open(IDLE)
  {
    accepted := c.HandleRequest();
    c.Aclose();
    assert c.View() == Open(CLOSED);
    c.ResponseClosed(true, true, now);
  }
}
