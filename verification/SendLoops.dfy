/**
  One `send` of the client (`_client.py`): a loop over the turns of an authentication flow around a loop over
  redirects, both counting against `max_redirects` through a shared history.
 */
module SendLoops {
  import opened Lists

  /** What happens to the request of round `k` after `j` redirects: every choice of server, hooks and URLs. */
  datatype Turn =
    | RequestHookRaises
    | TransportFails
    | ReplyLost   // the transport replies, and taking the reply over raises: the cookie jar, before the guarded part
    | Reply(hookRaises: bool, redirect: bool, locationValid: bool, readable: bool)

  /** What the authentication flow does with the response of a round. */
  datatype AuthTurn = Finish | Raise | Again(readable: bool)

  /** Everything outside the client; the flow may go on for ever, and closing it may raise. */
  datatype World = World(
    server: (nat, nat) -> Turn,
    auth: nat -> AuthTurn,
    authStarts: bool,
    authCloses: bool)

  type ResponseId = nat

  datatype Result = Returned(response: ResponseId, history: seq<ResponseId>) | TooManyRedirects | Failed

  // ---- how many requests are made ------------------------------------------

  /** A round goes on after this turn. */
  predicate Redirects(t: Turn, follow: bool) {
    t.Reply? && !t.hookRaises && t.redirect && follow && t.locationValid && t.readable
  }

  /** A round ends with the response of this turn. */
  predicate Answers(t: Turn, follow: bool) {
    t.Reply? && !t.hookRaises && (!t.redirect || !follow)
  }

  datatype TurnEnd = Answered(id: ResponseId) | Redirected(id: ResponseId) | Raised

  /** Transport requests of round `k` from its `j`-th, with `used` entries in the history. */
  function RoundRequests(w: World, follow: bool, max: int, k: nat, j: nat, used: nat): nat
    decreases max + 1 - used
  {
    if used > max then 0
    else if w.server(k, j) == RequestHookRaises then 0
    else 1 + if Redirects(w.server(k, j), follow) then RoundRequests(w, follow, max, k, j + 1, used + 1) else 0
  }

  datatype RoundEnd = Response | Limit | Lost | Failure

  function EndOfRound(w: World, follow: bool, max: int, k: nat, j: nat, used: nat): RoundEnd
    decreases max + 1 - used
  {
    if used > max then Limit
    else
      var t := w.server(k, j);
      if Redirects(t, follow) then EndOfRound(w, follow, max, k, j + 1, used + 1)
      else if Answers(t, follow) then Response
      else if t.ReplyLost? then Lost
      else Failure
  }

  /** Transport requests from round `k` on; each earlier round has left one entry in the history. */
  function Requests(w: World, follow: bool, max: int, k: nat): nat
    decreases max + 1 - k
  {
    RoundRequests(w, follow, max, k, 0, k)
    + if k <= max && EndOfRound(w, follow, max, k, 0, k) == Response && w.auth(k) == Again(true)
      then Requests(w, follow, max, k + 1) else 0
  }

  /** The run from round `k` on ends in a turn that loses its reply. */
  predicate LosesReply(w: World, follow: bool, max: int, k: nat)
    decreases max + 1 - k
  {
    var end := EndOfRound(w, follow, max, k, 0, k);
    end == Lost || (k <= max && end == Response && w.auth(k) == Again(true) && LosesReply(w, follow, max, k + 1))
  }

  /** The run from round `k` on ends in a response the flow is content with. */
  predicate EndsContent(w: World, follow: bool, max: int, k: nat)
    decreases max + 1 - k
  {
    k <= max && EndOfRound(w, follow, max, k, 0, k) == Response
    && (w.auth(k) == Finish || (w.auth(k) == Again(true) && EndsContent(w, follow, max, k + 1)))
  }

  /** A response is left open that no one gets: a reply is lost, or the flow cannot be closed on the way out. */
  predicate Leaks(w: World, follow: bool, max: int) {
    w.authStarts && (LosesReply(w, follow, max, 0) || (!w.authCloses && EndsContent(w, follow, max, 0)))
  }

  function Triangle(n: int): nat { if n <= 0 then 0 else n + Triangle(n - 1) }

  lemma {:induction false} TriangleFormula(n: nat)
    ensures 2 * Triangle(n) == n * (n + 1)
  {
    if n > 0 {
      TriangleFormula(n - 1);
    }
  }

  lemma {:induction false} RoundBound(w: World, follow: bool, max: int, k: nat, j: nat, used: nat)
    ensures RoundRequests(w, follow, max, k, j, used) <= if used > max then 0 else max + 1 - used
    decreases max + 1 - used
  {
    if used <= max {
      RoundBound(w, follow, max, k, j + 1, used + 1);
    }
  }

  lemma {:induction false} RequestsTriangle(w: World, follow: bool, max: int, k: nat)
    ensures Requests(w, follow, max, k) <= Triangle(max + 1 - k)
    decreases max + 1 - k
  {
    RoundBound(w, follow, max, k, 0, k);
    if k <= max {
      RequestsTriangle(w, follow, max, k + 1);
    }
  }

  /** Whatever the server and the flow do, one `send` makes at most (m + 1)(m + 2) / 2 transport requests. */
  lemma RequestsBounded(w: World, follow: bool, max: int)
    ensures max >= 0 ==> 2 * Requests(w, follow, max, 0) <= (max + 1) * (max + 2)
    ensures max < 0 ==> Requests(w, follow, max, 0) == 0
  {
    RequestsTriangle(w, follow, max, 0);
    if max >= 0 {
      TriangleFormula(max + 1);
    }
  }

  /** A server that redirects as long as it may, and a flow that never ends. */
  function Worst(max: nat): World {
    World((k: nat, j: nat) => Reply(false, k + j < max, true, true), (k: nat) => Again(true), true, true)
  }

  lemma {:induction false} WorstRound(max: nat, k: nat, j: nat)
    requires k + j <= max
    ensures RoundRequests(Worst(max), true, max, k, j, k + j) == max + 1 - (k + j)
    ensures EndOfRound(Worst(max), true, max, k, j, k + j) == Response
    decreases max - j
  {
    if k + j < max {
      WorstRound(max, k, j + 1);
    }
  }

  lemma {:induction false} WorstTriangle(max: nat, k: nat)
    ensures Requests(Worst(max), true, max, k) == Triangle(max + 1 - k)
    decreases max + 1 - k
  {
    if k <= max {
      WorstRound(max, k, 0);
      WorstTriangle(max, k + 1);
    }
  }

  /** The bound is reached for every limit. */
  lemma BoundIsReached(max: nat)
    ensures 2 * Requests(Worst(max), true, max, 0) == (max + 1) * (max + 2)
  {
    WorstTriangle(max, 0);
    TriangleFormula(max + 1);
  }

  // ---- the client ----------------------------------------------------------

  /** `n` consecutive responses. */
  function Numbered(first: nat, n: nat): (ids: seq<ResponseId>)
    ensures |ids| == n && forall i :: 0 <= i < n ==> ids[i] == first + i
  {
    if n == 0 then [] else Numbered(first, n - 1) + [first + n - 1]
  }

  /** Responses numbered from `first` to below `end`, in the order they came. */
  predicate InOrder(history: seq<ResponseId>, first: nat, end: nat) {
    history != [] ==>
      var last := history[|history| - 1];
      first <= last < end && InOrder(history[..|history| - 1], first, last)
  }

  lemma {:induction false} InOrderMore(history: seq<ResponseId>, first: nat, mid: nat, n: nat)
    requires first <= mid && InOrder(history, first, mid)
    ensures InOrder(history + Numbered(mid, n), first, mid + n)
  {
    if n == 0 {
      assert history + [] == history;
    } else {
      InOrderMore(history, first, mid, n - 1);
      var more := history + Numbered(mid, n);
      assert more[..|more| - 1] == history + Numbered(mid, n - 1);
    }
  }

  lemma {:induction false} InOrderPush(history: seq<ResponseId>, first: nat, mid: nat, id: ResponseId)
    requires first <= mid <= id && InOrder(history, first, mid)
    ensures InOrder(history + [id], first, id + 1)
  {
    assert (history + [id])[..|history|] == history;
  }

  class Client {
    const maxRedirects: int
    var isClosed: bool
    var requests: nat             // transport requests made so far
    var responses: nat            // responses received so far, numbered from zero
    var open: set<ResponseId>     // responses not closed

    constructor (maxRedirects: int)
      ensures this.maxRedirects == maxRedirects && !isClosed && requests == 0 && responses == 0 && open == {}
    {
      this.maxRedirects := maxRedirects;
      isClosed, requests, responses, open := false, 0, 0, {};
    }

    ghost predicate Valid()
      reads this
    {
      forall id :: id in open ==> id < responses
    }

    /** A lost reply has been received and is left open. */
    method SendSingleRequest(t: Turn) returns (response: Option<ResponseId>)
      requires Valid() && t != RequestHookRaises
      modifies this`requests, this`responses, this`open
      ensures Valid() && requests == old(requests) + 1
      ensures responses == old(responses) + if t.TransportFails? then 0 else 1
      ensures open == old(open) + if t.TransportFails? then {} else {old(responses)}
      ensures response == if t.Reply? then Some(old(responses)) else None
    {
      requests := requests + 1;
      if t.TransportFails? {
        return None;
      }
      response := Some(responses);
      open := open + {responses};
      responses := responses + 1;
      if t.ReplyLost? {
        return None;
      }
    }

    method Close(id: ResponseId)
      requires Valid()
      modifies this`open
      ensures Valid() && open == old(open) - {id}
    {
      open := open - {id};
    }

    /** Reading to the end closes the response; a failed read is closed by the handler around it. */
    method ReadOrClose(id: ResponseId, readable: bool) returns (ok: bool)
      requires Valid()
      modifies this`open
      ensures Valid() && ok == readable && open == old(open) - {id}
    {
      Close(id);
      ok := readable;
    }

    /** One request and what becomes of its response: only an answer and a lost reply are left open. */
    method HandleTurn(t: Turn, follow: bool) returns (end: TurnEnd)
      requires Valid() && t != RequestHookRaises
      modifies this`requests, this`responses, this`open
      ensures Valid() && requests == old(requests) + 1
      ensures responses == old(responses) + if t.TransportFails? then 0 else 1
      ensures open == old(open) + if Answers(t, follow) || t.ReplyLost? then {old(responses)} else {}
      ensures end == if Answers(t, follow) then Answered(old(responses))
                     else if Redirects(t, follow) then Redirected(old(responses)) else Raised
    {
      var response := SendSingleRequest(t);
      if response.None? {
        return Raised;
      }
      var id := response.value;
      if t.hookRaises {
        Close(id);
        return Raised;
      }
      if !t.redirect {
        return Answered(id);
      }
      if follow {
        if !t.locationValid {
          Close(id);
          return Raised;
        }
        var ok := ReadOrClose(id, t.readable);
        return if ok then Redirected(id) else Raised;
      }
      return Answered(id);
    }

    /** One round. The request count is exact, and only a returned response or a lost one is left open. */
    method SendHandlingRedirects(w: World, follow: bool, k: nat, history0: seq<ResponseId>) returns (r: Result)
      requires Valid()
      modifies this`requests, this`responses, this`open
      ensures Valid() && responses >= old(responses)
      ensures requests == old(requests) + RoundRequests(w, follow, maxRedirects, k, 0, |history0|)
      ensures r.Returned? <==> EndOfRound(w, follow, maxRedirects, k, 0, |history0|) == Response
      ensures r == TooManyRedirects <==> EndOfRound(w, follow, maxRedirects, k, 0, |history0|) == Limit
      ensures var end := EndOfRound(w, follow, maxRedirects, k, 0, |history0|);
        open == old(open) + if end == Response || end == Lost then {responses - 1} else {}
      ensures r.Returned? ==> r.response == responses - 1 && old(responses) <= r.response
      ensures EndOfRound(w, follow, maxRedirects, k, 0, |history0|) == Lost ==> responses > old(responses)
      ensures r.Returned? ==> |r.history| <= maxRedirects
      ensures r.Returned? ==> r.history == history0 + Numbered(old(responses), r.response - old(responses))
    {
      var history := history0;
      ghost var j: nat := 0;
      ghost var requests0, responses0 := requests, responses;
      while true
        invariant Valid() && responses == responses0 + j && open == old(open)
        invariant history == history0 + Numbered(responses0, j)
        invariant requests + RoundRequests(w, follow, maxRedirects, k, j, |history|)
               == requests0 + RoundRequests(w, follow, maxRedirects, k, 0, |history0|)
        invariant EndOfRound(w, follow, maxRedirects, k, j, |history|)
          == EndOfRound(w, follow, maxRedirects, k, 0, |history0|)
        decreases maxRedirects + 1 - |history|
      {
        if |history| > maxRedirects {
          return TooManyRedirects;
        }
        var t := w.server(k, |history| - |history0|);
        if t.RequestHookRaises? {
          return Failed;
        }
        var end := HandleTurn(t, follow);
        match end {
          case Answered(id) => return Returned(id, history);
          case Raised => return Failed;
          case Redirected(id) =>
            history := history + [id];
            j := j + 1;
        }
      }
    }

    /** All rounds, and the closing of the flow: if that raises, the response at hand is left to no one. */
    method SendHandlingAuth(w: World, follow: bool) returns (r: Result)
      requires Valid()
      modifies this`requests, this`responses, this`open
      ensures Valid() && old(responses) <= responses
      ensures open == old(open) + (if r.Returned? || Leaks(w, follow, maxRedirects) then {responses - 1} else {})
      ensures Leaks(w, follow, maxRedirects) ==> r == Failed && responses > old(responses)
      ensures r.Returned? <==> w.authStarts && w.authCloses && EndsContent(w, follow, maxRedirects, 0)
      ensures r.Returned? ==> r.response == responses - 1 && old(responses) <= r.response
      ensures r.Returned? ==> |r.history| <= maxRedirects && InOrder(r.history, old(responses), r.response)
      ensures requests == old(requests) + if w.authStarts then Requests(w, follow, maxRedirects, 0) else 0
    {
      r := RunAuthFlow(w, follow);
      if !w.authCloses {
        r := Failed;
      }
    }

    /** All rounds. The history of the returned response lists earlier responses of this call, in order. */
    method RunAuthFlow(w: World, follow: bool) returns (r: Result)
      requires Valid()
      modifies this`requests, this`responses, this`open
      ensures Valid() && old(responses) <= responses
      ensures var lost := w.authStarts && LosesReply(w, follow, maxRedirects, 0);
        && open == old(open) + (if r.Returned? || lost then {responses - 1} else {})
        && (lost ==> r == Failed && responses > old(responses))
      ensures r.Returned? <==> w.authStarts && EndsContent(w, follow, maxRedirects, 0)
      ensures r.Returned? ==> r.response == responses - 1 && old(responses) <= r.response
      ensures r.Returned? ==> |r.history| <= maxRedirects && InOrder(r.history, old(responses), r.response)
      ensures requests == old(requests) + if w.authStarts then Requests(w, follow, maxRedirects, 0) else 0
    {
      if !w.authStarts {
        return Failed;
      }
      var history: seq<ResponseId> := [];
      while true
        invariant Valid() && responses >= old(responses) && open == old(open)
        invariant InOrder(history, old(responses), responses)
        invariant |history| > 0 ==> |history| <= maxRedirects + 1
        invariant requests + Requests(w, follow, maxRedirects, |history|)
          == old(requests) + Requests(w, follow, maxRedirects, 0)
        invariant LosesReply(w, follow, maxRedirects, |history|) == LosesReply(w, follow, maxRedirects, 0)
        invariant EndsContent(w, follow, maxRedirects, |history|) == EndsContent(w, follow, maxRedirects, 0)
        decreases maxRedirects + 1 - |history|
      {
        ghost var mid := responses;
        var again;
        r, again := SendRound(w, follow, history);
        if r.Returned? {
          InOrderMore(history, old(responses), mid, responses - 1 - mid);
        }
        if !again {
          return;
        }
        InOrderPush(history, old(responses), mid, r.response);
        history := history + [r.response];
      }
    }

    /** One round and what the flow makes of its response. */
    method SendRound(w: World, follow: bool, history: seq<ResponseId>) returns (r: Result, again: bool)
      requires Valid()
      modifies this`requests, this`responses, this`open
      ensures Valid() && responses >= old(responses)
      ensures requests == old(requests) + RoundRequests(w, follow, maxRedirects, |history|, 0, |history|)
      ensures var k := |history|; var end := EndOfRound(w, follow, maxRedirects, k, 0, k);
        && again == (end == Response && w.auth(k) == Again(true))
        && (r.Returned? <==> end == Response && w.auth(k) in {Finish, Again(true)})
        && open == old(open) + (if end == Lost || (r.Returned? && !again) then {responses - 1} else {})
        && (end == Lost ==> r == Failed && responses > old(responses))
      ensures r.Returned? ==> r.response == responses - 1 && old(responses) <= r.response && |r.history| <= maxRedirects
      ensures r.Returned? ==> r.history == history + Numbered(old(responses), r.response - old(responses))
    {
      var k := |history|;
      r := SendHandlingRedirects(w, follow, k, history);
      again := false;
      if r.Returned? && w.auth(k) != Finish {
        again := HandleAuthTurn(w.auth(k), r.response);
        if !again {
          r := Failed;
        }
      }
    }

    /** The flow raises, or asks for another request once the response has been read; it is closed in any case. */
    method HandleAuthTurn(turn: AuthTurn, id: ResponseId) returns (again: bool)
      requires Valid() && turn != Finish
      modifies this`open
      ensures Valid() && open == old(open) - {id} && again == (turn == Again(true))
    {
      match turn
      case Raise =>
        Close(id);
        again := false;
      case Again(readable) =>
        again := ReadOrClose(id, readable);
    }

    /**
      One `send`. It stops, within the bound on transport requests. At every exit all responses are closed but the
      one returned, which is closed too unless it is to be streamed, exactly if no reply is lost and the flow can be
      closed behind a response it is content with; otherwise the last response is the one left open.
     */
    method Send(w: World, follow: bool, stream: bool, readable: bool) returns (r: Result)
      requires Valid()
      modifies this`requests, this`responses, this`open
      ensures Valid() && old(responses) <= responses
      ensures open == old(open) + (if r.Returned? && stream then {r.response} else {})
        <==> isClosed || !Leaks(w, follow, maxRedirects)
      ensures !isClosed && Leaks(w, follow, maxRedirects) ==>
        r == Failed && responses > old(responses) && open == old(open) + {responses - 1}
      ensures r.Returned? ==> old(responses) <= r.response < responses
      ensures r.Returned? ==> |r.history| <= maxRedirects && InOrder(r.history, old(responses), r.response)
      ensures isClosed ==> r == Failed
      ensures requests == old(requests) + if isClosed || !w.authStarts then 0 else Requests(w, follow, maxRedirects, 0)
      ensures maxRedirects >= 0 ==> 2 * (requests - old(requests)) <= (maxRedirects + 1) * (maxRedirects + 2)
      ensures maxRedirects < 0 ==> requests == old(requests)
    {
      RequestsBounded(w, follow, maxRedirects);
      if isClosed {
        return Failed;
      }
      r := SendHandlingAuth(w, follow);
      if r.Returned? && !stream {
        var ok := ReadOrClose(r.response, readable);
        if !ok {
          return Failed;
        }
      }
    }

    /** A jar that raises on the first reply: the call fails and the last response stays open. */
    method SendWithRaisingJar(follow: bool, stream: bool) returns (r: Result)
      requires Valid() && !isClosed && maxRedirects >= 0
      modifies this`requests, this`responses, this`open
      ensures r == Failed && old(responses) < responses && open == old(open) + {responses - 1}
    {
      var w := World((_, _) => ReplyLost, _ => Finish, true, true);
      r := Send(w, follow, stream, true);
      assert EndOfRound(w, follow, maxRedirects, 0, 0, 0) == Lost;
    }

    /** A flow that is content at once and cannot be closed: the response it was content with stays open. */
    method SendWithUnclosableFlow(follow: bool, stream: bool) returns (r: Result)
      requires Valid() && !isClosed && maxRedirects >= 0
      modifies this`requests, this`responses, this`open
      ensures r == Failed && old(responses) < responses && open == old(open) + {responses - 1}
    {
      var w := World((_, _) => Reply(false, false, true, true), _ => Finish, true, false);
      r := Send(w, follow, stream, true);
      assert EndOfRound(w, follow, maxRedirects, 0, 0, 0) == Response;
    }
  }
}
