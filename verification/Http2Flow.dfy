/**
  Sending request bodies over HTTP/2 flow control (`_async/http2.py`, sections 6.9 and 4.2 of RFC 7540).

  The windows live in the protocol library; only their arithmetic is modelled: sending takes from the connection's
  and the stream's window, updates add, and a new initial window size shifts every stream, possibly below zero.
 */
module Http2Flow {
  import opened Text
  import Http2

  type Bytes = seq<bv8>

  /** A DATA frame with the allowance it was sent under. */
  datatype Frame = Frame(data: Bytes, connWindow: int, streamWindow: int, maxFrame: nat)

  /** `pending` is the unsent part of the chunk being sent, `later` the chunks after it. */
  datatype Stream = Stream(
    window: int,
    granted: int,
    pending: Bytes,
    later: seq<Bytes>,
    frames: seq<Frame>,
    ended: bool)

  datatype Flow = Flow(connWindow: int, connGranted: int, maxFrame: nat, streams: map<Http2.StreamId, Stream>)

  datatype Step =
    | OpenStream(id: Http2.StreamId, window: nat, body: seq<Bytes>)
    | SendFrame(id: Http2.StreamId)
    | NextChunk(id: Http2.StreamId)
    | EndStream(id: Http2.StreamId)
    | UpdateConnection(increment: nat)
    | UpdateStream(id: Http2.StreamId, increment: nat)
    | ShiftWindows(delta: int)
    | SetMaxFrame(size: nat)

  /** What `_wait_for_outgoing_flow` compares with zero. */
  function Allowance(f: Flow, s: Stream): int { Http2.Min(Http2.Min(f.connWindow, s.window), f.maxFrame) }

  function Join(parts: seq<Bytes>): Bytes {
    if parts == [] then [] else parts[0] + Join(parts[1..])
  }

  function Sent(frames: seq<Frame>): Bytes {
    if frames == [] then [] else Sent(frames[..|frames| - 1]) + frames[|frames| - 1].data
  }

  /** The next frame of a stream: as much of the pending bytes as the allowance permits. */
  function NextFrame(f: Flow, s: Stream): Frame
    requires Allowance(f, s) > 0
  {
    Frame(s.pending[..Http2.Min(Allowance(f, s), |s.pending|)], f.connWindow, s.window, f.maxFrame)
  }

  function Send(f: Flow, id: Http2.StreamId): Flow
    requires id in f.streams && Allowance(f, f.streams[id]) > 0
  {
    var s, frame := f.streams[id], NextFrame(f, f.streams[id]);
    f.(connWindow := f.connWindow - |frame.data|,
       streams := f.streams[id := s.(window := s.window - |frame.data|,
                                     pending := s.pending[|frame.data|..],
                                     frames := s.frames + [frame])])
  }

  function Shifted(s: Stream, delta: int): Stream { s.(window := s.window + delta, granted := s.granted + delta) }

  function Next(f: Flow, step: Step): Flow {
    match step
    case OpenStream(id, window, body) =>
      if id in f.streams then f else f.(streams := f.streams[id := Stream(window, window, [], body, [], false)])
    case SendFrame(id) =>
      if id in f.streams && f.streams[id].pending != [] && Allowance(f, f.streams[id]) > 0 then Send(f, id) else f
    case NextChunk(id) =>
      if id in f.streams && f.streams[id].pending == [] && f.streams[id].later != []
      then var s := f.streams[id]; f.(streams := f.streams[id := s.(pending := s.later[0], later := s.later[1..])])
      else f
    case EndStream(id) =>
      if id in f.streams && f.streams[id].pending == [] && f.streams[id].later == []
      then f.(streams := f.streams[id := f.streams[id].(ended := true)]) else f
    case UpdateConnection(n) => f.(connWindow := f.connWindow + n, connGranted := f.connGranted + n)
    case UpdateStream(id, n) =>
      if id in f.streams then f.(streams := f.streams[id := Shifted(f.streams[id], n)]) else f
    case ShiftWindows(delta) => f.(streams := map id | id in f.streams :: Shifted(f.streams[id], delta))
    case SetMaxFrame(size) => f.(maxFrame := size)
  }

  // ---- one stream ----------------------------------------------------------

  /** The bytes of a stream still to be sent. */
  function Unsent(s: Stream): Bytes { s.pending + Join(s.later) }

  ghost predicate GoodFrame(fr: Frame) {
    0 < |fr.data| && |fr.data| <= fr.connWindow && |fr.data| <= fr.streamWindow && |fr.data| <= fr.maxFrame
  }

  /** Frames so far and bytes to come make up the body; frames respect their limits; the window is grants less use. */
  ghost predicate Sound(s: Stream, body: seq<Bytes>) {
    && Sent(s.frames) + Unsent(s) == Join(body)
    && (forall i :: 0 <= i < |s.frames| ==> GoodFrame(s.frames[i]))
    && s.window == s.granted - |Sent(s.frames)|
    && (s.ended ==> Unsent(s) == [])
  }

  lemma SentAppend(frames: seq<Frame>, fr: Frame)
    ensures Sent(frames + [fr]) == Sent(frames) + fr.data
  {
    assert (frames + [fr])[..|frames|] == frames;
  }

  /** Sending: the frame is not empty, within all limits, takes no window below zero, and shortens what is unsent. */
  lemma SendIsSound(f: Flow, id: Http2.StreamId, body: seq<Bytes>)
    requires id in f.streams && f.streams[id].pending != [] && Allowance(f, f.streams[id]) > 0
    requires Sound(f.streams[id], body)
    ensures var s, f' := f.streams[id], Send(f, id); var s' := f'.streams[id];
      && Sound(s', body) && |s'.frames| == |s.frames| + 1
      && f'.connWindow >= 0 && s'.window >= 0
      && |Unsent(s')| < |Unsent(s)|
      && f'.connWindow + |Sent(s'.frames)| == f.connWindow + |Sent(s.frames)|
  {
    var s, fr := f.streams[id], NextFrame(f, f.streams[id]);
    SentAppend(s.frames, fr);
    assert s.pending == fr.data + s.pending[|fr.data|..];
    assert fr.data + Unsent(Send(f, id).streams[id]) == Unsent(s);
    assert Sent(s.frames) + (fr.data + Unsent(Send(f, id).streams[id])) == Join(body);
  }

  lemma ChunkIsSound(s: Stream, body: seq<Bytes>)
    requires Sound(s, body) && s.pending == [] && s.later != []
    ensures Sound(s.(pending := s.later[0], later := s.later[1..]), body)
  {
    assert Unsent(s.(pending := s.later[0], later := s.later[1..])) == Unsent(s);
  }

  // ---- whole runs ----------------------------------------------------------

  function Body(steps: seq<Step>, id: Http2.StreamId): seq<Bytes>
  {
    if steps == [] then []
    else if Opened(steps[..|steps| - 1], id) then Body(steps[..|steps| - 1], id)
    else
      var step := steps[|steps| - 1];
      if step.OpenStream? && step.id == id then step.body else []
  }

  predicate Opened(steps: seq<Step>, id: Http2.StreamId) {
    exists i :: 0 <= i < |steps| && steps[i].OpenStream? && steps[i].id == id
  }

  predicate Sends(f: Flow, step: Step) {
    step.SendFrame? && step.id in f.streams && f.streams[step.id].pending != [] && Allowance(f, f.streams[step.id]) > 0
  }

  /** All body bytes sent so far, over every stream. */
  function Total(steps: seq<Step>, window: nat, maxFrame: nat): nat {
    if steps == [] then 0
    else
      var before, step := steps[..|steps| - 1], steps[|steps| - 1];
      var f := Run(window, maxFrame, before);
      Total(before, window, maxFrame) + (if Sends(f, step) then |NextFrame(f, f.streams[step.id]).data| else 0)
  }

  function Run(window: nat, maxFrame: nat, steps: seq<Step>): Flow
    decreases |steps|
  {
    if steps == [] then Flow(window, window, maxFrame, map[])
    else Next(Run(window, maxFrame, steps[..|steps| - 1]), steps[|steps| - 1])
  }

  lemma OpenedStep(steps: seq<Step>, id: Http2.StreamId)
    requires steps != []
    ensures var last := steps[|steps| - 1];
      Opened(steps, id) <==> Opened(steps[..|steps| - 1], id) || (last.OpenStream? && last.id == id)
  {
    var before := steps[..|steps| - 1];
    if Opened(before, id) {
      var i :| 0 <= i < |before| && before[i].OpenStream? && before[i].id == id;
      assert steps[i] == before[i];
    }
    if Opened(steps, id) {
      var i :| 0 <= i < |steps| && steps[i].OpenStream? && steps[i].id == id;
      assert i < |before| ==> before[i] == steps[i];
    }
  }

  /** One step keeps each open stream sound. */
  lemma StepIsSound(f: Flow, step: Step, id: Http2.StreamId, body: seq<Bytes>)
    requires id in f.streams && Sound(f.streams[id], body)
    ensures id in Next(f, step).streams && Sound(Next(f, step).streams[id], body)
  {
    match step
    case SendFrame(x) =>
      if x == id && f.streams[id].pending != [] && Allowance(f, f.streams[id]) > 0 {
        SendIsSound(f, id, body);
      }
    case NextChunk(x) =>
      if x == id && f.streams[id].pending == [] && f.streams[id].later != [] {
        ChunkIsSound(f.streams[id], body);
      }
    case _ =>
  }

  /**
    For every interleaving, the frames of a stream followed by what is unsent are its body; once the stream has
    been ended, the frames are the body. Every frame is non-empty and within the windows and the frame size.
   */
  lemma {:induction false} BodyArrives(window: nat, maxFrame: nat, steps: seq<Step>, id: Http2.StreamId)
    ensures var f := Run(window, maxFrame, steps);
      && (id in f.streams <==> Opened(steps, id))
      && (id in f.streams ==> Sound(f.streams[id], Body(steps, id)))
      && (id in f.streams && f.streams[id].ended ==> Sent(f.streams[id].frames) == Join(Body(steps, id)))
    decreases |steps|
  {
    if steps != [] {
      var before, step := steps[..|steps| - 1], steps[|steps| - 1];
      BodyArrives(window, maxFrame, before, id);
      OpenedStep(steps, id);
      var f := Run(window, maxFrame, before);
      if id in f.streams {
        StepIsSound(f, step, id, Body(steps, id));
      } else {
        StepOpens(f, step, id);
      }
    }
  }

  lemma StepOpens(f: Flow, step: Step, id: Http2.StreamId)
    requires id !in f.streams
    ensures id in Next(f, step).streams <==> step.OpenStream? && step.id == id
    ensures step.OpenStream? && step.id == id ==> Sound(Next(f, step).streams[id], step.body)
  {
  }

  /** The connection window is what was granted less what was sent, and is never negative. */
  lemma {:induction false} ConnectionWindow(window: nat, maxFrame: nat, steps: seq<Step>)
    ensures var f := Run(window, maxFrame, steps);
      f.connWindow == f.connGranted - Total(steps, window, maxFrame) && f.connWindow >= 0
    decreases |steps|
  {
    if steps != [] {
      ConnectionWindow(window, maxFrame, steps[..|steps| - 1]);
    }
  }

  /** What a stream has to send never grows, and each of its frames makes it shorter: a measure for the sending loop. */
  lemma UnsentIsMeasure(f: Flow, step: Step, id: Http2.StreamId, body: seq<Bytes>)
    requires id in f.streams && Sound(f.streams[id], body)
    ensures var f' := Next(f, step); id in f'.streams
    ensures var s, s' := f.streams[id], Next(f, step).streams[id];
      if Sends(f, step) && step.id == id then |Unsent(s')| < |Unsent(s)| else Unsent(s') == Unsent(s)
  {
    if Sends(f, step) && step.id == id {
      SendIsSound(f, id, body);
    }
  }

  /** The frames of a body are at most its bytes. */
  lemma FramesAreBounded(s: Stream, body: seq<Bytes>)
    requires Sound(s, body)
    ensures |s.frames| + |Unsent(s)| <= |Join(body)|
  {
    FramesCount(s.frames);
  }

  lemma {:induction false} FramesCount(frames: seq<Frame>)
    requires forall i :: 0 <= i < |frames| ==> GoodFrame(frames[i])
    ensures |frames| <= |Sent(frames)|
  {
    if frames != [] {
      FramesCount(frames[..|frames| - 1]);
    }
  }

  // ---- the sending loop ----------------------------------------------------

  /** What other tasks and the server may do while this stream waits: anything but act for it. */
  predicate Foreign(turn: seq<Step>, id: Http2.StreamId) {
    forall i :: 0 <= i < |turn| ==>
      !(turn[i].SendFrame? && turn[i].id == id) && !(turn[i].NextChunk? && turn[i].id == id)
        && !(turn[i].EndStream? && turn[i].id == id)
  }

  function Steps(f: Flow, turn: seq<Step>): Flow {
    if turn == [] then f else Next(Steps(f, turn[..|turn| - 1]), turn[|turn| - 1])
  }

  lemma {:induction false} ForeignLeavesStream(f: Flow, turn: seq<Step>, id: Http2.StreamId)
    requires id in f.streams && Foreign(turn, id)
    ensures id in Steps(f, turn).streams
    ensures var s, s' := f.streams[id], Steps(f, turn).streams[id];
      s'.pending == s.pending && s'.later == s.later && s'.frames == s.frames && s'.ended == s.ended
  {
    if turn != [] {
      ForeignLeavesStream(f, turn[..|turn| - 1], id);
    }
  }

  /** Waits, over turns of the network, until something may be sent; zero means the network ran out first. */
  method WaitForOutgoingFlow(f0: Flow, id: Http2.StreamId, turns: seq<seq<Step>>)
      returns (f: Flow, flow: nat, used: nat)
    requires id in f0.streams && forall i :: 0 <= i < |turns| ==> Foreign(turns[i], id)
    ensures used <= |turns| && id in f.streams
    ensures var s, s' := f0.streams[id], f.streams[id];
      s'.pending == s.pending && s'.later == s.later && s'.frames == s.frames && s'.ended == s.ended
    ensures flow > 0 ==> flow == Allowance(f, f.streams[id])
    ensures flow == 0 ==> used == |turns| && Allowance(f, f.streams[id]) <= 0
    ensures Allowance(f0, f0.streams[id]) > 0 ==> used == 0 && f == f0
  {
    f, used := f0, 0;
    while true
      invariant used <= |turns| && id in f.streams
      invariant var s, s' := f0.streams[id], f.streams[id];
        s'.pending == s.pending && s'.later == s.later && s'.frames == s.frames && s'.ended == s.ended
      invariant Allowance(f0, f0.streams[id]) > 0 ==> used == 0 && f == f0
      decreases |turns| - used
    {
      var localFlow := Http2.Min(f.connWindow, f.streams[id].window);
      var allowed := Http2.Min(localFlow, f.maxFrame);
      if allowed > 0 {
        return f, allowed, used;
      }
      if used == |turns| {
        return f, 0, used;
      }
      ForeignLeavesStream(f, turns[used], id);
      f := Steps(f, turns[used]);
      used := used + 1;
    }
  }

  /** The frames `fs` are non-empty, within their limits, and carry `data`. */
  ghost predicate Carries(fs: seq<Frame>, data: Bytes) {
    Sent(fs) == data && forall i :: 0 <= i < |fs| ==> GoodFrame(fs[i])
  }

  /** One chunk goes out in order, in non-empty frames; all of it unless the network runs out of turns. */
  method SendStreamData(f0: Flow, id: Http2.StreamId, data: Bytes, turns: seq<seq<Step>>)
      returns (f: Flow, position: nat, ghost sent: seq<Frame>)
    requires id in f0.streams && f0.streams[id].pending == data
    requires forall i :: 0 <= i < |turns| ==> Foreign(turns[i], id)
    ensures position <= |data| && id in f.streams
    ensures f.streams[id].frames == f0.streams[id].frames + sent && Carries(sent, data[..position])
    ensures f.streams[id].pending == data[position..] && f.streams[id].later == f0.streams[id].later
    ensures position < |data| ==> Allowance(f, f.streams[id]) <= 0
  {
    f, position, sent := f0, 0, [];
    var used: nat := 0;
    while position < |data|
      invariant position <= |data| && used <= |turns| && id in f.streams
      invariant f.streams[id].frames == f0.streams[id].frames + sent && Carries(sent, data[..position])
      invariant f.streams[id].pending == data[position..] && f.streams[id].later == f0.streams[id].later
      decreases |data| - position
    {
      var maxFlow, n;
      f, maxFlow, n := WaitForOutgoingFlow(f, id, turns[used..]);
      used := used + n;
      if maxFlow == 0 {
        return;
      }
      var chunk := data[position..Http2.Min(position + maxFlow, |data|)];
      ghost var frame := NextFrame(f, f.streams[id]);
      SendTakes(f, id, data, position);
      CarriesMore(sent, data, position, frame);
      Associates(f0.streams[id].frames, sent, [frame]);
      position := position + |chunk|;
      f := Send(f, id);
      sent := sent + [frame];
    }
  }

  /** Sending takes the next stretch of the chunk off what is pending. */
  lemma SendTakes(f: Flow, id: Http2.StreamId, data: Bytes, position: nat)
    requires id in f.streams && position < |data| && f.streams[id].pending == data[position..]
    requires Allowance(f, f.streams[id]) > 0
    ensures var s, s', frame := f.streams[id], Send(f, id).streams[id], NextFrame(f, f.streams[id]);
      && GoodFrame(frame) && position + |frame.data| <= |data|
      && frame.data == data[position..position + |frame.data|]
      && s'.frames == s.frames + [frame] && s'.later == s.later && s'.pending == data[position + |frame.data|..]
  {
  }

  lemma CarriesMore(fs: seq<Frame>, data: Bytes, position: nat, fr: Frame)
    requires position <= |data| && Carries(fs, data[..position]) && GoodFrame(fr) && fr.data <= data[position..]
    ensures var next := position + |fr.data|;
      next <= |data| && Carries(fs + [fr], data[..next]) && data[position..][|fr.data|..] == data[next..]
  {
    SentAppend(fs, fr);
    assert data[..position + |fr.data|] == data[..position] + fr.data;
  }
}
