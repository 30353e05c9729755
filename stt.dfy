/** The speech-to-text stage of the voice pipeline: audio chunks are taken from the
    connection's audio queue, a recognition session is opened at each WebM header,
    the session is rotated after four minutes, and recognition responses become
    `stt_output` events. */
module Stt {
  import opened Events

  /** Seconds a recognition session may stream before it is rotated. */
  const StreamLimit: int := 240

  /** The EBML magic number every WebM stream starts with. */
  const Magic: Bytes := [0x1A, 0x45, 0xDF, 0xA3]

  predicate StartsWithMagic(chunk: Bytes)
  {
    |chunk| >= |Magic| && chunk[..|Magic|] == Magic
  }

  // ---------------------------------------------------------------------------
  // Requests of one session
  // ---------------------------------------------------------------------------

  /** A streaming recognition request: the configuration, or some audio. */
  datatype Request = ConfigRequest | AudioRequest(content: Bytes)

  /** The audio requests for chunks taken from the queue: empty chunks are skipped. */
  function AudioRequests(chunks: seq<Bytes>): (rs: seq<Request>)
    ensures |rs| <= |chunks|
    ensures forall k :: 0 <= k < |rs| ==> rs[k].AudioRequest? && rs[k].content != []
    decreases |chunks|
  {
    if chunks == [] then []
    else
      var last := chunks[|chunks| - 1];
      AudioRequests(chunks[..|chunks| - 1]) + Sent(last)
  }

  /** The requests of a session opened at `header` that has forwarded `chunks`:
      the configuration first, then the header, then the chunks in queue order. */
  function SessionRequests(header: Bytes, chunks: seq<Bytes>): seq<Request>
  {
    [ConfigRequest, AudioRequest(header)] + AudioRequests(chunks)
  }

  /** The order the recogniser expects: configuration, a WebM header, then non-empty audio. */
  predicate WellFormedSession(s: seq<Request>)
  {
    |s| >= 2 && s[0] == ConfigRequest && s[1].AudioRequest? && StartsWithMagic(s[1].content)
    && forall k :: 2 <= k < |s| ==> s[k].AudioRequest? && s[k].content != []
  }

  lemma SessionRequestsWellFormed(header: Bytes, chunks: seq<Bytes>)
    requires StartsWithMagic(header)
    ensures WellFormedSession(SessionRequests(header, chunks))
  {
    var s := SessionRequests(header, chunks);
    assert forall k :: 2 <= k < |s| ==> s[k] == AudioRequests(chunks)[k - 2];
  }

  /** The audio bytes a request sequence carries, in order. */
  function AudioBytes(rs: seq<Request>): Bytes
    decreases |rs|
  {
    if rs == [] then []
    else AudioBytes(rs[..|rs| - 1]) + (if rs[|rs| - 1].AudioRequest? then rs[|rs| - 1].content else [])
  }

  lemma {:induction false} AudioBytesAppend(xs: seq<Request>, ys: seq<Request>)
    ensures AudioBytes(xs + ys) == AudioBytes(xs) + AudioBytes(ys)
    decreases |ys|
  {
    if ys == [] {
      assert xs + ys == xs;
    } else {
      var init := ys[..|ys| - 1];
      assert (xs + ys)[..|xs + ys| - 1] == xs + init;
      AudioBytesAppend(xs, init);
    }
  }

  /** Skipping empty chunks loses no audio: the audio requests carry exactly the
      bytes of the chunks, in order. */
  lemma {:induction false} AudioRequestsCarryChunks(chunks: seq<Bytes>)
    ensures AudioBytes(AudioRequests(chunks)) == Concat(chunks)
    decreases |chunks|
  {
    if chunks != [] {
      var init, last := chunks[..|chunks| - 1], chunks[|chunks| - 1];
      AudioRequestsCarryChunks(init);
      AudioBytesAppend(AudioRequests(init), Sent(last));
      SentBytes(last);
      assert chunks == init + [last];
      ConcatAppend(init, [last]);
      ConcatSingle(last);
    }
  }

  /** The request for one chunk, if any, carries exactly its bytes. */
  lemma SentBytes(chunk: Bytes)
    ensures AudioBytes(Sent(chunk)) == chunk
  {
    if chunk != [] {
      assert Sent(chunk)[..0] == [];
    }
  }

  /** The recogniser of one session receives the header followed by every chunk taken
      from the queue during the session, byte for byte. */
  lemma SessionCarriesAudio(header: Bytes, chunks: seq<Bytes>)
    ensures AudioBytes(SessionRequests(header, chunks)) == header + Concat(chunks)
  {
    var opening := [ConfigRequest, AudioRequest(header)];
    AudioBytesAppend(opening, AudioRequests(chunks));
    OpeningBytes(header);
    AudioRequestsCarryChunks(chunks);
  }

  lemma OpeningBytes(header: Bytes)
    ensures AudioBytes([ConfigRequest, AudioRequest(header)]) == header
  {
    var opening := [ConfigRequest, AudioRequest(header)];
    assert opening[..1] == [ConfigRequest];
    assert [ConfigRequest][..0] == [];
    assert AudioBytes([ConfigRequest]) == [];
  }

  /** The request, if any, for one chunk taken from the queue. */
  function Sent(chunk: Bytes): seq<Request>
  {
    if chunk != [] then [AudioRequest(chunk)] else []
  }

  lemma SessionRequestsAppend(header: Bytes, chunks: seq<Bytes>, chunk: Bytes)
    ensures SessionRequests(header, chunks + [chunk]) == SessionRequests(header, chunks) + Sent(chunk)
  {
    assert (chunks + [chunk])[..|chunks|] == chunks;
  }

  // ---------------------------------------------------------------------------
  // Responses
  // ---------------------------------------------------------------------------

  datatype Alternative = Alternative(transcript: string, confidence: real)
  datatype RecognitionResult = RecognitionResult(alternatives: seq<Alternative>, isFinal: bool)
  datatype Response = Response(results: seq<RecognitionResult>)

  /** The event a recognition response yields: none for a response without results,
      without alternatives, or with a blank transcript; otherwise the first
      alternative's transcript and confidence with the first result's finality. */
  function ResponseEvent(r: Response): (e: Option<Event>)
    ensures e.Some? <==> r.results != [] && r.results[0].alternatives != []
                         && !IsBlank(r.results[0].alternatives[0].transcript)
    ensures e.Some? ==> e.value.SttOutput? && e.value.text != [] && !IsBlank(e.value.text)
    ensures e.Some? ==> e.value.text == r.results[0].alternatives[0].transcript
                        && e.value.isFinal == r.results[0].isFinal
  {
    if r.results == [] then None
    else
      var result := r.results[0];
      if result.alternatives == [] then None
      else
        var best := result.alternatives[0];
        if IsBlank(best.transcript) then None
        else Some(SttOutput(best.transcript, result.isFinal, best.confidence))
  }

  // ---------------------------------------------------------------------------
  // Waiting for a header
  // ---------------------------------------------------------------------------

  /** The number of chunks discarded while waiting for a header: the leading chunks
      that do not start with the magic number. */
  function Discarded(q: seq<QItem<Bytes>>): (n: nat)
    ensures n <= |q|
    ensures forall k :: 0 <= k < n ==> q[k].Item? && !StartsWithMagic(q[k].value)
    ensures n < |q| ==> q[n].Sentinel? || StartsWithMagic(q[n].value)
    decreases |q|
  {
    if q == [] || q[0].Sentinel? || StartsWithMagic(q[0].value) then 0
    else 1 + Discarded(q[1..])
  }

  // ---------------------------------------------------------------------------
  // The loop
  // ---------------------------------------------------------------------------

  /** Where `stt_stream` is: waiting for a header chunk; streaming a session (with
      the time its request stream started, once it has); letting a session whose
      request stream has ended deliver its last responses; or finished. */
  datatype Phase = WaitHeader | Streaming(start: Option<int>) | Draining | Stopped

  /** The errors the session loop tells apart. */
  datatype Failure = OutOfRange | InvalidArgument | OtherError

  /** `stt_stream` over the connection's audio queue. The request generator and the
      response loop run interleaved; each method is one step of one of them. */
  class SttLoop {
    /** The audio queue, as far as it has been filled. */
    var audio: seq<QItem<Bytes>>
    var phase: Phase
    /** The requests of every session opened so far, the current one last. */
    var sessions: seq<seq<Request>>
    /** How many `rotate_audio` messages were sent to the client. */
    var rotations: nat
    /** The `stt_output` events yielded so far. */
    var events: seq<Event>
    /** The current session's header and the chunks it has taken from the queue. */
    ghost var header: Bytes
    ghost var taken: seq<Bytes>

    ghost predicate Valid()
      reads this
    {
      (forall k :: 0 <= k < |sessions| ==> WellFormedSession(sessions[k]))
      && ((phase.Streaming? || phase.Draining?) ==>
            sessions != [] && StartsWithMagic(header)
            && sessions[|sessions| - 1] == SessionRequests(header, taken))
    }

    constructor ()
      ensures Valid()
      ensures audio == [] && phase == WaitHeader && sessions == [] && rotations == 0 && events == []
    {
      audio := [];
      phase := WaitHeader;
      sessions := [];
      rotations := 0;
      events := [];
      header := [];
      taken := [];
    }

    /** The reader puts a chunk, or the end-of-audio sentinel, on the queue. */
    method Put(item: QItem<Bytes>)
      modifies this
      ensures audio == old(audio) + [item]
      ensures phase == old(phase) && sessions == old(sessions) && rotations == old(rotations) && events == old(events)
      ensures header == old(header) && taken == old(taken)
    {
      audio := audio + [item];
    }

    /** Take chunks until one starts with the magic number, discarding the others. A
        header opens a session whose first requests are the configuration and the
        header; the sentinel ends the loop; an exhausted queue leaves the loop
        waiting. */
    method AwaitHeader()
      requires Valid() && phase == WaitHeader
      modifies this
      ensures Valid()
      ensures var n := Discarded(old(audio));
              if n == |old(audio)| then
                audio == [] && phase == WaitHeader && sessions == old(sessions)
              else if old(audio)[n].Sentinel? then
                audio == old(audio)[n + 1..] && phase == Stopped && sessions == old(sessions)
              else
                audio == old(audio)[n + 1..] && phase == Streaming(None)
                && sessions == old(sessions) + [[ConfigRequest, AudioRequest(old(audio)[n].value)]]
      ensures rotations == old(rotations) && events == old(events)
    {
      var rest := audio;
      var dropped := 0;
      while rest != [] && rest[0].Item? && !StartsWithMagic(rest[0].value)
        invariant 0 <= dropped <= |audio| && rest == audio[dropped..]
        invariant Discarded(audio) == dropped + Discarded(rest)
        decreases |rest|
      {
        assert rest[1..] == audio[dropped + 1..];
        rest := rest[1..];
        dropped := dropped + 1;
      }
      if rest == [] {
        audio := [];
        return;
      }
      assert Discarded(rest) == 0;
      var item := rest[0];
      audio := rest[1..];
      if item.Sentinel? {
        phase := Stopped;
      } else {
        header := item.value;
        taken := [];
        sessions := sessions + [[ConfigRequest, AudioRequest(item.value)]];
        assert AudioRequests([]) == [];
        SessionRequestsWellFormed(header, taken);
        phase := Streaming(None);
      }
    }

    /** One turn of the request generator at clock reading `now`: the first turn
        records the start time; past the time limit the client is told to rotate and
        the request stream ends; otherwise one chunk is taken, if there is one, and
        sent when it is not empty. The sentinel ends the loop. */
    method Poll(now: int)
      requires Valid() && phase.Streaming?
      requires phase.start.Some? ==> phase.start.value <= now
      modifies this
      ensures Valid()
      ensures var start := if old(phase).start.Some? then old(phase).start.value else now;
              if now - start > StreamLimit then
                phase == Draining && rotations == old(rotations) + 1
                && audio == old(audio) && sessions == old(sessions)
              else if old(audio) == [] then
                phase == Streaming(Some(start)) && rotations == old(rotations)
                && audio == [] && sessions == old(sessions)
              else if old(audio)[0].Sentinel? then
                phase == Stopped && rotations == old(rotations)
                && audio == old(audio)[1..] && sessions == old(sessions)
              else
                var chunk := old(audio)[0].value;
                phase == Streaming(Some(start)) && rotations == old(rotations) && audio == old(audio)[1..]
                && sessions == old(sessions)[|old(sessions)| - 1 := old(sessions)[|old(sessions)| - 1] + Sent(chunk)]
      ensures events == old(events)
    {
      var start := if phase.start.Some? then phase.start.value else now;
      if now - start > StreamLimit {
        rotations := rotations + 1;
        phase := Draining;
        return;
      }
      if audio == [] {
        phase := Streaming(Some(start));
        return;
      }
      var item := audio[0];
      audio := audio[1..];
      if item.Sentinel? {
        phase := Stopped;
        return;
      }
      Forward(item.value);
      phase := Streaming(Some(start));
    }

    /** Send one chunk taken from the queue in the current session, unless it is empty. */
    method Forward(chunk: Bytes)
      requires Valid() && phase.Streaming?
      modifies this
      ensures Valid()
      ensures sessions == old(sessions)[|old(sessions)| - 1 := old(sessions)[|old(sessions)| - 1] + Sent(chunk)]
      ensures audio == old(audio) && phase == old(phase) && rotations == old(rotations) && events == old(events)
    {
      var n := |sessions| - 1;
      SessionRequestsAppend(header, taken, chunk);
      taken := taken + [chunk];
      SessionRequestsWellFormed(header, taken);
      sessions := sessions[n := sessions[n] + Sent(chunk)];
    }

    /** One recognition response of the current session. */
    method Recognised(r: Response)
      requires Valid() && (phase.Streaming? || phase.Draining?)
      modifies this
      ensures Valid()
      ensures events == old(events) + (match ResponseEvent(r) case Some(e) => [e] case None => [])
      ensures audio == old(audio) && phase == old(phase) && sessions == old(sessions) && rotations == old(rotations)
    {
      match ResponseEvent(r)
      case Some(e) => events := events + [e];
      case None =>
    }

    /** The recogniser ends the response stream: go back to waiting for a header. */
    method ResponsesEnd()
      requires Valid() && (phase.Streaming? || phase.Draining?)
      modifies this
      ensures Valid()
      ensures phase == WaitHeader
      ensures audio == old(audio) && sessions == old(sessions) && rotations == old(rotations) && events == old(events)
    {
      phase := WaitHeader;
    }

    /** The session fails. An out-of-range or invalid-argument error asks the client
        to rotate (a failed send is ignored); every error returns the loop to waiting
        for a header rather than ending it. */
    method Fail(failure: Failure, sendOk: bool)
      requires Valid() && (phase.Streaming? || phase.Draining?)
      modifies this
      ensures Valid()
      ensures phase == WaitHeader
      ensures rotations == old(rotations) + (if failure != OtherError && sendOk then 1 else 0)
      ensures audio == old(audio) && sessions == old(sessions) && events == old(events)
    {
      if failure == OutOfRange || failure == InvalidArgument {
        if sendOk {
          rotations := rotations + 1;
        }
      }
      phase := WaitHeader;
    }
  }

  /** A session is rotated at the first poll more than 240 seconds after its start and
      not before: chunks taken up to exactly 240 seconds are still sent, and the poll
      past the limit asks the client to rotate once and leaves the queue as it is. */
  method RotationAtLimit(header: Bytes, c1: Bytes, c2: Bytes, c3: Bytes, t0: int)
    returns (sent: seq<Request>, rotations: nat, left: seq<QItem<Bytes>>, draining: bool)
    requires StartsWithMagic(header) && c1 != [] && c2 != []
    ensures sent == [ConfigRequest, AudioRequest(header), AudioRequest(c1), AudioRequest(c2)]
    ensures rotations == 1 && left == [Item(c3)] && draining
  {
    var loop := StreamTwoChunks(header, c1, c2, c3, t0);
    loop.Poll(t0 + StreamLimit + 1);
    sent, rotations, left, draining := loop.sessions[0], loop.rotations, loop.audio, loop.phase == Draining;
  }

  /** The first two polls of `RotationAtLimit`: at `t0` and at exactly `t0 + StreamLimit`
      each forwards one chunk. */
  method StreamTwoChunks(header: Bytes, c1: Bytes, c2: Bytes, c3: Bytes, t0: int) returns (loop: SttLoop)
    requires StartsWithMagic(header) && c1 != [] && c2 != []
    ensures fresh(loop) && loop.Valid()
    ensures loop.sessions == [[ConfigRequest, AudioRequest(header), AudioRequest(c1), AudioRequest(c2)]]
    ensures loop.audio == [Item(c3)] && loop.phase == Streaming(Some(t0)) && loop.rotations == 0
  {
    var opening := [ConfigRequest, AudioRequest(header)];
    assert Sent(c1) == [AudioRequest(c1)] && Sent(c2) == [AudioRequest(c2)];
    var first := [ConfigRequest, AudioRequest(header), AudioRequest(c1)];
    var second := [ConfigRequest, AudioRequest(header), AudioRequest(c1), AudioRequest(c2)];
    assert opening + Sent(c1) == first && first + Sent(c2) == second;
    assert [opening][0 := first] == [first] && [first][0 := second] == [second];
    loop := OpenSession(header, [Item(c1), Item(c2), Item(c3)]);
    loop.Poll(t0);
    assert loop.sessions == [first] && loop.audio == [Item(c2), Item(c3)];
    loop.Poll(t0 + StreamLimit);
  }

  /** A fresh loop that has found `header` at the head of the queue, with `rest` behind it. */
  method OpenSession(header: Bytes, rest: seq<QItem<Bytes>>) returns (loop: SttLoop)
    requires StartsWithMagic(header)
    ensures fresh(loop) && loop.Valid()
    ensures loop.phase == Streaming(None) && loop.audio == rest && loop.rotations == 0
    ensures loop.sessions == [[ConfigRequest, AudioRequest(header)]]
  {
    loop := new SttLoop();
    loop.Put(Item(header));
    var i := 0;
    while i < |rest|
      invariant 0 <= i <= |rest|
      invariant loop.Valid() && loop.phase == WaitHeader && loop.sessions == [] && loop.rotations == 0
      invariant loop.audio == [Item(header)] + rest[..i]
      modifies loop
    {
      loop.Put(rest[i]);
      assert rest[..i + 1] == rest[..i] + [rest[i]];
      i := i + 1;
    }
    assert rest[..i] == rest;
    assert Discarded(loop.audio) == 0;
    loop.AwaitHeader();
  }

  /** When the reader never queues an empty chunk, as `Gate.Connection` guarantees,
      every chunk the session takes is sent, one request each, in order. */
  lemma {:induction false} NonEmptyChunksAllSent(chunks: seq<Bytes>)
    requires forall k :: 0 <= k < |chunks| ==> chunks[k] != []
    ensures |AudioRequests(chunks)| == |chunks|
    ensures forall k :: 0 <= k < |chunks| ==> AudioRequests(chunks)[k] == AudioRequest(chunks[k])
    decreases |chunks|
  {
    if chunks != [] {
      var init := chunks[..|chunks| - 1];
      NonEmptyChunksAllSent(init);
      assert AudioRequests(chunks) == AudioRequests(init) + [AudioRequest(chunks[|chunks| - 1])];
    }
  }
}
