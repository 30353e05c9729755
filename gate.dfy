/** The per-connection hub of the WebSocket endpoint: the reader task that splits
    inbound frames into an audio queue and an event queue, the buffer gate that
    applies the listen-only policy to the event queue, and the writer that sends
    the pipeline's results back over the socket. */
module Gate {
  import opened Events

  /** The command the reader puts on the event queue to make the gate release its buffer. */
  const FlushCommand: Event := SystemCommand("flush_buffer")

  /** `" ".join(parts)`. */
  function Join(parts: seq<string>): string
    decreases |parts|
  {
    if parts == [] then ""
    else if |parts| == 1 then parts[0]
    else parts[0] + " " + Join(parts[1..])
  }

  predicate NonEmptyTexts(parts: seq<string>)
  {
    forall k :: 0 <= k < |parts| ==> parts[k] != ""
  }

  /** Joining two non-empty runs puts exactly one space between them. */
  lemma {:induction false} JoinConcat(xs: seq<string>, ys: seq<string>)
    requires xs != [] && ys != []
    ensures Join(xs + ys) == Join(xs) + " " + Join(ys)
    decreases |xs|
  {
    if |xs| == 1 {
      assert (xs + ys)[1..] == ys;
    } else {
      assert (xs + ys)[1..] == xs[1..] + ys;
      JoinConcat(xs[1..], ys);
    }
  }

  /** A joined buffer grows by one space and the new text, so arrival order is kept. */
  lemma JoinAppend(parts: seq<string>, s: string)
    requires parts != []
    ensures Join(parts + [s]) == Join(parts) + " " + s
  {
    JoinConcat(parts, [s]);
  }

  /** Joining texts that are all non-empty gives the empty string only for no texts. */
  lemma JoinIsEmptyOnlyForNone(parts: seq<string>)
    requires NonEmptyTexts(parts)
    ensures Join(parts) == "" <==> parts == []
  {
    if parts != [] {
      assert |Join(parts)| >= |parts[0]| > 0;
    }
  }

  /** Two runs of non-empty texts that join to the same string still do so when
      the same texts follow them. */
  lemma JoinCongruence(xs: seq<string>, ys: seq<string>, zs: seq<string>)
    requires NonEmptyTexts(xs) && NonEmptyTexts(ys)
    requires Join(xs) == Join(ys)
    ensures Join(xs + zs) == Join(ys + zs)
  {
    JoinIsEmptyOnlyForNone(xs);
    JoinIsEmptyOnlyForNone(ys);
    if zs == [] {
      assert xs + zs == xs && ys + zs == ys;
    } else if xs == [] {
      assert xs + zs == zs && ys + zs == zs;
    } else {
      JoinConcat(xs, zs);
      JoinConcat(ys, zs);
    }
  }

  // ---------------------------------------------------------------------------
  // The gate's policy for one dequeued event
  // ---------------------------------------------------------------------------

  /** What one pass of the gate loop produces: the new transcript buffer, the events
      it yields downstream and the texts it echoes to the client as `user_transcript`. */
  datatype Step = Step(buffer: seq<string>, out: seq<Event>, echo: seq<string>)

  /** The gate's handling of one event that is not the stop signal, under the
      current mode and buffer. */
  function GateStep(listenOnly: bool, buffer: seq<string>, e: Event): Step
  {
    if e == FlushCommand then
      if buffer != [] then Step([], [SttOutput(Join(buffer), true, 0.0)], [])
      else Step(buffer, [], [])
    else
      var echo := if IsUtterance(e) then [e.text] else [];
      if !listenOnly then Step(buffer, [e], echo)
      else if IsUtterance(e) then Step(buffer + [e.text], [], echo)
      else if e.SttOutput? then Step(buffer, [], echo)
      else Step(buffer, [e], echo)
  }

  /** A flush of a non-empty buffer yields exactly one final `stt_output` holding the
      buffered texts joined by single spaces in arrival order, echoes nothing, and
      empties the buffer; the flush command itself is not passed on. */
  lemma FlushReleasesBuffer(listenOnly: bool, buffer: seq<string>)
    requires buffer != []
    ensures GateStep(listenOnly, buffer, FlushCommand)
         == Step([], [SttOutput(Join(buffer), true, 0.0)], [])
  {
  }

  /** A flush of an empty buffer yields nothing and changes nothing. */
  lemma FlushOfEmptyBufferIsSilent(listenOnly: bool)
    ensures GateStep(listenOnly, [], FlushCommand) == Step([], [], [])
  {
  }

  /** In listen-only mode an utterance is buffered and withheld, any other
      `stt_output` is dropped, and every other event is forwarded unchanged. */
  lemma ListenOnlyPolicy(buffer: seq<string>, e: Event)
    requires e != FlushCommand
    ensures IsUtterance(e) ==> GateStep(true, buffer, e) == Step(buffer + [e.text], [], [e.text])
    ensures e.SttOutput? && !IsUtterance(e) ==> GateStep(true, buffer, e) == Step(buffer, [], [])
    ensures !e.SttOutput? ==> GateStep(true, buffer, e) == Step(buffer, [e], [])
  {
  }

  /** In interactive mode every event but the flush is forwarded unchanged and the
      buffer is left alone; utterances are also echoed to the client. */
  lemma InteractivePolicy(buffer: seq<string>, e: Event)
    requires e != FlushCommand
    ensures GateStep(false, buffer, e).out == [e]
    ensures GateStep(false, buffer, e).buffer == buffer
    ensures GateStep(false, buffer, e).echo == if IsUtterance(e) then [e.text] else []
  {
  }

  // ---------------------------------------------------------------------------
  // The gate loop over a queue, with the mode held fixed
  // ---------------------------------------------------------------------------

  /** The gate loop run over the queue `q` while the mode stays `listenOnly`: it stops
      at the first sentinel (or when the queue is exhausted). */
  function RunGate(listenOnly: bool, buffer: seq<string>, q: seq<QItem<Event>>): Step
    decreases |q|
  {
    if q == [] || q[0].Sentinel? then Step(buffer, [], [])
    else
      var s := GateStep(listenOnly, buffer, q[0].value);
      var r := RunGate(listenOnly, s.buffer, q[1..]);
      Step(r.buffer, s.out + r.out, s.echo + r.echo)
  }

  predicate NoSentinel(q: seq<QItem<Event>>)
  {
    forall k :: 0 <= k < |q| ==> q[k].Item?
  }

  lemma NoSentinelSnoc(xs: seq<QItem<Event>>, y: QItem<Event>)
    ensures NoSentinel(xs + [y]) <==> NoSentinel(xs) && y.Item?
  {
    assert (xs + [y])[|xs|] == y;
    assert forall k :: 0 <= k < |xs| ==> (xs + [y])[k] == xs[k];
  }

  /** Taking the next item of a queue from position `k` on. */
  lemma TakeOne(q: seq<QItem<Event>>, k: nat)
    requires k < |q|
    ensures q[k..][1..] == q[k + 1..] && q[k..][0] == q[k]
    ensures NoSentinel(q[..k + 1]) <==> NoSentinel(q[..k]) && q[k].Item?
  {
    assert q[..k + 1] == q[..k] + [q[k]];
    NoSentinelSnoc(q[..k], q[k]);
  }

  /** The gate over a queue whose head is an event: that event's step, then the rest. */
  lemma RunGateHead(listenOnly: bool, buffer: seq<string>, q: seq<QItem<Event>>, sent: seq<Event>, echoed: seq<string>)
    requires q != [] && q[0].Item?
    ensures var s := GateStep(listenOnly, buffer, q[0].value);
            var r := RunGate(listenOnly, s.buffer, q[1..]);
            RunGate(listenOnly, buffer, q).buffer == r.buffer
            && sent + RunGate(listenOnly, buffer, q).out == sent + s.out + r.out
            && echoed + RunGate(listenOnly, buffer, q).echo == echoed + s.echo + r.echo
  {
    var s := GateStep(listenOnly, buffer, q[0].value);
    var r := RunGate(listenOnly, s.buffer, q[1..]);
    AppendAssociates(sent, s.out, r.out);
    AppendAssociates(echoed, s.echo, r.echo);
  }

  /** Running the gate over a queue segment without a sentinel and then over what
      follows is the same as running it over the whole queue. */
  lemma {:induction false} RunGateAppend(listenOnly: bool, buffer: seq<string>, xs: seq<QItem<Event>>, ys: seq<QItem<Event>>)
    requires NoSentinel(xs)
    ensures var r1 := RunGate(listenOnly, buffer, xs);
            var r2 := RunGate(listenOnly, r1.buffer, ys);
            RunGate(listenOnly, buffer, xs + ys) == Step(r2.buffer, r1.out + r2.out, r1.echo + r2.echo)
    decreases |xs|
  {
    if xs == [] {
      assert xs + ys == ys;
    } else {
      assert (xs + ys)[0] == xs[0];
      assert (xs + ys)[1..] == xs[1..] + ys;
      var s := GateStep(listenOnly, buffer, xs[0].value);
      RunGateAppend(listenOnly, s.buffer, xs[1..], ys);
      var r1 := RunGate(listenOnly, s.buffer, xs[1..]);
      var r2 := RunGate(listenOnly, r1.buffer, ys);
      AppendAssociates(s.out, r1.out, r2.out);
      AppendAssociates(s.echo, r1.echo, r2.echo);
    }
  }

  /** The gate stops at the first sentinel: nothing queued behind it is ever output,
      buffered or echoed. */
  lemma SentinelEndsGate(listenOnly: bool, buffer: seq<string>, xs: seq<QItem<Event>>, ys: seq<QItem<Event>>)
    requires NoSentinel(xs)
    ensures RunGate(listenOnly, buffer, xs + [Sentinel] + ys) == RunGate(listenOnly, buffer, xs)
  {
    RunGateAppend(listenOnly, buffer, xs, [Sentinel] + ys);
    assert xs + [Sentinel] + ys == xs + ([Sentinel] + ys);
    RunGateAppend(listenOnly, buffer, xs, []);
    assert xs + [] == xs;
  }

  predicate NoFlush(es: seq<Event>)
  {
    forall k :: 0 <= k < |es| ==> es[k] != FlushCommand
  }

  /** In interactive mode the gate forwards every event of a flush-free queue segment
      unchanged and in dequeue order, and leaves the buffer untouched. */
  lemma {:induction false} InteractiveForwardsInOrder(buffer: seq<string>, q: seq<QItem<Event>>)
    requires NoSentinel(q) && NoFlush(Payloads(q))
    ensures RunGate(false, buffer, q).out == Payloads(q)
    ensures RunGate(false, buffer, q).buffer == buffer
    decreases |q|
  {
    if q != [] {
      assert Payloads(q[1..]) == Payloads(q)[1..];
      InteractiveForwardsInOrder(buffer, q[1..]);
    }
  }

  /** The non-speech events of `es`: everything that is not an `stt_output`. */
  function NonSpeech(es: seq<Event>): (r: seq<Event>)
    ensures forall k :: 0 <= k < |r| ==> !r[k].SttOutput?
  {
    if es == [] then []
    else (if es[0].SttOutput? then [] else [es[0]]) + NonSpeech(es[1..])
  }

  /** In listen-only mode the gate appends every utterance of a flush-free queue
      segment to the buffer, in order, forwards only the non-speech events, and
      echoes each buffered utterance to the client. */
  lemma {:induction false} ListenOnlyWithholds(buffer: seq<string>, q: seq<QItem<Event>>)
    requires NoSentinel(q) && NoFlush(Payloads(q))
    ensures RunGate(true, buffer, q).buffer == buffer + Utterances(Payloads(q))
    ensures RunGate(true, buffer, q).out == NonSpeech(Payloads(q))
    ensures RunGate(true, buffer, q).echo == Utterances(Payloads(q))
    decreases |q|
  {
    if q != [] {
      var es := Payloads(q);
      assert Payloads(q[1..]) == es[1..];
      var s := GateStep(true, buffer, es[0]);
      ListenOnlyWithholds(s.buffer, q[1..]);
      var heard := if IsUtterance(es[0]) then [es[0].text] else [];
      assert s.buffer == buffer + heard;
      AppendAssociates(buffer, heard, Utterances(es[1..]));
    }
  }

  /** Listen-only utterances followed by a flush reach downstream as exactly one final
      transcript, the space-joined utterances in arrival order, after the non-speech
      events that were forwarded meanwhile; the buffer ends empty. */
  lemma ListenThenFlush(q: seq<QItem<Event>>)
    requires NoSentinel(q) && NoFlush(Payloads(q))
    ensures var r := RunGate(true, [], q + [Item(FlushCommand)]);
            var said := Utterances(Payloads(q));
            r.buffer == []
            && r.out == NonSpeech(Payloads(q)) + (if said == [] then [] else [SttOutput(Join(said), true, 0.0)])
  {
    RunGateAppend(true, [], q, [Item(FlushCommand)]);
    ListenOnlyWithholds([], q);
    assert [] + Utterances(Payloads(q)) == Utterances(Payloads(q));
  }

  /** Two listen-only transcripts released by one flush: one final transcript, the
      first text, a space, the second text. */
  lemma TwoBufferedFinals(a: string, b: string, ca: real, cb: real)
    requires a != "" && b != ""
    ensures RunGate(true, [], [Item(SttOutput(a, true, ca)), Item(SttOutput(b, true, cb)), Item(FlushCommand)])
         == Step([], [SttOutput(a + " " + b, true, 0.0)], [a, b])
  {
    var e1, e2 := SttOutput(a, true, ca), SttOutput(b, true, cb);
    var joined := SttOutput(a + " " + b, true, 0.0);
    var q := [Item(e1), Item(e2), Item(FlushCommand)];
    assert Join([a, b]) == a + " " + b;
    assert GateStep(true, [], e1) == Step([a], [], [a]);
    assert GateStep(true, [a], e2) == Step([a, b], [], [b]);
    assert GateStep(true, [a, b], FlushCommand) == Step([], [joined], []);
    assert q[1..] == [Item(e2), Item(FlushCommand)] && q[1..][1..] == [Item(FlushCommand)];
    assert RunGate(true, [], q[1..][1..][1..]) == Step([], [], []);
    assert RunGate(true, [a, b], q[1..][1..]) == Step([], [joined], []);
    assert RunGate(true, [a], q[1..]) == Step([], [joined], [b]);
  }

  /** Two transcripts spoken in listen-only mode, then a switch to interactive mode. */
  lemma ListenOnlyScenario()
    ensures RunGate(true, [],
              [Item(SttOutput("I would pick a hash map", true, 0.9)),
               Item(SttOutput("it's O(1) average", true, 0.8)),
               Item(FlushCommand)]).out
         == [SttOutput("I would pick a hash map it's O(1) average", true, 0.0)]
  {
    TwoBufferedFinals("I would pick a hash map", "it's O(1) average", 0.9, 0.8);
    assert "I would pick a hash map" + " " + "it's O(1) average" == "I would pick a hash map it's O(1) average";
  }

  // ---------------------------------------------------------------------------
  // The connection: reader task, STT producer and gate task over shared state
  // ---------------------------------------------------------------------------

  /** A text frame, as `json.loads` and the `type` test see it. */
  datatype TextMessage =
    | ConfigMessage(listenOnly: Option<bool>)  // {"type": "config", ...}; None when the key is missing
    | OtherMessage                             // valid JSON of any other type
    | Unparsable                               // not JSON, or not an object

  /** What one `websocket.receive()` hands the reader; `Closed` is a disconnect or a
      receive error, either of which ends the reader. */
  datatype Frame = BinaryIn(data: Bytes) | TextIn(message: TextMessage) | Closed

  /** The state shared by the reader and the gate (the `state` dictionary and both
      queues), with the gate's output so far. */
  class Connection {
    var listenOnly: bool
    var buffer: seq<string>
    var audio: seq<QItem<Bytes>>
    var events: seq<QItem<Event>>
    var forwarded: seq<Event>
    var echoes: seq<string>
    var readerDone: bool
    var gateDone: bool

    /** Buffered texts are never empty and no zero-length audio chunk is ever queued. */
    ghost predicate Valid()
      reads this
    {
      NonEmptyTexts(buffer)
      && forall k :: 0 <= k < |audio| && audio[k].Item? ==> audio[k].value != []
    }

    constructor ()
      ensures Valid()
      ensures !listenOnly && buffer == [] && audio == [] && events == []
      ensures forwarded == [] && echoes == [] && !readerDone && !gateDone
    {
      listenOnly := false;
      buffer := [];
      audio := [];
      events := [];
      forwarded := [];
      echoes := [];
      readerDone := false;
      gateDone := false;
    }

    /** One pass of the reader loop. Non-empty binary frames go onto the audio queue;
        a config message enqueues a flush only when it switches listen-only off, and
        the flag takes the new value at once; any other text frame changes nothing;
        when the reader ends, one sentinel goes onto each queue. */
    method Receive(f: Frame)
      requires Valid() && !readerDone
      modifies this
      ensures Valid()
      ensures buffer == old(buffer) && forwarded == old(forwarded) && echoes == old(echoes)
      ensures gateDone == old(gateDone)
      ensures f.BinaryIn? ==>
                audio == old(audio) + (if f.data != [] then [Item(f.data)] else [])
                && events == old(events) && listenOnly == old(listenOnly) && !readerDone
      ensures f.TextIn? && f.message.ConfigMessage? ==>
                var newMode := if f.message.listenOnly.Some? then f.message.listenOnly.value else false;
                events == old(events) + (if old(listenOnly) && !newMode then [Item(FlushCommand)] else [])
                && listenOnly == newMode && audio == old(audio) && !readerDone
      ensures f.TextIn? && !f.message.ConfigMessage? ==>
                events == old(events) && listenOnly == old(listenOnly) && audio == old(audio) && !readerDone
      ensures f.Closed? ==>
                audio == old(audio) + [Sentinel] && events == old(events) + [Sentinel]
                && listenOnly == old(listenOnly) && readerDone
    {
      match f
      case BinaryIn(data) =>
        if |data| > 0 {
          audio := audio + [Item(data)];
        }
      case TextIn(message) =>
        if message.ConfigMessage? {
          var newMode := if message.listenOnly.Some? then message.listenOnly.value else false;
          if listenOnly && !newMode {
            events := events + [Item(FlushCommand)];
          }
          listenOnly := newMode;
        }
      case Closed =>
        audio := audio + [Sentinel];
        events := events + [Sentinel];
        readerDone := true;
    }

    /** The recognition producer puts one event on the event queue. */
    method Publish(e: Event)
      modifies this
      ensures events == old(events) + [Item(e)]
      ensures listenOnly == old(listenOnly) && buffer == old(buffer) && audio == old(audio)
      ensures forwarded == old(forwarded) && echoes == old(echoes)
      ensures readerDone == old(readerDone) && gateDone == old(gateDone)
    {
      events := events + [Item(e)];
    }

    /** The recognition producer failed: it puts a sentinel on the event queue. */
    method PublisherFailed()
      modifies this
      ensures events == old(events) + [Sentinel]
      ensures listenOnly == old(listenOnly) && buffer == old(buffer) && audio == old(audio)
      ensures forwarded == old(forwarded) && echoes == old(echoes)
      ensures readerDone == old(readerDone) && gateDone == old(gateDone)
    {
      events := events + [Sentinel];
    }

    /** One pass of the gate loop. It takes the head of the event queue if there is one
        and the gate has not stopped: a sentinel stops the gate for good; any other
        event is handled by `GateStep` under the flag as it is NOW, which the reader
        may already have changed. */
    method GateDequeue() returns (took: bool)
      requires Valid()
      modifies this
      ensures Valid()
      ensures took <==> !old(gateDone) && old(events) != []
      ensures listenOnly == old(listenOnly) && audio == old(audio) && readerDone == old(readerDone)
      ensures !took ==> events == old(events) && buffer == old(buffer) && forwarded == old(forwarded)
                        && echoes == old(echoes) && gateDone == old(gateDone)
      ensures took && old(events)[0].Sentinel? ==>
                events == old(events)[1..] && gateDone && buffer == old(buffer)
                && forwarded == old(forwarded) && echoes == old(echoes)
      ensures took && old(events)[0].Item? ==>
                var s := GateStep(old(listenOnly), old(buffer), old(events)[0].value);
                events == old(events)[1..] && !gateDone && buffer == s.buffer
                && forwarded == old(forwarded) + s.out && echoes == old(echoes) + s.echo
    {
      if gateDone || events == [] {
        return false;
      }
      took := true;
      var head := events[0];
      events := events[1..];
      match head
      case Sentinel =>
        gateDone := true;
      case Item(e) =>
        var s := GateStep(listenOnly, buffer, e);
        buffer := s.buffer;
        forwarded := forwarded + s.out;
        echoes := echoes + s.echo;
    }

    /** The gate loop while the reader leaves the mode alone: dequeue until the queue
        is empty or a sentinel stops the gate. It produces what `RunGate` gives for
        the queue as it stood, and stops exactly when the queue held a sentinel. */
    method RunGateLoop()
      requires Valid() && !gateDone
      modifies this
      ensures Valid()
      ensures var r := RunGate(old(listenOnly), old(buffer), old(events));
              buffer == r.buffer && forwarded == old(forwarded) + r.out && echoes == old(echoes) + r.echo
      ensures gateDone <==> !NoSentinel(old(events))
      ensures !gateDone ==> events == []
      ensures listenOnly == old(listenOnly) && audio == old(audio) && readerDone == old(readerDone)
    {
      ghost var taken := 0;
      while !gateDone && events != []
        invariant Valid()
        invariant listenOnly == old(listenOnly) && audio == old(audio) && readerDone == old(readerDone)
        invariant 0 <= taken <= |old(events)| && events == old(events)[taken..]
        invariant gateDone <==> !NoSentinel(old(events)[..taken])
        invariant var whole := RunGate(old(listenOnly), old(buffer), old(events));
                  var left := if gateDone then Step(buffer, [], []) else RunGate(listenOnly, buffer, events);
                  left.buffer == whole.buffer
                  && forwarded + left.out == old(forwarded) + whole.out
                  && echoes + left.echo == old(echoes) + whole.echo
        decreases |events|
      {
        TakeOne(old(events), taken);
        DequeueAlongRun();
        taken := taken + 1;
      }
      assert forall k :: 0 <= k < taken ==> old(events)[..taken][k] == old(events)[k];
      if !gateDone {
        assert old(events)[..taken] == old(events);
      }
    }

    /** One pass of the gate loop, seen against `RunGate`: what has been sent, followed
        by what the gate will still send for the queue left, is unchanged. */
    method DequeueAlongRun()
      requires Valid() && !gateDone && events != []
      modifies this
      ensures Valid()
      ensures events == old(events)[1..] && (gateDone <==> old(events)[0].Sentinel?)
      ensures listenOnly == old(listenOnly) && audio == old(audio) && readerDone == old(readerDone)
      ensures var whole := RunGate(old(listenOnly), old(buffer), old(events));
              var left := if gateDone then Step(buffer, [], []) else RunGate(listenOnly, buffer, events);
              left.buffer == whole.buffer
              && forwarded + left.out == old(forwarded) + whole.out
              && echoes + left.echo == old(echoes) + whole.echo
    {
      if events[0].Item? {
        RunGateHead(listenOnly, buffer, events, forwarded, echoes);
      }
      var took := GateDequeue();
    }
  }

  /** Switching listen-only off while an utterance is still queued: the flag changes at
      once but the flush waits behind that utterance, so the later utterance `second`
      reaches downstream before the earlier, buffered `first`. */
  method ModeSwitchReorders(first: string, second: string, cf: real, cs: real) returns (sent: seq<Event>)
    requires first != "" && second != ""
    ensures sent == [SttOutput(second, true, cs), SttOutput(first, true, 0.0)]
  {
    var b := SttOutput(second, true, cs);
    ReorderSteps(first, second, cf, cs);
    var c := BufferWhileListening(first, cf);
    c.Publish(b);
    c.Receive(TextIn(ConfigMessage(Some(false))));
    assert c.events == [Item(b), Item(FlushCommand)] && !c.listenOnly;
    var took := c.GateDequeue();
    assert c.forwarded == [b] && c.buffer == [first] && c.events == [Item(FlushCommand)];
    took := c.GateDequeue();
    sent := c.forwarded;
  }

  /** A fresh connection switched to listen-only whose gate has buffered `first`. */
  method BufferWhileListening(first: string, cf: real) returns (c: Connection)
    requires first != ""
    ensures fresh(c) && c.Valid()
    ensures c.listenOnly && c.buffer == [first] && c.forwarded == [] && c.events == []
    ensures !c.readerDone && !c.gateDone
  {
    ReorderSteps(first, "-", cf, 0.0);
    c := new Connection();
    c.Receive(TextIn(ConfigMessage(Some(true))));
    c.Publish(SttOutput(first, true, cf));
    var took := c.GateDequeue();
  }

  /** The three gate steps of the reordering scenario. */
  lemma ReorderSteps(first: string, second: string, cf: real, cs: real)
    requires first != "" && second != ""
    ensures GateStep(true, [], SttOutput(first, true, cf)) == Step([first], [], [first])
    ensures GateStep(false, [first], SttOutput(second, true, cs)) == Step([first], [SttOutput(second, true, cs)], [second])
    ensures GateStep(false, [first], FlushCommand) == Step([], [SttOutput(first, true, 0.0)], [])
  {
    assert Join([first]) == first;
  }

  // ---------------------------------------------------------------------------
  // Corrected gate: the mode is owned by the gate and switched through the queue
  // ---------------------------------------------------------------------------

  /** What the reader would queue if the gate alone owned the mode: events, and mode
      switches in the place they occur among them. */
  datatype GateInput = Deliver(e: Event) | SetMode(listenOnly: bool)

  datatype GateState = GateState(listenOnly: bool, buffer: seq<string>, out: seq<Event>)

  /** The corrected gate: a switch from listen-only to interactive flushes the buffer at
      the switch's own place in the queue; events are handled as by `GateStep`. */
  function OwnedStep(s: GateState, x: GateInput): GateState
  {
    match x
    case SetMode(m) =>
      if s.listenOnly && !m then
        var r := GateStep(false, s.buffer, FlushCommand);
        GateState(m, r.buffer, s.out + r.out)
      else GateState(m, s.buffer, s.out)
    case Deliver(e) =>
      var r := GateStep(s.listenOnly, s.buffer, e);
      GateState(s.listenOnly, r.buffer, s.out + r.out)
  }

  function OwnedGate(s: GateState, xs: seq<GateInput>): GateState
    decreases |xs|
  {
    if xs == [] then s else OwnedGate(OwnedStep(s, xs[0]), xs[1..])
  }

  /** The utterances delivered to the gate, in queue order. */
  function Spoken(xs: seq<GateInput>): (texts: seq<string>)
    ensures NonEmptyTexts(texts)
  {
    if xs == [] then []
    else (if xs[0].Deliver? && IsUtterance(xs[0].e) then [xs[0].e.text] else []) + Spoken(xs[1..])
  }

  /** Buffered texts are non-empty, and only listen-only mode holds any. */
  ghost predicate Consistent(s: GateState)
  {
    NonEmptyTexts(s.buffer) && (s.listenOnly || s.buffer == [])
  }

  /** What the agent has been told so far, followed by what is still held back. */
  function Reading(s: GateState): seq<string>
  {
    Utterances(s.out) + s.buffer
  }

  lemma NonEmptyTextsAppend(xs: seq<string>, ys: seq<string>)
    requires NonEmptyTexts(xs) && NonEmptyTexts(ys)
    ensures NonEmptyTexts(xs + ys)
  {
  }

  lemma ReadingNonEmpty(s: GateState)
    requires NonEmptyTexts(s.buffer)
    ensures NonEmptyTexts(Reading(s))
  {
    NonEmptyTextsAppend(Utterances(s.out), s.buffer);
  }

  lemma SpokenOne(x: GateInput)
    ensures Spoken([x]) == if x.Deliver? && IsUtterance(x.e) then [x.e.text] else []
  {
    assert [x][1..] == [];
  }

  /** Releasing a non-empty buffer as one joined transcript leaves the joined reading
      unchanged. */
  lemma FlushKeepsReading(s: GateState, m: bool)
    requires NonEmptyTexts(s.buffer) && s.buffer != []
    ensures Join(Reading(GateState(m, [], s.out + [SttOutput(Join(s.buffer), true, 0.0)]))) == Join(Reading(s))
  {
    var released := SttOutput(Join(s.buffer), true, 0.0);
    UtterancesAppend(s.out, [released]);
    JoinIsEmptyOnlyForNone(s.buffer);
    assert Utterances([released]) == [Join(s.buffer)] by {
      assert [released][1..] == [];
    }
    var done := Utterances(s.out);
    assert Reading(GateState(m, [], s.out + [released])) == done + [Join(s.buffer)];
    if done == [] {
      assert done + [Join(s.buffer)] == [Join(s.buffer)];
      assert Reading(s) == s.buffer;
    } else {
      JoinConcat(done, [Join(s.buffer)]);
      JoinConcat(done, s.buffer);
    }
  }

  /** Delivering an event other than the flush keeps the reading exactly: the event is
      forwarded, buffered at the end, or is not an utterance. */
  lemma DeliverKeepsReading(s: GateState, e: Event)
    requires Consistent(s) && e != FlushCommand
    ensures Consistent(OwnedStep(s, Deliver(e)))
    ensures Reading(OwnedStep(s, Deliver(e))) == Reading(s) + Spoken([Deliver(e)])
  {
    var said := if IsUtterance(e) then [e.text] else [];
    SpokenOne(Deliver(e));
    assert Utterances([e]) == said by {
      assert [e][1..] == [];
    }
    if !s.listenOnly {
      InteractivePolicy(s.buffer, e);
      assert OwnedStep(s, Deliver(e)) == GateState(false, [], s.out + [e]);
      UtterancesAppend(s.out, [e]);
    } else if IsUtterance(e) {
      ListenOnlyPolicy(s.buffer, e);
      assert OwnedStep(s, Deliver(e)) == GateState(true, s.buffer + [e.text], s.out);
      AppendAssociates(Utterances(s.out), s.buffer, [e.text]);
    } else if e.SttOutput? {
      ListenOnlyPolicy(s.buffer, e);
      assert OwnedStep(s, Deliver(e)) == s;
    } else {
      ListenOnlyPolicy(s.buffer, e);
      assert OwnedStep(s, Deliver(e)) == GateState(true, s.buffer, s.out + [e]);
      UtterancesAppend(s.out, [e]);
    }
  }

  /** One step of the corrected gate keeps it consistent, and what has reached downstream
      followed by what is buffered still reads as every utterance in arrival order. */
  lemma OwnedStepKeepsOrder(s: GateState, x: GateInput)
    requires Consistent(s)
    ensures Consistent(OwnedStep(s, x))
    ensures Join(Reading(OwnedStep(s, x))) == Join(Reading(s) + Spoken([x]))
  {
    SpokenOne(x);
    if x.Deliver? && x.e != FlushCommand {
      DeliverKeepsReading(s, x.e);
    } else {
      assert Reading(s) + Spoken([x]) == Reading(s);
      var flushes := if x.SetMode? then s.listenOnly && !x.listenOnly else true;
      var m := if x.SetMode? then x.listenOnly else s.listenOnly;
      if flushes && s.buffer != [] {
        assert OwnedStep(s, x) == GateState(m, [], s.out + [SttOutput(Join(s.buffer), true, 0.0)]);
        FlushKeepsReading(s, m);
      } else {
        assert OwnedStep(s, x) == GateState(m, s.buffer, s.out);
      }
    }
  }

  lemma {:induction false} SpokenAppend(xs: seq<GateInput>, ys: seq<GateInput>)
    ensures Spoken(xs + ys) == Spoken(xs) + Spoken(ys)
    decreases |xs|
  {
    if xs == [] {
      assert xs + ys == ys;
    } else {
      assert (xs + ys)[1..] == xs[1..] + ys;
      SpokenAppend(xs[1..], ys);
    }
  }

  /** A step that keeps the joined reading keeps it whatever is delivered after it. */
  lemma ExtendReading(now: seq<string>, was: seq<string>, x: GateInput, rest: seq<GateInput>)
    requires NonEmptyTexts(now) && NonEmptyTexts(was)
    requires Join(now) == Join(was + Spoken([x]))
    ensures Join(now + Spoken(rest)) == Join(was + Spoken([x] + rest))
  {
    var first, later := Spoken([x]), Spoken(rest);
    NonEmptyTextsAppend(was, first);
    JoinCongruence(now, was + first, later);
    SpokenAppend([x], rest);
    AppendAssociates(was, first, later);
  }

  /** The corrected gate delivers every utterance exactly once and in arrival order: at
      any point, the transcripts forwarded so far followed by the buffer join to the
      same text as the utterances delivered to it. */
  lemma {:induction false} OwnedGateKeepsOrder(s: GateState, xs: seq<GateInput>)
    requires Consistent(s)
    ensures Consistent(OwnedGate(s, xs))
    ensures Join(Reading(OwnedGate(s, xs))) == Join(Reading(s) + Spoken(xs))
    decreases |xs|
  {
    if xs == [] {
      assert Reading(s) + Spoken(xs) == Reading(s);
    } else {
      var n := OwnedStep(s, xs[0]);
      OwnedStepKeepsOrder(s, xs[0]);
      OwnedGateKeepsOrder(n, xs[1..]);
      ReadingNonEmpty(s);
      ReadingNonEmpty(n);
      ExtendReading(Reading(n), Reading(s), xs[0], xs[1..]);
      assert [xs[0]] + xs[1..] == xs;
    }
  }

  /** The switch that reorders under the as-written reader, replayed on the corrected
      gate: both utterances arrive together, in order, as one transcript. */
  lemma OwnedSwitchKeepsOrder()
    ensures OwnedGate(GateState(true, ["a"], []), [Deliver(SttOutput("b", true, 0.7)), SetMode(false)])
         == GateState(false, [], [SttOutput("a b", true, 0.0)])
  {
    var s1 := OwnedStep(GateState(true, ["a"], []), Deliver(SttOutput("b", true, 0.7)));
    assert s1 == GateState(true, ["a", "b"], []);
    assert Join(["a", "b"]) == "a b";
  }

  // ---------------------------------------------------------------------------
  // Output writer
  // ---------------------------------------------------------------------------

  /** An outbound WebSocket frame. */
  datatype OutFrame = BinaryOut(audio: Bytes) | TextOut(text: string)

  /** The frame the writer sends for one event of the final stream, if any: synthesized
      audio as bytes, agent text as text, nothing for other events. */
  function FrameFor(e: Event): Option<OutFrame>
  {
    if e.TtsChunk? then Some(BinaryOut(e.audio))
    else if e.AgentChunk? then Some(TextOut(e.text))
    else None
  }

  function Outbound(es: seq<Event>): seq<OutFrame>
    decreases |es|
  {
    if es == [] then []
    else
      var last := FrameFor(es[|es| - 1]);
      Outbound(es[..|es| - 1]) + (if last.Some? then [last.value] else [])
  }

  /** The writer loop over the final event stream. */
  method WriteOut(es: seq<Event>) returns (frames: seq<OutFrame>)
    ensures frames == Outbound(es)
  {
    frames := [];
    for i := 0 to |es|
      invariant frames == Outbound(es[..i])
    {
      assert es[..i + 1][..i] == es[..i];
      match FrameFor(es[i])
      case Some(frame) => frames := frames + [frame];
      case None =>
    }
    assert es[..|es|] == es;
  }

  /** The events the writer has something to send for: audio and agent text. */
  function Responses(es: seq<Event>): (r: seq<Event>)
    ensures forall k :: 0 <= k < |r| ==> r[k].TtsChunk? || r[k].AgentChunk?
    decreases |es|
  {
    if es == [] then []
    else
      var last := es[|es| - 1];
      Responses(es[..|es| - 1]) + (if last.TtsChunk? || last.AgentChunk? then [last] else [])
  }

  /** The event a client reads back from a frame. */
  function Received(f: OutFrame): Event
  {
    match f
    case BinaryOut(audio) => TtsChunk(audio)
    case TextOut(text) => AgentChunk(text)
  }

  function ReceivedAll(fs: seq<OutFrame>): seq<Event>
  {
    if fs == [] then [] else [Received(fs[0])] + ReceivedAll(fs[1..])
  }

  lemma {:induction false} ReceivedAllAppend(fs: seq<OutFrame>, gs: seq<OutFrame>)
    ensures ReceivedAll(fs + gs) == ReceivedAll(fs) + ReceivedAll(gs)
    decreases |fs|
  {
    if fs == [] {
      assert fs + gs == gs;
    } else {
      assert (fs + gs)[1..] == fs[1..] + gs;
      ReceivedAllAppend(fs[1..], gs);
    }
  }

  /** The frames sent carry exactly the audio and agent-text events of the stream, one
      frame each, in order, and nothing else. */
  lemma {:induction false} OutboundCarriesResponses(es: seq<Event>)
    ensures ReceivedAll(Outbound(es)) == Responses(es)
    decreases |es|
  {
    if es != [] {
      var init := es[..|es| - 1];
      OutboundCarriesResponses(init);
      var last := FrameFor(es[|es| - 1]);
      ReceivedAllAppend(Outbound(init), if last.Some? then [last.value] else []);
    }
  }
}
