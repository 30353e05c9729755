/** The values that travel through the per-connection voice pipeline. */
module Events {

  type Bytes = seq<bv8>

  datatype Option<T> = None | Some(value: T)

  /** The pipeline's event record, one constructor per `type` the core tells apart,
      each with only the fields that kind of event carries. `confidence` is an
      opaque payload that no stage inspects. */
  datatype Event =
    | SttOutput(text: string, isFinal: bool, confidence: real)
    | AgentChunk(text: string)
    | TtsChunk(audio: Bytes)
    | SystemCommand(text: string)
    | OtherEvent(kind: OtherKind, text: string)

  /** The `type` of an event that none of the stages handles specially (a log line, an
      error report); a record with one of the handled types is one of the other
      constructors instead. */
  type OtherKind = k: string | k != "stt_output" && k != "agent_chunk" && k != "tts_chunk" && k != "system_command"
    witness "log"

  /** An entry of a FIFO queue: a value, or the `None` that tells the consumer to stop. */
  datatype QItem<T> = Item(value: T) | Sentinel

  /** The whitespace characters of `str.strip()` and of the regular-expression class `\s`,
      restricted to the ASCII range. */
  predicate IsSpace(c: char)
  {
    c == ' ' || c == '\t' || c == '\n' || c == '\r' || c == '\U{0B}' || c == '\U{0C}'
    || ('\U{1C}' <= c <= '\U{1F}')
  }

  /** `not s.strip()`: the string is empty or made of whitespace only. */
  predicate IsBlank(s: string)
  {
    forall i :: 0 <= i < |s| ==> IsSpace(s[i])
  }

  /** A finished utterance: a final `stt_output` whose text is not empty. This is the
      test `event.type == "stt_output" and event.is_final and event.text`. */
  predicate IsUtterance(e: Event)
  {
    e.SttOutput? && e.isFinal && e.text != ""
  }

  /** The texts of the utterances among `es`, in order. */
  function Utterances(es: seq<Event>): (texts: seq<string>)
    ensures |texts| <= |es|
    ensures forall k :: 0 <= k < |texts| ==> texts[k] != ""
  {
    if es == [] then []
    else (if IsUtterance(es[0]) then [es[0].text] else []) + Utterances(es[1..])
  }

  lemma {:induction false} UtterancesAppend(xs: seq<Event>, ys: seq<Event>)
    ensures Utterances(xs + ys) == Utterances(xs) + Utterances(ys)
    decreases |xs|
  {
    if xs == [] {
      assert xs + ys == ys;
    } else {
      assert (xs + ys)[1..] == xs[1..] + ys;
      UtterancesAppend(xs[1..], ys);
    }
  }

  /** The events carried by a queue segment that holds no sentinel. */
  function Payloads<T>(q: seq<QItem<T>>): (vs: seq<T>)
    requires forall k :: 0 <= k < |q| ==> q[k].Item?
    ensures |vs| == |q|
    ensures forall k :: 0 <= k < |q| ==> vs[k] == q[k].value
  {
    if q == [] then [] else [q[0].value] + Payloads(q[1..])
  }

  lemma AppendAssociates<T>(a: seq<T>, b: seq<T>, c: seq<T>)
    ensures a + b + c == a + (b + c)
  {
  }

  /** Concatenation of a sequence of sequences. */
  function Concat<T>(ss: seq<seq<T>>): seq<T>
  {
    if ss == [] then [] else ss[0] + Concat(ss[1..])
  }

  lemma ConcatSingle<T>(x: seq<T>)
    ensures Concat([x]) == x
  {
    assert [x][1..] == [];
  }

  lemma {:induction false} ConcatAppend<T>(ss: seq<seq<T>>, ts: seq<seq<T>>)
    ensures Concat(ss + ts) == Concat(ss) + Concat(ts)
  {
    if ss == [] {
      assert ss + ts == ts;
    } else {
      assert (ss + ts)[1..] == ss[1..] + ts;
      ConcatAppend(ss[1..], ts);
    }
  }
}
