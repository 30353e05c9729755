/** Incremental sentence segmentation of the agent's streamed reply: tokens are
    appended to a text buffer, complete sentences are cut off as soon as a terminal
    mark followed by whitespace appears, and the unfinished tail is kept. */
module Segmenter {
  import opened Events

  predicate IsTerminal(c: char)
  {
    c == '.' || c == '!' || c == '?'
  }

  /** A sentence boundary at `i`: a terminal mark at `i` followed by whitespace, the
      place where `[.!?]\s+` matches. */
  predicate BoundaryAt(s: string, i: int)
  {
    0 <= i && i + 1 < |s| && IsTerminal(s[i]) && IsSpace(s[i + 1])
  }

  /** `re.search(r'[.!?]\s+', s)` finds a match. */
  predicate HasBoundary(s: string)
  {
    exists i :: 0 <= i < |s| && BoundaryAt(s, i)
  }

  /** A complete sentence part: not empty and ending in a terminal mark. */
  predicate Complete(part: string)
  {
    part != "" && IsTerminal(part[|part| - 1])
  }

  /** The first boundary at or after `from`, if there is one. */
  function FindBoundary(s: string, from: nat): (r: Option<nat>)
    ensures r.Some? ==> from <= r.value && BoundaryAt(s, r.value)
    ensures r.Some? ==> forall k :: from <= k < r.value ==> !BoundaryAt(s, k)
    ensures r.None? ==> forall k :: from <= k ==> !BoundaryAt(s, k)
    decreases |s| - from
  {
    if from + 1 >= |s| then None
    else if BoundaryAt(s, from) then Some(from)
    else FindBoundary(s, from + 1)
  }

  /** The end of the whitespace run that starts at `j`. */
  function SpaceRunEnd(s: string, j: nat): (k: nat)
    requires j <= |s|
    ensures j <= k <= |s|
    ensures forall m :: j <= m < k ==> IsSpace(s[m])
    ensures k < |s| ==> !IsSpace(s[k])
    decreases |s| - j
  {
    if j < |s| && IsSpace(s[j]) then SpaceRunEnd(s, j + 1) else j
  }

  /** `re.split(r'(?<=[.!?])\s+', s)`: cut after every terminal mark that is followed
      by whitespace, dropping that whitespace run. Scanning resumes after the run,
      whose last character is whitespace, so the lookbehind cannot match at the
      start of the remainder and splitting the remainder on its own is the same. */
  function Split(s: string): (parts: seq<string>)
    ensures parts != []
    decreases |s|
  {
    match FindBoundary(s, 0)
    case None => [s]
    case Some(i) =>
      var j := SpaceRunEnd(s, i + 1);
      [s[..i + 1]] + Split(s[j..])
  }

  /** Every part but the last is a complete sentence, no part holds a boundary, and
      there is more than one part exactly when `s` has a boundary. */
  lemma {:induction false} SplitShape(s: string)
    ensures forall k :: 0 <= k < |Split(s)| - 1 ==> Complete(Split(s)[k])
    ensures !HasBoundary(Split(s)[|Split(s)| - 1])
    ensures HasBoundary(s) <==> |Split(s)| > 1
    ensures forall k :: 0 <= k < |Split(s)| ==> !HasBoundary(Split(s)[k])
    decreases |s|
  {
    SplitCutsEveryBoundary(s);
    match FindBoundary(s, 0)
    case None =>
    case Some(i) =>
      var j := SpaceRunEnd(s, i + 1);
      var tail := Split(s[j..]);
      SplitShape(s[j..]);
      assert Split(s) == [s[..i + 1]] + tail;
      assert BoundaryAt(s, i);
  }

  /** The first part of a split is a prefix of the text. */
  lemma SplitHeadIsPrefix(s: string)
    ensures |Split(s)[0]| <= |s| && Split(s)[0] == s[..|Split(s)[0]|]
  {
    match FindBoundary(s, 0)
    case None =>
      assert s[..|s|] == s;
    case Some(i) =>
  }

  /** The text is cut at every boundary: no part holds a terminal mark followed by
      whitespace, and the whole whitespace run after each cut is dropped, so no part
      after the first starts with whitespace. */
  lemma {:induction false} SplitCutsEveryBoundary(s: string)
    ensures forall k :: 0 <= k < |Split(s)| ==> !HasBoundary(Split(s)[k])
    ensures forall k :: 0 < k < |Split(s)| && Split(s)[k] != "" ==> !IsSpace(Split(s)[k][0])
    decreases |s|
  {
    match FindBoundary(s, 0)
    case None =>
      assert Split(s) == [s];
    case Some(i) =>
      var j := SpaceRunEnd(s, i + 1);
      var head, rest := s[..i + 1], s[j..];
      var tail := Split(rest);
      assert Split(s) == [head] + tail;
      SplitCutsEveryBoundary(rest);
      HeadHasNoBoundary(s, i);
      SplitHeadIsPrefix(rest);
      if tail[0] != "" {
        assert tail[0][0] == rest[0] == s[j];
      }
      forall k | 0 < k < |Split(s)|
        ensures !HasBoundary(Split(s)[k])
        ensures Split(s)[k] != "" ==> !IsSpace(Split(s)[k][0])
      {
        assert Split(s)[k] == tail[k - 1];
      }
  }

  /** The text up to the first boundary's terminal mark holds no boundary. */
  lemma HeadHasNoBoundary(s: string, i: nat)
    requires i < |s| && forall k :: 0 <= k < i ==> !BoundaryAt(s, k)
    ensures !HasBoundary(s[..i + 1])
  {
    var head := s[..i + 1];
    forall k | 0 <= k < |head|
      ensures !BoundaryAt(head, k)
    {
      if k + 1 < |head| {
        assert head[k] == s[k] && head[k + 1] == s[k + 1];
        assert k < i && !BoundaryAt(s, k);
      }
    }
  }

  /** The whitespace runs `Split` drops, one between each two neighbouring parts. */
  function Gaps(s: string): seq<string>
    decreases |s|
  {
    match FindBoundary(s, 0)
    case None => []
    case Some(i) =>
      var j := SpaceRunEnd(s, i + 1);
      [s[i + 1..j]] + Gaps(s[j..])
  }

  /** The parts put back together with the runs dropped between them. */
  function Rejoin(parts: seq<string>, gaps: seq<string>): string
    requires |parts| == |gaps| + 1
    decreases |gaps|
  {
    if gaps == [] then parts[0] else parts[0] + gaps[0] + Rejoin(parts[1..], gaps[1..])
  }

  /** There is one dropped run between each two neighbouring parts, and each is
      non-empty whitespace. */
  lemma {:induction false} GapsAreRuns(s: string)
    ensures |Gaps(s)| == |Split(s)| - 1
    ensures forall k :: 0 <= k < |Gaps(s)| ==> Gaps(s)[k] != "" && IsBlank(Gaps(s)[k])
    decreases |s|
  {
    match FindBoundary(s, 0)
    case None =>
    case Some(i) =>
      var j := SpaceRunEnd(s, i + 1);
      var gap, rest := s[i + 1..j], s[j..];
      GapsAreRuns(rest);
      assert Split(s) == [s[..i + 1]] + Split(rest);
      var gaps := Gaps(s);
      assert gaps == [gap] + Gaps(rest);
      BlankRun(s, i + 1, j);
      assert j > i + 1 by {
        assert BoundaryAt(s, i);
      }
      forall k | 1 <= k < |gaps|
        ensures gaps[k] != "" && IsBlank(gaps[k])
      {
        assert gaps[k] == Gaps(rest)[k - 1];
      }
  }

  lemma RejoinCons(head: string, gap: string, parts: seq<string>, gaps: seq<string>)
    requires |parts| == |gaps| + 1
    ensures Rejoin([head] + parts, [gap] + gaps) == head + gap + Rejoin(parts, gaps)
  {
    assert ([head] + parts)[1..] == parts && ([gap] + gaps)[1..] == gaps;
  }

  /** Splitting only cuts: the text is its parts rejoined with the dropped runs. */
  lemma {:induction false} SplitRebuilds(s: string)
    ensures |Gaps(s)| == |Split(s)| - 1
    ensures Rejoin(Split(s), Gaps(s)) == s
    decreases |s|
  {
    GapsAreRuns(s);
    match FindBoundary(s, 0)
    case None =>
      assert Split(s) == [s];
    case Some(i) =>
      var j := SpaceRunEnd(s, i + 1);
      var head, gap, rest := s[..i + 1], s[i + 1..j], s[j..];
      SplitRebuilds(rest);
      assert Split(s) == [head] + Split(rest);
      assert Gaps(s) == [gap] + Gaps(rest);
      RejoinCons(head, gap, Split(rest), Gaps(rest));
      assert s == head + gap + rest;
  }

  /** The characters of `s` that are not whitespace, in order. */
  function NonSpace(s: string): string
  {
    if s == [] then [] else (if IsSpace(s[0]) then [] else [s[0]]) + NonSpace(s[1..])
  }

  lemma {:induction false} NonSpaceAppend(a: string, b: string)
    ensures NonSpace(a + b) == NonSpace(a) + NonSpace(b)
    decreases |a|
  {
    if a == [] {
      assert a + b == b;
    } else {
      assert (a + b)[1..] == a[1..] + b;
      NonSpaceAppend(a[1..], b);
      AppendAssociates(if IsSpace(a[0]) then [] else [a[0]], NonSpace(a[1..]), NonSpace(b));
    }
  }

  lemma {:induction false} NonSpaceOfBlank(s: string)
    requires IsBlank(s)
    ensures NonSpace(s) == []
    decreases |s|
  {
    if s != [] {
      NonSpaceOfBlank(s[1..]);
    }
  }

  /** Splitting drops only whitespace: the parts hold the same non-whitespace
      characters, in the same order, as the text that was split. */
  lemma {:induction false} SplitKeepsText(s: string)
    ensures NonSpace(Concat(Split(s))) == NonSpace(s)
    decreases |s|
  {
    match FindBoundary(s, 0)
    case None =>
      assert Split(s) == [s];
      ConcatSingle(s);
    case Some(i) =>
      var j := SpaceRunEnd(s, i + 1);
      var head, rest := s[..i + 1], s[j..];
      var tail := Split(rest);
      assert Split(s) == [head] + tail;
      ConcatAppend([head], tail);
      ConcatSingle(head);
      SplitKeepsText(rest);
      NonSpaceAppend(head, Concat(tail));
      BlankRun(s, i + 1, j);
      assert s == head + s[i + 1..j] + rest;
      DropBlank(head, s[i + 1..j], rest);
  }

  lemma BlankRun(s: string, i: nat, j: nat)
    requires i <= j <= |s|
    requires forall m :: i <= m < j ==> IsSpace(s[m])
    ensures IsBlank(s[i..j])
  {
    forall k | 0 <= k < j - i
      ensures IsSpace(s[i..j][k])
    {
      assert s[i..j][k] == s[i + k];
    }
  }

  /** Cutting out a run of whitespace keeps the non-whitespace text. */
  lemma DropBlank(a: string, gap: string, b: string)
    requires IsBlank(gap)
    ensures NonSpace(a + gap + b) == NonSpace(a) + NonSpace(b)
  {
    NonSpaceAppend(a + gap, b);
    NonSpaceAppend(a, gap);
    NonSpaceOfBlank(gap);
  }

  // ---------------------------------------------------------------------------
  // One token
  // ---------------------------------------------------------------------------

  /** The sentences emitted for one token and the buffer kept afterwards. */
  datatype Fed = Fed(sentences: seq<string>, rest: string)

  /** The parts that are not blank, in order (`if sentence.strip()`). */
  function NonBlank(parts: seq<string>): (kept: seq<string>)
    ensures |kept| <= |parts|
    ensures forall k :: 0 <= k < |kept| ==> kept[k] in parts && !IsBlank(kept[k])
    decreases |parts|
  {
    if parts == [] then []
    else
      var last := parts[|parts| - 1];
      NonBlank(parts[..|parts| - 1]) + (if IsBlank(last) then [] else [last])
  }

  /** Dropping blank parts drops no non-whitespace character. */
  lemma {:induction false} NonBlankKeepsText(parts: seq<string>)
    ensures NonSpace(Concat(NonBlank(parts))) == NonSpace(Concat(parts))
    decreases |parts|
  {
    if parts != [] {
      var init, last := parts[..|parts| - 1], parts[|parts| - 1];
      var kept := if IsBlank(last) then [] else [last];
      assert parts == init + [last];
      assert NonBlank(parts) == NonBlank(init) + kept;
      NonBlankKeepsText(init);
      ConcatAppend(NonBlank(init), kept);
      ConcatAppend(init, [last]);
      ConcatSingle(last);
      NonSpaceAppend(Concat(NonBlank(init)), Concat(kept));
      NonSpaceAppend(Concat(init), last);
      if IsBlank(last) {
        NonSpaceOfBlank(last);
      }
    }
  }

  /** Appending one token to the buffer and cutting off every complete sentence:
      the complete parts that are not blank are emitted and the last part is kept. */
  function Feed(buffer: string, token: string): Fed
  {
    var text := buffer + token;
    if HasBoundary(text) then
      var parts := Split(text);
      Fed(NonBlank(parts[..|parts| - 1]), parts[|parts| - 1])
    else Fed([], text)
  }

  /** Parts that are complete sentences are all kept. */
  lemma {:induction false} NonBlankKeepsComplete(parts: seq<string>)
    requires forall k :: 0 <= k < |parts| ==> Complete(parts[k])
    ensures NonBlank(parts) == parts
    decreases |parts|
  {
    if parts != [] {
      var last := parts[|parts| - 1];
      assert !IsSpace(last[|last| - 1]);
      NonBlankKeepsComplete(parts[..|parts| - 1]);
      assert parts == parts[..|parts| - 1] + [last];
    }
  }

  /** One token emits exactly the parts of the split of buffer and token but the last,
      and keeps the last: with `SplitCutsEveryBoundary` and `SplitRebuilds`, each
      emitted sentence is one sentence, cut at its terminal mark, with its text intact. */
  lemma FeedIsSplit(buffer: string, token: string)
    ensures Feed(buffer, token).sentences + [Feed(buffer, token).rest] == Split(buffer + token)
  {
    var text := buffer + token;
    if HasBoundary(text) {
      SplitShape(text);
      DoneAndLast(Split(text));
    } else {
      SplitWithoutBoundary(text);
    }
  }

  /** Text without a boundary is not cut. */
  lemma SplitWithoutBoundary(s: string)
    requires !HasBoundary(s)
    ensures Split(s) == [s]
  {
  }

  /** Emitting the non-blank parts but the last, then keeping the last, gives back the
      parts when all but the last are complete. */
  lemma DoneAndLast(parts: seq<string>)
    requires parts != [] && forall k :: 0 <= k < |parts| - 1 ==> Complete(parts[k])
    ensures NonBlank(parts[..|parts| - 1]) + [parts[|parts| - 1]] == parts
  {
    NonBlankKeepsComplete(parts[..|parts| - 1]);
  }

  /** Each sentence a token emits is a single sentence, and the sentences followed by
      the kept buffer, rejoined with the whitespace runs dropped between them, are
      exactly the old buffer followed by the token. */
  lemma FeedCutsOnlyAtBoundaries(buffer: string, token: string)
    ensures forall k :: 0 <= k < |Feed(buffer, token).sentences| ==> !HasBoundary(Feed(buffer, token).sentences[k])
    ensures |Gaps(buffer + token)| == |Feed(buffer, token).sentences|
    ensures forall k :: 0 <= k < |Gaps(buffer + token)| ==> Gaps(buffer + token)[k] != "" && IsBlank(Gaps(buffer + token)[k])
    ensures Rejoin(Feed(buffer, token).sentences + [Feed(buffer, token).rest], Gaps(buffer + token)) == buffer + token
  {
    var f := Feed(buffer, token);
    FeedIsSplit(buffer, token);
    CutParts(f.sentences, f.rest, buffer + token);
  }

  lemma CutParts(sentences: seq<string>, rest: string, s: string)
    requires sentences + [rest] == Split(s)
    ensures forall k :: 0 <= k < |sentences| ==> !HasBoundary(sentences[k])
    ensures |Gaps(s)| == |sentences|
    ensures forall k :: 0 <= k < |Gaps(s)| ==> Gaps(s)[k] != "" && IsBlank(Gaps(s)[k])
    ensures Rejoin(sentences + [rest], Gaps(s)) == s
  {
    SplitCutsEveryBoundary(s);
    SplitRebuilds(s);
    GapsAreRuns(s);
    forall k | 0 <= k < |sentences|
      ensures !HasBoundary(sentences[k])
    {
      assert sentences[k] == Split(s)[k];
    }
  }

  /** After a token the kept buffer holds no terminal mark followed by whitespace. */
  lemma FeedLeavesNoBoundary(buffer: string, token: string)
    ensures !HasBoundary(Feed(buffer, token).rest)
  {
    SplitShape(buffer + token);
  }

  /** Every sentence emitted while streaming is non-empty and ends in `.`, `!` or `?`. */
  lemma FeedEmitsCompleteSentences(buffer: string, token: string)
    ensures forall k :: 0 <= k < |Feed(buffer, token).sentences| ==> Complete(Feed(buffer, token).sentences[k])
  {
    var text := buffer + token;
    if HasBoundary(text) {
      var parts := Split(text);
      SplitShape(text);
      var done := parts[..|parts| - 1];
      assert forall p :: p in done ==> Complete(p);
    }
  }

  /** The emitted sentences followed by the kept buffer hold exactly the non-whitespace
      characters of the old buffer followed by the token. */
  lemma FeedKeepsText(buffer: string, token: string)
    ensures var f := Feed(buffer, token);
            NonSpace(Concat(f.sentences) + f.rest) == NonSpace(buffer + token)
  {
    var text := buffer + token;
    if HasBoundary(text) {
      var parts := Split(text);
      var done, last := parts[..|parts| - 1], parts[|parts| - 1];
      assert parts == done + [last];
      SplitKeepsText(text);
      NonBlankKeepsText(done);
      ConcatAppend(done, [last]);
      ConcatSingle(last);
      NonSpaceAppend(Concat(NonBlank(done)), last);
      NonSpaceAppend(Concat(done), last);
      assert Feed(buffer, token) == Fed(NonBlank(done), last);
    } else {
      assert Feed(buffer, token) == Fed([], text);
      assert Concat<char>([]) + text == text;
    }
  }

  /** A token that adds nothing leaves a well-formed buffer as it is. */
  lemma EmptyTokenKeepsBuffer(buffer: string)
    requires !HasBoundary(buffer)
    ensures Feed(buffer, "") == Fed([], buffer)
  {
    assert buffer + "" == buffer;
  }

  /** End of turn: a buffer that is not blank is emitted once and reset to the empty
      string; a blank buffer is neither emitted nor cleared. */
  function EndOfTurn(buffer: string): (f: Fed)
    ensures f.sentences == [] <==> IsBlank(buffer)
    ensures f.sentences != [] ==> f.sentences == [buffer] && f.rest == ""
    ensures f.sentences == [] ==> f.rest == buffer
  {
    if !IsBlank(buffer) then Fed([buffer], "") else Fed([], buffer)
  }

  /** The `text_buffer` of one `agent_stream` generator. */
  class SentenceBuffer {
    var textBuffer: string

    /** Between tokens the buffer never holds a complete sentence. */
    ghost predicate Valid()
      reads this
    {
      !HasBoundary(textBuffer)
    }

    constructor ()
      ensures Valid() && textBuffer == ""
    {
      textBuffer := "";
    }

    /** Append one token; emit every complete non-blank sentence, keep the tail. */
    method Push(token: string) returns (sentences: seq<string>)
      requires Valid()
      modifies this
      ensures Valid()
      ensures Fed(sentences, textBuffer) == Feed(old(textBuffer), token)
    {
      FeedLeavesNoBoundary(textBuffer, token);
      textBuffer := textBuffer + token;
      sentences := [];
      if HasBoundary(textBuffer) {
        var parts := Split(textBuffer);
        for i := 0 to |parts| - 1
          invariant sentences == NonBlank(parts[..i])
        {
          assert parts[..i + 1][..i] == parts[..i];
          if !IsBlank(parts[i]) {
            sentences := sentences + [parts[i]];
          }
        }
        textBuffer := parts[|parts| - 1];
      }
    }

    /** Flush what is left at the end of the agent's reply. */
    method EndTurn() returns (flushed: seq<string>)
      requires Valid()
      modifies this
      ensures Valid()
      ensures Fed(flushed, textBuffer) == EndOfTurn(old(textBuffer))
    {
      flushed := [];
      if !IsBlank(textBuffer) {
        flushed := [textBuffer];
        textBuffer := "";
        assert !HasBoundary(textBuffer);
      }
    }
  }
}
