/** The retrieval part of `chat`: the labels the vector index returns for
    the question are turned into context lines through `faiss_mapping`, and
    the context and the question are put into the prompt template. */
module ChatContext {
  import opened FaceStore
  import opened Text

  /** Number of neighbours asked of the index. */
  const K: nat := 5

  const EmptyMessageWarning := "\U{26A0}\U{FE0F} Empty message."

  /** `line` is the sentence of some registration of `mapping`. */
  ghost predicate DescribesSome(mapping: seq<Registration>, line: string)
  {
    exists i :: 0 <= i < |mapping| && line == Describe(mapping[i])
  }

  /** One line per returned label that is a position of `mapping`, in label
      order. */
  function ContextLines(mapping: seq<Registration>, labels: seq<int>): (lines: seq<string>)
    ensures |lines| <= |labels|
    ensures lines == [] <==> forall k :: 0 <= k < |labels| ==> !(0 <= labels[k] < |mapping|)
    ensures forall n :: 0 <= n < |lines| ==> DescribesSome(mapping, lines[n])
  {
    if labels == [] then []
    else
      var rest := ContextLines(mapping, labels[1..]);
      if 0 <= labels[0] < |mapping| then
        var r := [Describe(mapping[labels[0]])] + rest;
        assert forall n :: 1 <= n < |r| ==> r[n] == rest[n - 1];
        r
      else rest
  }

  /** When every label is a position of the mapping (the index had at least
      `K` vectors), there is exactly one line per label, describing the
      registration at that position. */
  lemma {:induction false} ContextLinesAllValid(mapping: seq<Registration>, labels: seq<int>)
    requires forall k :: 0 <= k < |labels| ==> 0 <= labels[k] < |mapping|
    ensures |ContextLines(mapping, labels)| == |labels|
    ensures forall n :: 0 <= n < |labels| ==> ContextLines(mapping, labels)[n] == Describe(mapping[labels[n]])
  {
    if labels != [] {
      ContextLinesAllValid(mapping, labels[1..]);
    }
  }

  /** Labels are filtered one at a time and in order: the lines of two runs
      of labels are the lines of the first run followed by those of the second. */
  lemma {:induction false} ContextLinesConcat(mapping: seq<Registration>, a: seq<int>, b: seq<int>)
    ensures ContextLines(mapping, a + b) == ContextLines(mapping, a) + ContextLines(mapping, b)
  {
    if a == [] {
      assert a + b == b;
    } else {
      assert (a + b)[1..] == a[1..] + b;
      ContextLinesConcat(mapping, a[1..], b);
    }
  }

  /** A single label gives the line of the registration at that position
      when it is one, and nothing otherwise (FAISS's -1 padding included). */
  lemma ContextLinesSingle(mapping: seq<Registration>, hit: int)
    ensures ContextLines(mapping, [hit]) == if 0 <= hit < |mapping| then [Describe(mapping[hit])] else []
  {
    assert [hit][1..] == [];
  }

  /** The context block exactly as the source builds it, with Python's list
      indexing for `faiss_mapping[i]`: the filter `i < len(faiss_mapping)`
      lets negative labels through, a negative position counts from the end,
      and one below `-len` raises (`None` here). */
  function ContextLinesAsWritten(mapping: seq<Registration>, labels: seq<int>): (r: Option<seq<string>>)
    ensures r.Some? ==> |r.value| <= |labels|
  {
    if labels == [] then Some([])
    else
      var i := labels[0];
      var rest := ContextLinesAsWritten(mapping, labels[1..]);
      if i >= |mapping| then rest
      else if i < -|mapping| then None
      else
        var pos := if i >= 0 then i else |mapping| + i;
        match rest
        case None => None
        case Some(lines) => Some([Describe(mapping[pos])] + lines)
  }

  /** Without negative labels the code as written and the corrected filter agree. */
  lemma {:induction false} AsWrittenAgreesWithoutPadding(mapping: seq<Registration>, labels: seq<int>)
    requires forall k :: 0 <= k < |labels| ==> labels[k] >= 0
    ensures ContextLinesAsWritten(mapping, labels) == Some(ContextLines(mapping, labels))
  {
    if labels != [] {
      AsWrittenAgreesWithoutPadding(mapping, labels[1..]);
    }
  }

  /** A flat index that holds fewer than `K` vectors pads the labels with
      -1. With one registration, the code as written repeats it five times
      in the context; the corrected filter keeps the single real hit. */
  lemma PaddingRepeatsLastEntry()
    ensures var mapping := [Registration("alice", "2025-01-01T09:00:00")];
            var labels := [0, -1, -1, -1, -1];
            var line := Describe(mapping[0]);
            && ContextLinesAsWritten(mapping, labels) == Some([line, line, line, line, line])
            && ContextLines(mapping, labels) == [line]
  {
    var mapping := [Registration("alice", "2025-01-01T09:00:00")];
    var line := Describe(mapping[0]);
    var labels := [0, -1, -1, -1, -1];
    var pad1, pad2, pad3, pad4 := [-1], [-1, -1], [-1, -1, -1], [-1, -1, -1, -1];
    assert pad1[1..] == [] && pad2[1..] == pad1 && pad3[1..] == pad2 && pad4[1..] == pad3 && labels[1..] == pad4;
    assert ContextLinesAsWritten(mapping, pad1).value == [line];
    assert ContextLinesAsWritten(mapping, pad2).value == [line, line];
    assert ContextLinesAsWritten(mapping, pad3).value == [line, line, line];
    assert ContextLinesAsWritten(mapping, pad4).value == [line, line, line, line];
    assert ContextLinesAsWritten(mapping, labels).value == [line, line, line, line, line];
    assert ContextLines(mapping, pad4) == [];
  }

  const PromptHead := "You are a helpful assistant. Based on the registration logs below, answer the user's question.\n\nRegistration Data:\n"

  /** The prompt sent to the completion service: the fixed instructions,
      then the context lines joined by newlines, then the question. */
  function Prompt(context: seq<string>, question: string): (prompt: string)
    ensures PromptHead <= prompt
    ensures |prompt| == |PromptHead| + |Join(context, '\n')| + |"\n\nQuestion: "| + |question| + 1
    ensures prompt[|PromptHead|..|PromptHead| + |Join(context, '\n')|] == Join(context, '\n')
    ensures |prompt| > |question| && prompt[|prompt| - |question| - 1..] == question + "\n"
  {
    PromptHead + Join(context, '\n') + "\n\nQuestion: " + question + "\n"
  }

  /** What `chat` does before it calls the completion service: a warning for
      an empty message, or the context lines and the prompt. */
  datatype ChatReply = Warning(text: string) | Ask(context: seq<string>, prompt: string)
}
