/** The prompt builder: one trial becomes the text sent to the model. */
module Prompt {
  import opened Text
  import opened JsonValue

  /** One record of the input dataset. */
  datatype Trial = Trial(id: Json, context: seq<string>, response: string, groundTruth: string)

  /** The text before the numbered context comments. */
  const INSTRUCTION := "Detect sarcasm. Given this Reddit thread context and response, classify the response.\n\nContext:\n"

  /** The text between the context comments and the response. */
  const RESPONSE_LABEL := "\n\nResponse: \""

  /** The text after the response's closing quote. */
  const REPLY_FORMAT := "\n\nReply with ONLY this JSON (no markdown):\n{\"prediction\": \"SARCASM\" or \"NOT_SARCASM\", \"confidence\": <0-100>, \"reasoning\": \"<1-2 sentences>\"}"

  /** The line for the comment numbered `k`. */
  function CommentLine(k: nat, comment: string): string {
    "[Comment " + Decimal(k) + "]: " + comment
  }

  /** The context comments, numbered from 1 in their original order. */
  function ContextLines(context: seq<string>): (lines: seq<string>)
    ensures |lines| == |context|
  {
    seq(|context|, i requires 0 <= i < |context| => CommentLine(i + 1, context[i]))
  }

  /** The context block: the numbered comments, one per line. */
  function ContextBlock(context: seq<string>): string {
    Join(ContextLines(context))
  }

  /** `build_prompt(trial)`. */
  function BuildPrompt(trial: Trial): string {
    INSTRUCTION + ContextBlock(trial.context) + RESPONSE_LABEL + trial.response + "\"" + REPLY_FORMAT
  }

  /** An empty context gives an empty context block, so the prompt goes straight
      from the `Context:` heading to the response. */
  lemma EmptyContext(trial: Trial)
    requires trial.context == []
    ensures BuildPrompt(trial) == INSTRUCTION + RESPONSE_LABEL + trial.response + "\"" + REPLY_FORMAT
  {
    assert ContextLines(trial.context) == [];
    AppendNothing(INSTRUCTION, ContextBlock(trial.context));
  }

  lemma AppendNothing(a: string, b: string)
    requires b == ""
    ensures a + b == a
  {
  }

  /** When no comment holds a line break, the context block consists of exactly
      one line per comment, in the original order, the line of comment `k`
      (counting from 1) being `[Comment k]: ` followed by the comment verbatim. */
  lemma {:induction false} OneLinePerComment(context: seq<string>)
    requires |context| >= 1
    requires forall k :: 0 <= k < |context| ==> '\n' !in context[k]
    ensures |Split(ContextBlock(context))| == |context|
    ensures forall k :: 0 <= k < |context| ==>
      Split(ContextBlock(context))[k] == "[Comment " + Decimal(k + 1) + "]: " + context[k]
  {
    var lines := ContextLines(context);
    forall k | 0 <= k < |lines| ensures '\n' !in lines[k] {
      var digits := Decimal(k + 1);
      var prefix := "[Comment " + digits + "]: ";
      assert lines[k] == prefix + context[k];
      assert forall j :: 0 <= j < |digits| ==> IsDigit(digits[j]);
      assert '\n' !in prefix;
    }
    SplitJoin(lines);
  }

  /** The number in a comment line reads back as the comment's 1-based position. */
  lemma CommentNumberReadsBack(k: nat, comment: string)
    ensures var line := CommentLine(k, comment);
      var digits := line[9..9 + |Decimal(k)|];
      && line[..9] == "[Comment "
      && (forall j :: 0 <= j < |digits| ==> IsDigit(digits[j]))
      && DigitsValue(digits) == k
      && line[9 + |Decimal(k)|..] == "]: " + comment
  {
    var line := CommentLine(k, comment);
    assert line == "[Comment " + (Decimal(k) + ("]: " + comment));
    assert line[9..9 + |Decimal(k)|] == Decimal(k);
  }

  /** Where the prompt's parts sit: it opens with the fixed instruction and the
      context block, and it closes with `Response: "`, the response verbatim, and
      a closing quote and the fixed reply format. The response is found by
      counting from the end, whatever the context holds. */
  lemma ResponseVerbatim(trial: Trial)
    ensures var p, n, r := BuildPrompt(trial), |REPLY_FORMAT| + 1, trial.response;
      && |p| >= |INSTRUCTION| + |RESPONSE_LABEL| + |r| + n
      && p[..|INSTRUCTION|] == INSTRUCTION
      && p[|INSTRUCTION|..|INSTRUCTION| + |ContextBlock(trial.context)|] == ContextBlock(trial.context)
      && p[|p| - n - |r| - |RESPONSE_LABEL|..|p| - n - |r|] == RESPONSE_LABEL
      && p[|p| - n - |r|..|p| - n] == r
      && p[|p| - n..|p| - n + 1] == "\""
      && p[|p| - n + 1..] == REPLY_FORMAT
  {
    SliceConcat(INSTRUCTION, ContextBlock(trial.context), RESPONSE_LABEL, trial.response, "\"", REPLY_FORMAT);
  }

  /** Where each part of a concatenation of six strings sits in it. */
  lemma SliceConcat(a: string, b: string, c: string, d: string, e: string, f: string)
    ensures var p := a + b + c + d + e + f;
      && |p| == |a| + |b| + |c| + |d| + |e| + |f|
      && p[..|a|] == a
      && p[|a|..|a| + |b|] == b
      && p[|p| - |f| - |e| - |d| - |c|..|p| - |f| - |e| - |d|] == c
      && p[|p| - |f| - |e| - |d|..|p| - |f| - |e|] == d
      && p[|p| - |f| - |e|..|p| - |f|] == e
      && p[|p| - |f|..] == f
  {
    var p := a + b + c + d + e + f;
    assert p == a + (b + (c + (d + (e + f))));
    assert p == (a + b) + (c + (d + (e + f)));
    assert p == (a + b + c) + (d + (e + f));
    assert p == (a + b + c + d) + (e + f);
  }

  /** Two trials with the same context but different responses never share a
      prompt. */
  lemma PromptDeterminesResponse(a: Trial, b: Trial)
    requires a.context == b.context && BuildPrompt(a) == BuildPrompt(b)
    ensures a.response == b.response
  {
    ResponseVerbatim(a);
    ResponseVerbatim(b);
  }
}
