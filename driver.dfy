/** The inference driver, `run_inference`: resume from the saved results, ask
    the model about every remaining trial in order, append one merged record per
    trial, overwrite the output file every 25 trials and once at the end, and
    report the accuracy over the records that are not errors.

    The model service and `json.loads` are parameters: `ask(i, prompt)` is the
    reply to the call made for trial `i`, so every sequence of replies the
    service could give is covered. The output file is modelled by the list of
    contents it is overwritten with. */
module Driver {
  import opened Text
  import opened JsonValue
  import opened Prompt
  import opened Parser

  /** The prediction recorded when the call or the parser raised. */
  const ERROR := "ERROR"
  /** The output file is overwritten after every trial whose 1-based index is a
      multiple of this. */
  const CHECKPOINT_EVERY := 25

  /** `client.messages.create(...)` followed by `resp.content[0].text`: the text,
      or the exception raised on the way, by its `str(e)`. */
  datatype Reply = Completion(text: string) | CallFailed(message: string)

  /** One saved result: the trial's fields, then the model's. */
  datatype ResultRecord = ResultRecord(
    trialId: Json, context: seq<string>, response: string, groundTruth: string,
    prediction: string, confidence: int, reasoning: Json)

  /** An accuracy as the pair (correct, out of). */
  datatype Ratio = Ratio(correct: nat, total: nat)

  /** The final summary; `NoValidRecords` is the `ZeroDivisionError` raised
      when no record is left after dropping the errors. */
  datatype Summary = Accuracy(correct: nat, total: nat) | NoValidRecords

  /** What the `try`/`except Exception` block yields for one reply. */
  function Outcome(reply: Reply, loads: string -> Decoded): (o: ModelOutput)
    ensures o.prediction in {SARCASM, NOT_SARCASM, UNKNOWN, ERROR}
    ensures o.prediction == ERROR <==>
      reply.CallFailed? || ParseOutput(loads, reply.text).Raised?
    ensures o.prediction == ERROR ==> o.confidence == 0 && o.reasoning.JString?
    ensures reply.CallFailed? ==> o.reasoning == JString(reply.message)
    ensures reply.Completion? && ParseOutput(loads, reply.text).Output? ==>
      o == ParseOutput(loads, reply.text).output
    ensures reply.Completion? && ParseOutput(loads, reply.text).Raised? ==>
      o.reasoning == JString(Message(ParseOutput(loads, reply.text).failure))
  {
    match reply
    case CallFailed(message) => ModelOutput(ERROR, 0, JString(message))
    case Completion(text) =>
      match ParseOutput(loads, text)
      case Output(output) => output
      case Raised(failure) => ModelOutput(ERROR, 0, JString(Message(failure)))
  }

  /** The record carries the trial's id, context, response and label. */
  predicate Echoes(r: ResultRecord, t: Trial) {
    r.trialId == t.id && r.context == t.context && r.response == t.response
    && r.groundTruth == t.groundTruth
  }

  /** The outcome for trial number `i` of a run that calls the model with
      `ask` and decodes with `loads`: the call is made with the trial's prompt. */
  function Answer(ask: (nat, string) -> Reply, loads: string -> Decoded): (nat, Trial) -> ModelOutput {
    (i: nat, trial: Trial) => Outcome(ask(i, BuildPrompt(trial)), loads)
  }

  /** The record for trial `i`: the trial's fields merged with its outcome. */
  function Step(trials: seq<Trial>, i: nat, answer: (nat, Trial) -> ModelOutput): (r: ResultRecord)
    requires i < |trials|
    ensures Echoes(r, trials[i])
  {
    var trial := trials[i];
    var output := answer(i, trial);
    ResultRecord(trial.id, trial.context, trial.response, trial.groundTruth,
                 output.prediction, output.confidence, output.reasoning)
  }

  /** The records appended for trials `start` up to `end - 1`, in that order:
      one per trial, each carrying its trial's fields. */
  function Processed(trials: seq<Trial>, start: nat, end: nat, answer: (nat, Trial) -> ModelOutput)
    : (rs: seq<ResultRecord>)
    requires end <= |trials|
    ensures |rs| == if start < end then end - start else 0
    ensures forall k :: 0 <= k < |rs| ==> Echoes(rs[k], trials[start + k])
    decreases end
  {
    if end <= start then []
    else Processed(trials, start, end - 1, answer) + [Step(trials, end - 1, answer)]
  }

  predicate IsCorrect(r: ResultRecord) {
    r.prediction == r.groundTruth
  }

  /** `sum(1 for r in rs if r['model_prediction'] == r['ground_truth'])`. */
  function CountCorrect(rs: seq<ResultRecord>): (n: nat)
    ensures n <= |rs|
  {
    if |rs| == 0 then 0
    else CountCorrect(rs[..|rs| - 1]) + (if IsCorrect(rs[|rs| - 1]) then 1 else 0)
  }

  /** The live accuracy shown after a trial: every record so far, errors
      included, is in the denominator. */
  function LiveAccuracy(rs: seq<ResultRecord>): Ratio {
    Ratio(CountCorrect(rs), |rs|)
  }

  /** `[r for r in rs if r['model_prediction'] != 'ERROR']`. */
  function NonError(rs: seq<ResultRecord>): (valid: seq<ResultRecord>)
    ensures |valid| <= |rs|
    ensures forall k :: 0 <= k < |valid| ==> valid[k].prediction != ERROR
  {
    if |rs| == 0 then []
    else NonError(rs[..|rs| - 1]) + (if rs[|rs| - 1].prediction != ERROR then [rs[|rs| - 1]] else [])
  }

  function ErrorCount(rs: seq<ResultRecord>): (n: nat)
    ensures n <= |rs|
  {
    if |rs| == 0 then 0
    else ErrorCount(rs[..|rs| - 1]) + (if rs[|rs| - 1].prediction == ERROR then 1 else 0)
  }

  /** The final accuracy, over the records that are not errors. */
  function FinalSummary(rs: seq<ResultRecord>): Summary {
    var valid := NonError(rs);
    if |valid| == 0 then NoValidRecords else Accuracy(CountCorrect(valid), |valid|)
  }

  /** The 1-based indices after which the loop, started at `start`, overwrites the
      output file before reaching `n`. */
  function CheckpointLengths(start: nat, n: nat): seq<nat>
    decreases n
  {
    if n <= start then []
    else CheckpointLengths(start, n - 1) + (if n % CHECKPOINT_EVERY == 0 then [n] else [])
  }

  /** The number of records in each saved content. */
  function Lengths(contents: seq<seq<ResultRecord>>): (ls: seq<nat>)
    ensures |ls| == |contents|
  {
    seq(|contents|, j requires 0 <= j < |contents| => |contents[j]|)
  }

  /** The live accuracies shown so far by a run that started with `start` saved
      records and now holds `rs`: one after each trial it processed. */
  function LiveHistory(rs: seq<ResultRecord>, start: nat): (h: seq<Ratio>)
    ensures |h| == if |rs| <= start then 0 else |rs| - start
  {
    if |rs| <= start then []
    else LiveHistory(rs[..|rs| - 1], start) + [LiveAccuracy(rs)]
  }

  /** The contents the loop has written to the output file so far, for a run
      that started with `start` saved records and now holds `rs`. */
  function Saves(rs: seq<ResultRecord>, start: nat): seq<seq<ResultRecord>>
  {
    if |rs| <= start then []
    else Saves(rs[..|rs| - 1], start) + (if |rs| % CHECKPOINT_EVERY == 0 then [rs] else [])
  }

  /** `run_inference()`. `saved` is the output file as found at start, `None`
      when it does not exist. Returns the results, the successive contents the
      output file is overwritten with, the live accuracy shown after each trial,
      and the final summary. */
  method RunInference(trials: seq<Trial>, saved: Option<seq<ResultRecord>>,
                      ask: (nat, string) -> Reply, loads: string -> Decoded)
    returns (results: seq<ResultRecord>, checkpoints: seq<seq<ResultRecord>>,
             live: seq<Ratio>, summary: Summary)
    ensures var prior := if saved.Some? then saved.value else [];
      && results == prior + Processed(trials, |prior|, |trials|, Answer(ask, loads))
      && checkpoints == Saves(results, |prior|) + [results]
      && live == LiveHistory(results, |prior|)
    ensures summary == FinalSummary(results)
  {
    var prior := [];
    if saved.Some? {
      prior := saved.value;
    }
    results, checkpoints, live := RunTrials(trials, prior, ask, loads);
    checkpoints := checkpoints + [results];
    summary := FinalSummary(results);
  }

  /** The state of the loop before trial `i`: the records so far are the saved
      ones followed by one per trial processed, and the count, the live history
      and the saves agree with them. */
  predicate Progress(trials: seq<Trial>, prior: seq<ResultRecord>, i: nat, answer: (nat, Trial) -> ModelOutput,
                     results: seq<ResultRecord>, correctCount: nat, live: seq<Ratio>,
                     checkpoints: seq<seq<ResultRecord>>)
    requires |prior| <= i <= |trials|
  {
    && results == prior + Processed(trials, |prior|, i, answer)
    && |results| == i
    && correctCount == CountCorrect(results)
    && live == LiveHistory(results, |prior|)
    && checkpoints == Saves(results, |prior|)
  }

  /** The `for` loop of `run_inference()`, resumed after the records in `prior`.
      Each trial yields the record of `Answer(ask, loads)`, the outcome of its
      `try` block. */
  method RunTrials(trials: seq<Trial>, prior: seq<ResultRecord>, ask: (nat, string) -> Reply, loads: string -> Decoded)
    returns (results: seq<ResultRecord>, checkpoints: seq<seq<ResultRecord>>, live: seq<Ratio>)
    ensures results == prior + Processed(trials, |prior|, |trials|, Answer(ask, loads))
    ensures checkpoints == Saves(results, |prior|)
    ensures live == LiveHistory(results, |prior|)
  {
    results := prior;
    var start := |prior|;
    var correctCount := CountCorrect(results);
    checkpoints, live := [], [];
    if start < |trials| {
      for i := start to |trials|
        invariant Progress(trials, prior, i, Answer(ask, loads), results, correctCount, live, checkpoints)
      {
        results, correctCount, live, checkpoints :=
          RecordTrial(trials, prior, i, ask, loads, results, correctCount, live, checkpoints);
      }
    }
  }

  /** One pass of the loop body: the trial's outcome is merged into a record,
      appended, counted, shown and, every 25 trials, saved. */
  method RecordTrial(trials: seq<Trial>, prior: seq<ResultRecord>, i: nat,
                     ask: (nat, string) -> Reply, loads: string -> Decoded,
                     results: seq<ResultRecord>, correctCount: nat, live: seq<Ratio>,
                     checkpoints: seq<seq<ResultRecord>>)
    returns (results': seq<ResultRecord>, correctCount': nat, live': seq<Ratio>,
             checkpoints': seq<seq<ResultRecord>>)
    requires |prior| <= i < |trials|
    requires Progress(trials, prior, i, Answer(ask, loads), results, correctCount, live, checkpoints)
    ensures Progress(trials, prior, i + 1, Answer(ask, loads), results', correctCount', live', checkpoints')
  {
    var trial := trials[i];
    var prompt := BuildPrompt(trial);
    var reply := ask(i, prompt);
    var output := Outcome(reply, loads);
    var result := ResultRecord(trial.id, trial.context, trial.response, trial.groundTruth,
                               output.prediction, output.confidence, output.reasoning);
    NextRecord(trials, |prior|, i, Answer(ask, loads), prior, results, output, result);
    KeepsBookkeeping(results, result, |prior|, correctCount, live, checkpoints);
    results' := results + [result];
    correctCount' := correctCount;
    if output.prediction == trial.groundTruth {
      correctCount' := correctCount + 1;
    }
    live' := live + [Ratio(correctCount', i + 1)];
    checkpoints' := checkpoints;
    if (i + 1) % CHECKPOINT_EVERY == 0 {
      checkpoints' := checkpoints + [results'];
    }
  }

  /** The record the loop body builds extends the results by the next `Step`. */
  lemma {:induction false} NextRecord(trials: seq<Trial>, start: nat, i: nat, answer: (nat, Trial) -> ModelOutput,
                   prior: seq<ResultRecord>, results: seq<ResultRecord>, output: ModelOutput, result: ResultRecord)
    requires start <= i < |trials|
    requires results == prior + Processed(trials, start, i, answer)
    requires output == answer(i, trials[i])
    requires result == ResultRecord(trials[i].id, trials[i].context, trials[i].response, trials[i].groundTruth,
                                    output.prediction, output.confidence, output.reasoning)
    ensures results + [result] == prior + Processed(trials, start, i + 1, answer)
  {
    var done := Processed(trials, start, i, answer);
    assert Processed(trials, start, i + 1, answer) == done + [result];
    assert (prior + done) + [result] == prior + (done + [result]);
  }

  /** Each record of `Processed` is the `Step` of its trial. */
  lemma {:induction false} ProcessedAt(trials: seq<Trial>, start: nat, end: nat, i: nat,
                                       answer: (nat, Trial) -> ModelOutput)
    requires start <= i < end <= |trials|
    ensures Processed(trials, start, end, answer)[i - start] == Step(trials, i, answer)
    decreases end
  {
    var init := Processed(trials, start, end - 1, answer);
    var last := Step(trials, end - 1, answer);
    assert Processed(trials, start, end, answer) == init + [last];
    if i < end - 1 {
      ProcessedAt(trials, start, end - 1, i, answer);
      AppendKeepsIndex(init, last, i - start);
    } else {
      assert (init + [last])[|init|] == last;
    }
  }

  lemma AppendKeepsIndex(init: seq<ResultRecord>, last: ResultRecord, k: nat)
    requires k < |init|
    ensures (init + [last])[k] == init[k]
  {
  }

  /** One trial's bookkeeping keeps the count of correct records, the live
      history and the saves in step with the results. */
  lemma KeepsBookkeeping(results: seq<ResultRecord>, result: ResultRecord, start: nat,
                         correctCount: nat, live: seq<Ratio>, checkpoints: seq<seq<ResultRecord>>)
    requires start <= |results|
    requires correctCount == CountCorrect(results)
    requires live == LiveHistory(results, start)
    requires checkpoints == Saves(results, start)
    ensures var rs := results + [result];
      var count := if result.prediction == result.groundTruth then correctCount + 1 else correctCount;
      && count == CountCorrect(rs)
      && live + [Ratio(count, |results| + 1)] == LiveHistory(rs, start)
      && (if (|results| + 1) % CHECKPOINT_EVERY == 0 then checkpoints + [rs] else checkpoints) == Saves(rs, start)
  {
    AppendStep(results, result, start);
  }

  /** Appending one record extends the count, the live history and the saves
      by that record's contribution alone. */
  lemma AppendStep(rs: seq<ResultRecord>, r: ResultRecord, start: nat)
    ensures CountCorrect(rs + [r]) == CountCorrect(rs) + if IsCorrect(r) then 1 else 0
    ensures ErrorCount(rs + [r]) == ErrorCount(rs) + if r.prediction == ERROR then 1 else 0
    ensures |rs| >= start ==>
      LiveHistory(rs + [r], start) == LiveHistory(rs, start) + [LiveAccuracy(rs + [r])]
    ensures |rs| >= start ==>
      Saves(rs + [r], start) == Saves(rs, start) + (if (|rs| + 1) % CHECKPOINT_EVERY == 0 then [rs + [r]] else [])
  {
    assert (rs + [r])[..|rs|] == rs;
  }

  // ---------------------------------------------------------------------------
  // Properties
  // ---------------------------------------------------------------------------

  /** The loop overwrites the output file exactly after the trials whose 1-based
      index is a multiple of 25, in increasing order. */
  lemma {:induction false} CheckpointCadence(start: nat, n: nat)
    ensures forall x :: x in CheckpointLengths(start, n) <==> start < x <= n && x % CHECKPOINT_EVERY == 0
    ensures forall a, b :: 0 <= a < b < |CheckpointLengths(start, n)| ==>
      CheckpointLengths(start, n)[a] < CheckpointLengths(start, n)[b]
    ensures forall a :: 0 <= a < |CheckpointLengths(start, n)| ==> CheckpointLengths(start, n)[a] <= n
    decreases n
  {
    if n > start {
      CheckpointCadence(start, n - 1);
    }
  }

  /** The saves happen exactly at the cadence: the contents written during a
      run that started with `start` saved records and now holds `rs` have the
      lengths `CheckpointLengths(start, |rs|)`. */
  lemma {:induction false} SavesAtCadence(rs: seq<ResultRecord>, start: nat)
    requires start <= |rs|
    ensures Lengths(Saves(rs, start)) == CheckpointLengths(start, |rs|)
    decreases |rs|
  {
    if |rs| > start {
      var init := rs[..|rs| - 1];
      SavesAtCadence(init, start);
      LengthsAppend(Saves(init, start), if |rs| % CHECKPOINT_EVERY == 0 then [rs] else []);
    }
  }

  lemma LengthsAppend(a: seq<seq<ResultRecord>>, b: seq<seq<ResultRecord>>)
    ensures Lengths(a + b) == Lengths(a) + Lengths(b)
  {
    assert forall j :: 0 <= j < |a + b| ==> Lengths(a + b)[j] == (Lengths(a) + Lengths(b))[j];
  }

  /** Every save writes the results as they stood at that point: a prefix of
      the current results. */
  lemma {:induction false} SavesArePrefixes(rs: seq<ResultRecord>, start: nat)
    ensures forall j :: 0 <= j < |Saves(rs, start)| ==>
      |Saves(rs, start)[j]| <= |rs| && Saves(rs, start)[j] == rs[..|Saves(rs, start)[j]|]
    decreases |rs|
  {
    if |rs| > start {
      var init := rs[..|rs| - 1];
      SavesArePrefixes(init, start);
      forall j | 0 <= j < |Saves(init, start)|
        ensures Saves(init, start)[j] == rs[..|Saves(init, start)[j]|]
      {
        var s := Saves(init, start)[j];
        assert s == init[..|s|];
        assert init[..|s|] == rs[..|s|];
      }
    }
  }

  /** From a fresh start over `n` trials, the k-th checkpoint (from 0) holds
      exactly 25 * (k + 1) records, and there are n / 25 of them before the
      final save. */
  lemma {:induction false} FreshRunCheckpoints(n: nat)
    ensures |CheckpointLengths(0, n)| == n / CHECKPOINT_EVERY
    ensures forall k :: 0 <= k < |CheckpointLengths(0, n)| ==>
      CheckpointLengths(0, n)[k] == CHECKPOINT_EVERY * (k + 1)
  {
    if n > 0 {
      FreshRunCheckpoints(n - 1);
    }
  }

  /** Resuming after a prefix of a run's results reproduces the rest of that
      run: the saved records followed by the ones for the remaining trials are
      exactly the records of a run from the start (given the same outcome for each trial). */
  lemma {:induction false} ResumeEquivalence(trials: seq<Trial>, saved: nat, answer: (nat, Trial) -> ModelOutput)
    requires saved <= |trials|
    ensures Processed(trials, 0, saved, answer) + Processed(trials, saved, |trials|, answer)
         == Processed(trials, 0, |trials|, answer)
  {
    SplitProcessed(trials, saved, |trials|, answer);
  }

  lemma {:induction false} SplitProcessed(trials: seq<Trial>, mid: nat, end: nat, answer: (nat, Trial) -> ModelOutput)
    requires mid <= end <= |trials|
    ensures Processed(trials, 0, mid, answer) + Processed(trials, mid, end, answer)
         == Processed(trials, 0, end, answer)
    decreases end
  {
    if end > mid {
      SplitProcessed(trials, mid, end - 1, answer);
      var last := [Step(trials, end - 1, answer)];
      assert Processed(trials, 0, mid, answer) + (Processed(trials, mid, end - 1, answer) + last)
          == (Processed(trials, 0, mid, answer) + Processed(trials, mid, end - 1, answer)) + last;
    }
  }

  /** When the saved records carry the first trials' fields in order, the
      results after the run carry every trial's fields in order. */
  lemma ResultsFollowTrials(trials: seq<Trial>, prior: seq<ResultRecord>, answer: (nat, Trial) -> ModelOutput)
    requires |prior| <= |trials|
    requires forall k :: 0 <= k < |prior| ==> Echoes(prior[k], trials[k])
    ensures var results := prior + Processed(trials, |prior|, |trials|, answer);
      |results| == |trials| && forall k :: 0 <= k < |trials| ==> Echoes(results[k], trials[k])
  {
    var rest := Processed(trials, |prior|, |trials|, answer);
    var results := prior + rest;
    forall k | 0 <= k < |trials| ensures Echoes(results[k], trials[k]) {
      if k >= |prior| {
        assert results[k] == rest[k - |prior|];
      }
    }
  }

  lemma {:induction false} NonErrorCount(rs: seq<ResultRecord>)
    ensures |NonError(rs)| + ErrorCount(rs) == |rs|
  {
    if |rs| > 0 {
      NonErrorCount(rs[..|rs| - 1]);
    }
  }

  /** Dropping the errors loses no correct record when no trial is labelled
      ERROR: the final numerator equals the live one, only the denominator
      shrinks, by the number of errors. */
  lemma {:induction false} FinalDropsOnlyErrors(rs: seq<ResultRecord>)
    requires forall k :: 0 <= k < |rs| ==> rs[k].groundTruth != ERROR
    ensures CountCorrect(NonError(rs)) == CountCorrect(rs)
    ensures |NonError(rs)| == |rs| - ErrorCount(rs)
  {
    NonErrorCount(rs);
    if |rs| > 0 {
      var init := rs[..|rs| - 1];
      var last := rs[|rs| - 1];
      FinalDropsOnlyErrors(init);
      assert rs == init + [last];
      AppendStep(init, last, 0);
      if last.prediction != ERROR {
        AppendStep(NonError(init), last, 0);
      } else {
        assert last.groundTruth != ERROR;
        assert NonError(rs) == NonError(init);
      }
    }
  }

  /** The final summary against the live accuracy: when some record is not an
      error, the summary counts the same correct records as the live accuracy
      after the last trial, out of the records that are not errors. */
  lemma SummaryAgainstLive(rs: seq<ResultRecord>)
    requires forall k :: 0 <= k < |rs| ==> rs[k].groundTruth != ERROR
    ensures FinalSummary(rs) == if ErrorCount(rs) == |rs| then NoValidRecords
      else Accuracy(LiveAccuracy(rs).correct, |rs| - ErrorCount(rs))
  {
    FinalDropsOnlyErrors(rs);
  }

  // ---------------------------------------------------------------------------
  // A three-trial run: a JSON reply, a free-text reply and a failed call
  // ---------------------------------------------------------------------------

  /** What `json.loads` makes of a reply such as
      `{"prediction": "SARCASM", "confidence": 90, "reasoning": "Mock."}`. */
  function SampleFields(): map<string, Json> {
    map["prediction" := JString(SARCASM), "confidence" := JInt(90), "reasoning" := JString("Mock.")]
  }

  /** The outcome of a reply that is that JSON. */
  lemma JsonReplyOutcome(loads: string -> Decoded, json: string)
    requires !Contains(json, FENCE) && json != [] && !IsSpace(json[0]) && !IsSpace(json[|json| - 1])
    requires loads(json) == Value(JObject(SampleFields()))
    ensures Outcome(Completion(json), loads) == ModelOutput(SARCASM, 90, JString("Mock."))
  {
    ParseRoundTrip(loads, json, SampleFields(), SARCASM, 90, "Mock.");
  }

  /** The outcome of a free-text reply saying "not sarcasm". */
  lemma TextReplyOutcome(loads: string -> Decoded, text: string, at: int)
    requires !Contains(text, FENCE) && text != [] && !IsSpace(text[0]) && !IsSpace(text[|text| - 1])
    requires loads(text) == DecodeError
    requires CaselessAt(text, "NOT SARCASM", at)
    ensures Outcome(Completion(text), loads).prediction == NOT_SARCASM
  {
    BareTextFallsBack(loads, text, at);
  }

  /** The counts over three records: two correct ones, then an error. The live
      accuracy ends at 2/3, errors included; the final one is 2/2. */
  lemma {:induction false} ThreeRecordCounts(rs: seq<ResultRecord>)
    requires |rs| == 3
    requires IsCorrect(rs[0]) && rs[0].prediction != ERROR
    requires IsCorrect(rs[1]) && rs[1].prediction != ERROR
    requires rs[2].prediction == ERROR && rs[2].groundTruth != ERROR
    ensures LiveHistory(rs, 0) == [Ratio(1, 1), Ratio(2, 2), Ratio(2, 3)]
    ensures FinalSummary(rs) == Accuracy(2, 2)
  {
    ThreeRecordHistory(rs);
    ThreeRecordSummary(rs);
  }

  lemma {:induction false} ThreeRecordHistory(rs: seq<ResultRecord>)
    requires |rs| == 3 && IsCorrect(rs[0]) && IsCorrect(rs[1]) && !IsCorrect(rs[2])
    ensures LiveHistory(rs, 0) == [Ratio(1, 1), Ratio(2, 2), Ratio(2, 3)]
  {
    var rs1, rs2 := rs[..1], rs[..2];
    assert rs1[..0] == [];
    LiveLast(rs1, 0, [], 0);
    assert rs2[..1] == rs1;
    LiveLast(rs2, 0, [Ratio(1, 1)], 1);
    assert rs[..2] == rs2;
    LiveLast(rs, 0, [Ratio(1, 1), Ratio(2, 2)], 2);
  }

  /** The live history after one more record, from the history and the count
      before it. */
  lemma LiveLast(rs: seq<ResultRecord>, start: nat, before: seq<Ratio>, count: nat)
    requires start < |rs|
    requires LiveHistory(rs[..|rs| - 1], start) == before
    requires CountCorrect(rs[..|rs| - 1]) == count
    ensures LiveHistory(rs, start) == before + [Ratio(count + if IsCorrect(rs[|rs| - 1]) then 1 else 0, |rs|)]
  {
    assert CountCorrect(rs) == count + if IsCorrect(rs[|rs| - 1]) then 1 else 0;
    assert LiveHistory(rs, start) == before + [LiveAccuracy(rs)];
  }

  lemma {:induction false} ThreeRecordSummary(rs: seq<ResultRecord>)
    requires |rs| == 3
    requires IsCorrect(rs[0]) && rs[0].prediction != ERROR
    requires IsCorrect(rs[1]) && rs[1].prediction != ERROR
    requires rs[2].prediction == ERROR && rs[2].groundTruth != ERROR
    ensures FinalSummary(rs) == Accuracy(2, 2)
  {
    ThreeRecordTallies(rs);
    forall k | 0 <= k < |rs|
      ensures rs[k].groundTruth != ERROR
    {
      assert k == 0 || k == 1 || k == 2;
    }
    SummaryAgainstLive(rs);
  }

  lemma {:induction false} ThreeRecordTallies(rs: seq<ResultRecord>)
    requires |rs| == 3 && IsCorrect(rs[0]) && IsCorrect(rs[1]) && !IsCorrect(rs[2])
    requires rs[0].prediction != ERROR && rs[1].prediction != ERROR && rs[2].prediction == ERROR
    ensures CountCorrect(rs) == 2 && ErrorCount(rs) == 1
  {
    var rs1, rs2 := rs[..1], rs[..2];
    assert rs1 == [] + [rs[0]] && rs2 == rs1 + [rs[1]] && rs == rs2 + [rs[2]];
    AppendStep([], rs[0], 0);
    AppendStep(rs1, rs[1], 0);
    AppendStep(rs2, rs[2], 0);
  }

  /** A run over three trials labelled SARCASM, NOT_SARCASM and SARCASM whose
      replies are that JSON, a free text saying "not sarcasm", and a failed
      call: predictions SARCASM, NOT_SARCASM and ERROR, a live accuracy of 2/3
      at the end and a final accuracy of 2/2. */
  lemma {:induction false} ThreeTrialRun(trials: seq<Trial>, ask: (nat, string) -> Reply, loads: string -> Decoded,
                      json: string, text: string, at: int)
    requires |trials| == 3
    requires trials[0].groundTruth == SARCASM && trials[1].groundTruth == NOT_SARCASM
    requires trials[2].groundTruth == SARCASM
    requires ask(0, BuildPrompt(trials[0])) == Completion(json)
    requires ask(1, BuildPrompt(trials[1])) == Completion(text)
    requires ask(2, BuildPrompt(trials[2])).CallFailed?
    requires !Contains(json, FENCE) && json != [] && !IsSpace(json[0]) && !IsSpace(json[|json| - 1])
    requires loads(json) == Value(JObject(SampleFields()))
    requires !Contains(text, FENCE) && text != [] && !IsSpace(text[0]) && !IsSpace(text[|text| - 1])
    requires loads(text) == DecodeError
    requires CaselessAt(text, "NOT SARCASM", at)
    ensures var rs := Processed(trials, 0, 3, Answer(ask, loads));
      && [rs[0].prediction, rs[1].prediction, rs[2].prediction] == [SARCASM, NOT_SARCASM, ERROR]
      && rs[0].confidence == 90 && rs[0].reasoning == JString("Mock.")
      && LiveHistory(rs, 0) == [Ratio(1, 1), Ratio(2, 2), Ratio(2, 3)]
      && FinalSummary(rs) == Accuracy(2, 2)
  {
    var rs := Processed(trials, 0, 3, Answer(ask, loads));
    ThreePredictions(trials, ask, loads, json, text, at);
    ThreeTrialCounts(trials, Answer(ask, loads));
  }

  lemma {:induction false} ThreeTrialCounts(trials: seq<Trial>, answer: (nat, Trial) -> ModelOutput)
    requires |trials| == 3
    requires trials[0].groundTruth == SARCASM && trials[1].groundTruth == NOT_SARCASM
    requires trials[2].groundTruth == SARCASM
    requires var rs := Processed(trials, 0, 3, answer);
      [rs[0].prediction, rs[1].prediction, rs[2].prediction] == [SARCASM, NOT_SARCASM, ERROR]
    ensures var rs := Processed(trials, 0, 3, answer);
      && LiveHistory(rs, 0) == [Ratio(1, 1), Ratio(2, 2), Ratio(2, 3)]
      && FinalSummary(rs) == Accuracy(2, 2)
  {
    var rs := Processed(trials, 0, 3, answer);
    ThreeRecordCounts(rs);
  }

  lemma {:induction false} ThreePredictions(trials: seq<Trial>, ask: (nat, string) -> Reply, loads: string -> Decoded,
                         json: string, text: string, at: int)
    requires |trials| == 3
    requires trials[0].groundTruth == SARCASM && trials[1].groundTruth == NOT_SARCASM
    requires trials[2].groundTruth == SARCASM
    requires ask(0, BuildPrompt(trials[0])) == Completion(json)
    requires ask(1, BuildPrompt(trials[1])) == Completion(text)
    requires ask(2, BuildPrompt(trials[2])).CallFailed?
    requires !Contains(json, FENCE) && json != [] && !IsSpace(json[0]) && !IsSpace(json[|json| - 1])
    requires loads(json) == Value(JObject(SampleFields()))
    requires !Contains(text, FENCE) && text != [] && !IsSpace(text[0]) && !IsSpace(text[|text| - 1])
    requires loads(text) == DecodeError
    requires CaselessAt(text, "NOT SARCASM", at)
    ensures var rs := Processed(trials, 0, 3, Answer(ask, loads));
      && [rs[0].prediction, rs[1].prediction, rs[2].prediction] == [SARCASM, NOT_SARCASM, ERROR]
      && rs[0].confidence == 90 && rs[0].reasoning == JString("Mock.")
  {
    ProcessedAt(trials, 0, 3, 0, Answer(ask, loads));
    ProcessedAt(trials, 0, 3, 1, Answer(ask, loads));
    ProcessedAt(trials, 0, 3, 2, Answer(ask, loads));
    JsonReplyOutcome(loads, json);
    TextReplyOutcome(loads, text, at);
  }
}
