# Sarcasm-detection inference driver, modelled in Dafny

This project models `run_inference.py`, the script that asks a language model
to label each trial of a sarcasm-detection study dataset. It has three parts:

- `build_prompt` turns a trial (numbered Reddit context comments and a
  response) into the prompt text.
- `parse_output` turns the model's reply into a prediction, a confidence and a
  reasoning. It strips code fences, decodes the rest as JSON and normalises the
  fields. When the text does not decode, it guesses the label from the words
  in it.
- `run_inference` is the driver. It resumes after the records already saved,
  asks about every remaining trial in order and appends one merged record per
  trial. It turns a failing call into an `ERROR` record, overwrites the output
  file every 25 trials and once at the end, and reports a live and a final
  accuracy.

Files:

- `text.dfy` (module `Text`): the parts of Python's `str` the script uses —
  `isspace`, `strip`, `upper`, `in`, `"\n".join` and `str(n)`. It also holds
  `Split`, a splitting at newlines that the script never calls. `Split` undoes
  the join, and the lemmas use it to describe the prompt's lines.
- `json.dfy` (module `JsonValue`): the values `json.loads` produces.
- `prompt.dfy` (module `Prompt`): `build_prompt`, as pure functions.
- `parser.dfy` (module `Parser`): `parse_output`, as pure functions.
- `driver.dfy` (module `Driver`): `run_inference`, as methods.
  `RunInference` sets up the resume and closes the run. `RunTrials` is its
  `for` loop. `RecordTrial` is one pass of the loop body: build the prompt,
  call the model, parse the reply, append the record, count it, show the live
  accuracy and save every 25 trials. The methods are proved against
  specification functions: `Processed` gives the records, `LiveHistory` the
  live accuracies, `Saves` the file contents and `FinalSummary` the closing
  line. `Answer(ask, loads)` is the outcome of the loop's `try` block for a
  trial.

The model service and `json.loads` are parameters:

- `ask(i, prompt)` is the reply to the call made for trial `i`: a completion
  text, or the message of the exception raised.
- `loads(text)` is a decoded value or a decode error.

Every statement is therefore proved for every sequence of replies and every
decoder. The output file is modelled by the list of contents it is overwritten
with, and the progress lines by the list of live accuracies shown.

Four points of the code's behaviour are easy to misread. The model follows the code:

- `parse_output` looks as if it never raises. Yet three cases
  escape its `except json.JSONDecodeError`:
  - JSON that decodes to something other than an object;
  - a `prediction` that is not a string;
  - a `confidence` that `int()` rejects.

  The driver's `except Exception` then records them as `ERROR` trials, with
  `str(e)` as the reasoning. `Parser.Interpret` returns `Raised` for exactly
  these cases, and `Driver.Outcome` turns them into `ERROR`.
- The live accuracy is `correct_count / (i + 1)`. After a resume this counts
  the saved records too, in both the numerator and the denominator. It is not
  "trials processed in this run".
- When every record is an `ERROR`, the final line divides by zero. The model
  returns `NoValidRecords` there.
- `int()` on the `confidence` text skips less white space than `strip()`. The
  separators U+001C to U+001F are white space to `strip()` and to `\s`, but
  `int()` refuses them. A confidence text with one at either end makes the
  trial an `ERROR` record.
  `int()` also refuses more than 4300 digits.

## Model

| member | source | states |
|---|---|---|
| Text.Trim | run_inference.py:60 | `strip()` leaves no white space at either end and never grows the text |
| Text.TrimSlice | run_inference.py:60 | the stripped text is the slice of the original between its leading and trailing white space |
| Text.TrimDropsSpace | run_inference.py:60 | everything `strip()` removes, before and after the kept slice, is white space |
| Text.TrimIdempotent | run_inference.py:60 | stripping twice is stripping once |
| Text.Upper | run_inference.py:63-70 | `str.upper()`, character by character; its meaning is stated by Text.UpperAppend, Text.UpperOfAscii and Parser.UpperFindsCaseless |
| Text.UpperAppend | run_inference.py:63 | `upper()` works character by character: the upper case of a concatenation is the concatenation of the upper cases |
| Text.UpperOfAscii | run_inference.py:70 | on ASCII text `upper()` keeps the length and capitalises exactly the lower-case letters |
| Text.Contains | run_inference.py:64-74 | the substring test `w in s`; Text.ContainsIff ties it to an occurrence at a position |
| Text.ContainsIff | run_inference.py:64 | `w in s` holds exactly when `w` occurs at some position of `s` |
| Text.Join | run_inference.py:44 | `"\n".join(lines)`; Text.SplitJoin shows that splitting at newlines recovers the lines |
| Text.Split | run_inference.py:44 | not a call of the script: the inverse of its join. Splitting at newlines gives pieces without newlines that join back to the text |
| Text.SplitJoin | run_inference.py:44 | splitting undoes `"\n".join` for lines without a newline |
| Text.Decimal | run_inference.py:45 | `str(n)` is a non-empty string of digits, without a leading zero, that denotes `n` |
| Prompt.CommentLine | run_inference.py:45 | the f-string `[Comment {i+1}]: {c}`; Prompt.CommentNumberReadsBack reads the number and the comment back |
| Prompt.ContextLines | run_inference.py:44-46 | one line per comment, as many as there are comments, numbered from 1 |
| Prompt.ContextBlock | run_inference.py:44-46 | the joined comment lines; Prompt.OneLinePerComment splits it back into them |
| Prompt.BuildPrompt | run_inference.py:42-55 | `build_prompt(trial)`; its layout is stated by Prompt.ResponseVerbatim, Prompt.EmptyContext, Prompt.OneLinePerComment and Prompt.PromptDeterminesResponse |
| Prompt.EmptyContext | run_inference.py:44-55 | an empty context gives a prompt with no numbered lines: the instruction is followed directly by the response part |
| Prompt.OneLinePerComment | run_inference.py:44-46 | the context block has exactly one line per comment, in order, line k being `[Comment k]: ` and the comment verbatim (for comments without a line break) |
| Prompt.CommentNumberReadsBack | run_inference.py:45 | the number in a comment line is the comment's 1-based position, and the comment follows `]: ` verbatim |
| Prompt.ResponseVerbatim | run_inference.py:47-55 | the prompt starts with the fixed instruction and the context block, and ends with `Response: "`, the response verbatim, a closing quote and the fixed reply format |
| Prompt.PromptDeterminesResponse | run_inference.py:42-55 | two trials with the same context and the same prompt have the same response |
| Parser.StripFences | run_inference.py:60 | the substitution that deletes each "```json" with the white space after it and each other "```", never longer than its input; Parser.StripFencesRemovesFences and Parser.StripFencesIdentity state what it removes |
| Parser.Clean | run_inference.py:60 | the text handed to `json.loads`; Parser.CleanIsBare and Parser.CleanIdempotent state its shape |
| Parser.StripFencesRemovesFences | run_inference.py:60 | after the substitution no three-backtick fence is left in the text |
| Parser.StripFencesIdentity | run_inference.py:60 | text without a fence passes the substitution unchanged |
| Parser.CleanIsBare | run_inference.py:60 | the text given to `json.loads` holds no fence and has no white space at either end |
| Parser.CleanIdempotent | run_inference.py:60 | cleaning an already cleaned text changes nothing |
| Parser.ParseIgnoresCleaning | run_inference.py:58-60 | parsing the cleaned text gives the same result as parsing the raw text |
| Parser.Truncate | run_inference.py:65 | `int()` of a float rounds toward zero |
| Parser.Digits | run_inference.py:65 | dropping the underscores of an `int()` literal leaves only digits, and the text is unchanged when it has none |
| Parser.DigitsAppend | run_inference.py:65 | underscores are dropped piece by piece: the digits of a concatenation are the digits of its parts |
| Parser.DigitsOfOne | run_inference.py:65 | an underscore is dropped and a digit kept |
| Parser.IntStrip | run_inference.py:65 | the text `int()` reads has none of the white space it skips at either end |
| Parser.IntLiteral | run_inference.py:65 | `int()` on a str; its meaning is stated by the round trip, the white-space, underscore and digit-limit lemmas below |
| Parser.IntLiteralRoundTrip | run_inference.py:65 | `int(str(n)) == n` for every integer of at most 4300 digits, negative ones included |
| Parser.IntSkipsSpace | run_inference.py:65 | `int()` ignores a space before the digits and a line feed after them |
| Parser.SeparatorIsNotIntSpace | run_inference.py:65 | text that starts with one of U+001C to U+001F is refused by `int()`, whatever follows |
| Parser.StripDropsSeparator | run_inference.py:60 | `strip()`, by contrast, removes such a leading separator |
| Parser.UnderscoreKeepsValue | run_inference.py:65 | `int()` ignores an underscore between two runs of digits: `int("1_000") == int("1000")` |
| Parser.TooManyDigits | run_inference.py:65 | `int()` refuses a run of more than 4300 digits, whatever its value |
| Parser.IntOf | run_inference.py:65 | `int()` of a decoded value never raises for a bool, an int or a finite float |
| Parser.NormalizeLabel | run_inference.py:63-64 | the label is SARCASM or NOT_SARCASM; Parser.LabelIgnoresCase says which |
| Parser.Message | run_inference.py:114-119 | `str(e)` for the exceptions that escape `parse_output`, in CPython's wording; Driver.Outcome puts it in the record |
| Parser.Interpret | run_inference.py:62-67 | on a decoded value: output exactly when it is an object whose `prediction` (if present) is a string and whose `confidence` (if present) converts with `int()`; the label is NOT_SARCASM exactly when the upper-cased prediction contains NOT, else SARCASM; confidence 50 when absent, else `int()` of it; reasoning as found, or the default text |
| Parser.Fallback | run_inference.py:68-81 | the fallback output has confidence 50 and a reasoning of `Parse error. Raw: ` followed by the first 200 characters of the text (all of it when shorter) |
| Parser.FallbackLabels | run_inference.py:70-76 | the fallback label is NOT_SARCASM exactly when the upper case contains NOT_SARCASM or NOT SARCASM; SARCASM exactly when it contains SARCASM and neither of those; UNKNOWN exactly when it does not contain SARCASM. Text naming NOT_SARCASM never resolves to SARCASM |
| Parser.ParseOutput | run_inference.py:58-81 | the result is SARCASM or NOT_SARCASM, or UNKNOWN only when the cleaned text did not decode; it raises only when the cleaned text decoded |
| Parser.UpperFindsCaseless | run_inference.py:63-64 | an ASCII word occurring in any mix of cases is found in the upper-cased text |
| Parser.UpperFindsOnlyCaseless | run_inference.py:63-64 | on ASCII text, a word found in the upper-cased text occurs there in some mix of cases |
| Parser.LabelIgnoresCase | run_inference.py:63-64 | a prediction holding NOT in any casing normalises to NOT_SARCASM; for an ASCII prediction nothing else does |
| Parser.CanonicalLabelsAreFixed | run_inference.py:64 | SARCASM normalises to SARCASM and NOT_SARCASM to NOT_SARCASM |
| Parser.InterpretRoundTrip | run_inference.py:62-67 | an object with a canonical label, an integer confidence (as a number or as its decimal text) and a reasoning string is read back as exactly those fields |
| Parser.ParseRoundTrip | run_inference.py:58-67 | a reply that is already bare JSON with those fields parses to exactly those fields |
| Parser.FreeTextFallsBack | run_inference.py:58-72 | a reply whose cleaned text is not JSON and says "not sarcasm" in any casing is labelled NOT_SARCASM, whatever fences and white space surround it |
| Parser.CleanTextFallsBack | run_inference.py:60-72 | the same for the cleaned text itself |
| Parser.BareTextFallsBack | run_inference.py:68-72 | the same for a reply that is already clean |
| Driver.Outcome | run_inference.py:107-120 | the prediction is SARCASM, NOT_SARCASM, UNKNOWN or ERROR; it is ERROR exactly when the call failed or the parser raised, and then the confidence is 0 and the reasoning is `str(e)`: the call's message, or the parser exception's `Message`; after a successful call that the parser answers, the outcome is the parser's output |
| Driver.Answer | run_inference.py:105-120 | the outcome of trial `i`: the model is asked with the trial's prompt and its reply goes through the `try` block |
| Driver.Step | run_inference.py:104-131 | the record for a trial carries that trial's id, context, response and ground-truth label |
| Driver.Processed | run_inference.py:103-132 | the records of a run of the loop are one per trial, in trial order, each carrying its trial's fields |
| Driver.CountCorrect | run_inference.py:99-101 | the number of records whose prediction equals their ground truth, never more than the records |
| Driver.LiveHistory | run_inference.py:133-145 | the live accuracies shown, one per trial processed in this run; Driver.RunTrials and Driver.AppendStep tie it to the loop |
| Driver.Saves | run_inference.py:147-150 | the contents written by the loop; Driver.SavesAtCadence and Driver.SavesArePrefixes state them |
| Driver.NonError | run_inference.py:158 | the records kept for the final accuracy: none is an ERROR record, and none is added |
| Driver.FinalSummary | run_inference.py:158-160 | the final line; Driver.SummaryAgainstLive states it against the live count |
| Driver.ProcessedAt | run_inference.py:103-132 | the k-th record of a run of the loop is the record for trial start + k |
| Driver.RunInference | run_inference.py:84-160 | the results are the saved records followed by one record per remaining trial; the file is overwritten with `Saves` and then the full results; the live accuracies are `LiveHistory`; the summary is `FinalSummary` |
| Driver.RunTrials | run_inference.py:103-152 | after the loop the results are the saved records followed by the record of every remaining trial, in order; the saves are `Saves` and the live accuracies `LiveHistory` of those results |
| Driver.RecordTrial | run_inference.py:104-150 | one pass of the loop body, from the prompt to the checkpoint, extends the results by the next trial's record and keeps the correct count, the live accuracies and the saves in step with them |
| Driver.NextRecord | run_inference.py:124-132 | the record the loop body merges from the trial and its outcome is the next record of `Processed` |
| Driver.AppendStep | run_inference.py:132-150 | appending a record adds its own contribution to the correct count, the error count, the live history and the saves, and nothing else |
| Driver.KeepsBookkeeping | run_inference.py:132-150 | the loop's count, live accuracy and saves after a trial equal the specification functions of the extended results |
| Driver.CheckpointCadence | run_inference.py:148-150 | the file is overwritten in the loop exactly after the trials whose 1-based index is a multiple of 25, in increasing order |
| Driver.FreshRunCheckpoints | run_inference.py:148-150 | from a fresh start over n trials there are n / 25 saves in the loop, the k-th holding 25 (k + 1) records |
| Driver.SavesAtCadence | run_inference.py:147-150 | the saves written by a run have exactly the lengths of that cadence |
| Driver.SavesArePrefixes | run_inference.py:147-150 | every save holds the results as they stood at that point, a prefix of the final results |
| Driver.ResumeEquivalence | run_inference.py:90-103 | resuming after a prefix of a run's records reproduces exactly the records of an uninterrupted run (for the same replies) |
| Driver.ResultsFollowTrials | run_inference.py:90-132 | when the saved records match the first trials, the final results match every trial, in order |
| Driver.NonErrorCount | run_inference.py:158 | the records kept for the final accuracy and the ERROR records together make up all records |
| Driver.FinalDropsOnlyErrors | run_inference.py:158-159 | when no trial is labelled ERROR, dropping the errors loses no correct record, and the final denominator is the live one minus the errors |
| Driver.SummaryAgainstLive | run_inference.py:134-160 | the final summary counts the same correct records as the last live accuracy, over the records that are not errors, and is a division by zero when all are errors |
| Driver.ThreeRecordCounts | run_inference.py:134-160 | for two correct records then an error, the live accuracies are 1/1, 2/2, 2/3 and the final accuracy is 2/2 |
| Driver.ThreeRecordHistory | run_inference.py:134-145 | after two correct records and a wrong one, the live accuracies shown are 1/1, 2/2 and 2/3 |
| Driver.ThreeRecordTallies | run_inference.py:134-158 | two correct records followed by an ERROR record count two correct and one error |
| Driver.ThreeRecordSummary | run_inference.py:158-160 | for two correct records then an error, the final accuracy is 2/2 |
| Driver.ThreeTrialRun | run_inference.py:84-160 | three trials answered by a JSON reply, a free text saying "not sarcasm" and a failed call are predicted SARCASM, NOT_SARCASM and ERROR, with live accuracies 1/1, 2/2, 2/3 and a final accuracy of 2/2 |

## Left out

- The network call (`client.messages.create`, lines 108-112) is the parameter `ask`. Model name, token limit and API key (lines 32-39) are configuration and are not modelled.
- The decoder (`json.loads`, line 62) is the parameter `loads`. The model does not decode JSON text itself.
- Reading the dataset and the saved file, and writing the output file (lines 86-96, 149-150, 155-156), are not modelled as I/O. The trials and the saved records are inputs, and the writes are the `checkpoints` list. A saved file that is malformed, or whose records lack keys, is not modelled.
- A crash part-way through a write, and the resulting truncated file, are not modelled.
- `time.sleep` (lines 121, 152) has no observable effect on the results and is left out.
- The progress and summary lines (lines 88, 97, 115, 139-145, 160) are not printed. The model keeps the accuracies they show as exact `Ratio` and `Summary` values. Float formatting and percentages are left out.
- Driver.Outcome: the `str(e)` of a failed call is whatever text the exception gives. For exceptions raised by the parser, the message follows CPython's wording, and an `invalid literal for int()` message keeps the first 200 characters of the quoted text. The escaping `repr` applies to quotes, backslashes and unprintable characters is not reproduced.
- Keys of the decoded object other than `prediction`, `confidence` and `reasoning` are not carried along, because the driver reads only those three.
- Text.UpperChar: `str.upper` is modelled for ASCII letters and for the non-ASCII characters whose upper case holds an ASCII letter. Other non-ASCII characters are kept as they are, which cannot change whether NOT, NOT_SARCASM, NOT SARCASM or SARCASM is found.
- Parser.IntLiteral: `int()` on text accepts ASCII digits only, not the other Unicode decimal digits Python accepts. The digit limit is the default of Python 3.11 and later; older versions have none, and `sys.set_int_max_str_digits` can change it. When more than 4300 digits are followed by other characters, CPython reports the digit limit, and Parser.Message reports an invalid literal instead. Both raise `ValueError`, so the record is `ERROR` either way.
- Context entries that are not strings (the f-string would format them with `str()`) are not modelled: the context is a sequence of strings.
- Exceptions other than those listed above, such as `RecursionError` from deeply nested JSON or a `KeyboardInterrupt`, are not modelled.
