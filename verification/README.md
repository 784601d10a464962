# Topic Shuffle, modelled in Dafny

Topic Shuffle is a single-page flash-card quiz. At page load it fetches
`questions.json` and checks it all at once. A payload is accepted only if
its root is an object and its `questions` property is a non-empty array of
objects with non-blank `text`, `translation` and `tip` strings. Every
string is trimmed, and the topic falls back to "Topic Shuffle". Starting a
session zeroes the counters and shuffles the question indices with
Fisher–Yates. The questions are then shown in queue order. On each
question the user may open the translation or the tip, which reduces the
points for an answer, and then either answer or skip. Once the queue is
exhausted the summary shows the score, the answer and skip counts, and how
many questions had a tip or translation opened.

This project models that controller as pure functions over an immutable
state and proves what it promises:

- the validator accepts exactly the well-formed payloads and returns
  their trimmed contents; an error names the first offending question
  and field;
- the shuffle always produces a permutation of the question indices;
- every handler keeps a state invariant;
- a session presents each question exactly once, in queue order, and
  then shows the summary;
- an answer is worth 2 to 5 points;
- each hint is counted at most once per question.

Modules (one file each):

- `Wrappers`: `Option` and `Result`.
- `Text`: JavaScript `String.prototype.trim`.
- `Json`: the parsed response body.
- `Mapping`: `Array.prototype.map` with a callback that may throw.
- `Validator`: `validateQuestionData`.
- `Queue`: `createShuffledQueue`.
- `Session`: loading and the handlers.
- `Play`: sequences of clicks.

`Math.random` is abstracted as the list of swap partners the shuffle
draws. At step `k` the loop is at position `i = count-1-k` and picks any
`j` in `[0, i]`, so every arrangement the source can produce is covered.

The source's two state objects are kept as records:

- `DataState` holds the topic, the questions, the queue and the current
  index.
- `SessionState` holds the counters, the pointer `totalAsked` and the
  current hint flags.

The page state the controller reads back or gates on is a `Screen`
record:

- the active view;
- whether start is enabled;
- whether each hint block is shown. The source reads this from the
  block's `hidden` class.

A JavaScript `undefined` from reading past the end of the queue is
modelled as `None`, because every caller's `== null` test treats it like
`null`.

Answering, skipping and opening hints are not disabled once a session is
finished. The finished state keeps the last question as `currentIndex`,
and the handlers test only that. So an answer handled after the summary
still scores. In the page the buttons are hidden at that point.
`Play.AnswerAfterSummaryStillScores` states this behaviour.

## Model

| member | source | states |
|---|---|---|
| `Text.Trim` | app.js:111-133 | `String.prototype.trim` is never longer than its input; the result is empty or begins and ends with a non-space character, and it is empty exactly when the original holds nothing but white space, which is the `trim().length === 0` test |
| `Text.TrimIsInnerSlice` | app.js:123-127 | `trim` keeps a contiguous slice of the input, with only white space before and after it |
| `Text.TrimIdempotent` | app.js:123-133 | trimming an already trimmed value changes nothing, so every stored field and topic is in normal form |
| `Json.Get` | app.js:98 | destructuring a property gives the stored value when the key is present and `undefined` otherwise |
| `Mapping.MapOrFail` | app.js:104-128 | `questions.map` with a throwing callback succeeds exactly when the callback succeeds on every element; it then yields one result per element, in order, each the callback's value on that element and its index |
| `Mapping.MapFailsAtFirstFailure` | app.js:104-128 | a failed map reports the error of the first element the callback refuses; every earlier element passed |
| `Validator.RequiredField` | app.js:111-121 | a field check passes exactly when the field is a string that is not blank; its value is then the trimmed string, and otherwise the error names the question index and the field |
| `Validator.ValidateItem` | app.js:105-127 | an item passes exactly when it is an object with all three fields non-blank, and it yields their trimmed values; otherwise the error is the first failing check, in the order object, text, translation, tip |
| `Validator.MapValidateItem` | app.js:104-128 | mapping the item check over the questions succeeds exactly when every item is valid and yields each item's sanitised form in order; a failure is an item error with an index inside the array |
| `Validator.ResolveTopic` | app.js:130-134 | the topic is the trimmed `topic` when that is a string that is not blank, and "Topic Shuffle" otherwise; either way it is non-empty and trimmed |
| `Validator.ValidateQuestionData` | app.js:93-137 | the payload is accepted exactly when it is valid; a non-object root and a missing or empty `questions` array each give their own error, and each happens exactly in its case; an accepted payload yields every question sanitised, in order, plus the resolved topic |
| `Validator.ValidationReportsFirstFault` | app.js:104-121 | an item error names the first invalid question, and for it the first failing check; all earlier questions are valid |
| `Validator.SanitizedIsNormalised` | app.js:123-127 | each field of a sanitised question is non-empty and already trimmed |
| `Validator.ValidatedDataIsNormalised` | app.js:130-136 | accepted data has at least one question, every question normalised, and a non-empty trimmed topic |
| `Queue.Shuffle` | app.js:140-144 | each arrangement the Fisher–Yates loop passes through, after any number of in-range swaps, has length `count` and is a permutation of `0 .. count-1` |
| `Queue.ShuffleStep` | app.js:141-144 | one more iteration swaps position `count-1-k` with a partner drawn from `[0, count-1-k]` |
| `Queue.ShuffledQueue` | app.js:139-146 | for every possible sequence of random draws, the queue has length `count` and holds each index exactly once |
| `Queue.CreateShuffledQueue` | app.js:139-146 | the in-place loop on an array, drawing any partner in `[0, i]`, returns the same queue as the functional shuffle for the draws it made (kept as ghost, since the source returns only the array), and the draws are in range |
| `Queue.IotaCounts` | app.js:140 | the starting arrangement holds each index of `[0, count)` once and nothing else |
| `Queue.PermutationHasEachIndexOnce` | app.js:139-146 | a permutation of the indices has length `count`, holds only indices below `count`, holds every one of them, and holds none twice |
| `Session.Startup` | app.js:33-51 | before anything loads there is no topic, no question, an empty queue and no current question; the session is fresh, the start screen shows with start disabled (app.js:63-64), and the invariant holds |
| `Session.OnLoaded` | app.js:75-83 | an accepted payload stores the topic and questions, stores a permutation as the queue, clears the current index and enables start; the counters are untouched |
| `Session.OnLoadFailed` | app.js:84-90 | a failed load shows the error screen and disables start; the data is untouched |
| `Session.Load` | app.js:62-91 | start is enabled exactly when a response arrived and its body is a valid payload; the stored questions are then the validated ones; otherwise the error view shows and the data is unchanged |
| `Session.LoadAtStartup` | app.js:59-91 | from the initial state, a load leaves a state satisfying the invariant; success leaves at least one question on the start screen, and failure leaves no questions on the error screen |
| `Session.ResetSessionState` | app.js:185-201 | all counters, the pointer and the hint flags are zero or false, the queue is a fresh permutation, no question is current, and the invariant holds |
| `Session.GetNextQuestionIndex` | app.js:341-353 | with questions left, the pointer advances by one, the queue entry under it becomes current, and the hint flags clear; once the queue is exhausted nothing changes and `None` is returned; the counters and the loaded data are never touched |
| `Session.LoadNextQuestion` | app.js:203-234 | the counters and loaded data are never touched; with the queue exhausted only the summary view changes; otherwise the pointer advances by one, the hint flags clear and queue entry `totalAsked` becomes current, shown with both hint blocks hidden when it names a question; a read past the end of the queue shows the summary with no question current |
| `Session.LoadNextQuestionAdvances` | app.js:203-234 | from a valid state the next question is always in range, so the step presents queue entry `totalAsked` with fresh hidden hints, or shows the summary when the queue is exhausted; the counters are unchanged |
| `Session.LoadNextQuestionKeepsValid` | app.js:203-213 | moving to the next question keeps the invariant |
| `Session.BeginSession` | app.js:176-183 | with no questions it does nothing; otherwise it starts a fresh session on a fresh permutation, presents queue entry 0 on the session view with hidden hints, and the invariant holds |
| `Session.Points` | app.js:311-315 | an answer earns 5 points with no hint opened, 4 with only the translation opened, 3 with only the tip opened, and 2 with both |
| `Session.ToggleTranslation` | app.js:258-276 | with no current question nothing happens; otherwise the translation block flips, and the counter rises by one exactly when the block goes from hidden to shown before the translation was viewed for this question; nothing else changes |
| `Session.ToggleTip` | app.js:278-296 | the same as for the translation, for the tip block and `tipShown` |
| `Session.ToggleTranslationKeepsValid` | app.js:258-276 | opening or closing the translation keeps the invariant |
| `Session.ToggleTipKeepsValid` | app.js:278-296 | opening or closing the tip keeps the invariant |
| `Session.HandleSkip` | app.js:298-304 | with no current question nothing happens; otherwise exactly one skip is counted and the score, the answer count and the hint counters stay as they were |
| `Session.SkipAdvances` | app.js:298-304 | a skip moves the session on by exactly one question, or to the summary |
| `Session.SkipKeepsValid` | app.js:298-304 | a skip keeps the invariant |
| `Session.HandleAnswered` | app.js:306-319 | with no current question nothing happens; otherwise the score rises by the answer's points, between 2 and 5, and one answer is counted; the skip and hint counters are unchanged |
| `Session.ScoringKeepsValid` | app.js:311-316 | after scoring, the score is still between 2 and 5 points per answer |
| `Session.AnswerAdvances` | app.js:306-319 | an answer moves the session on by exactly one question, or to the summary |
| `Session.AnswerKeepsValid` | app.js:306-319 | an answer keeps the invariant |
| `Session.HandleRestart` | app.js:334-339 | the start screen shows with start enabled; the data, the counters and the hint blocks are unchanged |
| `Session.Remaining` | app.js:249-256 | the remaining count is never negative and never more than the number of questions; it is zero exactly when the queue is exhausted, and otherwise it is the number of questions not yet presented |
| `Play.Step` | app.js:53-58 | no handler wired to a button changes the loaded questions |
| `Play.Run` | app.js:53-58 | no sequence of clicks changes the loaded questions |
| `Play.StepKeepsValid` | app.js:53-58 | every button handler keeps the invariant |
| `Play.RunKeepsValid` | app.js:53-58 | every sequence of clicks keeps the invariant |
| `Play.SessionStep` | app.js:258-319 | while a question is on screen, a hint click leaves the pointer, the current question and the view alone; a skip or answer presents the next queue entry, or shows the summary once the queue is exhausted |
| `Play.RunWalksQueue` | app.js:298-353 | after `m` skips and answers the pointer has moved `m` places and never past the end; the invariant holds and a question stays current |
| `Play.RunCountsMoves` | app.js:298-324 | every skip or answer is counted once as one or the other; the summary shows exactly when a move is made with the queue exhausted |
| `Play.ShownAfterMoves` | app.js:203-213 | from the first question, after `m` moves the question on screen is queue entry `m`, or the last entry once the queue is exhausted |
| `Play.FullSessionFollowsQueue` | app.js:176-213 | after a start, the question on screen after the `m`-th move, for `m < n`, is queue entry `m`; the queue is a permutation, so every question is shown once |
| `Play.FullSessionEndsOnSummary` | app.js:298-332 | after a start and exactly `n` moves, the summary shows and answers plus skips equal `n`; the score is 2 to 5 points per answer, and each hint counter is at most `n` |
| `Play.HintsCountOncePerQuestion` | app.js:258-296 | any mix of hint clicks on one question raises each hint counter by one exactly when that hint had not been viewed and was clicked at least once; the score, the counts and the pointer stay as they were |
| `Play.AnswerAfterSummaryStillScores` | app.js:306-319 | once a finished session shows the summary, the last question is still current, so an answer handled then still scores and counts while the summary stays up |

## Left out

- Rendering is not modelled: text content, button labels, `aria-pressed`, focus, the start-screen labels (`updateStartScreen`), the status line text and the summary text (`updateSummaryView`). The model keeps the values these display.
- The `fetch` request, HTTP status handling and JSON parsing are not modelled. A failed request, a non-OK status and an unparsable body all become a `None` payload. The `cache` option and `console.error` logging are left out.
- Error message strings are not modelled. An error carries its kind, the question index and the field. The source's messages for a missing translation or tip quote the raw question text rather than the index. `showError`'s message formatting is display only.
- `Math.random` and the uniformity of the shuffle are not modelled. Draws are an input, and the model covers every draw the source can make, but not their probabilities.
- JSON numbers are integers in the model, because the validator only asks what kind each value is. A duplicated key keeps its last value, as `JSON.parse` does.
- Button gating by the page is not modelled. A disabled start button and buttons on a hidden view cannot be clicked; the model applies a handler whenever it is called, as the source's handlers do.
- `Session.ToggleTranslation`: the model reads the translation block's visibility from a flag instead of the `hidden` class. A missing block or button (the early return in `setHintVisibility`) is not modelled.
- `Session.ToggleTip`: the same, for the tip block.
- `Session.LoadNextQuestion`: when the next index has no question behind it, the source's `renderQuestion` throws before touching the hint blocks. The model keeps the state with the pointer advanced, which is what the source leaves. No valid state reaches this branch.
- `Play.FullSessionFollowsQueue`: shows the queue order through the current index after each prefix of clicks, rather than through a recorded list of rendered questions.
