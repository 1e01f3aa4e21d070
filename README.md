# Spam checker client state, in Dafny

This project models the interaction state of the `SpamChecker` component in the
email spam classification front end. The user pastes an email into a text box
and presses Predict. The component trims the text and rejects it if nothing is
left. Otherwise it sends one request to the remote classifier and shows the
label it returns. Each successful check is recorded in a newest-first history
of at most seven entries, kept in the browser's local storage. The user can
re-run an entry, clear the history (after a confirmation), reset the input, or
insert a random example text. The picker tries not to repeat the previous
example.

Modules:

- `Wrappers`: `Option`, which stands for JavaScript's `null`.
- `Text`: ECMAScript `trim` over the exact WhiteSpace/LineTerminator code point
  set, and `slice(0, n)`.
- `History`: the `CheckEntry` record, `Push` (`pushHistory`), `Persisted` (the
  prefix written to storage), and `Save`/`Load` over a key-value storage whose
  values are either decoded entry lists or undecodable.
- `Pipeline`: input validation, the classifier reply, and the entry built from
  a successful reply.
- `Picker`: the bounded-retry index sampler of `insertRandomExample`.
- `Checker`: the class `SpamChecker`. It has one field per piece of React
  state, plus the storage. It has one method per handler.

The outside world is modelled as parameters:

- The fetch outcome is an `Outcome` (`Success(data)` or `Failure`).
- Local storage plus `JSON.parse` is a `Storage` map whose values are
  `Decoded(entries)` or `Undecodable`.
- `Date.now()` is given as two clock readings, `id` and `time`.
- `Math.random` is a sequence of draws, each already scaled to an index.
- `confirm` is a boolean.

`handlePredict` awaits its request, so it is modelled in two steps.
`BeginPredict` runs up to the request. `Settle` runs after it settles. Other
handlers may run in between. `HandlePredict` is the click with nothing in
between.

Four behaviours of the code are easy to misread; the model follows the code:

- Re-run does not clear the result or the error itself. Only the delayed
  `handlePredict` does.
- Nothing guards against a second submit while a request is in flight, apart
  from the disabled button.
- Loading does not cut a stored history down to the cap. A longer stored list
  becomes the in-memory history as it is; only what is written back is capped.
  So `|history| <= 7` is guaranteed after every push, not as an invariant.
- At mount the persistence effect writes the capped loaded history back. An
  undecodable record is therefore replaced by an empty list.

## Model

| member | source | states |
|---|---|---|
| `Text.SkipForward` | spam-frontend/src/components/SpamChecker.jsx:58 | the leading run that `trim` removes: all whitespace, and followed by a non-whitespace character or the end |
| `Text.SkipBackward` | spam-frontend/src/components/SpamChecker.jsx:58 | the trailing run that `trim` removes: all whitespace, and preceded by a non-whitespace character or the start of the kept text |
| `Text.Trim` | spam-frontend/src/components/SpamChecker.jsx:58 | `text.trim()` is the slice after the leading whitespace, followed only by whitespace; it is empty iff the input is all whitespace, and otherwise has non-whitespace at both ends |
| `Text.TrimIdempotent` | spam-frontend/src/components/SpamChecker.jsx:58 | trimming twice is trimming once |
| `Text.Prefix` | spam-frontend/src/components/SpamChecker.jsx:75 | `slice(0, n)` is a prefix of length `min(|s|, n)` |
| `History.Push` | spam-frontend/src/components/SpamChecker.jsx:50-52 | `pushHistory`: the new entry is at the head, the length is `min(|old|+1, 7)`, and `new[i+1] == old[i]` for every kept position |
| `History.PushEvictsOldest` | spam-frontend/src/components/SpamChecker.jsx:50-52 | pushing onto a full history drops exactly the oldest entry |
| `History.Persisted` | spam-frontend/src/components/SpamChecker.jsx:46-48 | the written value is the first `min(|history|, 7)` entries of the history, and so the whole history when it is within the cap |
| `History.Save` | spam-frontend/src/components/SpamChecker.jsx:46-48 | the persistence effect overwrites `spam_history_v1` with the capped history and leaves every other key as it was |
| `History.Load` | spam-frontend/src/components/SpamChecker.jsx:37-44 | the mount effect: an absent or undecodable record gives the empty history, and a decoded one is taken whole |
| `History.ReloadRoundTrip` | spam-frontend/src/components/SpamChecker.jsx:37-48 | reloading after a save gives the saved prefix, which is the whole history within the cap; a cleared history reloads empty |
| `History.PushIsPersistedWhole` | spam-frontend/src/components/SpamChecker.jsx:46-52 | after a push the stored value equals the in-memory history |
| `History.PushIgnoresUnpersistedTail` | spam-frontend/src/components/SpamChecker.jsx:46-52 | a push onto the reloaded prefix equals a push onto the full in-memory history, so the tail that persistence drops is never needed |
| `History.PushAllWindow` | spam-frontend/src/components/SpamChecker.jsx:50-52 | after any run of pushes the history is the newest entries in completion order, newest first, then the older history, cut at 7 |
| `Pipeline.Validate` | spam-frontend/src/components/SpamChecker.jsx:58-62 | a request is sent iff the input is not all whitespace, and it carries the trimmed, non-empty text |
| `Pipeline.ValidateIdempotent` | spam-frontend/src/components/SpamChecker.jsx:58-62 | validating a request text again sends the same text |
| `Pipeline.MakeEntry` | spam-frontend/src/components/SpamChecker.jsx:73-79 | the entry text is exactly the first `min(|request|, 500)` characters of the request (the whole request if shorter); the label, probabilities and clock readings are the reply's and the clock's |
| `Pipeline.EntryTextRevalidates` | spam-frontend/src/components/SpamChecker.jsx:58-80 | a recorded entry's text, even when cut to 500 characters, passes validation again |
| `Pipeline.StaleReRunCounterexample` | spam-frontend/src/components/SpamChecker.jsx:97-100 | the two validation facts the re-run scenario rests on: the empty text is rejected, and "win" is sent unchanged |
| `Checker.StaleReRunScenario` | spam-frontend/src/components/SpamChecker.jsx:97-100 | from an empty input box, the as-written re-run of entry "win" followed by its delayed submission sends nothing, while the corrected re-run sends "win" |
| `Picker.ChooseIndex` | spam-frontend/src/components/SpamChecker.jsx:111-122 | the chosen index is in range; one example needs no draw and gives 0; otherwise at most 8 draws, the first draw other than the last index is accepted, else the eighth |
| `Picker.SampledByUnique` | spam-frontend/src/components/SpamChecker.jsx:117-121 | the draws determine the chosen index and the number of attempts |
| `Picker.FirstFreshDrawChosen` | spam-frontend/src/components/SpamChecker.jsx:117-121 | if one of the first 8 draws differs from the last index, the first such draw is chosen, so nothing repeats |
| `Picker.RepeatAcceptedAfterMaxAttempts` | spam-frontend/src/components/SpamChecker.jsx:117-121 | if all 8 draws repeat the last index, the eighth draw is accepted after exactly 8 attempts |
| `Checker.SpamChecker.constructor` | spam-frontend/src/components/SpamChecker.jsx:14-48 | mount: empty session state, history loaded from storage, capped history written back |
| `Checker.SpamChecker.Edit` | spam-frontend/src/components/SpamChecker.jsx:142 | typing replaces the text and nothing else |
| `Checker.SpamChecker.BeginPredict` | spam-frontend/src/components/SpamChecker.jsx:54-63 | clears result and error; whitespace-only input sets the validation message and sends nothing, leaving loading and history alone; otherwise loading is set and the trimmed text is sent |
| `Checker.SpamChecker.Settle` | spam-frontend/src/components/SpamChecker.jsx:64-86 | success: result is the reply and exactly one entry is pushed and persisted; failure: the service error is set, and result and history are untouched; loading ends false on both paths |
| `Checker.SpamChecker.HandlePredict` | spam-frontend/src/components/SpamChecker.jsx:54-87 | the whole handler: validation error with no request, or success with one pushed entry, or failure with a null result and unchanged history; loading is false after a request |
| `Checker.SpamChecker.Reset` | spam-frontend/src/components/SpamChecker.jsx:89-94 | empty text, no result, no error, history untouched |
| `Checker.SpamChecker.ReRunAsWritten` | spam-frontend/src/components/SpamChecker.jsx:97-101 | the text becomes the entry's text, but the scheduled submission reads the text from before the click |
| `Checker.SpamChecker.ReRun` | spam-frontend/src/components/SpamChecker.jsx:97-101 | corrected re-run: the text and the scheduled submission are both the entry's text |
| `Checker.SpamChecker.ClearHistory` | spam-frontend/src/components/SpamChecker.jsx:103-106 | a confirmed clear empties and persists the history; otherwise nothing changes |
| `Checker.SpamChecker.InsertRandomExample` | spam-frontend/src/components/SpamChecker.jsx:110-128 | an empty table changes nothing; otherwise the sampled index is remembered, its text replaces the input, result and error are cleared, and history is untouched |

## Left out

- Rendering (lines 130-222), `nowReadable` date formatting, focusing the text
  area, and console logging are presentation and side effects.
- The confidence percentage shown for an entry is floating-point formatting.
- The example texts and their labels are data. The picker is modelled over any
  table; the component's table has 8 entries.
- JSON encoding is not modelled. A stored record is either decoded entries or
  `Undecodable`. An empty stored string counts as undecodable, since the
  source skips it in the same way. Values that parse to something other than
  an entry list (such as `null`) are not modelled.
- Write failures of local storage are not modelled; every save succeeds.
- The fetch call, its URL and headers, and `res.json()` are one `Outcome`
  parameter. A reply body that decodes to `null` is not modelled.
- The 120 ms `setTimeout` delay of re-run is left out. The re-run methods
  return the text the delayed submission will validate; that submission is a
  later `BeginPredict` with that text.
- Text.Prefix: counts characters as Unicode scalar values. JavaScript `slice`
  counts UTF-16 code units and can split a surrogate pair. Lone surrogates
  cannot be represented.
- `HISTORY_KEY` storage is modelled per component instance. Sharing between
  browser tabs is out of scope.

## Findings

| source | as written | input that shows it | evidently intended | confidence | as-written member | corrected member |
|---|---|---|---|---|---|---|
| spam-frontend/src/components/SpamChecker.jsx:97-100 | `handleReRun` sets the text and then schedules the `handlePredict` closure of the same render. That closure still sees the old `text`, so the delayed request validates and sends the input as it was before the click. | The input box is empty and the user clicks Re-run on an entry whose text is "win". The validation message appears and nothing is sent. | The delayed submission sends the entry's text, as the comment on line 99 says. | not executed | `Checker.StaleReRunScenario` | `Checker.SpamChecker.ReRun` |
