/**
 * The `SpamChecker` component's session state and its handlers
 * (SpamChecker.jsx). Each React state variable is a field; each handler is a
 * method that changes the fields its setters change. The persistence effect
 * that runs after every change of `history` is folded into the methods that
 * change it, as a write of `Save`.
 */
module Checker {
  import opened Wrappers
  import opened Text
  import opened History
  import opened Pipeline
  import opened Picker

  class SpamChecker {
    /** The example table (eight entries in the component). */
    const examples: seq<Example>

    var text: string
    var loading: bool
    var result: Option<Response>
    var error: Option<string>
    var history: seq<CheckEntry>
    var lastExampleIndex: Option<nat>
    /** The browser's local storage, as this component leaves it. */
    var storage: Storage

    /**
     * The stored record always mirrors the capped history, and the remembered
     * example index points into the table.
     */
    ghost predicate Valid()
      reads this`storage, this`history, this`lastExampleIndex
    {
      && HISTORY_KEY in storage
      && storage[HISTORY_KEY] == Decoded(Persisted(history))
      && (lastExampleIndex.Some? ==> lastExampleIndex.value < |examples|)
    }

    /**
     * Mounting the component: empty session state, the history loaded from
     * `initial` (an absent or undecodable record leaves it empty), and the
     * loaded history written back, capped.
     */
    constructor (examples: seq<Example>, initial: Storage)
      ensures Valid()
      ensures this.examples == examples
      ensures text == "" && !loading && result == None && error == None
      ensures lastExampleIndex == None
      ensures history == Load(initial)
      ensures storage == Save(initial, history)
    {
      this.examples := examples;
      text := "";
      loading := false;
      result := None;
      error := None;
      lastExampleIndex := None;
      history := Load(initial);
      storage := Save(initial, Load(initial));
    }

    /** The textarea's change handler. */
    method Edit(newText: string)
      requires Valid()
      modifies this`text
      ensures Valid()
      ensures text == newText
    {
      text := newText;
    }

    /**
     * The part of `handlePredict` before its request: clear the result and the
     * error, then either reject whitespace-only input with the validation
     * message, sending nothing, or raise `loading` and send the trimmed text.
     * `seen` is the `text` of the render whose handler runs.
     */
    method BeginPredict(seen: string) returns (request: Option<string>)
      requires Valid()
      modifies this`result, this`error, this`loading
      ensures Valid()
      ensures request == Validate(seen)
      ensures result == None
      ensures request.None? ==> error == Some(VALIDATION_MESSAGE) && loading == old(loading)
      ensures request.Some? ==> error == None && loading
    {
      request := Validate(seen);
      error := None;
      result := None;
      if request.None? {
        error := Some(VALIDATION_MESSAGE);
        return;
      }
      loading := true;
    }

    /**
     * The part of `handlePredict` after its request settles. A reply becomes
     * the result and one new entry, built from the request with clock
     * readings `id` and `time`, is pushed and persisted; a failure sets the
     * service error and leaves result and history alone. Either way `loading`
     * ends false.
     */
    method Settle(request: string, outcome: Outcome, id: int, time: int)
      requires Valid()
      modifies this`result, this`error, this`loading, this`history, this`storage
      ensures Valid()
      ensures !loading
      ensures outcome.Success? ==>
                && result == Some(outcome.data)
                && error == old(error)
                && history == Push(old(history), MakeEntry(request, outcome.data, id, time))
                && storage == Save(old(storage), history)
      ensures outcome.Failure? ==>
                && result == old(result)
                && error == Some(SERVICE_ERROR_MESSAGE)
                && history == old(history)
                && storage == old(storage)
    {
      match outcome {
        case Success(data) =>
          result := Some(data);
          history := Push(history, MakeEntry(request, data, id, time));
          storage := Save(storage, history);
        case Failure =>
          error := Some(SERVICE_ERROR_MESSAGE);
      }
      loading := false;
    }

    /**
     * A click on Predict whose request settles with `outcome` before anything
     * else happens: `handlePredict` from start to end on the current text.
     */
    method HandlePredict(outcome: Outcome, id: int, time: int) returns (request: Option<string>)
      requires Valid()
      modifies this`result, this`error, this`loading, this`history, this`storage
      ensures Valid()
      ensures request == Validate(text)
      ensures request.None? ==>
                && result == None && error == Some(VALIDATION_MESSAGE)
                && loading == old(loading)
                && history == old(history) && storage == old(storage)
      ensures request.Some? && outcome.Success? ==>
                && result == Some(outcome.data) && error == None && !loading
                && history == Push(old(history), MakeEntry(request.value, outcome.data, id, time))
                && storage == Save(old(storage), history)
      ensures request.Some? && outcome.Failure? ==>
                && result == None && error == Some(SERVICE_ERROR_MESSAGE) && !loading
                && history == old(history) && storage == old(storage)
    {
      request := BeginPredict(text);
      if request.Some? {
        Settle(request.value, outcome, id, time);
      }
    }

    /** The Reset button: empty input, no result, no error. */
    method Reset()
      requires Valid()
      modifies this`text, this`result, this`error
      ensures Valid()
      ensures text == "" && result == None && error == None
    {
      text := "";
      result := None;
      error := None;
    }

    /**
     * `handleReRun` as written: it puts the entry's text in the input box and
     * schedules a submission, but the scheduled handler is the one of the
     * render in which Re-run was clicked, so the text it submits (`scheduled`)
     * is the input as it was before the click.
     */
    method ReRunAsWritten(item: CheckEntry) returns (scheduled: string)
      requires Valid()
      modifies this`text
      ensures Valid()
      ensures text == item.text
      ensures scheduled == old(text)
    {
      scheduled := text;
      text := item.text;
    }

    /**
     * `handleReRun` as intended: the entry's text goes into the input box and
     * is also the text the delayed submission validates and sends.
     */
    method ReRun(item: CheckEntry) returns (scheduled: string)
      requires Valid()
      modifies this`text
      ensures Valid()
      ensures text == item.text
      ensures scheduled == item.text
    {
      text := item.text;
      scheduled := item.text;
    }

    /** The Clear button: only a confirmed clear empties (and persists) the history. */
    method ClearHistory(confirmed: bool)
      requires Valid()
      modifies this`history, this`storage
      ensures Valid()
      ensures confirmed ==> history == [] && storage == Save(old(storage), [])
      ensures !confirmed ==> history == old(history) && storage == old(storage)
    {
      if !confirmed {
        return;
      }
      history := [];
      storage := Save(storage, history);
    }

    /**
     * The Insert Example button. With an empty table nothing happens.
     * Otherwise the index chosen from `draws` becomes the remembered one, its
     * example's text replaces the input, and result and error are cleared.
     */
    method InsertRandomExample(draws: seq<nat>)
      requires Valid()
      requires |examples| > 1 ==> |draws| >= MAX_ATTEMPTS && forall k | 0 <= k < |draws| :: draws[k] < |examples|
      modifies this`lastExampleIndex, this`text, this`result, this`error
      ensures Valid()
      ensures |examples| == 0 ==>
                && lastExampleIndex == old(lastExampleIndex) && text == old(text)
                && result == old(result) && error == old(error)
      ensures |examples| > 0 ==>
                && lastExampleIndex.Some?
                && (exists attempts :: SampledBy(lastExampleIndex.value, attempts, |examples|, old(lastExampleIndex), draws))
                && text == examples[lastExampleIndex.value].text
                && result == None && error == None
    {
      if |examples| == 0 {
        return;
      }
      var idx, attempts := ChooseIndex(|examples|, lastExampleIndex, draws);
      lastExampleIndex := Some(idx);
      text := examples[idx].text;
      result := None;
      error := None;
    }
  }

  /**
   * Re-running the entry "win" from an empty input box, with the handler as
   * written and as intended: the delayed submission of the former validates
   * the stale empty text and sends nothing, the latter sends "win".
   */
  method StaleReRunScenario() returns (asWritten: Option<string>, corrected: Option<string>)
    ensures asWritten == None
    ensures corrected == Some("win")
  {
    var item := CheckEntry(0, "win", 1, None, 0);
    StaleReRunCounterexample();
    var stale := new SpamChecker([], map[]);
    var scheduled := stale.ReRunAsWritten(item);
    asWritten := stale.BeginPredict(scheduled);
    var fixed := new SpamChecker([], map[]);
    scheduled := fixed.ReRun(item);
    corrected := fixed.BeginPredict(scheduled);
  }
}
