/**
 * The pure parts of `handlePredict` (SpamChecker.jsx): validating the input,
 * the classifier's reply, and the history entry built from a successful reply.
 */
module Pipeline {
  import opened Wrappers
  import opened Text
  import opened History

  /** The longest text an entry keeps. */
  const ENTRY_TEXT_LIMIT: nat := 500

  const VALIDATION_MESSAGE: string := "Please enter email text to check."
  const SERVICE_ERROR_MESSAGE: string := "Could not reach the prediction service. Is backend running?"

  /**
   * The decoded body of a successful `/predict` reply: the label (0 ham,
   * 1 spam) and, when the reply has a truthy one, the probability matrix.
   */
  datatype Response = Response(prediction: int, probability: Option<Matrix>)

  /**
   * How the single request ends: a decoded reply, or a failure of any kind
   * (network error, a status other than ok, a body that does not decode).
   */
  datatype Outcome = Success(data: Response) | Failure

  /**
   * The request `handlePredict` would send for input `seen`: its trimmed
   * text, or none when nothing but whitespace is left.
   */
  function Validate(seen: string): (request: Option<string>)
    ensures request.None? <==> AllWhitespace(seen)
    ensures request.Some? ==> request.value == Trim(seen) && request.value != []
  {
    var trimmed := Trim(seen);
    if trimmed == [] then None else Some(trimmed)
  }

  /** A request text is stable: validating it again sends the same text. */
  lemma ValidateIdempotent(seen: string)
    requires Validate(seen).Some?
    ensures Validate(Validate(seen).value) == Validate(seen)
  {
    TrimIdempotent(seen);
  }

  /**
   * The entry recorded for a successful request: its text is the request cut
   * to at most ENTRY_TEXT_LIMIT characters, and its label and probabilities
   * are the reply's.
   */
  function MakeEntry(request: string, data: Response, id: int, time: int): (e: CheckEntry)
    ensures e.text == request[..Min(|request|, ENTRY_TEXT_LIMIT)]
    ensures |e.text| <= ENTRY_TEXT_LIMIT
    ensures |request| <= ENTRY_TEXT_LIMIT ==> e.text == request
    ensures e.prediction == data.prediction && e.probability == data.probability
    ensures e.id == id && e.time == time
  {
    CheckEntry(id, Prefix(request, ENTRY_TEXT_LIMIT), data.prediction, data.probability, time)
  }

  /**
   * Every entry the pipeline records can be submitted again: its text, though
   * possibly cut, still holds a non-whitespace character.
   */
  lemma EntryTextRevalidates(seen: string, data: Response, id: int, time: int)
    requires Validate(seen).Some?
    ensures Validate(MakeEntry(Validate(seen).value, data, id, time).text).Some?
  {
    var request := Validate(seen).value;
    var e := MakeEntry(request, data, id, time);
    assert e.text[0] == request[0];
  }

  /**
   * What validation does with the two texts a re-run of the entry "win" from
   * an empty input box can submit: the stale empty text is rejected, the
   * entry's own text is sent unchanged.
   */
  lemma StaleReRunCounterexample()
    ensures var item := CheckEntry(0, "win", 1, None, 0);
            && Validate("") == None
            && Validate(item.text) == Some("win")
  {
    var w := "win";
    assert w[0] == 'w' && w[2] == 'n';
    assert !IsWhitespace(w[0]) && !IsWhitespace(w[2]);
    assert !AllWhitespace(w);
    assert SkipForward(w, 0) == 0 && SkipBackward(w, 0, 3) == 3;
    assert Trim(w) == w[0..3] == w;
    assert Validate(w) == Some(w);
  }
}
