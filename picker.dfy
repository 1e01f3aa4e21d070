/**
 * The random example picker of `insertRandomExample` (SpamChecker.jsx): a
 * uniform draw over the example table, retried a bounded number of times to
 * avoid repeating the previously shown index.
 */
module Picker {
  import opened Wrappers

  /** The most draws the picker makes before accepting a repeat. */
  const MAX_ATTEMPTS: nat := 8

  datatype Label = Spam | Ham

  /** One seed example; its label (`category`) is illustrative and unused by the picker. */
  datatype Example = Example(text: string, category: Label)

  /**
   * Index `idx` is what the picker chooses after `attempts` draws from `draws`
   * over a table of `n` examples when `last` was shown before. A one-example
   * table needs no draw. Otherwise the picker accepts the first draw that is
   * not `last`, or the last of MAX_ATTEMPTS draws that all were.
   */
  predicate SampledBy(idx: nat, attempts: nat, n: nat, last: Option<nat>, draws: seq<nat>)
  {
    if n == 1 then idx == 0 && attempts == 0
    else
      && 1 <= attempts <= MAX_ATTEMPTS
      && attempts <= |draws|
      && idx == draws[attempts - 1]
      && (forall j | 0 <= j < attempts - 1 :: Some(draws[j]) == last)
      && (Some(idx) != last || attempts == MAX_ATTEMPTS)
  }

  /**
   * The index-choosing part of `insertRandomExample`. Each element of `draws`
   * is one `Math.floor(Math.random() * n)`, in the order they are drawn.
   */
  method ChooseIndex(n: nat, last: Option<nat>, draws: seq<nat>) returns (idx: nat, attempts: nat)
    requires n > 0
    requires n > 1 ==> |draws| >= MAX_ATTEMPTS && forall k | 0 <= k < |draws| :: draws[k] < n
    ensures idx < n
    ensures attempts <= MAX_ATTEMPTS
    ensures SampledBy(idx, attempts, n, last, draws)
  {
    if n == 1 {
      idx, attempts := 0, 0;
    } else {
      // The first pass through the do-while body.
      idx, attempts := draws[0], 1;
      while Some(idx) == last && attempts < MAX_ATTEMPTS
        invariant 1 <= attempts <= MAX_ATTEMPTS
        invariant idx == draws[attempts - 1]
        invariant forall j | 0 <= j < attempts - 1 :: Some(draws[j]) == last
        decreases MAX_ATTEMPTS - attempts
      {
        idx, attempts := draws[attempts], attempts + 1;
      }
    }
  }

  /** The draws determine the choice: at most one index and count fit them. */
  lemma SampledByUnique(idx1: nat, a1: nat, idx2: nat, a2: nat, n: nat, last: Option<nat>, draws: seq<nat>)
    requires SampledBy(idx1, a1, n, last, draws)
    requires SampledBy(idx2, a2, n, last, draws)
    ensures idx1 == idx2 && a1 == a2
  {

  }

  /**
   * When one of the first MAX_ATTEMPTS draws differs from the last shown
   * index, the first such draw is the one chosen.
   */
  lemma FirstFreshDrawChosen(idx: nat, attempts: nat, n: nat, last: Option<nat>, draws: seq<nat>, k: nat)
    requires n > 1 && SampledBy(idx, attempts, n, last, draws)
    requires k < MAX_ATTEMPTS && k < |draws| && Some(draws[k]) != last
    requires forall j | 0 <= j < k :: Some(draws[j]) == last
    ensures idx == draws[k] && attempts == k + 1
    ensures Some(idx) != last
  {

  }

  /** When all of the first MAX_ATTEMPTS draws repeat the last index, the eighth is accepted. */
  lemma RepeatAcceptedAfterMaxAttempts(idx: nat, attempts: nat, n: nat, last: Option<nat>, draws: seq<nat>)
    requires n > 1 && SampledBy(idx, attempts, n, last, draws)
    requires forall j | 0 <= j < MAX_ATTEMPTS && j < |draws| :: Some(draws[j]) == last
    ensures attempts == MAX_ATTEMPTS && idx == draws[MAX_ATTEMPTS - 1]
    ensures Some(idx) == last
  {
  }
}
