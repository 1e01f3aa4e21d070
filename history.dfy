/**
 * The persisted log of recent checks: newest first, capped at MAX_HISTORY
 * entries, kept in the browser's local storage under HISTORY_KEY
 * (SpamChecker.jsx, `pushHistory` and the two history effects).
 */
module History {
  import opened Wrappers
  import opened Text

  const HISTORY_KEY: string := "spam_history_v1"
  const MAX_HISTORY: nat := 7

  /** The classifier's probability matrix: one row per submitted text, one column per class. */
  type Matrix = seq<seq<real>>

  /** One past check; `id` and `time` are clock readings in epoch milliseconds. */
  datatype CheckEntry = CheckEntry(
    id: int,
    text: string,
    prediction: int,
    probability: Option<Matrix>,
    time: int)

  /**
   * What reading a storage key and parsing it yields: the entries of a
   * well-formed record, or nothing usable (an empty value, or one that does
   * not parse).
   */
  datatype Stored = Decoded(entries: seq<CheckEntry>) | Undecodable

  type Storage = map<string, Stored>

  /**
   * `pushHistory(e)`: `e` goes to the head, every older entry moves one place
   * back, and whatever falls beyond the cap is dropped.
   */
  function Push(h: seq<CheckEntry>, e: CheckEntry): (r: seq<CheckEntry>)
    ensures |r| == Min(|h| + 1, MAX_HISTORY)
    ensures r[0] == e
    ensures forall i | 0 <= i < |r| - 1 :: r[i + 1] == h[i]
  {
    ([e] + h)[..Min(|h| + 1, MAX_HISTORY)]
  }

  /** With a full history, a push evicts exactly the oldest entry. */
  lemma PushEvictsOldest(h: seq<CheckEntry>, e: CheckEntry)
    requires |h| == MAX_HISTORY
    ensures Push(h, e) == [e] + h[..MAX_HISTORY - 1]
  {
  }

  /** The value the persistence effect writes: the first MAX_HISTORY entries. */
  function Persisted(h: seq<CheckEntry>): (r: seq<CheckEntry>)
    ensures r <= h
    ensures |r| == Min(|h|, MAX_HISTORY)
    ensures |h| <= MAX_HISTORY ==> r == h
  {
    h[..Min(|h|, MAX_HISTORY)]
  }

  /** The persistence effect: overwrite HISTORY_KEY, leave every other key alone. */
  function Save(storage: Storage, h: seq<CheckEntry>): (s: Storage)
    ensures HISTORY_KEY in s && s[HISTORY_KEY] == Decoded(Persisted(h))
    ensures forall k | k in storage && k != HISTORY_KEY :: k in s && s[k] == storage[k]
    ensures s.Keys == storage.Keys + {HISTORY_KEY}
  {
    storage[HISTORY_KEY := Decoded(Persisted(h))]
  }

  /**
   * The load effect: the decoded record under HISTORY_KEY, or the empty
   * history when the key is absent or its value does not decode.
   */
  function Load(storage: Storage): (h: seq<CheckEntry>)
    ensures HISTORY_KEY !in storage ==> h == []
    ensures HISTORY_KEY in storage && storage[HISTORY_KEY].Undecodable? ==> h == []
    ensures HISTORY_KEY in storage && storage[HISTORY_KEY].Decoded? ==> h == storage[HISTORY_KEY].entries
  {
    if HISTORY_KEY in storage then
      match storage[HISTORY_KEY]
      case Decoded(entries) => entries
      case Undecodable => []
    else []
  }

  /**
   * Reloading after a save yields exactly the saved prefix, which is the whole
   * history whenever it is within the cap; in particular a cleared history
   * reloads as empty.
   */
  lemma ReloadRoundTrip(storage: Storage, h: seq<CheckEntry>)
    ensures Load(Save(storage, h)) == Persisted(h)
    ensures |h| <= MAX_HISTORY ==> Load(Save(storage, h)) == h
  {
  }

  /** A pushed history is already within the cap, so it is persisted whole. */
  lemma PushIsPersistedWhole(h: seq<CheckEntry>, e: CheckEntry)
    ensures Persisted(Push(h, e)) == Push(h, e)
  {
  }

  /**
   * The tail that persistence drops never matters to a later push: pushing
   * onto the reloaded prefix gives the same history as pushing onto the
   * in-memory one.
   */
  lemma PushIgnoresUnpersistedTail(h: seq<CheckEntry>, e: CheckEntry)
    ensures Push(Persisted(h), e) == Push(h, e)
  {
    var p := Persisted(h);
    assert |Push(p, e)| == |Push(h, e)|;
    forall i | 0 <= i < |Push(h, e)|
      ensures Push(p, e)[i] == Push(h, e)[i]
    {
      if i > 0 {
        assert Push(p, e)[i] == p[i - 1];
      }
    }
  }

  /** The entries of `es` in reverse order. */
  function Reverse(es: seq<CheckEntry>): (r: seq<CheckEntry>)
    ensures |r| == |es|
  {
    if es == [] then [] else Reverse(es[1..]) + [es[0]]
  }

  /** The history after pushing the entries of `es` one after another. */
  function PushAll(h: seq<CheckEntry>, es: seq<CheckEntry>): seq<CheckEntry>
    decreases es
  {
    if es == [] then h else PushAll(Push(h, es[0]), es[1..])
  }

  /** Cutting the tail of `v` before cutting `u + v` at the same cap changes nothing. */
  lemma CutTwice<T>(u: seq<T>, v: seq<T>, cap: nat)
    ensures (u + v[..Min(|v|, cap)])[..Min(|u| + Min(|v|, cap), cap)] == (u + v)[..Min(|u| + |v|, cap)]
  {
    var lhs := (u + v[..Min(|v|, cap)])[..Min(|u| + Min(|v|, cap), cap)];
    var rhs := (u + v)[..Min(|u| + |v|, cap)];
    assert |lhs| == |rhs|;
    forall i | 0 <= i < |rhs| ensures lhs[i] == rhs[i] {
      if i >= |u| {
        assert lhs[i] == v[..Min(|v|, cap)][i - |u|];
      }
    }
  }

  /**
   * However many checks complete, the history is the most recent ones, newest
   * first, followed by what was there before, cut at the cap. (With no push
   * at all a loaded history longer than the cap stays as it is.)
   */
  lemma {:induction false} PushAllWindow(h: seq<CheckEntry>, es: seq<CheckEntry>)
    requires es != [] || |h| <= MAX_HISTORY
    ensures PushAll(h, es) == (Reverse(es) + h)[..Min(|es| + |h|, MAX_HISTORY)]
    decreases es
  {
    if es != [] {
      var rest, v := es[1..], [es[0]] + h;
      var h' := Push(h, es[0]);
      calc {
        PushAll(h, es);
        PushAll(h', rest);
        { PushAllWindow(h', rest); }
        (Reverse(rest) + h')[..Min(|rest| + |h'|, MAX_HISTORY)];
        { assert h' == v[..Min(|v|, MAX_HISTORY)]; }
        (Reverse(rest) + v[..Min(|v|, MAX_HISTORY)])[..Min(|rest| + Min(|v|, MAX_HISTORY), MAX_HISTORY)];
        { CutTwice(Reverse(rest), v, MAX_HISTORY); }
        (Reverse(rest) + v)[..Min(|rest| + |v|, MAX_HISTORY)];
        { ReverseThenPrepend(es, h); }
        (Reverse(es) + h)[..Min(|es| + |h|, MAX_HISTORY)];
      }
    }
  }

  /** Reversing a non-empty sequence moves its head next to what follows. */
  lemma ReverseThenPrepend(es: seq<CheckEntry>, h: seq<CheckEntry>)
    requires es != []
    ensures Reverse(es) + h == Reverse(es[1..]) + ([es[0]] + h)
  {
    var r := Reverse(es[1..]);
    assert Reverse(es) == r + [es[0]];
  }
}
