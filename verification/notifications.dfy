/** The notifications an observable dictionary raises, and how an observer
    that mirrors the dictionary applies them to its own copy. */
module Notifications {

  /** The payload of a `CollectionChanged` notification, named after
      `NotifyCollectionChangedAction`. */
  datatype Change<K, V> =
    | Add(key: K, value: V)      // the pair that was inserted
    | Replace(key: K, value: V)  // the pair that was written; the old value is not reported
    | Remove(key: K)             // only the key; the removed value is not reported
    | Reset                      // no per-item payload

  /** One notification, in the order observers receive them. */
  datatype Event<K, V> =
    | CollectionChanged(change: Change<K, V>)
    | PropertyChanged(propertyName: string)

  /** The property name the dictionary reports, `nameof(Count)`. */
  const CountProperty: string := "Count"

  /** The property notification raised after every structural change. */
  function CountChanged<K, V>(): Event<K, V>
  {
    PropertyChanged(CountProperty)
  }

  /** True iff `after` is `before` followed by exactly one collection
      notification and then exactly one `Count` notification. */
  ghost predicate Notified<K, V>(before: seq<Event<K, V>>, after: seq<Event<K, V>>)
  {
    && |after| == |before| + 2
    && after[..|before|] == before
    && after[|before|].CollectionChanged?
    && after[|before| + 1] == CountChanged()
  }

  /** True iff a trace is a sequence of (collection notification, `Count`
      notification) pairs. */
  ghost predicate WellFormed<K, V>(t: seq<Event<K, V>>)
    decreases |t|
  {
    || |t| == 0
    || (&& 2 <= |t|
        && t[0].CollectionChanged?
        && t[1] == CountChanged()
        && WellFormed(t[2..]))
  }

  /** Traces made of pairs stay made of pairs when concatenated. */
  lemma {:induction false} WellFormedAppend<K, V>(a: seq<Event<K, V>>, b: seq<Event<K, V>>)
    requires WellFormed(a) && WellFormed(b)
    ensures WellFormed(a + b)
    decreases |a|
  {
    if |a| == 0 {
      assert a + b == b;
    } else {
      assert (a + b)[2..] == a[2..] + b;
      WellFormedAppend(a[2..], b);
    }
  }

  /** Appending one notified step to a well-formed trace keeps it well formed. */
  lemma NotifiedKeepsWellFormed<K, V>(before: seq<Event<K, V>>, after: seq<Event<K, V>>)
    requires WellFormed(before) && Notified(before, after)
    ensures WellFormed(after)
  {
    var step := after[|before|..];
    assert step[2..] == [];
    assert WellFormed(step);
    assert after == before + step;
    WellFormedAppend(before, step);
  }

  /** How an observer that keeps a copy of the dictionary updates it on one
      notification: `Add` and `Replace` write the pair, `Remove` drops the key,
      `Reset` empties the copy, and property notifications change nothing. */
  function Mirror<K, V>(m: map<K, V>, e: Event<K, V>): map<K, V>
  {
    match e
    case PropertyChanged(_) => m
    case CollectionChanged(c) =>
      match c
      case Add(k, v) => m[k := v]
      case Replace(k, v) => m[k := v]
      case Remove(k) => m - {k}
      case Reset => map[]
  }

  /** The copy an observer holds after applying a trace of notifications, in order. */
  function Replay<K, V>(m: map<K, V>, t: seq<Event<K, V>>): map<K, V>
    decreases |t|
  {
    if |t| == 0 then m else Replay(Mirror(m, t[0]), t[1..])
  }

  /** Replaying two traces one after the other is replaying their concatenation. */
  lemma {:induction false} ReplayAppend<K, V>(m: map<K, V>, a: seq<Event<K, V>>, b: seq<Event<K, V>>)
    ensures Replay(m, a + b) == Replay(Replay(m, a), b)
    decreases |a|
  {
    if |a| == 0 {
      assert a + b == b;
    } else {
      assert (a + b)[1..] == a[1..] + b;
      ReplayAppend(Mirror(m, a[0]), a[1..], b);
    }
  }

  /** An observer's copy after one notified step: the `Count` notification
      leaves the copy as the collection notification made it. */
  lemma ReplayNotifiedStep<K, V>(m: map<K, V>, c: Change<K, V>)
    ensures Replay(m, [CollectionChanged(c), CountChanged()]) == Mirror(m, CollectionChanged(c))
  {
    var t: seq<Event<K, V>> := [CollectionChanged(c), CountChanged()];
    var m1 := Mirror(m, t[0]);
    assert t[1..] == [CountChanged()];
    assert Replay(m, t) == Replay(m1, t[1..]);
    assert Replay(m1, t[1..]) == Replay(Mirror(m1, CountChanged()), t[1..][1..]);
    assert t[1..][1..] == [];
  }
}
