/** `ObservableDictionary<Key, Value>`: a dictionary that raises a
    `CollectionChanged` notification and then a `PropertyChanged("Count")`
    notification after every mutation.

    The object is modelled as a value: the backing dictionary as a `map` and
    the notifications delivered so far as an append-only trace. Each public
    member becomes a function from the state before the call to its result
    and, for mutators, the state after it. Every modelled exception leaves
    the state it was given unchanged, except the setter as written
    (`SetItemAsWritten`), which throws after the map has been written. */
module ObservableDictionary {
  import opened Wrappers
  import opened Notifications

  /** The exceptions a call can throw. `KeyNotFound` and `DuplicateKey` come
      from the backing dictionary; `ArgumentRejected` comes from the
      event-argument constructor. In .NET `DuplicateKey` and `ArgumentRejected`
      are both `ArgumentException`, so a caller catching that type cannot
      tell them apart. */
  datatype Error =
    | KeyNotFound       // indexer get of an absent key
    | DuplicateKey      // `Add` of a present key
    | ArgumentRejected  // an event-argument constructor refusing its action

  datatype KeyValuePair<K, V> = KeyValuePair(key: K, value: V)

  /** The backing dictionary and every notification raised so far. */
  datatype State<K, V> = State(dict: map<K, V>, trace: seq<Event<K, V>>)

  /** The state after a call together with what the call returned. */
  datatype Step<K, V, R> = Step(state: State<K, V>, result: R)

  /** A freshly constructed dictionary: the backing dictionary is created
      empty and nothing has been reported. */
  function Empty<K, V>(): (s: State<K, V>)
    ensures s.dict == map[]
    ensures |s.trace| == 0
  {
    State(map[], [])
  }

  /** The `Count` property: the number of entries of the backing dictionary. */
  function Count<K, V>(s: State<K, V>): (n: nat)
    ensures n == |s.dict.Keys|
  {
    |s.dict|
  }

  /** The `Keys` view, as the set of keys present. */
  function Keys<K, V>(s: State<K, V>): (ks: set<K>)
    ensures ks <= s.dict.Keys
    ensures forall k :: k in s.dict ==> k in ks
    ensures |ks| == Count(s)
  {
    s.dict.Keys
  }

  /** The indexer's getter: the stored value, or `KeyNotFound`. */
  function GetItem<K, V>(s: State<K, V>, key: K): (r: Result<V, Error>)
    ensures r.Success? <==> key in s.dict
    ensures r.Success? ==> r.value == s.dict[key]
    ensures r.Failure? ==> r.error == KeyNotFound
  {
    match TryGetValue(s, key)
    case Some(v) => Success(v)
    case None => Failure(KeyNotFound)
  }

  /** `TryGetValue`: the stored value if the key is present, nothing otherwise. */
  function TryGetValue<K, V>(s: State<K, V>, key: K): (r: Option<V>)
    ensures r.Some? <==> key in s.dict
    ensures r.Some? ==> r.value == s.dict[key]
  {
    if key in s.dict then Some(s.dict[key]) else None
  }

  /** `ContainsKey`. */
  function ContainsKey<K, V>(s: State<K, V>, key: K): (b: bool)
    ensures b <==> key in s.dict
  {
    TryGetValue(s, key).Some?
  }

  /** The explicit `ICollection<KeyValuePair>.Contains`: the key is present
      and the stored value equals the pair's value. */
  function ContainsPair<K, V(==)>(s: State<K, V>, item: KeyValuePair<K, V>): (b: bool)
    ensures b <==> item.key in s.dict && s.dict[item.key] == item.value
  {
    TryGetValue(s, item.key) == Some(item.value)
  }

  /** The indexer's setter, corrected as described in the README's
      "## Findings": inserts or overwrites, then reports a single `Replace` of
      the written pair and a `Count` change, whether or not the key was
      present and whether or not the count changed. `SetItemAsWritten` is the
      code as written. */
  function SetItem<K, V>(s: State<K, V>, key: K, value: V): (s': State<K, V>)
    ensures key in s'.dict && s'.dict[key] == value
    ensures s'.dict.Keys == s.dict.Keys + {key}
    ensures forall k :: k in s.dict && k != key ==> s'.dict[k] == s.dict[k]
    ensures Count(s') == if key in s.dict then Count(s) else Count(s) + 1
    ensures s'.trace == s.trace + [CollectionChanged(Change.Replace(key, value)), CountChanged()]
  {
    State(s.dict[key := value],
          s.trace + [CollectionChanged(Change.Replace(key, value)), CountChanged()])
  }

  /** `Add(key, value)`: throws `DuplicateKey` from the backing dictionary
      before anything is reported if the key is present; otherwise inserts the
      pair and reports `Add` of it, then a `Count` change. */
  function Add<K, V>(s: State<K, V>, key: K, value: V): (r: Step<K, V, Outcome<Error>>)
    ensures r.result.Fail? <==> key in s.dict
    ensures r.result.Fail? ==> r.result.error == DuplicateKey && r.state == s
    ensures r.result.Pass? ==>
              && key in r.state.dict && r.state.dict[key] == value
              && r.state.dict.Keys == s.dict.Keys + {key}
              && (forall k :: k in s.dict ==> r.state.dict[k] == s.dict[k])
              && Count(r.state) == Count(s) + 1
              && r.state.trace == s.trace + [CollectionChanged(Change.Add(key, value)), CountChanged()]
  {
    if key in s.dict then
      Step(s, Fail(DuplicateKey))
    else
      Step(State(s.dict[key := value],
                 s.trace + [CollectionChanged(Change.Add(key, value)), CountChanged()]),
           Pass)
  }

  /** The explicit `ICollection<KeyValuePair>.Add`, which delegates to `Add`. */
  function AddPair<K, V>(s: State<K, V>, item: KeyValuePair<K, V>): (r: Step<K, V, Outcome<Error>>)
    ensures r == Add(s, item.key, item.value)
  {
    Add(s, item.key, item.value)
  }

  /** `Clear`: empties the dictionary and reports `Reset` and a `Count`
      change, also when it was already empty; no per-key notification. */
  function Clear<K, V>(s: State<K, V>): (s': State<K, V>)
    ensures s'.dict == map[] && Count(s') == 0
    ensures s'.trace == s.trace + [CollectionChanged(Change.Reset), CountChanged()]
  {
    State(map[], s.trace + [CollectionChanged(Change.Reset), CountChanged()])
  }

  /** `Remove(key)`: returns whether the key was present. If it was, the
      entry is gone and `Remove` of the key alone is reported, then a `Count`
      change; if not, nothing changes and nothing is reported. */
  function Remove<K, V>(s: State<K, V>, key: K): (r: Step<K, V, bool>)
    ensures r.result <==> key in s.dict
    ensures !r.result ==> r.state == s
    ensures r.result ==>
              && key !in r.state.dict
              && r.state.dict.Keys == s.dict.Keys - {key}
              && (forall k :: k in r.state.dict ==> r.state.dict[k] == s.dict[k])
              && Count(r.state) == Count(s) - 1
              && r.state.trace == s.trace + [CollectionChanged(Change.Remove(key)), CountChanged()]
  {
    if key in s.dict then
      var rest := s.dict - {key};
      assert rest.Keys == s.dict.Keys - {key};
      Step(State(rest, s.trace + [CollectionChanged(Change.Remove(key)), CountChanged()]), true)
    else
      Step(s, false)
  }

  /** The explicit `ICollection<KeyValuePair>.Remove`: removes by key alone,
      whatever value is stored under it. */
  function RemovePair<K, V>(s: State<K, V>, item: KeyValuePair<K, V>): (r: Step<K, V, bool>)
    ensures r == Remove(s, item.key)
  {
    Remove(s, item.key)
  }

  /** `RemovePair` does not compare values: two pairs with the same key
      remove the same entry, even one whose stored value differs from both. */
  lemma RemovePairIgnoresValue<K, V>(s: State<K, V>, key: K, v1: V, v2: V)
    ensures RemovePair(s, KeyValuePair(key, v1)) == RemovePair(s, KeyValuePair(key, v2))
    ensures RemovePair(s, KeyValuePair(key, v1)).result <==> key in s.dict
  {
  }

  /** The three lookups agree with each other. */
  lemma LookupsAgree<K, V>(s: State<K, V>, key: K)
    ensures ContainsKey(s, key) <==> GetItem(s, key).Success?
    ensures ContainsKey(s, key) <==> TryGetValue(s, key).Some?
    ensures ContainsKey(s, key) ==> GetItem(s, key).value == TryGetValue(s, key).value
  {
  }

  /** `Add` and the setter differ only in the reported action, and only
      when the key is absent; on a present key `Add` throws and the setter
      overwrites. */
  lemma AddIsSetItemOnAbsentKey<K, V>(s: State<K, V>, key: K, value: V)
    requires key !in s.dict
    ensures Add(s, key, value).state.dict == SetItem(s, key, value).dict
    ensures Add(s, key, value).state.trace[..|s.trace|] == SetItem(s, key, value).trace[..|s.trace|]
    ensures Add(s, key, value).state.trace[|s.trace|..] == [CollectionChanged(Change.Add(key, value)), CountChanged()]
    ensures SetItem(s, key, value).trace[|s.trace|..] == [CollectionChanged(Change.Replace(key, value)), CountChanged()]
  {
    var a := Add(s, key, value).state.trace;
    var b := SetItem(s, key, value).trace;
    assert a[|s.trace|..] == [CollectionChanged(Change.Add(key, value)), CountChanged()];
    assert b[|s.trace|..] == [CollectionChanged(Change.Replace(key, value)), CountChanged()];
  }

  /** After `Add` succeeds, the indexer returns the added value. */
  lemma AddThenGet<K, V>(s: State<K, V>, key: K, value: V)
    requires key !in s.dict
    ensures GetItem(Add(s, key, value).state, key) == Success(value)
  {
  }

  /** The setter as the code is written. The args constructor
      `NotifyCollectionChangedEventArgs(action, changedItem)` accepts only the
      `Add`, `Remove` and `Reset` actions and throws `ArgumentException` for
      `Replace`. With a `CollectionChanged` handler subscribed the argument is
      evaluated, so the setter throws after the backing dictionary was
      written and before either notification is raised. */
  function SetItemAsWritten<K, V>(s: State<K, V>, key: K, value: V): (r: Step<K, V, Outcome<Error>>)
    ensures r.result == Fail(ArgumentRejected)
    ensures r.state.dict == SetItem(s, key, value).dict
    ensures r.state.trace == s.trace
  {
    Step(State(s.dict[key := value], s.trace), Fail(ArgumentRejected))
  }

  /** The setter as written leaves every mirroring observer out of date
      whenever the write changes the dictionary, although the call threw. */
  lemma SetItemAsWrittenDesynchronises<K, V>(s: State<K, V>, key: K, value: V)
    requires key !in s.dict || s.dict[key] != value
    ensures Replay(s.dict, SetItemAsWritten(s, key, value).state.trace[|s.trace|..])
            != SetItemAsWritten(s, key, value).state.dict
  {
    var r := SetItemAsWritten(s, key, value);
    assert r.state.trace[|s.trace|..] == [];
    assert key in r.state.dict && r.state.dict[key] == value;
  }

  /** The corrected setter keeps every mirroring observer up to date. */
  lemma SetItemMirrored<K, V>(s: State<K, V>, key: K, value: V)
    ensures Replay(s.dict, SetItem(s, key, value).trace[|s.trace|..]) == SetItem(s, key, value).dict
    ensures Notified(s.trace, SetItem(s, key, value).trace)
  {
    var t := SetItem(s, key, value).trace;
    assert t[|s.trace|..] == [CollectionChanged(Change.Replace(key, value)), CountChanged()];
    ReplayNotifiedStep(s.dict, Change.Replace(key, value));
  }
}
