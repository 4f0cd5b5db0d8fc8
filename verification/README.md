# ObservableDictionary in Dafny

A model of `ObservableDictionary<Key, Value>` from MaxLib.Common. It is a
dictionary that raises a `CollectionChanged` notification and then a
`PropertyChanged("Count")` notification after each mutation.

The object is a value `State(dict, trace)`:
- `dict` is the backing `Dictionary<Key, Value>`, written as a `map<K, V>`.
- `trace` is the append-only list of notifications delivered so far.

Each public member is a pure function from the state before the call to what
it returns. For a mutator it also gives the state after the call. Every modelled
exception hands back the state it was given, with nothing changed, with one
exception: the indexer setter as written (`ObservableDictionary.SetItemAsWritten`)
throws after the map has been written (see "## Findings").

Files:
- `wrappers.dfy` holds the `Option`, `Result` and `Outcome` datatypes that stand for out-parameters and exceptions.
- `notifications.dfy` holds the notification datatypes. It also defines `Replay`: how an observer that mirrors the dictionary applies a notification to its own copy.
- `observable_dictionary.dfy` holds one function per public member, with its contract.
- `sessions.dfy` runs any sequence of calls. It proves the invariants that hold after every call.

The notifications the code raises have these quirks:
- The intended setter reports a single `Replace(key, value)` and then a `Count` change. It would do so whether the key was new or already present, and whether or not the count changed. It would not report a remove followed by an insert. As written, the setter throws before either notification whenever a `CollectionChanged` handler is subscribed. With only a `PropertyChanged` handler the event arguments are never built, and the `Count` notification is still raised (see "## Findings"). `ObservableDictionary.SetItem` models the corrected setter and `ObservableDictionary.SetItemAsWritten` the code as written.
- `Remove` reports only the key.
- The explicit `ICollection<KeyValuePair>.Remove` ignores the pair's value.
- `Clear` reports `Reset` and a `Count` change even when the dictionary was already empty.

The sessions dispatch indexed writes to the corrected setter
`ObservableDictionary.SetItem`. The main invariants, proved for every session:
- The trace is a sequence of pairs. Each pair is one collection notification followed by one `Count` notification (`Sessions.RunWellFormed`). This also holds for the code as written: the setter as written appends nothing (`ObservableDictionary.SetItemAsWritten` ensures the trace is unchanged), so it cannot break the pairing.
- An observer that replays the notifications from the state a session started in ends up holding exactly the dictionary's contents (`Sessions.RunMirrored`). This holds only for the corrected setter. `ObservableDictionary.SetItemAsWrittenDesynchronises` shows that the setter as written changes the map without notifying, so a mirroring observer falls behind. For the same reason, the clauses of `Sessions.Apply` that say a throwing call or an unchanged trace leaves the map unchanged, and the replay clause, hold only for the corrected setter.

## Model

| member | source | states |
|---|---|---|
| `ObservableDictionary.Empty` | MaxLib.Common/Collections/ObservableDictionary.cs:13 | a new dictionary has no entries and has reported nothing |
| `ObservableDictionary.Count` | MaxLib.Common/Collections/ObservableDictionary.cs:33 | `Count` is the number of distinct keys in the backing dictionary |
| `ObservableDictionary.Keys` | MaxLib.Common/Collections/ObservableDictionary.cs:29 | the `Keys` view holds exactly the present keys, and as many as `Count` |
| `ObservableDictionary.GetItem` | MaxLib.Common/Collections/ObservableDictionary.cs:15-17 | the indexer returns the stored value if and only if the key is present; otherwise it throws `KeyNotFound` |
| `ObservableDictionary.TryGetValue` | MaxLib.Common/Collections/ObservableDictionary.cs:95-98 | reports found if and only if the key is present, together with the stored value |
| `ObservableDictionary.ContainsKey` | MaxLib.Common/Collections/ObservableDictionary.cs:65-66 | true if and only if the key is present |
| `ObservableDictionary.ContainsPair` | MaxLib.Common/Collections/ObservableDictionary.cs:62-63 | true if and only if the key is present and its stored value equals the pair's value |
| `ObservableDictionary.SetItem` | MaxLib.Common/Collections/ObservableDictionary.cs:18-26 | the key maps to the value, the other entries are kept, and no key is lost. `Count` rises by one exactly when the key was new. Exactly `Replace(key, value)` and then `Count` are appended, in both the new-key and the existing-key case |
| `ObservableDictionary.Add` | MaxLib.Common/Collections/ObservableDictionary.cs:40-48 | fails with `DuplicateKey` if and only if the key is present, and then leaves the map and trace unchanged. Otherwise it inserts the pair, keeps every other entry, raises `Count` by one, and appends `Add(key, value)` and then `Count` |
| `ObservableDictionary.AddPair` | MaxLib.Common/Collections/ObservableDictionary.cs:50-51 | the pair overload behaves exactly like `Add(key, value)` |
| `ObservableDictionary.Clear` | MaxLib.Common/Collections/ObservableDictionary.cs:53-60 | the map becomes empty and exactly `Reset` and then `Count` are appended, even when the map was already empty |
| `ObservableDictionary.Remove` | MaxLib.Common/Collections/ObservableDictionary.cs:76-88 | returns true if and only if the key was present. On true, the key is gone, the other entries are kept, `Count` drops by one, and `Remove(key)` and then `Count` are appended. On false, the map and trace are unchanged |
| `ObservableDictionary.RemovePair` | MaxLib.Common/Collections/ObservableDictionary.cs:90-93 | the pair overload behaves exactly like `Remove(key)` |
| `ObservableDictionary.RemovePairIgnoresValue` | MaxLib.Common/Collections/ObservableDictionary.cs:90-93 | two pairs with the same key remove the same entry. Removal succeeds whenever the key is present, whatever value is stored |
| `ObservableDictionary.LookupsAgree` | MaxLib.Common/Collections/ObservableDictionary.cs:95-98 | `TryGetValue`, `ContainsKey` and the indexer agree on presence. `TryGetValue` and the indexer agree on the value |
| `ObservableDictionary.AddIsSetItemOnAbsentKey` | MaxLib.Common/Collections/ObservableDictionary.cs:18-48 | on an absent key, `Add` and the corrected setter produce the same map and keep the same earlier trace; they differ only in the reported action, `Add(key, value)` versus `Replace(key, value)`, each followed by `Count` |
| `ObservableDictionary.AddThenGet` | MaxLib.Common/Collections/ObservableDictionary.cs:40-48 | after a successful `Add`, the indexer returns the added value |
| `ObservableDictionary.SetItemAsWritten` | MaxLib.Common/Collections/ObservableDictionary.cs:20-25 | the setter as written, with a `CollectionChanged` handler subscribed: the map is written, no notification is raised, and the call throws `ArgumentException` |
| `ObservableDictionary.SetItemAsWrittenDesynchronises` | MaxLib.Common/Collections/ObservableDictionary.cs:20-25 | whenever the write changes the map, an observer that mirrors the dictionary from its notifications is left out of date by the setter as written |
| `ObservableDictionary.SetItemMirrored` | MaxLib.Common/Collections/ObservableDictionary.cs:18-26 | the corrected setter appends one notified step, and replaying that step gives the new map |
| `Sessions.Apply` | MaxLib.Common/Collections/ObservableDictionary.cs:15-98 | with indexed writes dispatched to the corrected setter `SetItem`: reads, calls that throw and a `Remove` that returns false change nothing. Any other call appends exactly one collection notification and then one `Count` notification. No call changes the map without notifying, and replaying what a call appended gives the new map |
| `Sessions.AddMirrored` | MaxLib.Common/Collections/ObservableDictionary.cs:40-51 | replaying what `Add` appended gives the map `Add` left, whether `Add` threw or inserted |
| `Sessions.RemoveMirrored` | MaxLib.Common/Collections/ObservableDictionary.cs:76-93 | replaying what `Remove` appended gives the map `Remove` left, whether or not the key was present |
| `Sessions.DispatchMirrored` | MaxLib.Common/Collections/ObservableDictionary.cs:15-98 | with indexed writes dispatched to the corrected setter `SetItem`: replaying what any one call appended gives the map the call left |
| `Sessions.Run` | MaxLib.Common/Collections/ObservableDictionary.cs:37-38 | over any sequence of calls, the trace is only appended to |
| `Sessions.RunWellFormed` | MaxLib.Common/Collections/ObservableDictionary.cs:18-93 | every session keeps the trace a sequence of (collection notification, `Count` notification) pairs |
| `Sessions.RunMirrored` | MaxLib.Common/Collections/ObservableDictionary.cs:18-93 | with the corrected setter `SetItem` (the setter as written breaks this, see `SetItemAsWrittenDesynchronises`): after any session, replaying its notifications from its starting map gives exactly the dictionary's contents |
| `Sessions.FromEmpty` | MaxLib.Common/Collections/ObservableDictionary.cs:13-93 | with the corrected setter `SetItem`: from a new dictionary, the whole trace is well formed and replaying it from an empty map gives the dictionary |
| `Sessions.ExampleSession` | MaxLib.Common/Collections/ObservableDictionary.cs:18-88 | with the corrected setter `SetItem`: add a=1, add a=2 (throws), set a=2, remove b (false), remove a. The final map is empty and the trace is Add(a,1), Count, Replace(a,2), Count, Remove(a), Count |

## Left out

- Event subscription is not modelled. The trace stands for one handler that is always subscribed to both events, so every `?.Invoke` fires. Whether any handler is subscribed, and the delegate machinery, are not logic of this class.
- Handlers are not modelled calling back in or throwing. A handler that throws after the mutation propagates the exception to the caller. That is runtime behaviour, and no handler code is part of this model.
- `GetEnumerator` (both), `CopyTo` and the `Values` view are left out. They delegate directly to `Dictionary`, and their order and live-view behaviour belong to the library. `Keys` is modelled as the set of present keys.
- `IsReadOnly` is left out because it is the constant `false`.
- ObservableDictionary.TryGetValue: on a miss the source's out value is `default(Value)`; the model returns `None` instead, because a generic `V` has no default value.
- Null keys are not modelled. `Dictionary` throws `ArgumentNullException` for a null key in every member, before any notification. Keys in the model are non-null values.
- Hash-table internals, comparers and capacity are left out. The class only uses the default constructor.
- `ObservableDictionary.Count` is an unbounded `nat`. The source's 32-bit `int` cannot overflow, because a `Dictionary` cannot hold that many entries.
- Thread safety is left out. The class has none.

## Findings

| source | as written | input that shows it | evidently intended | confidence | as-written member | corrected member |
|---|---|---|---|---|---|---|
| MaxLib.Common/Collections/ObservableDictionary.cs:21-24 | The setter builds `NotifyCollectionChangedEventArgs(Replace, pair)`. .NET's single-item constructor accepts only `Add`, `Remove` and `Reset`, and throws `ArgumentException` for any other action. | Any `dict[k] = v` while a `CollectionChanged` handler is subscribed. The map is written, the constructor throws, and neither the `Replace` nor the `Count` notification is raised. | A single `Replace` notification for the written pair, followed by `Count`. | medium; not executed; relies on the documented .NET constructor behaviour | `ObservableDictionary.SetItemAsWritten`, `ObservableDictionary.SetItemAsWrittenDesynchronises` | `ObservableDictionary.SetItem`, `ObservableDictionary.SetItemMirrored` |
