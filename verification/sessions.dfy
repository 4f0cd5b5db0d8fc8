/** Sessions: any sequence of calls on one `ObservableDictionary`, and the
    invariants that hold of every state such a sequence reaches.

    Indexed writes are dispatched to the corrected setter `SetItem`, which
    reports one `Replace`. The setter as written (`SetItemAsWritten`) throws
    after writing and reports nothing, and `SetItemAsWrittenDesynchronises`
    shows that it breaks the mirroring invariant proved here. */
module Sessions {
  import opened Wrappers
  import opened Notifications
  import D = ObservableDictionary

  /** One call of the public surface. */
  datatype Op<K, V> =
    | GetItem(key: K)
    | SetItem(key: K, value: V)
    | Add(key: K, value: V)
    | AddPair(item: D.KeyValuePair<K, V>)
    | Clear
    | ContainsPair(item: D.KeyValuePair<K, V>)
    | ContainsKey(key: K)
    | Remove(key: K)
    | RemovePair(item: D.KeyValuePair<K, V>)
    | TryGetValue(key: K)
    | Count
    | Keys

  /** What a call returned, or the exception it threw. */
  datatype Response<K, V> =
    | Done
    | Threw(error: D.Error)
    | Item(value: V)
    | Flag(flag: bool)
    | Found(found: Option<V>)
    | Number(n: nat)
    | KeySet(keys: set<K>)

  /** The members that only read the dictionary. */
  predicate IsRead<K, V>(op: Op<K, V>)
  {
    op.GetItem? || op.ContainsPair? || op.ContainsKey? || op.TryGetValue? || op.Count? || op.Keys?
  }

  /** Performs one call. Reads, calls that throw and a `Remove` of an absent
      key change nothing; every other call appends exactly one collection
      notification and one `Count` notification, and an observer replaying
      what was appended arrives at the new dictionary. */
  function Apply<K, V(==)>(s: D.State<K, V>, op: Op<K, V>): (r: D.Step<K, V, Response<K, V>>)
    ensures IsRead(op) ==> r.state == s
    ensures r.result.Threw? ==> r.state == s
    ensures !IsRead(op) && r.result == Flag(false) ==> r.state == s
    ensures !IsRead(op) && !r.result.Threw? && r.result != Flag(false) ==> Notified(s.trace, r.state.trace)
    ensures r.state == s || Notified(s.trace, r.state.trace)
    ensures r.state.trace == s.trace ==> r.state.dict == s.dict
    ensures Replay(s.dict, r.state.trace[|s.trace|..]) == r.state.dict
  {
    DispatchMirrored(s, op);
    Dispatch(s, op)
  }

  /** With indexed writes dispatched to the corrected setter `SetItem`: the
      notified step a mutating call appends brings a mirroring observer's
      copy to the new dictionary. */
  lemma DispatchMirrored<K, V>(s: D.State<K, V>, op: Op<K, V>)
    ensures Replay(s.dict, Dispatch(s, op).state.trace[|s.trace|..]) == Dispatch(s, op).state.dict
  {
    match op {
      case SetItem(k, v) =>
        StepMirrored(s, D.SetItem(s, k, v), Change.Replace(k, v));
      case Add(k, v) =>
        AddMirrored(s, k, v);
      case AddPair(item) =>
        AddMirrored(s, item.key, item.value);
      case Clear =>
        StepMirrored(s, D.Clear(s), Change.Reset);
      case Remove(k) =>
        RemoveMirrored(s, k);
      case RemovePair(item) =>
        RemoveMirrored(s, item.key);
      case _ =>
        assert Dispatch(s, op).state == s;
        Unchanged(s);
    }
  }

  /** `Add`, whether it throws or inserts, keeps a mirroring observer in step. */
  lemma AddMirrored<K, V>(s: D.State<K, V>, key: K, value: V)
    ensures Replay(s.dict, D.Add(s, key, value).state.trace[|s.trace|..]) == D.Add(s, key, value).state.dict
  {
    if key in s.dict {
      Unchanged(s);
    } else {
      StepMirrored(s, D.Add(s, key, value).state, Change.Add(key, value));
    }
  }

  /** `Remove`, whether or not the key was present, keeps a mirroring observer in step. */
  lemma RemoveMirrored<K, V>(s: D.State<K, V>, key: K)
    ensures Replay(s.dict, D.Remove(s, key).state.trace[|s.trace|..]) == D.Remove(s, key).state.dict
  {
    if key in s.dict {
      StepMirrored(s, D.Remove(s, key).state, Change.Remove(key));
    } else {
      Unchanged(s);
    }
  }

  /** A call that appends nothing leaves a mirroring observer's copy as it is. */
  lemma Unchanged<K, V>(s: D.State<K, V>)
    ensures Replay(s.dict, s.trace[|s.trace|..]) == s.dict
  {
    assert s.trace[|s.trace|..] == [];
  }

  /** A call that appends one notified step for change `c`, and changes the
      dictionary the way `c` describes, keeps a mirroring observer in step. */
  lemma StepMirrored<K, V>(s: D.State<K, V>, s': D.State<K, V>, c: Change<K, V>)
    requires s'.trace == s.trace + [CollectionChanged(c), CountChanged()]
    requires s'.dict == Mirror(s.dict, CollectionChanged(c))
    ensures Replay(s.dict, s'.trace[|s.trace|..]) == s'.dict
  {
    assert s'.trace[|s.trace|..] == [CollectionChanged(c), CountChanged()];
    ReplayNotifiedStep(s.dict, c);
  }

  /** The member each call resolves to. */
  function Dispatch<K, V(==)>(s: D.State<K, V>, op: Op<K, V>): D.Step<K, V, Response<K, V>>
  {
    match op
    case GetItem(k) =>
      D.Step(s, match D.GetItem(s, k) case Success(v) => Item(v) case Failure(e) => Threw(e))
    case SetItem(k, v) => D.Step(D.SetItem(s, k, v), Done)
    case Add(k, v) => ToResponse(D.Add(s, k, v))
    case AddPair(item) => ToResponse(D.AddPair(s, item))
    case Clear => D.Step(D.Clear(s), Done)
    case ContainsPair(item) => D.Step(s, Flag(D.ContainsPair(s, item)))
    case ContainsKey(k) => D.Step(s, Flag(D.ContainsKey(s, k)))
    case Remove(k) => var r := D.Remove(s, k); D.Step(r.state, Flag(r.result))
    case RemovePair(item) => var r := D.RemovePair(s, item); D.Step(r.state, Flag(r.result))
    case TryGetValue(k) => D.Step(s, Found(D.TryGetValue(s, k)))
    case Count => D.Step(s, Number(D.Count(s)))
    case Keys => D.Step(s, KeySet(D.Keys(s)))
  }

  /** The response of a call that returns nothing: `Done`, or the exception it threw. */
  function ToResponse<K, V>(r: D.Step<K, V, Outcome<D.Error>>): D.Step<K, V, Response<K, V>>
  {
    D.Step(r.state, match r.result case Pass => Done case Fail(e) => Threw(e))
  }

  /** Performs the calls in order. The trace only grows. */
  function Run<K, V(==)>(s: D.State<K, V>, ops: seq<Op<K, V>>): (s': D.State<K, V>)
    ensures |s.trace| <= |s'.trace| && s'.trace[..|s.trace|] == s.trace
    decreases |ops|
  {
    if |ops| == 0 then s else Run(Apply(s, ops[0]).state, ops[1..])
  }

  /** Any session keeps the trace a sequence of (collection notification,
      `Count` notification) pairs. */
  lemma {:induction false} RunWellFormed<K, V>(s: D.State<K, V>, ops: seq<Op<K, V>>)
    requires WellFormed(s.trace)
    ensures WellFormed(Run(s, ops).trace)
    decreases |ops|
  {
    if |ops| > 0 {
      var s1 := Apply(s, ops[0]).state;
      if s1 != s {
        NotifiedKeepsWellFormed(s.trace, s1.trace);
      }
      RunWellFormed(s1, ops[1..]);
    }
  }

  /** An observer that mirrors the dictionary from the notifications alone
      holds exactly the dictionary's contents after any session. */
  lemma {:induction false} RunMirrored<K, V>(s: D.State<K, V>, ops: seq<Op<K, V>>)
    ensures Replay(s.dict, Run(s, ops).trace[|s.trace|..]) == Run(s, ops).dict
    decreases |ops|
  {
    if |ops| == 0 {
      assert Run(s, ops).trace[|s.trace|..] == [];
    } else {
      var s1 := Apply(s, ops[0]).state;
      var s2 := Run(s1, ops[1..]);
      RunMirrored(s1, ops[1..]);
      SuffixSplit(s.trace, s1.trace, s2.trace);
      ReplayAppend(s.dict, s1.trace[|s.trace|..], s2.trace[|s1.trace|..]);
    }
  }

  /** What was appended from `a` to `c` is what was appended from `a` to `b`
      followed by what was appended from `b` to `c`. */
  lemma SuffixSplit<T>(a: seq<T>, b: seq<T>, c: seq<T>)
    requires |a| <= |b| && b[..|a|] == a
    requires |b| <= |c| && c[..|b|] == b
    ensures c[|a|..] == b[|a|..] + c[|b|..]
  {
  }

  /** From a new dictionary: the trace is well formed, and replaying it from
      an empty copy reproduces the dictionary. */
  lemma FromEmpty<K, V>(ops: seq<Op<K, V>>)
    ensures WellFormed(Run(D.Empty(), ops).trace)
    ensures Replay(map[], Run(D.Empty<K, V>(), ops).trace) == Run(D.Empty(), ops).dict
  {
    var e := D.Empty<K, V>();
    RunWellFormed(e, ops);
    RunMirrored(e, ops);
    assert Run(e, ops).trace[|e.trace|..] == Run(e, ops).trace;
  }

  /** A short session: the second `Add` of a key throws and reports nothing,
      the setter reports a single `Replace` even for an existing key, removing
      an absent key reports nothing, and removing a present one reports the
      key alone. */
  lemma ExampleSession()
    ensures
      var ops: seq<Op<string, int>> :=
        [Op.Add("a", 1), Op.Add("a", 2), Op.SetItem("a", 2), Op.Remove("b"), Op.Remove("a")];
      var s := Run(D.Empty(), ops);
      && s.dict == map[]
      && s.trace == [CollectionChanged(Change.Add("a", 1)), CountChanged(),
                     CollectionChanged(Change.Replace("a", 2)), CountChanged(),
                     CollectionChanged(Change.Remove("a")), CountChanged()]
  {
    var ops: seq<Op<string, int>> :=
      [Op.Add("a", 1), Op.Add("a", 2), Op.SetItem("a", 2), Op.Remove("b"), Op.Remove("a")];
    var add1: Event<string, int> := CollectionChanged(Change.Add("a", 1));
    var rep2: Event<string, int> := CollectionChanged(Change.Replace("a", 2));
    var rem: Event<string, int> := CollectionChanged(Change.Remove("a"));
    var s0 := D.Empty<string, int>();
    var s1 := D.State(map["a" := 1], [add1, CountChanged()]);
    var s3 := D.State(map["a" := 2], [add1, CountChanged(), rep2, CountChanged()]);
    var s5 := D.State(map[], [add1, CountChanged(), rep2, CountChanged(), rem, CountChanged()]);
    assert Apply(s0, ops[0]).state == s1;
    assert Apply(s1, ops[1]).state == s1;
    assert Apply(s1, ops[2]).state == s3;
    assert Apply(s3, ops[3]).state == s3;
    assert Apply(s3, ops[4]).state == s5;
    RunStep(s0, ops);
    RunStep(s1, ops[1..]);
    RunStep(s1, ops[2..]);
    RunStep(s3, ops[3..]);
    RunStep(s3, ops[4..]);
    assert ops[5..] == [];
  }

  /** One call, then the rest of the session. */
  lemma RunStep<K, V>(s: D.State<K, V>, ops: seq<Op<K, V>>)
    requires |ops| > 0
    ensures Run(s, ops) == Run(Apply(s, ops[0]).state, ops[1..])
  {
  }
}
