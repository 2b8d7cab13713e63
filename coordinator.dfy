/** The multi-dimension coordinator (`Ola`): one `Single` per key of the
    value it was built from, read one key at a time and retargeted by the
    keys a `set` names. */
module Coordinator {
  import opened Dimension

  datatype Option<T> = None | Some(value: T)

  /** The first argument of `Ola(...)` and of `set(...)`: a plain number, or
      an object given by its entries in enumeration order. */
  datatype Values = Number(n: real) | Object(entries: seq<(string, real)>)

  /** The normalisation done by `each`: a number `n` stands for `{ value: n }`. */
  function Entries(values: Values): seq<(string, real)>
  {
    match values
    case Number(n) => [("value", n)]
    case Object(entries) => entries
  }

  /** The keys named by a list of entries. */
  function KeysOf(entries: seq<(string, real)>): set<string>
  {
    set i | 0 <= i < |entries| :: entries[i].0
  }

  /** No key appears twice, as in the entries of any object. */
  predicate DistinctKeys(entries: seq<(string, real)>)
  {
    forall i, j :: 0 <= i < j < |entries| ==> entries[i].0 != entries[j].0
  }

  /** Every entry names one of `keys`. */
  predicate KeysIn(entries: seq<(string, real)>, keys: set<string>)
  {
    forall i :: 0 <= i < |entries| ==> entries[i].0 in keys
  }

  /** Every transition of the map has a positive duration. */
  predicate AllValid(dims: map<string, Transition>)
  {
    forall k :: k in dims ==> dims[k].Valid()
  }

  /** The object the entries describe, key to value. */
  function ToMap(entries: seq<(string, real)>): (m: map<string, real>)
  {
    if entries == [] then map[]
    else
      var last := entries[|entries| - 1];
      ToMap(entries[..|entries| - 1])[last.0 := last.1]
  }

  lemma {:induction false} ToMapKeys(entries: seq<(string, real)>)
    ensures ToMap(entries).Keys == KeysOf(entries)
  {
    if entries != [] {
      var init := entries[..|entries| - 1];
      ToMapKeys(init);
      assert KeysOf(entries) == KeysOf(init) + {entries[|entries| - 1].0} by {
        forall k | k in KeysOf(entries) ensures k in KeysOf(init) + {entries[|entries| - 1].0} {
          var i :| 0 <= i < |entries| && entries[i].0 == k;
          if i < |entries| - 1 {
            assert init[i] == entries[i];
          }
        }
        forall k | k in KeysOf(init) ensures k in KeysOf(entries) {
          var i :| 0 <= i < |init| && init[i].0 == k;
          assert entries[i] == init[i];
        }
      }
    }
  }

  /** With distinct keys, the object maps each entry's key to that entry's value. */
  lemma {:induction false} ToMapAt(entries: seq<(string, real)>, i: nat)
    requires DistinctKeys(entries) && i < |entries|
    ensures entries[i].0 in ToMap(entries) && ToMap(entries)[entries[i].0] == entries[i].1
  {
    var n := |entries|;
    var init := entries[..n - 1];
    if i < n - 1 {
      assert init[i] == entries[i];
      ToMapAt(init, i);
    }
  }

  /** The transitions of the dimensions right after `Ola(values, time)`. */
  function Initials(entries: seq<(string, real)>, time: real, now: real): map<string, Transition>
    requires time > 0.0
  {
    var m := ToMap(entries);
    map k | k in m :: Initial(m[k], time, now)
  }

  /** The transitions after `set(values, time)` at `now`: the entries'
      dimensions retargeted one after the other, in order. */
  function RetargetEach(dims: map<string, Transition>, entries: seq<(string, real)>, time: real, now: real)
    : (r: map<string, Transition>)
    requires AllValid(dims) && KeysIn(entries, dims.Keys)
    requires time >= 0.0
    ensures r.Keys == dims.Keys && AllValid(r)
    decreases |entries|
  {
    if entries == [] then dims
    else
      var last := entries[|entries| - 1];
      var before := RetargetEach(dims, entries[..|entries| - 1], time, now);
      before[last.0 := before[last.0].Retarget(last.1, time, now)]
  }

  /** One more entry is one more retarget, applied after the others. */
  lemma RetargetEachStep(dims: map<string, Transition>, entries: seq<(string, real)>, time: real, now: real, i: nat)
    requires AllValid(dims) && KeysIn(entries, dims.Keys)
    requires time >= 0.0 && i < |entries|
    ensures var before := RetargetEach(dims, entries[..i], time, now);
            RetargetEach(dims, entries[..i + 1], time, now)
              == before[entries[i].0 := before[entries[i].0].Retarget(entries[i].1, time, now)]
  {
    assert entries[..i + 1][..i] == entries[..i];
  }

  /** A prefix of entries with distinct keys has distinct keys. */
  lemma DistinctKeysPrefix(entries: seq<(string, real)>, n: nat)
    requires DistinctKeys(entries) && n <= |entries|
    ensures DistinctKeys(entries[..n])
  {
    forall i, j | 0 <= i < j < n ensures entries[..n][i].0 != entries[..n][j].0 {
      assert entries[..n][i] == entries[i] && entries[..n][j] == entries[j];
    }
  }

  /** `set` retargets exactly the keys it is given: a named dimension
      continues from its own transition toward its new value, every other
      dimension keeps its transition. */
  lemma {:induction false} RetargetEachAt(dims: map<string, Transition>, entries: seq<(string, real)>,
                                          time: real, now: real, k: string)
    requires AllValid(dims) && KeysIn(entries, dims.Keys)
    requires time >= 0.0 && DistinctKeys(entries) && k in dims
    ensures k in ToMap(entries) ==>
              RetargetEach(dims, entries, time, now)[k] == dims[k].Retarget(ToMap(entries)[k], time, now)
    ensures k !in ToMap(entries) ==> RetargetEach(dims, entries, time, now)[k] == dims[k]
  {
    if entries != [] {
      var n := |entries|;
      var init := entries[..n - 1];
      var last := entries[n - 1];
      DistinctKeysPrefix(entries, n - 1);
      RetargetEachAt(dims, init, time, now, k);
      if k == last.0 {
        ToMapKeys(init);
        assert k !in KeysOf(init);
      }
    }
  }

  /** No dimension jumps in value or in rate at the instant of a `set`,
      whichever keys it names and however often. */
  lemma {:induction false} RetargetEachIsContinuous(dims: map<string, Transition>, entries: seq<(string, real)>,
                                                    time: real, now: real, k: string)
    requires AllValid(dims) && KeysIn(entries, dims.Keys)
    requires time >= 0.0 && k in dims
    ensures RetargetEach(dims, entries, time, now)[k].ValueAt(now) == dims[k].ValueAt(now)
    ensures RetargetEach(dims, entries, time, now)[k].SpeedAt(now) == dims[k].SpeedAt(now)
  {
    if entries != [] {
      var n := |entries|;
      var last := entries[n - 1];
      var before := RetargetEach(dims, entries[..n - 1], time, now);
      RetargetEachIsContinuous(dims, entries[..n - 1], time, now, k);
      if k == last.0 {
        RetargetIsContinuous(before[k], last.1, time, now);
      }
    }
  }

  /** Once the duration has elapsed after a `set`, every dimension it named
      reads its new value. */
  lemma RetargetEachReachesTargets(dims: map<string, Transition>, entries: seq<(string, real)>,
                                   time: real, now: real, i: nat, later: real)
    requires AllValid(dims) && KeysIn(entries, dims.Keys)
    requires time >= 0.0 && DistinctKeys(entries) && i < |entries|
    requires later - now >= (if time != 0.0 then time else dims[entries[i].0].time)
    ensures RetargetEach(dims, entries, time, now)[entries[i].0].ValueAt(later) == entries[i].1
  {
    ToMapAt(entries, i);
    RetargetEachAt(dims, entries, time, now, entries[i].0);
    RetargetReachesTarget(dims[entries[i].0], entries[i].1, time, now, later);
  }

  /** An object with a single key gives a single dimension, at rest on its value. */
  lemma InitialsOfOne(key: string, init: real, time: real, now: real)
    requires time > 0.0
    ensures KeysOf([(key, init)]) == {key}
    ensures Initials([(key, init)], time, now) == map[key := Initial(init, time, now)]
  {
    assert [(key, init)][0].0 == key;
    assert [(key, init)][..0] == [];
    assert ToMap([(key, init)]) == map[key := init];
  }

  /** A single entry names a dimension when its key is one. */
  lemma KeysInOne(key: string, value: real, keys: set<string>)
    requires key in keys
    ensures KeysIn([(key, value)], keys)
  {
  }

  /** Setting the one key of a one-dimension coordinator retargets it. */
  lemma RetargetEachOne(key: string, s: Transition, value: real, time: real, now: real)
    requires s.Valid() && time >= 0.0
    ensures RetargetEach(map[key := s], [(key, value)], time, now) == map[key := s.Retarget(value, time, now)]
  {
    assert [(key, value)][..0] == [];
  }

  /** A number `n` gives exactly one dimension, `"value"`, which reads `n` at
      every instant until it is retargeted. */
  lemma NumberIsValueDimension(n: real, time: real, created: real, now: real)
    requires time > 0.0
    ensures Initials(Entries(Number(n)), time, created).Keys == {"value"}
    ensures Initials(Entries(Number(n)), time, created)["value"].ValueAt(now) == n
  {
    assert [("value", n)][..0] == [];
    assert ToMap(Entries(Number(n))) == map["value" := n];
    InitialIsConstant(n, time, created, now);
  }

  /** Every dimension of a fresh coordinator reads its initial value, with
      rate 0, at every instant. */
  lemma InitialsAreConstant(entries: seq<(string, real)>, time: real, created: real, now: real, i: nat)
    requires time > 0.0 && DistinctKeys(entries) && i < |entries|
    ensures entries[i].0 in Initials(entries, time, created)
    ensures Initials(entries, time, created)[entries[i].0].ValueAt(now) == entries[i].1
    ensures Initials(entries, time, created)[entries[i].0].SpeedAt(now) == 0.0
  {
    ToMapAt(entries, i);
    InitialIsConstant(entries[i].1, time, created, now);
  }

  /** Adding one entry to the end adds one fresh dimension (or replaces the
      one of the same key). */
  lemma InitialsSnoc(entries: seq<(string, real)>, key: string, init: real, time: real, now: real)
    requires time > 0.0
    ensures Initials(entries + [(key, init)], time, now)
         == Initials(entries, time, now)[key := Initial(init, time, now)]
  {
    assert (entries + [(key, init)])[..|entries|] == entries;
    assert ToMap(entries + [(key, init)]) == ToMap(entries)[key := init];
  }

  /** The transitions of a key-to-`Single` map. */
  function StatesOf(singles: map<string, Single>): map<string, Transition>
    reads singles.Values
  {
    map k | k in singles :: singles[k].State()
  }

  /** Storing a `Single` under a key changes only that key's transition. */
  lemma StatesOfUpdate(singles: map<string, Single>, key: string, single: Single)
    ensures StatesOf(singles[key := single]) == StatesOf(singles)[key := single.State()]
  {
  }

  /** Distinct keys hold distinct `Single` objects, each with a positive duration. */
  ghost predicate ValidSingles(singles: map<string, Single>)
    reads singles.Values
  {
    (forall k, k' :: k in singles && k' in singles && k != k' ==> singles[k] != singles[k'])
    && (forall k :: k in singles ==> singles[k].Valid())
  }

  /** The loop over `each` in the `Ola` constructor: a fresh `Single` per
      entry, at rest on the entry's value, with duration `time`. */
  method NewSingles(entries: seq<(string, real)>, time: real, now: real) returns (singles: map<string, Single>)
    requires time > 0.0
    ensures ValidSingles(singles)
    ensures forall k :: k in singles ==> fresh(singles[k])
    ensures singles.Keys == KeysOf(entries)
    ensures StatesOf(singles) == Initials(entries, time, now)
  {
    singles := map[];
    var i := 0;
    while i < |entries|
      invariant 0 <= i <= |entries|
      invariant ValidSingles(singles)
      invariant forall k :: k in singles ==> fresh(singles[k])
      invariant StatesOf(singles) == Initials(entries[..i], time, now)
    {
      var (key, init) := entries[i];
      var single := new Single(init, time, now);
      assert entries[..i + 1] == entries[..i] + [(key, init)];
      InitialsSnoc(entries[..i], key, init, time, now);
      StatesOfUpdate(singles, key, single);
      singles := singles[key := single];
      i := i + 1;
    }
    assert entries[..i] == entries;
    ToMapKeys(entries);
    assert singles.Keys == StatesOf(singles).Keys == ToMap(entries).Keys;
  }

  /** `Ola`: the coordinator, with one `Single` per key fixed at construction. */
  class Ola {
    var dims: map<string, Single>

    ghost predicate Valid()
      reads this, dims.Values
    {
      ValidSingles(dims)
    }

    /** The transitions of all dimensions. */
    function States(): map<string, Transition>
      reads this, dims.Values
    {
      StatesOf(dims)
    }

    /** `Ola(values, time)` at instant `now`: one `Single` per entry, each
        with the duration `time` converted from milliseconds to seconds. */
    constructor (values: Values, now: real, time: real := 300.0)
      requires time > 0.0
      ensures Valid()
      ensures forall k :: k in dims ==> fresh(dims[k])
      ensures dims.Keys == KeysOf(Entries(values))
      ensures States() == Initials(Entries(values), time / 1000.0, now)
    {
      var singles := NewSingles(Entries(values), time / 1000.0, now);
      dims := singles;
    }

    /** `get(name)` at instant `now`, `name` defaulting to `"value"`: the
        value of that dimension, or nothing (`undefined`) for a key that is
        not a dimension. */
    method Get(now: real, name: string := "value") returns (r: Option<real>)
      requires Valid()
      ensures name in dims ==> r == Some(States()[name].ValueAt(now))
      ensures name !in dims ==> r == None
    {
      if name in dims {
        var v := dims[name].Get(now);
        r := Some(v);
      } else {
        r := None;
      }
    }

    /** The write to one dimension, `this["_" + key].set(value, time)`, that
        both `set` and the `key` property setter perform. Returns the value
        the dimension had just before. */
    method SetOne(key: string, value: real, time: real, now: real) returns (previous: real)
      requires Valid() && time >= 0.0 && key in dims
      modifies dims.Values
      ensures Valid() && dims == old(dims)
      ensures previous == old(States())[key].ValueAt(now)
      ensures States() == old(States())[key := old(States())[key].Retarget(value, time, now)]
    {
      var single := dims[key];
      previous := single.Set(value, time, now);
      assert forall k :: k in dims && k != key ==> dims[k] != single;
    }

    /** `set(values, time)` at instant `now`: retarget the dimension of each
        entry, in order; `time` is passed on as given, 0 standing for a
        duration that was not supplied. */
    method Set(values: Values, now: real, time: real := 0.0)
      requires Valid() && time >= 0.0
      requires KeysIn(Entries(values), dims.Keys)
      modifies dims.Values
      ensures Valid() && dims == old(dims)
      ensures States() == RetargetEach(old(States()), Entries(values), time, now)
    {
      var entries := Entries(values);
      ghost var states0 := States();
      for i := 0 to |entries|
        invariant Valid() && dims == old(dims)
        invariant States() == RetargetEach(states0, entries[..i], time, now)
      {
        RetargetEachStep(states0, entries, time, now, i);
        var previous := SetOne(entries[i].0, entries[i].1, time, now);
      }
      assert entries[..|entries|] == entries;
    }
  }
}
