/** The shared mapping that the service exposes: a Python `dict` from string
    keys to opaque values.  A dict value is modelled as its keys in insertion
    order (the order `keys()` and iteration report) together with the
    key-to-value map; `WellFormed` ties the two together. */
module Objects {

  /** The one failure the store reports: a lookup of an absent key. */
  datatype Error = KeyError(key: string)

  datatype Result<T> = Ok(value: T) | Err(error: Error)

  datatype Option<T> = None | Some(value: T)

  /** The value of a dict: `order` lists every key once, oldest insertion first. */
  datatype Dict<V> = Dict(order: seq<string>, entries: map<string, V>)

  predicate Distinct(s: seq<string>) {
    forall i, j :: 0 <= i < j < |s| ==> s[i] != s[j]
  }

  ghost predicate WellFormed<V>(d: Dict<V>) {
    && Distinct(d.order)
    && forall k :: k in d.order <==> k in d.entries
  }

  function Empty<V>(): (d: Dict<V>)
    ensures WellFormed(d) && d.entries == map[]
  {
    Dict([], map[])
  }

  /** `d[k]`: the stored value, or KeyError when `k` is absent (never a default). */
  function Lookup<V>(d: Dict<V>, k: string): (r: Result<V>)
    ensures r.Ok? <==> k in d.entries
    ensures r.Ok? ==> r.value == d.entries[k]
    ensures r.Err? ==> r.error == KeyError(k)
  {
    if k in d.entries then Ok(d.entries[k]) else Err(KeyError(k))
  }

  /** `len(d)`: the number of entries, which is the number of keys `keys()` lists. */
  function Size<V>(d: Dict<V>): (n: nat)
    requires WellFormed(d)
    ensures n == |d.order|
  {
    SizeIsKeyCount(d);
    |d.entries|
  }

  /** `d[k] = v`: overwrite in place when present (keeping the key's position),
      otherwise insert at the end of the order. */
  function Insert<V>(d: Dict<V>, k: string, v: V): (r: Dict<V>)
    requires WellFormed(d)
    ensures WellFormed(r)
    ensures Lookup(r, k) == Ok(v)
    ensures forall k' :: k' != k ==> Lookup(r, k') == Lookup(d, k')
    ensures r.entries.Keys == d.entries.Keys + {k}
    ensures Size(r) == if k in d.entries then Size(d) else Size(d) + 1
    ensures k in d.entries ==> r.order == d.order
    ensures k !in d.entries ==> r.order == d.order + [k]
  {
    InsertKeepsWellFormed(d, k, v);
    if k in d.entries then Dict(d.order, d.entries[k := v])
    else Dict(d.order + [k], d.entries[k := v])
  }

  /** Appending a key only when it is not yet present keeps the order distinct
      and in step with the entries. */
  lemma InsertKeepsWellFormed<V>(d: Dict<V>, k: string, v: V)
    requires WellFormed(d)
    ensures WellFormed(Dict(if k in d.entries then d.order else d.order + [k], d.entries[k := v]))
  {
  }

  /** A distinct sequence has as many elements as its set of elements. */
  lemma {:induction false} DistinctCardinality(s: seq<string>)
    requires Distinct(s)
    ensures |set k | k in s| == |s|
  {
    if s != [] {
      var rest := s[1..];
      assert Distinct(rest) by {
        forall i, j | 0 <= i < j < |rest| ensures rest[i] != rest[j] {
          assert rest[i] == s[i + 1] && rest[j] == s[j + 1];
        }
      }
      DistinctCardinality(rest);
      assert s[0] !in rest by {
        forall i | 0 <= i < |rest| ensures rest[i] != s[0] {
          assert rest[i] == s[i + 1];
        }
      }
      assert (set k | k in s) == {s[0]} + (set k | k in rest) by {
        assert s == [s[0]] + rest;
      }
    }
  }

  /** A dict has as many entries as `d.keys()` reports keys. */
  lemma SizeIsKeyCount<V>(d: Dict<V>)
    requires WellFormed(d)
    ensures |d.entries| == |d.order|
  {
    DistinctCardinality(d.order);
    assert d.entries.Keys == set k | k in d.order;
  }

  /** The keys named by a run of assignments. */
  function AssignedKeys<V>(sets: seq<(string, V)>): set<string> {
    set i | 0 <= i < |sets| :: sets[i].0
  }

  /** The dict reached from `d` by a run of `d[k] = v` assignments, in order. */
  function ApplySets<V>(d: Dict<V>, sets: seq<(string, V)>): (r: Dict<V>)
    requires WellFormed(d)
    ensures WellFormed(r)
    decreases |sets|
  {
    if sets == [] then d else ApplySets(Insert(d, sets[0].0, sets[0].1), sets[1..])
  }

  /** The keys assigned by a non-empty run: its first key and those of the rest. */
  lemma AssignedKeysCons<V>(sets: seq<(string, V)>)
    requires sets != []
    ensures AssignedKeys(sets) == {sets[0].0} + AssignedKeys(sets[1..])
  {
  }

  /** The keys of a dict after a run of assignments: the old keys plus every key
      assigned; nothing is ever removed. */
  lemma {:induction false} ApplySetsKeys<V>(d: Dict<V>, sets: seq<(string, V)>)
    requires WellFormed(d)
    ensures ApplySets(d, sets).entries.Keys
         == d.entries.Keys + AssignedKeys(sets)
    decreases |sets|
  {
    if sets != [] {
      var d' := Insert(d, sets[0].0, sets[0].1);
      ApplySetsKeys(d', sets[1..]);
      AssignedKeysCons(sets);
    }
  }

  /** Starting from an empty dict, `len` is the number of distinct keys ever set. */
  lemma LengthCountsDistinctKeys<V>(sets: seq<(string, V)>)
    ensures Size(ApplySets(Empty(), sets)) == |AssignedKeys(sets)|
  {
    ApplySetsKeys(Empty<V>(), sets);
    assert ApplySets(Empty<V>(), sets).entries.Keys == AssignedKeys(sets);
  }

  /** A key that no assignment of the run names keeps its old value (or stays absent). */
  lemma {:induction false} ApplySetsUnassigned<V>(d: Dict<V>, sets: seq<(string, V)>, k: string)
    requires WellFormed(d)
    requires forall i :: 0 <= i < |sets| ==> sets[i].0 != k
    ensures Lookup(ApplySets(d, sets), k) == Lookup(d, k)
    decreases |sets|
  {
    if sets != [] {
      var rest := sets[1..];
      assert forall j :: 0 <= j < |rest| ==> rest[j] == sets[j + 1];
      ApplySetsUnassigned(Insert(d, sets[0].0, sets[0].1), rest, k);
    }
  }

  /** Last write wins: after a run of assignments, a key holds the value of the
      last assignment to it. */
  lemma {:induction false} ApplySetsLastWrite<V>(d: Dict<V>, sets: seq<(string, V)>, k: string, i: nat)
    requires WellFormed(d)
    requires i < |sets| && sets[i].0 == k
    requires forall j :: i < j < |sets| ==> sets[j].0 != k
    ensures Lookup(ApplySets(d, sets), k) == Ok(sets[i].1)
    decreases |sets|
  {
    var d' := Insert(d, sets[0].0, sets[0].1);
    var rest := sets[1..];
    assert forall j :: 0 <= j < |rest| ==> rest[j] == sets[j + 1];
    if i == 0 {
      ApplySetsUnassigned(d', rest, k);
    } else {
      ApplySetsLastWrite(d', rest, k, i - 1);
    }
  }

  /** The mutable dict object.  Host code and every service instance hold the
      same reference, so an assignment through any of them is seen by all. */
  class SharedDict<V> {
    var contents: Dict<V>

    ghost predicate Valid()
      reads this
    {
      WellFormed(contents)
    }

    constructor (initial: Dict<V>)
      requires WellFormed(initial)
      ensures Valid() && contents == initial
    {
      contents := initial;
    }
  }
}
