/** The sample store: an IndexedDB object store with an auto-incrementing
    key, modelled as the sequence of its records in key order plus the key
    generator's next value. Opening the database, transactions and their
    callbacks are not modelled; neither are I/O failures, which the
    collector never handles. */
module SampleStore {
  import opened Landmarks

  /** A stored capture: the label as typed (trimmed), when it was taken,
      its frames and the name it is exported under. */
  datatype Sample = Sample(gesture: string, timestamp: int, frames: seq<Frame>, filename: string)

  /** A sample together with the key the store assigned to it. */
  datatype Record = Record(id: nat, sample: Sample)

  datatype Store = Store(records: seq<Record>, nextId: nat)

  /** The first key an IndexedDB key generator hands out. */
  const FIRST_KEY: nat := 1

  function EmptyStore(): Store
  {
    Store([], FIRST_KEY)
  }

  /** Keys strictly increase along the records and stay below the generator. */
  ghost predicate Valid(s: Store)
  {
    && s.nextId >= FIRST_KEY
    && (forall i :: 0 <= i < |s.records| ==> FIRST_KEY <= s.records[i].id < s.nextId)
    && (forall i, j :: 0 <= i < j < |s.records| ==> s.records[i].id < s.records[j].id)
  }

  /** The outcome of `add`: the new store and the key of the new record. */
  datatype Added = Added(store: Store, key: nat)

  /** `add`: store one sample under the next generated key. */
  function Add(s: Store, sample: Sample): (a: Added)
    ensures |a.store.records| == |s.records| + 1
    ensures a.store.records[..|s.records|] == s.records
    ensures a.store.records[|s.records|] == Record(a.key, sample)
    ensures a.key == s.nextId && a.store.nextId == s.nextId + 1
  {
    Added(Store(s.records + [Record(s.nextId, sample)], s.nextId + 1), s.nextId)
  }

  /** The new key exceeds every key already stored, so `add` keeps the keys ordered. */
  lemma AddKeepsValid(s: Store, sample: Sample)
    requires Valid(s)
    ensures Valid(Add(s, sample).store)
    ensures forall i :: 0 <= i < |s.records| ==> s.records[i].id < Add(s, sample).key
  {
  }

  /** `getAll`: every record, in ascending key order. */
  function GetAll(s: Store): (all: seq<Record>)
    ensures |all| == |s.records|
    ensures forall i :: 0 <= i < |all| ==> all[i] == s.records[i]
    ensures Valid(s) ==> forall i, j :: 0 <= i < j < |all| ==> all[i].id < all[j].id
  {
    s.records
  }

  /** `clear`: drop every record. The key generator is not reset, as in IndexedDB. */
  function Clear(s: Store): (c: Store)
    ensures c.records == []
    ensures c.nextId == s.nextId
    ensures Valid(s) ==> Valid(c)
  {
    Store([], s.nextId)
  }

  /** `all.filter(s => s.gesture === name)`: exact, case-sensitive comparison. */
  function Matching(recs: seq<Record>, name: string): (m: seq<Record>)
    ensures |m| <= |recs|
  {
    if recs == [] then []
    else if recs[0].sample.gesture == name then [recs[0]] + Matching(recs[1..], name)
    else Matching(recs[1..], name)
  }

  /** `countGestureInDB(name)`: how many stored samples carry exactly this label. */
  function Count(s: Store, name: string): (c: nat)
    ensures c <= |s.records|
  {
    |Matching(GetAll(s), name)|
  }

  /** The filter keeps exactly the records carrying the label. */
  lemma {:induction false} MatchingMembers(recs: seq<Record>, name: string)
    ensures forall r :: r in Matching(recs, name) <==> r in recs && r.sample.gesture == name
  {
    if recs != [] {
      MatchingMembers(recs[1..], name);
      assert recs == [recs[0]] + recs[1..];
    }
  }

  /** The stored labels, in key order. */
  function Gestures(recs: seq<Record>): (gs: seq<string>)
    ensures |gs| == |recs|
  {
    seq(|recs|, i requires 0 <= i < |recs| => recs[i].sample.gesture)
  }

  /** The filter-count is the number of occurrences of the label among the
      stored labels. */
  lemma {:induction false} MatchingOccurrences(recs: seq<Record>, name: string)
    ensures |Matching(recs, name)| == multiset(Gestures(recs))[name]
  {
    if recs != [] {
      MatchingOccurrences(recs[1..], name);
      assert Gestures(recs) == [recs[0].sample.gesture] + Gestures(recs[1..]);
    }
  }

  /** `countGestureInDB(name)` counts exactly the stored samples whose label is `name`. */
  lemma CountIsOccurrences(s: Store, name: string)
    ensures Count(s, name) == multiset(Gestures(s.records))[name]
  {
    MatchingOccurrences(s.records, name);
  }

  /** A label counts zero exactly when no stored sample carries it. */
  lemma CountZeroIff(s: Store, name: string)
    ensures Count(s, name) == 0 <==> forall i :: 0 <= i < |s.records| ==> s.records[i].sample.gesture != name
  {
    var m := Matching(s.records, name);
    MatchingMembers(s.records, name);
    if m != [] {
      assert m[0] in m;
    }
  }

  /** Filtering distributes over concatenation. */
  lemma {:induction false} MatchingAppend(a: seq<Record>, b: seq<Record>, name: string)
    ensures Matching(a + b, name) == Matching(a, name) + Matching(b, name)
  {
    if a == [] {
      assert a + b == b;
    } else {
      assert (a + b)[0] == a[0];
      assert (a + b)[1..] == a[1..] + b;
      MatchingAppend(a[1..], b, name);
    }
  }

  /** Adding a sample raises the count of its own label by one and leaves
      every other label's count as it was. */
  lemma CountAfterAdd(s: Store, sample: Sample, name: string)
    ensures Count(Add(s, sample).store, name)
      == Count(s, name) + (if sample.gesture == name then 1 else 0)
  {
    var r := Record(Add(s, sample).key, sample);
    MatchingAppend(s.records, [r], name);
    assert Add(s, sample).store.records == s.records + [r];
  }

  /** After `clear`, `getAll` is empty and every label counts zero. */
  lemma ClearEmpties(s: Store, name: string)
    ensures GetAll(Clear(s)) == []
    ensures Count(Clear(s), name) == 0
  {
  }

  /** The requests the collector makes of the store. */
  datatype Request = AddRequest(sample: Sample) | GetAllRequest | CountRequest(name: string) | ClearRequest

  function Apply(s: Store, q: Request): Store
  {
    match q
    case AddRequest(sample) => Add(s, sample).store
    case GetAllRequest => s
    case CountRequest(_) => s
    case ClearRequest => Clear(s)
  }

  function ApplyAll(s: Store, qs: seq<Request>): Store
    decreases |qs|
  {
    if qs == [] then s else ApplyAll(Apply(s, qs[0]), qs[1..])
  }

  function AddsIn(qs: seq<Request>): nat
  {
    if qs == [] then 0 else (if qs[0].AddRequest? then 1 else 0) + AddsIn(qs[1..])
  }

  /** Any run of requests keeps the keys well ordered; without a `clear`
      it keeps every earlier record in place and grows by one per `add`. */
  lemma {:induction false} AppendOnly(s: Store, qs: seq<Request>)
    requires Valid(s)
    decreases |qs|
    ensures Valid(ApplyAll(s, qs))
    ensures (forall i :: 0 <= i < |qs| ==> !qs[i].ClearRequest?) ==>
      && |ApplyAll(s, qs).records| == |s.records| + AddsIn(qs)
      && ApplyAll(s, qs).records[..|s.records|] == s.records
  {
    if qs != [] {
      var s' := Apply(s, qs[0]);
      if qs[0].AddRequest? {
        AddKeepsValid(s, qs[0].sample);
      }
      AppendOnly(s', qs[1..]);
      if forall i :: 0 <= i < |qs| ==> !qs[i].ClearRequest? {
        assert forall i :: 0 <= i < |qs[1..]| ==> qs[1..][i] == qs[i + 1];
        var t := ApplyAll(s', qs[1..]);
        assert t.records[..|s'.records|][..|s.records|] == t.records[..|s.records|];
      }
    }
  }
}
