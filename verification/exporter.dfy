/** `exportZip`: the files the archive is asked to hold, one
    `folder.file("dataset/<filename>", JSON)` write per stored record, in
    `getAll` order. What the zip library does with two writes to one path is
    not modelled. */
module Exporter {
  import opened Wrappers
  import opened SampleStore
  import opened Collector

  const FOLDER: string := "dataset"
  /** The alert shown when there is nothing to export. */
  const NO_SAMPLES: string := "No samples stored."

  /** One file write: its path inside the archive and the record serialised into it. */
  datatype Entry = Entry(path: string, record: Record)

  /** The path `folder.file(filename, ...)` writes to inside the archive. */
  function EntryPath(filename: string): (path: string)
    ensures |path| == |FOLDER| + 1 + |filename|
  {
    FOLDER + "/" + filename
  }

  /** The filename a path inside the folder stands for, if it is inside the folder. */
  function EntryFilename(path: string): (f: Option<string>)
    ensures f.Some? <==> |path| > |FOLDER| && path[..|FOLDER| + 1] == FOLDER + "/"
    ensures f.Some? ==> |f.value| == |path| - |FOLDER| - 1
  {
    if |path| > |FOLDER| && path[..|FOLDER| + 1] == FOLDER + "/" then Some(path[|FOLDER| + 1..])
    else None
  }

  /** Reading the filename back from a path gives the filename written. */
  lemma EntryFilenamePath(filename: string)
    ensures EntryFilename(EntryPath(filename)) == Some(filename)
  {
    var path := EntryPath(filename);
    assert path[..|FOLDER| + 1] == FOLDER + "/";
    assert path[|FOLDER| + 1..] == filename;
  }

  /** Different filenames never share a path in the archive. */
  lemma EntryPathInjective(a: string, b: string)
    requires EntryPath(a) == EntryPath(b)
    ensures a == b
  {
    EntryFilenamePath(a);
    EntryFilenamePath(b);
  }

  /** The writes of `all.forEach(s => folder.file(s.filename, JSON.stringify(s)))`. */
  function Entries(recs: seq<Record>): (es: seq<Entry>)
    ensures |es| == |recs|
  {
    if recs == [] then [] else [Entry(EntryPath(recs[0].sample.filename), recs[0])] + Entries(recs[1..])
  }

  /** Write `i` carries record `i` under that record's filename in the folder. */
  lemma {:induction false} EntriesAt(recs: seq<Record>)
    ensures forall i :: 0 <= i < |recs| ==>
      Entries(recs)[i] == Entry(EntryPath(recs[i].sample.filename), recs[i])
  {
    if recs != [] {
      var rest := Entries(recs[1..]);
      EntriesAt(recs[1..]);
      assert Entries(recs) == [Entry(EntryPath(recs[0].sample.filename), recs[0])] + rest;
      forall i | 1 <= i < |recs|
        ensures Entries(recs)[i] == Entry(EntryPath(recs[i].sample.filename), recs[i])
      {
        assert recs[1..][i - 1] == recs[i];
      }
    }
  }

  /** The records serialised by a run of writes, in write order. */
  function Serialised(es: seq<Entry>): (recs: seq<Record>)
    ensures |recs| == |es|
  {
    if es == [] then [] else [es[0].record] + Serialised(es[1..])
  }

  /** Nothing is lost or reordered: the writes serialise exactly the records. */
  lemma {:induction false} SerialisedEntries(recs: seq<Record>)
    ensures Serialised(Entries(recs)) == recs
  {
    if recs != [] {
      SerialisedEntries(recs[1..]);
    }
  }

  /** `exportZip`: refuse an empty store; otherwise one write per record. */
  function ExportZip(s: Store): (r: Result<seq<Entry>, string>)
    ensures r.Failure? <==> s.records == []
    ensures r.Failure? ==> r.error == NO_SAMPLES
    ensures r.Success? ==> |r.value| == |s.records| && Serialised(r.value) == s.records
  {
    var all := GetAll(s);
    if |all| == 0 then Failure(NO_SAMPLES)
    else
      assert all == s.records;
      SerialisedEntries(all);
      Success(Entries(all))
  }

  /** Each write of a non-empty export is the matching record under its own
      filename, so the writes follow the store's key order. */
  lemma ExportEntries(s: Store)
    requires s.records != []
    ensures ExportZip(s).Success?
    ensures forall i :: 0 <= i < |s.records| ==>
      ExportZip(s).value[i] == Entry(EntryPath(s.records[i].sample.filename), s.records[i])
    ensures Valid(s) ==> forall i, j :: 0 <= i < j < |s.records| ==>
      ExportZip(s).value[i].record.id < ExportZip(s).value[j].record.id
  {
    assert GetAll(s) == s.records;
    EntriesAt(s.records);
  }

  /** No two records share a filename. */
  ghost predicate DistinctFilenames(recs: seq<Record>)
  {
    forall i, j :: 0 <= i < j < |recs| ==> recs[i].sample.filename != recs[j].sample.filename
  }

  /** No two writes share a path. */
  ghost predicate DistinctPaths(es: seq<Entry>)
  {
    forall i, j :: 0 <= i < j < |es| ==> es[i].path != es[j].path
  }

  /** The writes go to pairwise different paths exactly when the records'
      filenames are pairwise different. */
  lemma DistinctPathsIff(recs: seq<Record>)
    ensures DistinctPaths(Entries(recs)) <==> DistinctFilenames(recs)
  {
    var es := Entries(recs);
    EntriesAt(recs);
    if DistinctFilenames(recs) {
      forall i, j | 0 <= i < j < |es|
        ensures es[i].path != es[j].path
      {
        if es[i].path == es[j].path {
          EntryPathInjective(recs[i].sample.filename, recs[j].sample.filename);
        }
      }
    }
  }

  /** A tidy store (every batch used a trimmed label) exports every record to
      its own path. */
  lemma TidyExportsDistinctPaths(s: Store)
    requires Tidy(s)
    requires s.records != []
    ensures ExportZip(s).Success?
    ensures DistinctPaths(ExportZip(s).value)
  {
    TidyFilenamesDistinct(s);
    assert GetAll(s) == s.records;
    DistinctPathsIff(s.records);
  }

  /** Concretely: after a two-sample batch for " fist" on an empty store, the
      export writes both samples to the one path `dataset/ fist_1.json`. */
  lemma UntrimmedBatchSharesPath(inp: Inputs, s: Store)
    requires s == Batched(" fist", EmptyStore(), inp, 2)
    ensures ExportZip(s).Success?
    ensures |ExportZip(s).value| == 2
    ensures ExportZip(s).value[0].path == ExportZip(s).value[1].path == EntryPath(" fist_1.json")
    ensures !DistinctPaths(ExportZip(s).value)
  {
    UntrimmedNameCollides(inp, s);
    ExportEntries(s);
  }
}
