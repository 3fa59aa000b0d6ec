/** The collector page's actions on the store: a batch capture session and
    clearing the store. The page's visible state (status line, progress bar,
    running flag, total counter) is a value threaded through each action. */
module Collector {
  import opened Wrappers
  import opened RealArith
  import opened Landmarks
  import opened Naming
  import opened SampleStore

  /** The status line, progress bar, running flag and total-samples counter. */
  datatype Panel = Panel(status: string, progress: real, collecting: bool, samplesSaved: nat)

  const IDLE: string := "Idle"
  const BATCH_STARTED: string := "Batch capturing..."
  const BATCH_COMPLETE: string := "Batch complete"
  const DATABASE_CLEARED: string := "Database cleared"
  /** The alert shown when the label is blank. */
  const NEED_NAME: string := "Enter gesture name"

  /** What a batch gets from outside the store: the frames one capture
      returns when it starts at a given poll, and the clock reading at each
      iteration. */
  datatype Inputs = Inputs(capture: nat -> seq<Frame>, now: nat -> int)

  /** The camera side of the page: `captureSequence` run on the detector's
      feed, starting at a given poll. */
  function Camera(feed: Feed, hypot: Point -> real): (capture: nat -> seq<Frame>)
    requires WellFormedFeed(feed)
    ensures forall start: nat :: capture(start) == CaptureSequence(feed, hypot, start)
  {
    (start: nat) => CaptureSequence(feed, hypot, start)
  }

  /** The sample iteration `i` (from 1) records once `count` samples of the
      label as typed are stored: frames from its own 32 polls, the trimmed
      label, the clock reading of the iteration, and the filename
      `${gestureName}_${count + 1}.json` built from the label as typed. */
  function SampleAt(name: string, i: nat, count: nat, inp: Inputs): (sample: Sample)
    requires i >= 1
    ensures Trim(sample.gesture) == sample.gesture
    ensures name == Trim(name) ==> sample.filename == SampleFilename(sample.gesture, count + 1)
  {
    TrimIdempotent(name);
    Sample(Trim(name), inp.now(i), inp.capture((i - 1) * FRAME_COUNT), SampleFilename(name, count + 1))
  }

  /** Closed form of the sample stored by iteration `j + 1` of a batch that
      started with `c0` samples of the label as typed: the ordinal advances
      with the iterations only when the stored (trimmed) label is the typed
      one, since otherwise the batch's own samples are never counted. */
  function BatchSample(name: string, j: nat, c0: nat, inp: Inputs): Sample
  {
    SampleAt(name, j + 1, c0 + (if name == Trim(name) then j else 0), inp)
  }

  /** The records a batch of `k` iterations appends, in iteration order,
      under consecutive keys from `id0`. */
  function BatchRecords(name: string, id0: nat, c0: nat, inp: Inputs, k: nat): (recs: seq<Record>)
    ensures |recs| == k
  {
    if k == 0 then []
    else BatchRecords(name, id0, c0, inp, k - 1) + [Record(id0 + k - 1, BatchSample(name, k - 1, c0, inp))]
  }

  /** Record `j` of a batch is iteration `j + 1`'s sample under key `id0 + j`. */
  lemma {:induction false} BatchRecordsAt(name: string, id0: nat, c0: nat, inp: Inputs, k: nat)
    ensures forall j :: 0 <= j < k ==>
      BatchRecords(name, id0, c0, inp, k)[j] == Record(id0 + j, BatchSample(name, j, c0, inp))
  {
    if k > 0 {
      BatchRecordsAt(name, id0, c0, inp, k - 1);
      var earlier := BatchRecords(name, id0, c0, inp, k - 1);
      var recs := BatchRecords(name, id0, c0, inp, k);
      assert forall j :: 0 <= j < k - 1 ==> recs[j] == earlier[j];
    }
  }

  /** The store `k` iterations of a batch for `name` leave, starting from
      `s0`: the old records, then the batch's records, and the key generator
      advanced by `k`. */
  function Batched(name: string, s0: Store, inp: Inputs, k: nat): (s: Store)
    ensures |s.records| == |s0.records| + k
  {
    Store(s0.records + BatchRecords(name, s0.nextId, Count(s0, name), inp, k), s0.nextId + k)
  }

  /** The batch's own samples raise the typed label's count only when the
      label needed no trimming: they are stored under the trimmed label. */
  lemma {:induction false} BatchedCount(name: string, s0: Store, inp: Inputs, k: nat)
    ensures Count(Batched(name, s0, inp, k), name) == Count(s0, name) + (if name == Trim(name) then k else 0)
  {
    if k == 0 {
      assert Batched(name, s0, inp, 0).records == s0.records;
    } else {
      var before := Batched(name, s0, inp, k - 1);
      var sample := BatchSample(name, k - 1, Count(s0, name), inp);
      BatchedCount(name, s0, inp, k - 1);
      BatchedStep(name, s0, inp, k - 1, sample);
      CountAfterAdd(before, sample, name);
    }
  }

  /** The store after `k + 1` iterations is the store after `k` with iteration
      `k + 1`'s record added. */
  lemma BatchedStep(name: string, s0: Store, inp: Inputs, k: nat, sample: Sample)
    requires sample == BatchSample(name, k, Count(s0, name), inp)
    ensures Batched(name, s0, inp, k + 1) == Add(Batched(name, s0, inp, k), sample).store
  {
    var batch := BatchRecords(name, s0.nextId, Count(s0, name), inp, k);
    var rec := Record(s0.nextId + k, sample);
    assert s0.records + batch + [rec] == s0.records + (batch + [rec]);
  }

  /** One more iteration of the loop body, which counts the label as typed in
      the current store, stores exactly the record the closed form predicts. */
  lemma ProgressStep(name: string, s0: Store, inp: Inputs, k: nat)
    ensures Batched(name, s0, inp, k + 1)
      == Add(Batched(name, s0, inp, k), SampleAt(name, k + 1, Count(Batched(name, s0, inp, k), name), inp)).store
  {
    BatchedCount(name, s0, inp, k);
    BatchedStep(name, s0, inp, k, BatchSample(name, k, Count(s0, name), inp));
  }

  /** What the closed form says about the store's shape: the old records
      stay in front, one record per iteration follows, each with the next key. */
  lemma BatchedShape(name: string, s0: Store, inp: Inputs, k: nat)
    ensures Batched(name, s0, inp, k).records[..|s0.records|] == s0.records
    ensures Batched(name, s0, inp, k).nextId == s0.nextId + k
    ensures forall n :: |s0.records| <= n < |s0.records| + k ==>
      Batched(name, s0, inp, k).records[n]
        == Record(s0.nextId + (n - |s0.records|), BatchSample(name, n - |s0.records|, Count(s0, name), inp))
  {
    var s := Batched(name, s0, inp, k);
    var batch := BatchRecords(name, s0.nextId, Count(s0, name), inp, k);
    BatchRecordsAt(name, s0.nextId, Count(s0, name), inp, k);
    assert (s0.records + batch)[..|s0.records|] == s0.records;
    forall n | |s0.records| <= n < |s.records|
      ensures s.records[n] == batch[n - |s0.records|]
    {
    }
  }

  /** A batch keeps the store's keys strictly increasing. */
  lemma BatchedValid(name: string, s0: Store, inp: Inputs, k: nat)
    requires Valid(s0)
    ensures Valid(Batched(name, s0, inp, k))
  {
    BatchedShape(name, s0, inp, k);
  }

  /** Every stored label is non-empty and already trimmed. */
  ghost predicate TrimmedLabels(s: Store)
  {
    forall i :: 0 <= i < |s.records| ==>
      s.records[i].sample.gesture != [] && Trim(s.records[i].sample.gesture) == s.records[i].sample.gesture
  }

  /** The empty store is where the page's invariants start. */
  lemma EmptyStoreInvariants()
    ensures Valid(EmptyStore()) && Tidy(EmptyStore()) && TrimmedLabels(EmptyStore())
  {
  }

  /** A batch for a label that is not blank stores only trimmed, non-empty labels. */
  lemma BatchedTrimmedLabels(name: string, s0: Store, inp: Inputs, k: nat)
    requires Trim(name) != [] && TrimmedLabels(s0)
    ensures TrimmedLabels(Batched(name, s0, inp, k))
  {
    var s := Batched(name, s0, inp, k);
    BatchedShape(name, s0, inp, k);
    TrimIdempotent(name);
    forall n | 0 <= n < |s.records|
      ensures s.records[n].sample.gesture != [] && Trim(s.records[n].sample.gesture) == s.records[n].sample.gesture
    {
      if n < |s0.records| {
        assert s.records[n] == s.records[..|s0.records|][n];
      }
    }
  }

  /** With the page's camera, iteration `j + 1` of a batch stores the 32
      frames captured from polls `32 j` onward, each zeros when no hand was
      seen and the normalised hand otherwise, stamped with its own clock reading. */
  lemma BatchFramesCaptured(name: string, s0: Store, feed: Feed, hypot: Point -> real,
                            now: nat -> int, k: nat, s: Store)
    requires WellFormedFeed(feed)
    requires s == Batched(name, s0, Inputs(Camera(feed, hypot), now), k)
    ensures forall n :: |s0.records| <= n < |s.records| ==>
      && s.records[n].sample.frames == CaptureSequence(feed, hypot, (n - |s0.records|) * FRAME_COUNT)
      && s.records[n].sample.timestamp == now(n - |s0.records| + 1)
      && |s.records[n].sample.frames| == FRAME_COUNT
  {
    BatchedShape(name, s0, Inputs(Camera(feed, hypot), now), k);
  }

  /** A batch for a trimmed label keeps a tidy store tidy. */
  lemma {:induction false} TidyBatched(name: string, s0: Store, inp: Inputs, k: nat)
    requires name == Trim(name)
    requires Tidy(s0)
    ensures Tidy(Batched(name, s0, inp, k))
  {
    if k == 0 {
      assert Batched(name, s0, inp, 0) == s0;
    } else {
      var before := Batched(name, s0, inp, k - 1);
      var sample := SampleAt(name, k, Count(before, name), inp);
      TidyBatched(name, s0, inp, k - 1);
      TidyAfterAdd(before, sample);
      ProgressStep(name, s0, inp, k - 1);
    }
  }

  /** The outcome of one press of "Start Batch Capture": the store and panel
      afterwards, the alert shown if any, and the progress value and status
      line set at each iteration. */
  datatype BatchRun = BatchRun(store: Store, panel: Panel, alert: Option<string>,
                               progressTrace: seq<real>, statusTrace: seq<string>)

  /** The number of iterations `for (let i = 1; i <= batchCount; i++)` runs. */
  function Iterations(batchCount: int): (k: nat)
    ensures batchCount > 0 ==> k == batchCount
    ensures batchCount <= 0 ==> k == 0
  {
    if batchCount > 0 then batchCount else 0
  }

  /** The progress bar's value at iteration `i` of `n`: `i / batchCount`. */
  function Progress(i: int, n: int): real
    requires n != 0
  {
    i as real / n as real
  }

  /** The progress values set over the first `k` iterations of `n`. */
  function ProgressTrace(k: nat, n: int): (t: seq<real>)
    requires k == 0 || n > 0
    ensures |t| == k
  {
    if k == 0 then [] else ProgressTrace(k - 1, n) + [Progress(k, n)]
  }

  /** Iteration `j + 1` sets the bar to `(j + 1) / n`, a value in (0, 1]. */
  lemma {:induction false} ProgressTraceAt(k: nat, n: int)
    requires k <= n
    ensures forall j :: 0 <= j < k ==> ProgressTrace(k, n)[j] == Progress(j + 1, n)
    ensures forall j :: 0 <= j < k ==> 0.0 < ProgressTrace(k, n)[j] <= 1.0
  {
    if k > 0 {
      ProgressTraceAt(k - 1, n);
      var t := ProgressTrace(k, n);
      assert forall j :: 0 <= j < k - 1 ==> t[j] == ProgressTrace(k - 1, n)[j];
      FractionInUnit(k, n);
    }
  }

  /** The status lines shown over the first `k` iterations of `n`. */
  function StatusTrace(k: nat, n: nat): (t: seq<string>)
    ensures |t| == k
  {
    if k == 0 then [] else StatusTrace(k - 1, n) + [CapturingStatus(k, n)]
  }

  /** Iteration `j + 1` shows `Capturing <j + 1> / <n>`. */
  lemma {:induction false} StatusTraceAt(k: nat, n: nat)
    ensures forall j :: 0 <= j < k ==> StatusTrace(k, n)[j] == CapturingStatus(j + 1, n)
  {
    if k > 0 {
      StatusTraceAt(k - 1, n);
      var t := StatusTrace(k, n);
      assert forall j :: 0 <= j < k - 1 ==> t[j] == StatusTrace(k - 1, n)[j];
    }
  }

  /** No status line of a batch repeats: each names its own iteration. */
  lemma StatusTraceDistinct(k: nat, n: nat)
    ensures forall i, j :: 0 <= i < j < k ==> StatusTrace(k, n)[i] != StatusTrace(k, n)[j]
  {
    var t := StatusTrace(k, n);
    StatusTraceAt(k, n);
    forall i, j | 0 <= i < j < k
      ensures t[i] != t[j]
    {
      if t[i] == t[j] {
        CapturingStatusInjective(i + 1, n, j + 1, n);
      }
    }
  }

  /** The panel once iteration `k` of `n` has announced itself: its status
      line and progress value, the rest as the batch started. */
  function Announced(p0: Panel, k: nat, n: int): (p: Panel)
    requires k == 0 || n > 0
    ensures p.collecting == p0.collecting && p.samplesSaved == p0.samplesSaved
    ensures k == 0 ==> p == p0
    ensures k > 0 ==> p.status == CapturingStatus(k, n) && p.progress == Progress(k, n)
  {
    if k == 0 then p0 else p0.(status := CapturingStatus(k, n), progress := Progress(k, n))
  }

  /** The page's state inside a batch: the store, the panel, and the
      progress values and status lines set so far. */
  datatype Session = Session(store: Store, panel: Panel, progress: seq<real>, statuses: seq<string>)

  /** The session after `k` iterations of a batch of `n` for `name`, started
      on store `s0` with panel `p0`. */
  function Expected(name: string, n: int, s0: Store, p0: Panel, inp: Inputs, k: nat): Session
    requires k == 0 || n > 0
  {
    Session(Batched(name, s0, inp, k), Announced(p0, k, n), ProgressTrace(k, n), StatusTrace(k, Iterations(n)))
  }

  /** One iteration of the loop body (announce, capture, count, name, store)
      takes the session after `i - 1` iterations to the session after `i`. */
  lemma LoopStep(name: string, n: int, s0: Store, p0: Panel, inp: Inputs, i: nat)
    requires 1 <= i <= n
    ensures var e := Expected(name, n, s0, p0, inp, i - 1);
      Expected(name, n, s0, p0, inp, i)
        == Session(Add(e.store, SampleAt(name, i, Count(e.store, name), inp)).store,
                   e.panel.(status := CapturingStatus(i, n), progress := Progress(i, n)),
                   e.progress + [Progress(i, n)],
                   e.statuses + [CapturingStatus(i, n)])
  {
    var e := Expected(name, n, s0, p0, inp, i - 1);
    var x := Expected(name, n, s0, p0, inp, i);
    ProgressStep(name, s0, inp, i - 1);
    assert x.store == Add(e.store, SampleAt(name, i, Count(e.store, name), inp)).store;
    assert x.panel == e.panel.(status := CapturingStatus(i, n), progress := Progress(i, n));
    assert x.progress == e.progress + [Progress(i, n)];
    assert Iterations(n) == n;
    assert x.statuses == e.statuses + [CapturingStatus(i, n)];
  }

  /** The loop of `startBatch`: iterations 1 .. batchCount, each setting the
      status line and progress bar, then capturing, counting, naming and
      storing one sample. */
  method BatchLoop(name: string, batchCount: int, store: Store, p0: Panel, inp: Inputs)
    returns (s: Store, p: Panel, progress: seq<real>, statuses: seq<string>)
    ensures Session(s, p, progress, statuses) == Expected(name, batchCount, store, p0, inp, Iterations(batchCount))
  {
    p := p0;
    s := store;
    progress := [];
    statuses := [];
    assert Batched(name, store, inp, 0).records == store.records;
    var i := 1;
    while i <= batchCount
      invariant 1 <= i <= Iterations(batchCount) + 1
      invariant Session(s, p, progress, statuses) == Expected(name, batchCount, store, p0, inp, i - 1)
    {
      LoopStep(name, batchCount, store, p0, inp, i);
      var fraction := Progress(i, batchCount);
      statuses := statuses + [CapturingStatus(i, batchCount)];
      progress := progress + [fraction];
      p := p.(status := CapturingStatus(i, batchCount), progress := fraction);
      var count := Count(s, name);
      var sample := SampleAt(name, i, count, inp);
      s := Add(s, sample).store;
      i := i + 1;
    }
  }

  /** `startBatch`: refuse a blank label; otherwise run the loop and report
      the store's total. */
  method StartBatch(name: string, batchCount: int, store: Store, panel: Panel,
                    feed: Feed, hypot: Point -> real, now: nat -> int)
    returns (r: BatchRun)
    requires WellFormedFeed(feed)
    ensures r.alert == Some(NEED_NAME) <==> Trim(name) == []
    ensures r.alert == None <==> Trim(name) != []
    ensures Trim(name) == [] ==>
      r.store == store && r.panel == panel && r.progressTrace == [] && r.statusTrace == []
    ensures batchCount <= 0 ==> r.store == store
    ensures Trim(name) != [] ==>
      && r.store == Batched(name, store, Inputs(Camera(feed, hypot), now), Iterations(batchCount))
      && (Tidy(store) && name == Trim(name) ==> Tidy(r.store))
      && r.panel == Panel(BATCH_COMPLETE, if batchCount > 0 then 1.0 else 0.0, false, |r.store.records|)
      && |r.progressTrace| == Iterations(batchCount)
      && |r.statusTrace| == Iterations(batchCount)
    ensures Valid(store) ==> Valid(r.store)
    ensures TrimmedLabels(store) ==> TrimmedLabels(r.store)
    ensures forall i :: 0 <= i < |r.progressTrace| ==>
      && r.progressTrace[i] == Progress(i + 1, batchCount)
      && 0.0 < r.progressTrace[i] <= 1.0
      && r.statusTrace[i] == CapturingStatus(i + 1, Iterations(batchCount))
  {
    if Trim(name) == [] {
      return BatchRun(store, panel, Some(NEED_NAME), [], []);
    }
    var p := Panel(BATCH_STARTED, 0.0, true, panel.samplesSaved);
    var s, progress, statuses;
    var inp := Inputs(Camera(feed, hypot), now);
    s, p, progress, statuses := BatchLoop(name, batchCount, store, p, inp);
    if Tidy(store) && name == Trim(name) {
      TidyBatched(name, store, inp, Iterations(batchCount));
    }
    if Valid(store) {
      BatchedValid(name, store, inp, Iterations(batchCount));
    }
    if TrimmedLabels(store) {
      BatchedTrimmedLabels(name, store, inp, Iterations(batchCount));
    }
    if batchCount > 0 {
      ProgressTraceAt(batchCount, batchCount);
      StatusTraceAt(batchCount, batchCount);
      DivSelf(batchCount as real);
    }
    var all := GetAll(s);
    p := Panel(BATCH_COMPLETE, p.progress, false, |all|);
    r := BatchRun(s, p, None, progress, statuses);
  }

  /** The timer 600 ms after a batch: status back to idle, progress back to 0. */
  function AfterBatchDelay(p: Panel): (q: Panel)
    ensures q.status == IDLE && q.progress == 0.0
    ensures q.collecting == p.collecting && q.samplesSaved == p.samplesSaved
  {
    p.(status := IDLE, progress := 0.0)
  }

  /** For a label already trimmed, with c samples of it stored, the batch
      names its k samples `<name>_<c+1>.json` .. `<name>_<c+k>.json` and the
      label's count rises by k. */
  lemma TrimmedBatchNumbersOnward(name: string, s0: Store, inp: Inputs, k: nat, s: Store)
    requires s == Batched(name, s0, inp, k)
    requires name == Trim(name)
    ensures Count(s, name) == Count(s0, name) + k
    ensures forall n :: |s0.records| <= n < |s.records| ==>
      && s.records[n].sample.gesture == name
      && s.records[n].sample.filename == SampleFilename(name, Count(s0, name) + (n - |s0.records|) + 1)
  {
    BatchedCount(name, s0, inp, k);
    BatchedShape(name, s0, inp, k);
  }

  /** For a label already trimmed, no two samples of one batch share a filename. */
  lemma TrimmedBatchFilenamesDistinct(name: string, s0: Store, inp: Inputs, k: nat, s: Store)
    requires s == Batched(name, s0, inp, k)
    requires name == Trim(name)
    ensures forall m, n :: |s0.records| <= m < n < |s.records| ==>
      s.records[m].sample.filename != s.records[n].sample.filename
  {
    var c0 := Count(s0, name);
    TrimmedBatchNumbersOnward(name, s0, inp, k, s);
    forall m, n | |s0.records| <= m < n < |s.records|
      ensures s.records[m].sample.filename != s.records[n].sample.filename
    {
      SampleFilenameDistinct(name, c0 + (m - |s0.records|) + 1, name, c0 + (n - |s0.records|) + 1);
    }
  }

  /** For a label with surrounding whitespace, the count never sees the
      batch's own samples (they are stored trimmed), so every sample of the
      batch gets the same ordinal, one past the untrimmed label's count. */
  lemma UntrimmedBatchRepeatsOrdinal(name: string, s0: Store, inp: Inputs, k: nat, s: Store)
    requires s == Batched(name, s0, inp, k)
    requires name != Trim(name)
    ensures Count(s, name) == Count(s0, name)
    ensures forall n :: |s0.records| <= n < |s.records| ==>
      && s.records[n].sample.gesture == Trim(name)
      && s.records[n].sample.filename == SampleFilename(name, Count(s0, name) + 1)
  {
    BatchedCount(name, s0, inp, k);
    BatchedShape(name, s0, inp, k);
  }

  /** On any store of trimmed labels, a label with surrounding whitespace counts
      zero, so every sample of its batch is named with ordinal 1. */
  lemma UntrimmedOrdinalIsOne(name: string, s0: Store, inp: Inputs, k: nat, s: Store)
    requires s == Batched(name, s0, inp, k)
    requires TrimmedLabels(s0)
    requires name != Trim(name)
    ensures forall n :: |s0.records| <= n < |s.records| ==>
      s.records[n].sample.filename == SampleFilename(name, 1)
  {
    CountZeroIff(s0, name);
    UntrimmedBatchRepeatsOrdinal(name, s0, inp, k, s);
  }

  /** A concrete case: two captures for " fist" on an empty store are both
      named " fist_1.json", though both are stored under the label "fist". */
  lemma UntrimmedNameCollides(inp: Inputs, s: Store)
    requires s == Batched(" fist", EmptyStore(), inp, 2)
    ensures |s.records| == 2
    ensures s.records[0].sample.gesture == "fist" && s.records[1].sample.gesture == "fist"
    ensures s.records[0].sample.filename == " fist_1.json"
    ensures s.records[1].sample.filename == " fist_1.json"
  {
    FistTrim();
    FistFirstFilename();
    UntrimmedBatchRepeatsOrdinal(" fist", EmptyStore(), inp, 2, s);
  }

  /** The label `" fist"` trims to `"fist"`. */
  lemma FistTrim()
    ensures Trim(" fist") == "fist" != " fist"
  {
    assert TrimStart(" fist") == TrimStart("fist") == "fist";
    assert TrimEnd("fist") == "fist";
  }

  /** On an empty store `" fist"` counts zero, so its next filename is `" fist_1.json"`. */
  lemma FistFirstFilename()
    ensures Count(EmptyStore(), " fist") == 0
    ensures SampleFilename(" fist", Count(EmptyStore(), " fist") + 1) == " fist_1.json"
  {
    assert NatToString(1) == "1";
  }

  /** `rec` is named after its own label, with ordinal one past the number
      of `earlier` records carrying that label. */
  ghost predicate NamedAfter(earlier: seq<Record>, rec: Record)
  {
    rec.sample.filename
      == SampleFilename(rec.sample.gesture, |Matching(earlier, rec.sample.gesture)| + 1)
  }

  /** Every record is named after its label and the count of that label
      before it: the naming a store gets when every batch uses a trimmed label. */
  ghost predicate TidyRecords(recs: seq<Record>)
  {
    recs == [] || (TidyRecords(recs[..|recs| - 1]) && NamedAfter(recs[..|recs| - 1], recs[|recs| - 1]))
  }

  ghost predicate Tidy(s: Store)
  {
    TidyRecords(s.records)
  }

  /** In a tidy sequence, each record is named after the records before it. */
  lemma {:induction false} TidyNamedAfter(recs: seq<Record>)
    requires TidyRecords(recs)
    ensures forall i :: 0 <= i < |recs| ==> NamedAfter(recs[..i], recs[i])
  {
    if recs != [] {
      var init := recs[..|recs| - 1];
      TidyNamedAfter(init);
      forall i | 0 <= i < |init|
        ensures NamedAfter(recs[..i], recs[i])
      {
        assert init[..i] == recs[..i] && init[i] == recs[i];
      }
    }
  }

  /** Adding a sample named by its own label's count keeps a store tidy. */
  lemma TidyAfterAdd(s: Store, sample: Sample)
    requires Tidy(s)
    requires sample.filename == SampleFilename(sample.gesture, Count(s, sample.gesture) + 1)
    ensures Tidy(Add(s, sample).store)
  {
    var t := Add(s, sample).store;
    assert t.records[..|s.records|] == s.records;
  }

  /** A record carrying label `a` makes the count of `a` before any later
      position larger than the count before it. */
  lemma MatchingPrefixGrows(recs: seq<Record>, i: nat, j: nat, a: string)
    requires i < j <= |recs|
    requires recs[i].sample.gesture == a
    ensures |Matching(recs[..i], a)| < |Matching(recs[..j], a)|
  {
    assert recs[..j] == recs[..i] + [recs[i]] + recs[i + 1..j];
    MatchingAppend(recs[..i] + [recs[i]], recs[i + 1..j], a);
    MatchingAppend(recs[..i], [recs[i]], a);
  }

  /** In a tidy store no two records share a filename. */
  lemma TidyFilenamesDistinct(s: Store)
    requires Tidy(s)
    ensures forall i, j :: 0 <= i < j < |s.records| ==>
      s.records[i].sample.filename != s.records[j].sample.filename
  {
    var recs := s.records;
    TidyNamedAfter(recs);
    forall i, j | 0 <= i < j < |recs|
      ensures recs[i].sample.filename != recs[j].sample.filename
    {
      var a := recs[i].sample.gesture;
      var b := recs[j].sample.gesture;
      assert NamedAfter(recs[..i], recs[i]) && NamedAfter(recs[..j], recs[j]);
      if a == b {
        MatchingPrefixGrows(recs, i, j, a);
      }
      SampleFilenameDistinct(a, |Matching(recs[..i], a)| + 1, b, |Matching(recs[..j], b)| + 1);
    }
  }

  /** What `clearAll` leaves: the store and the panel. */
  datatype Cleared = Cleared(store: Store, panel: Panel)

  /** `clearAll`: only if the user confirms, empty the store and zero the counter. */
  function ClearAll(s: Store, p: Panel, confirmed: bool): (c: Cleared)
    ensures !confirmed ==> c.store == s && c.panel == p
    ensures confirmed ==> GetAll(c.store) == [] && Tidy(c.store)
    ensures confirmed ==> c.panel.samplesSaved == 0 && c.panel.status == DATABASE_CLEARED
    ensures confirmed ==> c.panel.progress == p.progress && c.panel.collecting == p.collecting
    ensures Valid(s) ==> Valid(c.store)
    ensures confirmed || TrimmedLabels(s) ==> TrimmedLabels(c.store)
  {
    if !confirmed then Cleared(s, p)
    else Cleared(Clear(s), p.(samplesSaved := 0, status := DATABASE_CLEARED))
  }

  /** The timer 800 ms after clearing: status back to idle. */
  function AfterClearDelay(p: Panel): (q: Panel)
    ensures q.status == IDLE
    ensures q.progress == p.progress && q.collecting == p.collecting && q.samplesSaved == p.samplesSaved
  {
    p.(status := IDLE)
  }
}
