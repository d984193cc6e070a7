/** The batch indexer: two interleaved batch tasks over two stores, the in-memory id set
    and the manifest file that lets a later indexer skip what is done. */
module BatchIndexing {
  import opened Sequences

  type Vector = seq<real>

  datatype Passage = Passage(id: string, text: string, title: string)

  datatype Doc = Doc(text: string, title: string)

  datatype Point = Point(vector: Vector, text: string, title: string)

  /** What outlives an indexer: both stores and the manifest file, if it exists. */
  datatype World = World(es: map<string, Doc>, qdrant: map<string, Point>, manifest: Option<set<string>>)

  function IndexAll(es: map<string, Doc>, ps: seq<Passage>): map<string, Doc> {
    if ps == [] then es
    else
      var p := ps[|ps| - 1];
      IndexAll(es, ps[..|ps| - 1])[p.id := Doc(p.text, p.title)]
  }

  function UpsertAll(encode: string -> Vector, qdrant: map<string, Point>, ps: seq<Passage>): map<string, Point> {
    if ps == [] then qdrant
    else
      var p := ps[|ps| - 1];
      UpsertAll(encode, qdrant, ps[..|ps| - 1])[p.id := Point(encode(p.text), p.text, p.title)]
  }

  function Ids(ps: seq<Passage>): set<string> { set p | p in ps :: p.id }

  /** The passages whose id is not known yet, in corpus order. */
  function NewPassages(ps: seq<Passage>, known: set<string>): seq<Passage> {
    if ps == [] then []
    else
      var n := |ps| - 1;
      NewPassages(ps[..n], known) + (if ps[n].id !in known then [ps[n]] else [])
  }

  /** The positions of a batch that a failing store call wrote before it raised. */
  type Partial = set<nat>

  /** One batch step of a task with its failing attempts. A store call is retried: it
      succeeds when fewer than five attempts fail. Encoding is not retried. */
  datatype Step = Bm25(failures: seq<Partial>) | Dense(encodes: bool, failures: seq<Partial>)

  function Part(batch: seq<Passage>, written: Partial): seq<Passage> {
    if batch == [] then []
    else
      var n := |batch| - 1;
      Part(batch[..n], written) + (if n in written then [batch[n]] else [])
  }

  /** Everything the failing attempts wrote, in order. */
  function Leftover(batch: seq<Passage>, failures: seq<Partial>): seq<Passage> {
    if failures == [] then []
    else Leftover(batch, failures[..|failures| - 1]) + Part(batch, failures[|failures| - 1])
  }

  const MAX_ATTEMPTS := 5

  datatype Tasks = Tasks(
    es: map<string, Doc>,
    qdrant: map<string, Point>,
    ids: set<string>,
    bm25At: nat, bm25Failed: bool,
    denseAt: nat, denseFailed: bool)

  datatype Job = Job(passages: seq<Passage>, bm25: bool, dense: bool, batchSize: nat, encode: string -> Vector)

  function NextBatch(job: Job, at: nat): seq<Passage>
    requires at <= |job.passages|
  {
    job.passages[at..PrefixLength(|job.passages|, at + job.batchSize)]
  }

  predicate InRange(job: Job, t: Tasks) { t.bm25At <= |job.passages| && t.denseAt <= |job.passages| }

  function Advance(job: Job, t: Tasks, step: Step): (t': Tasks)
    requires InRange(job, t)
    ensures InRange(job, t')
  {
    match step
    case Bm25(failures) =>
      if !job.bm25 || t.bm25Failed || t.bm25At == |job.passages| then t
      else
        var batch := NextBatch(job, t.bm25At);
        if |failures| >= MAX_ATTEMPTS then
          t.(es := IndexAll(t.es, Leftover(batch, Prefix(failures, MAX_ATTEMPTS))), bm25Failed := true)
        else t.(es := IndexAll(t.es, batch), ids := t.ids + Ids(batch), bm25At := t.bm25At + |batch|)
    case Dense(encodes, failures) =>
      if !job.dense || t.denseFailed || t.denseAt == |job.passages| then t
      else if !encodes then t.(denseFailed := true)
      else
        var batch := NextBatch(job, t.denseAt);
        if |failures| >= MAX_ATTEMPTS then
          t.(qdrant := UpsertAll(job.encode, t.qdrant, Leftover(batch, Prefix(failures, MAX_ATTEMPTS))),
             denseFailed := true)
        else t.(qdrant := UpsertAll(job.encode, t.qdrant, batch), denseAt := t.denseAt + |batch|)
  }

  /** Any interleaving of the two tasks. Steps after a failure belong to the other task,
      which asyncio.gather leaves running. */
  function RunTasks(job: Job, t: Tasks, schedule: seq<Step>): (t': Tasks)
    requires InRange(job, t)
    ensures InRange(job, t')
  {
    if schedule == [] then t
    else Advance(job, RunTasks(job, t, schedule[..|schedule| - 1]), schedule[|schedule| - 1])
  }

  predicate Complete(job: Job, t: Tasks) {
    (job.bm25 ==> t.bm25At == |job.passages|) && (job.dense ==> t.denseAt == |job.passages|)
  }

  function Known(w: World): set<string> {
    if w.manifest.Some? then w.manifest.value else {}
  }

  function Begin(w: World, ids: set<string>): Tasks {
    Tasks(w.es, w.qdrant, ids, 0, false, 0, false)
  }

  function JobFor(encode: string -> Vector, batchSize: nat, corpus: seq<Passage>, bm25: bool, dense: bool,
                  known: set<string>): Job
  {
    Job(NewPassages(corpus, known), bm25, dense, batchSize, encode)
  }

  /** index_corpus: the world afterwards and whether it returned normally. The manifest is
      only written when both tasks are through. */
  function Outcome(w: World, ids: set<string>, job: Job, schedule: seq<Step>): (World, set<string>, bool) {
    if job.passages == [] then (w, ids, true)
    else
      var t := RunTasks(job, Begin(w, ids), schedule);
      if Complete(job, t) then (World(t.es, t.qdrant, Some(t.ids)), t.ids, true)
      else (World(t.es, t.qdrant, w.manifest), t.ids, false)
  }

  // ---------------------------------------------------------------------------
  // The indexer
  // ---------------------------------------------------------------------------

  class Backends {
    var es: map<string, Doc>
    var qdrant: map<string, Point>
    var manifest: Option<set<string>>

    constructor (w: World)
      ensures Value() == w
    {
      es, qdrant, manifest := w.es, w.qdrant, w.manifest;
    }

    function Value(): World
      reads this
    {
      World(es, qdrant, manifest)
    }
  }

  class BatchIndexer {
    const backends: Backends
    const encode: string -> Vector
    const batchSize: nat
    var indexedIds: set<string>

    /** A fresh indexer knows what the manifest says. */
    constructor (backends: Backends, encode: string -> Vector, batchSize: nat)
      ensures this.backends == backends && this.encode == encode && this.batchSize == batchSize
      ensures indexedIds == Known(backends.Value())
    {
      this.backends, this.encode, this.batchSize := backends, encode, batchSize;
      indexedIds := if backends.manifest.Some? then backends.manifest.value else {};
    }

    /** The retry decorator around one Elasticsearch call. What failing attempts wrote is
        overwritten by the one that succeeds, and stays when none does. */
    method IndexBm25Batch(batch: seq<Passage>, failures: seq<Partial>) returns (ok: bool)
      modifies backends`es
      ensures ok == (|failures| < MAX_ATTEMPTS)
      ensures backends.es == if ok then IndexAll(old(backends.es), batch)
                             else IndexAll(old(backends.es), Leftover(batch, Prefix(failures, MAX_ATTEMPTS)))
    {
      hide IndexAll, Part;
      ghost var before := backends.es;
      var attempt := 1;
      IndexNothing(before);
      while attempt <= MAX_ATTEMPTS
        invariant 1 <= attempt <= MAX_ATTEMPTS + 1 && |failures| >= attempt - 1
        invariant backends.es == IndexAll(before, Leftover(batch, failures[..attempt - 1]))
      {
        if attempt > |failures| {
          LeftoverIds(batch, failures[..attempt - 1]);
          OverwrittenByBm25(before, Leftover(batch, failures[..attempt - 1]), batch);
          assert failures[..|failures|] == failures;
          backends.es := IndexAll(backends.es, batch);
          return true;
        }
        OneMoreFailure(batch, failures, attempt - 1);
        IndexAllConcat(before, Leftover(batch, failures[..attempt - 1]), Part(batch, failures[attempt - 1]));
        backends.es := IndexAll(backends.es, Part(batch, failures[attempt - 1]));
        attempt := attempt + 1;
      }
      return false;
    }

    method UpsertQdrantBatch(batch: seq<Passage>, failures: seq<Partial>) returns (ok: bool)
      modifies backends`qdrant
      ensures ok == (|failures| < MAX_ATTEMPTS)
      ensures backends.qdrant == if ok then UpsertAll(encode, old(backends.qdrant), batch)
                                 else UpsertAll(encode, old(backends.qdrant), Leftover(batch, Prefix(failures, MAX_ATTEMPTS)))
    {
      hide UpsertAll, Part;
      ghost var before := backends.qdrant;
      var attempt := 1;
      UpsertNothing(encode, before);
      while attempt <= MAX_ATTEMPTS
        invariant 1 <= attempt <= MAX_ATTEMPTS + 1 && |failures| >= attempt - 1
        invariant backends.qdrant == UpsertAll(encode, before, Leftover(batch, failures[..attempt - 1]))
      {
        if attempt > |failures| {
          LeftoverIds(batch, failures[..attempt - 1]);
          OverwrittenByDense(encode, before, Leftover(batch, failures[..attempt - 1]), batch);
          assert failures[..|failures|] == failures;
          backends.qdrant := UpsertAll(encode, backends.qdrant, batch);
          return true;
        }
        OneMoreFailure(batch, failures, attempt - 1);
        UpsertAllConcat(encode, before, Leftover(batch, failures[..attempt - 1]), Part(batch, failures[attempt - 1]));
        backends.qdrant := UpsertAll(encode, backends.qdrant, Part(batch, failures[attempt - 1]));
        attempt := attempt + 1;
      }
      return false;
    }

    /** One turn of the batch loop of the BM25 task. */
    method Bm25Turn(passages: seq<Passage>, at: nat, failures: seq<Partial>) returns (ok: bool, next: nat)
      requires at < |passages|
      modifies this`indexedIds, backends`es
      ensures ok == (|failures| < MAX_ATTEMPTS)
      ensures var to := PrefixLength(|passages|, at + batchSize);
              && next == (if ok then to else at) && at <= to
              && backends.es == IndexAll(old(backends.es), if ok then passages[at..to]
                                         else Leftover(passages[at..to], Prefix(failures, MAX_ATTEMPTS)))
      ensures indexedIds == if ok then old(indexedIds) + Ids(passages[at..next]) else old(indexedIds)
    {
      hide IndexAll, Leftover;
      var batch := passages[at..PrefixLength(|passages|, at + batchSize)];
      next := at;
      ok := IndexBm25Batch(batch, failures);
      if ok {
        next := at + |batch|;
        indexedIds := indexedIds + Ids(batch);
      }
    }

    /** One turn of the batch loop of the dense task. */
    method DenseTurn(passages: seq<Passage>, at: nat, encodes: bool, failures: seq<Partial>)
      returns (ok: bool, next: nat)
      requires at < |passages|
      modifies backends`qdrant
      ensures ok == (encodes && |failures| < MAX_ATTEMPTS)
      ensures var to := PrefixLength(|passages|, at + batchSize);
              && next == (if ok then to else at) && at <= to
              && backends.qdrant == if !encodes then old(backends.qdrant)
                                    else UpsertAll(encode, old(backends.qdrant), if ok then passages[at..to]
                                                   else Leftover(passages[at..to], Prefix(failures, MAX_ATTEMPTS)))
    {
      hide UpsertAll, Leftover;
      next := at;
      if !encodes {
        return false, at;
      }
      var batch := passages[at..PrefixLength(|passages|, at + batchSize)];
      ok := UpsertQdrantBatch(batch, failures);
      if ok {
        next := at + |batch|;
      }
    }

    /** The two tasks, interleaved as scheduled, each until it is through or raises. */
    method Gather(passages: seq<Passage>, indexBm25: bool, indexDense: bool, schedule: seq<Step>)
      returns (ok: bool)
      modifies this`indexedIds, backends`es, backends`qdrant
      ensures var job := Job(passages, indexBm25, indexDense, batchSize, encode);
              var t := RunTasks(job, Begin(old(backends.Value()), old(indexedIds)), schedule);
              backends.es == t.es && backends.qdrant == t.qdrant && indexedIds == t.ids && ok == Complete(job, t)
    {
      hide IndexAll, UpsertAll, Ids, RunTasks, Leftover;
      ghost var job := Job(passages, indexBm25, indexDense, batchSize, encode);
      ghost var begin := Begin(backends.Value(), indexedIds);
      var bm25At: nat, denseAt: nat := 0, 0;
      var bm25Failed, denseFailed := false, false;
      RunNothing(job, begin);
      for i := 0 to |schedule|
        invariant bm25At <= |passages| && denseAt <= |passages|
        invariant RunTasks(job, begin, schedule[..i])
                  == Tasks(backends.es, backends.qdrant, indexedIds, bm25At, bm25Failed, denseAt, denseFailed)
      {
        RunOneMore(job, begin, schedule, i);
        match schedule[i]
        case Bm25(failures) =>
          if indexBm25 && !bm25Failed && bm25At < |passages| {
            var done, next := Bm25Turn(passages, bm25At, failures);
            bm25At, bm25Failed := next, !done;
          }
        case Dense(encodes, failures) =>
          if indexDense && !denseFailed && denseAt < |passages| {
            var done, next := DenseTurn(passages, denseAt, encodes, failures);
            denseAt, denseFailed := next, !done;
          }
      }
      assert schedule[..|schedule|] == schedule;
      ok := (indexBm25 ==> bm25At == |passages|) && (indexDense ==> denseAt == |passages|);
    }

    /** Indexes what is not known yet and writes the manifest when both tasks are through;
        otherwise it raises (ok is false). */
    method IndexCorpus(corpus: seq<Passage>, indexBm25: bool, indexDense: bool, schedule: seq<Step>)
      returns (ok: bool)
      modifies this`indexedIds, backends
      ensures (backends.Value(), indexedIds, ok)
              == Outcome(old(backends.Value()), old(indexedIds),
                         JobFor(encode, batchSize, corpus, indexBm25, indexDense, old(indexedIds)), schedule)
    {
      hide RunTasks, NewPassages;
      var passages := NewPassages(corpus, indexedIds);
      if passages == [] {
        return true;
      }
      ok := Gather(passages, indexBm25, indexDense, schedule);
      if ok {
        backends.manifest := Some(indexedIds);
      }
    }
  }

  // ---------------------------------------------------------------------------
  // Interleavings
  // ---------------------------------------------------------------------------

  lemma {:induction false} IndexAllConcat(es: map<string, Doc>, ps: seq<Passage>, qs: seq<Passage>)
    ensures IndexAll(es, ps + qs) == IndexAll(IndexAll(es, ps), qs)
  {
    if qs == [] {
      assert ps + qs == ps;
    } else {
      assert (ps + qs)[..|ps + qs| - 1] == ps + qs[..|qs| - 1];
      IndexAllConcat(es, ps, qs[..|qs| - 1]);
    }
  }

  lemma {:induction false} UpsertAllConcat(encode: string -> Vector, qdrant: map<string, Point>, ps: seq<Passage>,
                                           qs: seq<Passage>)
    ensures UpsertAll(encode, qdrant, ps + qs) == UpsertAll(encode, UpsertAll(encode, qdrant, ps), qs)
  {
    if qs == [] {
      assert ps + qs == ps;
    } else {
      assert (ps + qs)[..|ps + qs| - 1] == ps + qs[..|qs| - 1];
      UpsertAllConcat(encode, qdrant, ps, qs[..|qs| - 1]);
    }
  }

  lemma IndexNothing(es: map<string, Doc>)
    ensures IndexAll(es, []) == es
  {
  }

  lemma UpsertNothing(encode: string -> Vector, qdrant: map<string, Point>)
    ensures UpsertAll(encode, qdrant, []) == qdrant
  {
  }

  lemma OneMoreFailure(batch: seq<Passage>, failures: seq<Partial>, n: nat)
    requires n < |failures|
    ensures Leftover(batch, failures[..n + 1]) == Leftover(batch, failures[..n]) + Part(batch, failures[n])
  {
    assert failures[..n + 1][..n] == failures[..n];
  }

  lemma {:induction false} PartIds(batch: seq<Passage>, written: Partial)
    ensures Ids(Part(batch, written)) <= Ids(batch)
  {
    if batch == [] {
      assert Part(batch, written) == batch;
    } else {
      hide Ids;
      var n := |batch| - 1;
      PartIds(batch[..n], written);
      assert batch == batch[..n] + [batch[n]];
      IdsSnoc(batch[..n], batch[n]);
      IdsSnoc(Part(batch[..n], written), batch[n]);
      assert Part(batch[..n], written) + [] == Part(batch[..n], written);
    }
  }

  lemma {:induction false} LeftoverIds(batch: seq<Passage>, failures: seq<Partial>)
    ensures Ids(Leftover(batch, failures)) <= Ids(batch)
  {
    if failures == [] {
      assert Ids([]) == {};
    } else {
      var n := |failures| - 1;
      LeftoverIds(batch, failures[..n]);
      PartIds(batch, failures[n]);
      IdsConcat(Leftover(batch, failures[..n]), Part(batch, failures[n]));
    }
  }

  lemma IdsConcat(ps: seq<Passage>, qs: seq<Passage>)
    ensures Ids(ps + qs) == Ids(ps) + Ids(qs)
  {
    assert forall p :: p in ps + qs <==> p in ps || p in qs;
  }

  /** The BM25 store at position `at`: the upserts of that prefix, and after a failure also
      some of the passages beyond it. */
  ghost predicate Bm25At(job: Job, begin: Tasks, es: map<string, Doc>, at: nat, failed: bool)
    requires at <= |job.passages|
  {
    exists extra: seq<Passage> ::
      (!failed ==> extra == []) && Ids(extra) <= Ids(job.passages) && es == IndexAll(begin.es, job.passages[..at] + extra)
  }

  ghost predicate DenseAt(job: Job, begin: Tasks, qdrant: map<string, Point>, at: nat, failed: bool)
    requires at <= |job.passages|
  {
    exists extra: seq<Passage> ::
      (!failed ==> extra == []) && Ids(extra) <= Ids(job.passages)
      && qdrant == UpsertAll(job.encode, begin.qdrant, job.passages[..at] + extra)
  }

  /** Where the tasks stand: each store holds the upserts of its own prefix of the passages
      and what a failed batch left behind, and the known ids are those of the BM25 prefix. A
      task fails before its end. */
  ghost predicate AtPrefixes(job: Job, begin: Tasks, t: Tasks) {
    && InRange(job, t)
    && Bm25At(job, begin, t.es, t.bm25At, t.bm25Failed)
    && DenseAt(job, begin, t.qdrant, t.denseAt, t.denseFailed)
    && t.ids == begin.ids + Ids(job.passages[..t.bm25At])
    && (t.bm25Failed ==> t.bm25At < |job.passages|) && (t.denseFailed ==> t.denseAt < |job.passages|)
    && (!job.bm25 ==> t.bm25At == 0 && !t.bm25Failed) && (!job.dense ==> t.denseAt == 0 && !t.denseFailed)
  }

  lemma RunNothing(job: Job, t: Tasks)
    requires InRange(job, t)
    ensures RunTasks(job, t, []) == t
  {
  }

  lemma RunOneMore(job: Job, t: Tasks, schedule: seq<Step>, i: nat)
    requires InRange(job, t) && i < |schedule|
    ensures RunTasks(job, t, schedule[..i + 1]) == Advance(job, RunTasks(job, t, schedule[..i]), schedule[i])
  {
    assert schedule[..i + 1][..i] == schedule[..i];
  }

  lemma Bm25StepExtends(ps: seq<Passage>, es: map<string, Doc>, at: nat, size: nat)
    requires at <= |ps|
    ensures var to := PrefixLength(|ps|, at + size);
            at <= to
            && IndexAll(IndexAll(es, ps[..at]), ps[at..to]) == IndexAll(es, ps[..to])
            && Ids(ps[..at]) + Ids(ps[at..to]) == Ids(ps[..to])
  {
    hide IndexAll;
    var to := PrefixLength(|ps|, at + size);
    assert ps[..at] + ps[at..to] == ps[..to];
    IndexAllConcat(es, ps[..at], ps[at..to]);
  }

  lemma DenseStepExtends(encode: string -> Vector, ps: seq<Passage>, qdrant: map<string, Point>, at: nat, size: nat)
    requires at <= |ps|
    ensures var to := PrefixLength(|ps|, at + size);
            at <= to && UpsertAll(encode, UpsertAll(encode, qdrant, ps[..at]), ps[at..to]) == UpsertAll(encode, qdrant, ps[..to])
  {
    hide UpsertAll;
    var to := PrefixLength(|ps|, at + size);
    assert ps[..at] + ps[at..to] == ps[..to];
    UpsertAllConcat(encode, qdrant, ps[..at], ps[at..to]);
  }

  lemma BatchIds(job: Job, at: nat)
    requires at <= |job.passages|
    ensures Ids(NextBatch(job, at)) <= Ids(job.passages)
  {
    assert forall p :: p in NextBatch(job, at) ==> p in job.passages;
  }

  lemma Bm25AtNext(job: Job, begin: Tasks, t: Tasks, failures: seq<Partial>)
    requires AtPrefixes(job, begin, t) && job.bm25 && !t.bm25Failed && t.bm25At < |job.passages|
    ensures var t' := Advance(job, t, Bm25(failures)); Bm25At(job, begin, t'.es, t'.bm25At, t'.bm25Failed)
  {
    hide IndexAll, UpsertAll, Ids, DenseAt;
    var batch, done := NextBatch(job, t.bm25At), job.passages[..t.bm25At];
    assert done + [] == done;
    assert t.es == IndexAll(begin.es, done);
    if |failures| >= MAX_ATTEMPTS {
      var extra := Leftover(batch, Prefix(failures, MAX_ATTEMPTS));
      LeftoverIds(batch, Prefix(failures, MAX_ATTEMPTS));
      BatchIds(job, t.bm25At);
      IndexAllConcat(begin.es, done, extra);
      assert IndexAll(t.es, extra) == IndexAll(begin.es, done + extra);
    } else {
      Bm25StepExtends(job.passages, begin.es, t.bm25At, job.batchSize);
      var next := job.passages[..t.bm25At + |batch|];
      NoIds();
      assert next + [] == next;
    }
  }

  lemma DenseAtNext(job: Job, begin: Tasks, t: Tasks, encodes: bool, failures: seq<Partial>)
    requires AtPrefixes(job, begin, t) && job.dense && !t.denseFailed && t.denseAt < |job.passages|
    ensures var t' := Advance(job, t, Dense(encodes, failures)); DenseAt(job, begin, t'.qdrant, t'.denseAt, t'.denseFailed)
  {
    hide IndexAll, UpsertAll, Ids, Bm25At;
    var batch, done := NextBatch(job, t.denseAt), job.passages[..t.denseAt];
    assert done + [] == done;
    assert t.qdrant == UpsertAll(job.encode, begin.qdrant, done);
    NoIds();
    if encodes && |failures| >= MAX_ATTEMPTS {
      var extra := Leftover(batch, Prefix(failures, MAX_ATTEMPTS));
      LeftoverIds(batch, Prefix(failures, MAX_ATTEMPTS));
      BatchIds(job, t.denseAt);
      UpsertAllConcat(job.encode, begin.qdrant, done, extra);
      assert UpsertAll(job.encode, t.qdrant, extra) == UpsertAll(job.encode, begin.qdrant, done + extra);
    } else if encodes {
      DenseStepExtends(job.encode, job.passages, begin.qdrant, t.denseAt, job.batchSize);
      var next := job.passages[..t.denseAt + |batch|];
      assert next + [] == next;
    }
  }

  lemma NoIds()
    ensures Ids([]) == {}
  {
  }

  lemma Bm25IdsNext(job: Job, begin: Tasks, t: Tasks)
    requires AtPrefixes(job, begin, t)
    ensures var batch := NextBatch(job, t.bm25At);
            t.ids + Ids(batch) == begin.ids + Ids(job.passages[..t.bm25At + |batch|])
  {
    hide IndexAll, Ids, Bm25At, DenseAt;
    Bm25StepExtends(job.passages, begin.es, t.bm25At, job.batchSize);
  }

  lemma Bm25StepKeepsPrefixes(job: Job, begin: Tasks, t: Tasks, failures: seq<Partial>)
    requires AtPrefixes(job, begin, t)
    ensures AtPrefixes(job, begin, Advance(job, t, Bm25(failures)))
  {
    hide IndexAll, UpsertAll, Ids, DenseAt, Bm25At, Leftover;
    if job.bm25 && !t.bm25Failed && t.bm25At < |job.passages| {
      Bm25AtNext(job, begin, t, failures);
      Bm25IdsNext(job, begin, t);
    }
  }

  lemma DenseStepKeepsPrefixes(job: Job, begin: Tasks, t: Tasks, encodes: bool, failures: seq<Partial>)
    requires AtPrefixes(job, begin, t)
    ensures AtPrefixes(job, begin, Advance(job, t, Dense(encodes, failures)))
  {
    hide IndexAll, UpsertAll, Ids, DenseAt, Bm25At, Leftover;
    if job.dense && !t.denseFailed && t.denseAt < |job.passages| {
      DenseAtNext(job, begin, t, encodes, failures);
    }
  }

  lemma StepKeepsPrefixes(job: Job, begin: Tasks, t: Tasks, step: Step)
    requires AtPrefixes(job, begin, t)
    ensures AtPrefixes(job, begin, Advance(job, t, step))
  {
    match step
    case Bm25(failures) => Bm25StepKeepsPrefixes(job, begin, t, failures);
    case Dense(encodes, failures) => DenseStepKeepsPrefixes(job, begin, t, encodes, failures);
  }

  lemma BeginAtPrefixes(job: Job, w: World, ids: set<string>)
    ensures AtPrefixes(job, Begin(w, ids), Begin(w, ids))
  {
    NoIds();
    assert job.passages[..0] + [] == [];
    IndexNothing(w.es);
    UpsertNothing(job.encode, w.qdrant);
  }

  lemma {:induction false} TasksKeepPrefixes(job: Job, w: World, ids: set<string>, schedule: seq<Step>)
    ensures AtPrefixes(job, Begin(w, ids), RunTasks(job, Begin(w, ids), schedule))
  {
    hide AtPrefixes, Advance;
    if schedule != [] {
      var n := |schedule| - 1;
      TasksKeepPrefixes(job, w, ids, schedule[..n]);
      StepKeepsPrefixes(job, Begin(w, ids), RunTasks(job, Begin(w, ids), schedule[..n]), schedule[n]);
    } else {
      BeginAtPrefixes(job, w, ids);
    }
  }

  /** What a completed task has written. */
  lemma ThroughMeansAll(job: Job, begin: Tasks, t: Tasks)
    requires AtPrefixes(job, begin, t)
    ensures t.bm25At == |job.passages| ==> t.es == IndexAll(begin.es, job.passages)
    ensures t.denseAt == |job.passages| ==> t.qdrant == UpsertAll(job.encode, begin.qdrant, job.passages)
    ensures !job.bm25 ==> t.es == begin.es
    ensures !job.dense ==> t.qdrant == begin.qdrant
  {
    hide IndexAll, UpsertAll, Ids;
    var ps := job.passages;
    assert ps[..|ps|] + [] == ps && ps[..0] + [] == [];
    IndexNothing(begin.es);
    UpsertNothing(job.encode, begin.qdrant);
  }

  lemma {:induction false} IndexedIds(es: map<string, Doc>, ps: seq<Passage>)
    ensures IndexAll(es, ps).Keys == es.Keys + Ids(ps)
  {
    if ps != [] {
      IndexedIds(es, ps[..|ps| - 1]);
      assert ps == ps[..|ps| - 1] + [ps[|ps| - 1]];
    }
  }

  lemma {:induction false} UpsertedIds(encode: string -> Vector, qdrant: map<string, Point>, ps: seq<Passage>)
    ensures UpsertAll(encode, qdrant, ps).Keys == qdrant.Keys + Ids(ps)
  {
    if ps != [] {
      UpsertedIds(encode, qdrant, ps[..|ps| - 1]);
      assert ps == ps[..|ps| - 1] + [ps[|ps| - 1]];
    }
  }

  /** Under every interleaving and at every moment, ids taken for indexed are in the BM25
      store, and so are the ids of the manifest a run leaves behind. */
  lemma KnownIdsAreIndexed(w: World, ids: set<string>, job: Job, schedule: seq<Step>)
    requires ids <= w.es.Keys && Known(w) <= w.es.Keys
    ensures RunTasks(job, Begin(w, ids), schedule).ids <= RunTasks(job, Begin(w, ids), schedule).es.Keys
    ensures var (w', ids', ok) := Outcome(w, ids, job, schedule);
            ids' <= w'.es.Keys && Known(w') <= w'.es.Keys
  {
    TasksKeepPrefixes(job, w, ids, schedule);
    hide RunTasks, IndexAll, Ids;
    var t := RunTasks(job, Begin(w, ids), schedule);
    var done := job.passages[..t.bm25At];
    var extra: seq<Passage> :| t.es == IndexAll(w.es, done + extra);
    IndexedIds(w.es, done + extra);
    IdsConcat(done, extra);
  }

  // ---------------------------------------------------------------------------
  // Recovery
  // ---------------------------------------------------------------------------

  /** Upserts override: the stores after ps are the old ones overridden by what ps alone
      writes. */
  lemma {:induction false} IndexAllOverrides(es: map<string, Doc>, ps: seq<Passage>)
    ensures IndexAll(es, ps) == es + IndexAll(map[], ps)
  {
    if ps != [] { IndexAllOverrides(es, ps[..|ps| - 1]); }
  }

  lemma {:induction false} UpsertAllOverrides(encode: string -> Vector, qdrant: map<string, Point>, ps: seq<Passage>)
    ensures UpsertAll(encode, qdrant, ps) == qdrant + UpsertAll(encode, map[], ps)
  {
    if ps != [] { UpsertAllOverrides(encode, qdrant, ps[..|ps| - 1]); }
  }

  /** Two worlds that a full pass over ps makes equal. */
  ghost predicate SameAfter(encode: string -> Vector, w: World, v: World, ps: seq<Passage>) {
    && IndexAll(w.es, ps) == IndexAll(v.es, ps)
    && UpsertAll(encode, w.qdrant, ps) == UpsertAll(encode, v.qdrant, ps)
    && w.manifest == v.manifest
  }

  lemma OverrideTwice<K, V>(m: map<K, V>, a: map<K, V>, b: map<K, V>)
    requires a.Keys <= b.Keys
    ensures (m + a) + b == m + b
  {
  }

  /** A pass over ps forgets any earlier upserts of its ids. */
  lemma OverwrittenByBm25(es: map<string, Doc>, some: seq<Passage>, ps: seq<Passage>)
    requires Ids(some) <= Ids(ps)
    ensures IndexAll(IndexAll(es, some), ps) == IndexAll(es, ps)
  {
    hide IndexAll, Ids;
    IndexAllOverrides(es, ps);
    IndexAllOverrides(es, some);
    IndexAllOverrides(IndexAll(es, some), ps);
    IndexedIds(map[], ps);
    IndexedIds(map[], some);
    OverrideTwice(es, IndexAll(map[], some), IndexAll(map[], ps));
  }

  lemma OverwrittenByDense(encode: string -> Vector, qdrant: map<string, Point>, some: seq<Passage>, ps: seq<Passage>)
    requires Ids(some) <= Ids(ps)
    ensures UpsertAll(encode, UpsertAll(encode, qdrant, some), ps) == UpsertAll(encode, qdrant, ps)
  {
    hide UpsertAll, Ids;
    UpsertAllOverrides(encode, qdrant, ps);
    UpsertAllOverrides(encode, qdrant, some);
    UpsertAllOverrides(encode, UpsertAll(encode, qdrant, some), ps);
    UpsertedIds(encode, map[], ps);
    UpsertedIds(encode, map[], some);
    OverrideTwice(qdrant, UpsertAll(encode, map[], some), UpsertAll(encode, map[], ps));
  }

  lemma PrefixIds(ps: seq<Passage>, a: nat)
    requires a <= |ps|
    ensures Ids(ps[..a]) <= Ids(ps)
  {
    assert forall p :: p in ps[..a] ==> p in ps;
  }

  /** One run by a fresh indexer over both backends. */
  datatype Attempt = Attempt(batchSize: nat, schedule: seq<Step>)

  function After(encode: string -> Vector, w: World, corpus: seq<Passage>, a: Attempt): (World, bool) {
    var job := JobFor(encode, a.batchSize, corpus, true, true, Known(w));
    var out := Outcome(w, Known(w), job, a.schedule);
    (out.0, out.2)
  }

  /** The result of one clean pass over everything the manifest does not list. */
  function CleanResult(encode: string -> Vector, w: World, corpus: seq<Passage>): World {
    var ps := NewPassages(corpus, Known(w));
    if ps == [] then w
    else World(IndexAll(w.es, ps), UpsertAll(encode, w.qdrant, ps), Some(Known(w) + Ids(ps)))
  }

  /** A run that returns normally has the clean result whatever its batch size, schedule
      and retries; a failed one changes nothing that a full pass would not redo. */
  lemma RunResult(encode: string -> Vector, w: World, corpus: seq<Passage>, a: Attempt)
    ensures var (w', ok) := After(encode, w, corpus, a);
            if ok then w' == CleanResult(encode, w, corpus)
            else SameAfter(encode, w', w, NewPassages(corpus, Known(w)))
  {
    var job := JobFor(encode, a.batchSize, corpus, true, true, Known(w));
    TasksKeepPrefixes(job, w, Known(w), a.schedule);
    hide RunTasks, IndexAll, UpsertAll, Ids, NewPassages;
    var t := RunTasks(job, Begin(w, Known(w)), a.schedule);
    ThroughMeansAll(job, Begin(w, Known(w)), t);
    PartialRunIsOverwritten(job, Begin(w, Known(w)), t);
    assert job.passages[..|job.passages|] == job.passages;
  }

  /** However far the tasks got, a full pass afterwards hides it. */
  lemma PartialRunIsOverwritten(job: Job, begin: Tasks, t: Tasks)
    requires AtPrefixes(job, begin, t)
    ensures IndexAll(t.es, job.passages) == IndexAll(begin.es, job.passages)
    ensures UpsertAll(job.encode, t.qdrant, job.passages) == UpsertAll(job.encode, begin.qdrant, job.passages)
  {
    hide IndexAll, UpsertAll, Ids;
    var ps := job.passages;
    var e: seq<Passage> :| Ids(e) <= Ids(ps) && t.es == IndexAll(begin.es, ps[..t.bm25At] + e);
    IdsConcat(ps[..t.bm25At], e);
    PrefixIds(ps, t.bm25At);
    OverwrittenByBm25(begin.es, ps[..t.bm25At] + e, ps);
    var f: seq<Passage> :| Ids(f) <= Ids(ps) && t.qdrant == UpsertAll(job.encode, begin.qdrant, ps[..t.denseAt] + f);
    IdsConcat(ps[..t.denseAt], f);
    PrefixIds(ps, t.denseAt);
    OverwrittenByDense(job.encode, begin.qdrant, ps[..t.denseAt] + f, ps);
  }

  lemma {:induction false} NoneNew(ps: seq<Passage>, known: set<string>)
    ensures NewPassages(ps, known) == [] <==> forall p :: p in ps ==> p.id in known
  {
    if ps != [] {
      NoneNew(ps[..|ps| - 1], known);
      assert ps == ps[..|ps| - 1] + [ps[|ps| - 1]];
    }
  }

  lemma IdsSnoc(ps: seq<Passage>, p: Passage)
    ensures Ids(ps + [p]) == Ids(ps) + {p.id}
  {
    assert forall q :: q in ps + [p] <==> q in ps || q == p;
  }

  lemma {:induction false} NewIds(ps: seq<Passage>, known: set<string>)
    ensures Ids(NewPassages(ps, known)) == Ids(ps) - known
  {
    if ps == [] {
      assert Ids([]) == {};
    } else {
      hide Ids;
      var n := |ps| - 1;
      NewIds(ps[..n], known);
      assert ps == ps[..n] + [ps[n]];
      IdsSnoc(ps[..n], ps[n]);
      IdsSnoc(NewPassages(ps[..n], known), ps[n]);
      assert NewPassages(ps[..n], known) + [] == NewPassages(ps[..n], known);
    }
  }

  /** Passage i is the last one of the corpus with this id. */
  ghost predicate LastOf(ps: seq<Passage>, i: nat, id: string) {
    i < |ps| && ps[i].id == id && forall j :: i < j < |ps| ==> ps[j].id != id
  }

  /** The store has this value under the id. */
  ghost predicate Holds<V>(store: map<string, V>, id: string, value: V) {
    id in store && store[id] == value
  }

  ghost predicate SameAt<V>(m: map<string, V>, m': map<string, V>, id: string) {
    (id in m <==> id in m') && (id in m ==> m[id] == m'[id])
  }

  lemma {:induction false} OthersStay(encode: string -> Vector, es: map<string, Doc>, qdrant: map<string, Point>,
                                      ps: seq<Passage>, id: string)
    requires id !in Ids(ps)
    ensures SameAt(IndexAll(es, ps), es, id) && SameAt(UpsertAll(encode, qdrant, ps), qdrant, id)
  {
    if ps != [] {
      var n := |ps| - 1;
      assert ps == ps[..n] + [ps[n]];
      IdsSnoc(ps[..n], ps[n]);
      OthersStay(encode, es, qdrant, ps[..n], id);
    }
  }

  lemma {:induction false} LastNewPassageHolds(encode: string -> Vector, es: map<string, Doc>,
                                               qdrant: map<string, Point>, ps: seq<Passage>, known: set<string>, i: nat)
    requires i < |ps| && LastOf(ps, i, ps[i].id) && ps[i].id !in known
    ensures Holds(IndexAll(es, NewPassages(ps, known)), ps[i].id, Doc(ps[i].text, ps[i].title))
    ensures Holds(UpsertAll(encode, qdrant, NewPassages(ps, known)), ps[i].id,
                  Point(encode(ps[i].text), ps[i].text, ps[i].title))
  {
    var n := |ps| - 1;
    var before := NewPassages(ps[..n], known);
    assert (before + [ps[n]])[..|before|] == before && before + [] == before;
    if i < n {
      LastNewPassageHolds(encode, es, qdrant, ps[..n], known, i);
    }
  }

  /** What a clean run is worth: every new id is in both stores with the text, title and
      vector of its last passage, the manifest lists all ids, and nothing else changed. */
  lemma CleanResultHolds(encode: string -> Vector, w: World, corpus: seq<Passage>, id: string)
    ensures var w' := CleanResult(encode, w, corpus);
            && (id in Known(w') <==> id in Known(w) || id in Ids(corpus))
            && (id in Known(w) || id !in Ids(corpus) ==> SameAt(w'.es, w.es, id) && SameAt(w'.qdrant, w.qdrant, id))
            && (forall i: nat :: LastOf(corpus, i, id) && id !in Known(w) ==>
                  && Holds(w'.es, id, Doc(corpus[i].text, corpus[i].title))
                  && Holds(w'.qdrant, id, Point(encode(corpus[i].text), corpus[i].text, corpus[i].title)))
  {
    var ps := NewPassages(corpus, Known(w));
    NewIds(corpus, Known(w));
    assert Ids([]) == {};
    hide IndexAll, UpsertAll, Ids, NewPassages;
    if id in Known(w) || id !in Ids(corpus) {
      OthersStay(encode, w.es, w.qdrant, ps, id);
    }
    forall i: nat | LastOf(corpus, i, id) && id !in Known(w)
      ensures Holds(IndexAll(w.es, ps), id, Doc(corpus[i].text, corpus[i].title))
      ensures Holds(UpsertAll(encode, w.qdrant, ps), id, Point(encode(corpus[i].text), corpus[i].text, corpus[i].title))
    {
      LastNewPassageHolds(encode, w.es, w.qdrant, corpus, Known(w), i);
    }
    if id !in Known(w) && id in Ids(corpus) { assert id in Ids(ps); }
  }

  /** After a clean result nothing is new any more. */
  lemma CleanIsFinal(encode: string -> Vector, w: World, corpus: seq<Passage>)
    ensures var w' := CleanResult(encode, w, corpus);
            NewPassages(corpus, Known(w')) == [] && CleanResult(encode, w', corpus) == w'
  {
    var ps := NewPassages(corpus, Known(w));
    NewIds(corpus, Known(w));
    NoneNew(corpus, Known(w));
    var w' := CleanResult(encode, w, corpus);
    forall p | p in corpus ensures p.id in Known(w') { assert p.id in Ids(corpus); }
    NoneNew(corpus, Known(w'));
  }

  function AfterAll(encode: string -> Vector, w: World, corpus: seq<Passage>, attempts: seq<Attempt>): World {
    if attempts == [] then w
    else After(encode, AfterAll(encode, w, corpus, attempts[..|attempts| - 1]), corpus, attempts[|attempts| - 1]).0
  }

  /** Some run of the list returned normally. */
  ghost predicate SomeSucceeds(encode: string -> Vector, w: World, corpus: seq<Passage>, attempts: seq<Attempt>) {
    exists i :: 0 <= i < |attempts| && After(encode, AfterAll(encode, w, corpus, attempts[..i]), corpus, attempts[i]).1
  }

  /** Resumable indexing: any number of runs over a corpus by fresh indexers, failed in any
      way or not, with any batch sizes and interleavings, ends in the stores and manifest
      of one clean run as soon as one of them succeeded; later runs change nothing. */
  lemma {:induction false} RecoveryEqualsCleanRun(encode: string -> Vector, w: World, corpus: seq<Passage>,
                                                  attempts: seq<Attempt>)
    ensures var v := AfterAll(encode, w, corpus, attempts);
            if SomeSucceeds(encode, w, corpus, attempts) then v == CleanResult(encode, w, corpus)
            else SameAfter(encode, v, w, NewPassages(corpus, Known(w)))
  {
    if attempts != [] {
      hide After, CleanResult, SameAfter;
      var n := |attempts| - 1;
      RecoveryEqualsCleanRun(encode, w, corpus, attempts[..n]);
      var v := AfterAll(encode, w, corpus, attempts[..n]);
      RunResult(encode, v, corpus, attempts[n]);
      SucceedsSnoc(encode, w, corpus, attempts);
      if SomeSucceeds(encode, w, corpus, attempts[..n]) {
        CleanIsFinal(encode, w, corpus);
        NoOp(encode, v, corpus, attempts[n]);
      } else {
        SameAfterChain(encode, After(encode, v, corpus, attempts[n]).0, v, w, corpus);
      }
    } else {
      assert SameAfter(encode, w, w, NewPassages(corpus, Known(w)));
    }
  }

  lemma SucceedsSnoc(encode: string -> Vector, w: World, corpus: seq<Passage>, attempts: seq<Attempt>)
    requires attempts != []
    ensures var n := |attempts| - 1;
            SomeSucceeds(encode, w, corpus, attempts)
            <==> SomeSucceeds(encode, w, corpus, attempts[..n])
                 || After(encode, AfterAll(encode, w, corpus, attempts[..n]), corpus, attempts[n]).1
  {
    hide After, AfterAll;
    var n := |attempts| - 1;
    forall i | 0 <= i < n ensures attempts[..n][..i] == attempts[..i] {}
  }

  lemma NoOp(encode: string -> Vector, w: World, corpus: seq<Passage>, a: Attempt)
    requires NewPassages(corpus, Known(w)) == []
    ensures After(encode, w, corpus, a) == (w, true)
  {
  }

  /** From a world a full pass cannot tell from w, a run does what it does from w. */
  lemma SameAfterChain(encode: string -> Vector, u: World, v: World, w: World, corpus: seq<Passage>)
    requires SameAfter(encode, v, w, NewPassages(corpus, Known(w)))
    ensures CleanResult(encode, v, corpus) == CleanResult(encode, w, corpus) || NewPassages(corpus, Known(w)) == []
    ensures NewPassages(corpus, Known(w)) == [] ==> v == w
    ensures SameAfter(encode, u, v, NewPassages(corpus, Known(v))) ==> SameAfter(encode, u, w, NewPassages(corpus, Known(w)))
  {
  }

  // ---------------------------------------------------------------------------
  // What the manifest does not record
  // ---------------------------------------------------------------------------

  /** The manifest records BM25 work only: a successful run over the dense store leaves
      every corpus id in it exactly when the ids skipped by the manifest already were. */
  lemma DenseCoverageExactly(encode: string -> Vector, w: World, corpus: seq<Passage>, bm25: bool, batchSize: nat,
                             schedule: seq<Step>)
    requires var job := JobFor(encode, batchSize, corpus, bm25, true, Known(w));
             Outcome(w, Known(w), job, schedule).2
    ensures var job := JobFor(encode, batchSize, corpus, bm25, true, Known(w));
            var w' := Outcome(w, Known(w), job, schedule).0;
            (forall p :: p in corpus ==> p.id in w'.qdrant)
            <==> (forall p :: p in corpus && p.id in Known(w) ==> p.id in w.qdrant)
  {
    var job := JobFor(encode, batchSize, corpus, bm25, true, Known(w));
    var w' := Outcome(w, Known(w), job, schedule).0;
    TasksKeepPrefixes(job, w, Known(w), schedule);
    ThroughMeansAll(job, Begin(w, Known(w)), RunTasks(job, Begin(w, Known(w)), schedule));
    UpsertedIds(encode, w.qdrant, job.passages);
    NewIds(corpus, Known(w));
    NoneNew(corpus, Known(w));
    assert w'.qdrant.Keys == w.qdrant.Keys + (Ids(corpus) - Known(w));
    forall p | p in corpus ensures p.id in Ids(corpus) {}
  }

  /** A BM25-only run therefore hides its passages from every later dense run. */
  lemma Bm25OnlyRunBlocksDense(encode: string -> Vector, w: World, corpus: seq<Passage>, batchSize: nat,
                               schedule: seq<Step>, later: nat, laterSchedule: seq<Step>)
    requires var job := JobFor(encode, batchSize, corpus, true, false, Known(w));
             Outcome(w, Known(w), job, schedule).2
    ensures var w1 := Outcome(w, Known(w), JobFor(encode, batchSize, corpus, true, false, Known(w)), schedule).0;
            var w2 := Outcome(w1, Known(w1), JobFor(encode, later, corpus, true, true, Known(w1)), laterSchedule).0;
            w2.qdrant == w.qdrant
  {
    hide RunTasks, IndexAll, UpsertAll, NewPassages;
    var job := JobFor(encode, batchSize, corpus, true, false, Known(w));
    TasksKeepPrefixes(job, w, Known(w), schedule);
    ThroughMeansAll(job, Begin(w, Known(w)), RunTasks(job, Begin(w, Known(w)), schedule));
    assert job.passages[..|job.passages|] == job.passages;
    var w1 := Outcome(w, Known(w), job, schedule).0;
    NewIds(corpus, Known(w));
    NoneNew(corpus, Known(w));
    forall p | p in corpus ensures p.id in Known(w1) { assert p.id in Ids(corpus); }
    NoneNew(corpus, Known(w1));
  }
}
