/** When a run of the batch indexer succeeds and what it then leaves, in terms of the
    corpus, the batch size and the turns its two tasks get. */
module IndexingSuccess {
  import opened Sequences
  import opened BatchIndexing

  // ---------------------------------------------------------------------------
  // Turns
  // ---------------------------------------------------------------------------

  /** One turn of a task: whether its batch is encoded (always, for BM25) and how many
      attempts at its store call fail. */
  datatype Turn = Turn(encodes: bool, failures: nat)

  function Bm25Turns(schedule: seq<Step>): seq<Turn> {
    if schedule == [] then []
    else
      var n := |schedule| - 1;
      Bm25Turns(schedule[..n]) + (if schedule[n].Bm25? then [Turn(true, |schedule[n].failures|)] else [])
  }

  function DenseTurns(schedule: seq<Step>): seq<Turn> {
    if schedule == [] then []
    else
      var n := |schedule| - 1;
      DenseTurns(schedule[..n])
      + (if schedule[n].Dense? then [Turn(schedule[n].encodes, |schedule[n].failures|)] else [])
  }

  /** Number of batches of n passages. */
  function BatchCount(n: nat, size: nat): nat
    requires size > 0
  {
    (n + size - 1) / size
  }

  /** The task gets a turn for every batch, and each of these encodes and succeeds within
      five attempts. */
  ghost predicate TurnsSuffice(turns: seq<Turn>, batches: nat) {
    |turns| >= batches && forall i :: 0 <= i < batches ==> turns[i].encodes && turns[i].failures < 5
  }

  /** Number of leading turns that succeed. */
  function Streak(turns: seq<Turn>): (g: nat)
    ensures g <= |turns|
    ensures forall i :: 0 <= i < g ==> turns[i].encodes && turns[i].failures < 5
    ensures g < |turns| ==> !(turns[g].encodes && turns[g].failures < 5)
  {
    if turns == [] || !(turns[0].encodes && turns[0].failures < 5) then 0 else 1 + Streak(turns[1..])
  }

  lemma StreakSnoc(turns: seq<Turn>, t: Turn)
    ensures Streak(turns + [t])
            == if Streak(turns) < |turns| then Streak(turns)
               else if t.encodes && t.failures < 5 then |turns| + 1 else |turns|
  {
    var g, all := Streak(turns), turns + [t];
    var h := Streak(all);
    assert forall i :: 0 <= i < |turns| ==> all[i] == turns[i];
    if g == |turns| { assert all[|turns|] == t; }
  }

  /** Where a task stands after g good turns. */
  function Reached(n: nat, size: nat, g: nat): nat {
    if g * size >= n then n else g * size
  }

  lemma ReachedNext(n: nat, size: nat, g: nat)
    requires g * size < n
    ensures Reached(n, size, g) == g * size
    ensures Reached(n, size, g + 1) == PrefixLength(n, g * size + size)
  {
    assert (g + 1) * size == g * size + size;
  }

  lemma ReachedStays(n: nat, size: nat, g: nat, h: nat)
    requires g <= h && g * size >= n
    ensures Reached(n, size, h) == n
  {
    assert h * size == g * size + (h - g) * size;
    assert (h - g) * size >= 0;
  }

  lemma Multiples(g: nat, c: nat, size: nat)
    requires g <= c
    ensures g * size <= c * size
    ensures g < c ==> g * size + size <= c * size
  {
    assert c * size == g * size + (c - g) * size;
    if g < c { assert (c - g) * size == size + (c - g - 1) * size; }
  }

  lemma CountTimesSize(n: nat, size: nat)
    requires size > 0
    ensures n <= BatchCount(n, size) * size < n + size
  {
    assert BatchCount(n, size) * size + (n + size - 1) % size == n + size - 1;
  }

  /** g batches hold n passages exactly when g is at least their number. */
  lemma EnoughBatches(n: nat, size: nat, g: nat)
    requires size > 0
    ensures g * size >= n <==> g >= BatchCount(n, size)
  {
    var c := BatchCount(n, size);
    hide BatchCount;
    CountTimesSize(n, size);
    if g >= c { Multiples(c, g, size); } else { Multiples(g, c, size); }
  }

  lemma StreakSuffices(turns: seq<Turn>, batches: nat)
    ensures Streak(turns) >= batches <==> TurnsSuffice(turns, batches)
  {
  }

  // ---------------------------------------------------------------------------
  // Progress of the tasks
  // ---------------------------------------------------------------------------

  /** A task stands behind its leading good turns, and has failed when a bad one came
      before it was through. */
  ghost predicate Stands(n: nat, size: nat, turns: seq<Turn>, at: nat, failed: bool) {
    && at == Reached(n, size, Streak(turns))
    && (failed <==> Streak(turns) < |turns| && Streak(turns) * size < n)
  }

  ghost predicate BothStand(job: Job, t: Tasks, schedule: seq<Step>) {
    var n := |job.passages|;
    && (job.bm25 ==> Stands(n, job.batchSize, Bm25Turns(schedule), t.bm25At, t.bm25Failed))
    && (job.dense ==> Stands(n, job.batchSize, DenseTurns(schedule), t.denseAt, t.denseFailed))
  }

  /** One more turn: a task that is through or failed stays, otherwise it moves on by one
      batch or fails. */
  lemma StandsNext(n: nat, size: nat, turns: seq<Turn>, at: nat, failed: bool, t: Turn)
    requires size > 0 && Stands(n, size, turns, at, failed)
    ensures var good := t.encodes && t.failures < 5;
            var idle := failed || at == n;
            at <= n
            && Stands(n, size, turns + [t], if idle || !good then at else PrefixLength(n, at + size),
                      if idle then failed else !good)
  {
    var g := Streak(turns);
    StreakSnoc(turns, t);
    var h := Streak(turns + [t]);
    hide Streak;
    if g * size >= n {
      ReachedStays(n, size, g, h);
      assert h * size >= n;
    } else {
      ReachedNext(n, size, g);
    }
  }

  lemma TurnsSnoc(schedule: seq<Step>)
    requires schedule != []
    ensures var n := |schedule| - 1; var last := schedule[n];
            && Bm25Turns(schedule) == (if last.Bm25? then Bm25Turns(schedule[..n]) + [Turn(true, |last.failures|)]
                                       else Bm25Turns(schedule[..n]))
            && DenseTurns(schedule)
               == (if last.Dense? then DenseTurns(schedule[..n]) + [Turn(last.encodes, |last.failures|)]
                   else DenseTurns(schedule[..n]))
  {
  }

  lemma AdvanceStands(job: Job, t: Tasks, schedule: seq<Step>)
    requires schedule != [] && job.batchSize > 0 && InRange(job, t) && BothStand(job, t, schedule[..|schedule| - 1])
    ensures BothStand(job, Advance(job, t, schedule[|schedule| - 1]), schedule)
  {
    hide Stands, Bm25Turns, DenseTurns, IndexAll, UpsertAll, Leftover, Ids;
    var n, last := |job.passages|, schedule[|schedule| - 1];
    var before := schedule[..|schedule| - 1];
    TurnsSnoc(schedule);
    match last
    case Bm25(failures) =>
      if job.bm25 {
        StandsNext(n, job.batchSize, Bm25Turns(before), t.bm25At, t.bm25Failed, Turn(true, |failures|));
      }
    case Dense(encodes, failures) =>
      if job.dense {
        StandsNext(n, job.batchSize, DenseTurns(before), t.denseAt, t.denseFailed, Turn(encodes, |failures|));
      }
  }

  lemma {:induction false} RunStands(job: Job, w: World, ids: set<string>, schedule: seq<Step>)
    requires job.batchSize > 0
    ensures BothStand(job, RunTasks(job, Begin(w, ids), schedule), schedule)
  {
    if schedule != [] {
      hide BothStand, Advance;
      var n := |schedule| - 1;
      RunStands(job, w, ids, schedule[..n]);
      AdvanceStands(job, RunTasks(job, Begin(w, ids), schedule[..n]), schedule);
    }
  }

  // ---------------------------------------------------------------------------
  // Success
  // ---------------------------------------------------------------------------

  /** A run over the new passages of a corpus returns normally exactly when each enabled
      task gets a turn for every batch and all of these succeed within five attempts, the
      dense ones after encoding. */
  lemma RunSucceedsExactly(encode: string -> Vector, w: World, ids: set<string>, corpus: seq<Passage>, bm25: bool,
                           dense: bool, batchSize: nat, schedule: seq<Step>)
    requires batchSize > 0
    ensures var batches := BatchCount(|NewPassages(corpus, ids)|, batchSize);
            Outcome(w, ids, JobFor(encode, batchSize, corpus, bm25, dense, ids), schedule).2
            <==> (bm25 ==> TurnsSuffice(Bm25Turns(schedule), batches))
                 && (dense ==> TurnsSuffice(DenseTurns(schedule), batches))
  {
    var job := JobFor(encode, batchSize, corpus, bm25, dense, ids);
    var n := |job.passages|;
    RunStands(job, w, ids, schedule);
    StreakSuffices(Bm25Turns(schedule), BatchCount(n, batchSize));
    StreakSuffices(DenseTurns(schedule), BatchCount(n, batchSize));
    EnoughBatches(n, batchSize, Streak(Bm25Turns(schedule)));
    EnoughBatches(n, batchSize, Streak(DenseTurns(schedule)));
    hide RunTasks, Streak, TurnsSuffice, Bm25Turns, DenseTurns, NewPassages;
    if n == 0 { EnoughBatches(0, batchSize, 0); }
  }

  /** What a successful run leaves for one id, whichever backends it covers: a new id has the
      text, title and vector of its last passage in every store covered, an id that was known
      or is not in the corpus keeps its entries, and BM25 runs alone make ids known. */
  lemma SuccessfulRunHolds(encode: string -> Vector, w: World, corpus: seq<Passage>, bm25: bool, dense: bool,
                           batchSize: nat, schedule: seq<Step>, id: string)
    requires Outcome(w, Known(w), JobFor(encode, batchSize, corpus, bm25, dense, Known(w)), schedule).2
    ensures var w' := Outcome(w, Known(w), JobFor(encode, batchSize, corpus, bm25, dense, Known(w)), schedule).0;
            && (id in Known(w') <==> id in Known(w) || (bm25 && id in Ids(corpus)))
            && (id in Known(w) || id !in Ids(corpus) ==> SameAt(w'.es, w.es, id) && SameAt(w'.qdrant, w.qdrant, id))
            && (!bm25 ==> w'.es == w.es) && (!dense ==> w'.qdrant == w.qdrant)
            && forall i: nat :: LastOf(corpus, i, id) && id !in Known(w) ==>
                 && (bm25 ==> Holds(w'.es, id, Doc(corpus[i].text, corpus[i].title)))
                 && (dense ==> Holds(w'.qdrant, id, Point(encode(corpus[i].text), corpus[i].text, corpus[i].title)))
  {
    var job := JobFor(encode, batchSize, corpus, bm25, dense, Known(w));
    var clean := CleanResult(encode, w, corpus);
    CleanResultHolds(encode, w, corpus, id);
    SuccessLeaves(encode, w, corpus, bm25, dense, batchSize, schedule);
    NewIds(corpus, Known(w));
    NoneNew(corpus, Known(w));
    hide RunTasks, IndexAll, UpsertAll, Ids, NewPassages, LastOf, Outcome;
  }

  /** In every store that it covers a successful run leaves the clean result. */
  lemma SuccessLeaves(encode: string -> Vector, w: World, corpus: seq<Passage>, bm25: bool, dense: bool,
                      batchSize: nat, schedule: seq<Step>)
    requires Outcome(w, Known(w), JobFor(encode, batchSize, corpus, bm25, dense, Known(w)), schedule).2
    ensures var w' := Outcome(w, Known(w), JobFor(encode, batchSize, corpus, bm25, dense, Known(w)), schedule).0;
            var clean := CleanResult(encode, w, corpus);
            && w'.es == (if bm25 then clean.es else w.es)
            && w'.qdrant == (if dense then clean.qdrant else w.qdrant)
            && Known(w') == (if bm25 then Known(clean) else Known(w))
  {
    var job := JobFor(encode, batchSize, corpus, bm25, dense, Known(w));
    TasksKeepPrefixes(job, w, Known(w), schedule);
    NoIds();
    hide RunTasks, IndexAll, UpsertAll, Ids, NewPassages, Bm25At, DenseAt;
    var t := RunTasks(job, Begin(w, Known(w)), schedule);
    ThroughMeansAll(job, Begin(w, Known(w)), t);
    assert job.passages[..|job.passages|] == job.passages && job.passages[..0] == [];
  }

  /** Without failing calls and with a turn for every batch, a run over both backends
      succeeds with the clean result. */
  lemma FaultlessRunSucceeds(encode: string -> Vector, w: World, corpus: seq<Passage>, batchSize: nat,
                             schedule: seq<Step>)
    requires batchSize > 0
    requires forall s :: s in schedule ==> s.failures == [] && (s.Dense? ==> s.encodes)
    requires var batches := BatchCount(|NewPassages(corpus, Known(w))|, batchSize);
             |Bm25Turns(schedule)| >= batches && |DenseTurns(schedule)| >= batches
    ensures After(encode, w, corpus, Attempt(batchSize, schedule)) == (CleanResult(encode, w, corpus), true)
  {
    hide Outcome, CleanResult, NewPassages, Bm25Turns, DenseTurns, SameAfter, BatchCount;
    FaultlessTurns(schedule);
    AllGood(Bm25Turns(schedule), BatchCount(|NewPassages(corpus, Known(w))|, batchSize));
    AllGood(DenseTurns(schedule), BatchCount(|NewPassages(corpus, Known(w))|, batchSize));
    hide TurnsSuffice;
    RunSucceedsExactly(encode, w, Known(w), corpus, true, true, batchSize, schedule);
    RunResult(encode, w, corpus, Attempt(batchSize, schedule));
  }

  lemma AllGood(turns: seq<Turn>, batches: nat)
    requires |turns| >= batches && forall t :: t in turns ==> t == Turn(true, 0)
    ensures TurnsSuffice(turns, batches)
  {
    assert forall i :: 0 <= i < batches ==> turns[i] in turns;
  }

  lemma {:induction false} FaultlessTurns(schedule: seq<Step>)
    requires forall s :: s in schedule ==> s.failures == [] && (s.Dense? ==> s.encodes)
    ensures forall t :: t in Bm25Turns(schedule) ==> t == Turn(true, 0)
    ensures forall t :: t in DenseTurns(schedule) ==> t == Turn(true, 0)
  {
    if schedule != [] {
      var n := |schedule| - 1;
      FaultlessTurns(schedule[..n]);
      assert schedule[n] in schedule;
    }
  }

  /** The default call on one passage: one turn of each task, and the passage is in both
      stores and in the manifest. */
  lemma OnePassageIsIndexed(encode: string -> Vector)
    ensures var w := World(map[], map[], None);
            After(encode, w, [Passage("a", "alpha", "")], Attempt(500, [Bm25([]), Dense(true, [])]))
            == (World(map["a" := Doc("alpha", "")], map["a" := Point(encode("alpha"), "alpha", "")], Some({"a"})), true)
  {
    var w, corpus, schedule := World(map[], map[], None), [Passage("a", "alpha", "")], [Bm25([]), Dense(true, [])];
    hide After, CleanResult, NewPassages, Bm25Turns, DenseTurns, BatchCount;
    OneTurnEach(schedule);
    OnePassageResult(encode);
    OneBatch(w, corpus);
    FaultlessRunSucceeds(encode, w, corpus, 500, schedule);
  }

  lemma OneBatch(w: World, corpus: seq<Passage>)
    requires |corpus| == 1 && w.manifest == None
    ensures BatchCount(|NewPassages(corpus, Known(w))|, 500) == 1
  {
    assert corpus[..0] == [];
    assert NewPassages(corpus, {}) == corpus;
  }

  lemma OneTurnEach(schedule: seq<Step>)
    requires schedule == [Bm25([]), Dense(true, [])]
    ensures |Bm25Turns(schedule)| == |DenseTurns(schedule)| == 1
  {
    assert schedule[..1] == [Bm25([])] && schedule[..1][..0] == [];
    assert Bm25Turns(schedule[..1]) == [Turn(true, 0)] && DenseTurns(schedule[..1]) == [];
  }

  lemma OnePassageResult(encode: string -> Vector)
    ensures CleanResult(encode, World(map[], map[], None), [Passage("a", "alpha", "")])
            == World(map["a" := Doc("alpha", "")], map["a" := Point(encode("alpha"), "alpha", "")], Some({"a"}))
  {
    var w, corpus := World(map[], map[], None), [Passage("a", "alpha", "")];
    OneNew(corpus);
    OneWritten(encode, corpus);
    hide NewPassages, IndexAll, UpsertAll, Ids;
    assert Known(w) + Ids(corpus) == {"a"};
  }

  lemma OneNew(corpus: seq<Passage>)
    requires |corpus| == 1
    ensures NewPassages(corpus, {}) == corpus && Ids(corpus) == {corpus[0].id}
  {
    assert corpus[..0] == [];
    assert NewPassages(corpus, {}) == NewPassages([], {}) + [corpus[0]];
  }

  lemma OneWritten(encode: string -> Vector, corpus: seq<Passage>)
    requires |corpus| == 1
    ensures IndexAll(map[], corpus) == map[corpus[0].id := Doc(corpus[0].text, corpus[0].title)]
    ensures UpsertAll(encode, map[], corpus)
            == map[corpus[0].id := Point(encode(corpus[0].text), corpus[0].text, corpus[0].title)]
  {
    assert corpus[..0] == [];
    assert IndexAll(map[], []) == map[] && UpsertAll(encode, map[], []) == map[];
  }
}
