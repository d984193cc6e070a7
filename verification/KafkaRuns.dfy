/** What every run of the indexing worker keeps, over any polls, faults, retries and
    restarts at a loop head. */
module KafkaRuns {
  import opened Sequences
  import opened KafkaWorker

  datatype Side = Es | Qdrant

  datatype Entry = InEs(doc: Doc) | InQdrant(point: Point)

  /** What a store holds for a passage id. */
  function Held(w: Worker, side: Side, x: string): Option<Entry> {
    match side
    case Es => if x in w.es then Some(InEs(w.es[x])) else None
    case Qdrant => if x in w.qdrant then Some(InQdrant(w.qdrant[x])) else None
  }

  /** Whether indexing message m writes id x on a side. */
  predicate Targets(m: Message, side: Side, x: string) {
    m.Passage? && m.id == Some(x) && m.text.Some? && (side.Qdrant? ==> Dense(m))
  }

  function Written(env: Env, m: Message, side: Side): Entry
    requires m.Passage? && m.text.Some? && (side.Qdrant? ==> Dense(m))
  {
    if side.Es? then InEs(Doc(m.text.value, m.title)) else InQdrant(PointOf(env, m))
  }

  ghost predicate Resolved(history: seq<Delivery>, r: Record) {
    exists i :: 0 <= i < |history| && history[i].record == r
  }

  // ---------------------------------------------------------------------------
  // One message
  // ---------------------------------------------------------------------------

  /** Everything but the stores and the counters. */
  ghost predicate SameBroker(w: Worker, w': Worker) {
    w'.position == w.position && w'.committed == w.committed
  }

  lemma AttemptEffect(env: Env, w: Worker, r: Record, side: Side, x: string)
    requires InLog(env, r)
    ensures var w', m := Attempt(env, w, r), MessageAt(env, r);
            && SameBroker(w, w') && w'.history == w.history && w'.deadLetters == w.deadLetters
            && w'.attempts == w.attempts + 1
            && (!Targets(m, side, x) ==> Held(w', side, x) == Held(w, side, x))
            && (Targets(m, side, x) ==>
                  Held(w', side, x) == Held(w, side, x) || Held(w', side, x) == Some(Written(env, m, side)))
            && (Targets(m, side, x) && AttemptSucceeds(env, w, r) ==>
                  Held(w', side, x) == Some(Written(env, m, side)))
  {
  }

  /** What one delivery did: it is recorded once, dead-lettered exactly when given up,
      and it writes its own id only, in full when it ended as indexed. */
  ghost predicate Delivered(env: Env, w: Worker, w': Worker, r: Record, o: Outcome, side: Side, x: string)
    requires InLog(env, r)
  {
    var m := MessageAt(env, r);
    && w'.position == w.position
    && w'.history == w.history + [Delivery(r, o)]
    && w'.deadLetters == w.deadLetters + (if o.GivenUp? then [r] else [])
    && (!Targets(m, side, x) ==> Held(w', side, x) == Held(w, side, x))
    && (Targets(m, side, x) ==>
          Held(w', side, x) == Held(w, side, x) || Held(w', side, x) == Some(Written(env, m, side)))
    && (Targets(m, side, x) && o.Indexed? ==> Held(w', side, x) == Some(Written(env, m, side)))
  }

  /** Whether one of the next n attempts at message m succeeds. */
  ghost predicate SomeAttemptSucceeds(env: Env, m: Message, from: nat, n: nat) {
    exists i :: from <= i < from + n && Succeeds(m, env.faults(i))
  }

  lemma {:induction false} RetryEffect(env: Env, w: Worker, r: Record, left: nat, side: Side, x: string)
    requires InLog(env, r)
    ensures var w' := Retry(env, w, r, left);
            var o := if SomeAttemptSucceeds(env, MessageAt(env, r), w.attempts, left) then Indexed else GivenUp;
            && Delivered(env, w, w', r, o, side, x)
            && SameBroker(w, w') && w'.attempts <= w.attempts + left
            && w'.processed == w.processed && w'.failed == w.failed && w'.commits == w.commits
    decreases left
  {
    if left > 0 {
      AttemptEffect(env, w, r, side, x);
      if AttemptSucceeds(env, w, r) {
        assert SomeAttemptSucceeds(env, MessageAt(env, r), w.attempts, left);
      } else {
        RetryEffect(env, Attempt(env, w, r), r, left - 1, side, x);
      }
    }
  }

  /** The first attempt at a record succeeds and so does its commit. */
  ghost predicate Straight(env: Env, w: Worker, r: Record)
    requires InLog(env, r)
  {
    Succeeds(MessageAt(env, r), env.faults(w.attempts)) && !env.commitFails(w.commits)
  }

  /** Why a message ends as it does: it is given up exactly when the first attempt or its
      commit failed and every allowed retry failed; only the first attempt commits, and
      then the whole poll position. At most 1 + max_retries attempts are made. */
  lemma HandleRecordEffect(env: Env, w: Worker, r: Record, side: Side, x: string)
    requires InLog(env, r)
    ensures var w', m := HandleRecord(env, w, r), MessageAt(env, r);
            var straight := Straight(env, w, r);
            var o := if straight || SomeAttemptSucceeds(env, m, w.attempts + 1, Retries(env))
                     then Indexed else GivenUp;
            && Delivered(env, w, w', r, o, side, x)
            && w'.committed == (if straight then w.position else w.committed)
            && w'.processed == w.processed + (if straight then 1 else 0)
            && w'.failed == w.failed + (if straight then 0 else 1)
            && w.attempts < w'.attempts <= w.attempts + 1 + Retries(env)
  {
    hide Attempt, Retry;
    AttemptEffect(env, w, r, side, x);
    AttemptCounters(env, w, r);
    var w1 := Attempt(env, w, r);
    if !AttemptSucceeds(env, w, r) {
      RetryEffect(env, w1.(failed := w1.failed + 1), r, Retries(env), side, x);
      RetryProgress(env, w1.(failed := w1.failed + 1), r, Retries(env));
    } else if env.commitFails(w1.commits) {
      RetryEffect(env, w1.(commits := w1.commits + 1, failed := w1.failed + 1), r, Retries(env), side, x);
      RetryProgress(env, w1.(commits := w1.commits + 1, failed := w1.failed + 1), r, Retries(env));
    }
  }

  lemma AttemptCounters(env: Env, w: Worker, r: Record)
    requires InLog(env, r)
    ensures var w' := Attempt(env, w, r);
            w'.commits == w.commits && w'.processed == w.processed && w'.failed == w.failed
  {
  }

  lemma {:induction false} RetryProgress(env: Env, w: Worker, r: Record, left: nat)
    requires InLog(env, r)
    ensures Retry(env, w, r, left).attempts >= w.attempts
    decreases left
  {
    if left > 0 { RetryProgress(env, Attempt(env, w, r), r, left - 1); }
  }

  // ---------------------------------------------------------------------------
  // The order of a batch
  // ---------------------------------------------------------------------------

  function CountTp(rs: seq<Record>, tp: nat): nat {
    if rs == [] then 0
    else CountTp(rs[..|rs| - 1], tp) + (if rs[|rs| - 1].tp == tp then 1 else 0)
  }

  /** Where each partition stands after the records rs. */
  function Frontier(position: seq<nat>, rs: seq<Record>): (f: seq<nat>)
    ensures |f| == |position|
  {
    seq(|position|, tp requires 0 <= tp < |position| => position[tp] + CountTp(rs, tp))
  }

  /** Every record is the next one of its partition. */
  ghost predicate InOrder(position: seq<nat>, rs: seq<Record>) {
    forall k :: 0 <= k < |rs| ==>
      rs[k].tp < |position| && rs[k].offset == position[rs[k].tp] + CountTp(rs[..k], rs[k].tp)
  }

  lemma {:induction false} CountConsecutive(rs: seq<Record>, tp: nat, from: nat, n: nat, other: nat)
    ensures CountTp(rs + Consecutive(tp, from, n), other)
            == CountTp(rs, other) + (if tp == other then n else 0)
  {
    if n == 0 {
      assert rs + Consecutive(tp, from, 0) == rs;
    } else {
      CountConsecutive(rs, tp, from, n - 1, other);
      var all := rs + Consecutive(tp, from, n);
      assert all[..|all| - 1] == rs + Consecutive(tp, from, n - 1);
    }
  }

  lemma InOrderAppend(position: seq<nat>, rs: seq<Record>, tp: nat, n: nat)
    requires InOrder(position, rs) && tp < |position| && CountTp(rs, tp) == 0
    ensures InOrder(position, rs + Consecutive(tp, position[tp], n))
  {
    var all := rs + Consecutive(tp, position[tp], n);
    forall k | 0 <= k < |all|
      ensures all[k].tp < |position| && all[k].offset == position[all[k].tp] + CountTp(all[..k], all[k].tp)
    {
      if k < |rs| {
        assert all[..k] == rs[..k];
      } else {
        assert all[..k] == rs + Consecutive(tp, position[tp], k - |rs|);
        CountConsecutive(rs, tp, position[tp], k - |rs|, tp);
      }
    }
  }

  ghost predicate Touches(pack: seq<Slice>, tp: nat) {
    exists i :: 0 <= i < |pack| && pack[i].tp == tp
  }

  lemma {:induction false} BatchCounts(env: Env, position: seq<nat>, pack: seq<Slice>, tp: nat)
    requires ValidPack(env, position, pack) && tp < |position|
    ensures Advance(position, pack)[tp] == position[tp] + CountTp(Batch(position, pack), tp)
    ensures !Touches(pack, tp) ==> CountTp(Batch(position, pack), tp) == 0
  {
    if pack != [] {
      var n := |pack| - 1;
      BatchCounts(env, position, pack[..n], tp);
      CountConsecutive(Batch(position, pack[..n]), pack[n].tp, position[pack[n].tp], pack[n].count, tp);
      if !Touches(pack, tp) {
        assert pack[n].tp != tp;
        assert forall i :: 0 <= i < n ==> pack[..n][i] == pack[i];
      } else if pack[n].tp == tp {
        assert forall i :: 0 <= i < n ==> pack[..n][i] == pack[i];
        assert !Touches(pack[..n], tp);
      }
    }
  }

  lemma AdvanceIsFrontier(env: Env, position: seq<nat>, pack: seq<Slice>)
    requires ValidPack(env, position, pack)
    ensures Advance(position, pack) == Frontier(position, Batch(position, pack))
  {
    hide Batch, Advance;
    forall tp | 0 <= tp < |position| ensures Advance(position, pack)[tp] == Frontier(position, Batch(position, pack))[tp] {
      BatchCounts(env, position, pack, tp);
    }
  }

  /** A poll returns the messages right behind the old position, in order, and leaves the
      new position right behind them. */
  lemma {:induction false} BatchInOrder(env: Env, position: seq<nat>, pack: seq<Slice>)
    requires ValidPack(env, position, pack)
    ensures InOrder(position, Batch(position, pack))
    ensures Advance(position, pack) == Frontier(position, Batch(position, pack))
  {
    AdvanceIsFrontier(env, position, pack);
    if pack != [] {
      hide InOrder, Frontier, CountTp;
      var n := |pack| - 1;
      var s := pack[n];
      BatchInOrder(env, position, pack[..n]);
      BatchCounts(env, position, pack[..n], s.tp);
      assert forall i :: 0 <= i < n ==> pack[..n][i] == pack[i];
      InOrderAppend(position, Batch(position, pack[..n]), s.tp, s.count);
    }
  }

  // ---------------------------------------------------------------------------
  // Safety over runs: offsets
  // ---------------------------------------------------------------------------

  ghost predicate ResolvedUpTo(w: Worker, frontier: seq<nat>) {
    forall tp, o :: 0 <= tp < |frontier| && 0 <= o < frontier[tp] ==> Resolved(w.history, Record(tp, o))
  }

  /** The worker during a batch: the records before the frontier are resolved, nothing
      beyond the poll position is committed. */
  ghost predicate Consistent(env: Env, w: Worker, frontier: seq<nat>) {
    && |w.position| == |w.committed| == |frontier| == |env.log|
    && (forall tp :: 0 <= tp < |env.log| ==> w.committed[tp] <= w.position[tp] <= |env.log[tp]|)
    && ResolvedUpTo(w, frontier)
    && (forall d :: d in w.history ==> InLog(env, d.record))
    && w.deadLetters == GivenUpRecords(w.history)
  }

  function GivenUpRecords(history: seq<Delivery>): seq<Record> {
    if history == [] then []
    else
      var d := history[|history| - 1];
      GivenUpRecords(history[..|history| - 1]) + (if d.outcome.GivenUp? then [d.record] else [])
  }

  lemma ResolvedGrows(history: seq<Delivery>, more: seq<Delivery>, r: Record)
    requires Resolved(history, r)
    ensures Resolved(history + more, r)
  {
    var i :| 0 <= i < |history| && history[i].record == r;
    assert (history + more)[i].record == r;
  }

  lemma FrontierNothing(from: seq<nat>)
    ensures Frontier(from, []) == from
  {
  }

  lemma FrontierStep(from: seq<nat>, rs: seq<Record>)
    requires rs != [] && InOrder(from, rs)
    ensures var n := |rs| - 1; var r, f := rs[n], Frontier(from, rs[..n]);
            && InOrder(from, rs[..n]) && r.tp < |from| && r.offset == f[r.tp]
            && Frontier(from, rs) == f[r.tp := r.offset + 1]
  {
    var n := |rs| - 1;
    forall k | 0 <= k < n ensures rs[..n][..k] == rs[..k] {}
  }

  lemma RecordKeepsConsistent(env: Env, w: Worker, frontier: seq<nat>, r: Record)
    requires InLog(env, r) && Consistent(env, w, frontier) && r.offset == frontier[r.tp]
    ensures var w' := HandleRecord(env, w, r);
            && Consistent(env, w', frontier[r.tp := r.offset + 1])
            && w'.position == w.position
            && (w'.committed == w.committed || w'.committed == w.position)
  {
    hide HandleRecord;
    HandleRecordEffect(env, w, r, Es, "");
    var w' := HandleRecord(env, w, r);
    var d := w'.history[|w.history|];
    assert w'.history == w.history + [d] && d.record == r;
    assert w'.history[..|w.history|] == w.history;
    var next := frontier[r.tp := r.offset + 1];
    forall tp, o | 0 <= tp < |next| && 0 <= o < next[tp] ensures Resolved(w'.history, Record(tp, o)) {
      if o < frontier[tp] {
        ResolvedGrows(w.history, [d], Record(tp, o));
      } else {
        assert w'.history[|w.history|].record == Record(tp, o);
      }
    }
  }

  lemma {:induction false} BatchKeepsConsistent(env: Env, w: Worker, from: seq<nat>, rs: seq<Record>)
    requires forall r :: r in rs ==> InLog(env, r)
    requires InOrder(from, rs) && Consistent(env, w, from)
    ensures Consistent(env, HandleAll(env, w, rs), Frontier(from, rs))
    ensures HandleAll(env, w, rs).position == w.position
    ensures HandleAll(env, w, rs).committed == w.committed || HandleAll(env, w, rs).committed == w.position
  {
    hide HandleAll, HandleRecord, Consistent, Frontier, InOrder;
    if rs == [] {
      FrontierNothing(from);
      HandleAllNothing(env, w);
    } else {
      var n := |rs| - 1;
      var before, last := rs[..n], rs[n];
      assert rs == before + [last];
      HandleAllSnoc(env, w, before, last);
      FrontierStep(from, rs);
      BatchKeepsConsistent(env, w, from, before);
      RecordKeepsConsistent(env, HandleAll(env, w, before), Frontier(from, before), last);
    }
  }

  /** At every loop head of every run, whatever fails and however often the worker
      restarts, every polled offset has been indexed or given up, and the committed
      offset is not ahead of the poll position: no committed message is unresolved. */
  lemma {:induction false} CommittedOffsetsAreResolved(env: Env, events: seq<Event>)
    requires ValidRun(env, Initial(env), events)
    ensures var w := Run(env, Initial(env), events);
            && Consistent(env, w, w.position)
            && ResolvedUpTo(w, w.committed)
    decreases |events|
  {
    if events != [] {
      hide HandleAll, Batch, Advance;
      var n := |events| - 1;
      CommittedOffsetsAreResolved(env, events[..n]);
      var w := Run(env, Initial(env), events[..n]);
      match events[n] {
        case Poll(pack) =>
          BatchInLog(env, w.position, pack);
          BatchInOrder(env, w.position, pack);
          PollKeepsConsistent(env, w, pack);
        case PollRaises =>
        case Restart =>
      }
    }
  }

  lemma PollKeepsConsistent(env: Env, w: Worker, pack: seq<Slice>)
    requires Consistent(env, w, w.position) && ValidPack(env, w.position, pack)
    ensures var w' := Step(env, w, Poll(pack)); Consistent(env, w', w'.position)
  {
    BatchInLog(env, w.position, pack);
    BatchInOrder(env, w.position, pack);
    PolledConsistent(env, w, pack);
    var polled := w.(position := Advance(w.position, pack));
    BatchKeepsConsistent(env, polled, w.position, Batch(w.position, pack));
  }

  lemma {:induction false} AdvanceInLog(env: Env, position: seq<nat>, pack: seq<Slice>, tp: nat)
    requires ValidPack(env, position, pack) && tp < |position| && position[tp] <= |env.log[tp]|
    ensures Advance(position, pack)[tp] <= |env.log[tp]|
  {
    if pack != [] { AdvanceInLog(env, position, pack[..|pack| - 1], tp); }
  }

  // ---------------------------------------------------------------------------
  // Committing in mid-batch
  // ---------------------------------------------------------------------------

  lemma {:induction false} BatchHistory(env: Env, w: Worker, rs: seq<Record>)
    requires forall r :: r in rs ==> InLog(env, r)
    ensures var h := HandleAll(env, w, rs).history;
            && |h| == |w.history| + |rs| && h[..|w.history|] == w.history
            && forall i :: 0 <= i < |rs| ==> h[|w.history| + i].record == rs[i]
  {
    if rs != [] {
      hide HandleAll, HandleRecord;
      var n := |rs| - 1;
      assert rs == rs[..n] + [rs[n]];
      HandleAllSnoc(env, w, rs[..n], rs[n]);
      BatchHistory(env, w, rs[..n]);
      HandleRecordEffect(env, HandleAll(env, w, rs[..n]), rs[n], Es, "");
    } else {
      HandleAllNothing(env, w);
    }
  }

  lemma {:induction false} CountGrows(rs: seq<Record>, i: nat, j: nat, tp: nat)
    requires i <= j <= |rs|
    ensures CountTp(rs[..i], tp) <= CountTp(rs[..j], tp)
    ensures i < j && rs[i].tp == tp ==> CountTp(rs[..i], tp) < CountTp(rs[..j], tp)
  {
    if i < j {
      CountGrows(rs, i, j - 1, tp);
      assert rs[..j][..j - 1] == rs[..j - 1];
    }
  }

  ghost predicate SomeStraight(env: Env, w: Worker, rs: seq<Record>, j: nat)
    requires (forall r :: r in rs ==> InLog(env, r)) && j <= |rs|
  {
    exists i :: 0 <= i < j && Straight(env, HandleAll(env, w, rs[..i]), rs[i])
  }

  /** A batch commits the poll position once some record goes straight through, and nothing
      otherwise. */
  lemma {:induction false} BatchCommits(env: Env, w: Worker, rs: seq<Record>, j: nat)
    requires (forall r :: r in rs ==> InLog(env, r)) && j <= |rs|
    ensures forall r :: r in rs[..j] ==> InLog(env, r)
    ensures var v := HandleAll(env, w, rs[..j]);
            v.position == w.position && v.committed == if SomeStraight(env, w, rs, j) then w.position else w.committed
  {
    hide HandleRecord, HandleAll, Straight;
    if j == 0 {
      HandleAllNothing(env, w);
    } else {
      var before := HandleAll(env, w, rs[..j - 1]);
      BatchCommits(env, w, rs, j - 1);
      assert rs[..j] == rs[..j - 1] + [rs[j - 1]];
      HandleAllSnoc(env, w, rs[..j - 1], rs[j - 1]);
      RecordCommits(env, before, rs[j - 1]);
    }
  }

  lemma RecordCommits(env: Env, w: Worker, r: Record)
    requires InLog(env, r)
    ensures HandleRecord(env, w, r).position == w.position
    ensures HandleRecord(env, w, r).committed == if Straight(env, w, r) then w.position else w.committed
  {
    hide HandleRecord;
    HandleRecordEffect(env, w, r, Es, "");
  }

  lemma {:induction false} FrontierCovered(position: seq<nat>, rs: seq<Record>, tp: nat, o: nat)
    requires InOrder(position, rs) && tp < |position| && position[tp] <= o < Frontier(position, rs)[tp]
    ensures Record(tp, o) in rs
    decreases |rs|
  {
    hide Frontier, InOrder;
    if rs == [] {
      FrontierNothing(position);
    } else {
      var n := |rs| - 1;
      var f := Frontier(position, rs[..n])[tp];
      FrontierMoves(position, rs, tp);
      if o < f {
        FrontierCovered(position, rs[..n], tp, o);
      } else {
        assert rs[n] == Record(tp, o);
      }
    }
  }

  /** Records from j on were all resolved before the poll, as after a restart that rewinds
      over them. */
  ghost predicate RestResolved(w: Worker, rs: seq<Record>, j: nat)
    requires j <= |rs|
  {
    forall m :: j <= m < |rs| ==> Resolved(w.history, rs[m])
  }

  /** After j records of a batch, all offsets up to the poll position are resolved exactly
      when the remaining ones were before. */
  lemma PolledResolvedExactly(env: Env, w: Worker, pack: seq<Slice>, j: nat)
    requires Consistent(env, w, w.position) && ValidPack(env, w.position, pack) && j <= |Batch(w.position, pack)|
    ensures forall r :: r in Batch(w.position, pack)[..j] ==> InLog(env, r)
    ensures var polled, rs := w.(position := Advance(w.position, pack)), Batch(w.position, pack);
            ResolvedUpTo(HandleAll(env, polled, rs[..j]), polled.position) <==> RestResolved(w, rs, j)
  {
    hide HandleAll, HandleRecord, Advance, Batch, Resolved, Frontier, InOrder;
    var rs := Batch(w.position, pack);
    BatchInLog(env, w.position, pack);
    BatchInOrder(env, w.position, pack);
    var polled := w.(position := Advance(w.position, pack));
    var v := HandleAll(env, polled, rs[..j]);
    BatchHistory(env, polled, rs[..j]);
    if RestResolved(w, rs, j) {
      forall tp, o | 0 <= tp < |polled.position| && 0 <= o < polled.position[tp]
        ensures Resolved(v.history, Record(tp, o))
      {
        if o < w.position[tp] {
          StaysResolved(w.history, v.history, Record(tp, o));
        } else {
          FrontierCovered(w.position, rs, tp, o);
          BatchRecordResolved(w, v.history, rs, j, Record(tp, o));
        }
      }
    } else {
      var m :| j <= m < |rs| && !Resolved(w.history, rs[m]);
      PendingUntil(env, polled, w.position, rs, j, m);
      OffsetsBelowAdvance(env, w, rs, m);
      assert Record(rs[m].tp, rs[m].offset) == rs[m];
    }
  }

  lemma BatchRecordResolved(w: Worker, longer: seq<Delivery>, rs: seq<Record>, j: nat, r: Record)
    requires j <= |rs| && r in rs && RestResolved(w, rs, j)
    requires |longer| == |w.history| + j && longer[..|w.history|] == w.history
    requires forall i :: 0 <= i < j ==> longer[|w.history| + i].record == rs[..j][i]
    ensures Resolved(longer, r)
  {
    var m :| 0 <= m < |rs| && rs[m] == r;
    if m < j {
      assert longer[|w.history| + m].record == rs[..j][m] == rs[m];
    } else {
      StaysResolved(w.history, longer, rs[m]);
    }
  }

  lemma StaysResolved(history: seq<Delivery>, longer: seq<Delivery>, r: Record)
    requires |history| <= |longer| && longer[..|history|] == history && Resolved(history, r)
    ensures Resolved(longer, r)
  {
    var i :| 0 <= i < |history| && history[i].record == r;
    assert longer[i] == longer[..|history|][i];
  }

  /** A record of the batch lies below the frontier of the whole batch. */
  lemma OffsetsBelowAdvance(env: Env, w: Worker, rs: seq<Record>, m: nat)
    requires InOrder(w.position, rs) && m < |rs|
    requires forall r :: r in rs ==> InLog(env, r)
    requires |w.position| == |env.log|
    ensures rs[m].tp < |w.position| && rs[m].offset < Frontier(w.position, rs)[rs[m].tp]
  {
    assert rs[m] in rs;
    assert rs[..|rs|] == rs;
    CountGrows(rs, m, |rs|, rs[m].tp);
  }

  /** commit() takes no offsets: the first successful commit of a batch commits all of
      it. In mid-batch the committed offsets cover only resolved messages exactly when no
      earlier record of the batch was processed and committed at its first attempt, or all
      that remain are redeliveries of resolved ones. */
  lemma MidBatchCommitGap(env: Env, w: Worker, pack: seq<Slice>, j: nat)
    requires Consistent(env, w, w.position) && ValidPack(env, w.position, pack) && j <= |Batch(w.position, pack)|
    ensures forall r :: r in Batch(w.position, pack) ==> InLog(env, r)
    ensures forall r :: r in Batch(w.position, pack)[..j] ==> InLog(env, r)
    ensures var polled, rs := w.(position := Advance(w.position, pack)), Batch(w.position, pack);
            var v := HandleAll(env, polled, rs[..j]);
            ResolvedUpTo(v, v.committed) <==> !SomeStraight(env, polled, rs, j) || RestResolved(w, rs, j)
  {
    hide HandleAll, HandleRecord, Advance, Batch, SomeStraight, RestResolved, Resolved;
    var rs := Batch(w.position, pack);
    BatchInLog(env, w.position, pack);
    PolledResolvedExactly(env, w, pack, j);
    var polled := w.(position := Advance(w.position, pack));
    BatchCommits(env, polled, rs, j);
    BatchHistory(env, polled, rs[..j]);
    var v := HandleAll(env, polled, rs[..j]);
    forall tp, o | 0 <= tp < |w.committed| && 0 <= o < w.committed[tp] ensures Resolved(v.history, Record(tp, o)) {
      StaysResolved(w.history, v.history, Record(tp, o));
    }
    if RestResolved(w, rs, j) { assert ResolvedUpTo(v, v.committed); }
  }

  /** One partition with two passages and nothing that fails. */
  function TwoPassages(encode: string -> Vector): Env {
    var log := [[Passage(Some("a"), Some("alpha"), ""), Passage(Some("b"), Some("beta"), "")]];
    Env(log, encode, _ => NoFault, _ => false, 3)
  }

  /** The first of two polled records, handled without any failure. */
  lemma FirstRecordCommitsBoth(env: Env, polled: Worker)
    requires InLog(env, Record(0, 0)) && Straight(env, polled, Record(0, 0))
    requires polled.history == [] && polled.position == [2]
    ensures var v := HandleAll(env, polled, [Record(0, 0)]);
            v.committed == [2] && |v.history| == 1 && v.history[0].record == Record(0, 0)
  {
    assert [Record(0, 0)] == [] + [Record(0, 0)];
    HandleAllNothing(env, polled);
    HandleAllSnoc(env, polled, [], Record(0, 0));
    hide HandleAll, HandleRecord, Straight;
    RecordCommits(env, polled, Record(0, 0));
    HandleRecordEffect(env, polled, Record(0, 0), Es, "");
  }

  /** The gap on the very first poll: both passages are polled, the first is indexed and
      committed, and the committed offset covers the second. */
  lemma FirstPollOpensGap(encode: string -> Vector)
    ensures var env, pack := TwoPassages(encode), [Slice(0, 2)];
            var w := Run(env, Initial(env), []);
            && ValidRun(env, Initial(env), []) && ValidEvent(env, w, Poll(pack))
            && Batch(w.position, pack) == [Record(0, 0), Record(0, 1)]
            && var v := HandleAll(env, w.(position := Advance(w.position, pack)), [Record(0, 0)]);
               && v.committed == [2] && !Resolved(v.history, Record(0, 1)) && !ResolvedUpTo(v, v.committed)
  {
    var env, pack := TwoPassages(encode), [Slice(0, 2)];
    var w := Initial(env);
    assert pack[..0] == [];
    var polled := w.(position := Advance(w.position, pack));
    assert polled.position == [2];
    hide HandleAll, HandleRecord;
    FirstRecordCommitsBoth(env, polled);
    var v := HandleAll(env, polled, [Record(0, 0)]);
    assert !Resolved(v.history, Record(0, 1));
    assert v.committed[0] == 2;
  }

  lemma InOrderPrefix(position: seq<nat>, rs: seq<Record>, j: nat)
    requires InOrder(position, rs) && j <= |rs|
    ensures InOrder(position, rs[..j])
  {
    forall k | 0 <= k < j ensures rs[..j][..k] == rs[..k] {}
  }

  lemma PolledConsistent(env: Env, w: Worker, pack: seq<Slice>)
    requires Consistent(env, w, w.position) && ValidPack(env, w.position, pack)
    ensures Consistent(env, w.(position := Advance(w.position, pack)), w.position)
  {
    forall tp | 0 <= tp < |env.log|
      ensures w.position[tp] <= Advance(w.position, pack)[tp] <= |env.log[tp]|
    {
      BatchCounts(env, w.position, pack, tp);
      AdvanceInLog(env, w.position, pack, tp);
    }
  }

  lemma PendingUntil(env: Env, w: Worker, from: seq<nat>, rs: seq<Record>, j: nat, m: nat)
    requires j <= m < |rs| && InOrder(from, rs) && forall r :: r in rs[..j] ==> InLog(env, r)
    requires !Resolved(w.history, rs[m])
    ensures !Resolved(HandleAll(env, w, rs[..j]).history, rs[m])
  {
    hide HandleAll;
    BatchHistory(env, w, rs[..j]);
    var h := HandleAll(env, w, rs[..j]).history;
    forall i | 0 <= i < |h| ensures h[i].record != rs[m] {
      if i < |w.history| {
        assert h[..|w.history|][i] == w.history[i];
      } else {
        CountGrows(rs, i - |w.history|, m, rs[m].tp);
        assert h[|w.history| + (i - |w.history|)].record == rs[..j][i - |w.history|];
      }
    }
  }

  // ---------------------------------------------------------------------------
  // Contents of the stores
  // ---------------------------------------------------------------------------

  ghost predicate DeliveredInLog(env: Env, history: seq<Delivery>) {
    forall i :: 0 <= i < |history| ==> InLog(env, history[i].record)
  }

  /** The last delivery that concerns id x on a side is number i, and it was indexed. */
  ghost predicate LastConcerned(env: Env, history: seq<Delivery>, i: nat, side: Side, x: string)
    requires DeliveredInLog(env, history)
  {
    && i < |history|
    && history[i].outcome.Indexed?
    && Targets(MessageAt(env, history[i].record), side, x)
    && forall k :: i < k < |history| ==> !Targets(MessageAt(env, history[k].record), side, x)
  }

  ghost predicate LastIndexedHeld(env: Env, w: Worker) {
    && DeliveredInLog(env, w.history)
    && forall i: nat, side, x :: LastConcerned(env, w.history, i, side, x) ==>
         Held(w, side, x) == Some(Written(env, MessageAt(env, w.history[i].record), side))
  }

  lemma RecordKeepsLastIndexed(env: Env, w: Worker, r: Record)
    requires InLog(env, r) && LastIndexedHeld(env, w)
    ensures LastIndexedHeld(env, HandleRecord(env, w, r))
  {
    hide HandleRecord, Held, Written;
    var w' := HandleRecord(env, w, r);
    HandleRecordEffect(env, w, r, Es, "");
    assert DeliveredInLog(env, w'.history);
    forall i: nat, side, x | LastConcerned(env, w'.history, i, side, x)
      ensures Held(w', side, x) == Some(Written(env, MessageAt(env, w'.history[i].record), side))
    {
      HandleRecordEffect(env, w, r, side, x);
      if i < |w.history| {
        assert w'.history[|w.history|].record == r;
        assert forall k :: 0 <= k < |w.history| ==> w'.history[k] == w.history[k];
        assert LastConcerned(env, w.history, i, side, x);
      }
    }
  }

  lemma {:induction false} BatchKeepsLastIndexed(env: Env, w: Worker, rs: seq<Record>)
    requires (forall r :: r in rs ==> InLog(env, r)) && LastIndexedHeld(env, w)
    ensures LastIndexedHeld(env, HandleAll(env, w, rs))
  {
    if rs != [] {
      hide HandleRecord, LastIndexedHeld;
      var n := |rs| - 1;
      BatchKeepsLastIndexed(env, w, rs[..n]);
      RecordKeepsLastIndexed(env, HandleAll(env, w, rs[..n]), rs[n]);
    }
  }

  /** After every run, an id whose last delivered message was indexed has that message's
      version in both stores, whatever failed before and however often the worker
      restarted. */
  lemma {:induction false} LastIndexedVersionIsHeld(env: Env, events: seq<Event>)
    requires ValidRun(env, Initial(env), events)
    ensures LastIndexedHeld(env, Run(env, Initial(env), events))
    decreases |events|
  {
    if events != [] {
      var n := |events| - 1;
      LastIndexedVersionIsHeld(env, events[..n]);
      StepKeepsLastIndexed(env, Run(env, Initial(env), events[..n]), events[n]);
    }
  }

  lemma StepKeepsLastIndexed(env: Env, w: Worker, e: Event)
    requires ValidEvent(env, w, e) && LastIndexedHeld(env, w)
    ensures LastIndexedHeld(env, Step(env, w, e))
  {
    hide LastIndexedHeld, HandleAll, Batch, Advance;
    match e {
      case Poll(pack) =>
        BatchInLog(env, w.position, pack);
        var polled := w.(position := Advance(w.position, pack));
        HeldDependsOnStores(env, w, polled);
        BatchKeepsLastIndexed(env, polled, Batch(w.position, pack));
      case PollRaises =>
      case Restart => HeldDependsOnStores(env, w, w.(position := w.committed, processed := 0, failed := 0));
    }
  }

  lemma HeldDependsOnStores(env: Env, w: Worker, w': Worker)
    requires w'.es == w.es && w'.qdrant == w.qdrant && w'.history == w.history
    requires LastIndexedHeld(env, w)
    ensures LastIndexedHeld(env, w')
  {
    assert forall side, x :: Held(w', side, x) == Held(w, side, x);
  }

  // ---------------------------------------------------------------------------
  // Redelivery
  // ---------------------------------------------------------------------------

  /** What one failure-free pass over the first n messages of a partition leaves for an
      id. */
  function OnePass(env: Env, tp: nat, n: nat, side: Side, x: string): Option<Entry>
    requires tp < |env.log| && n <= |env.log[tp]|
  {
    if n == 0 then None
    else if Targets(env.log[tp][n - 1], side, x) then Some(Written(env, env.log[tp][n - 1], side))
    else OnePass(env, tp, n - 1, side, x)
  }

  /** Messages about x are only sent to partition tp, as the producer does by using the
      passage id as the message key. */
  ghost predicate KeyedTo(env: Env, tp: nat, side: Side, x: string) {
    tp < |env.log| && forall r :: InLog(env, r) && Targets(MessageAt(env, r), side, x) ==> r.tp == tp
  }

  /** No delivery of a message about x was given up. */
  ghost predicate Clean(env: Env, history: seq<Delivery>, side: Side, x: string) {
    forall i :: 0 <= i < |history| && InLog(env, history[i].record) ==>
      Targets(MessageAt(env, history[i].record), side, x) ==> history[i].outcome.Indexed?
  }

  /** A version of x written by a delivered message o that no message about x follows
      before offset n. */
  ghost predicate WrittenBy(env: Env, w: Worker, tp: nat, o: nat, n: nat, side: Side, x: string)
    requires tp < |env.log|
  {
    && o < |env.log[tp]| && n <= |env.log[tp]|
    && Resolved(w.history, Record(tp, o))
    && Targets(env.log[tp][o], side, x)
    && Held(w, side, x) == Some(Written(env, env.log[tp][o], side))
    && forall p :: o < p < n ==> !Targets(env.log[tp][p], side, x)
  }

  /** The store is nowhere behind the frontier n: what it holds for x was written at or
      after the last message about x before n. */
  ghost predicate NotBehind(env: Env, w: Worker, tp: nat, n: nat, side: Side, x: string)
    requires tp < |env.log|
  {
    && n <= |env.log[tp]|
    && ((exists o: nat :: WrittenBy(env, w, tp, o, n, side, x))
        || (Held(w, side, x) == None && forall p :: 0 <= p < n ==> !Targets(env.log[tp][p], side, x)))
  }

  lemma NotBehindEarlier(env: Env, w: Worker, w': Worker, tp: nat, n: nat, m: nat, side: Side, x: string)
    requires tp < |env.log| && NotBehind(env, w, tp, n, side, x) && m <= n
    requires w'.es == w.es && w'.qdrant == w.qdrant && w'.history == w.history
    ensures NotBehind(env, w', tp, m, side, x)
  {
    if o: nat :| WrittenBy(env, w, tp, o, n, side, x) {
      assert WrittenBy(env, w', tp, o, m, side, x);
    }
  }

  lemma RecordKeepsNotBehind(env: Env, w: Worker, r: Record, tp: nat, n: nat, side: Side, x: string)
    requires InLog(env, r) && KeyedTo(env, tp, side, x) && NotBehind(env, w, tp, n, side, x)
    requires r.tp == tp ==> r.offset == n
    requires Clean(env, HandleRecord(env, w, r).history, side, x)
    ensures NotBehind(env, HandleRecord(env, w, r), tp, if r.tp == tp then n + 1 else n, side, x)
  {
    hide HandleRecord, Held, Written;
    HandleRecordEffect(env, w, r, side, x);
    var w' := HandleRecord(env, w, r);
    var d := w'.history[|w.history|];
    assert w'.history == w.history + [d] && d.record == r;
    var m := if r.tp == tp then n + 1 else n;
    if Targets(MessageAt(env, r), side, x) {
      assert d.outcome.Indexed?;
      assert WrittenBy(env, w', tp, n, m, side, x);
    } else if o: nat :| WrittenBy(env, w, tp, o, n, side, x) {
      ResolvedGrows(w.history, [d], Record(tp, o));
      assert WrittenBy(env, w', tp, o, m, side, x);
    }
  }

  lemma FrontierMoves(from: seq<nat>, rs: seq<Record>, tp: nat)
    requires rs != [] && InOrder(from, rs) && tp < |from|
    ensures var n := |rs| - 1; var f := Frontier(from, rs[..n])[tp];
            InOrder(from, rs[..n])
            && (rs[n].tp == tp ==> rs[n].offset == f)
            && Frontier(from, rs)[tp] == if rs[n].tp == tp then f + 1 else f
  {
    FrontierStep(from, rs);
  }

  lemma {:induction false} BatchKeepsNotBehind(env: Env, w: Worker, from: seq<nat>, rs: seq<Record>,
                                               tp: nat, side: Side, x: string)
    requires (forall r :: r in rs ==> InLog(env, r)) && InOrder(from, rs) && tp < |from| == |env.log|
    requires KeyedTo(env, tp, side, x) && NotBehind(env, w, tp, from[tp], side, x)
    requires Clean(env, HandleAll(env, w, rs).history, side, x)
    ensures NotBehind(env, HandleAll(env, w, rs), tp, Frontier(from, rs)[tp], side, x)
    decreases |rs|
  {
    hide HandleRecord, NotBehind, Frontier, InOrder, KeyedTo, Clean;
    if rs == [] {
      FrontierNothing(from);
    } else {
      var n := |rs| - 1;
      var v := HandleAll(env, w, rs[..n]);
      CleanBefore(env, v, rs[n], side, x);
      FrontierMoves(from, rs, tp);
      BatchKeepsNotBehind(env, w, from, rs[..n], tp, side, x);
      RecordKeepsNotBehind(env, v, rs[n], tp, Frontier(from, rs[..n])[tp], side, x);
    }
  }

  lemma CleanBefore(env: Env, w: Worker, r: Record, side: Side, x: string)
    requires InLog(env, r) && Clean(env, HandleRecord(env, w, r).history, side, x)
    ensures Clean(env, w.history, side, x)
  {
    HandleRecordEffect(env, w, r, Es, "");
    CleanPrefix(env, w.history, HandleRecord(env, w, r).history, side, x);
  }

  lemma CleanPrefix(env: Env, history: seq<Delivery>, longer: seq<Delivery>, side: Side, x: string)
    requires history <= longer && Clean(env, longer, side, x)
    ensures Clean(env, history, side, x)
  {
    assert forall i :: 0 <= i < |history| ==> history[i] == longer[i];
  }

  lemma StepHistory(env: Env, w: Worker, e: Event)
    requires ValidEvent(env, w, e)
    ensures w.history <= Step(env, w, e).history
  {
    hide HandleAll, Batch, Advance;
    if e.Poll? {
      BatchInLog(env, w.position, e.pack);
      BatchHistory(env, w.(position := Advance(w.position, e.pack)), Batch(w.position, e.pack));
    }
  }

  lemma {:induction false} RunKeepsNotBehind(env: Env, events: seq<Event>, tp: nat, side: Side, x: string)
    requires ValidRun(env, Initial(env), events) && KeyedTo(env, tp, side, x)
    requires Clean(env, Run(env, Initial(env), events).history, side, x)
    ensures var w := Run(env, Initial(env), events);
            |w.position| == |env.log| && NotBehind(env, w, tp, w.position[tp], side, x)
    decreases |events|
  {
    if events != [] {
      hide HandleAll, Batch, Advance, NotBehind;
      var n := |events| - 1;
      var w := Run(env, Initial(env), events[..n]);
      StepHistory(env, w, events[n]);
      CleanPrefix(env, w.history, Run(env, Initial(env), events).history, side, x);
      RunKeepsNotBehind(env, events[..n], tp, side, x);
      CommittedOffsetsAreResolved(env, events[..n]);
      match events[n] {
        case Poll(pack) =>
          BatchInLog(env, w.position, pack);
          BatchInOrder(env, w.position, pack);
          PolledConsistent(env, w, pack);
          var polled := w.(position := Advance(w.position, pack));
          NotBehindEarlier(env, w, polled, tp, w.position[tp], w.position[tp], side, x);
          BatchKeepsConsistent(env, polled, w.position, Batch(w.position, pack));
          BatchKeepsNotBehind(env, polled, w.position, Batch(w.position, pack), tp, side, x);
        case PollRaises =>
        case Restart =>
          NotBehindEarlier(env, w, w.(position := w.committed, processed := 0, failed := 0), tp,
                           w.position[tp], w.committed[tp], side, x);
      }
    }
  }

  lemma {:induction false} OnePassIs(env: Env, tp: nat, o: nat, n: nat, side: Side, x: string)
    requires tp < |env.log| && o < n <= |env.log[tp]| && Targets(env.log[tp][o], side, x)
    requires forall p :: o < p < n ==> !Targets(env.log[tp][p], side, x)
    ensures OnePass(env, tp, n, side, x) == Some(Written(env, env.log[tp][o], side))
  {
    if o < n - 1 { OnePassIs(env, tp, o, n - 1, side, x); }
  }

  lemma {:induction false} OnePassNothing(env: Env, tp: nat, n: nat, side: Side, x: string)
    requires tp < |env.log| && n <= |env.log[tp]|
    requires forall p :: 0 <= p < n ==> !Targets(env.log[tp][p], side, x)
    ensures OnePass(env, tp, n, side, x) == None
  {
    if n > 0 { OnePassNothing(env, tp, n - 1, side, x); }
  }

  /** Redelivery is harmless: once the worker is again past everything it ever
      delivered of a partition, each id of that partition holds exactly what one pass
      up to there leaves, no matter how often and from where it was restarted. */
  lemma ReplayEqualsOnePass(env: Env, events: seq<Event>, tp: nat, side: Side, x: string)
    requires ValidRun(env, Initial(env), events) && KeyedTo(env, tp, side, x)
    requires Clean(env, Run(env, Initial(env), events).history, side, x)
    requires var w := Run(env, Initial(env), events);
             |w.position| == |env.log| && forall d :: d in w.history && d.record.tp == tp ==> d.record.offset < w.position[tp]
    ensures var w := Run(env, Initial(env), events);
            w.position[tp] <= |env.log[tp]|
            && Held(w, side, x) == OnePass(env, tp, w.position[tp], side, x)
  {
    RunKeepsNotBehind(env, events, tp, side, x);
    var w := Run(env, Initial(env), events);
    var n := w.position[tp];
    if o: nat :| WrittenBy(env, w, tp, o, n, side, x) {
      var i :| 0 <= i < |w.history| && w.history[i].record == Record(tp, o);
      assert w.history[i] in w.history;
      OnePassIs(env, tp, o, n, side, x);
    } else {
      OnePassNothing(env, tp, n, side, x);
    }
  }

  ghost predicate Keyed(env: Env) {
    |env.log| > 0 && forall r, s, side, x ::
      InLog(env, r) && InLog(env, s) && Targets(MessageAt(env, r), side, x) && Targets(MessageAt(env, s), side, x)
      ==> r.tp == s.tp
  }

  /** A run that has read every partition to its end and gave nothing up. */
  ghost predicate DrainedRun(env: Env, events: seq<Event>) {
    && ValidRun(env, Initial(env), events)
    && var w := Run(env, Initial(env), events);
       && |w.position| == |env.log|
       && (forall tp :: 0 <= tp < |env.log| ==> w.position[tp] == |env.log[tp]|)
       && forall i :: 0 <= i < |w.history| ==> w.history[i].outcome.Indexed?
  }

  lemma DrainedHolds(env: Env, events: seq<Event>, tp: nat, side: Side, x: string)
    requires DrainedRun(env, events) && KeyedTo(env, tp, side, x)
    ensures Held(Run(env, Initial(env), events), side, x) == OnePass(env, tp, |env.log[tp]|, side, x)
  {
    CommittedOffsetsAreResolved(env, events);
    ReplayEqualsOnePass(env, events, tp, side, x);
  }

  lemma {:induction false} OnePassIgnoresFaults(env: Env, env': Env, tp: nat, n: nat, side: Side, x: string)
    requires env.log == env'.log && env.encode == env'.encode && tp < |env.log| && n <= |env.log[tp]|
    ensures OnePass(env, tp, n, side, x) == OnePass(env', tp, n, side, x)
  {
    if n > 0 { OnePassIgnoresFaults(env, env', tp, n - 1, side, x); }
  }

  /** Any two drained runs over the same log leave the same two stores, under any polls and
      restarts and with different faults, commit failures and retry limits; one of them may
      be a run without any failure. */
  lemma DrainedRunsAgree(env: Env, events: seq<Event>, env': Env, events': seq<Event>)
    requires env.log == env'.log && env.encode == env'.encode
    requires Keyed(env) && DrainedRun(env, events) && DrainedRun(env', events')
    ensures Run(env, Initial(env), events).es == Run(env', Initial(env'), events').es
    ensures Run(env, Initial(env), events).qdrant == Run(env', Initial(env'), events').qdrant
  {
    var w, w' := Run(env, Initial(env), events), Run(env', Initial(env'), events');
    forall side, x ensures Held(w, side, x) == Held(w', side, x) {
      DrainedHoldSame(env, events, env', events', side, x);
    }
    hide Run, ValidRun, Keyed, DrainedRun;
    forall x | x in w.es || x in w'.es ensures x in w.es && x in w'.es && w.es[x] == w'.es[x] {
      assert Held(w, Es, x) == Held(w', Es, x);
    }
    forall x | x in w.qdrant || x in w'.qdrant ensures x in w.qdrant && x in w'.qdrant && w.qdrant[x] == w'.qdrant[x] {
      assert Held(w, Qdrant, x) == Held(w', Qdrant, x);
    }
  }

  lemma DrainedHoldSame(env: Env, events: seq<Event>, env': Env, events': seq<Event>, side: Side, x: string)
    requires env.log == env'.log && env.encode == env'.encode
    requires Keyed(env) && DrainedRun(env, events) && DrainedRun(env', events')
    ensures Held(Run(env, Initial(env), events), side, x) == Held(Run(env', Initial(env'), events'), side, x)
  {
    hide Run, ValidRun, DrainedRun, Keyed, OnePass, Initial;
    var tp := Home(env, side, x);
    KeyedDependsOnLog(env, env', tp, side, x);
    DrainedHolds(env, events, tp, side, x);
    DrainedHolds(env', events', tp, side, x);
    OnePassIgnoresFaults(env, env', tp, |env.log[tp]|, side, x);
  }

  lemma KeyedDependsOnLog(env: Env, env': Env, tp: nat, side: Side, x: string)
    requires env.log == env'.log && KeyedTo(env, tp, side, x)
    ensures KeyedTo(env', tp, side, x)
  {
    forall r | InLog(env', r) && Targets(MessageAt(env', r), side, x) ensures r.tp == tp {
      assert InLog(env, r) && MessageAt(env, r) == MessageAt(env', r);
    }
  }

  ghost function Home(env: Env, side: Side, x: string): (tp: nat)
    requires Keyed(env)
    ensures KeyedTo(env, tp, side, x)
  {
    if exists r :: InLog(env, r) && Targets(MessageAt(env, r), side, x) then
      var r :| InLog(env, r) && Targets(MessageAt(env, r), side, x);
      r.tp
    else 0
  }
}
