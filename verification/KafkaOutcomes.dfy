/** What becomes of each delivered message, and what the stores then hold, in terms of the
    messages, faults and retry limit alone. */
module KafkaOutcomes {
  import opened Sequences
  import opened KafkaWorker
  import opened KafkaRuns

  // ---------------------------------------------------------------------------
  // One delivery
  // ---------------------------------------------------------------------------

  /** Attempt number i at a message that is delivered at attempt number `first` goes through:
      the call does not raise, and neither does the commit, which only the first one makes. */
  ghost predicate GoesThrough(env: Env, m: Message, commits: nat, first: nat, i: nat) {
    && (i == first ==> !env.commitFails(commits))
    && match m
       case Passage(id, text, _) =>
         id.Some? && text.Some?
         && if id.value != "" && text.value != "" then env.faults(i) == NoFault
            else forall written :: env.faults(i) != EsRaises(written)
       case IndexingJob => true
       case Unknown => true
  }

  /** Attempts from `from` up to `to` exclusive all raise or fail to commit. */
  ghost predicate NoneGoesThrough(env: Env, m: Message, commits: nat, first: nat, from: nat, to: nat) {
    forall i :: from <= i < to ==> !GoesThrough(env, m, commits, first, i)
  }

  /** How a delivery ends: indexed by the first attempt that goes through, or given up after
      the first attempt and all allowed retries. */
  ghost predicate EndsProperly(env: Env, w: Worker, w': Worker, m: Message, o: Outcome, first: nat, retries: nat) {
    if o.Indexed? then
      && w.attempts < w'.attempts <= w.attempts + retries
      && GoesThrough(env, m, w.commits, first, w'.attempts - 1)
      && NoneGoesThrough(env, m, w.commits, first, w.attempts, w'.attempts - 1)
    else
      && w'.attempts == w.attempts + retries
      && NoneGoesThrough(env, m, w.commits, first, w.attempts, w'.attempts)
  }

  lemma LaterAttempt(env: Env, m: Message, commits: nat, first: nat, i: nat)
    requires i > first
    ensures GoesThrough(env, m, commits, first, i) <==> Succeeds(m, env.faults(i))
  {
  }

  lemma {:induction false} RetryEnds(env: Env, w: Worker, r: Record, left: nat, commits: nat, first: nat)
    requires InLog(env, r) && first < w.attempts
    ensures var w', m := Retry(env, w, r, left), MessageAt(env, r);
            && |w'.history| == |w.history| + 1
            && EndsProperly(env, w.(commits := commits), w', m, w'.history[|w.history|].outcome, first, left)
    decreases left
  {
    if left > 0 {
      var next := Attempt(env, w, r);
      assert next.attempts == w.attempts + 1 && next.history == w.history;
      LaterAttempt(env, MessageAt(env, r), commits, first, w.attempts);
      hide GoesThrough, Attempt;
      if !AttemptSucceeds(env, w, r) { RetryEnds(env, next, r, left - 1, commits, first); }
    }
  }

  /** A delivered message is indexed by its first attempt that goes through, among the
      first one and max_retries retries, and given up when there is none. */
  lemma DeliveryOutcome(env: Env, w: Worker, r: Record)
    requires InLog(env, r)
    ensures var w' := HandleRecord(env, w, r);
            var m, retries := env.log[r.tp][r.offset], if env.maxRetries > 0 then env.maxRetries else 0;
            && |w'.history| == |w.history| + 1 && w'.history[|w.history|].record == r
            && EndsProperly(env, w, w', m, w'.history[|w.history|].outcome, w.attempts, 1 + retries)
  {
    HandleRecordEffect(env, w, r, Es, "");
    var m, w1 := MessageAt(env, r), Attempt(env, w, r);
    assert w1.attempts == w.attempts + 1 && w1.commits == w.commits && w1.history == w.history;
    assert GoesThrough(env, m, w.commits, w.attempts, w.attempts)
      <==> Succeeds(m, env.faults(w.attempts)) && !env.commitFails(w.commits);
    hide GoesThrough, Attempt, Retry, Succeeds;
    if !AttemptSucceeds(env, w, r) {
      RetryEnds(env, w1.(failed := w1.failed + 1), r, Retries(env), w.commits, w.attempts);
    } else if env.commitFails(w1.commits) {
      RetryEnds(env, w1.(commits := w1.commits + 1, failed := w1.failed + 1), r, Retries(env), w.commits, w.attempts);
    }
  }

  // ---------------------------------------------------------------------------
  // The stores
  // ---------------------------------------------------------------------------

  /** Some delivered message is a passage with this id, text and title. */
  ghost predicate DeliveredAs(env: Env, history: seq<Delivery>, id: string, text: string, title: string) {
    exists i :: 0 <= i < |history| && IsMessage(env, history[i].record, Passage(Some(id), Some(text), title))
  }

  ghost predicate IsMessage(env: Env, r: Record, m: Message) {
    r.tp < |env.log| && r.offset < |env.log[r.tp]| && env.log[r.tp][r.offset] == m
  }

  /** Everything stored is a delivered passage, and a stored vector is that of the text stored
      with it. */
  ghost predicate StoresDelivered(env: Env, w: Worker) {
    && (forall x :: x in w.es ==> DeliveredAs(env, w.history, x, w.es[x].text, w.es[x].title))
    && (forall x :: x in w.qdrant ==>
          var p := w.qdrant[x];
          && x != "" && p.text != "" && p.vector == env.encode(p.text)
          && DeliveredAs(env, w.history, x, p.text, p.title))
  }

  lemma DeliveredStays(env: Env, history: seq<Delivery>, d: Delivery, id: string, text: string, title: string)
    requires DeliveredAs(env, history, id, text, title)
    ensures DeliveredAs(env, history + [d], id, text, title)
  {
    var i :| 0 <= i < |history| && IsMessage(env, history[i].record, Passage(Some(id), Some(text), title));
    assert (history + [d])[i] == history[i];
  }

  lemma RecordKeepsStores(env: Env, w: Worker, r: Record)
    requires InLog(env, r) && StoresDelivered(env, w)
    ensures StoresDelivered(env, HandleRecord(env, w, r))
  {
    hide HandleRecord, DeliveredAs;
    var w' := HandleRecord(env, w, r);
    HandleRecordEffect(env, w, r, Es, "");
    var d := w'.history[|w.history|];
    assert w'.history == w.history + [d] && d.record == r;
    forall x | x in w'.es ensures DeliveredAs(env, w'.history, x, w'.es[x].text, w'.es[x].title) {
      HandleRecordEffect(env, w, r, Es, x);
      StoredOnce(env, w, w', r, d, x, w'.es[x].text, w'.es[x].title);
    }
    forall x | x in w'.qdrant
      ensures var p := w'.qdrant[x];
              && x != "" && p.text != "" && p.vector == env.encode(p.text)
              && DeliveredAs(env, w'.history, x, p.text, p.title)
    {
      HandleRecordEffect(env, w, r, Qdrant, x);
      StoredOnce(env, w, w', r, d, x, w'.qdrant[x].text, w'.qdrant[x].title);
    }
  }

  lemma StoredOnce(env: Env, w: Worker, w': Worker, r: Record, d: Delivery, x: string, text: string, title: string)
    requires w'.history == w.history + [d] && d.record == r
    ensures DeliveredAs(env, w.history, x, text, title) || IsMessage(env, r, Passage(Some(x), Some(text), title)) ==>
              DeliveredAs(env, w'.history, x, text, title)
  {
    if DeliveredAs(env, w.history, x, text, title) {
      DeliveredStays(env, w.history, d, x, text, title);
    }
    assert w'.history[|w.history|] == d;
  }

  /** Without faults and failing commits exactly the passages without id or text are given
      up. */
  ghost predicate FaultlessOutcomes(env: Env, history: seq<Delivery>) {
    forall i :: 0 <= i < |history| ==> FaultlessOutcome(env, history[i])
  }

  ghost predicate FaultlessOutcome(env: Env, d: Delivery) {
    InLog(env, d.record) &&
    (d.outcome.Indexed? <==> match env.log[d.record.tp][d.record.offset]
                             case Passage(id, text, _) => id.Some? && text.Some?
                             case IndexingJob => true
                             case Unknown => true)
  }

  ghost predicate Faultless(env: Env) {
    (forall i :: env.faults(i) == NoFault) && forall i :: !env.commitFails(i)
  }

  ghost predicate Accounted(env: Env, w: Worker) {
    StoresDelivered(env, w) && (Faultless(env) ==> FaultlessOutcomes(env, w.history))
  }

  lemma FaultlessDelivery(env: Env, w: Worker, r: Record)
    requires InLog(env, r) && Faultless(env)
    ensures var w' := HandleRecord(env, w, r);
            |w'.history| == |w.history| + 1 && FaultlessOutcome(env, w'.history[|w.history|])
  {
    hide HandleRecord;
    DeliveryOutcome(env, w, r);
    var w' := HandleRecord(env, w, r);
    var m := env.log[r.tp][r.offset];
    assert forall i :: GoesThrough(env, m, w.commits, w.attempts, i) <==> (m.Passage? ==> m.id.Some? && m.text.Some?);
    assert w.attempts < w'.attempts;
    if w'.history[|w.history|].outcome.GivenUp? {
      assert !GoesThrough(env, m, w.commits, w.attempts, w.attempts);
    }
  }

  lemma RecordKeepsAccounted(env: Env, w: Worker, r: Record)
    requires InLog(env, r) && Accounted(env, w)
    ensures Accounted(env, HandleRecord(env, w, r))
  {
    hide HandleRecord, StoresDelivered, FaultlessOutcome, Faultless;
    RecordKeepsStores(env, w, r);
    HandleRecordEffect(env, w, r, Es, "");
    if Faultless(env) { FaultlessDelivery(env, w, r); }
  }

  lemma {:induction false} BatchKeepsAccounted(env: Env, w: Worker, rs: seq<Record>)
    requires (forall r :: r in rs ==> InLog(env, r)) && Accounted(env, w)
    ensures Accounted(env, HandleAll(env, w, rs))
  {
    if rs != [] {
      hide HandleRecord, Accounted;
      var n := |rs| - 1;
      BatchKeepsAccounted(env, w, rs[..n]);
      RecordKeepsAccounted(env, HandleAll(env, w, rs[..n]), rs[n]);
    }
  }

  lemma StepKeepsAccounted(env: Env, w: Worker, e: Event)
    requires ValidEvent(env, w, e) && Accounted(env, w)
    ensures Accounted(env, Step(env, w, e))
  {
    hide HandleAll, Batch, Advance;
    if e.Poll? {
      BatchInLog(env, w.position, e.pack);
      var polled := w.(position := Advance(w.position, e.pack));
      assert Accounted(env, polled);
      hide Accounted;
      BatchKeepsAccounted(env, polled, Batch(w.position, e.pack));
    }
  }

  /** After every run the stores hold delivered passages only, each vector that of the text
      beside it, and in a run without any failure every message but a passage without id or
      text ends as indexed. */
  lemma {:induction false} RunsAreAccounted(env: Env, events: seq<Event>)
    requires ValidRun(env, Initial(env), events)
    ensures var w := Run(env, Initial(env), events);
            StoresDelivered(env, w) && (Faultless(env) ==> FaultlessOutcomes(env, w.history))
    decreases |events|
  {
    if events != [] {
      hide StoresDelivered, FaultlessOutcomes, Faultless;
      var n := |events| - 1;
      RunsAreAccounted(env, events[..n]);
      StepKeepsAccounted(env, Run(env, Initial(env), events[..n]), events[n]);
    }
  }

  /** The last delivery of an id, if it was indexed, is what both stores hold: its text and
      title, and the vector of its text unless id or text is empty. */
  lemma LastIndexedPassage(env: Env, events: seq<Event>, i: nat, id: string, text: string, title: string)
    requires ValidRun(env, Initial(env), events)
    requires var h := Run(env, Initial(env), events).history;
             && i < |h| && h[i].outcome.Indexed? && IsMessage(env, h[i].record, Passage(Some(id), Some(text), title))
             && forall j, text', title' :: i < j < |h| ==> !IsMessage(env, h[j].record, Passage(Some(id), text', title'))
    ensures var w := Run(env, Initial(env), events);
            && id in w.es && w.es[id] == Doc(text, title)
            && (id != "" && text != "" ==> id in w.qdrant && w.qdrant[id] == Point(env.encode(text), text, title))
  {
    LastIndexedVersionIsHeld(env, events);
    var w := Run(env, Initial(env), events);
    hide Run, ValidRun;
    forall side | side == Es || Dense(MessageAt(env, w.history[i].record))
      ensures LastConcerned(env, w.history, i, side, id)
    {
      forall k | i < k < |w.history| ensures !Targets(MessageAt(env, w.history[k].record), side, id) {
        var m := MessageAt(env, w.history[k].record);
        assert m.Passage? ==> !IsMessage(env, w.history[k].record, Passage(Some(id), m.text, m.title));
      }
    }
    assert LastConcerned(env, w.history, i, Es, id);
    assert Held(w, Es, id) == Some(InEs(Doc(text, title)));
    if id != "" && text != "" {
      assert LastConcerned(env, w.history, i, Qdrant, id);
      assert Held(w, Qdrant, id) == Some(InQdrant(Point(env.encode(text), text, title)));
    }
  }

  /** The records of a batch: slice n of the poll starts behind the earlier slices and holds
      the next messages of its partition in order. */
  lemma {:induction false} BatchFollowsPoll(position: seq<nat>, pack: seq<Slice>, n: nat, c: nat)
    requires (forall s :: s in pack ==> s.tp < |position|) && n < |pack| && c < pack[n].count
    ensures var before := |Batch(position, pack[..n])|;
            before + c < |Batch(position, pack)|
            && Batch(position, pack)[before + c] == Record(pack[n].tp, position[pack[n].tp] + c)
    decreases |pack|
  {
    var last := |pack| - 1;
    if n < last {
      BatchFollowsPoll(position, pack[..last], n, c);
      assert pack[..last][..n] == pack[..n];
    }
  }

  function WithoutFailedPolls(events: seq<Event>): seq<Event> {
    if events == [] then []
    else
      var n := |events| - 1;
      WithoutFailedPolls(events[..n]) + (if events[n].PollRaises? then [] else [events[n]])
  }

  /** Polls that raise leave no trace: a run ends as the same run without them. */
  lemma {:induction false} FailedPollsLeaveNoTrace(env: Env, w: Worker, events: seq<Event>)
    requires ValidRun(env, w, events)
    ensures ValidRun(env, w, WithoutFailedPolls(events))
    ensures Run(env, w, WithoutFailedPolls(events)) == Run(env, w, events)
    decreases |events|
  {
    if events != [] {
      hide Step, ValidEvent;
      var n := |events| - 1;
      FailedPollsLeaveNoTrace(env, w, events[..n]);
      var before := WithoutFailedPolls(events[..n]);
      if events[n].PollRaises? {
        RaisingPoll(env, Run(env, w, events[..n]));
        assert before + [] == before;
      } else {
        var all := before + [events[n]];
        assert all[..|before|] == before;
      }
    }
  }

  lemma RaisingPoll(env: Env, w: Worker)
    ensures ValidEvent(env, w, PollRaises) && Step(env, w, PollRaises) == w
  {
  }
}
