/** The Kafka indexing worker: poll, process, commit, retry and dead-letter over two
    upsert stores. Broker, stores and encoder are environment inputs: which call fails
    is read off oracles indexed by a call counter. */
module KafkaWorker {
  import opened Sequences

  type Vector = seq<real>

  datatype Message =
    | Passage(id: Option<string>, text: Option<string>, title: string)
    | IndexingJob
    | Unknown

  datatype Doc = Doc(text: string, title: string)
  datatype Point = Point(vector: Vector, text: string, title: string)

  /** Which call of one processing attempt raises; a store call can raise before or after
      it has written. */
  datatype Fault = NoFault | EsRaises(written: bool) | EncoderRaises | QdrantRaises(written: bool)

  datatype Env = Env(
    log: seq<seq<Message>>,        // one message list per partition
    encode: string -> Vector,
    faults: nat -> Fault,          // per processing attempt
    commitFails: nat -> bool,      // per commit call
    maxRetries: int)

  datatype Record = Record(tp: nat, offset: nat)

  datatype Outcome = Indexed | GivenUp

  datatype Delivery = Delivery(record: Record, outcome: Outcome)

  /** Stores, broker offsets and bookkeeping of the worker. `history` lists every
      delivery with what became of it. */
  datatype Worker = Worker(
    es: map<string, Doc>,
    qdrant: map<string, Point>,
    position: seq<nat>,
    committed: seq<nat>,
    deadLetters: seq<Record>,
    attempts: nat,
    commits: nat,
    processed: nat,
    failed: nat,
    history: seq<Delivery>)

  predicate InLog(env: Env, r: Record) {
    r.tp < |env.log| && r.offset < |env.log[r.tp]|
  }

  function MessageAt(env: Env, r: Record): Message
    requires InLog(env, r)
  {
    env.log[r.tp][r.offset]
  }

  /** Whether a passage also goes to the dense store. */
  predicate Dense(m: Message) {
    m.Passage? && m.id.Some? && m.text.Some? && m.text.value != "" && m.id.value != ""
  }

  /** An attempt fails when a call it makes raises; Elasticsearch indexing raises by
      itself on a passage without id or text. */
  predicate Succeeds(m: Message, fault: Fault) {
    m.Passage? ==> m.id.Some? && m.text.Some? && !fault.EsRaises? && (Dense(m) ==> fault.NoFault?)
  }

  function PointOf(env: Env, m: Message): Point
    requires Dense(m)
  {
    Point(env.encode(m.text.value), m.text.value, m.title)
  }

  /** Whether a passage reaches the BM25 store in one attempt. */
  predicate WritesEs(m: Message, fault: Fault) {
    m.Passage? && m.id.Some? && m.text.Some? && (fault.EsRaises? ==> fault.written)
  }

  predicate WritesQdrant(m: Message, fault: Fault) {
    Dense(m) && (fault.NoFault? || (fault.QdrantRaises? && fault.written))
  }

  /** One run of process_message. */
  function Attempt(env: Env, w: Worker, r: Record): Worker
    requires InLog(env, r)
  {
    var m := MessageAt(env, r);
    var fault := env.faults(w.attempts);
    var w1 := w.(attempts := w.attempts + 1);
    var w2 := if WritesEs(m, fault) then w1.(es := w.es[m.id.value := Doc(m.text.value, m.title)]) else w1;
    if WritesQdrant(m, fault) then w2.(qdrant := w.qdrant[m.id.value := PointOf(env, m)]) else w2
  }

  predicate AttemptSucceeds(env: Env, w: Worker, r: Record)
    requires InLog(env, r)
  {
    Succeeds(MessageAt(env, r), env.faults(w.attempts))
  }

  function Retry(env: Env, w: Worker, r: Record, left: nat): Worker
    requires InLog(env, r)
    decreases left
  {
    if left == 0 then
      w.(deadLetters := w.deadLetters + [r], history := w.history + [Delivery(r, GivenUp)])
    else
      var w1 := Attempt(env, w, r);
      if AttemptSucceeds(env, w, r) then w1.(history := w1.history + [Delivery(r, Indexed)])
      else Retry(env, w1, r, left - 1)
  }

  function Retries(env: Env): nat {
    if env.maxRetries > 0 then env.maxRetries else 0
  }

  /** The body of the message loop: process, then commit the whole poll position; any
      exception, also one of the commit, leads to the retry path. */
  function HandleRecord(env: Env, w: Worker, r: Record): Worker
    requires InLog(env, r)
  {
    var w1 := Attempt(env, w, r);
    if !AttemptSucceeds(env, w, r) then
      Retry(env, w1.(failed := w1.failed + 1), r, Retries(env))
    else if env.commitFails(w1.commits) then
      Retry(env, w1.(commits := w1.commits + 1, failed := w1.failed + 1), r, Retries(env))
    else
      w1.(commits := w1.commits + 1, committed := w1.position, processed := w1.processed + 1,
          history := w1.history + [Delivery(r, Indexed)])
  }

  function HandleAll(env: Env, w: Worker, rs: seq<Record>): Worker
    requires forall r :: r in rs ==> InLog(env, r)
  {
    if rs == [] then w
    else HandleRecord(env, HandleAll(env, w, rs[..|rs| - 1]), rs[|rs| - 1])
  }

  lemma HandleAllNothing(env: Env, w: Worker)
    ensures HandleAll(env, w, []) == w
  {
  }

  lemma HandleAllSnoc(env: Env, w: Worker, rs: seq<Record>, r: Record)
    requires forall x :: x in rs + [r] ==> InLog(env, x)
    ensures forall x :: x in rs ==> InLog(env, x)
    ensures InLog(env, r)
    ensures HandleAll(env, w, rs + [r]) == HandleRecord(env, HandleAll(env, w, rs), r)
  {
    assert (rs + [r])[..|rs|] == rs;
    assert (rs + [r])[|rs|] == r;
    forall x | x in rs ensures InLog(env, x) { assert x in rs + [r]; }
  }

  // ---------------------------------------------------------------------------
  // Polling
  // ---------------------------------------------------------------------------

  /** What poll returned for one partition: the next `count` messages. */
  datatype Slice = Slice(tp: nat, count: nat)

  function Consecutive(tp: nat, from: nat, count: nat): (rs: seq<Record>)
    ensures |rs| == count
  {
    seq(count, i requires 0 <= i < count => Record(tp, from + i))
  }

  ghost predicate ValidPack(env: Env, position: seq<nat>, pack: seq<Slice>) {
    && |position| == |env.log|
    && (forall i :: 0 <= i < |pack| ==>
          pack[i].tp < |position| && position[pack[i].tp] + pack[i].count <= |env.log[pack[i].tp]|)
    && (forall i, j :: 0 <= i < j < |pack| ==> pack[i].tp != pack[j].tp)
  }

  function Batch(position: seq<nat>, pack: seq<Slice>): seq<Record>
    requires forall s :: s in pack ==> s.tp < |position|
  {
    if pack == [] then []
    else
      var s := pack[|pack| - 1];
      Batch(position, pack[..|pack| - 1]) + Consecutive(s.tp, position[s.tp], s.count)
  }

  function Advance(position: seq<nat>, pack: seq<Slice>): (next: seq<nat>)
    requires forall s :: s in pack ==> s.tp < |position|
    ensures |next| == |position|
  {
    if pack == [] then position
    else
      var s := pack[|pack| - 1];
      Advance(position, pack[..|pack| - 1])[s.tp := position[s.tp] + s.count]
  }

  datatype Event = Poll(pack: seq<Slice>) | PollRaises | Restart

  ghost predicate ValidEvent(env: Env, w: Worker, e: Event) {
    e.Poll? ==> ValidPack(env, w.position, e.pack)
  }

  lemma {:induction false} BatchInLog(env: Env, position: seq<nat>, pack: seq<Slice>)
    requires ValidPack(env, position, pack)
    ensures forall r :: r in Batch(position, pack) ==> InLog(env, r)
  {
    if pack != [] {
      BatchInLog(env, position, pack[..|pack| - 1]);
    }
  }

  /** One turn of the consume loop, or a shutdown at the loop head followed by a new
      consumer that resumes at the committed offsets. */
  ghost function Step(env: Env, w: Worker, e: Event): Worker
    requires ValidEvent(env, w, e)
  {
    match e
    case Poll(pack) =>
      BatchInLog(env, w.position, pack);
      HandleAll(env, w.(position := Advance(w.position, pack)), Batch(w.position, pack))
    case PollRaises => w
    case Restart => w.(position := w.committed, processed := 0, failed := 0)
  }

  ghost predicate ValidRun(env: Env, w: Worker, es: seq<Event>)
    decreases |es|, 0
  {
    es == [] ||
    (var n := |es| - 1;
     ValidRun(env, w, es[..n]) && ValidEvent(env, Run(env, w, es[..n]), es[n]))
  }

  ghost function Run(env: Env, w: Worker, es: seq<Event>): Worker
    requires ValidRun(env, w, es)
    decreases |es|, 1
  {
    if es == [] then w
    else var n := |es| - 1; Step(env, Run(env, w, es[..n]), es[n])
  }

  // ---------------------------------------------------------------------------
  // The consumer
  // ---------------------------------------------------------------------------

  class IndexingConsumer {
    const env: Env
    var es: map<string, Doc>
    var qdrant: map<string, Point>
    var position: seq<nat>
    var committed: seq<nat>
    var deadLetters: seq<Record>
    var attempts: nat
    var commits: nat
    var processed: nat
    var failed: nat
    ghost var history: seq<Delivery>

    ghost function Snapshot(): Worker
      reads this
    {
      Worker(es, qdrant, position, committed, deadLetters, attempts, commits, processed, failed, history)
    }

    /** A fresh consumer group over empty stores reads from the earliest offset. */
    constructor (env: Env)
      ensures this.env == env && es == map[] && qdrant == map[] && history == []
      ensures |position| == |env.log| && (forall tp :: 0 <= tp < |position| ==> position[tp] == 0) && committed == position
      ensures Snapshot() == Initial(env)
    {
      this.env := env;
      es, qdrant := map[], map[];
      position := seq(|env.log|, _ => 0);
      committed := seq(|env.log|, _ => 0);
      deadLetters := [];
      attempts, commits, processed, failed := 0, 0, 0, 0;
      history := [];
    }

    method IndexPassage(m: Message, fault: Fault) returns (ok: bool)
      requires m.Passage?
      modifies this`es, this`qdrant
      ensures ok <==> m.id.Some? && m.text.Some? && !fault.EsRaises?
                      && (fault.NoFault? || m.id.value == "" || m.text.value == "")
      ensures es == if m.id.Some? && m.text.Some? && fault != EsRaises(false)
                    then old(es)[m.id.value := Doc(m.text.value, m.title)] else old(es)
      ensures qdrant == if m.id.Some? && m.text.Some? && m.id.value != "" && m.text.value != ""
                           && (fault == NoFault || fault == QdrantRaises(true))
                        then old(qdrant)[m.id.value := Point(env.encode(m.text.value), m.text.value, m.title)]
                        else old(qdrant)
    {
      if m.id.None? || m.text.None? || fault == EsRaises(false) {
        return false;
      }
      es := es[m.id.value := Doc(m.text.value, m.title)];
      if fault.EsRaises? {
        return false;
      }
      var text := m.text.value;
      var pid := m.id.value;
      if text != "" && pid != "" {
        if fault.EncoderRaises? {
          return false;
        }
        var vector := env.encode(text);
        if fault == QdrantRaises(false) {
          return false;
        }
        qdrant := qdrant[pid := Point(vector, text, m.title)];
        if fault.QdrantRaises? {
          return false;
        }
      }
      return true;
    }

    method ProcessMessage(r: Record) returns (ok: bool)
      requires InLog(env, r)
      modifies this
      ensures Snapshot() == Attempt(env, old(Snapshot()), r)
      ensures ok == AttemptSucceeds(env, old(Snapshot()), r)
    {
      var m := MessageAt(env, r);
      var fault := env.faults(attempts);
      attempts := attempts + 1;
      match m
      case Passage(_, _, _) => ok := IndexPassage(m, fault);
      case IndexingJob => ok := true;
      case Unknown => ok := true;
    }

    method HandleFailure(r: Record)
      requires InLog(env, r)
      modifies this
      ensures Snapshot() == Retry(env, old(Snapshot()), r, Retries(env))
    {
      var attempt := 1;
      while attempt <= env.maxRetries
        invariant 1 <= attempt && attempt - 1 <= Retries(env)
        invariant Retry(env, Snapshot(), r, Retries(env) - (attempt - 1))
                  == Retry(env, old(Snapshot()), r, Retries(env))
      {
        var ok := ProcessMessage(r);
        if ok {
          history := history + [Delivery(r, Indexed)];
          return;
        }
        attempt := attempt + 1;
      }
      deadLetters := deadLetters + [r];
      history := history + [Delivery(r, GivenUp)];
    }

    method HandleMessage(r: Record)
      requires InLog(env, r)
      modifies this
      ensures Snapshot() == HandleRecord(env, old(Snapshot()), r)
    {
      var ok := ProcessMessage(r);
      if ok {
        commits := commits + 1;
        ok := !env.commitFails(commits - 1);
        if ok {
          committed := position;
          processed := processed + 1;
          history := history + [Delivery(r, Indexed)];
        }
      }
      if !ok {
        failed := failed + 1;
        HandleFailure(r);
      }
    }

    /** The messages poll() returned for one partition. */
    method HandleSlice(slice: Slice, from: nat, ghost polled: Worker, ghost before: seq<Record>)
      requires forall r :: r in before + Consecutive(slice.tp, from, slice.count) ==> InLog(env, r)
      requires Snapshot() == HandleAll(env, polled, before)
      modifies this
      ensures Snapshot() == HandleAll(env, polled, before + Consecutive(slice.tp, from, slice.count))
    {
      hide HandleRecord;
      ghost var rs := Consecutive(slice.tp, from, slice.count);
      assert before + rs[..0] == before;
      for j := 0 to slice.count
        invariant forall r :: r in before + rs[..j] ==> InLog(env, r)
        invariant Snapshot() == HandleAll(env, polled, before + rs[..j])
      {
        assert rs[j] in before + rs;
        assert before + rs[..j + 1] == (before + rs[..j]) + [rs[j]];
        HandleAllSnoc(env, polled, before + rs[..j], rs[j]);
        HandleMessage(Record(slice.tp, from + j));
      }
      assert rs[..slice.count] == rs;
    }

    /** One returned poll: the messages of each partition in turn. */
    method HandleBatch(pack: seq<Slice>)
      requires ValidPack(env, position, pack)
      modifies this
      ensures Snapshot() == Step(env, old(Snapshot()), Poll(pack))
    {
      hide HandleAll;
      BatchInLog(env, position, pack);
      var from := position;
      ghost var polled := Snapshot().(position := Advance(position, pack));
      position := Advance(position, pack);
      HandleAllNothing(env, polled);
      for i := 0 to |pack|
        invariant forall r :: r in Batch(from, pack[..i]) ==> InLog(env, r)
        invariant Snapshot() == HandleAll(env, polled, Batch(from, pack[..i]))
      {
        assert pack[..i + 1][..i] == pack[..i];
        BatchInLog(env, from, pack[..i + 1]);
        HandleSlice(pack[i], from[pack[i].tp], polled, Batch(from, pack[..i]));
      }
      assert pack[..|pack|] == pack;
    }

    /** The consume loop up to the loop head at which the stop flag is seen; `polls` is
        what poll() returns (or that it raises) until then. */
    method Start(polls: seq<Event>)
      requires forall e :: e in polls ==> !e.Restart?
      requires ValidRun(env, Snapshot().(processed := 0, failed := 0), polls)
      modifies this
      ensures Snapshot() == Run(env, old(Snapshot()).(processed := 0, failed := 0), polls)
    {
      processed, failed := 0, 0;
      ghost var w := Snapshot();
      RunPrefixes(env, w, polls, |polls|);
      assert polls[..|polls|] == polls;
      for i := 0 to |polls|
        invariant ValidRun(env, w, polls[..i])
        invariant Snapshot() == Run(env, w, polls[..i])
      {
        RunPrefixes(env, w, polls, i + 1);
        assert polls[..i + 1][..i] == polls[..i];
        assert polls[i] in polls;
        match polls[i]
        case Poll(pack) => HandleBatch(pack);
        case PollRaises =>
      }
    }

    /** A new process of the same group resumes at the committed offsets. */
    method Resume()
      modifies this`position, this`processed, this`failed
      ensures position == committed && processed == 0 && failed == 0
      ensures Snapshot() == Step(env, old(Snapshot()), Restart)
    {
      position := committed;
      processed, failed := 0, 0;
    }
  }

  function Initial(env: Env): Worker {
    var zeros := seq(|env.log|, _ => 0);
    Worker(map[], map[], zeros, zeros, [], 0, 0, 0, 0, [])
  }

  lemma {:induction false} RunPrefixes(env: Env, w: Worker, es: seq<Event>, n: nat)
    requires ValidRun(env, w, es) && n <= |es|
    ensures ValidRun(env, w, es[..n])
    decreases |es|
  {
    if n < |es| {
      var m := |es| - 1;
      RunPrefixes(env, w, es[..m], n);
      assert es[..m][..n] == es[..n];
    } else {
      assert es[..n] == es;
    }
  }
}
