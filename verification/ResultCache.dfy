/** The search pipeline and its Redis result cache: keys, serialised payloads, one
    search, and the interleavings of many. */
module ResultCache {
  import opened Sequences

  // ---------------------------------------------------------------------------
  // Results and their JSON payload
  // ---------------------------------------------------------------------------

  datatype Json =
    | JString(s: string)
    | JInt(i: int)
    | JReal(r: real)
    | JNull
    | JArray(items: seq<Json>)
    | JObject(fields: map<string, Json>)

  datatype Row = Row(id: string, text: string, title: string, score: real, rank: int,
                     metadata: map<string, Json>)

  function ToDict(r: Row): Json {
    JObject(map["passage_id" := JString(r.id), "text" := JString(r.text), "title" := JString(r.title),
                "score" := JReal(r.score), "rank" := JInt(r.rank), "metadata" := JObject(r.metadata)])
  }

  /** The constructor check of a retrieved row: ranks start at 1. */
  predicate Constructible(r: Row) { r.rank >= 1 }

  function Metadata(fields: map<string, Json>): Option<map<string, Json>> {
    if "metadata" !in fields || fields["metadata"].JNull? then Some(map[])
    else if fields["metadata"].JObject? then Some(fields["metadata"].fields)
    else None
  }

  /** None stands for an exception: a missing key, a wrong type or a rank below 1. */
  function FromDict(j: Json): Option<Row> {
    if j.JObject?
       && "passage_id" in j.fields && j.fields["passage_id"].JString?
       && "text" in j.fields && j.fields["text"].JString?
       && "title" in j.fields && j.fields["title"].JString?
       && "score" in j.fields && j.fields["score"].JReal?
       && "rank" in j.fields && j.fields["rank"].JInt?
       && Metadata(j.fields).Some?
    then
      var row := Row(j.fields["passage_id"].s, j.fields["text"].s, j.fields["title"].s, j.fields["score"].r,
                     j.fields["rank"].i, Metadata(j.fields).value);
      if Constructible(row) then Some(row) else None
    else None
  }

  function ToDicts(rows: seq<Row>): seq<Json> {
    if rows == [] then [] else ToDicts(rows[..|rows| - 1]) + [ToDict(rows[|rows| - 1])]
  }

  function FromDicts(items: seq<Json>): Option<seq<Row>> {
    if items == [] then Some([])
    else
      var before, last := FromDicts(items[..|items| - 1]), FromDict(items[|items| - 1]);
      if before.Some? && last.Some? then Some(before.value + [last.value]) else None
  }

  function Serialise(rows: seq<Row>): Json { JArray(ToDicts(rows)) }

  function Deserialise(payload: Json): Option<seq<Row>> {
    if payload.JArray? then FromDicts(payload.items) else None
  }

  predicate Storable(rows: seq<Row>) {
    forall r :: r in rows ==> Constructible(r)
  }

  /** A stored payload reads back as the rows it was made from exactly when every rank is
      at least 1; otherwise it does not read back at all. */
  lemma {:induction false} PayloadRoundTrip(rows: seq<Row>)
    ensures Deserialise(Serialise(rows)) == if Storable(rows) then Some(rows) else None
  {
    if rows != [] {
      var n := |rows| - 1;
      PayloadRoundTrip(rows[..n]);
      assert rows == rows[..n] + [rows[n]];
      assert ToDicts(rows)[..|ToDicts(rows)| - 1] == ToDicts(rows[..n]);
      RowRoundTrip(rows[n]);
      assert Storable(rows) <==> Storable(rows[..n]) && Constructible(rows[n]);
    }
  }

  lemma RowRoundTrip(r: Row)
    ensures FromDict(ToDict(r)) == if Constructible(r) then Some(r) else None
  {
  }

  // ---------------------------------------------------------------------------
  // Cache keys
  // ---------------------------------------------------------------------------

  datatype Request = Request(query: string, mode: Option<string>, topK: int, rerankTopN: Option<int>)

  /** What one pipeline is built from. `space` says which characters str.strip removes,
      `lower` and `digest` are the lower-casing and the SHA-256 hex digest it uses. */
  datatype Pipeline = Pipeline(
    retrieve: (string, int) -> seq<Row>,
    rerank: Option<(string, seq<Row>, int) -> seq<Row>>,
    caching: bool,
    defaultMode: string,
    space: char -> bool,
    lower: string -> string,
    digest: string -> string)

  predicate Trimmed(space: char -> bool, s: string) {
    s != "" ==> !space(s[0]) && !space(s[|s| - 1])
  }

  /** str.strip: leading and trailing blanks go. */
  function Strip(space: char -> bool, s: string): (t: string)
    ensures Trimmed(space, t)
    decreases |s|
  {
    if s == "" then ""
    else if space(s[0]) then Strip(space, s[1..])
    else if space(s[|s| - 1]) then Strip(space, s[..|s| - 1])
    else s
  }

  function Stripped(p: Pipeline, query: string): string { Strip(p.space, query) }

  function Digit(n: nat): char
    requires n < 10
  {
    ['0', '1', '2', '3', '4', '5', '6', '7', '8', '9'][n]
  }

  function Decimal(n: nat): string {
    if n < 10 then [Digit(n)] else Decimal(n / 10) + [Digit(n % 10)]
  }

  function IntToString(n: int): string {
    if n < 0 then "-" + Decimal(-n) else Decimal(n)
  }

  function RawKey(query: string, mode: string, topK: int): string {
    query + "|" + mode + "|" + IntToString(topK)
  }

  function ModeOf(p: Pipeline, req: Request): string {
    p.lower(if req.mode.Some? && req.mode.value != "" then req.mode.value else p.defaultMode)
  }

  function CacheKey(p: Pipeline, req: Request): string {
    "vectorlift:search:" + p.digest(RawKey(Stripped(p, req.query), ModeOf(p, req), req.topK))
  }

  lemma {:induction false} DecimalShape(n: nat)
    ensures Decimal(n) != [] && '|' !in Decimal(n) && '-' !in Decimal(n)
  {
    if n >= 10 { DecimalShape(n / 10); }
  }

  lemma {:induction false} DecimalInjective(m: nat, n: nat)
    requires Decimal(m) == Decimal(n)
    ensures m == n
  {
    var a, b := Decimal(m), Decimal(n);
    assert a[|a| - 1] == b[|b| - 1];
    if m >= 10 || n >= 10 {
      if m >= 10 { DecimalShape(m / 10); }
      if n >= 10 { DecimalShape(n / 10); }
      assert |a| > 1;
      assert a[..|a| - 1] == Decimal(m / 10) && b[..|b| - 1] == Decimal(n / 10);
      DecimalInjective(m / 10, n / 10);
    }
  }

  lemma IntToStringInjective(m: int, n: int)
    requires IntToString(m) == IntToString(n)
    ensures m == n
  {
    SignShows(m);
    SignShows(n);
    if m < 0 {
      assert IntToString(m)[1..] == Decimal(-m) && IntToString(n)[1..] == Decimal(-n);
      DecimalInjective(-m, -n);
    } else {
      DecimalInjective(m, n);
    }
  }

  lemma SignShows(n: int)
    ensures IntToString(n) != [] && (IntToString(n)[0] == '-' <==> n < 0)
  {
    DecimalShape(if n < 0 then -n else n);
    if n >= 0 { assert Decimal(n)[0] in Decimal(n); }
  }

  lemma LastSeparator(a: string, b: string)
    requires '|' !in b
    ensures var s := a + "|" + b;
            s[|a|] == '|' && forall i :: |a| < i < |s| ==> s[i] != '|'
  {
    var s := a + "|" + b;
    forall i | |a| < i < |s| ensures s[i] != '|' {
      assert s[i] == b[i - |a| - 1];
    }
  }

  /** Text before the last separator and text after it are determined. */
  lemma SplitAtLast(a: string, b: string, a': string, b': string)
    requires a + "|" + b == a' + "|" + b' && '|' !in b && '|' !in b'
    ensures a == a' && b == b'
  {
    var s, s' := a + "|" + b, a' + "|" + b';
    LastSeparator(a, b);
    LastSeparator(a', b');
    assert |a| == |a'|;
    assert s[..|a|] == a && s'[..|a'|] == a';
    assert s[|a| + 1..] == b && s'[|a'| + 1..] == b';
  }

  /** Mode m ends with a separator and mode m', and what stands before that separator can
      be the end of a stripped query. */
  predicate EndsInMode(space: char -> bool, m: string, m': string) {
    var i := |m| - |m'| - 1;
    i >= 0 && m[i..] == "|" + m' && (i == 0 || !space(m[i - 1]))
  }

  predicate Clash(space: char -> bool, m: string, m': string) {
    EndsInMode(space, m, m') || EndsInMode(space, m', m)
  }

  /** Two raw keys of stripped queries agree on top_k, on the query when the mode is the
      same, and for different modes only when these clash. */
  lemma RawKeysAgree(space: char -> bool, q: string, m: string, k: int, q': string, m': string, k': int)
    requires RawKey(q, m, k) == RawKey(q', m', k') && Trimmed(space, q) && Trimmed(space, q')
    ensures k == k' && (m == m' ==> q == q')
    ensures m != m' ==> Clash(space, m, m')
  {
    NoSeparator(k);
    NoSeparator(k');
    SplitAtLast(q + "|" + m, IntToString(k), q' + "|" + m', IntToString(k'));
    IntToStringInjective(k, k');
    if |m| > |m'| {
      LongerModeEnds(space, q, m, q', m');
    } else if |m| < |m'| {
      LongerModeEnds(space, q', m', q, m);
    } else {
      SameLengthModes(q, m, q', m');
    }
  }

  lemma SameLengthModes(q: string, m: string, q': string, m': string)
    requires q + "|" + m == q' + "|" + m' && |m| == |m'|
    ensures q == q' && m == m'
  {
    var s, s' := q + "|" + m, q' + "|" + m';
    assert |q| == |q'|;
    assert s[..|q|] == q && s'[..|q|] == q' && s[|q| + 1..] == m && s'[|q| + 1..] == m';
  }

  lemma LongerModeEnds(space: char -> bool, q: string, m: string, q': string, m': string)
    requires q + "|" + m == q' + "|" + m' && |m| > |m'| && Trimmed(space, q')
    ensures EndsInMode(space, m, m')
  {
    var s, s' := q + "|" + m, q' + "|" + m';
    var i := |m| - |m'| - 1;
    assert |q'| == |q| + 1 + i;
    assert s[|q'|..] == m[i..] && s'[|q'|..] == "|" + m';
    if i > 0 {
      assert s[|q'| - 1] == m[i - 1] && s'[|q'| - 1] == q'[|q'| - 1];
    }
  }

  lemma NoSeparator(k: int)
    ensures '|' !in IntToString(k)
  {
    DecimalShape(if k < 0 then -k else k);
  }

  // ---------------------------------------------------------------------------
  // One search
  // ---------------------------------------------------------------------------

  predicate Blank(p: Pipeline, req: Request) { req.query == "" || Stripped(p, req.query) == "" }

  function FetchK(p: Pipeline, req: Request): int {
    if p.rerank.None? then req.topK
    else if req.rerankTopN.Some? && req.rerankTopN.value != 0 then req.rerankTopN.value
    else req.topK * 3
  }

  function Renumber(rows: seq<Row>): (out: seq<Row>)
    ensures |out| == |rows|
  {
    seq(|rows|, i requires 0 <= i < |rows| => rows[i].(rank := i + 1))
  }

  /** What the pipeline computes without a cache. */
  function Direct(p: Pipeline, req: Request): seq<Row> {
    var results := p.retrieve(req.query, FetchK(p, req));
    if p.rerank.Some? && results != [] then p.rerank.value(req.query, results, req.topK)
    else Renumber(Prefix(results, req.topK))
  }

  // ---------------------------------------------------------------------------
  // Concurrent searches
  // ---------------------------------------------------------------------------

  datatype Phase = Waiting | Missed | Computed(rows: seq<Row>) | Done(rows: seq<Row>) | Raised

  datatype InFlightSearch = InFlight(req: Request, phase: Phase)

  datatype State = State(cache: map<string, Json>, searches: seq<InFlightSearch>)

  /** A step of one search, with whether its call succeeds, or the expiry of a key. */
  datatype Event =
    | Submit(req: Request)
    | Get(i: nat, ok: bool)
    | Compute(i: nat, ok: bool)
    | Set(i: nat, ok: bool)
    | Expire(key: string)

  function Lookup(p: Pipeline, cache: map<string, Json>, key: string, ok: bool): Option<seq<Row>> {
    if p.caching && ok && key in cache then Deserialise(cache[key]) else None
  }

  function Store(p: Pipeline, cache: map<string, Json>, key: string, rows: seq<Row>, ok: bool): map<string, Json> {
    if p.caching && ok then cache[key := Serialise(rows)] else cache
  }

  function SetPhase(s: State, i: nat, phase: Phase): State
    requires i < |s.searches|
  {
    s.(searches := s.searches[i := s.searches[i].(phase := phase)])
  }

  function Step(p: Pipeline, s: State, e: Event): State {
    match e
    case Submit(req) =>
      s.(searches := s.searches + [InFlight(req, if Blank(p, req) then Raised else Waiting)])
    case Get(i, ok) =>
      if i < |s.searches| && s.searches[i].phase.Waiting? then
        var hit := Lookup(p, s.cache, CacheKey(p, s.searches[i].req), ok);
        SetPhase(s, i, if hit.Some? then Done(hit.value) else Missed)
      else s
    case Compute(i, ok) =>
      if i < |s.searches| && s.searches[i].phase.Missed? then
        SetPhase(s, i, if ok then Computed(Direct(p, s.searches[i].req)) else Raised)
      else s
    case Set(i, ok) =>
      if i < |s.searches| && s.searches[i].phase.Computed? then
        var rows := s.searches[i].phase.rows;
        SetPhase(s.(cache := Store(p, s.cache, CacheKey(p, s.searches[i].req), rows, ok)), i, Done(rows))
      else s
    case Expire(key) => s.(cache := s.cache - {key})
  }

  function Run(p: Pipeline, s: State, es: seq<Event>): State {
    if es == [] then s else Step(p, Run(p, s, es[..|es| - 1]), es[|es| - 1])
  }

  const Empty := State(map[], [])

  ghost predicate SubmitsOnly(es: seq<Event>, reqs: set<Request>) {
    forall e :: e in es && e.Submit? ==> e.req in reqs
  }

  /** Every finished search returned what the pipeline computes without a cache. */
  ghost predicate Transparent(p: Pipeline, s: State) {
    forall i :: 0 <= i < |s.searches| && s.searches[i].phase.Done? ==>
      s.searches[i].phase.rows == Direct(p, s.searches[i].req)
  }

  predicate SameEntry(p: Pipeline, a: Request, b: Request) {
    !Blank(p, a) && !Blank(p, b) && CacheKey(p, a) == CacheKey(p, b)
  }

  /** Requests that share a cache key have the same result. */
  ghost predicate KeysDetermineResults(p: Pipeline, reqs: set<Request>) {
    forall a, b :: a in reqs && b in reqs && SameEntry(p, a, b) && Storable(Direct(p, a)) ==>
      Direct(p, a) == Direct(p, b)
  }

  /** What a cache entry can be: the stored result of some request with that key. */
  ghost predicate StoredFrom(p: Pipeline, key: string, payload: Json, a: Request) {
    !Blank(p, a) && CacheKey(p, a) == key && payload == Serialise(Direct(p, a))
  }

  ghost predicate WellStaged(p: Pipeline, search: InFlightSearch, reqs: set<Request>) {
    && search.req in reqs
    && (Blank(p, search.req) ==> search.phase.Raised?)
    && (search.phase.Computed? ==> search.phase.rows == Direct(p, search.req))
  }

  ghost predicate Coherent(p: Pipeline, s: State, reqs: set<Request>) {
    && Transparent(p, s)
    && (forall i :: 0 <= i < |s.searches| ==> WellStaged(p, s.searches[i], reqs))
    && (forall key :: key in s.cache ==> exists a :: a in reqs && StoredFrom(p, key, s.cache[key], a))
  }

  lemma LookupIsDirect(p: Pipeline, s: State, reqs: set<Request>, req: Request, ok: bool)
    requires Coherent(p, s, reqs) && KeysDetermineResults(p, reqs) && req in reqs && !Blank(p, req)
    ensures var hit := Lookup(p, s.cache, CacheKey(p, req), ok); hit.Some? ==> hit.value == Direct(p, req)
  {
    hide Direct, Serialise, Deserialise, CacheKey, Storable, Transparent, WellStaged;
    var key := CacheKey(p, req);
    if key in s.cache {
      var a :| a in reqs && StoredFrom(p, key, s.cache[key], a);
      PayloadRoundTrip(Direct(p, a));
    }
  }

  lemma StepKeepsCoherent(p: Pipeline, s: State, e: Event, reqs: set<Request>)
    requires Coherent(p, s, reqs) && KeysDetermineResults(p, reqs) && (e.Submit? ==> e.req in reqs)
    ensures Coherent(p, Step(p, s, e), reqs)
  {
    hide Direct, Lookup, CacheKey, Serialise, KeysDetermineResults;
    match e
    case Get(i, ok) =>
      if i < |s.searches| && s.searches[i].phase.Waiting? {
        LookupIsDirect(p, s, reqs, s.searches[i].req, ok);
      }
    case Set(i, ok) =>
      if i < |s.searches| && s.searches[i].phase.Computed? {
        var req := s.searches[i].req;
        assert StoredFrom(p, CacheKey(p, req), Serialise(Direct(p, req)), req);
      }
    case _ =>
  }

  lemma {:induction false} RunsStayCoherent(p: Pipeline, es: seq<Event>, reqs: set<Request>)
    requires KeysDetermineResults(p, reqs) && SubmitsOnly(es, reqs)
    ensures Coherent(p, Run(p, Empty, es), reqs)
  {
    if es != [] {
      hide Coherent, KeysDetermineResults, Step;
      var n := |es| - 1;
      assert es[n] in es;
      assert forall e :: e in es[..n] ==> e in es;
      RunsStayCoherent(p, es[..n], reqs);
      StepKeepsCoherent(p, Run(p, Empty, es[..n]), es[n], reqs);
    } else {
      EmptyCoherent(p, reqs);
    }
  }

  lemma EmptyCoherent(p: Pipeline, reqs: set<Request>)
    ensures Coherent(p, Empty, reqs)
  {
  }

  /** Request a is served and stored, then b asks under the same key. */
  function StaleRun(a: Request, b: Request): seq<Event> {
    [Submit(a), Get(0, true), Compute(0, true), Set(0, true), Submit(b), Get(1, true)]
  }

  lemma StaleRunReturnsOther(p: Pipeline, a: Request, b: Request)
    requires p.caching && !Blank(p, a) && !Blank(p, b)
    requires CacheKey(p, a) == CacheKey(p, b) && Storable(Direct(p, a))
    ensures var s := Run(p, Empty, StaleRun(a, b));
            |s.searches| == 2 && s.searches[1] == InFlight(b, Done(Direct(p, a)))
  {
    hide Direct, CacheKey;
    PayloadRoundTrip(Direct(p, a));
    var es := StaleRun(a, b);
    assert es[..5] == [Submit(a), Get(0, true), Compute(0, true), Set(0, true), Submit(b)];
    assert es[..5][..4] == [Submit(a), Get(0, true), Compute(0, true), Set(0, true)];
    assert es[..5][..4][..3] == [Submit(a), Get(0, true), Compute(0, true)];
    assert es[..5][..4][..3][..2] == [Submit(a), Get(0, true)];
    assert es[..5][..4][..3][..2][..1] == [Submit(a)];
    var s1 := Step(p, Empty, Submit(a));
    var s2 := Step(p, s1, Get(0, true));
    var s3 := Step(p, s2, Compute(0, true));
    var s4 := Step(p, s3, Set(0, true));
    var s5 := Step(p, s4, Submit(b));
    assert Run(p, Empty, [Submit(a)]) == s1;
    assert Run(p, Empty, [Submit(a), Get(0, true)]) == s2;
    assert Run(p, Empty, es[..5][..4][..3]) == s3;
    assert Run(p, Empty, es[..5][..4]) == s4;
    assert Run(p, Empty, es[..5]) == s5;
  }

  ghost predicate AlwaysTransparent(p: Pipeline, reqs: set<Request>) {
    forall es :: SubmitsOnly(es, reqs) ==> Transparent(p, Run(p, Empty, es))
  }

  /** Two stored requests with one key and different results: one of them is served the
      result of the other. */
  lemma DifferentResultsGoStale(p: Pipeline, a: Request, b: Request, reqs: set<Request>)
    requires p.caching && a in reqs && b in reqs && SameEntry(p, a, b)
    requires Storable(Direct(p, a)) && Direct(p, a) != Direct(p, b)
    ensures !AlwaysTransparent(p, reqs)
  {
    hide Direct, CacheKey, Storable, Run;
    StaleRunReturnsOther(p, a, b);
    assert SubmitsOnly(StaleRun(a, b), reqs);
    assert !Transparent(p, Run(p, Empty, StaleRun(a, b)));
  }

  /** Over a set of requests, every interleaving of searches, cache failures and expiries
      is transparent exactly when requests that share a key share their result. */
  lemma TransparencyExactly(p: Pipeline, reqs: set<Request>)
    requires p.caching
    ensures AlwaysTransparent(p, reqs) <==> KeysDetermineResults(p, reqs)
  {
    hide Direct, CacheKey, Storable, Run, SameEntry, Transparent, Coherent;
    if KeysDetermineResults(p, reqs) {
      CoherentIsTransparent(p, reqs);
    } else {
      var a, b :| a in reqs && b in reqs && SameEntry(p, a, b) && Storable(Direct(p, a))
        && Direct(p, a) != Direct(p, b);
      DifferentResultsGoStale(p, a, b, reqs);
    }
  }

  lemma CoherentIsTransparent(p: Pipeline, reqs: set<Request>)
    requires KeysDetermineResults(p, reqs)
    ensures AlwaysTransparent(p, reqs)
  {
    hide KeysDetermineResults, Run;
    forall es | SubmitsOnly(es, reqs) ensures Transparent(p, Run(p, Empty, es)) {
      RunsStayCoherent(p, es, reqs);
    }
  }

  /** The retriever and the reranker only look at the stripped query. */
  ghost predicate StripInsensitive(p: Pipeline) {
    && (forall q, q', k :: Stripped(p, q) == Stripped(p, q') ==> p.retrieve(q, k) == p.retrieve(q', k))
    && (p.rerank.Some? ==>
          forall q, q', rows, k :: Stripped(p, q) == Stripped(p, q') ==>
            p.rerank.value(q, rows, k) == p.rerank.value(q', rows, k))
  }

  ghost predicate InjectiveDigest(p: Pipeline) {
    forall x, y :: p.digest(x) == p.digest(y) ==> x == y
  }

  /** The cache key of a request fixes what the backends are asked: any two requests that
      share one have the same stripped query and fetch the same number of candidates. */
  ghost predicate KeyFixesWork(p: Pipeline, reqs: set<Request>) {
    forall a, b :: a in reqs && b in reqs && SameEntry(p, a, b) ==>
      Stripped(p, a.query) == Stripped(p, b.query) && FetchK(p, a) == FetchK(p, b)
  }

  /** Cache transparency: with an injective digest, backends that only look at the stripped
      query and keys that fix the work, every search of every interleaving returns exactly
      what the pipeline without a cache returns. */
  lemma CacheIsTransparent(p: Pipeline, reqs: set<Request>)
    requires StripInsensitive(p) && InjectiveDigest(p) && KeyFixesWork(p, reqs)
    ensures AlwaysTransparent(p, reqs)
  {
    forall a, b | a in reqs && b in reqs && SameEntry(p, a, b) && Storable(Direct(p, a))
      ensures Direct(p, a) == Direct(p, b)
    {
      SameKeySameCut(p, a, b);
    }
    CoherentIsTransparent(p, reqs);
  }

  lemma SameKeySameCut(p: Pipeline, a: Request, b: Request)
    requires InjectiveDigest(p) && CacheKey(p, a) == CacheKey(p, b)
    ensures a.topK == b.topK
  {
    SameRawKey(p, a, b);
    RawKeysAgree(p.space, Stripped(p, a.query), ModeOf(p, a), a.topK, Stripped(p, b.query), ModeOf(p, b), b.topK);
  }

  lemma SameRawKey(p: Pipeline, a: Request, b: Request)
    requires InjectiveDigest(p) && CacheKey(p, a) == CacheKey(p, b)
    ensures RawKey(Stripped(p, a.query), ModeOf(p, a), a.topK) == RawKey(Stripped(p, b.query), ModeOf(p, b), b.topK)
  {
    var x := p.digest(RawKey(Stripped(p, a.query), ModeOf(p, a), a.topK));
    var y := p.digest(RawKey(Stripped(p, b.query), ModeOf(p, b), b.topK));
    var prefix := "vectorlift:search:";
    assert (prefix + x)[|prefix|..] == x && (prefix + y)[|prefix|..] == y;
  }

  /** The same pipeline with other backends. */
  function WithBackends(p: Pipeline, retrieve: (string, int) -> seq<Row>,
                        rerank: (string, seq<Row>, int) -> seq<Row>): Pipeline
  {
    p.(retrieve := retrieve, rerank := Some(rerank))
  }

  /** For a pipeline with a reranker this is exact: over all backends that only look at the
      stripped query, the cache is transparent for a set of requests exactly when their keys
      fix the work. */
  lemma TransparentForAllBackendsExactly(p: Pipeline, reqs: set<Request>)
    requires p.caching && p.rerank.Some? && InjectiveDigest(p)
    ensures (forall retrieve, rerank ::
               StripInsensitive(WithBackends(p, retrieve, rerank)) ==> AlwaysTransparent(WithBackends(p, retrieve, rerank), reqs))
            <==> KeyFixesWork(p, reqs)
  {
    hide AlwaysTransparent, Direct, Storable, StripInsensitive, InjectiveDigest;
    if KeyFixesWork(p, reqs) {
      forall retrieve, rerank | StripInsensitive(WithBackends(p, retrieve, rerank))
        ensures AlwaysTransparent(WithBackends(p, retrieve, rerank), reqs)
      {
        SameKeysWith(p, retrieve, rerank, reqs);
        CacheIsTransparent(WithBackends(p, retrieve, rerank), reqs);
      }
    } else {
      var a, b :| a in reqs && b in reqs && SameEntry(p, a, b)
        && (Stripped(p, a.query) != Stripped(p, b.query) || FetchK(p, a) != FetchK(p, b));
      var echo := Echo(p);
      EchoTellsApart(p, a, b);
      DifferentResultsGoStale(echo, a, b, reqs);
    }
  }

  lemma SameKeysWith(p: Pipeline, retrieve: (string, int) -> seq<Row>, rerank: (string, seq<Row>, int) -> seq<Row>,
                     reqs: set<Request>)
    requires p.rerank.Some? && KeyFixesWork(p, reqs) && InjectiveDigest(p)
    ensures KeyFixesWork(WithBackends(p, retrieve, rerank), reqs) && InjectiveDigest(WithBackends(p, retrieve, rerank))
  {
    var p' := WithBackends(p, retrieve, rerank);
    forall a, b | a in reqs && b in reqs && SameEntry(p', a, b)
      ensures Stripped(p', a.query) == Stripped(p', b.query) && FetchK(p', a) == FetchK(p', b)
    {
      assert SameEntry(p, a, b);
    }
  }

  /** Backends that answer with the stripped query and the number of candidates. */
  function Echo(p: Pipeline): Pipeline {
    WithBackends(p, (q, n) => [Row(Strip(p.space, q), "", "", n as real, 1, map[])], (q, rows, k) => rows)
  }

  lemma EchoTellsApart(p: Pipeline, a: Request, b: Request)
    requires p.rerank.Some? && SameEntry(p, a, b)
    ensures var echo := Echo(p);
            && StripInsensitive(echo) && SameEntry(echo, a, b) && Storable(Direct(echo, a))
            && (Stripped(p, a.query) != Stripped(p, b.query) || FetchK(p, a) != FetchK(p, b) ==>
                  Direct(echo, a) != Direct(echo, b))
  {
    var echo := Echo(p);
    assert FetchK(echo, a) == FetchK(p, a) && FetchK(echo, b) == FetchK(p, b);
    var x, y := Direct(echo, a), Direct(echo, b);
    assert x == [Row(Stripped(p, a.query), "", "", FetchK(p, a) as real, 1, map[])];
    assert y == [Row(Stripped(p, b.query), "", "", FetchK(p, b) as real, 1, map[])];
    if x == y { assert x[0].id == y[0].id && x[0].score == y[0].score; }
  }

  predicate SameQuestion(p: Pipeline, a: Request, b: Request) {
    Stripped(p, a.query) == Stripped(p, b.query) && ModeOf(p, a) == ModeOf(p, b) && a.topK == b.topK
  }

  /** Requests as the callers send them: modes that do not clash, as the three valid ones,
      and one candidate count per query, mode and top_k (it is not part of the key). */
  ghost predicate Uniform(p: Pipeline, reqs: set<Request>) {
    && (forall a, b :: a in reqs && b in reqs ==> !Clash(p.space, ModeOf(p, a), ModeOf(p, b)))
    && (forall a, b :: a in reqs && b in reqs && SameQuestion(p, a, b) ==> FetchK(p, a) == FetchK(p, b))
  }

  /** Such requests have keys that fix the work. */
  lemma UniformKeysFixWork(p: Pipeline, reqs: set<Request>)
    requires InjectiveDigest(p) && Uniform(p, reqs)
    ensures KeyFixesWork(p, reqs)
  {
    hide Clash, CacheKey, InjectiveDigest, Stripped, ModeOf, FetchK;
    forall a, b | a in reqs && b in reqs && SameEntry(p, a, b)
      ensures Stripped(p, a.query) == Stripped(p, b.query) && FetchK(p, a) == FetchK(p, b)
    {
      SameKeySameRequest(p, a, b);
    }
  }

  lemma SameKeySameRequest(p: Pipeline, a: Request, b: Request)
    requires InjectiveDigest(p) && CacheKey(p, a) == CacheKey(p, b)
    requires !Clash(p.space, ModeOf(p, a), ModeOf(p, b))
    ensures Stripped(p, a.query) == Stripped(p, b.query) && ModeOf(p, a) == ModeOf(p, b) && a.topK == b.topK
  {
    SameRawKey(p, a, b);
    RawKeysAgree(p.space, Stripped(p, a.query), ModeOf(p, a), a.topK, Stripped(p, b.query), ModeOf(p, b), b.topK);
  }

  /** Two different modes have requests with a common key exactly when they clash. */
  lemma KeysCollideExactly(p: Pipeline, m: string, m': string)
    requires InjectiveDigest(p) && m != m' && !p.space('|') && !p.space('a')
    requires p.lower(m) == m != "" && p.lower(m') == m' != ""
    ensures (exists a, b :: ModeOf(p, a) == m && ModeOf(p, b) == m' && SameEntry(p, a, b))
            <==> Clash(p.space, m, m')
  {
    if EndsInMode(p.space, m, m') {
      ClashingRequests(p, m, m');
    } else if EndsInMode(p.space, m', m) {
      ClashingRequests(p, m', m);
    } else if a, b :| ModeOf(p, a) == m && ModeOf(p, b) == m' && SameEntry(p, a, b) {
      SameKeySameRequest(p, a, b);
    }
  }

  lemma ClashingRequests(p: Pipeline, m: string, m': string)
    requires EndsInMode(p.space, m, m') && !p.space('|') && !p.space('a')
    requires p.lower(m) == m != "" && p.lower(m') == m' != ""
    ensures exists a, b :: ModeOf(p, a) == m && ModeOf(p, b) == m' && SameEntry(p, a, b)
    ensures exists a, b :: ModeOf(p, a) == m' && ModeOf(p, b) == m && SameEntry(p, a, b)
  {
    var i := |m| - |m'| - 1;
    var longer := "a|" + m[..i];
    assert Trimmed(p.space, longer);
    var a, b := Request("a", Some(m), 10, None), Request(longer, Some(m'), 10, None);
    assert m == m[..i] + ("|" + m');
    assert "a" + "|" + m == longer + "|" + m';
    assert SameEntry(p, a, b) && SameEntry(p, b, a);
  }

  /** The query " a " in mode "x|bm25" and the query "a|x" in mode "bm25" share a key. */
  lemma SeparatorInModeCollides(p: Pipeline)
    requires p.space(' ') && !p.space('a') && !p.space('x')
    requires p.lower("x|bm25") == "x|bm25" && p.lower("bm25") == "bm25"
    ensures SameEntry(p, Request(" a ", Some("x|bm25"), 10, None), Request("a|x", Some("bm25"), 10, None))
  {
    assert " a "[1..] == "a " && "a "[..1] == "a";
    assert Stripped(p, " a ") == Strip(p.space, "a ") == Strip(p.space, "a") == "a";
    assert "a" + "|" + "x|bm25" == "a|x" + "|" + "bm25";
  }

  /** Two requests that differ only in rerank_top_n always share a key, so a set that
      holds both is served transparently only if the extra candidates change nothing. */
  lemma CandidateCountIsNotInTheKey(p: Pipeline, a: Request, n: Option<int>)
    requires p.caching && !Blank(p, a) && Storable(Direct(p, a))
    requires Direct(p, a) != Direct(p, a.(rerankTopN := n))
    ensures !AlwaysTransparent(p, {a, a.(rerankTopN := n)})
  {
    DifferentResultsGoStale(p, a, a.(rerankTopN := n), {a, a.(rerankTopN := n)});
  }

  // ---------------------------------------------------------------------------
  // The pipeline object
  // ---------------------------------------------------------------------------

  class SearchPipeline {
    const p: Pipeline
    var cache: map<string, Json>

    constructor (p: Pipeline)
      ensures this.p == p && cache == map[]
    {
      this.p := p;
      cache := map[];
    }

    method CacheGet(key: string, ok: bool) returns (hit: Option<seq<Row>>)
      ensures hit == Lookup(p, cache, key, ok)
    {
      if !p.caching || !ok {
        return None;
      }
      if key !in cache {
        return None;
      }
      return Deserialise(cache[key]);
    }

    method CacheSet(key: string, rows: seq<Row>, ok: bool)
      modifies this`cache
      ensures cache == Store(p, old(cache), key, rows, ok)
    {
      if !p.caching {
        return;
      }
      var serialised := Serialise(rows);
      if ok {
        cache := cache[key := serialised];
      }
    }

    /** One search that no other interrupts: exactly the four steps of the machine. The
        flags say whether the Redis calls and the backends succeed; None is an exception. */
    method Search(req: Request, getOk: bool, computeOk: bool, setOk: bool) returns (r: Option<seq<Row>>)
      modifies this`cache
      ensures Run(p, State(old(cache), []), Alone(req, getOk, computeOk, setOk))
              == State(cache, [InFlight(req, if r.Some? then Done(r.value) else Raised)])
    {
      hide Serialise, Deserialise, CacheKey, Run, Blank;
      AloneUnfolds(p, cache, req, getOk, computeOk, setOk);
      if Blank(p, req) {
        return None;
      }
      var rerankCandidates := if req.rerankTopN.Some? && req.rerankTopN.value != 0
                              then req.rerankTopN.value else req.topK * 3;
      var key := CacheKey(p, req);
      var cached := CacheGet(key, getOk);
      if cached.Some? {
        return cached;
      }
      var fetchK := if p.rerank.Some? then rerankCandidates else req.topK;
      if !computeOk {
        return None;
      }
      var results := p.retrieve(req.query, fetchK);
      if p.rerank.Some? && results != [] {
        results := p.rerank.value(req.query, results, req.topK);
      } else {
        results := Prefix(results, req.topK);
        ghost var cut := results;
        for i := 0 to |results|
          invariant |results| == |cut|
          invariant forall j :: 0 <= j < |cut| ==> results[j] == if j < i then cut[j].(rank := j + 1) else cut[j]
        {
          results := results[i := results[i].(rank := i + 1)];
        }
        assert results == Renumber(cut);
      }
      CacheSet(key, results, setOk);
      return Some(results);
    }
  }

  function Alone(req: Request, getOk: bool, computeOk: bool, setOk: bool): seq<Event> {
    [Submit(req), Get(0, getOk), Compute(0, computeOk), Set(0, setOk)]
  }

  lemma AloneUnfolds(p: Pipeline, cache: map<string, Json>, req: Request, getOk: bool, computeOk: bool, setOk: bool)
    ensures Run(p, State(cache, []), Alone(req, getOk, computeOk, setOk))
            == Step(p, Step(p, Step(p, Step(p, State(cache, []), Submit(req)), Get(0, getOk)),
                            Compute(0, computeOk)), Set(0, setOk))
  {
    hide Step;
    var es := Alone(req, getOk, computeOk, setOk);
    assert es[..3] == [Submit(req), Get(0, getOk), Compute(0, computeOk)];
    assert es[..3][..2] == [Submit(req), Get(0, getOk)];
    assert es[..3][..2][..1] == [Submit(req)];
    assert es[..3][..2][..1][..0] == [];
    assert Run(p, State(cache, []), []) == State(cache, []);
    assert Run(p, State(cache, []), es[..3][..2][..1]) == Step(p, State(cache, []), Submit(req));
    assert Run(p, State(cache, []), es[..3][..2])
           == Step(p, Step(p, State(cache, []), Submit(req)), Get(0, getOk));
  }

  /** A reranker that prefers the second candidate: with one candidate it never sees it. */
  function Reranking(space: char -> bool, lower: string -> string, digest: string -> string): Pipeline {
    Pipeline((q, k) => if k >= 2 then [Hit("first"), Hit("second")] else [Hit("first")],
             Some((q, rows, k) => if |rows| >= 2 then [Hit("second")] else [Hit("first")]),
             true, "hybrid", space, lower, digest)
  }

  function Hit(id: string): Row { Row(id, "", "", 1.0, 1, map[]) }

  /** A search with one candidate fills the cache for one with two, which gets the wrong
      passage. */
  lemma CandidateCountGoesStale(space: char -> bool, lower: string -> string, digest: string -> string)
    requires !space('a')
    ensures var p := Reranking(space, lower, digest);
            var a, b := Request("a", None, 1, Some(1)), Request("a", None, 1, Some(2));
            var s := Run(p, Empty, StaleRun(a, b));
            |s.searches| == 2 && s.searches[1] == InFlight(b, Done([Hit("first")])) && Direct(p, b) == [Hit("second")]
  {
    var p := Reranking(space, lower, digest);
    var a, b := Request("a", None, 1, Some(1)), Request("a", None, 1, Some(2));
    assert Stripped(p, "a") == "a";
    StaleRunReturnsOther(p, a, b);
  }
}
