/** What one search returns and what every finished search is bounded by, in terms of the
    request and the backends alone. */
module CachedSearch {
  import opened Sequences
  import opened ResultCache

  // ---------------------------------------------------------------------------
  // Blank queries and keys
  // ---------------------------------------------------------------------------

  ghost predicate AllSpace(space: char -> bool, s: string) {
    forall i :: 0 <= i < |s| ==> space(s[i])
  }

  /** The text t with blanks added at both ends is s. */
  ghost predicate BlanksAround(space: char -> bool, s: string, before: string, t: string, after: string) {
    s == before + t + after && AllSpace(space, before) && AllSpace(space, after)
  }

  lemma BlankInFront(space: char -> bool, s: string, before: string, t: string, after: string)
    requires s != "" && space(s[0]) && BlanksAround(space, s[1..], before, t, after)
    ensures BlanksAround(space, s, [s[0]] + before, t, after)
  {
    assert s == [s[0]] + s[1..];
    assert [s[0]] + (before + t + after) == ([s[0]] + before) + t + after;
  }

  lemma BlankBehind(space: char -> bool, s: string, before: string, t: string, after: string)
    requires s != "" && space(s[|s| - 1]) && BlanksAround(space, s[..|s| - 1], before, t, after)
    ensures BlanksAround(space, s, before, t, after + [s[|s| - 1]])
  {
    assert s == s[..|s| - 1] + [s[|s| - 1]];
    assert (before + t + after) + [s[|s| - 1]] == before + t + (after + [s[|s| - 1]]);
  }

  /** str.strip removes blanks from both ends and nothing else. */
  lemma {:induction false} StripRemovesBlanks(space: char -> bool, s: string) returns (before: string, after: string)
    ensures s == before + Strip(space, s) + after && AllSpace(space, before) && AllSpace(space, after)
    decreases |s|
  {
    before, after := "", "";
    if s != "" && space(s[0]) {
      before, after := StripRemovesBlanks(space, s[1..]);
      BlankInFront(space, s, before, Strip(space, s[1..]), after);
      before := [s[0]] + before;
    } else if s != "" && space(s[|s| - 1]) {
      before, after := StripRemovesBlanks(space, s[..|s| - 1]);
      BlankBehind(space, s, before, Strip(space, s[..|s| - 1]), after);
      after := after + [s[|s| - 1]];
    }
  }

  /** Nothing is left exactly of a blank text. */
  lemma StripIsEmptyExactly(space: char -> bool, s: string)
    ensures Strip(space, s) == "" <==> AllSpace(space, s)
  {
    var before, after := StripRemovesBlanks(space, s);
    hide Strip;
    var t := Strip(space, s);
    if t == "" {
      assert s == before + after;
      SpaceConcat(space, before, after);
    } else {
      assert s[|before|] == t[0];
    }
  }

  lemma SpaceConcat(space: char -> bool, s: string, t: string)
    ensures AllSpace(space, s + t) <==> AllSpace(space, s) && AllSpace(space, t)
  {
    assert forall i :: 0 <= i < |t| ==> (s + t)[|s| + i] == t[i];
    assert forall i :: 0 <= i < |s| ==> (s + t)[i] == s[i];
  }

  /** The key of a request: the digest of stripped query, lower-cased mode and top_k, with
      the pipeline's mode for a missing or empty one. */
  lemma KeyOfRequest(p: Pipeline, query: string, mode: Option<string>, n: Option<int>)
    ensures var m := p.lower(if mode == None || mode == Some("") then p.defaultMode else mode.value);
            CacheKey(p, Request(query, mode, 10, n))
            == "vectorlift:search:" + p.digest(Strip(p.space, query) + "|" + m + "|10")
  {
    assert Decimal(1) == "1" && IntToString(10) == "10";
    var m := ModeOf(p, Request(query, mode, 10, n));
    var front := Strip(p.space, query) + "|" + m;
    assert front + "|" + "10" == front + "|10";
  }

  // ---------------------------------------------------------------------------
  // One search
  // ---------------------------------------------------------------------------

  /** The rows of a search that had to be computed. With a reranker: its answer for top_k
      over the requested candidates, three per result by default. Without: the first top_k
      of the retriever, numbered from 1. */
  ghost predicate FreshResult(p: Pipeline, req: Request, rows: seq<Row>) {
    if p.rerank.Some? then
      var n := if req.rerankTopN.Some? && req.rerankTopN.value != 0 then req.rerankTopN.value else 3 * req.topK;
      var candidates := p.retrieve(req.query, n);
      rows == if candidates == [] then [] else p.rerank.value(req.query, candidates, req.topK)
    else
      var candidates := p.retrieve(req.query, req.topK);
      && |rows| == (if req.topK >= |candidates| then |candidates|
                    else if req.topK >= 0 then req.topK
                    else if |candidates| + req.topK >= 0 then |candidates| + req.topK else 0)
      && forall i :: 0 <= i < |rows| ==> rows[i] == candidates[i].(rank := i + 1)
  }

  /** That is the uncached result to which the theorems on interleavings compare. */
  lemma FreshResultIsDirect(p: Pipeline, req: Request, rows: seq<Row>)
    ensures rows == Direct(p, req) <==> FreshResult(p, req, rows)
  {
    if FreshResult(p, req, rows) && p.rerank.None? {
      forall i | 0 <= i < |rows| ensures rows[i] == Direct(p, req)[i] {}
    }
  }

  /** The outcome of an undisturbed search for every cache and every failing call: an error
      for a blank query, stored rows when the cache has them, otherwise the fresh result,
      which is stored when the cache can be written. */
  lemma SearchOutcome(p: Pipeline, cache: map<string, Json>, req: Request, getOk: bool, computeOk: bool, setOk: bool)
    ensures var s := Run(p, State(cache, []), Alone(req, getOk, computeOk, setOk));
            var hit := p.caching && getOk && CacheKey(p, req) in cache && Deserialise(cache[CacheKey(p, req)]).Some?;
            && |s.searches| == 1 && s.searches[0].req == req
            && var phase := s.searches[0].phase;
               if AllSpace(p.space, req.query) then phase == Raised && s.cache == cache
               else if hit then phase == Done(Deserialise(cache[CacheKey(p, req)]).value) && s.cache == cache
               else if !computeOk then phase == Raised && s.cache == cache
               else
                 && phase.Done? && FreshResult(p, req, phase.rows)
                 && s.cache == if p.caching && setOk then cache[CacheKey(p, req) := Serialise(phase.rows)] else cache
  {
    StripIsEmptyExactly(p.space, req.query);
    assert Blank(p, req) <==> AllSpace(p.space, req.query);
    hide Run, Direct, CacheKey, Serialise, Deserialise, FreshResult, Strip, AllSpace, Blank, Alone;
    AloneOutcome(p, cache, req, getOk, computeOk, setOk);
    FreshResultIsDirect(p, req, Direct(p, req));
  }

  lemma AloneOutcome(p: Pipeline, cache: map<string, Json>, req: Request, getOk: bool, computeOk: bool, setOk: bool)
    ensures var s, key := Run(p, State(cache, []), Alone(req, getOk, computeOk, setOk)), CacheKey(p, req);
            var hit := Lookup(p, cache, key, getOk);
            s == if Blank(p, req) then State(cache, [InFlight(req, Raised)])
                 else if hit.Some? then State(cache, [InFlight(req, Done(hit.value))])
                 else if !computeOk then State(cache, [InFlight(req, Raised)])
                 else State(Store(p, cache, key, Direct(p, req), setOk), [InFlight(req, Done(Direct(p, req)))])
  {
    AloneUnfolds(p, cache, req, getOk, computeOk, setOk);
    hide Run, Direct, CacheKey, Blank, Lookup, Store;
  }

  /** A stored result is served again, whatever the backends would do. */
  lemma SecondSearchIsServed(p: Pipeline, cache: map<string, Json>, req: Request, computeOk: bool, setOk: bool)
    requires p.caching && !AllSpace(p.space, req.query)
    requires CacheKey(p, req) !in cache
    ensures var first := Run(p, State(cache, []), Alone(req, true, true, true));
            var second := Run(p, State(first.cache, []), Alone(req, true, computeOk, setOk));
            |first.searches| == |second.searches| == 1 && first.searches[0].phase.Done?
            && var rows := first.searches[0].phase.rows;
               (forall r :: r in rows ==> r.rank >= 1) ==>
                 second.searches[0].phase == Done(rows) && second.cache == first.cache
  {
    hide Run, FreshResult, AllSpace, CacheKey, Serialise, Deserialise, Storable;
    SearchOutcome(p, cache, req, true, true, true);
    var first := Run(p, State(cache, []), Alone(req, true, true, true));
    SearchOutcome(p, first.cache, req, true, computeOk, setOk);
    var rows := first.searches[0].phase.rows;
    PayloadRoundTrip(rows);
    StorableRanks(rows);
  }

  lemma StorableRanks(rows: seq<Row>)
    ensures Storable(rows) <==> forall r :: r in rows ==> r.rank >= 1
  {
  }

  // ---------------------------------------------------------------------------
  // Every interleaving returns at most top_k rows
  // ---------------------------------------------------------------------------

  /** A reranker returns at most as many rows as it is asked for. */
  ghost predicate KeepsToTopN(p: Pipeline) {
    p.rerank.Some? ==> forall query, rows, n :: n >= 0 ==> |p.rerank.value(query, rows, n)| <= n
  }

  ghost predicate Fits(req: Request, rows: seq<Row>) {
    req.topK >= 0 ==> |rows| <= req.topK
  }

  /** What a cache entry reads back as fits every request with that key. */
  ghost predicate EntryFits(p: Pipeline, key: string, payload: Json) {
    Deserialise(payload).Some? ==> forall a :: CacheKey(p, a) == key ==> Fits(a, Deserialise(payload).value)
  }

  ghost predicate AllFit(p: Pipeline, s: State) {
    && (forall i :: 0 <= i < |s.searches| && s.searches[i].phase.Computed? ==>
          Fits(s.searches[i].req, s.searches[i].phase.rows))
    && (forall i :: 0 <= i < |s.searches| && s.searches[i].phase.Done? ==>
          Fits(s.searches[i].req, s.searches[i].phase.rows))
    && (forall key :: key in s.cache ==> EntryFits(p, key, s.cache[key]))
  }

  lemma DirectFits(p: Pipeline, req: Request)
    requires KeepsToTopN(p)
    ensures Fits(req, Direct(p, req))
  {
    FreshResultIsDirect(p, req, Direct(p, req));
  }

  lemma StoredFits(p: Pipeline, req: Request, rows: seq<Row>)
    requires InjectiveDigest(p) && Fits(req, rows)
    ensures EntryFits(p, CacheKey(p, req), Serialise(rows))
  {
    hide CacheKey, InjectiveDigest, Serialise, Deserialise, Storable;
    PayloadRoundTrip(rows);
    if Deserialise(Serialise(rows)).Some? {
      forall a | CacheKey(p, a) == CacheKey(p, req) ensures Fits(a, rows) {
        SameKeySameCut(p, a, req);
      }
    }
  }

  lemma StepKeepsFits(p: Pipeline, s: State, e: Event)
    requires KeepsToTopN(p) && InjectiveDigest(p) && AllFit(p, s)
    ensures AllFit(p, Step(p, s, e))
  {
    hide Direct, CacheKey, Serialise, Deserialise, EntryFits, InjectiveDigest, KeepsToTopN, Fits;
    match e
    case Get(i, ok) =>
      if i < |s.searches| && s.searches[i].phase.Waiting? {
        LookupFits(p, s, s.searches[i].req, ok);
      }
    case Compute(i, ok) =>
      if i < |s.searches| { DirectFits(p, s.searches[i].req); }
    case Set(i, ok) =>
      if i < |s.searches| && s.searches[i].phase.Computed? {
        StoredFits(p, s.searches[i].req, s.searches[i].phase.rows);
      }
    case _ =>
  }

  lemma LookupFits(p: Pipeline, s: State, req: Request, ok: bool)
    requires AllFit(p, s)
    ensures var hit := Lookup(p, s.cache, CacheKey(p, req), ok); hit.Some? ==> Fits(req, hit.value)
  {
    hide CacheKey, Deserialise;
    var key := CacheKey(p, req);
    if key in s.cache { assert EntryFits(p, key, s.cache[key]); }
  }

  /** No search of any interleaving, cached or not, returns more than its top_k rows. */
  lemma {:induction false} ResultsFitTopK(p: Pipeline, es: seq<Event>)
    requires KeepsToTopN(p) && InjectiveDigest(p)
    ensures var s := Run(p, Empty, es);
            forall i :: 0 <= i < |s.searches| && s.searches[i].phase.Done? && s.searches[i].req.topK >= 0 ==>
              |s.searches[i].phase.rows| <= s.searches[i].req.topK
  {
    RunsFit(p, es);
  }

  lemma {:induction false} RunsFit(p: Pipeline, es: seq<Event>)
    requires KeepsToTopN(p) && InjectiveDigest(p)
    ensures AllFit(p, Run(p, Empty, es))
  {
    if es != [] {
      hide AllFit, Step, KeepsToTopN, InjectiveDigest;
      var n := |es| - 1;
      RunsFit(p, es[..n]);
      StepKeepsFits(p, Run(p, Empty, es[..n]), es[n]);
    }
  }
}
