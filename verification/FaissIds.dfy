/** The id bookkeeping around the FAISS index: positions, ids and search results. Vector
    arithmetic is the library's; `search` receives what the library found. */
module FaissIds {
  import opened Sequences

  type Vector = seq<real>

  /** What the library returns for one neighbour: a position, or -1, and a score. */
  datatype Hit = Hit(idx: int, score: real)

  /** Positions by id after numbering ids from `offset`: the last occurrence wins. */
  function Positions(ids: seq<string>, offset: nat): map<string, nat> {
    if ids == [] then map[]
    else
      var n := |ids| - 1;
      Positions(ids[..n], offset)[ids[n] := offset + n]
  }

  /** The hits with their ids; the sentinel -1 is skipped. */
  function Found(idMap: seq<string>, hits: seq<Hit>): (out: seq<(string, real)>)
    requires forall h :: h in hits ==> h.idx < |idMap|
  {
    if hits == [] then []
    else
      var h := hits[|hits| - 1];
      Found(idMap, hits[..|hits| - 1]) + (if h.idx < 0 then [] else [(idMap[h.idx], h.score)])
  }

  class FaissIndex {
    var vectors: Option<seq<Vector>>     // the library's index, None before build
    var idMap: seq<string>
    var idToPos: map<string, nat>
    var populated: bool

    constructor ()
      ensures vectors == None && idMap == [] && idToPos == map[] && !populated
    {
      vectors, idMap, idToPos, populated := None, [], map[], false;
    }

    /** Ids and vectors stand side by side, and each known id maps to a position that
        holds it. */
    ghost predicate Aligned()
      reads this
    {
      && populated && vectors.Some? && |vectors.value| == |idMap|
      && idToPos == Positions(idMap, 0)
    }

    method Build(embeddings: seq<Vector>, ids: seq<string>) returns (r: Result<()>)
      modifies this
      ensures r.Ok? <==> |embeddings| == |ids|
      ensures r.Ok? ==> Aligned() && vectors == Some(embeddings) && idMap == ids
      ensures r.Err? ==> vectors == old(vectors) && idMap == old(idMap) && idToPos == old(idToPos)
                         && populated == old(populated)
    {
      if |embeddings| != |ids| {
        return Err("row count differs from id count");
      }
      vectors := Some(embeddings);
      idMap := ids;
      idToPos := map[];
      for i := 0 to |ids|
        invariant idToPos == Positions(ids[..i], 0)
        invariant idMap == ids && vectors == Some(embeddings)
      {
        assert ids[..i + 1][..i] == ids[..i];
        idToPos := idToPos[ids[i] := i];
      }
      assert ids[..|ids|] == ids;
      populated := true;
      return Ok(());
    }

    /** Adding fails only before build. The code does not compare the two lengths: an
        aligned index stays aligned exactly when they are equal. */
    method Add(embeddings: seq<Vector>, ids: seq<string>) returns (r: Result<()>)
      modifies this
      ensures r.Ok? <==> old(vectors.Some? && populated)
      ensures r.Ok? ==> vectors == Some(old(vectors).value + embeddings) && idMap == old(idMap) + ids && populated
                        && idToPos == old(idToPos) + Positions(ids, |old(idMap)|)
      ensures old(Aligned()) ==> (Aligned() <==> |embeddings| == |ids|)
      ensures r.Err? ==> vectors == old(vectors) && idMap == old(idMap) && idToPos == old(idToPos)
                         && populated == old(populated)
    {
      if vectors.None? || !populated {
        return Err("Call build() before add().");
      }
      var offset := |idMap|;
      ghost var before, places := idMap, idToPos;
      vectors := Some(vectors.value + embeddings);
      for i := 0 to |ids|
        invariant idMap == before + ids[..i]
        invariant idToPos == places + Positions(ids[..i], offset)
        invariant populated && vectors == Some(old(vectors).value + embeddings)
      {
        assert ids[..i + 1][..i] == ids[..i];
        idMap := idMap + [ids[i]];
        idToPos := idToPos[ids[i] := offset + i];
      }
      assert ids[..|ids|] == ids;
      PositionsGrow(before, ids);
      return Ok(());
    }

    /** The ids and scores of the library's hits, in order, without the sentinels; a hit
        beyond the id list, possible only when the index is out of step, raises. */
    method Search(hits: seq<Hit>) returns (r: Result<seq<(string, real)>>)
      requires forall h :: h in hits ==> h.idx >= -1
      ensures r.Ok? <==> vectors.Some? && populated && forall h :: h in hits ==> h.idx < |idMap|
      ensures r.Ok? ==> r.value == Found(idMap, hits)
      ensures Aligned() && (forall h :: h in hits ==> h.idx < |vectors.value|) ==> r.Ok?
    {
      if vectors.None? || !populated {
        return Err("FAISSIndex has not been built. Call build() first.");
      }
      var out: seq<(string, real)> := [];
      for i := 0 to |hits|
        invariant forall h :: h in hits[..i] ==> h.idx < |idMap|
        invariant out == Found(idMap, hits[..i])
      {
        assert hits[..i + 1][..i] == hits[..i];
        assert hits[i] in hits;
        if hits[i].idx != -1 {
          if hits[i].idx >= |idMap| {
            return Err("list index out of range");
          }
          out := out + [(idMap[hits[i].idx], hits[i].score)];
        }
      }
      assert hits[..|hits|] == hits;
      return Ok(out);
    }
  }

  /** Numbering a grown list in two steps gives the positions of numbering it at once, so
      `build` then `add` leaves the state of one `build`. */
  lemma {:induction false} PositionsGrow(ids: seq<string>, more: seq<string>)
    ensures Positions(ids + more, 0) == Positions(ids, 0) + Positions(more, |ids|)
  {
    if more == [] {
      assert ids + more == ids;
    } else {
      var n := |more| - 1;
      assert (ids + more)[..|ids| + n] == ids + more[..n];
      PositionsGrow(ids, more[..n]);
    }
  }

  /** The position map inverts the id list: it knows exactly the listed ids, at the
      position of their last occurrence. */
  lemma {:induction false} PositionsInvert(ids: seq<string>, id: string)
    ensures id in Positions(ids, 0) <==> id in ids
    ensures id in Positions(ids, 0) ==>
              var p := Positions(ids, 0)[id];
              p < |ids| && ids[p] == id && forall q :: p < q < |ids| ==> ids[q] != id
  {
    if ids != [] {
      var n := |ids| - 1;
      PositionsInvert(ids[..n], id);
      assert ids == ids[..n] + [ids[n]];
    }
  }

  /** The library pads a short answer with sentinels at the end: the result is then the m
      real hits in their order, each with the id at its position. */
  lemma FoundDropsPadding(idMap: seq<string>, hits: seq<Hit>, m: nat)
    requires m <= |hits|
    requires forall i :: 0 <= i < m ==> 0 <= hits[i].idx < |idMap|
    requires forall i :: m <= i < |hits| ==> hits[i].idx == -1
    ensures |Found(idMap, hits)| == m
    ensures forall k :: 0 <= k < m ==> Found(idMap, hits)[k] == (idMap[hits[k].idx], hits[k].score)
  {
    var known := hits[..m];
    hide Found;
    PaddingVanishes(idMap, hits, m);
    RealHitsFound(idMap, known);
    forall k | 0 <= k < m ensures Found(idMap, hits)[k] == (idMap[hits[k].idx], hits[k].score) {
      assert known[k] == hits[k];
    }
  }

  lemma {:induction false} PaddingVanishes(idMap: seq<string>, hits: seq<Hit>, m: nat)
    requires m <= |hits| && forall h :: h in hits ==> h.idx < |idMap|
    requires forall i :: m <= i < |hits| ==> hits[i].idx == -1
    ensures Found(idMap, hits) == Found(idMap, hits[..m])
  {
    if m == |hits| {
      assert hits[..m] == hits;
    } else {
      var n := |hits| - 1;
      assert Found(idMap, hits) == Found(idMap, hits[..n]);
      assert hits[..n][..m] == hits[..m];
      hide Found;
      PaddingVanishes(idMap, hits[..n], m);
    }
  }

  lemma {:induction false} RealHitsFound(idMap: seq<string>, hits: seq<Hit>)
    requires forall h :: h in hits ==> 0 <= h.idx < |idMap|
    ensures |Found(idMap, hits)| == |hits|
    ensures forall k :: 0 <= k < |hits| ==> Found(idMap, hits)[k] == (idMap[hits[k].idx], hits[k].score)
  {
    if hits != [] {
      var n := |hits| - 1;
      assert Found(idMap, hits) == Found(idMap, hits[..n]) + [(idMap[hits[n].idx], hits[n].score)];
      hide Found;
      RealHitsFound(idMap, hits[..n]);
    }
  }

  /** Incremental equals one-shot: results found before an add keep their ids after it, so
      an index grown by adds answers like one built at once. */
  lemma {:induction false} OldHitsKeepTheirIds(idMap: seq<string>, more: seq<string>, hits: seq<Hit>)
    requires forall h :: h in hits ==> h.idx < |idMap|
    ensures Found(idMap + more, hits) == Found(idMap, hits)
  {
    if hits != [] { OldHitsKeepTheirIds(idMap, more, hits[..|hits| - 1]); }
  }
}
