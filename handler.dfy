/**
 * The request handler of the similarity service: it embeds the request text,
 * asks the vector index for neighbours, keeps in the index's order every
 * neighbour whose score reaches the threshold, and reshapes each kept one
 * into a response item.
 */
module Handler {
  import opened Wrappers
  import opened Schemas

  /** Metadata key holding the incident's identifier. */
  const IdKey: string := "mongodb_id"

  /** Metadata key holding the incident's original text. */
  const TextKey: string := "text"

  /** Dictionary `get`: the value stored under `key`, or `None` when the key is missing. */
  function Get(metadata: map<string, string>, key: string): (r: Option<string>)
    ensures r.Some? <==> key in metadata
    ensures r.Some? ==> r.value == metadata[key]
  {
    if key in metadata then Some(metadata[key]) else None
  }

  /**
   * The response item built from one kept match: the score unchanged, the
   * identifier and the text read from the metadata, absent keys giving `None`.
   */
  function Reshape(m: Match): (r: SimilarIncident)
    ensures r.score == m.score
    ensures r.mongodbId.Some? <==> IdKey in m.metadata
    ensures r.mongodbId.Some? ==> r.mongodbId.value == m.metadata[IdKey]
    ensures r.text.Some? <==> TextKey in m.metadata
    ensures r.text.Some? ==> r.text.value == m.metadata[TextKey]
  {
    SimilarIncident(Get(m.metadata, IdKey), m.score, Get(m.metadata, TextKey))
  }

  /**
   * Specification of the filter: the reshaped matches whose score is at least
   * `minScore`, in the order the index returned them.
   */
  function KeepMatches(ms: seq<Match>, minScore: real): (r: seq<SimilarIncident>)
    ensures |r| <= |ms|
    ensures forall j :: 0 <= j < |r| ==> r[j].score >= minScore
  {
    if ms == [] then []
    else if ms[0].score >= minScore then [Reshape(ms[0])] + KeepMatches(ms[1..], minScore)
    else KeepMatches(ms[1..], minScore)
  }

  /** Filtering a list extended by one match extends the result by that match's item, if it is kept. */
  lemma {:induction false} KeepMatchesAppend(ms: seq<Match>, m: Match, minScore: real)
    ensures KeepMatches(ms + [m], minScore)
         == KeepMatches(ms, minScore) + (if m.score >= minScore then [Reshape(m)] else [])
  {
    if ms == [] {
      assert [] + [m] == [m];
      assert [m][1..] == [];
    } else {
      assert (ms + [m])[0] == ms[0];
      assert (ms + [m])[1..] == ms[1..] + [m];
      KeepMatchesAppend(ms[1..], m, minScore);
    }
  }

  /** The loop of the handler: builds the list of kept items by appending, one match at a time. */
  method FilterMatches(ms: seq<Match>, minScore: real) returns (matches: seq<SimilarIncident>)
    ensures matches == KeepMatches(ms, minScore)
  {
    matches := [];
    for i := 0 to |ms|
      invariant matches == KeepMatches(ms[..i], minScore)
    {
      var m := ms[i];
      if m.score >= minScore {
        matches := matches + [Reshape(m)];
      }
      assert ms[..i + 1] == ms[..i] + [m];
      KeepMatchesAppend(ms[..i], m, minScore);
    }
    assert ms[..|ms|] == ms;
  }

  /** Why a request fails. Every failure becomes a server error; none yields a partial response. */
  datatype HandlerError =
    | EmbeddingFailed(reason: string)
    | QueryFailed(reason: string)
      // `min_score` sent as null: comparing a score with `None` raises
    | ThresholdNotComparable

  /**
   * The whole handler. The embedding provider and the vector index are the
   * parameters `embed` and `query`; the index receives the embedding and
   * the request's `top_k` unchanged.
   */
  method FindSimilarIncidents(
    payload: SimilarityRequest,
    embed: string -> Result<seq<real>, string>,
    query: (seq<real>, Option<int>) -> Result<seq<Match>, string>)
    returns (r: Result<SimilarityResponse, HandlerError>)
    ensures embed(payload.text).Failure? ==> r == Failure(EmbeddingFailed(embed(payload.text).error))
    ensures embed(payload.text).Success? && query(embed(payload.text).value, payload.topK).Failure? ==>
      r == Failure(QueryFailed(query(embed(payload.text).value, payload.topK).error))
    ensures embed(payload.text).Success? && query(embed(payload.text).value, payload.topK).Success? ==>
      var ms := query(embed(payload.text).value, payload.topK).value;
      if payload.minScore.Some? then r == Success(SimilarityResponse(KeepMatches(ms, payload.minScore.value)))
      else if ms == [] then r == Success(SimilarityResponse([]))
      else r == Failure(ThresholdNotComparable)
  {
    var embedded := embed(payload.text);
    if embedded.Failure? {
      return Failure(EmbeddingFailed(embedded.error));
    }
    var results := query(embedded.value, payload.topK);
    if results.Failure? {
      return Failure(QueryFailed(results.error));
    }
    if payload.minScore.None? {
      if results.value != [] {
        return Failure(ThresholdNotComparable);
      }
      return Success(SimilarityResponse([]));
    }
    var matches := FilterMatches(results.value, payload.minScore.value);
    return Success(SimilarityResponse(matches));
  }

  // ----- Characterisation of the filter by the positions it keeps -----

  /** The positions `i`, `i + 1`, ... of `ms` whose score reaches `minScore`, in increasing order. */
  function KeptPositionsFrom(ms: seq<Match>, minScore: real, i: nat): seq<nat>
    requires i <= |ms|
    decreases |ms| - i
  {
    if i == |ms| then []
    else (if ms[i].score >= minScore then [i] else []) + KeptPositionsFrom(ms, minScore, i + 1)
  }

  ghost predicate StrictlyIncreasing(ps: seq<nat>)
  {
    forall a, b :: 0 <= a < b < |ps| ==> ps[a] < ps[b]
  }

  /**
   * `out` is `ms` restricted, in index order, to the positions `ps`, each
   * reshaped, and `ps` holds exactly the positions whose score reaches `minScore`.
   */
  ghost predicate IsThresholdSelection(out: seq<SimilarIncident>, ms: seq<Match>, minScore: real, ps: seq<nat>)
  {
    && StrictlyIncreasing(ps)
    && (forall j :: 0 <= j < |ps| ==> ps[j] < |ms|)
    && (forall k: nat :: k in ps <==> k < |ms| && ms[k].score >= minScore)
    && |out| == |ps|
    && (forall j :: 0 <= j < |ps| ==> ps[j] < |ms| && out[j] == Reshape(ms[ps[j]]))
  }

  lemma {:induction false} KeptPositionsFromSelect(ms: seq<Match>, minScore: real, i: nat)
    requires i <= |ms|
    ensures var ps := KeptPositionsFrom(ms, minScore, i);
      var out := KeepMatches(ms[i..], minScore);
      && StrictlyIncreasing(ps)
      && (forall j :: 0 <= j < |ps| ==> i <= ps[j] < |ms|)
      && (forall k: nat :: k in ps <==> i <= k < |ms| && ms[k].score >= minScore)
      && |out| == |ps|
      && (forall j :: 0 <= j < |ps| ==> out[j] == Reshape(ms[ps[j]]))
    decreases |ms| - i
  {
    if i < |ms| {
      KeptPositionsFromSelect(ms, minScore, i + 1);
      assert ms[i..][0] == ms[i];
      assert ms[i..][1..] == ms[i + 1..];
    }
  }

  /**
   * The filter's output is the input restricted, in its own order, to exactly
   * the matches whose score is at least the threshold: no kept match is
   * missing, no dropped match (score below the threshold) appears, nothing is
   * re-sorted.
   */
  lemma {:induction false} KeepMatchesIsThresholdSelection(ms: seq<Match>, minScore: real)
    ensures IsThresholdSelection(KeepMatches(ms, minScore), ms, minScore, KeptPositionsFrom(ms, minScore, 0))
  {
    KeptPositionsFromSelect(ms, minScore, 0);
    assert ms[0..] == ms;
  }

  /** Two increasing position lists with the same elements are the same list. */
  lemma {:induction false} IncreasingWithSameElements(ps: seq<nat>, qs: seq<nat>)
    requires StrictlyIncreasing(ps) && StrictlyIncreasing(qs)
    requires forall k: nat :: k in ps <==> k in qs
    ensures ps == qs
  {
    if ps == [] {
      assert forall j :: 0 <= j < |qs| ==> qs[j] in qs;
    } else {
      assert ps[0] in ps;
      assert qs != [];
      assert qs[0] in qs;
      assert ps[0] == qs[0];
      forall k: nat
        ensures k in ps[1..] <==> k in qs[1..]
      {
        if k in ps[1..] {
          var a :| 0 <= a < |ps[1..]| && ps[1..][a] == k;
          assert ps[a + 1] == k;
        }
        if k in qs[1..] {
          var b :| 0 <= b < |qs[1..]| && qs[1..][b] == k;
          assert qs[b + 1] == k;
        }
        if k in ps && k != ps[0] {
          var a :| 0 <= a < |ps| && ps[a] == k;
          assert ps[1..][a - 1] == k;
        }
        if k in qs && k != qs[0] {
          var b :| 0 <= b < |qs| && qs[b] == k;
          assert qs[1..][b - 1] == k;
        }
      }
      IncreasingWithSameElements(ps[1..], qs[1..]);
      assert ps == [ps[0]] + ps[1..];
      assert qs == [qs[0]] + qs[1..];
    }
  }

  /** The threshold selection determines the output: any list that is one equals the filter's. */
  lemma {:induction false} ThresholdSelectionIsUnique(out: seq<SimilarIncident>, ms: seq<Match>, minScore: real, ps: seq<nat>)
    requires IsThresholdSelection(out, ms, minScore, ps)
    ensures out == KeepMatches(ms, minScore)
  {
    var kept := KeptPositionsFrom(ms, minScore, 0);
    KeepMatchesIsThresholdSelection(ms, minScore);
    IncreasingWithSameElements(ps, kept);
  }

  /** Every match whose score reaches the threshold (in particular one equal to it) yields an output item. */
  lemma {:induction false} MeetingMatchIsKept(ms: seq<Match>, minScore: real, k: nat)
    requires k < |ms| && ms[k].score >= minScore
    ensures Reshape(ms[k]) in KeepMatches(ms, minScore)
  {
    var ps := KeptPositionsFrom(ms, minScore, 0);
    KeepMatchesIsThresholdSelection(ms, minScore);
    assert k in ps;
    var j :| 0 <= j < |ps| && ps[j] == k;
    assert KeepMatches(ms, minScore)[j] == Reshape(ms[k]);
  }

  /** The threshold is inclusive: a match scoring exactly `minScore` is kept. */
  lemma {:induction false} ThresholdIsInclusive(ms: seq<Match>, minScore: real, k: nat)
    requires k < |ms| && ms[k].score == minScore
    ensures Reshape(ms[k]) in KeepMatches(ms, minScore)
  {
    MeetingMatchIsKept(ms, minScore, k);
  }

  /** A list of distinct increasing positions has as many elements as its set. */
  lemma {:induction false} IncreasingCardinality(ps: seq<nat>)
    requires StrictlyIncreasing(ps)
    ensures |set k: nat | k in ps| == |ps|
  {
    if ps != [] {
      IncreasingCardinality(ps[1..]);
      var rest := set k: nat | k in ps[1..];
      assert (set k: nat | k in ps) == {ps[0]} + rest by {
        forall k: nat | k in ps ensures k == ps[0] || k in rest {
          var a :| 0 <= a < |ps| && ps[a] == k;
          if a > 0 { assert ps[1..][a - 1] == k; }
        }
      }
      assert ps[0] !in rest;
    }
  }

  /** The number of output items equals the number of matches whose score reaches the threshold. */
  lemma {:induction false} KeptCount(ms: seq<Match>, minScore: real)
    ensures |KeepMatches(ms, minScore)| == |set k: nat | k < |ms| && ms[k].score >= minScore|
  {
    var ps := KeptPositionsFrom(ms, minScore, 0);
    KeepMatchesIsThresholdSelection(ms, minScore);
    IncreasingCardinality(ps);
    assert (set k: nat | k in ps) == (set k: nat | k < |ms| && ms[k].score >= minScore);
  }

  /** When the index returns at most `topK` neighbours, the response holds at most `topK` items. */
  lemma AtMostTopK(ms: seq<Match>, minScore: real, topK: int)
    requires |ms| <= topK
    ensures |KeepMatches(ms, minScore)| <= topK
  {
  }

  // ----- Idempotence -----

  /** A match whose metadata holds exactly the item's identifier and text, where present. */
  function AsMatch(item: SimilarIncident): (m: Match)
    ensures Reshape(m) == item
  {
    var withId := if item.mongodbId.Some? then map[IdKey := item.mongodbId.value] else map[];
    var md := if item.text.Some? then withId[TextKey := item.text.value] else withId;
    assert IdKey != TextKey by { assert IdKey[0] != TextKey[0]; }
    Match(item.score, md)
  }

  function AsMatches(items: seq<SimilarIncident>): seq<Match>
  {
    if items == [] then [] else [AsMatch(items[0])] + AsMatches(items[1..])
  }

  /** Filtering items that all reach the threshold, read back as matches, returns them unchanged. */
  lemma {:induction false} KeepMatchesKeepsPassingItems(items: seq<SimilarIncident>, minScore: real)
    requires forall j :: 0 <= j < |items| ==> items[j].score >= minScore
    ensures KeepMatches(AsMatches(items), minScore) == items
  {
    if items != [] {
      KeepMatchesKeepsPassingItems(items[1..], minScore);
      assert AsMatches(items)[1..] == AsMatches(items[1..]);
      assert items == [items[0]] + items[1..];
    }
  }

  /** Filtering the output again with the same threshold changes nothing. */
  lemma {:induction false} KeepMatchesIdempotent(ms: seq<Match>, minScore: real)
    ensures KeepMatches(AsMatches(KeepMatches(ms, minScore)), minScore) == KeepMatches(ms, minScore)
  {
    KeepMatchesKeepsPassingItems(KeepMatches(ms, minScore), minScore);
  }

  /**
   * Three neighbours scoring 0.95, 0.88 and 0.92 at threshold 0.9: the first
   * and the third are kept, in the index's order rather than by score.
   */
  lemma KeepsIndexOrderExample()
    ensures KeepMatches([Match(0.95, map[IdKey := "i1"]), Match(0.88, map[IdKey := "i2"]),
                         Match(0.92, map[IdKey := "i3"])], 0.9)
         == [SimilarIncident(Some("i1"), 0.95, None), SimilarIncident(Some("i3"), 0.92, None)]
  {
    var m1, m2, m3 := Match(0.95, map[IdKey := "i1"]), Match(0.88, map[IdKey := "i2"]), Match(0.92, map[IdKey := "i3"]);
    assert TextKey !in m1.metadata && TextKey !in m3.metadata by { assert IdKey != TextKey by { assert IdKey[0] != TextKey[0]; } }
    assert [m1, m2, m3][1..] == [m2, m3];
    assert [m2, m3][1..] == [m3];
    assert [m3][1..] == [];
    calc {
      KeepMatches([m1, m2, m3], 0.9);
      [Reshape(m1)] + KeepMatches([m2, m3], 0.9);
      [Reshape(m1)] + KeepMatches([m3], 0.9);
      [Reshape(m1)] + [Reshape(m3)];
    }
  }
}
