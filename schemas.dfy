/**
 * The data shapes of the similarity service: the request body with its
 * defaults, one neighbour as the vector index returns it, and the response.
 */
module Schemas {
  import opened Wrappers

  /** Number of neighbours requested when the body leaves `top_k` out. */
  const DefaultTopK: int := 5

  /** Inclusive score threshold used when the body leaves `min_score` out. */
  const DefaultMinScore: real := 0.8

  /** How one optional field appears in a JSON body: left out, explicitly null, or given. */
  datatype Field<+T> = Omitted | Null | Given(value: T) {

    /** The value stored for an optional field that has a default. */
    function OrDefault(default: T): (r: Option<T>)
      ensures r.None? <==> Null?
      ensures Omitted? ==> r == Some(default)
      ensures Given? ==> r == Some(value)
    {
      match this
      case Omitted => Some(default)
      case Null => None
      case Given(v) => Some(v)
    }
  }

  /**
   * The request body once validated. `text` is required; `topK` and
   * `minScore` are optional and may hold `None` when the body sends null.
   */
  datatype SimilarityRequest = SimilarityRequest(text: string, topK: Option<int>, minScore: Option<real>)

  /** Builds the request from the body's fields, filling in the declared defaults. */
  function NewRequest(text: string, topK: Field<int>, minScore: Field<real>): (r: SimilarityRequest)
    ensures r.text == text
    ensures topK.Omitted? ==> r.topK == Some(DefaultTopK)
    ensures minScore.Omitted? ==> r.minScore == Some(DefaultMinScore)
    ensures topK.Given? ==> r.topK == Some(topK.value)
    ensures minScore.Given? ==> r.minScore == Some(minScore.value)
  {
    SimilarityRequest(text, topK.OrDefault(DefaultTopK), minScore.OrDefault(DefaultMinScore))
  }

  /** One neighbour returned by the vector index: its similarity score and its metadata. */
  datatype Match = Match(score: real, metadata: map<string, string>)

  /**
   * One item of the response. The identifier and the text are `None` when the
   * match's metadata lacks them.
   */
  datatype SimilarIncident = SimilarIncident(mongodbId: Option<string>, score: real, text: Option<string>)

  /** The response body: the retained matches in the index's order. */
  datatype SimilarityResponse = SimilarityResponse(matches: seq<SimilarIncident>)

  /** A body that gives only the text is handled as if it asked for 5 neighbours at threshold 0.8. */
  lemma OmittedFieldsTakeDefaults(text: string)
    ensures NewRequest(text, Omitted, Omitted) == SimilarityRequest(text, Some(5), Some(0.8))
  {
  }
}
