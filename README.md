# Incident similarity service: the filter-and-reshape step

The service answers `POST /similar-incidents`: it turns the request text into
an embedding, asks a vector index for the `top_k` nearest recorded incidents,
and returns those whose similarity score is at least `min_score`, each reduced
to its identifier, score and text. This project models the handler
`find_similar_incidents` and proves what its filter does.

- `wrappers.dfy` (module `Wrappers`): `Option` and `Result`.
- `schemas.dfy` (module `Schemas`): the request with its defaults (`top_k` 5,
  `min_score` 0.8), one index match (`score: real`, `metadata: map<string, string>`),
  the response item and the response.
- `handler.dfy` (module `Handler`): the filter as a pure specification
  (`KeepMatches`), the handler's loop as a method proved equal to it
  (`FilterMatches`), the whole handler with the embedding provider and the
  vector index as function parameters (`FindSimilarIncidents`), and the lemmas
  that characterise the filter.

The filter is characterised independently of its recursive definition: its
output is the input restricted, in the index's order, to exactly the positions
whose score reaches the threshold, each position reshaped
(`IsThresholdSelection`). Both directions are proved: the filter's output is
such a selection, and any such selection is the filter's output.

Scores and the threshold are `real`; the code only compares them with `>=`.

The request schema declares `min_score` as `Optional[float]`, so a body may
send it as null. The handler then compares each score with `None`, which
raises as soon as the index has returned at least one match; with no match the
loop body never runs and the empty list is returned. The model keeps both
outcomes (`ThresholdNotComparable` and the empty response). A null `top_k` is
handed to the index unchanged. The code does not check that `text` is
non-empty or that `top_k` is positive, and neither does the model.

## Model

| member | source | states |
|---|---|---|
| `Schemas.Field.OrDefault` | similarity-service/app/schemas.py:6-7 | an omitted optional field takes its default, an explicit null gives `None`, a given value is kept |
| `Schemas.NewRequest` | similarity-service/app/schemas.py:4-7 | the request keeps the text; an omitted `top_k` becomes 5 and an omitted `min_score` becomes 0.8; given values are kept |
| `Schemas.OmittedFieldsTakeDefaults` | similarity-service/app/schemas.py:6-7 | a body with only the text is handled as `top_k = 5`, `min_score = 0.8` |
| `Handler.Get` | similarity-service/app/main.py:24 | dictionary `get`: `Some` exactly when the key is present, with its value; `None` otherwise, never an error |
| `Handler.Reshape` | similarity-service/app/main.py:23-27 | the item copies the score unchanged; its identifier and text are present exactly when the metadata holds `mongodb_id` and `text`, with those values |
| `Handler.KeepMatches` | similarity-service/app/main.py:20-27 | the output is no longer than the input and every item's score is at least the threshold |
| `Handler.FilterMatches` | similarity-service/app/main.py:20-27 | the append loop returns exactly the filter's specification `KeepMatches` |
| `Handler.FindSimilarIncidents` | similarity-service/app/main.py:12-29 | an embedding failure or an index failure fails the request with that error; otherwise the response is the filtered, reshaped index result; with a null threshold it is empty when the index returned nothing and fails otherwise |
| `Handler.KeepMatchesIsThresholdSelection` | similarity-service/app/main.py:21-27 | the output is the input restricted, in increasing position order, to exactly the matches with score at least the threshold, each reshaped: every such match is kept, every match below it is dropped, nothing is re-sorted |
| `Handler.ThresholdSelectionIsUnique` | similarity-service/app/main.py:21-27 | any list that is such an ordered threshold selection of the input equals the filter's output |
| `Handler.MeetingMatchIsKept` | similarity-service/app/main.py:22-23 | a match whose score reaches the threshold yields its reshaped item in the output |
| `Handler.ThresholdIsInclusive` | similarity-service/app/main.py:22 | a match whose score equals the threshold exactly is kept |
| `Handler.KeptCount` | similarity-service/app/main.py:21-23 | the output length equals the number of input positions whose score reaches the threshold |
| `Handler.AtMostTopK` | similarity-service/app/main.py:15-23 | when the index returns at most `top_k` matches, the response has at most `top_k` items |
| `Handler.AsMatch` | similarity-service/app/main.py:24-26 | reshaping the match rebuilt from an item gives back that item: the item carries only the score, identifier and text |
| `Handler.KeepMatchesIdempotent` | similarity-service/app/main.py:22 | filtering the output again with the same threshold returns it unchanged |
| `Handler.KeepsIndexOrderExample` | similarity-service/app/main.py:21-27 | scores 0.95, 0.88, 0.92 at threshold 0.9 keep the first and the third, in that order |

## Left out

- Embedding call (`embed_text`, similarity-service/app/embedding.py:4-10): a network call to an external embedding provider; it is the parameter `embed` of `FindSimilarIncidents`.
- Index query (`query_similar`, similarity-service/app/pinecone_client.py:4-11): a network call to an external vector index; it is the parameter `query`. Its ranking and its use of `top_k` belong to that service.
- Environment configuration and credentials, `load_dotenv`, the web application object and its routing (similarity-service/app/main.py:1-11): configuration and HTTP plumbing.
- Request and response validation by the schema library: coercion of JSON values, the validation error for a missing `text`, and the check of the response against `SimilarIncident`, whose `mongodb_id` and `text` are declared as plain strings although the handler can emit `None`. The model gives the handler's own output, with `Option` fields.
- Metadata values other than strings: metadata is modelled as `map<string, string>`.
- Floating-point scores (NaN, rounding): scores are `real`.
