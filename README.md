# Atlas use-case query translator, in Dafny

Atlas is a REST service over a MongoDB catalogue of cyber-security use cases.
Its use-case listing endpoint (`UseCasesView` in `Atlas/views.py`) accepts
query parameters and turns them into a raw MongoDB filter document:

- `format` is ignored;
- a parameter that is not one of the view's filter fields becomes a literal
  equality, and so do the filter fields that are neither `_id` nor in the
  array-field list;
- `_id` becomes an equality with the parsed ObjectId, and a malformed `_id`
  aborts the request;
- an array reference field (`actors`, `technologies`, ...) carries
  comma-separated entity *names* with an optional `[option]` suffix. The
  names are stripped, resolved to document ids in the entity's collection,
  and combined as the option says:
  - `or` gives `$in`;
  - `!or` or `not or` gives `$not $in`;
  - `!` or `not` gives `$not $all`;
  - anything else, including no option, gives `$all`.

`get_queryset` lists every use case when the filter document is empty, and
runs the raw filter otherwise.

The project models this translation, together with the Python string
operations and the MongoDB lookups it relies on:

- `pystr.dfy`, module `PyStr`: `str.count`, `str.find`, slicing,
  `str.split` with a one-character separator, `str.join` and `str.strip`.
  `count` and `join` are plain recursive definitions and serve as the
  references: `split` is proved against them (piece count, round trips both
  ways), while `find`, slicing and `strip` carry contracts stating their
  Python meaning.
- `mongo.dfy`, module `Mongo`: object ids and entity documents, and the
  `find({'name': {'$in': names}})` projection on `_id`. It also holds the
  six clause shapes the translator emits, with MongoDB's documented reading
  of them against a use case's id array.
- `use_cases_view.dfy`, module `UseCasesView`:
  - the two field lists;
  - the per-parameter clause as a pure function `Clause`;
  - the loop of `convert_kwargs_to_mongo_query` as the method `Translate`,
    proved against `Clause`;
  - `get_queryset` as the method `GetQueryset`.
- `scenarios.dfy`, module `Scenarios`: worked requests against a small
  database, including the three quirks of the code.

The three quirks are modelled as written:

1. The array-field list names `organizations`, which is not a filter field,
   so that entry is never reached and `organizations=...` stays a literal
   equality.
2. `responding_organizations` and `information_categories` are filter fields
   missing from the array-field list, so their values are compared
   literally, option suffix included.
3. The option is `value[i+1:-1]`, which drops the value's last character
   whether or not it is `]` (`a[or` gives option `o`).

The view's collaborators are parameters, gathered in `UseCasesView.Env`:

- `settings.COLLECTION_NAMES`, as a map;
- the database, as a map from collection name to documents in natural order;
- ObjectId construction, as a function returning `None` where `bson` raises
  `InvalidId`.

## Model

| member | source | states |
|---|---|---|
| PyStr.Find | Atlas/views.py:112-113 | `find` returns -1 exactly when the character is absent; otherwise it returns an index holding the character with no earlier occurrence |
| PyStr.Slice | Atlas/views.py:114-115 | a slice with non-negative bounds clamps both bounds to the length; its length and its characters are those of the clamped range |
| PyStr.SplitCount | Atlas/views.py:119 | splitting yields one more piece than there are separators, so the `maxsplit` the source passes (the comma count) cuts at every comma |
| PyStr.SplitPiecesFree | Atlas/views.py:119 | no piece of a split contains the separator |
| PyStr.SplitJoinsBack | Atlas/views.py:119 | joining the pieces of a split with the separator rebuilds the string |
| PyStr.SplitJoin | Atlas/views.py:119 | splitting a join of separator-free pieces gives back exactly those pieces, empty ones included |
| PyStr.JoinCount | Atlas/views.py:119 | a join of n separator-free pieces holds n-1 separators |
| PyStr.Strip | Atlas/views.py:118 | `strip()` leaves no whitespace at either end; it is empty exactly when the input is all whitespace; it adds no character |
| PyStr.StripPadded | Atlas/views.py:118 | `strip()` removes exactly the whitespace around a trimmed core |
| PyStr.StripIdempotent | Atlas/views.py:118 | stripping twice is stripping once |
| Mongo.IdsNamedMembers | Atlas/views.py:125 | an id is returned exactly when some document of the collection has that id and one of the names |
| Mongo.IdsNamedConcat | Atlas/views.py:125 | ids come out in collection order: finding over two runs of documents is finding over each, concatenated |
| UseCasesView.ExtractOption | Atlas/views.py:109-115 | with no `[` the option is empty and the text is the whole value; otherwise the text is the bracket-free prefix before the first `[`, and the value is that text, `[`, the option and one final character, whatever that character is |
| UseCasesView.ExtractOptionRoundTrip | Atlas/views.py:109-115 | `text[option]` with a bracket-free text is read back as that option and text, whatever the option holds |
| UseCasesView.SplitLabels | Atlas/views.py:117-119 | a value gives one label per comma plus one; each label is the stripped piece between commas, so it holds no comma and no surrounding whitespace |
| UseCasesView.SplitLabelsOfJoin | Atlas/views.py:117-119 | comma-joined pieces give back each piece stripped, and an empty or all-whitespace piece gives an empty label |
| UseCasesView.SplitLabelsJoin | Atlas/views.py:117-119 | trimmed comma-free labels joined with commas are split back into exactly those labels |
| UseCasesView.ResolveMembers | Atlas/views.py:121-125 | an id is resolved exactly when a document of the field's collection with that id bears one of the labels |
| UseCasesView.ResolveUnmatched | Atlas/views.py:121-125 | no labels resolve to no ids, and labels naming no document add no id |
| UseCasesView.SearchPred | Atlas/views.py:127-143 | the clause is over exactly the resolved ids; it is `$in` exactly for `or`, `$not $in` exactly for `!or` and `not or`, `$not $all` exactly for `!` and `not`, and `$all` for every other option |
| UseCasesView.SearchPredNegations | Atlas/views.py:129-143 | each negated option matches exactly the use cases its positive form does not |
| UseCasesView.SearchPredNoIds | Atlas/views.py:121-143 | when no label resolves, `or` and the default match no use case, and the negated options match every one |
| UseCasesView.SearchClause | Atlas/views.py:109-143 | an array field's clause is a set clause over the ids its stripped labels resolve to, once the option is cut off; the option cut off the value selects the operator: `$in` exactly for `or`, `$not $in` exactly for `!or` and `not or`, `$not $all` exactly for `!` and `not`, `$all` otherwise |
| UseCasesView.Clause | Atlas/views.py:88-148 | a parameter's clause fails exactly for an `_id` the parser rejects, with that value as the error; it is a literal equality for unlisted fields and for listed non-array fields other than `_id`; it is an id equality for a valid `_id`; it is the search clause for a listed array field |
| UseCasesView.ClauseOfLabels | Atlas/views.py:109-143 | on an array field, `l1,...,ln[option]` becomes that option over the ids of the labels `l1..ln` |
| UseCasesView.NoOptionIsEmptyOption | Atlas/views.py:109-143 | on an array field, a value with no bracket means `$all` over its labels' ids, and an empty `[]` option gives the same clause |
| UseCasesView.Translate | Atlas/views.py:82-150 | the translation fails exactly when some `_id` is malformed, reporting one such value; otherwise the query's keys are the parameter names except `format`, and each maps to that parameter's `Clause` |
| UseCasesView.GetQueryset | Atlas/views.py:152-161 | fails exactly when some `_id` is malformed, reporting one such value; otherwise it lists every use case exactly when every parameter is `format`, and otherwise runs the raw filter whose keys are the non-`format` names and whose entry for each is that parameter's `Clause`, the translated query |
| Scenarios.ActorsAny | Atlas/views.py:109-131 | `actors=Al,Bo[or]` becomes `$in` over the ids of Al and Bo, in collection order |
| Scenarios.TechnologiesNotAll | Atlas/views.py:137-139 | `technologies=Tor[!]` becomes `$not $all` over Tor's id |
| Scenarios.NotAllExcludes | Atlas/views.py:137-139 | `$not $all` over Tor's id excludes a use case using Tor and keeps one using nothing |
| Scenarios.UnknownLabel | Atlas/views.py:121-143 | an unknown label resolves to no id, so the default clause matches nothing and the negated one matches everything |
| Scenarios.UnlistedFieldIsLiteral | Atlas/views.py:95-97 | a field outside the filter list is a literal equality |
| Scenarios.OrganizationsIsLiteral | Atlas/views.py:97-107 | `organizations`, though in the array list, is not a filter field, so its value, option included, is a literal equality |
| Scenarios.UnlistedReferenceFieldsAreLiteral | Atlas/views.py:69-107 | `responding_organizations` and `information_categories` are filter fields outside the array list, so their values are literal equalities |
| Scenarios.MalformedIdFails | Atlas/views.py:146-148 | a malformed `_id` fails its clause, and so fails the whole request whatever else it holds |
| Scenarios.UnclosedOption | Atlas/views.py:112-115 | `a[or` gives option `o` and `a[` an empty option: the last character is dropped even when it is not `]` |
| Scenarios.TrimmedLabels | Atlas/views.py:117-119 | `a, b ,,c` gives the labels `a`, `b`, the empty label and `c` |
| Scenarios.FormatOnlyHasNoFilter | Atlas/views.py:86-88 | a request holding only `format` has no filter names and no malformed id |

## Left out

- The nine other list/create views (`Atlas/views.py:12-63`) and the create half of `UseCasesView`: they are framework configuration with no logic of their own.
- The module-level Mongo connection (`Atlas/views.py:7-9`): the database is a parameter.
- Running `UseCases.objects(__raw__=...)` and the serializer: `GetQueryset` returns which query set is chosen, not its documents. `Mongo.Matches` gives MongoDB's documented operator semantics for reasoning about that choice. It is not code of the system.
- ObjectId parsing: `bson.ObjectId` is a parameter of the model. Which strings it accepts is not modelled.
- The HTTP response to an uncaught `InvalidId`: the model stops the translation with `Failure(InvalidId(value))`.
- Repeated query parameters: a request's parameters are a sequence with distinct names, as the keys of a Django `QueryDict` are. Which of several values `.get` returns is not modelled.
- The key order of the Python dict: the filter document is a `map`.
- The contents of the settings module: `settings.COLLECTION_NAMES` is a parameter. `Configured` requires an entry for every reachable array field, because a missing entry makes the source index the database with `None` and raise.
- The settings module (`Atlas_Project/settings.py`) and the frontend store (`frontend/store/configureStoreBase.js`) are not part of this model.
- PyStr.Split: models the unlimited `split`. The source's `maxsplit` is the comma count, and `PyStr.SplitCount` shows that every comma is then a cut.
- UseCasesView.Translate: stores each parameter's entry once, with its final clause. The source first writes the literal and then overwrites it. Both leave the same map, and a malformed `_id` discards the map either way.
- UseCasesView.Translate: does not state the order in which keys were inserted, because the model's query is a `map`.
