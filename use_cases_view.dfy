/**
  `UseCasesView` of Atlas/views.py: the translation of the listing
  endpoint's query parameters into a raw MongoDB filter document, and the
  choice between that filter and the unfiltered collection.

  The view's collaborators are passed in an `Env`: the field-to-collection
  table of the settings module, the database, and the ObjectId parser of
  the bson library.
 */
module UseCasesView {
  import opened PyStr
  import opened Mongo

  /** `UseCasesView.my_filter_fields`. */
  const FilterFields: seq<string> :=
    ["_id", "name", "cybersecurity_threats", "description", "actors",
     "responding_organizations", "technologies", "discipline", "locations",
     "information_types", "information_categories", "activities"]

  /**
    The array-typed reference fields the translator tests for. The list names
    "organizations", which is not a filter field, and leaves out
    "responding_organizations" and "information_categories", which are.
   */
  const ArrayFields: seq<string> :=
    ["cybersecurity_threats", "actors", "organizations", "technologies",
     "discipline", "locations", "information_types", "activities"]

  /** One query parameter of the request; a request's parameter names are distinct. */
  datatype Param = Param(name: string, value: string)

  /** The one failure of translation: an `_id` value the ObjectId parser rejects. */
  datatype Error = InvalidId(value: string)

  datatype Result<T> = Success(value: T) | Failure(error: Error)

  /**
    The view's collaborators: `settings.COLLECTION_NAMES`, the database, and
    `bson.ObjectId` construction from a string (None where it raises).
   */
  datatype Env = Env(
    collectionNames: map<string, string>,
    db: Store,
    parseId: string -> Option<ObjectId>)

  /** A filter field that the translator treats as an array reference field. */
  predicate IsSearchField(f: string)
  {
    f in FilterFields && f in ArrayFields
  }

  /** A field whose value becomes a literal equality clause. */
  predicate IsLiteralField(f: string)
  {
    f !in FilterFields || (f !in ArrayFields && f != "_id")
  }

  /** Every reachable array field has a collection in the settings. */
  predicate Configured(env: Env)
  {
    forall f :: f in ArrayFields && f in FilterFields ==> f in env.collectionNames
  }

  /** The documents of the collection backing `field` (none when it does not exist). */
  function Collection(env: Env, field: string): (docs: seq<Doc>)
    requires field in env.collectionNames
    ensures env.collectionNames[field] in env.db ==> docs == env.db[env.collectionNames[field]]
  {
    var name := env.collectionNames[field];
    if name in env.db then env.db[name] else []
  }

  /** A raw reference-field value cut into its search option and its label text. */
  datatype Extracted = Extracted(option: string, text: string)

  /**
    Cuts an optional `[option]` suffix off a reference-field value: the text
    is everything before the first `[`, the option everything after it but
    the value's last character, whatever that character is.
   */
  function ExtractOption(value: string): (r: Extracted)
    ensures '[' !in r.text
    ensures '[' !in value ==> r == Extracted("", value)
    ensures '[' in value ==> |r.text| < |value| && value[..|r.text|] == r.text && value[|r.text|] == '['
    ensures '[' in value && |r.text| + 1 < |value| ==>
              value == r.text + "[" + r.option + [value[|value| - 1]]
    ensures '[' in value && |r.text| + 1 == |value| ==> r.option == ""
  {
    var i := Find(value, '[');
    if i == -1 then Extracted("", value)
    else
      // Python's value[i + 1:-1]: -1 is |value| - 1, and the slice is empty
      // when the '[' is the last character.
      var r := Extracted(Slice(value, i + 1, |value| - 1), value[..i]);
      assert i + 1 < |value| ==> value == value[..i] + "[" + value[i + 1..|value| - 1] + [value[|value| - 1]];
      r
  }

  /** A bracketed option after bracket-free text is extracted back, whatever it holds. */
  lemma ExtractOptionRoundTrip(text: string, option: string)
    requires '[' !in text
    ensures ExtractOption(text + "[" + option + "]") == Extracted(option, text)
  {
    var v := text + "[" + option + "]";
    assert v[|text|] == '[' && v[..|text|] == text;
    assert Find(v, '[') == |text|;
    assert v[|text| + 1..|v| - 1] == option;
  }

  /**
    The comma-separated labels of a reference-field value, each stripped of
    surrounding whitespace; empty segments stay as empty labels. The source
    passes the number of commas as `maxsplit`, so every comma is a cut and
    the split is the unlimited one.
   */
  function SplitLabels(text: string): (r: seq<string>)
    ensures |r| == Count(text, ',') + 1
    ensures forall k :: 0 <= k < |r| ==> ',' !in r[k] && Trimmed(r[k])
    ensures |r| == |Split(text, ',')| && forall k :: 0 <= k < |r| ==> r[k] == Strip(Split(text, ',')[k])
  {
    var parts := Split(text, ',');
    SplitCount(text, ',');
    SplitPiecesFree(text, ',');
    var r := StripEach(parts);
    forall k | 0 <= k < |r|
      ensures ',' !in r[k] && Trimmed(r[k])
    {
      StripKeeps(parts[k], ',');
    }
    r
  }

  /** `[x.strip() for x in parts]`. */
  function StripEach(parts: seq<string>): (r: seq<string>)
    ensures |r| == |parts|
    ensures forall k :: 0 <= k < |r| ==> r[k] == Strip(parts[k])
  {
    if parts == [] then []
    else [Strip(parts[0])] + StripEach(parts[1..])
  }

  /**
    The labels of comma-joined, comma-free pieces are the pieces stripped,
    one per piece: an all-whitespace or empty piece gives an empty label.
   */
  lemma SplitLabelsOfJoin(pieces: seq<string>)
    requires |pieces| >= 1
    requires forall k :: 0 <= k < |pieces| ==> ',' !in pieces[k]
    ensures SplitLabels(Join(pieces, ',')) == StripEach(pieces)
    ensures forall k :: 0 <= k < |pieces| && AllSpace(pieces[k]) ==> SplitLabels(Join(pieces, ','))[k] == ""
  {
    SplitJoin(pieces, ',');
    var r := SplitLabels(Join(pieces, ','));
    assert |r| == |pieces|;
    assert r == StripEach(pieces);
  }

  /** Joining trimmed, comma-free labels with commas and splitting again gives them back. */
  lemma SplitLabelsJoin(labels: seq<string>)
    requires |labels| >= 1
    requires forall k :: 0 <= k < |labels| ==> ',' !in labels[k] && Trimmed(labels[k])
    ensures SplitLabels(Join(labels, ',')) == labels
  {
    SplitLabelsOfJoin(labels);
    StripEachTrimmed(labels);
  }

  /** Stripping trimmed labels leaves them unchanged. */
  lemma StripEachTrimmed(labels: seq<string>)
    requires forall k :: 0 <= k < |labels| ==> Trimmed(labels[k])
    ensures StripEach(labels) == labels
  {
    forall k | 0 <= k < |labels|
      ensures Strip(labels[k]) == labels[k]
    {
      StripTrimmed(labels[k]);
    }
  }

  /**
    The ids of the documents in `field`'s collection whose name is one of
    the labels, in collection order.
   */
  function Resolve(env: Env, field: string, labels: seq<string>): (r: seq<ObjectId>)
    requires field in env.collectionNames
    ensures |r| <= |Collection(env, field)|
  {
    IdsNamed(Collection(env, field), labels)
  }

  /** An id is resolved exactly when a document of the collection with that id bears one of the labels. */
  lemma ResolveMembers(env: Env, field: string, labels: seq<string>, x: ObjectId)
    requires field in env.collectionNames
    ensures x in Resolve(env, field, labels) <==>
              exists d :: d in Collection(env, field) && d.id == x && d.name in labels
  {
    var docs := Collection(env, field);
    IdsNamedMembers(docs, labels, x);
    if exists d :: d in docs && d.id == x && d.name in labels {
      var d :| d in docs && d.id == x && d.name in labels;
      var k :| 0 <= k < |docs| && docs[k] == d;
    }
  }

  /** Resolving no labels yields no ids; labels naming no document add none. */
  lemma ResolveUnmatched(env: Env, field: string, labels: seq<string>, unknown: seq<string>)
    requires field in env.collectionNames
    requires forall d :: d in Collection(env, field) ==> d.name !in unknown
    ensures Resolve(env, field, []) == []
    ensures Resolve(env, field, labels + unknown) == Resolve(env, field, labels)
  {
    var docs := Collection(env, field);
    IdsNamedUnmatched(docs, labels, unknown);
    IdsNamedNoNames(docs);
  }

  /**
    The clause a search option selects over the resolved ids; options are
    compared literally and case-sensitively, and anything unrecognised
    (including no option at all) means "contains all".
   */
  function SearchPred(option: string, ids: seq<ObjectId>): (r: Pred)
    ensures r.IsSetClause() && r.ids == ids
    ensures r.In? <==> option == "or"
    ensures r.NotIn? <==> option == "!or" || option == "not or"
    ensures r.NotAll? <==> option == "!" || option == "not"
  {
    if option == "or" then In(ids)
    else if option == "!or" || option == "not or" then NotIn(ids)
    else if option == "!" || option == "not" then NotAll(ids)
    else All(ids)
  }

  /**
    Under MongoDB's operator semantics, the negated options select exactly
    the documents their positive forms do not.
   */
  lemma SearchPredNegations(ids: seq<ObjectId>, field: seq<ObjectId>)
    ensures Matches(SearchPred("!or", ids), field) == !Matches(SearchPred("or", ids), field)
    ensures Matches(SearchPred("not or", ids), field) == !Matches(SearchPred("or", ids), field)
    ensures Matches(SearchPred("!", ids), field) == !Matches(SearchPred("", ids), field)
    ensures Matches(SearchPred("not", ids), field) == !Matches(SearchPred("", ids), field)
  {
  }

  /**
    Under MongoDB's operator semantics, a clause over no ids (every label
    unmatched) matches every document for the negated options and none
    otherwise.
   */
  lemma SearchPredNoIds(option: string, field: seq<ObjectId>)
    ensures Matches(SearchPred(option, []), field) <==>
              option in ["!or", "not or", "!", "not"]
  {
  }

  /**
    The clause for a value of an array reference field: the option cut off,
    the labels split and stripped, resolved to ids in `field`'s collection,
    and combined as the option says.
   */
  function SearchClause(env: Env, field: string, value: string): (r: Pred)
    requires field in env.collectionNames
    ensures r.IsSetClause()
    ensures r.ids == Resolve(env, field, SplitLabels(ExtractOption(value).text))
    ensures r.In? <==> ExtractOption(value).option == "or"
    ensures r.NotIn? <==> ExtractOption(value).option == "!or" || ExtractOption(value).option == "not or"
    ensures r.NotAll? <==> ExtractOption(value).option == "!" || ExtractOption(value).option == "not"
  {
    var e := ExtractOption(value);
    SearchPred(e.option, Resolve(env, field, SplitLabels(e.text)))
  }

  /**
    The clause one query parameter (other than `format`) contributes to the
    filter document, or the failure of the whole translation.
   */
  function Clause(env: Env, p: Param): (r: Result<Pred>)
    requires Configured(env)
    ensures r.Failure? <==> p.name == "_id" && env.parseId(p.value).None?
    ensures r.Failure? ==> r.error == InvalidId(p.value)
    ensures IsLiteralField(p.name) ==> r == Success(Eq(p.value))
    ensures p.name == "_id" && env.parseId(p.value).Some? ==>
              r == Success(IdEq(env.parseId(p.value).value))
    ensures IsSearchField(p.name) ==> r == Success(SearchClause(env, p.name, p.value))
  {
    if p.name in FilterFields then
      if p.name in ArrayFields then
        Success(SearchClause(env, p.name, p.value))
      else if p.name == "_id" then
        match env.parseId(p.value)
        case None => Failure(InvalidId(p.value))
        case Some(id) => Success(IdEq(id))
      else Success(Eq(p.value))
    else Success(Eq(p.value))
  }

  /**
    A reference-field value written as labels joined by commas, then an
    option in brackets, is read back as that option over the ids the labels
    resolve to.
   */
  lemma ClauseOfLabels(env: Env, field: string, labels: seq<string>, option: string)
    requires Configured(env) && IsSearchField(field)
    requires |labels| >= 1
    requires forall k :: 0 <= k < |labels| ==> ',' !in labels[k] && '[' !in labels[k] && Trimmed(labels[k])
    ensures Clause(env, Param(field, Join(labels, ',') + "[" + option + "]")) ==
              Success(SearchPred(option, Resolve(env, field, labels)))
  {
    var text := Join(labels, ',');
    JoinFree(labels, ',', '[');
    ExtractOptionRoundTrip(text, option);
    SplitLabelsJoin(labels);
    assert SearchClause(env, field, text + "[" + option + "]") == SearchPred(option, Resolve(env, field, labels));
  }

  /**
    On a reference field, a value with no bracket and the same value with an
    empty `[]` option give the same clause: the default is "contains all".
   */
  lemma NoOptionIsEmptyOption(env: Env, field: string, value: string)
    requires Configured(env) && IsSearchField(field)
    requires '[' !in value
    ensures Clause(env, Param(field, value)) == Success(All(Resolve(env, field, SplitLabels(value))))
    ensures Clause(env, Param(field, value + "[]")) == Clause(env, Param(field, value))
  {
    var bracketed := value + "[]";
    var ids := Resolve(env, field, SplitLabels(value));
    assert ExtractOption(value) == Extracted("", value);
    assert SearchClause(env, field, value) == All(ids) by {
      assert SearchPred("", ids) == All(ids);
    }
    ExtractOptionRoundTrip(value, "");
    assert value + "[" + "" + "]" == bracketed;
    assert SearchClause(env, field, bracketed) == All(ids);
  }

  /** The names of the parameters that take part in the filter: all but `format`. */
  function FilterNames(params: seq<Param>): (names: set<string>)
    ensures "format" !in names
  {
    set p | p in params && p.name != "format" :: p.name
  }

  /** A request's query dictionary holds each parameter name once. */
  predicate DistinctNames(params: seq<Param>)
  {
    forall j, k :: 0 <= j < k < |params| ==> params[j].name != params[k].name
  }

  /** Some parameter is an `_id` the ObjectId parser rejects. */
  predicate HasMalformedId(env: Env, params: seq<Param>)
  {
    exists k :: 0 <= k < |params| && params[k].name == "_id" && env.parseId(params[k].value).None?
  }

  /**
    Storing parameter `i`'s clause under its name keeps the entries of the
    parameters before it, whose names differ from it; `clauseOf` is the
    clause each parameter should get.
   */
  lemma RecordEntry(clauseOf: Param -> Result<Pred>, params: seq<Param>, i: nat, query: map<string, Pred>, pred: Pred)
    requires i < |params| && params[i].name != "format"
    requires forall k :: 0 <= k < i ==> params[k].name != params[i].name
    requires forall k :: 0 <= k < i && params[k].name != "format" ==>
               params[k].name in query && clauseOf(params[k]) == Success(query[params[k].name])
    requires clauseOf(params[i]) == Success(pred)
    ensures forall k :: 0 <= k < i + 1 && params[k].name != "format" ==>
              params[k].name in query[params[i].name := pred] &&
              clauseOf(params[k]) == Success(query[params[i].name := pred][params[k].name])
  {
  }

  /** How the filter names and the malformed-id test grow by one parameter. */
  lemma PrefixStep(env: Env, params: seq<Param>, i: nat)
    requires i < |params|
    requires !HasMalformedId(env, params[..i])
    requires params[i].name == "_id" ==> env.parseId(params[i].value).Some?
    ensures FilterNames(params[..i + 1]) ==
              FilterNames(params[..i]) + (if params[i].name != "format" then {params[i].name} else {})
    ensures !HasMalformedId(env, params[..i + 1])
  {
    assert params[..i + 1] == params[..i] + [params[i]];
  }

  /**
    `convert_kwargs_to_mongo_query`: walks the parameters, skipping `format`,
    writing a literal equality for each and then overwriting it for the `_id`
    field and for the array reference fields. A malformed `_id` aborts the
    walk with no query.
   */
  method Translate(env: Env, params: seq<Param>) returns (r: Result<map<string, Pred>>)
    requires Configured(env)
    requires DistinctNames(params)
    ensures r.Failure? <==> HasMalformedId(env, params)
    ensures r.Failure? ==> exists k :: 0 <= k < |params| && params[k].name == "_id" &&
                              r.error == InvalidId(params[k].value)
    ensures r.Success? ==> r.value.Keys == FilterNames(params)
    ensures r.Success? ==> forall k :: 0 <= k < |params| && params[k].name != "format" ==>
                              Clause(env, params[k]) == Success(r.value[params[k].name])
  {
    var query: map<string, Pred> := map[];
    var i := 0;
    ghost var clauseOf := (p: Param) => Clause(env, p);
    while i < |params|
      invariant 0 <= i <= |params|
      invariant query.Keys == FilterNames(params[..i])
      invariant forall k :: 0 <= k < i && params[k].name != "format" ==>
                  params[k].name in query && clauseOf(params[k]) == Success(query[params[k].name])
      invariant !HasMalformedId(env, params[..i])
    {
      var field := params[i].name;
      if field != "format" {
        var fieldValue := params[i].value;
        // The literal default, overwritten below for `_id` and the array
        // fields; the entry is stored once its final value is known, which
        // leaves the same map (a raised `_id` error discards it anyway).
        var clause := Eq(fieldValue);
        if field in FilterFields {
          if field in ArrayFields {
            var e := ExtractOption(fieldValue);
            var option := e.option;
            fieldValue := e.text;
            var labels := SplitLabels(fieldValue);
            var ids := Resolve(env, field, labels);
            clause := SearchPred(option, ids);
          } else if field == "_id" {
            match env.parseId(fieldValue)
            case None =>
              assert params[i].name == "_id" && env.parseId(params[i].value).None?;
              return Failure(InvalidId(fieldValue));
            case Some(id) =>
              clause := IdEq(id);
          }
        }
        RecordEntry(clauseOf, params, i, query, clause);
        query := query[field := clause];
      }
      PrefixStep(env, params, i);
      i := i + 1;
    }
    assert params[..i] == params;
    return Success(query);
  }

  /** What the use-case listing runs: the whole collection, or the raw filter. */
  datatype QuerySet = AllUseCases | Raw(query: map<string, Pred>)

  /**
    `get_queryset`: the translated filter, unless it is empty, in which case
    every use case is listed.
   */
  method GetQueryset(env: Env, params: seq<Param>) returns (r: Result<QuerySet>)
    requires Configured(env)
    requires DistinctNames(params)
    ensures r.Failure? <==> HasMalformedId(env, params)
    ensures r.Success? ==>
              (r.value == AllUseCases <==> forall k :: 0 <= k < |params| ==> params[k].name == "format")
    ensures r.Failure? ==> exists k :: 0 <= k < |params| && params[k].name == "_id" &&
                              r.error == InvalidId(params[k].value)
    ensures r.Success? && r.value.Raw? ==> r.value.query.Keys == FilterNames(params)
    ensures r.Success? && r.value.Raw? ==> forall k :: 0 <= k < |params| && params[k].name != "format" ==>
                                             Clause(env, params[k]) == Success(r.value.query[params[k].name])
  {
    var query := Translate(env, params);
    if query.Failure? {
      return Failure(query.error);
    }
    if query.value != map[] {
      r := Success(Raw(query.value));
      assert !(forall k :: 0 <= k < |params| ==> params[k].name == "format") by {
        var name :| name in query.value;
        var p :| p in params && p.name != "format" && p.name == name;
      }
    } else {
      r := Success(AllUseCases);
      assert FilterNames(params) == {};
      forall k | 0 <= k < |params|
        ensures params[k].name == "format"
      {
        assert params[k] in params;
        assert params[k].name in FilterNames(params) || params[k].name == "format";
      }
    }
  }
}
