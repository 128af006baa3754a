/**
  The document-store side of the use-case query translator: object ids,
  the reference-entity documents that labels are resolved against, the
  database as a map from collection name to documents, and the filter
  clauses the translator emits.
 */
module Mongo {

  datatype Option<T> = None | Some(value: T)

  /**
    A BSON ObjectId. Only equality matters to the translator, so its twelve
    bytes are kept as the canonical hex text.
   */
  datatype ObjectId = ObjectId(hex: string)

  /** A reference entity (threat, actor, technology, ...): its `_id` and its `name`. */
  datatype Doc = Doc(id: ObjectId, name: string)

  /** The database: each collection's documents in natural (insertion) order. */
  type Store = map<string, seq<Doc>>

  /**
    One field's clause of the raw filter document:
      Eq(s)      -- `{field: s}`
      IdEq(id)   -- `{field: ObjectId(...)}`
      In(ids)    -- `{field: {'$in': ids}}`
      NotIn(ids) -- `{field: {'$not': {'$in': ids}}}`
      All(ids)   -- `{field: {'$all': ids}}`
      NotAll(ids)-- `{field: {'$not': {'$all': ids}}}`
   */
  datatype Pred =
    | Eq(literal: string)
    | IdEq(id: ObjectId)
    | In(ids: seq<ObjectId>)
    | NotIn(ids: seq<ObjectId>)
    | All(ids: seq<ObjectId>)
    | NotAll(ids: seq<ObjectId>)
  {
    /** One of the four clauses over a reference field's id list. */
    predicate IsSetClause()
    {
      In? || NotIn? || All? || NotAll?
    }
  }

  /**
    `[d['_id'] for d in docs if d['name'] in names]`: what
    `collection.find({'name': {'$in': names}})` yields, projected on `_id`,
    with the collection's natural order kept.
   */
  function IdsNamed(docs: seq<Doc>, names: seq<string>): (r: seq<ObjectId>)
    ensures |r| <= |docs|
  {
    if docs == [] then []
    else
      var rest := IdsNamed(docs[1..], names);
      if docs[0].name in names then [docs[0].id] + rest else rest
  }

  /** An id is found exactly when some document with that id has one of the names. */
  lemma {:induction false} IdsNamedMembers(docs: seq<Doc>, names: seq<string>, x: ObjectId)
    ensures x in IdsNamed(docs, names) <==>
              exists k :: 0 <= k < |docs| && docs[k].id == x && docs[k].name in names
  {
    if docs != [] {
      IdsNamedMembers(docs[1..], names, x);
      if exists k :: 0 <= k < |docs| && docs[k].id == x && docs[k].name in names {
        var k :| 0 <= k < |docs| && docs[k].id == x && docs[k].name in names;
        if k > 0 {
          assert docs[1..][k - 1] == docs[k];
        }
      }
      if exists k :: 0 <= k < |docs| - 1 && docs[1..][k].id == x && docs[1..][k].name in names {
        var k :| 0 <= k < |docs| - 1 && docs[1..][k].id == x && docs[1..][k].name in names;
        assert docs[k + 1] == docs[1..][k];
      }
    }
  }

  /** Finding over two runs of documents is finding over each, in order. */
  lemma {:induction false} IdsNamedConcat(a: seq<Doc>, b: seq<Doc>, names: seq<string>)
    ensures IdsNamed(a + b, names) == IdsNamed(a, names) + IdsNamed(b, names)
  {
    if a == [] {
      assert a + b == b;
    } else {
      assert (a + b)[1..] == a[1..] + b;
      IdsNamedConcat(a[1..], b, names);
    }
  }

  /** Looking up no names finds nothing. */
  lemma {:induction false} IdsNamedNoNames(docs: seq<Doc>)
    ensures IdsNamed(docs, []) == []
  {
    if docs != [] {
      IdsNamedNoNames(docs[1..]);
    }
  }

  /** Labels that name no document contribute nothing. */
  lemma {:induction false} IdsNamedUnmatched(docs: seq<Doc>, names: seq<string>, extra: seq<string>)
    requires forall k :: 0 <= k < |docs| ==> docs[k].name !in extra
    ensures IdsNamed(docs, names + extra) == IdsNamed(docs, names)
  {
    if docs != [] {
      IdsNamedUnmatched(docs[1..], names, extra);
    }
  }

  /**
    MongoDB's reading of a set clause against a use case's reference field
    (an array of ids). This is the store's documented operator semantics,
    not code of the system: `$in` holds when the array shares an element
    with the list, `$all` when the list is non-empty and every element of it
    is in the array (`$all` with an empty list matches no document), and
    `$not` negates. An equality with an id holds when the array contains it;
    an equality with a string never holds against an array of ids.
   */
  predicate Matches(p: Pred, field: seq<ObjectId>)
  {
    match p
    case Eq(_) => false
    case IdEq(id) => id in field
    case In(ids) => exists x :: x in ids && x in field
    case NotIn(ids) => !(exists x :: x in ids && x in field)
    case All(ids) => |ids| > 0 && forall x :: x in ids ==> x in field
    case NotAll(ids) => !(|ids| > 0 && forall x :: x in ids ==> x in field)
  }
}
