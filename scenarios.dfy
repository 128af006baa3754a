/**
  Worked requests against a small database: what the translator makes of
  typical reference-field values, of the literal fields, of a malformed
  `_id`, and of the three quirks of the code (the unreachable
  "organizations" entry, the literal treatment of two listed fields, and the
  option slice that drops whatever the last character is).
 */
module Scenarios {
  import opened PyStr
  import opened Mongo
  import opened UseCasesView

  const Alice := ObjectId("a1")
  const Bob := ObjectId("a2")
  const Carol := ObjectId("a3")
  const Foo := ObjectId("t1")

  // The small lemmas below that spell out one fact about string literals
  // (a join, a concatenation, a strip) keep that fact apart from the clause
  // reasoning of the scenario that uses it: proved in the scenario's own
  // context, each such fact costs the verifier several times as much.

  const ActorDocs := [Doc(Alice, "Al"), Doc(Bob, "Bo"), Doc(Carol, "Cy")]
  const TechnologyDocs := [Doc(Foo, "Tor")]

  lemma JoinTwo(a: string, b: string)
    ensures Join([a, b], ',') == a + "," + b
  {
    JoinCons(a, [b], ',');
    assert [a] + [b] == [a, b];
  }

  lemma JoinFour(a: string, b: string, c: string, d: string)
    ensures Join([a, b, c, d], ',') == a + "," + b + "," + c + "," + d
  {
    JoinCons(c, [d], ',');
    JoinCons(b, [c, d], ',');
    JoinCons(a, [b, c, d], ',');
    assert [a] + [b, c, d] == [a, b, c, d];
    assert [b] + [c, d] == [b, c, d];
    assert [c] + [d] == [c, d];
  }

  lemma ActorIds()
    ensures IdsNamed(ActorDocs, ["Al", "Bo"]) == [Alice, Bob]
    ensures IdsNamed(ActorDocs, ["Zed"]) == []
  {
    var tail := ActorDocs[2..];
    assert tail == [Doc(Carol, "Cy")];
    assert tail[1..] == [];
    assert IdsNamed(tail, ["Al", "Bo"]) == [];
    assert IdsNamed(tail, ["Zed"]) == [];
    assert ActorDocs[1..][1..] == tail;
    assert ActorDocs[1..] == [Doc(Bob, "Bo")] + tail;
  }

  lemma AlBoValue()
    ensures Join(["Al", "Bo"], ',') + "[" + "or" + "]" == "Al,Bo[or]"
  {
    JoinTwo("Al", "Bo");
  }

  /** `actors=Al,Bo[or]`: use cases with Al or Bo among their actors. */
  lemma ActorsAny(env: Env)
    requires Configured(env) && Collection(env, "actors") == ActorDocs
    ensures Clause(env, Param("actors", "Al,Bo[or]")) == Success(In([Alice, Bob]))
  {
    ClauseOfLabels(env, "actors", ["Al", "Bo"], "or");
    AlBoValue();
    ActorIds();
  }

  lemma TorValue()
    ensures "Tor" + "[" + "!" + "]" == "Tor[!]"
  {
  }

  /** `technologies=Tor[!]`: use cases that do not use Tor. */
  lemma TechnologiesNotAll(env: Env)
    requires Configured(env) && Collection(env, "technologies") == TechnologyDocs
    ensures Clause(env, Param("technologies", "Tor[!]")) == Success(NotAll([Foo]))
  {
    ClauseOfLabels(env, "technologies", ["Tor"], "!");
    TorValue();
    assert IdsNamed(TechnologyDocs, ["Tor"]) == [Foo];
  }

  /** A use case using Tor is excluded by `Tor[!]`, and one using nothing is kept. */
  lemma NotAllExcludes()
    ensures !Matches(NotAll([Foo]), [Foo, Carol]) && Matches(NotAll([Foo]), [])
  {
    assert Foo in [Foo] && Foo !in [];
    assert [Foo, Carol][0] == Foo;
  }

  lemma ZedLabels()
    ensures SplitLabels("Zed") == ["Zed"]
  {
    assert ',' !in "Zed" && Trimmed("Zed");
    SplitLabelsJoin(["Zed"]);
  }

  /**
    A label that names no document resolves to nothing: with the default
    option no use case matches, with a negated option every one does.
   */
  lemma UnknownLabel(env: Env, field: seq<ObjectId>)
    requires Configured(env) && Collection(env, "actors") == ActorDocs
    ensures Clause(env, Param("actors", "Zed")) == Success(All([]))
    ensures !Matches(All([]), field) && Matches(NotAll([]), field)
  {
    NoOptionIsEmptyOption(env, "actors", "Zed");
    ZedLabels();
    ActorIds();
  }

  /** A field outside the filter list is a literal equality. */
  lemma UnlistedFieldIsLiteral(env: Env)
    requires Configured(env)
    ensures Clause(env, Param("foo", "bar")) == Success(Eq("bar"))
  {
    assert "foo" !in FilterFields;
  }

  /** "organizations" is in the array list but not a filter field, so its options stay literal. */
  lemma OrganizationsIsLiteral(env: Env)
    requires Configured(env)
    ensures Clause(env, Param("organizations", "Red Cross[or]")) == Success(Eq("Red Cross[or]"))
  {
    assert "organizations" !in FilterFields;
  }

  /** Two listed reference fields are missing from the array list and compare literally. */
  lemma UnlistedReferenceFieldsAreLiteral(env: Env)
    requires Configured(env)
    ensures Clause(env, Param("responding_organizations", "Red Cross")) == Success(Eq("Red Cross"))
    ensures Clause(env, Param("information_categories", "Alerts[or]")) == Success(Eq("Alerts[or]"))
  {
    assert "responding_organizations" !in ArrayFields;
    assert "information_categories" !in ArrayFields;
  }

  /** A malformed `_id` makes the whole request fail, whatever else it holds. */
  lemma MalformedIdFails(env: Env)
    requires Configured(env) && env.parseId("not-a-valid-id").None?
    ensures Clause(env, Param("_id", "not-a-valid-id")).Failure?
    ensures HasMalformedId(env, [Param("actors", "Alice"), Param("_id", "not-a-valid-id")])
  {
    var params := [Param("actors", "Alice"), Param("_id", "not-a-valid-id")];
    assert params[1].name == "_id";
  }

  /** The option slice drops the last character even when it is not `]`. */
  lemma UnclosedOption()
    ensures ExtractOption("a[or") == Extracted("o", "a")
    ensures ExtractOption("a[") == Extracted("", "a")
  {
    assert Find("a[or", '[') == 1 by {
      assert "a[or"[1] == '[' && "a[or"[..1] == "a";
    }
    assert Find("a[", '[') == 1 by {
      assert "a["[1] == '[' && "a["[..1] == "a";
    }
  }

  lemma PaddedText()
    ensures Join(["a", " b ", "", "c"], ',') == "a, b ,,c"
  {
    JoinFour("a", " b ", "", "c");
  }

  lemma StripFour(a: string, b: string, c: string, d: string)
    ensures StripEach([a, b, c, d]) == [Strip(a), Strip(b), Strip(c), Strip(d)]
  {
    var r := StripEach([a, b, c, d]);
    assert r[0] == Strip(a) && r[1] == Strip(b) && r[2] == Strip(c) && r[3] == Strip(d);
  }

  lemma PaddedPieceStrips()
    ensures Strip(" b ") == "b"
  {
    StripPadded(" ", "b", " ");
    assert " " + "b" + " " == " b ";
  }

  lemma BarePiecesStrip()
    ensures Strip("a") == "a" && Strip("") == "" && Strip("c") == "c"
  {
    StripTrimmed("a");
    StripTrimmed("c");
  }

  /**
    Labels are trimmed and empty segments are kept. The value comes in as a
    parameter fixed by the precondition rather than as a literal in the
    postcondition: with the literal there, the verifier unfolds the split and
    the strips character by character and the proof costs several times more.
   */
  lemma TrimmedLabels(text: string)
    requires text == "a, b ,,c"
    ensures SplitLabels(text) == ["a", "b", "", "c"]
  {
    PaddedText();
    SplitLabelsOfJoin(["a", " b ", "", "c"]);
    StripFour("a", " b ", "", "c");
    PaddedPieceStrips();
    BarePiecesStrip();
  }

  /** A request that only asks for a response format applies no filter. */
  lemma FormatOnlyHasNoFilter(env: Env)
    ensures FilterNames([Param("format", "json")]) == {}
    ensures !HasMalformedId(env, [Param("format", "json")])
  {
  }
}
