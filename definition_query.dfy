/** `serie_a_db/update.py`: `DefinitionQuery`, a CREATE TABLE query for a production
    table from which the staging-table query is derived. */
module DefinitionQuery {
  import opened Wrappers
  import opened Exceptions
  import opened PyStr
  import opened Utils

  /** A query together with the name of the table it creates. */
  datatype DefinitionQuery = DefinitionQuery(query: string, name: string)

  function CreatePattern(name: string): string {
    "CREATE TABLE IF NOT EXISTS " + name + " "
  }

  const NOT_A_CREATE_MESSAGE := "Query must contain a valid CREATE TABLE statement."

  /** Construction runs the model validator `check_query_is_create`; pydantic wraps its
      `ValueError` in `ValidationError`. */
  function Make(query: string, name: string): (r: Result<DefinitionQuery, Error>)
    ensures r.Success? <==> Contains(query, CreatePattern(name))
    ensures r.Success? ==> r.value == DefinitionQuery(query, name)
    ensures r.Failure? ==> r.error == ModelValidationError(ValueError(NOT_A_CREATE_MESSAGE))
  {
    if Contains(query, CreatePattern(name)) then Success(DefinitionQuery(query, name))
    else Failure(RaisedByModelValidator(ValueError(NOT_A_CREATE_MESSAGE)))
  }

  /** `prod`: the query itself. */
  function Prod(dq: DefinitionQuery): string {
    dq.query
  }

  /** Every occurrence of the name becomes `<name>_staging`, then every `IF NOT EXISTS`
      is dropped. */
  function StagingFromProd(prod: string, name: string): string {
    Replace(Replace(prod, name, name + "_staging"), "IF NOT EXISTS", "")
  }

  /** `staging`. */
  function Staging(dq: DefinitionQuery): string {
    StagingFromProd(dq.query, dq.name)
  }

  /** `prod` hands back the query it was built from. */
  lemma ProdIsQuery(query: string, name: string)
    requires Make(query, name).Success?
    ensures Prod(Make(query, name).value) == query
  {
  }

  /** A query without the create pattern is refused with pydantic's `ValidationError`,
      which an `except ValueError` still catches. */
  lemma MakeRejectsSelect(query: string, name: string)
    requires !Contains(query, CreatePattern(name))
    ensures Make(query, name).Failure? && IsValueError(Make(query, name).error)
    ensures Make(query, name).error.ModelValidationError?
  {
  }

  /** The staging derivation, for a non-empty name, splits the query at the name and at
      `IF NOT EXISTS` and joins the pieces back with the replacements. */
  lemma StagingIsJoinOfSplits(prod: string, name: string)
    requires name != []
    ensures StagingFromProd(prod, name)
         == Join("", Split(Join(name + "_staging", Split(prod, name, -1)), "IF NOT EXISTS", -1))
  {
    ReplaceIsJoinOfSplit(prod, name, name + "_staging");
    ReplaceIsJoinOfSplit(Replace(prod, name, name + "_staging"), "IF NOT EXISTS", "");
  }

  lemma CreatePrefixShape()
    ensures "CREATE TABLE IF NOT EXISTS " == "CREATE TABLE " + "IF NOT EXISTS" + " "
    ensures 'I' !in "CREATE TABLE "
  {
  }

  /** A standard create query `CREATE TABLE IF NOT EXISTS <name><rest>` derives, up to
      whitespace, to `CREATE TABLE <name>_staging<rest>`, when the name occurs nowhere in
      the rest, holds no `I`, and its first letter does not occur in the create prefix,
      and the rest holds no `IF NOT EXISTS`. */
  lemma StagingOfStandardCreate(name: string, rest: string)
    requires name != [] && name[0] !in "CREATE TABLE IF NOT EXISTS " && 'I' !in name
    requires !Contains(rest, name) && !Contains(rest, "IF NOT EXISTS")
    ensures StripWhitespacesAndNewlines(StagingFromProd("CREATE TABLE IF NOT EXISTS " + name + rest, name))
         == StripWhitespacesAndNewlines("CREATE TABLE " + (name + "_staging" + rest))
  {
    var staged := name + "_staging";
    ReplaceFirst("CREATE TABLE IF NOT EXISTS ", name, staged, rest);
    var c := staged + rest;
    Associate("CREATE TABLE IF NOT EXISTS ", staged, rest);
    NotContainsConcat(" " + name + "_staging", rest, "IF NOT EXISTS");
    assert " " + c == " " + name + "_staging" + rest;
    DropIfNotExists(c);
    SpaceAfterCreate(c);
  }

  lemma Associate(a: string, b: string, c: string)
    ensures a + b + c == a + (b + c)
  {
  }

  /** Dropping `IF NOT EXISTS` from a standard create leaves two spaces after `TABLE`. */
  lemma DropIfNotExists(c: string)
    requires !Contains(" " + c, "IF NOT EXISTS")
    ensures Replace("CREATE TABLE IF NOT EXISTS " + c, "IF NOT EXISTS", "") == "CREATE TABLE " + (" " + c)
  {
    CreatePrefixShape();
    Associate("CREATE TABLE " + "IF NOT EXISTS", " ", c);
    ReplaceFirst("CREATE TABLE ", "IF NOT EXISTS", "", " " + c);
    assert "CREATE TABLE " + "" + (" " + c) == "CREATE TABLE " + (" " + c);
  }

  /** The extra space is gone once whitespace is normalised. */
  lemma SpaceAfterCreate(c: string)
    ensures StripWhitespacesAndNewlines("CREATE TABLE " + (" " + c))
         == StripWhitespacesAndNewlines("CREATE TABLE " + c)
  {
    TokensConcatSpace("CREATE TABLE ", " " + c);
    TokensOfSpaceThen(' ', c);
    TokensConcatSpace("CREATE TABLE ", c);
    NormalizeEqualIffSameTokens("CREATE TABLE " + (" " + c), "CREATE TABLE " + c);
  }

  /** The create statement of the update tests, `CREATE TABLE IF NOT EXISTS dm_dummy
      (dummy_name INTEGER);`, derives, up to whitespace, to `CREATE TABLE dm_dummy_staging
      (dummy_name INTEGER);`, although its body holds the name's first letter and an `I`. */
  lemma StagingOfDummyCreate()
    ensures StripWhitespacesAndNewlines(Staging(DefinitionQuery("CREATE TABLE IF NOT EXISTS " + "dm_dummy" + " (dummy_name INTEGER);", "dm_dummy")))
         == StripWhitespacesAndNewlines("CREATE TABLE " + ("dm_dummy" + "_staging" + " (dummy_name INTEGER);"))
  {
    DummyBodyLacksName();
    DummyBodyLacksIfNotExists();
    StagingOfStandardCreate("dm_dummy", " (dummy_name INTEGER);");
  }

  /** The body of the tests' create does not mention its table. */
  lemma DummyBodyLacksName()
    ensures !Contains(" (dummy_name INTEGER);", "dm_dummy")
  {
    var body := "dummy_name INTEGER);";
    forall k | 0 <= k <= |body| - |"dm_dummy"| ensures !OccursAt(body, "dm_dummy", k) {
      if k == 0 {
        assert body[0..8][1] == 'u';
      } else {
        assert body[k..k + 8][0] == body[1..][k - 1];
        assert 'd' !in body[1..];
      }
    }
    NotContainsConcat(" (", body, "dm_dummy");
    assert " (" + body == " (dummy_name INTEGER);";
  }

  /** The body of the tests' create does not mention `IF NOT EXISTS`. */
  lemma DummyBodyLacksIfNotExists()
    ensures !Contains(" (dummy_name INTEGER);", "IF NOT EXISTS")
  {
    NotContainsConcat(" (dummy_name ", "INTEGER);", "IF NOT EXISTS");
    assert " (dummy_name " + "INTEGER);" == " (dummy_name INTEGER);";
  }

  /** The documented example: `CREATE TABLE IF NOT EXISTS dm_table (note);` derives, up
      to whitespace, to `CREATE TABLE dm_table_staging (note);`. */
  lemma StagingExample()
    ensures StripWhitespacesAndNewlines(Staging(DefinitionQuery("CREATE TABLE IF NOT EXISTS " + "dm_table" + " (\n    note\n);", "dm_table")))
         == StripWhitespacesAndNewlines("CREATE TABLE " + ("dm_table" + "_staging" + " (\n    note\n);"))
  {
    LacksSeparator(" (\n    note\n);", "dm_table");
    LacksSeparator(" (\n    note\n);", "IF NOT EXISTS");
    StagingOfStandardCreate("dm_table", " (\n    note\n);");
  }
}
