/** `serie_a_db/update/definitions_script_reading.py`: `DefinitionScript`, the SQL file of
    a table. It holds either one CREATE statement, from which the staging create and the
    staging-to-prod insert are derived, or the three parts written out. */
module DefinitionScripts {
  import opened Wrappers
  import opened Exceptions
  import opened PyStr
  import opened Utils
  import opened SqlParsing
  import DefinitionQuery

  /** A script together with the name of its table. File paths are `<name>.sql` under
      the definitions directory, so errors carry the table name. */
  datatype DefinitionScript = DefinitionScript(script: string, name: string)

  function StagingCreatePattern(name: string): string {
    "CREATE TABLE " + name + "_staging "
  }

  /** The non-blank `;`-pieces, split at most twice. */
  function Pieces(script: string): seq<string> {
    SplitNoEmpty(script, ";", 2)
  }

  /** `_has_one_or_three_plus_statements`: the test as written, `n != 1 and n > 3`. */
  function CheckStatementCount(script: string, name: string): Outcome<Error> {
    var n := CountChar(script, ';');
    if n != 1 && n > 3 then Fail(ScriptNumberOfStatementsError(name, n)) else Pass
  }

  /** `_is_valid_create_statement`, `_is_valid_create_staging_statement` and
      `_contains_valid_insert_statement`. */
  function CheckCreate(statement: string, name: string): Outcome<Error> {
    if Contains(statement, CreateWarehousePattern(name)) then Pass else Fail(CreateStatementError(name))
  }

  function CheckCreateStaging(statement: string, name: string): Outcome<Error> {
    if Contains(statement, StagingCreatePattern(name)) then Pass else Fail(CreateStatementError(name))
  }

  function CheckInsert(statements: seq<string>, name: string): Outcome<Error> {
    if Contains(Join(";\n", statements), PopulateWarehousePattern(name)) then Pass
    else Fail(InsertStatementError(name))
  }

  /** Construction: pydantic runs the model validator `check_script`, wrapping its
      `ValueError`s (the statement-count, create and insert errors) in `ValidationError`;
      the `IndexError` of indexing the first piece of an all-blank script propagates. */
  function Make(script: string, name: string): (r: Result<DefinitionScript, Error>)
    ensures r.Success? <==> CheckScript(script, name).Success?
    ensures r.Success? ==> r.value == DefinitionScript(script, name)
    ensures r.Failure? ==>
      || r.error == IndexError
      || (&& r.error.ModelValidationError?
          && (r.error.cause.ScriptNumberOfStatementsError? || r.error.cause.CreateStatementError?
              || r.error.cause.InsertStatementError?))
  {
    match CheckScript(script, name)
    case Success(ds) => Success(ds)
    case Failure(e) => Failure(RaisedByModelValidator(e))
  }

  /** The model validator `check_script`, with the errors it raises. */
  function CheckScript(script: string, name: string): (r: Result<DefinitionScript, Error>)
    ensures r.Success? ==> r.value == DefinitionScript(script, name)
    ensures r.Failure? ==>
      r.error.IndexError? || r.error.ScriptNumberOfStatementsError? || r.error.CreateStatementError?
      || r.error.InsertStatementError?
  {
    var statements := Pieces(script);
    :- CheckStatementCount(script, name);
    if statements == [] then Failure(IndexError)
    else
      :- CheckCreate(statements[0], name);
      if |statements| > 1 then
        :- CheckCreateStaging(statements[1], name);
        :- CheckInsert(statements[2..], name);
        Success(DefinitionScript(script, name))
      else Success(DefinitionScript(script, name))
  }

  /** The three parts `_split_statements` returns; `None` stands for Python's `None`. */
  datatype Parts = Parts(prod: string, staging: Option<string>, insert: Option<string>)

  /** `_split_statements`: exactly three pieces give the first two with their `;` back
      and the rest verbatim; any other count makes the unpacking fail, and the whole
      script comes back alone. */
  function SplitParts(script: string): (r: Parts)
    ensures r.staging.Some? <==> r.insert.Some?
    ensures r.staging.None? ==> r.prod == script
  {
    var pieces := Pieces(script);
    if |pieces| == 3 then Parts(pieces[0] + ";", Some(pieces[1] + ";"), Some(pieces[2]))
    else Parts(script, None, None)
  }

  /** Python truthiness of an optional string. */
  predicate Truthy(s: Option<string>) {
    s.Some? && s.value != []
  }

  /** `create_prod_table`. */
  function CreateProdTable(ds: DefinitionScript): string {
    SplitParts(ds.script).prod
  }

  /** `create_staging_table`: the written staging statement, or the one derived from the
      prod statement as `DefinitionQuery` derives it. */
  function CreateStagingTable(ds: DefinitionScript): string {
    var st := SplitParts(ds.script).staging;
    if Truthy(st) then st.value
    else DefinitionQuery.StagingFromProd(CreateProdTable(ds), ds.name)
  }

  /** The first token of each clause; a blank clause has none, and `x[0]` raises. */
  function FirstTokens(clauses: seq<string>): (r: Result<seq<string>, Error>)
    ensures r.Success? <==> forall c | c in clauses :: Tokens(c) != []
    ensures r.Failure? ==> r.error == IndexError
    ensures r.Success? ==>
      && |r.value| == |clauses|
      && forall i :: 0 <= i < |clauses| ==> r.value[i] == Tokens(clauses[i])[0]
  {
    if clauses == [] then Success([])
    else if Tokens(clauses[0]) == [] then assert clauses[0] in clauses; Failure(IndexError)
    else
      assert forall c | c in clauses[1..] :: c in clauses;
      assert forall c | c in clauses :: c == clauses[0] || c in clauses[1..];
      var rest :- FirstTokens(clauses[1..]);
      Success([Tokens(clauses[0])[0]] + rest)
  }

  /** `_extract_columns_from_create_statement`: the text between the first `(` and the
      last `)` after it, normalised, stripped of outer parentheses and cut at every
      comma. A missing body reports the whole script. */
  function ExtractColumns(createStatement: string, script: string): Result<seq<string>, Error> {
    match ParenBody(createStatement)
    case None => Failure(ColumnsNotFoundError(script))
    case Some(body) =>
      var text := StripChars(StripWhitespacesAndNewlines(body), {'(', ')'});
      FirstTokens(Split(text, ",", -1))
  }

  /** `prod_columns` and `staging_columns`. */
  function ProdColumns(ds: DefinitionScript): Result<seq<string>, Error> {
    ExtractColumns(CreateProdTable(ds), ds.script)
  }

  function StagingColumns(ds: DefinitionScript): Result<seq<string>, Error> {
    ExtractColumns(CreateStagingTable(ds), ds.script)
  }

  /** `col = excluded.col` for every column, in order. */
  function SetClauses(columns: seq<string>): (r: seq<string>)
    ensures |r| == |columns|
    ensures forall i :: 0 <= i < |columns| ==> r[i] == columns[i] + " = excluded." + columns[i]
  {
    seq(|columns|, i requires 0 <= i < |columns| => columns[i] + " = excluded." + columns[i])
  }

  function UpsertHead(name: string): string {
    "\n        " + PopulateWarehousePattern(name) + "\n        SELECT "
  }

  function UpsertMiddle(name: string): string {
    " FROM " + name + UPSERT_CONFLICT
  }

  /** The rest of the text between the column list and the SET clauses. */
  const UPSERT_CONFLICT: string :=
    "_staging\n        WHERE true -- Disambiguates the following ON from potential JOIN ON\n        ON CONFLICT DO UPDATE\n        SET "

  const UPSERT_END: string := ";\n        "

  /** The derived upsert from the staging table into the prod table. */
  function UpsertFromStaging(name: string, columns: seq<string>): string {
    UpsertHead(name) + Join(", ", columns) + UpsertMiddle(name) + Join(", ", SetClauses(columns)) + UPSERT_END
  }

  /** `insert_from_staging_to_prod`. */
  function InsertFromStagingToProd(ds: DefinitionScript): Result<string, Error> {
    var st := SplitParts(ds.script).insert;
    if Truthy(st) then Success(st.value)
    else
      var columns :- ProdColumns(ds);
      Success(UpsertFromStaging(ds.name, columns))
  }

  /** `insert_values_into_staging`. */
  function InsertValuesIntoStaging(ds: DefinitionScript): Result<string, Error> {
    var columns :- StagingColumns(ds);
    Success(InsertValuesTemplate(ds.name + "_staging", columns))
  }

  // ---------------------------------------------------------------- validation

  /** The count test as written rejects only scripts with more than three `;`, although
      the documented rule is one or at least three statements. */
  lemma StatementCountRejectsOnlyAboveThree(script: string, name: string)
    ensures Make(script, name) == Failure(ModelValidationError(ScriptNumberOfStatementsError(name, CountChar(script, ';'))))
        <==> CountChar(script, ';') > 3
  {
  }

  /** An all-blank script with at most three `;` fails with the `IndexError` of
      `statements[0]`, which pydantic lets through unwrapped. */
  lemma BlankScriptRaisesIndexError(script: string, name: string)
    requires Pieces(script) == [] && CountChar(script, ';') <= 3
    ensures Make(script, name) == Failure(IndexError)
  {
  }

  /** A constructed script has a first piece with the prod create pattern, and when it
      has more pieces, exactly three of them, the second with the staging create pattern
      and the third with the prod insert. */
  lemma MadeScriptShape(script: string, name: string)
    requires Make(script, name).Success?
    ensures CountChar(script, ';') <= 3
    ensures var p := Pieces(script);
      && p != [] && Contains(p[0], CreateWarehousePattern(name))
      && (|p| > 1 ==> |p| == 3 && Contains(p[1], StagingCreatePattern(name))
                                 && Contains(p[2], PopulateWarehousePattern(name)))
  {
    var p := Pieces(script);
    SplitNoEmptyBounds(script, ";", 2);
    if |p| == 3 {
      assert p[2..] == [p[2]];
    }
  }

  /** A script with exactly two non-blank pieces is always refused: nothing follows the
      second piece, so no insert can be found. */
  lemma TwoStatementScriptRejected(script: string, name: string)
    requires |Pieces(script)| == 2
    ensures Make(script, name).Failure?
  {
    if Make(script, name).Success? {
      MadeScriptShape(script, name);
    }
  }

  /** A script `p0;p1;p2` with `;` in neither of the first two pieces, none of them blank. */
  lemma PiecesOfThree(p0: string, p1: string, p2: string)
    requires ';' !in p0 && ';' !in p1
    requires !Blank(p0) && !Blank(p1) && !Blank(p2)
    ensures Pieces(p0 + ";" + p1 + ";" + p2) == [p0, p1, p2]
    ensures CountChar(p0 + ";" + p1 + ";" + p2, ';') == 2 + CountChar(p2, ';')
  {
    SplitThree(p0, p1, p2);
    NonBlankOfNonBlank([p0, p1, p2]);
    CountCharOfJoined(p0, p1);
    CountCharConcat(p0 + ";" + p1, ";", ';');
    CountCharConcat(p0 + ";" + p1 + ";", p2, ';');
    CountCharAbsent(p1, ';');
  }

  lemma SplitThree(p0: string, p1: string, p2: string)
    requires ';' !in p0 && ';' !in p1
    ensures Split(p0 + ";" + p1 + ";" + p2, ";", 2) == [p0, p1, p2]
  {
    var t := p1 + ";" + p2;
    var s := p0 + ";" + t;
    assert p0 + ";" + p1 + ";" + p2 == s;
    SplitAtChar(p0, ';', t, 2);
    SplitAtChar(p1, ';', p2, 1);
    assert Split(p2, ";", 0) == [p2];
    assert [p0] + ([p1] + [p2]) == [p0, p1, p2];
  }

  lemma CountCharOfJoined(a: string, b: string)
    requires ';' !in a
    ensures CountChar(a + ";" + b, ';') == 1 + CountChar(b, ';')
  {
    CountCharConcat(a + ";", b, ';');
    CountCharConcat(a, ";", ';');
    CountCharAbsent(a, ';');
  }

  /** In the three-part form the parts are the first two pieces with their `;` back and
      the rest verbatim, and both are used as written. */
  lemma ThreePartScript(p0: string, p1: string, p2: string, name: string)
    requires ';' !in p0 && ';' !in p1
    requires !Blank(p0) && !Blank(p1) && !Blank(p2)
    ensures var ds := DefinitionScript(p0 + ";" + p1 + ";" + p2, name);
      && SplitParts(ds.script) == Parts(p0 + ";", Some(p1 + ";"), Some(p2))
      && CreateProdTable(ds) == p0 + ";"
      && CreateStagingTable(ds) == p1 + ";"
      && InsertFromStagingToProd(ds) == Success(p2)
  {
    PiecesOfThree(p0, p1, p2);
    BlankIffAllSpace(p2);
  }

  /** The three-part form is accepted exactly when the pieces carry their three patterns
      and the last piece has at most one `;`. */
  lemma ThreePartScriptAccepted(p0: string, p1: string, p2: string, name: string)
    requires ';' !in p0 && ';' !in p1
    requires !Blank(p0) && !Blank(p1) && !Blank(p2)
    ensures Make(p0 + ";" + p1 + ";" + p2, name).Success?
        <==> && CountChar(p2, ';') <= 1
             && Contains(p0, CreateWarehousePattern(name))
             && Contains(p1, StagingCreatePattern(name))
             && Contains(p2, PopulateWarehousePattern(name))
  {
    var script := p0 + ";" + p1 + ";" + p2;
    PiecesOfThree(p0, p1, p2);
    MakeOfThreePieces(script, name, p0, p1, p2);
  }

  lemma MakeOfThreePieces(script: string, name: string, a: string, b: string, c: string)
    requires Pieces(script) == [a, b, c]
    ensures Make(script, name).Success?
        <==> && CheckStatementCount(script, name).Pass?
             && Contains(a, CreateWarehousePattern(name))
             && Contains(b, StagingCreatePattern(name))
             && Contains(c, PopulateWarehousePattern(name))
  {
    assert Pieces(script)[2..] == [c];
    assert Join(";\n", [c]) == c;
  }

  /** A one-statement script `p;` followed by whitespace is checked on `p` alone, keeps
      the whole script as its prod statement and derives its staging statement. */
  lemma SingleStatementScript(p: string, tail: string, name: string)
    requires ';' !in p && !Blank(p) && AllSpace(tail)
    ensures var ds := DefinitionScript(p + ";" + tail, name);
      && Pieces(ds.script) == [p]
      && (Make(ds.script, name).Success? <==> Contains(p, CreateWarehousePattern(name)))
      && CreateProdTable(ds) == ds.script
      && CreateStagingTable(ds) == DefinitionQuery.StagingFromProd(ds.script, name)
  {
    PiecesOfOne(p, tail);
    CountCharOfJoined(p, tail);
    assert ';' !in tail by { SpaceIsNoSemicolon(tail); }
    CountCharAbsent(tail, ';');
  }

  lemma SpaceIsNoSemicolon(tail: string)
    requires AllSpace(tail)
    ensures ';' !in tail
  {
    forall i | 0 <= i < |tail| ensures tail[i] != ';' {
      assert IsSpace(tail[i]);
    }
  }

  lemma PiecesOfOne(p: string, tail: string)
    requires ';' !in p && !Blank(p) && AllSpace(tail)
    ensures Pieces(p + ";" + tail) == [p]
  {
    SplitAtChar(p, ';', tail, 2);
    SpaceIsNoSemicolon(tail);
    LacksSeparator(tail, ";");
    assert Split(tail, ";", 1) == [tail];
    assert Split(p + ";" + tail, ";", 2) == [p, tail];
    BlankIffAllSpace(tail);
    NonBlankAppend([p], [tail]);
    assert [p] + [tail] == [p, tail];
  }

  // ---------------------------------------------------------------- columns

  /** Without a `(` before a `)` the extraction fails, reporting the script. */
  lemma ExtractColumnsFailsOnlyWithoutBody(statement: string, script: string)
    ensures ExtractColumns(statement, script) == Failure(ColumnsNotFoundError(script))
        <==> !exists i, j :: 0 <= i < j < |statement| && statement[i] == '(' && statement[j] == ')'
  {
    ParenBodyNoneIff(statement);
  }

  /** Every extracted column is a single word without a comma. */
  lemma ExtractedColumnsAreWords(statement: string, script: string)
    ensures ExtractColumns(statement, script).Success? ==>
      forall c | c in ExtractColumns(statement, script).value :: IsWord(c) && ',' !in c
  {
    match ParenBody(statement)
    case None =>
    case Some(body) =>
      var text := StripChars(StripWhitespacesAndNewlines(body), {'(', ')'});
      var clauses := Split(text, ",", -1);
      SplitPiecesLackSeparator(text, ",", -1);
      if FirstTokens(clauses).Success? {
        var cols := FirstTokens(clauses).value;
        forall i | 0 <= i < |cols| ensures IsWord(cols[i]) && ',' !in cols[i] {
          var c := clauses[i];
          assert c in clauses;
          TokensAreWords(c);
          assert Tokens(c)[0] in Tokens(c);
          TokenInside(c, Tokens(c)[0]);
          ContainsChar(c, ',');
        }
      }
  }

  /** A token of a string is a piece of it. */
  lemma {:induction false} TokenInside(s: string, w: string)
    requires w in Tokens(s)
    ensures forall ch | ch in w :: ch in s
    decreases |s|
  {
    if IsSpace(s[0]) {
      TokenInside(s[1..], w);
    } else {
      var n := WordLength(s);
      if w != s[..n] {
        TokenInside(s[n..], w);
      }
    }
  }

  /** Bare column names, comma-separated inside the parentheses, come back in order. */
  lemma ExtractColumnsOfNames(prefix: string, names: seq<string>, suffix: string, script: string)
    requires '(' !in prefix && ')' !in suffix && names != []
    requires forall n | n in names :: IsWord(n) && ',' !in n && '(' !in n && ')' !in n
    ensures ExtractColumns(prefix + "(" + Join(",", names) + ")" + suffix, script) == Success(names)
  {
    var body := Join(",", names);
    ParenBodyOf(prefix, body, suffix);
    NamesBodyIsClean(names);
    SplitJoin(names, ",");
    FirstTokensOfNames(names);
  }

  lemma NamesBodyIsClean(names: seq<string>)
    requires names != []
    requires forall n | n in names :: IsWord(n) && '(' !in n && ')' !in n
    ensures StripChars(StripWhitespacesAndNewlines(Join(",", names)), {'(', ')'}) == Join(",", names)
  {
    var body := Join(",", names);
    JoinIsWord(",", names);
    TokensOfWord(body);
    NormalizedIsJoinedTokens(body);
    assert StripWhitespacesAndNewlines(body) == body;
    JoinLacksChar(",", names, '(');
    JoinLacksChar(",", names, ')');
    assert body[0] in body && body[|body| - 1] in body;
  }

  lemma FirstTokensOfNames(names: seq<string>)
    requires forall n | n in names :: IsWord(n)
    ensures FirstTokens(names) == Success(names)
  {
    forall n | n in names ensures Tokens(n) == [n] {
      TokensOfWord(n);
    }
    var r := FirstTokens(names);
    assert r.Success?;
    forall i | 0 <= i < |names| ensures r.value[i] == names[i] {
      assert names[i] in names;
      assert Tokens(names[i]) == [names[i]];
    }
    assert r.value == names;
  }

  // ---------------------------------------------------------------- derived statements

  /** The derived upsert inserts into the prod table, so it passes the insert check. */
  lemma UpsertInsertsIntoProd(name: string, columns: seq<string>)
    ensures Contains(UpsertFromStaging(name, columns), PopulateWarehousePattern(name))
  {
    var p := PopulateWarehousePattern(name);
    var head := UpsertHead(name);
    OccursAtConcat("\n        ", p, "\n        SELECT ");
    ContainsExtend(head, p, Join(", ", columns));
    ContainsExtend(head + Join(", ", columns), p, UpsertMiddle(name));
    ContainsExtend(head + Join(", ", columns) + UpsertMiddle(name), p, Join(", ", SetClauses(columns)));
    ContainsExtend(head + Join(", ", columns) + UpsertMiddle(name) + Join(", ", SetClauses(columns)), p, UPSERT_END);
  }

  /** After SELECT come the columns in order, and after SET one `col = excluded.col`
      per column, in the same order; both lists split back at `, `. */
  lemma UpsertLists(name: string, columns: seq<string>)
    requires columns != [] && forall c | c in columns :: ',' !in c
    ensures Split(Join(", ", columns), ", ", -1) == columns
    ensures var set_ := Split(Join(", ", SetClauses(columns)), ", ", -1);
      |set_| == |columns| && forall i :: 0 <= i < |columns| ==> set_[i] == columns[i] + " = excluded." + columns[i]
  {
    SplitJoin(columns, ", ");
    SetClausesSplit(columns);
  }

  lemma SetClausesSplit(columns: seq<string>)
    requires columns != [] && forall c | c in columns :: ',' !in c
    ensures Split(Join(", ", SetClauses(columns)), ", ", -1) == SetClauses(columns)
  {
    var clauses := SetClauses(columns);
    forall k | 0 <= k < |clauses| ensures ',' !in clauses[k] {
      assert columns[k] in columns;
      assert clauses[k] == columns[k] + " = excluded." + columns[k];
    }
    SplitJoin(clauses, ", ");
  }

  /** Without a written insert, the derived one is built from the prod columns. */
  lemma DerivedInsertFromColumns(ds: DefinitionScript)
    requires !Truthy(SplitParts(ds.script).insert) && ProdColumns(ds).Success?
    ensures InsertFromStagingToProd(ds) == Success(UpsertFromStaging(ds.name, ProdColumns(ds).value))
    ensures Contains(InsertFromStagingToProd(ds).value, PopulateWarehousePattern(ds.name))
  {
    UpsertInsertsIntoProd(ds.name, ProdColumns(ds).value);
  }

  /** The staging insert has one `?` per staging column, and lists the staging columns in
      order. */
  lemma InsertValuesPlaceholders(ds: DefinitionScript)
    requires StagingColumns(ds).Success? && StagingColumns(ds).value != []
    requires '?' !in ds.name && '(' !in ds.name
    requires forall c | c in StagingColumns(ds).value :: '?' !in c && ')' !in c
    ensures var cols := StagingColumns(ds).value;
      && InsertValuesIntoStaging(ds).Success?
      && CountChar(InsertValuesIntoStaging(ds).value, '?') == |cols|
      && FirstParenGroup(InsertValuesIntoStaging(ds).value) == Some(Join(", ", cols))
      && Split(Join(", ", cols), ", ", -1) == cols
  {
    var cols := StagingColumns(ds).value;
    ExtractedColumnsAreWords(CreateStagingTable(ds), ds.script);
    assert '?' !in ds.name + "_staging";
    assert '(' !in ds.name + "_staging";
    InsertTemplatePlaceholders(ds.name + "_staging", cols);
    InsertTemplateColumnOrder(ds.name + "_staging", cols);
  }
}
