/** `serie_a_db/db/update_tables/parse_sql_script.py`: the older SQL parsing helpers.
    Splitting and the three validators are the same as in `SqlParsing`; what differs is
    the substring dependency test and the column extraction, which filters only
    PRIMARY and CHECK and never fails once a body is found. */
module ParseSqlScript {
  import opened Wrappers
  import opened Exceptions
  import opened PyStr
  import opened SqlParsing

  /** `depends_on`: the tables whose name occurs anywhere in the statement. */
  function DependsOn(statement: string, allTables: set<string>): (r: set<string>)
    ensures r <= allTables
  {
    set t | t in allTables && Contains(statement, t)
  }

  /** A table is a dependency exactly when the statement can be cut around its name. */
  lemma DependsOnSpec(statement: string, allTables: set<string>, t: string)
    ensures t in DependsOn(statement, allTables)
        <==> t in allTables && exists a: string, b: string :: statement == a + t + b
  {
    ContainsIffDecomposes(statement, t);
  }

  /** A plain substring test counts a reference to `<name>_staging` as one to `<name>`. */
  lemma StagingReferenceCounts(a: string, name: string, b: string)
    ensures DependsOn(a + name + "_staging" + b, {name}) == {name}
  {
    assert a + name + "_staging" + b == a + name + ("_staging" + b);
    OccursAtConcat(a, name, "_staging" + b);
  }

  const PROD_KEYWORDS: set<string> := {"PRIMARY", "CHECK"}

  /** `extract_columns_from_create_statement`. */
  function ExtractColumnsFromCreateStatement(statement: string): Result<seq<string>, Error> {
    match ColumnCandidates(statement, PROD_KEYWORDS)
    case None => Failure(ColumnsNotFoundError(statement))
    case Some(columns) => Success(columns)
  }

  /** Once the body is found every line is read, keeping all first words but PRIMARY and
      CHECK; an empty result is no error. */
  lemma ExtractColumnsOf(prefix: string, lines: seq<string>, suffix: string)
    requires '(' !in prefix && ')' !in suffix
    requires lines != [] && forall l | l in lines :: '\n' !in l
    ensures ExtractColumnsFromCreateStatement(prefix + "(" + Join("\n", lines) + ")" + suffix)
         == Success(LineColumns(lines, PROD_KEYWORDS))
  {
    ColumnCandidatesOf(prefix, lines, suffix, PROD_KEYWORDS);
  }

  /** The only failure is a statement with no `(` before a `)`. */
  lemma ExtractColumnsFailsOnlyWithoutBody(statement: string)
    ensures ExtractColumnsFromCreateStatement(statement).Failure?
        <==> !exists i, j :: 0 <= i < j < |statement| && statement[i] == '(' && statement[j] == ')'
    ensures ExtractColumnsFromCreateStatement(statement).Failure? ==>
      ExtractColumnsFromCreateStatement(statement).error == ColumnsNotFoundError(statement)
  {
    ParenBodyNoneIff(statement);
  }

  /** An empty body gives an empty column list, not an error. */
  lemma EmptyBodyGivesNoColumns(prefix: string, suffix: string)
    requires '(' !in prefix && ')' !in suffix
    ensures ExtractColumnsFromCreateStatement(prefix + "()" + suffix) == Success([])
  {
    assert prefix + "()" + suffix == prefix + "(" + "" + ")" + suffix;
    ParenBodyOf(prefix, "", suffix);
    EmptyBodyColumns(PROD_KEYWORDS);
  }

  /** `infer_populate_staging_statement`. */
  function InferPopulateStagingStatement(definition: string, tableName: string): Result<string, Error> {
    var columns :- ExtractColumnsFromCreateStatement(definition);
    Success(InsertValuesTemplate(tableName, columns))
  }

  /** The inferred statement lists the declared columns in order, one `?` each. */
  lemma InferPopulateStagingOf(prefix: string, lines: seq<string>, suffix: string, tableName: string)
    requires '(' !in prefix && ')' !in suffix
    requires lines != [] && forall l | l in lines :: '\n' !in l
    requires '?' !in tableName && forall c | c in LineColumns(lines, PROD_KEYWORDS) :: '?' !in c
    ensures var r := InferPopulateStagingStatement(prefix + "(" + Join("\n", lines) + ")" + suffix, tableName);
      && r == Success(InsertValuesTemplate(tableName, LineColumns(lines, PROD_KEYWORDS)))
      && CountChar(r.value, '?') == |LineColumns(lines, PROD_KEYWORDS)|
  {
    ExtractColumnsOf(prefix, lines, suffix);
    InsertTemplatePlaceholders(tableName, LineColumns(lines, PROD_KEYWORDS));
  }
}
