/** `serie_a_db/sql_parsing.py`: validation and parsing of the SQL text of table
    definitions. Regular expressions are written out as the predicates they decide. */
module SqlParsing {
  import opened Wrappers
  import opened Exceptions
  import opened PyStr
  import opened Utils

  // ---------------------------------------------------------------- statements

  /** `split_statements`: the non-blank `;`-pieces, which must be exactly `numExpected`. */
  function SplitStatements(script: string, numExpected: int): Result<seq<string>, Error> {
    var statements := SplitNoEmpty(script, ";", -1);
    if |statements| != numExpected then Failure(NumberOfStatementsError(numExpected, |statements|))
    else Success(statements)
  }

  /** A script written as non-blank statements separated by `;` yields those statements
      when their number is expected, and a count error naming both numbers otherwise. */
  lemma SplitStatementsOfJoin(parts: seq<string>, numExpected: int)
    requires parts != []
    requires forall p | p in parts :: ';' !in p && !Blank(p)
    ensures SplitStatements(Join(";", parts), numExpected)
         == if numExpected == |parts| then Success(parts)
            else Failure(NumberOfStatementsError(numExpected, |parts|))
  {
    SplitNoEmptyOfJoin(parts, ';');
  }

  /** Whatever the script, a success holds exactly `numExpected` statements, none blank
      and none containing `;`. */
  lemma SplitStatementsShape(script: string, numExpected: int)
    ensures match SplitStatements(script, numExpected)
      case Success(st) => |st| == numExpected && forall p | p in st :: ';' !in p && !AllSpace(p)
      case Failure(e) => e == NumberOfStatementsError(numExpected, e.foundCount) && e.foundCount != numExpected
  {
    SplitNoEmptyBounds(script, ";", -1);
    forall p | p in SplitNoEmpty(script, ";", -1) ensures ';' !in p {
      ContainsChar(p, ';');
    }
  }

  // ---------------------------------------------------------------- validators

  /** Returns the statement when `pattern` occurs in it, raises `InvalidStatementError(pattern)` otherwise. */
  function RequirePattern(statement: string, pattern: string): Result<string, Error> {
    if Contains(statement, pattern) then Success(statement) else Failure(InvalidStatementError(pattern))
  }

  function CreateWarehousePattern(tableName: string): string {
    "CREATE TABLE IF NOT EXISTS " + tableName + " "
  }

  function PopulateWarehousePattern(tableName: string): string {
    "INSERT INTO " + tableName
  }

  function CreateStagingPattern(tableName: string): string {
    "CREATE TABLE " + tableName + " "
  }

  /** `validate_create_statement_wh`. */
  function ValidateCreateStatementWh(statement: string, tableName: string): Result<string, Error> {
    RequirePattern(statement, CreateWarehousePattern(tableName))
  }

  /** `validate_populate_statement_wh`. */
  function ValidatePopulateStatementWh(statement: string, tableName: string): Result<string, Error> {
    RequirePattern(statement, PopulateWarehousePattern(tableName))
  }

  /** `validate_create_staging_statement`. */
  function ValidateCreateStagingStatement(statement: string, tableName: string): Result<string, Error> {
    RequirePattern(statement, CreateStagingPattern(tableName))
  }

  /** `Contains` agrees with the decomposition reading of `pattern in statement`. */
  lemma ContainsIffDecomposes(statement: string, pattern: string)
    ensures Contains(statement, pattern) <==> exists a: string, b: string :: statement == a + pattern + b
  {
    if Contains(statement, pattern) {
      var i :| 0 <= i <= |statement| - |pattern| && OccursAt(statement, pattern, i);
      var a, b := statement[..i], statement[i + |pattern|..];
      assert statement == a + pattern + b;
    }
    if exists a: string, b: string :: statement == a + pattern + b {
      var a: string, b: string :| statement == a + pattern + b;
      OccursAtConcat(a, pattern, b);
    }
  }

  /** A validator hands back its input unchanged exactly when the statement can be written
      as some text, the pattern, and more text; otherwise it raises with the pattern. */
  lemma RequirePatternSpec(statement: string, pattern: string)
    ensures RequirePattern(statement, pattern).Success?
        <==> exists a: string, b: string :: statement == a + pattern + b
    ensures RequirePattern(statement, pattern).Success? ==> RequirePattern(statement, pattern).value == statement
    ensures RequirePattern(statement, pattern).Failure? ==> RequirePattern(statement, pattern).error == InvalidStatementError(pattern)
  {
    ContainsIffDecomposes(statement, pattern);
  }

  /** The three validators accept a statement holding their pattern. */
  lemma ValidatorsAcceptTheirPattern(a: string, b: string, name: string)
    ensures ValidateCreateStatementWh(a + CreateWarehousePattern(name) + b, name)
         == Success(a + CreateWarehousePattern(name) + b)
    ensures ValidatePopulateStatementWh(a + PopulateWarehousePattern(name) + b, name)
         == Success(a + PopulateWarehousePattern(name) + b)
    ensures ValidateCreateStagingStatement(a + CreateStagingPattern(name) + b, name)
         == Success(a + CreateStagingPattern(name) + b)
  {
    OccursAtConcat(a, CreateWarehousePattern(name), b);
    OccursAtConcat(a, PopulateWarehousePattern(name), b);
    OccursAtConcat(a, CreateStagingPattern(name), b);
  }

  // ---------------------------------------------------------------- dependencies

  predicate IsWordChar(c: char) {
    'a' <= c <= 'z' || 'A' <= c <= 'Z' || IsDigit(c) || c == '_'
  }

  predicate IsIdentifier(s: string) {
    s != [] && forall i :: 0 <= i < |s| ==> IsWordChar(s[i])
  }

  /** The characters the class `[^/w_-]` rejects once IGNORECASE applies to it. */
  predicate RejectedAsWritten(c: char) {
    c == '/' || c == 'w' || c == 'W' || c == '_' || c == '-'
  }

  /** The characters the class `[^\w-]` rejects: word characters and the hyphen. */
  predicate Rejected(c: char) {
    IsWordChar(c) || c == '-'
  }

  /** Ignoring ASCII case, a space and the table name occur at index `i`, and some
      character follows them. */
  predicate MentionAt(statement: string, table: string, i: int) {
    0 <= i < |statement| - |table| - 1 && OccursAt(Lower(statement), " " + Lower(table), i)
  }

  /** The regex ` {table}[^/w_-]`, searched with IGNORECASE, finds a match. */
  predicate ReferencesAsWritten(statement: string, table: string) {
    exists i | 0 <= i < |statement| && MentionAt(statement, table, i) :: !RejectedAsWritten(statement[i + |table| + 1])
  }

  /** The regex ` {table}[^\w-]`, searched with IGNORECASE, finds a match. */
  predicate References(statement: string, table: string) {
    exists i | 0 <= i < |statement| && MentionAt(statement, table, i) :: !Rejected(statement[i + |table| + 1])
  }

  /** `depends_on` as written: the tables whose name the regex ` {table}[^/w_-]` finds. */
  function DependsOnAsWritten(statement: string, allTables: set<string>): (r: set<string>)
    ensures r <= allTables
  {
    set t | t in allTables && ReferencesAsWritten(statement, t)
  }

  /** `depends_on` with the character class the code evidently means, `[^\w-]`: the name
      must not run on into a longer identifier. */
  function DependsOn(statement: string, allTables: set<string>): (r: set<string>)
    ensures r <= allTables
    ensures forall t | t in allTables :: t in r <==> References(statement, t)
  {
    set t | t in allTables && References(statement, t)
  }

  lemma {:induction false} LowerConcat(a: string, b: string)
    ensures Lower(a + b) == Lower(a) + Lower(b)
    decreases |a|
  {
    if a == [] {
      assert a + b == b;
    } else {
      assert (a + b)[1..] == a[1..] + b;
      LowerConcat(a[1..], b);
    }
  }

  /** As written, a name followed by any character outside `/`, `w`, `W`, `_`, `-` counts
      as a reference: ` {t}s` is a reference to `t` although ` {t}s` names another table. */
  lemma DependsOnAsWrittenCountsLongerName(t: string, c: char)
    requires !RejectedAsWritten(c)
    ensures DependsOnAsWritten(" " + t + [c], {t}) == {t}
  {
    var s := " " + t + [c];
    LowerConcat(" " + t, [c]);
    LowerConcat(" ", t);
    assert Lower(s) == " " + Lower(t) + [LowerChar(c)];
    assert Lower(s)[0..|t| + 1] == " " + Lower(t);
    assert MentionAt(s, t, 0);
    assert s[|t| + 1] == c;
  }

  /** The instance: `dm_team` is taken to be read by a statement on ` dm_teams`. */
  lemma DependsOnAsWrittenExample()
    ensures DependsOnAsWritten(" dm_teams", {"dm_team"}) == {"dm_team"}
  {
    DependsOnAsWrittenCountsLongerName("dm_team", 's');
    assert " " + "dm_team" + ['s'] == " dm_teams";
  }

  lemma LowerOfWordChars(s: string)
    requires forall i :: 0 <= i < |s| ==> IsWordChar(s[i])
    ensures forall i :: 0 <= i < |s| ==> IsWordChar(Lower(s)[i])
  {
  }

  lemma MentionInFramedWord(x: string, w: string, i: int)
    requires forall k :: 0 <= k < |x| ==> IsWordChar(x[k])
    requires forall k :: 0 <= k < |w| ==> IsWordChar(w[k])
    requires x != w && i + |x| + 1 < |w| + 2 && OccursAt(" " + w + ";", " " + x, i)
    ensures i == 0 && |x| < |w|
  {
    var s, p := " " + w + ";", " " + x;
    assert s[i..i + |p|][0] == s[i] == ' ';
    assert forall k :: 1 <= k <= |w| ==> s[k] == w[k - 1];
    assert x == s[1..|p|];
    assert w == s[1..|w| + 1];
  }

  /** In ` {u};` the only mention of another identifier `t` is at the start, as a proper
      prefix of `u`. */
  lemma MentionInSingleName(t: string, u: string, i: int)
    requires IsIdentifier(t) && IsIdentifier(u) && Lower(t) != Lower(u)
    requires MentionAt(" " + u + ";", t, i)
    ensures i == 0 && |t| < |u| && (" " + u + ";")[|t| + 1] == u[|t|]
  {
    LowerFramed(u);
    LowerOfWordChars(u);
    LowerOfWordChars(t);
    var s := " " + u + ";";
    assert OccursAt(Lower(s), " " + Lower(t), i);
    assert OccursAt(" " + Lower(u) + ";", " " + Lower(t), i);
    MentionInFramedWord(Lower(t), Lower(u), i);
  }

  lemma LowerFramed(u: string)
    ensures Lower(" " + u + ";") == " " + Lower(u) + ";"
  {
    LowerConcat(" " + u, ";");
    LowerConcat(" ", u);
    assert Lower(" ") == " " && Lower(";") == ";";
  }

  /** With the intended class, a statement that only mentions the identifier `u` (between
      a space and a `;`) depends on no other identifier `t`, even when `t` is a prefix of `u`. */
  lemma OtherIdentifierIsNoReference(t: string, u: string)
    requires IsIdentifier(t) && IsIdentifier(u) && Lower(t) != Lower(u)
    ensures DependsOn(" " + u + ";", {t}) == {}
  {
    var st := " " + u + ";";
    forall i | 0 <= i < |st| && MentionAt(st, t, i)
      ensures Rejected(st[i + |t| + 1])
    {
      MentionInSingleName(t, u, i);
    }
  }

  /** Where ` <name>_staging` occurs (ignoring ASCII case), the search finds the space and
      the name, but the character after them is `_`, which both classes reject. */
  lemma StagingMentionIsNoMatch(statement: string, name: string, i: int)
    requires 0 <= i && OccursAt(Lower(statement), " " + Lower(name) + "_staging", i)
    ensures MentionAt(statement, name, i) && statement[i + |name| + 1] == '_'
    ensures Rejected(statement[i + |name| + 1]) && RejectedAsWritten(statement[i + |name| + 1])
  {
    var low, pat := Lower(statement), " " + Lower(name) + "_staging";
    assert low[i..i + |pat|] == pat;
    assert low[i..i + |name| + 1] == pat[..|name| + 1] == " " + Lower(name);
    assert low[i + |name| + 1] == pat[|name| + 1] == '_';
  }

  /** A statement whose every mention of `<name>` goes on as `<name>_staging` depends on
      `<name>` under neither class: reading the staging table is no reference to the table. */
  lemma OnlyStagingMentions(statement: string, name: string)
    requires forall i | MentionAt(statement, name, i) ::
      OccursAt(Lower(statement), " " + Lower(name) + "_staging", i)
    ensures DependsOn(statement, {name}) == {}
    ensures DependsOnAsWritten(statement, {name}) == {}
  {
    forall i | 0 <= i < |statement| && MentionAt(statement, name, i)
      ensures Rejected(statement[i + |name| + 1]) && RejectedAsWritten(statement[i + |name| + 1])
    {
      StagingMentionIsNoMatch(statement, name, i);
    }
  }

  /** The one-name statement ` <name>_staging;` depends on `<name>` under neither class. */
  lemma StagingReferenceIsNoReference(name: string)
    requires IsIdentifier(name)
    ensures DependsOn(" " + name + "_staging;", {name}) == {}
    ensures DependsOnAsWritten(" " + name + "_staging;", {name}) == {}
  {
    var u := name + "_staging";
    StagingNameIsIdentifier(name);
    assert |Lower(u)| == |name| + 8;
    var st := " " + u + ";";
    assert st == " " + name + "_staging;";
    forall i | 0 <= i < |st| && MentionAt(st, name, i)
      ensures st[i + |name| + 1] == '_'
    {
      MentionInSingleName(name, u, i);
      assert u[|name|] == '_';
    }
  }

  lemma StagingNameIsIdentifier(name: string)
    requires IsIdentifier(name)
    ensures IsIdentifier(name + "_staging")
  {
    var u := name + "_staging";
    forall i | 0 <= i < |u|
      ensures IsWordChar(u[i])
    {
      if i < |name| {
        assert u[i] == name[i];
      } else {
        assert u[i] == "_staging"[i - |name|];
      }
    }
  }

  // ---------------------------------------------------------------- columns

  /** Index of the last occurrence of `c` in `s`. */
  function LastIndexOf(s: string, c: char): (r: Option<nat>)
    ensures r.Some? ==> r.value < |s| && s[r.value] == c
    ensures r.Some? ==> forall j :: r.value < j < |s| ==> s[j] != c
    ensures r.None? <==> c !in s
    decreases |s|
  {
    if s == [] then None
    else if s[|s| - 1] == c then Some(|s| - 1)
    else LastIndexOf(s[..|s| - 1], c)
  }

  /** The group `\(([\S\s.]*)\)` captures: the text between the first `(` and the last `)`,
      when that `)` comes after the `(`. */
  function ParenBody(s: string): Option<string> {
    match Find(s, "(")
    case None => None
    case Some(i) =>
      match LastIndexOf(s, ')')
      case None => None
      case Some(j) => if j > i then Some(s[i + 1..j]) else None
  }

  /** Without a `(` followed somewhere by a `)` there is no body, and conversely. */
  lemma ParenBodyNoneIff(s: string)
    ensures ParenBody(s).None? <==> !exists i, j :: 0 <= i < j < |s| && s[i] == '(' && s[j] == ')'
  {
    ContainsChar(s, '(');
    match Find(s, "(")
    case None =>
    case Some(i) =>
      assert s[i..i + 1][0] == s[i];
      match LastIndexOf(s, ')')
      case None =>
      case Some(j) =>
        if j <= i {
          forall a, b | 0 <= a < b < |s| && s[a] == '(' ensures s[b] != ')' {
            if a < i {
              assert s[a..a + 1] == "(";
              assert OccursAt(s, "(", a);
            }
          }
        }
  }

  lemma {:induction false} LastIndexOfIs(s: string, c: char, j: nat)
    requires j < |s| && s[j] == c && forall k :: j < k < |s| ==> s[k] != c
    ensures LastIndexOf(s, c) == Some(j)
    decreases |s|
  {
    if j < |s| - 1 {
      LastIndexOfIs(s[..|s| - 1], c, j);
    }
  }

  /** A body between a prefix with no `(` and a suffix with no `)` is found exactly. */
  lemma ParenBodyOf(prefix: string, body: string, suffix: string)
    requires '(' !in prefix && ')' !in suffix
    ensures ParenBody(prefix + "(" + body + ")" + suffix) == Some(body)
  {
    var s := prefix + "(" + body + ")" + suffix;
    var i, j := |prefix|, |prefix| + 1 + |body|;
    assert forall k :: 0 <= k < i ==> s[k] == prefix[k];
    FindChar(s, '(', i);
    assert forall k :: j < k < |s| ==> s[k] == suffix[k - j - 1];
    LastIndexOfIs(s, ')', j);
    assert s == (prefix + "(") + body + (")" + suffix);
    MiddleSlice(prefix + "(", body, ")" + suffix);
  }

  lemma MiddleSlice(a: string, b: string, c: string)
    ensures (a + b + c)[|a|..|a| + |b|] == b
  {
    var m := (a + b + c)[|a|..|a| + |b|];
    forall k | 0 <= k < |b| ensures m[k] == b[k] {
      assert m[k] == (a + b + c)[|a| + k];
    }
  }

  /** The clause keywords that are no column names. */
  const STAGING_KEYWORDS: set<string> := {"PRIMARY", "CHECK", "FOREIGN", "REFERENCES", "ON"}

  /** The non-blank lines, each normalised. */
  function NormalizedClauses(lines: seq<string>): (r: seq<string>)
    ensures forall c | c in r :: Tokens(c) != []
  {
    if lines == [] then []
    else if Blank(lines[0]) then NormalizedClauses(lines[1..])
    else
      var c := StripWhitespacesAndNewlines(lines[0]);
      BlankIffAllSpace(lines[0]);
      NormalizedTokens(lines[0]);
      TokensEmpty(lines[0]);
      [c] + NormalizedClauses(lines[1..])
  }

  /** The first word of each clause, trailing commas removed. */
  function FirstWords(clauses: seq<string>): (r: seq<string>)
    requires forall c | c in clauses :: Tokens(c) != []
    ensures |r| == |clauses|
    ensures forall n | n in r :: n == [] || n[|n| - 1] != ','
  {
    if clauses == [] then [] else [RStripChar(Tokens(clauses[0])[0], ',')] + FirstWords(clauses[1..])
  }

  /** The names whose upper-cased form is no keyword. */
  function DropKeywords(names: seq<string>, keywords: set<string>): (r: seq<string>)
    ensures forall n | n in r :: n in names && Upper(n) !in keywords
    ensures forall n | n in names && Upper(n) !in keywords :: n in r
  {
    if names == [] then []
    else if Upper(names[0]) in keywords then DropKeywords(names[1..], keywords)
    else [names[0]] + DropKeywords(names[1..], keywords)
  }

  /** The candidate column names of a CREATE TABLE statement, or `None` without a body. */
  function ColumnCandidates(statement: string, keywords: set<string>): Option<seq<string>> {
    var body :- ParenBody(statement);
    Some(BodyColumns(body, keywords))
  }

  /** The candidate column names of a CREATE TABLE body, line by line. */
  function BodyColumns(body: string, keywords: set<string>): seq<string> {
    DropKeywords(FirstWords(NormalizedClauses(Split(body, "\n", -1))), keywords)
  }

  /** No candidate is a keyword, and none ends in a comma. */
  lemma BodyColumnsShape(body: string, keywords: set<string>)
    ensures forall c | c in BodyColumns(body, keywords) :: Upper(c) !in keywords && (c == [] || c[|c| - 1] != ',')
  {
    var names := FirstWords(NormalizedClauses(Split(body, "\n", -1)));
    assert BodyColumns(body, keywords) == DropKeywords(names, keywords);
  }

  /** An empty body declares no column. */
  lemma EmptyBodyColumns(keywords: set<string>)
    ensures BodyColumns("", keywords) == []
  {
    assert Split("", "\n", -1) == [""];
    BlankIffAllSpace("");
    assert AllSpace("");
    assert [""][1..] == [];
    assert NormalizedClauses([""]) == [];
  }

  /** `extract_attributes_from_create_statement`. */
  function ExtractAttributesFromCreateStatement(statement: string): Result<seq<string>, Error> {
    match ColumnCandidates(statement, STAGING_KEYWORDS)
    case None => Failure(ColumnsNotFoundError(statement))
    case Some(columns) =>
      if columns == [] then Failure(ColumnsNotFoundError(statement)) else Success(columns)
  }

  /** The column one line of a CREATE TABLE body declares: nothing for a blank line or a
      keyword line, otherwise its first word without trailing commas. */
  function LineColumn(line: string, keywords: set<string>): seq<string> {
    if AllSpace(line) then []
    else
      TokensEmpty(line);
      var name := RStripChar(Tokens(line)[0], ',');
      if Upper(name) in keywords then [] else [name]
  }

  /** The columns the lines declare, line by line. */
  function LineColumns(lines: seq<string>, keywords: set<string>): seq<string> {
    if lines == [] then [] else LineColumn(lines[0], keywords) + LineColumns(lines[1..], keywords)
  }

  lemma {:induction false} PipelineIsLineByLine(lines: seq<string>, keywords: set<string>)
    ensures DropKeywords(FirstWords(NormalizedClauses(lines)), keywords) == LineColumns(lines, keywords)
    decreases |lines|
  {
    if lines != [] {
      PipelineIsLineByLine(lines[1..], keywords);
      PipelineHead(lines, keywords);
    }
  }

  /** The first line contributes its own column, ahead of those of the other lines. */
  lemma PipelineHead(lines: seq<string>, keywords: set<string>)
    requires lines != []
    ensures DropKeywords(FirstWords(NormalizedClauses(lines)), keywords)
         == LineColumn(lines[0], keywords) + DropKeywords(FirstWords(NormalizedClauses(lines[1..])), keywords)
  {
    var l, rest := lines[0], lines[1..];
    BlankIffAllSpace(l);
    var tail := NormalizedClauses(rest);
    if AllSpace(l) {
      assert NormalizedClauses(lines) == tail;
    } else {
      NormalizedTokens(l);
      TokensEmpty(l);
      var c := StripWhitespacesAndNewlines(l);
      assert NormalizedClauses(lines) == [c] + tail;
      FirstWordsCons(c, tail);
      var name := RStripChar(Tokens(l)[0], ',');
      assert FirstWords(NormalizedClauses(lines)) == [name] + FirstWords(tail);
      DropKeywordsCons(name, FirstWords(tail), keywords);
    }
  }

  lemma FirstWordsCons(c: string, tail: seq<string>)
    requires Tokens(c) != [] && forall d | d in tail :: Tokens(d) != []
    ensures FirstWords([c] + tail) == [RStripChar(Tokens(c)[0], ',')] + FirstWords(tail)
  {
    assert ([c] + tail)[1..] == tail;
  }

  lemma DropKeywordsCons(n: string, names: seq<string>, keywords: set<string>)
    ensures DropKeywords([n] + names, keywords)
         == (if Upper(n) in keywords then [] else [n]) + DropKeywords(names, keywords)
  {
    assert ([n] + names)[1..] == names;
  }

  /** Column extraction reads the first word of each line between the first `(` and the
      last `)`, skipping blank lines and dropping keyword lines, in order. */
  lemma ColumnCandidatesOf(prefix: string, lines: seq<string>, suffix: string, keywords: set<string>)
    requires '(' !in prefix && ')' !in suffix
    requires lines != [] && forall l | l in lines :: '\n' !in l
    ensures ColumnCandidates(prefix + "(" + Join("\n", lines) + ")" + suffix, keywords)
         == Some(LineColumns(lines, keywords))
  {
    ParenBodyOf(prefix, Join("\n", lines), suffix);
    SplitJoin(lines, "\n");
    PipelineIsLineByLine(lines, keywords);
    assert BodyColumns(Join("\n", lines), keywords) == LineColumns(lines, keywords);
  }

  /** Under those conditions extraction fails exactly when no line declares a column. */
  lemma ExtractAttributesOf(prefix: string, lines: seq<string>, suffix: string)
    requires '(' !in prefix && ')' !in suffix
    requires lines != [] && forall l | l in lines :: '\n' !in l
    ensures var statement := prefix + "(" + Join("\n", lines) + ")" + suffix;
      ExtractAttributesFromCreateStatement(statement)
      == if LineColumns(lines, STAGING_KEYWORDS) == [] then Failure(ColumnsNotFoundError(statement))
         else Success(LineColumns(lines, STAGING_KEYWORDS))
  {
    ColumnCandidatesOf(prefix, lines, suffix, STAGING_KEYWORDS);
  }

  /** A statement with no `(` before a `)` has no columns. */
  lemma ExtractAttributesWithoutBody(statement: string)
    requires !exists i, j :: 0 <= i < j < |statement| && statement[i] == '(' && statement[j] == ')'
    ensures ExtractAttributesFromCreateStatement(statement) == Failure(ColumnsNotFoundError(statement))
  {
    ParenBodyNoneIff(statement);
  }

  /** Every extracted column is a non-empty word without whitespace, no keyword, and not
      ending in a comma. */
  lemma ExtractedColumnsShape(statement: string)
    ensures ExtractAttributesFromCreateStatement(statement).Success? ==>
      var cols := ExtractAttributesFromCreateStatement(statement).value;
      cols != [] && forall c | c in cols :: Upper(c) !in STAGING_KEYWORDS && (c == [] || c[|c| - 1] != ',')
  {
    match ParenBody(statement)
    case None =>
    case Some(body) =>
      BodyColumnsShape(body, STAGING_KEYWORDS);
      assert ColumnCandidates(statement, STAGING_KEYWORDS) == Some(BodyColumns(body, STAGING_KEYWORDS));
  }

  // ---------------------------------------------------------------- derived statements

  function Placeholders(n: nat): (r: seq<string>)
    ensures |r| == n && forall i :: 0 <= i < n ==> r[i] == "?"
  {
    seq(n, _ => "?")
  }

  function InsertTarget(tableName: string): string {
    "INSERT INTO " + tableName
  }

  /** What follows the column list: the `VALUES(?, ?, ...)` part with its closing text. */
  function InsertTail(n: nat): string {
    "\n        VALUES(" + Join(", ", Placeholders(n)) + ");"
  }

  /** The parameterised INSERT the staging load uses: the columns, then one `?` per column. */
  function InsertValuesTemplate(tableName: string, columns: seq<string>): string {
    InsertTarget(tableName) + "(" + Join(", ", columns) + ")" + InsertTail(|columns|)
  }

  /** `derive_populate_staging_statement`. */
  function DerivePopulateStagingStatement(definition: string, tableName: string): Result<string, Error> {
    var columns :- ExtractAttributesFromCreateStatement(definition);
    Success(InsertValuesTemplate(tableName, columns))
  }

  /** `derive_drop_table_statement`. */
  function DeriveDropTableStatement(tableName: string): string {
    "DROP TABLE IF EXISTS " + tableName + ";"
  }

  lemma {:induction false} JoinLacksChar(sep: string, parts: seq<string>, c: char)
    requires c !in sep && forall p | p in parts :: c !in p
    ensures c !in Join(sep, parts)
    decreases |parts|
  {
    if |parts| > 1 {
      JoinLacksChar(sep, parts[1..], c);
    } else if |parts| == 1 {
      assert parts[0] in parts;
    }
  }

  lemma {:induction false} CountPlaceholders(n: nat)
    ensures CountChar(Join(", ", Placeholders(n)), '?') == n
    decreases n
  {
    if n == 1 {
      assert Join(", ", Placeholders(1)) == "?";
    } else if n > 1 {
      CountPlaceholders(n - 1);
      assert Placeholders(n)[1..] == Placeholders(n - 1);
      CountCharConcat("?" + ", ", Join(", ", Placeholders(n - 1)), '?');
      assert CountChar("?, ", '?') == 1;
    }
  }

  lemma CountCharSurrounded(a: string, b: string, c: string, ch: char)
    requires ch !in a && ch !in c
    ensures CountChar(a + b + c, ch) == CountChar(b, ch)
  {
    CountCharAbsent(a, ch);
    CountCharAbsent(c, ch);
    CountCharConcat(a, b, ch);
    CountCharConcat(a + b, c, ch);
  }

  lemma InsertTailCount(n: nat)
    ensures CountChar(InsertTail(n), '?') == n
  {
    CountPlaceholders(n);
    CountCharSurrounded("\n        VALUES(", Join(", ", Placeholders(n)), ");", '?');
  }

  /** The template holds exactly one `?` per column when no name holds one. */
  lemma InsertTemplatePlaceholders(tableName: string, columns: seq<string>)
    requires '?' !in tableName && forall c | c in columns :: '?' !in c
    ensures CountChar(InsertValuesTemplate(tableName, columns), '?') == |columns|
  {
    var head := InsertTarget(tableName) + "(" + Join(", ", columns) + ")";
    JoinLacksChar(", ", columns, '?');
    CountCharAbsent(head, '?');
    InsertTailCount(|columns|);
    CountCharConcat(head, InsertTail(|columns|), '?');
  }

  /** The derived populate statement lists the declared columns in order, one `?` each,
      and fails with `ColumnsNotFoundError` when no line declares a column. */
  lemma DerivePopulateStagingOf(prefix: string, lines: seq<string>, suffix: string, tableName: string)
    requires '(' !in prefix && ')' !in suffix
    requires lines != [] && forall l | l in lines :: '\n' !in l
    requires '?' !in tableName && forall c | c in LineColumns(lines, STAGING_KEYWORDS) :: '?' !in c
    ensures var statement := prefix + "(" + Join("\n", lines) + ")" + suffix;
      var r := DerivePopulateStagingStatement(statement, tableName);
      var cols := LineColumns(lines, STAGING_KEYWORDS);
      && (cols == [] ==> r == Failure(ColumnsNotFoundError(statement)))
      && (cols != [] ==> r == Success(InsertValuesTemplate(tableName, cols)) && CountChar(r.value, '?') == |cols|)
  {
    ExtractAttributesOf(prefix, lines, suffix);
    InsertTemplatePlaceholders(tableName, LineColumns(lines, STAGING_KEYWORDS));
  }

  /** The text between the first `(` and the first `)` after it. */
  function FirstParenGroup(s: string): Option<string> {
    match Find(s, "(")
    case None => None
    case Some(i) =>
      match Find(s[i + 1..], ")")
      case None => None
      case Some(j) => Some(s[i + 1..][..j])
  }

  lemma FirstParenGroupOf(prefix: string, group: string, suffix: string)
    requires '(' !in prefix && ')' !in group
    ensures FirstParenGroup(prefix + "(" + group + ")" + suffix) == Some(group)
  {
    var s := prefix + "(" + group + ")" + suffix;
    assert forall k :: 0 <= k < |prefix| ==> s[k] == prefix[k];
    FindChar(s, '(', |prefix|);
    var rest := s[|prefix| + 1..];
    assert rest == group + ")" + suffix;
    assert forall k :: 0 <= k < |group| ==> rest[k] == group[k];
    FindChar(rest, ')', |group|);
    assert rest[..|group|] == group;
  }

  /** The template's column list reads back, split at `, `, as the columns in their order. */
  lemma InsertTemplateColumnOrder(tableName: string, columns: seq<string>)
    requires '(' !in tableName && columns != []
    requires forall c | c in columns :: ',' !in c && ')' !in c
    ensures FirstParenGroup(InsertValuesTemplate(tableName, columns)) == Some(Join(", ", columns))
    ensures Split(Join(", ", columns), ", ", -1) == columns
  {
    JoinLacksChar(", ", columns, ')');
    FirstParenGroupOf(InsertTarget(tableName), Join(", ", columns), InsertTail(|columns|));
    SplitJoin(columns, ", ");
  }

  lemma DropStatementPieces(tableName: string)
    requires ';' !in tableName
    ensures Split(DeriveDropTableStatement(tableName), ";", -1) == ["DROP TABLE IF EXISTS " + tableName, ""]
  {
    var x := "DROP TABLE IF EXISTS " + tableName;
    assert Join(";", [x, ""]) == DeriveDropTableStatement(tableName);
    assert ';' !in x;
    SplitJoin([x, ""], ";");
  }

  lemma DropStatementNotBlank(tableName: string)
    ensures !Blank("DROP TABLE IF EXISTS " + tableName)
  {
    var x := "DROP TABLE IF EXISTS " + tableName;
    BlankIffAllSpace(x);
    assert !IsSpace(x[0]);
  }

  /** The drop statement is one statement: splitting it gives back its text before the `;`. */
  lemma DropStatementIsOneStatement(tableName: string)
    requires ';' !in tableName
    ensures SplitStatements(DeriveDropTableStatement(tableName), 1)
         == Success(["DROP TABLE IF EXISTS " + tableName])
  {
    DropStatementPieces(tableName);
    DropStatementNotBlank(tableName);
    BlankIffAllSpace("");
    var x := "DROP TABLE IF EXISTS " + tableName;
    assert [x, ""][1..] == [""];
    assert AllSpace("");
    assert NonBlank([""]) == NonBlank([]);
    assert NonBlank([x, ""]) == [x];
    assert SplitNoEmpty(DeriveDropTableStatement(tableName), ";", -1) == [x];
  }
}
