/**
 * `TextToSQLAgent`: the safety gate, the markdown-fence stripper, and the
 * two orchestration methods that tie the schema lookup, the prompt, the
 * language model and the database together.
 */
module Agent {
  import opened Results
  import opened PyStr
  import opened Prompts
  import opened SchemaFormat
  import opened Services

  // ---------------------------------------------------------------------
  // The safety gate

  const DangerousKeywords: seq<string> := ["DROP", "DELETE", "UPDATE", "INSERT", "ALTER", "CREATE", "TRUNCATE"]

  const OnlySelectMessage: string := "Only SELECT queries are allowed"

  /** The text the gate inspects: the query trimmed and upper-cased. */
  function GateText(query: string): string {
    Upper(Strip(query))
  }

  /**
   * The gate's verdict: the inspected text starts with `SELECT` and none
   * of the denylisted keywords occurs anywhere in it. A substring test,
   * not a parse: a keyword inside an identifier counts.
   */
  predicate Safe(query: string) {
    StartsWith(GateText(query), "SELECT")
    && forall k | k in DangerousKeywords :: !Contains(GateText(query), k)
  }

  /** `_is_safe_query`: the prefix test, then the keywords one by one, stopping at the first hit. */
  method IsSafeQuery(query: string) returns (safe: bool)
    ensures safe <==> Safe(query)
  {
    var upper := Upper(Strip(query));
    if !StartsWith(upper, "SELECT") {
      return false;
    }
    for i := 0 to |DangerousKeywords|
      invariant forall j | 0 <= j < i :: !Contains(upper, DangerousKeywords[j])
    {
      if Contains(upper, DangerousKeywords[i]) {
        return false;
      }
    }
    return true;
  }

  /** The gate does not care about case. */
  lemma SafeIgnoresCase(query: string)
    ensures Safe(Upper(query)) == Safe(query)
  {
    StripUpper(query);
    UpperIdempotent(Strip(query));
  }

  /** The gate does not care about surrounding whitespace. */
  lemma SafeIgnoresPadding(a: string, query: string, b: string)
    requires AllSpace(a) && AllSpace(b)
    ensures Safe(a + query + b) == Safe(query)
  {
    StripPadded(a, query, b);
  }

  /**
   * A denylisted keyword anywhere in the upper-cased query, even inside a
   * longer word, makes the gate reject it.
   */
  lemma KeywordAnywhereRejected(query: string, k: string)
    requires k in DangerousKeywords && Contains(Upper(query), k)
    ensures !Safe(query)
  {
    var a, b := StripSplit(query);
    var m := Strip(query);
    UpperConcat(a + m, b);
    UpperConcat(a, m);
    UpperKeepsSpace(a);
    UpperKeepsSpace(b);
    ContainsInner(Upper(a), Upper(m), Upper(b), k);
  }

  /** Only a query whose trimmed text begins with `select`, in any case, can pass. */
  lemma SafeStartsWithSelect(query: string)
    requires Safe(query)
    ensures |Strip(query)| >= 6 && forall i | 0 <= i < 6 :: UpperChar(Strip(query)[i]) == "SELECT"[i]
  {
    var u := GateText(query);
    forall i | 0 <= i < 6
      ensures UpperChar(Strip(query)[i]) == "SELECT"[i]
    {
      assert u[..6][i] == u[i];
    }
  }

  /** A trimmed statement whose first letter is not `s` or `S` is rejected. */
  lemma NotSelectRejected(query: string)
    requires Trimmed(query) && |query| > 0 && UpperChar(query[0]) != 'S'
    ensures !Safe(query)
  {
    StripTrimmed(query);
    assert GateText(query)[0] != "SELECT"[0];
  }

  /** The seven write and DDL statements of the test suite are rejected. */
  lemma WriteStatementsRejected()
    ensures !Safe("DROP TABLE users;")
    ensures !Safe("DELETE FROM users WHERE id = 1;")
    ensures !Safe("UPDATE users SET name = 'test';")
    ensures !Safe("INSERT INTO users VALUES (1, 'test');")
    ensures !Safe("ALTER TABLE users ADD COLUMN test VARCHAR;")
    ensures !Safe("CREATE TABLE test (id INT);")
    ensures !Safe("TRUNCATE TABLE users;")
  {
    NotSelectRejected("DROP TABLE users;");
    NotSelectRejected("DELETE FROM users WHERE id = 1;");
    NotSelectRejected("UPDATE users SET name = 'test';");
    NotSelectRejected("INSERT INTO users VALUES (1, 'test');");
    NotSelectRejected("ALTER TABLE users ADD COLUMN test VARCHAR;");
    NotSelectRejected("CREATE TABLE test (id INT);");
    NotSelectRejected("TRUNCATE TABLE users;");
  }

  /** `created_at` contains `CREATE` once upper-cased, so this harmless read is rejected. */
  lemma CreatedAtRejected()
    ensures !Safe("SELECT created_at FROM users")
  {
    var q := "SELECT created_at FROM users";
    UpperCreatedAt();
    CreateAt7(Upper(q));
    KeywordAnywhereRejected(q, "CREATE");
  }

  lemma UpperCreatedAt()
    ensures Upper("SELECT created_at FROM users") == "SELECT CREATED_AT FROM USERS"
  {
  }

  lemma CreateAt7(u: string)
    requires u == "SELECT CREATED_AT FROM USERS"
    ensures Contains(u, "CREATE")
  {
    assert OccursAt(u, "CREATE", 7);
  }

  /** The first three letters of every denylisted keyword, as one test on three characters. */
  predicate KeywordStart(a: char, b: char, c: char) {
    || (a == 'D' && b == 'R' && c == 'O')
    || (a == 'D' && b == 'E' && c == 'L')
    || (a == 'U' && b == 'P' && c == 'D')
    || (a == 'I' && b == 'N' && c == 'S')
    || (a == 'A' && b == 'L' && c == 'T')
    || (a == 'C' && b == 'R' && c == 'E')
    || (a == 'T' && b == 'R' && c == 'U')
  }

  /** No denylisted keyword even begins anywhere in `u`: a check that settles literals. */
  predicate NoKeywordStarts(u: string) {
    forall i | 0 <= i <= |u| - 3 :: !KeywordStart(u[i], u[i + 1], u[i + 2])
  }

  /** Proves `Safe` for a trimmed query whose upper-cased text is `u`. */
  lemma SafeByScan(query: string, u: string)
    requires Trimmed(query) && Upper(query) == u && StartsWith(u, "SELECT") && NoKeywordStarts(u)
    ensures Safe(query)
  {
    StripTrimmed(query);
    forall k | k in DangerousKeywords
      ensures !Contains(u, k)
    {
      AbsentByPrefix(u, k);
    }
  }

  lemma UpperUsers()
    ensures Upper("SELECT * FROM users;") == "SELECT * FROM USERS;"
  {
  }

  lemma ScanUsers(u: string)
    requires u == "SELECT * FROM USERS;"
    ensures NoKeywordStarts(u)
  {
    forall i | 0 <= i <= |u| - 3
      ensures !KeywordStart(u[i], u[i + 1], u[i + 2])
    {
    }
  }

  lemma UpperPosts()
    ensures Upper("select id, name from posts;") == "SELECT ID, NAME FROM POSTS;"
  {
  }

  lemma ScanPosts(u: string)
    requires u == "SELECT ID, NAME FROM POSTS;"
    ensures NoKeywordStarts(u)
  {
    forall i | 0 <= i <= |u| - 3
      ensures !KeywordStart(u[i], u[i + 1], u[i + 2])
    {
    }
  }

  lemma UpperGrant()
    ensures Upper("SELECT 1; GRANT ALL ON users TO bob") == "SELECT 1; GRANT ALL ON USERS TO BOB"
  {
  }

  lemma ScanGrant(u: string)
    requires u == "SELECT 1; GRANT ALL ON USERS TO BOB"
    ensures NoKeywordStarts(u)
  {
    forall i | 0 <= i <= |u| - 3
      ensures !KeywordStart(u[i], u[i + 1], u[i + 2])
    {
    }
  }

  /** The reads of the test suite pass, in either case. */
  lemma ReadsAccepted()
    ensures Safe("SELECT * FROM users;")
    ensures Safe("select id, name from posts;")
  {
    UpperUsers();
    ScanUsers("SELECT * FROM USERS;");
    SafeByScan("SELECT * FROM users;", "SELECT * FROM USERS;");
    UpperPosts();
    ScanPosts("SELECT ID, NAME FROM POSTS;");
    SafeByScan("select id, name from posts;", "SELECT ID, NAME FROM POSTS;");
  }

  /** The denylist is all the gate knows: a `GRANT` after a harmless `SELECT` passes. */
  lemma GrantAccepted()
    ensures Safe("SELECT 1; GRANT ALL ON users TO bob")
  {
    UpperGrant();
    ScanGrant("SELECT 1; GRANT ALL ON USERS TO BOB");
    SafeByScan("SELECT 1; GRANT ALL ON users TO bob", "SELECT 1; GRANT ALL ON USERS TO BOB");
  }

  // ---------------------------------------------------------------------
  // The fence stripper

  const SqlFence: string := "```sql"
  const Fence: string := "```"

  /**
   * `_clean_sql_query`: trim; drop one leading "```sql", or else one
   * leading "```"; drop one trailing "```"; trim again.
   */
  function CleanSqlQuery(raw: string): (r: string)
    ensures Trimmed(r)
    ensures IsSlice(r, raw)
  {
    var s0 := Strip(raw);
    var s1 := if StartsWith(s0, SqlFence) then s0[6..] else if StartsWith(s0, Fence) then s0[3..] else s0;
    var s2 := if EndsWith(s1, Fence) then s1[..|s1| - 3] else s1;
    StripSlice(raw);
    assert IsSlice(s1, s0) by {
      assert s0[|s0| - |s1|..|s0|] == s1;
    }
    assert IsSlice(s2, s1) by {
      assert s1[0..|s2|] == s2;
    }
    StripSlice(s2);
    SliceOfSlice(s1, s0, raw);
    SliceOfSlice(s2, s1, raw);
    SliceOfSlice(Strip(s2), s2, raw);
    Strip(s2)
  }

  /** Without fences the stripper only trims. */
  lemma CleanUnfenced(raw: string)
    requires !StartsWith(Strip(raw), Fence) && !EndsWith(Strip(raw), Fence)
    ensures CleanSqlQuery(raw) == Strip(raw)
  {
    assert SqlFence[..3] == Fence;
    StartsWithShorter(Strip(raw), SqlFence, Fence);
    StripPadded([], raw, []);
    assert [] + raw + [] == raw;
  }

  /** A fenced block of a trimmed query, with or without the `sql` tag, cleans to the query. */
  lemma CleanFenced(q: string)
    requires Trimmed(q)
    ensures CleanSqlQuery(SqlFence + "\n" + q + "\n" + Fence) == q
    ensures CleanSqlQuery(Fence + "\n" + q + "\n" + Fence) == q
  {
    CleanFencedWith(SqlFence, q);
    CleanFencedWith(Fence, q);
  }

  lemma CleanFencedWith(opening: string, q: string)
    requires opening == SqlFence || opening == Fence
    requires Trimmed(q)
    ensures CleanSqlQuery(opening + "\n" + q + "\n" + Fence) == q
  {
    var rest := "\n" + q + "\n" + Fence;
    var raw := opening + rest;
    assert raw == opening + "\n" + q + "\n" + Fence;
    assert raw[0] == '`' && raw[|raw| - 1] == '`';
    StripTrimmed(raw);
    assert raw[..|opening|] == opening;
    if opening == Fence {
      assert raw[3] == rest[0] == '\n';
      assert raw[..6][3] != SqlFence[3];
    }
    var s1 := raw[|opening|..];
    assert s1 == rest;
    assert s1[|s1| - 3..] == Fence;
    var s2 := s1[..|s1| - 3];
    assert s2 == "\n" + q + "\n";
    StripOf("\n", q, "\n");
  }

  /**
   * Only one fence is removed at each end, so cleaning twice can differ
   * from cleaning once.
   */
  lemma CleanNotIdempotent()
    ensures CleanSqlQuery(SqlFence + SqlFence + " x") == SqlFence + " x"
    ensures CleanSqlQuery(SqlFence + " x") == "x"
  {
    CleanOnce(SqlFence, SqlFence + " x");
    CleanOnce(SqlFence, " x");
    StripOf(" ", "x", "");
    assert " " + "x" + "" == " x";
  }

  /** A trimmed `sql`-fenced text ending in a letter loses only its opening fence (and then padding). */
  lemma CleanOnce(opening: string, t: string)
    requires opening == SqlFence && |t| > 0 && t[|t| - 1] == 'x'
    ensures CleanSqlQuery(opening + t) == Strip(t)
  {
    var raw := opening + t;
    assert raw[0] == '`' && raw[|raw| - 1] == 'x';
    StripTrimmed(raw);
    assert raw[..6] == SqlFence;
    assert raw[6..] == t;
    EndsWithLast(t, Fence);
  }

  // ---------------------------------------------------------------------
  // Orchestration

  /** What `generate_sql` returns for the model's answer: a failure passes through, text is cleaned. */
  function Cleaned(answer: Result<string, Error>): Result<string, Error> {
    match answer
    case Failure(e) => Failure(e)
    case Success(text) => Success(CleanSqlQuery(text))
  }

  /**
   * What one `generate_sql` call adds to the logs and returns: the
   * metadata query; then, if the schema could be formatted, one model call
   * with the system message for that schema and the user message for the
   * question, whose cleaned answer is the result.
   */
  ghost predicate GenerationRecord(question: string, dbAdded: seq<DbCall>, llmAdded: seq<LlmCall>, sql: Result<string, Error>) {
    |dbAdded| == 1 && dbAdded[0].0 == SchemaQuery
    && match SchemaFromAnswer(dbAdded[0].1)
       case Failure(e) => llmAdded == [] && sql == Failure(e)
       case Success(schema) =>
         |llmAdded| == 1
         && llmAdded[0].0 == BuildSystemMessage(schema)
         && llmAdded[0].1 == BuildUserMessage(question)
         && sql == Cleaned(llmAdded[0].2)
  }

  /**
   * What `execute_query` adds to the database log after generation and
   * returns: nothing and the error if generation failed; nothing and the
   * `ValueError` if the gate rejects the query; otherwise exactly one
   * `run_sql` call with the query, whose answer is the result.
   */
  ghost predicate ExecutionRecord(sql: Result<string, Error>, dbAdded: seq<DbCall>, r: Result<seq<Row>, Error>) {
    match sql
    case Failure(e) => dbAdded == [] && r == Failure(e)
    case Success(q) =>
      if Safe(q) then dbAdded == [(q, r)]
      else dbAdded == [] && r == Failure(UnsafeQuery(OnlySelectMessage))
  }

  /** Whatever generation produced, only a statement the gate accepts reaches the database. */
  lemma OnlySafeExecuted(sql: Result<string, Error>, dbAdded: seq<DbCall>, r: Result<seq<Row>, Error>)
    requires ExecutionRecord(sql, dbAdded, r)
    ensures forall i | 0 <= i < |dbAdded| :: Safe(dbAdded[i].0) && sql == Success(dbAdded[i].0)
  {
  }

  /** `TextToSQLAgent`, built over a database client and a language-model client. */
  class TextToSqlAgent {
    const db: Database
    const llm: LanguageModel
    const context: ContextService

    /** The context service reads the agent's own database. */
    predicate Valid() {
      context.db == db
    }

    constructor (db: Database, llm: LanguageModel)
      ensures this.db == db && this.llm == llm && Valid()
    {
      this.db := db;
      this.llm := llm;
      context := new ContextService(db);
    }

    /** `generate_sql`: schema, prompt, one model call, cleaning. */
    method GenerateSql(question: string) returns (sql: Result<string, Error>)
      requires Valid()
      modifies db, llm
      ensures old(db.calls) <= db.calls && old(llm.calls) <= llm.calls
      ensures GenerationRecord(question, db.calls[|old(db.calls)|..], llm.calls[|old(llm.calls)|..], sql)
    {
      var schema := context.FormatSchemaForLlm();
      match schema {
        case Failure(e) =>
          sql := Failure(e);
        case Success(text) =>
          var systemMessage := BuildSystemMessage(text);
          var userMessage := BuildUserMessage(question);
          var answer := llm.GenerateWithSystemMessage(systemMessage, userMessage);
          match answer {
            case Failure(e) =>
              sql := Failure(e);
            case Success(out) =>
              sql := Success(CleanSqlQuery(out));
          }
      }
    }

    /** `execute_query`: generate, gate, and only then run. */
    method ExecuteQuery(question: string) returns (r: Result<seq<Row>, Error>, ghost sql: Result<string, Error>)
      requires Valid()
      modifies db, llm
      ensures old(db.calls) <= db.calls && old(llm.calls) <= llm.calls
      ensures |db.calls| > |old(db.calls)|
      ensures GenerationRecord(question, db.calls[|old(db.calls)|..|old(db.calls)| + 1], llm.calls[|old(llm.calls)|..], sql)
      ensures ExecutionRecord(sql, db.calls[|old(db.calls)| + 1..], r)
    {
      var generated := GenerateSql(question);
      sql := generated;
      ghost var logged := db.calls;
      match generated {
        case Failure(e) =>
          r := Failure(e);
        case Success(q) =>
          var safe := IsSafeQuery(q);
          if !safe {
            r := Failure(UnsafeQuery(OnlySelectMessage));
          } else {
            r := db.RunSql(q);
          }
      }
      assert db.calls[..|logged|] == logged;
    }
  }
}
