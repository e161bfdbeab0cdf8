/**
 * The collaborators of the agent and the context service that reads the
 * schema through them.
 *
 * The database and the language model are black boxes: what they answer
 * is not modelled, so each call takes an arbitrary answer and records the
 * request together with that answer in a ghost log. Contracts about the
 * callers are then statements about those logs.
 */
module Services {
  import opened Results
  import opened PyStr
  import opened SchemaFormat

  /** One `run_sql` call: the statement sent and what came back. */
  type DbCall = (string, Result<seq<Row>, Error>)

  /** One `generate_with_system_message` call: system message, user message, answer. */
  type LlmCall = (string, string, Result<string, Error>)

  /** The database client as the core uses it: `run_sql` only. */
  class Database {
    ghost var calls: seq<DbCall>

    constructor ()
      ensures calls == []
    {
      calls := [];
    }

    /** Runs a statement; the rows (or the driver's error) are whatever the server gives. */
    method RunSql(query: string) returns (r: Result<seq<Row>, Error>)
      modifies this
      ensures calls == old(calls) + [(query, r)]
    {
      r := *;
      calls := calls + [(query, r)];
    }
  }

  /** The language-model client as the core uses it. */
  class LanguageModel {
    ghost var calls: seq<LlmCall>

    constructor ()
      ensures calls == []
    {
      calls := [];
    }

    /** Sends a system and a user message; the reply (or the failure) is arbitrary. */
    method GenerateWithSystemMessage(system: string, user: string) returns (r: Result<string, Error>)
      modifies this
      ensures calls == old(calls) + [(system, user, r)]
    {
      r := *;
      calls := calls + [(system, user, r)];
    }
  }

  // ---------------------------------------------------------------------
  // The statements the context service sends

  const Indent8: string := "        "
  const Indent12: string := Indent8 + "    "
  const Indent16: string := Indent12 + "    "

  const FromClause: string := "FROM information_schema.columns"
  const WhereClause: string := "WHERE table_schema = 'public'"
  const OrderClause: string := "ORDER BY table_name, ordinal_position"

  /** The metadata query, whitespace and all, as `get_schema_info` sends it. */
  const SchemaQuery: string := "\n" + Indent12 + "SELECT" + SchemaQueryRest

  const ColumnList: string :=
    "\n" + Indent16 + "table_name,\n"
    + Indent16 + "column_name,\n"
    + Indent16 + "data_type,\n"
    + Indent16 + "is_nullable\n"
  const FromLine: string := Indent12 + FromClause + "\n"
  const WhereLine: string := Indent12 + WhereClause + "\n"
  const OrderLine: string := Indent12 + OrderClause + ";\n"

  const SchemaQueryRest: string := ColumnList + FromLine + WhereLine + OrderLine + Indent8

  /**
   * The metadata query reads `information_schema.columns`, keeps the
   * `public` schema only, and orders by table and then column position.
   */
  lemma SchemaQueryClauses()
    ensures Contains(SchemaQuery, FromClause)
    ensures Contains(SchemaQuery, WhereClause)
    ensures Contains(SchemaQuery, OrderClause)
  {
    QueryReadsColumns();
    QueryKeepsPublic();
    QueryOrdered();
  }

  lemma QueryReadsColumns()
    ensures Contains(SchemaQuery, FromClause)
  {
    assert OccursAt(FromClause, FromClause, 0);
    ContainsExtend(Indent12, FromClause, "\n", FromClause);
    ContainsRight(ColumnList, FromLine, FromClause);
    ContainsLeft(ColumnList + FromLine, WhereLine, FromClause);
    ContainsLeft(ColumnList + FromLine + WhereLine, OrderLine, FromClause);
    ContainsLeft(ColumnList + FromLine + WhereLine + OrderLine, Indent8, FromClause);
    ContainsRight("\n" + Indent12 + "SELECT", SchemaQueryRest, FromClause);
  }

  lemma QueryKeepsPublic()
    ensures Contains(SchemaQuery, WhereClause)
  {
    assert OccursAt(WhereClause, WhereClause, 0);
    ContainsExtend(Indent12, WhereClause, "\n", WhereClause);
    ContainsRight(ColumnList + FromLine, WhereLine, WhereClause);
    ContainsLeft(ColumnList + FromLine + WhereLine, OrderLine, WhereClause);
    ContainsLeft(ColumnList + FromLine + WhereLine + OrderLine, Indent8, WhereClause);
    ContainsRight("\n" + Indent12 + "SELECT", SchemaQueryRest, WhereClause);
  }

  lemma QueryOrdered()
    ensures Contains(SchemaQuery, OrderClause)
  {
    assert OccursAt(OrderClause, OrderClause, 0);
    ContainsExtend(Indent12, OrderClause, ";\n", OrderClause);
    ContainsRight(ColumnList + FromLine + WhereLine, OrderLine, OrderClause);
    ContainsLeft(ColumnList + FromLine + WhereLine + OrderLine, Indent8, OrderClause);
    ContainsRight("\n" + Indent12 + "SELECT", SchemaQueryRest, OrderClause);
  }

  /** Trimmed, the metadata query starts with `SELECT`, so the driver answers it with rows. */
  lemma SchemaQueryIsSelect()
    ensures StartsWith(Strip(SchemaQuery), "SELECT")
  {
    StripStartsWith("\n" + Indent12, "SELECT", SchemaQueryRest);
  }

  /** The statement `get_sample_data(table, limit)` sends. */
  function SampleQuery(table: string, limit: int): (q: string)
    ensures StartsWith(q, "SELECT * FROM " + table + " LIMIT ")
  {
    "SELECT * FROM " + table + " LIMIT " + IntToString(limit) + ";"
  }

  /** The default sample, as in the source's tests. */
  lemma SampleQueryDefault()
    ensures SampleQuery("users", 3) == "SELECT * FROM users LIMIT 3;"
  {
  }

  /** A string with no space in it and a space before it is where the last space ends. */
  lemma {:induction false} LastWord(a1: string, d1: string, a2: string, d2: string)
    requires a1 + " " + d1 == a2 + " " + d2
    requires forall i | 0 <= i < |d1| :: d1[i] != ' '
    requires forall i | 0 <= i < |d2| :: d2[i] != ' '
    ensures a1 == a2 && d1 == d2
  {
    var s := a1 + " " + d1;
    assert s[|a1|] == ' ';
    assert s[|a2|] == (a2 + " " + d2)[|a2|] == ' ';
    assert |a1| == |a2|;
    assert d1 == s[|a1| + 1..] == d2;
    assert a1 == s[..|a1|] == a2;
  }

  /** Different tables or different limits give different statements. */
  lemma SampleQueryInjective(t1: string, n1: int, t2: string, n2: int)
    requires SampleQuery(t1, n1) == SampleQuery(t2, n2)
    ensures t1 == t2 && n1 == n2
  {
    var d1, d2 := IntToString(n1), IntToString(n2);
    var a1, a2 := "SELECT * FROM " + t1 + " LIMIT", "SELECT * FROM " + t2 + " LIMIT";
    var s1, s2 := SampleQuery(t1, n1), SampleQuery(t2, n2);
    assert s1[..|s1| - 1] == a1 + " " + d1;
    assert s2[..|s2| - 1] == a2 + " " + d2;
    LastWord(a1, d1, a2, d2);
    assert t1 == a1[14..|a1| - 6] == t2;
    IntToStringInjective(n1, n2);
  }

  /** Every row has a `table_name` field. */
  predicate AllNamed(rows: seq<Row>) {
    forall i | 0 <= i < |rows| :: "table_name" in rows[i]
  }

  /**
   * What `get_schema_info` returns for the metadata query's answer. Its log
   * line reads `table_name` from every row, so a row without one raises
   * `KeyError` there, before any formatting.
   */
  function SchemaInfo(answer: Result<seq<Row>, Error>): (r: Result<seq<Row>, Error>)
    ensures r.Success? <==> answer.Success? && AllNamed(answer.value)
    ensures r.Success? ==> r.value == answer.value
    ensures answer.Failure? ==> r == answer
    ensures answer.Success? && r.Failure? ==> r.error == KeyError("table_name")
  {
    match answer
    case Failure(e) => Failure(e)
    case Success(rows) =>
      if AllNamed(rows) then Success(rows) else Failure(KeyError("table_name"))
  }

  /** What `format_schema_for_llm` makes of the metadata query's answer. */
  function SchemaFromAnswer(answer: Result<seq<Row>, Error>): Result<string, Error> {
    match SchemaInfo(answer)
    case Failure(e) => Failure(e)
    case Success(rows) => SchemaText(rows)
  }

  /**
   * A failure of the metadata query propagates unchanged; a good answer
   * yields a formatted schema under the header, or the KeyError of a
   * missing field.
   */
  lemma SchemaFromAnswerSpec(answer: Result<seq<Row>, Error>)
    ensures answer.Failure? ==> SchemaFromAnswer(answer) == Failure(answer.error)
    ensures answer.Success? && SchemaFromAnswer(answer).Success? ==>
      StartsWith(SchemaFromAnswer(answer).value, Header) && Trimmed(SchemaFromAnswer(answer).value)
    ensures answer.Success? && SchemaFromAnswer(answer).Failure? ==>
      SchemaFromAnswer(answer).error.KeyError?
  {
    if answer.Success? {
      ReadRowsSpec(answer.value);
    }
  }

  /**
   * The `KeyError` of the log line wins over the formatter's: a row without
   * `table_name` fails the lookup with that key even when an earlier row
   * lacks another field.
   */
  lemma UnnamedRowFails(rows: seq<Row>, i: nat)
    requires i < |rows| && "table_name" !in rows[i]
    ensures SchemaFromAnswer(Success(rows)) == Failure(KeyError("table_name"))
  {
  }

  /** `ContextService`: schema and sample lookups over one database client. */
  class ContextService {
    const db: Database

    constructor (db: Database)
      ensures this.db == db
    {
      this.db := db;
    }

    /** `get_schema_info`: sends the metadata query and hands back its answer, checked by the log line. */
    method GetSchemaInfo() returns (r: Result<seq<Row>, Error>)
      modifies db
      ensures |db.calls| == |old(db.calls)| + 1 && old(db.calls) <= db.calls
      ensures db.calls[|old(db.calls)|].0 == SchemaQuery
      ensures r == SchemaInfo(db.calls[|old(db.calls)|].1)
    {
      var result := db.RunSql(SchemaQuery);
      match result {
        case Failure(e) =>
          r := Failure(e);
        case Success(rows) =>
          // the log line's `r['table_name'] for r in result`
          var i := 0;
          while i < |rows|
            invariant 0 <= i <= |rows|
            invariant AllNamed(rows[..i])
          {
            if "table_name" !in rows[i] {
              return Failure(KeyError("table_name"));
            }
            i := i + 1;
          }
          assert rows[..i] == rows;
          r := Success(rows);
      }
    }

    /** `format_schema_for_llm`: one metadata query, then the grouping and rendering. */
    method FormatSchemaForLlm() returns (r: Result<string, Error>)
      modifies db
      ensures |db.calls| == |old(db.calls)| + 1 && old(db.calls) <= db.calls
      ensures db.calls[|old(db.calls)|].0 == SchemaQuery
      ensures r == SchemaFromAnswer(db.calls[|old(db.calls)|].1)
    {
      var info := GetSchemaInfo();
      match info {
        case Failure(e) =>
          r := Failure(e);
        case Success(rows) =>
          r := FormatRows(rows);
      }
    }

    /** `get_sample_data`: the first `limit` rows of a table, three unless said otherwise. */
    method GetSampleData(table: string, limit: int := 3) returns (r: Result<seq<Row>, Error>)
      modifies db
      ensures db.calls == old(db.calls) + [(SampleQuery(table, limit), r)]
    {
      r := db.RunSql(SampleQuery(table, limit));
    }
  }
}
