# chat-with-pgdb — a Dafny model of the text-to-SQL core

chat-with-pgdb answers natural-language questions about a PostgreSQL
database. It reads the `public` schema from `information_schema.columns`,
formats it as text, and wraps it in a system prompt for a language model.
It cleans the markdown fences off the model's answer, runs the answer
through a keyword safety gate, and only then sends it to the database.

This project models that core in Dafny 4.11 and proves what it promises.
There are six modules, one file each:

- `Results` (`results.dfy`): the `Result` wrapper. It also has the
  `Error` kinds that stand for the exceptions Python raises: driver error
  (`DataAccess`), `KeyError`, generation failure (`GenerationFailed`), and
  the gate's `ValueError` (`UnsafeQuery`). The two clients' answers are
  arbitrary, so a client failure is an arbitrary `Error` of any kind; the
  model builds `KeyError` and `UnsafeQuery` itself and never builds the
  other two.
- `PyStr` (`pystr.dfy`): the Python `str` operations the core relies on,
  with their laws.
  - `strip` over the `str.isspace` set.
  - ASCII `upper`.
  - `startswith`, `endswith` and substring `in`.
  - `join` and `str(int)`.
  - `sorted` over distinct keys, as an insertion sort under code-point
    order.
- `Prompts` (`prompts.dfy`): `PromptBuilder`. These are pure functions
  over the fixed template.
- `SchemaFormat` (`schema_format.dfy`): the body of
  `ContextService.format_schema_for_llm`.
  - A pure specification: read the rows, group them by table, render the
    tables in sorted order, trim.
  - The two loops of the source, as methods proved against that
    specification. `GroupRows` builds the `tables` dict with in-place
    appends. `WriteTables` accumulates `formatted` with `+=`.
- `Services` (`services.dfy`): the database and language-model clients,
  and `ContextService`.
  - The clients are black boxes. Each call gets an arbitrary answer and
    appends the request and that answer to a ghost call log.
  - `ContextService` is a class over its database client.
- `Agent` (`agent.dfy`): `TextToSQLAgent`.
  - The safety gate: the `IsSafeQuery` loop, proved against the `Safe`
    predicate.
  - The fence stripper.
  - `generate_sql` and `execute_query`. Their contracts are statements
    about the call logs. The main one: a statement reaches `run_sql` only
    if the gate accepted it.

Three facts about the code shape the model:

- Fence stripping removes at most one fence at each end of the answer, so
  it is not idempotent: a doubled fence leaves one fence behind, which a
  second pass removes. `CleanNotIdempotent` shows this.
- `generate_sql` re-raises whatever was raised while generating
  (`app/agents/text_to_sql_agent.py:66-68`). The model propagates that
  error unchanged.
- `get_schema_info`'s log line reads `table_name` from every row
  (`app/agents/context_service.py:39-41`). A row without that field
  therefore fails there, with `KeyError`, before the formatter reads any
  field. See `Services.SchemaInfo` and `UnnamedRowFails`.

## Model

| member | source | states |
|---|---|---|
| Prompts.BuildSystemMessage | app/agents/prompt_builder.py:11-36 | the system message starts with the fixed template text, and everything after that text is the schema, verbatim |
| Prompts.SystemMessageInjective | app/agents/prompt_builder.py:36 | the schema can be read back from the system message: different schemas give different messages |
| Prompts.SystemMessageGuidelines | app/agents/prompt_builder.py:11-25 | for every schema, the system message contains "SQL query generator", "PostgreSQL", "SELECT queries", "read-only", "JOINs", "WHERE", "LIMIT" and the schema itself |
| Prompts.BuildUserMessage | app/agents/prompt_builder.py:47 | the user message is the fixed lead-in followed by the question, verbatim |
| Prompts.UserMessageFacts | app/agents/prompt_builder.py:47 | the user message is injective in the question and contains both the question and "SQL query" |
| Prompts.BuildFullPrompt | app/agents/prompt_builder.py:59-61 | the full prompt starts with the system message followed by the "User Question:" label, ends with the user message, and is exactly as long as those three parts together |
| Prompts.FullPromptFacts | app/agents/prompt_builder.py:59-61 | the full prompt contains the schema, the question, "SQL query generator" and "User Question:" |
| SchemaFormat.ReadRowsSpec | app/agents/context_service.py:57-64 | reading the rows succeeds exactly when every row has the four fields, giving one column per row in row order; otherwise the error is the `KeyError` of the first row that lacks a field |
| SchemaFormat.ReadRowsFailurePersists | app/agents/context_service.py:57-64 | once a prefix of the rows fails to read, the whole sequence fails with the same error |
| SchemaFormat.TableNames | app/agents/context_service.py:56-60 | the dict's keys have no duplicates and are exactly the tables named by some row |
| SchemaFormat.ColumnLine | app/agents/context_service.py:62-65 | a column line ends in `NULL`; it ends in `NOT NULL` exactly when `is_nullable` is not the string "YES" |
| SchemaFormat.ColumnLinesAppend | app/agents/context_service.py:57-65 | grouping keeps row order: a table's lines for `a + b` are its lines for `a` followed by its lines for `b` |
| SchemaFormat.ColumnLinesFrom | app/agents/context_service.py:57-65 | every line listed under a table is the line of one of that table's rows |
| SchemaFormat.ColumnLineListed | app/agents/context_service.py:57-65 | every row's line is listed under its table |
| SchemaFormat.ColumnLinesNonEmpty | app/agents/context_service.py:59-63 | a table has lines exactly when some row names it |
| SchemaFormat.EveryRowOneLine | app/agents/context_service.py:57-65 | over any distinct list of names covering all tables, the lines add up to exactly one per row |
| SchemaFormat.RenderOrder | app/agents/context_service.py:69 | tables are rendered in strictly ascending order, each table that has a row exactly once |
| SchemaFormat.Render | app/agents/context_service.py:68-74 | the formatted schema starts with "Database Schema:", has no surrounding whitespace, and is exactly the header when there are no rows |
| SchemaFormat.RowListed | app/agents/context_service.py:57-72 | every row shows up in the text: its table's `Table:` line and its own column line both occur |
| SchemaFormat.RenderExample | app/agents/context_service.py:56-74 | two `users` rows listed before a `posts` row render `posts` first, with one blank line between blocks and the `users` columns in row order |
| SchemaFormat.DictSnoc | app/agents/context_service.py:58-65 | one more row appends its line under its own table in the dict and changes no other entry |
| SchemaFormat.GroupedStep | app/agents/context_service.py:57-65 | one pass of the grouping loop body keeps the keys and the dict equal to those of the rows read so far |
| SchemaFormat.GroupRows | app/agents/context_service.py:55-65 | the grouping loop fails with the first row's `KeyError` exactly when reading the rows fails; otherwise its keys, in insertion order, and its dict are those of the rows |
| SchemaFormat.WrittenJoin | app/agents/context_service.py:68-72 | the accumulated text is the header and the blocks joined by one blank line each, plus a trailing blank line |
| SchemaFormat.WriteTables | app/agents/context_service.py:67-72 | the rendering loop writes exactly the accumulated text for the tables in sorted order |
| SchemaFormat.StripWritten | app/agents/context_service.py:74 | stripping the accumulated text gives the rendered schema |
| SchemaFormat.FormatRows | app/agents/context_service.py:55-74 | the formatter's result on a sequence of rows is the specified schema text, or the first row's `KeyError` |
| Services.SchemaQueryClauses | app/agents/context_service.py:27-36 | the metadata query reads `information_schema.columns`, keeps `table_schema = 'public'`, and orders by `table_name, ordinal_position` |
| Services.SchemaQueryIsSelect | app/agents/context_service.py:27-36 | the trimmed metadata query starts with `SELECT` |
| Services.SchemaInfo | app/agents/context_service.py:37-45 | `get_schema_info` returns the rows unchanged when every row names its table; it passes a driver failure through; otherwise it fails with `KeyError("table_name")` |
| Services.SchemaFromAnswerSpec | app/agents/context_service.py:53-74 | a failed metadata query fails the formatter with the same error; a good answer gives a trimmed text under the header, or a `KeyError` |
| Services.UnnamedRowFails | app/agents/context_service.py:39-41 | any row without `table_name` makes the formatter fail with `KeyError("table_name")`, whatever the earlier rows lack |
| Services.ContextService.GetSchemaInfo | app/agents/context_service.py:21-45 | exactly one database call, with the metadata query; the result is what `SchemaInfo` makes of its answer |
| Services.ContextService.FormatSchemaForLlm | app/agents/context_service.py:47-74 | exactly one database call, with the metadata query; the result is the formatted schema for its answer, or the error |
| Services.SampleQuery | app/agents/context_service.py:86 | the sample statement starts with `SELECT * FROM <table> LIMIT ` |
| Services.SampleQueryDefault | app/agents/context_service.py:76-86 | the default sample of `users` is `SELECT * FROM users LIMIT 3;` |
| Services.SampleQueryInjective | app/agents/context_service.py:86 | different tables or limits give different sample statements |
| Services.ContextService.GetSampleData | app/agents/context_service.py:76-93 | exactly one database call, with the sample statement for the table and limit (three by default); its answer is returned unchanged |
| Agent.IsSafeQuery | app/agents/text_to_sql_agent.py:119-150 | the gate's loop answers true exactly when the trimmed, upper-cased query starts with `SELECT` and contains none of the seven keywords |
| Agent.SafeIgnoresCase | app/agents/text_to_sql_agent.py:128 | upper-casing a query does not change the gate's verdict |
| Agent.SafeIgnoresPadding | app/agents/text_to_sql_agent.py:128 | whitespace around a query does not change the gate's verdict |
| Agent.KeywordAnywhereRejected | app/agents/text_to_sql_agent.py:136-148 | a denylisted keyword anywhere in the upper-cased query, even inside an identifier, gets it rejected |
| Agent.SafeStartsWithSelect | app/agents/text_to_sql_agent.py:128-133 | an accepted query's trimmed text begins with "select" in some letter case |
| Agent.NotSelectRejected | app/agents/text_to_sql_agent.py:131-133 | a trimmed statement whose first letter is not `s` or `S` is rejected |
| Agent.WriteStatementsRejected | app/agents/text_to_sql_agent.py:128-148 | the seven DROP/DELETE/UPDATE/INSERT/ALTER/CREATE/TRUNCATE statements are rejected |
| Agent.CreatedAtRejected | app/agents/text_to_sql_agent.py:145-148 | `SELECT created_at FROM users` is rejected, because `CREATED_AT` contains `CREATE` |
| Agent.ReadsAccepted | app/agents/text_to_sql_agent.py:128-150 | `SELECT * FROM users;` and `select id, name from posts;` are accepted |
| Agent.GrantAccepted | app/agents/text_to_sql_agent.py:136-150 | `SELECT 1; GRANT ALL ON users TO bob` is accepted: the gate knows only its denylist |
| Agent.CleanSqlQuery | app/agents/text_to_sql_agent.py:98-117 | the cleaned query has no surrounding whitespace and is a contiguous piece of the raw answer |
| Agent.CleanUnfenced | app/agents/text_to_sql_agent.py:108-117 | when the trimmed answer neither starts nor ends with a fence, cleaning only trims |
| Agent.CleanFenced | app/agents/text_to_sql_agent.py:108-117 | a trimmed query in a fenced block, with or without the `sql` tag, cleans to the query itself |
| Agent.CleanNotIdempotent | app/agents/text_to_sql_agent.py:109-115 | one fence at most is removed at each end: "```sql```sql x" cleans to "```sql x", which cleans to "x" |
| Agent.OnlySafeExecuted | app/agents/text_to_sql_agent.py:81-89 | every statement execution adds to the database log is one the gate accepts, and it is the generated query |
| Agent.TextToSqlAgent.constructor | app/agents/text_to_sql_agent.py:31-34 | the agent keeps both clients, and its context service reads the agent's own database |
| Agent.TextToSqlAgent.GenerateSql | app/agents/text_to_sql_agent.py:37-68 | one metadata query; if the schema formats, one model call with the system message for that schema and the user message for the question; the result is the cleaned answer, or the first error |
| Agent.TextToSqlAgent.ExecuteQuery | app/agents/text_to_sql_agent.py:70-96 | after generation, a failed generation or a query the gate rejects ("Only SELECT queries are allowed") adds no database call; an accepted query is run exactly once and its answer is the result |

## Left out

- The database driver (`app/core/db_client.py`) is not part of this model.
  - `run_sql` is a black box whose answer is arbitrary.
  - The model leaves out its connection handling, commit and rollback.
  - It also leaves out its `affected_rows` answer for non-`SELECT`
    statements. Only `SELECT` statements reach it from the core: gated
    queries, the metadata query, and `get_sample_data`'s sample
    statement (`app/agents/context_service.py:86`).
- The language-model client (`app/agents/llm_client.py`) is not part of
  this model. Its answer is an arbitrary string or an arbitrary failure.
- The HTTP layer (`app/api/routes.py`) is not part of this model, and
  neither are its error-to-status mapping or the global instances.
  Configuration (`app/config.py`), startup wiring and logging are not part
  of this model either.
- The logging calls are left out. One exception: the `table_name` lookup
  in `get_schema_info`'s log line, which can raise and is modelled. The
  count of distinct tables it prints is not.
- The agent's optional injected `context_service` and `prompt_builder`
  are left out. The agent always builds its own context service over its
  own database client, and it uses the one fixed template.
- Exceptions become `Failure` values. A re-raised exception keeps its
  kind and message; the stack trace is not modelled.
- `PyStr.Upper` maps ASCII letters only. Python's `upper()` also maps
  other Unicode letters. This changes no verdict of the gate, whose
  keywords are ASCII, unless a query uses non-ASCII letters that upper-case
  to ASCII.
- `PyStr.IsSpace` is the fixed set of code points for which Python's
  `str.isspace` is true. Unicode data is not consulted.
- `PyStr.SortKeys` orders strings by code point, as Python compares
  `str`. It is specified only for distinct keys, which dict keys are.
- Cell values are text. A metadata row is a map from column name to
  string; the driver's other value types are not modelled.
