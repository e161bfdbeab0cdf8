/**
 * The prompt templates of `PromptBuilder`: a system message that carries
 * the formatted schema, a user message that carries the question, and a
 * single-string combination of the two. All three are pure string
 * formatting over a template fixed when the builder is created.
 */
module Prompts {
  import opened PyStr

  /**
   * The system template up to its only replacement field, `{schema}`,
   * line by line. The field ends the template and the template has no
   * other braces, so `format(schema=...)` amounts to appending the schema
   * to these lines.
   */
  const SystemTemplateLines: seq<string> := [
    "You are an expert " + "SQL query generator" + " for " + "PostgreSQL" + " databases.\n",
    "\n",
    "Your task is to convert natural language questions into valid PostgreSQL SQL queries.\n",
    "\n",
    "Guidelines:\n",
    "1. Generate ONLY the SQL query, no explanations or markdown formatting\n",
    "2. Use proper PostgreSQL syntax\n",
    "3. Generate only " + "SELECT queries" + " (" + "read-only" + ")\n",
    "4. Use appropriate " + "JOINs" + " when querying multiple tables\n",
    "5. Include " + "WHERE" + " clauses for filtering when relevant\n",
    "6. Use " + "LIMIT" + " when appropriate to avoid returning too many rows\n",
    "7. Return the raw SQL query without ```sql``` markers or additional text\n",
    "\n",
    "Database Schema:\n"
  ]

  const SystemPreamble: string := Join("", SystemTemplateLines)

  const UserPrefix: string := "Generate a SQL query to answer: "

  /** What `build_full_prompt` puts between the two messages. */
  const QuestionLabel: string := "\n\n" + "User Question:" + "\n"

  /** The system message: the fixed instructions, then the schema verbatim. */
  function BuildSystemMessage(schema: string): (r: string)
    ensures StartsWith(r, SystemPreamble) && r[|SystemPreamble|..] == schema
  {
    SystemPreamble + schema
  }

  /** The user message: a fixed lead-in, then the question verbatim. */
  function BuildUserMessage(question: string): (r: string)
    ensures StartsWith(r, UserPrefix) && r[|UserPrefix|..] == question
  {
    UserPrefix + question
  }

  /** The system message, a "User Question:" label, then the user message. */
  function BuildFullPrompt(schema: string, question: string): (r: string)
    ensures StartsWith(r, BuildSystemMessage(schema) + QuestionLabel)
    ensures EndsWith(r, BuildUserMessage(question))
    ensures |r| == |BuildSystemMessage(schema)| + |QuestionLabel| + |BuildUserMessage(question)|
  {
    BuildSystemMessage(schema) + QuestionLabel + BuildUserMessage(question)
  }

  /** Different schemas give different system messages: the schema can be read back. */
  lemma SystemMessageInjective(s1: string, s2: string)
    requires BuildSystemMessage(s1) == BuildSystemMessage(s2)
    ensures s1 == s2
  {
    assert s1 == BuildSystemMessage(s1)[|SystemPreamble|..];
  }

  /** Different questions give different user messages, and the question occurs in its message. */
  lemma UserMessageFacts(q1: string, q2: string)
    ensures BuildUserMessage(q1) == BuildUserMessage(q2) ==> q1 == q2
    ensures Contains(BuildUserMessage(q1), q1)
    ensures Contains(BuildUserMessage(q1), "SQL query")
  {
    var m := BuildUserMessage(q1);
    assert OccursAt(m, q1, |UserPrefix|);
    assert UserPrefix[11..20] == "SQL query";
    assert m[11..20] == UserPrefix[11..20];
    assert OccursAt(m, "SQL query", 11);
    if m == BuildUserMessage(q2) {
      assert q1 == m[|UserPrefix|..] == q2;
    }
  }

  /**
   * Whatever the schema, the system message carries every guideline the
   * template promises, and the schema itself.
   */
  lemma SystemMessageGuidelines(schema: string)
    ensures var r := BuildSystemMessage(schema);
      && Contains(r, "SQL query generator")
      && Contains(r, "PostgreSQL")
      && Contains(r, "SELECT queries")
      && Contains(r, "read-only")
      && Contains(r, "JOINs")
      && Contains(r, "WHERE")
      && Contains(r, "LIMIT")
      && Contains(r, schema)
  {
    var r := BuildSystemMessage(schema);
    PreambleAt(r, 0, "You are an expert ", "SQL query generator", " for " + "PostgreSQL" + " databases.\n");
    PreambleAt(r, 0, "You are an expert " + "SQL query generator" + " for ", "PostgreSQL", " databases.\n");
    PreambleAt(r, 7, "3. Generate only ", "SELECT queries", " (" + "read-only" + ")\n");
    PreambleAt(r, 7, "3. Generate only " + "SELECT queries" + " (", "read-only", ")\n");
    PreambleAt(r, 8, "4. Use appropriate ", "JOINs", " when querying multiple tables\n");
    PreambleAt(r, 9, "5. Include ", "WHERE", " clauses for filtering when relevant\n");
    PreambleAt(r, 10, "6. Use ", "LIMIT", " when appropriate to avoid returning too many rows\n");
    assert OccursAt(r, schema, |SystemPreamble|);
  }

  /** A phrase of a template line occurs in every system message. */
  lemma PreambleAt(r: string, line: nat, before: string, p: string, after: string)
    requires StartsWith(r, SystemPreamble)
    requires line < |SystemTemplateLines| && SystemTemplateLines[line] == before + p + after
    ensures Contains(r, p)
  {
    assert OccursAt(before + p + after, p, |before|);
    JoinContains("", SystemTemplateLines, line, p);
    assert r == [] + SystemPreamble + r[|SystemPreamble|..];
    ContainsExtend([], SystemPreamble, r[|SystemPreamble|..], p);
  }

  /** The combined prompt carries the schema, the question and both labels. */
  lemma FullPromptFacts(schema: string, question: string)
    ensures var r := BuildFullPrompt(schema, question);
      && Contains(r, schema)
      && Contains(r, question)
      && Contains(r, "SQL query generator")
      && Contains(r, "User Question:")
  {
    var sys, user := BuildSystemMessage(schema), BuildUserMessage(question);
    SystemMessageGuidelines(schema);
    ContainsLeft(sys, QuestionLabel, schema);
    ContainsLeft(sys + QuestionLabel, user, schema);
    ContainsLeft(sys, QuestionLabel, "SQL query generator");
    ContainsLeft(sys + QuestionLabel, user, "SQL query generator");
    UserMessageFacts(question, question);
    ContainsRight(sys + QuestionLabel, user, question);
    assert OccursAt("User Question:", "User Question:", 0);
    ContainsExtend("\n\n", "User Question:", "\n", "User Question:");
    ContainsRight(sys, QuestionLabel, "User Question:");
    ContainsLeft(sys + QuestionLabel, user, "User Question:");
  }
}
