/** Identifier safety: the allow-list of destination tables and SQL Server's
    bracket quoting of identifiers. */
module Identifiers {
  import opened Wrappers
  import opened JsText
  import opened Config

  datatype IdentifierError = TableNotAllowed(table: string)

  /** The lower-cased destination tables of the configured jobs. */
  function AllowedTables(jobs: seq<Job>): set<string> {
    set j | j in jobs :: Lower(j.destination)
  }

  /** `assertWhitelistedTable`: passes exactly when some job's destination
      equals the name once both are lower-cased, and otherwise fails naming
      the table. */
  function AssertWhitelistedTable(jobs: seq<Job>, table: string): (r: Outcome<IdentifierError>)
    ensures r.Pass? <==> exists j :: j in jobs && Lower(j.destination) == Lower(table)
    ensures r.Fail? ==> r.error == TableNotAllowed(table)
  {
    if Lower(table) in AllowedTables(jobs) then Pass else Fail(TableNotAllowed(table))
  }

  /** The check ignores the case of the name it is given. */
  lemma WhitelistIgnoresCase(jobs: seq<Job>, a: string, b: string)
    requires Lower(a) == Lower(b)
    ensures AssertWhitelistedTable(jobs, a).Pass? == AssertWhitelistedTable(jobs, b).Pass?
  {
  }

  /** With the default configuration a history table is accepted in any
      case ... */
  lemma DefaultWhitelistAccepts()
    ensures AssertWhitelistedTable(Jobs(None, None, None, None), "PREBILLS_History").Pass?
  {
    var jobs := Jobs(None, None, None, None);
    assert jobs[1] in jobs;
    assert jobs[1].destination == "prebills_history";
    PrebillsHistoryLower();
  }

  lemma PrebillsHistoryLower()
    ensures Lower("PREBILLS_History") == "prebills_history" == Lower("prebills_history")
  {
  }

  /** ... and any other table is refused. */
  lemma DefaultWhitelistRefuses()
    ensures AssertWhitelistedTable(Jobs(None, None, None, None), "users") == Fail(TableNotAllowed("users"))
  {
    var jobs := Jobs(None, None, None, None);
    assert Lower("users") == "users";
    forall j | j in jobs
      ensures Lower(j.destination) != "users"
    {
      assert |j.destination| > 5;
    }
  }

  /* ---------- sqlQuoteIdent ---------- */

  /** `name.replaceAll(']', ']]')`. */
  function EscapeBrackets(s: string): string {
    if s == [] then []
    else (if s[0] == ']' then "]]" else [s[0]]) + EscapeBrackets(s[1..])
  }

  /** `sqlQuoteIdent`: the name between square brackets, every `]` doubled.
      Whatever the name holds, SQL Server reads the quoted form back as
      exactly that name. */
  function QuoteIdent(name: string): (q: string)
    ensures UnquoteIdent(q) == Some(name)
  {
    var q := "[" + EscapeBrackets(name) + "]";
    assert q[1..|q| - 1] == EscapeBrackets(name);
    UnescapeEscape(name);
    q
  }

  /** How SQL Server reads the inside of a bracketed identifier: `]]`
      stands for `]`, and a lone `]` would end the identifier. */
  function UnescapeBrackets(s: string): Option<string> {
    if s == [] then Some([])
    else if s[0] == ']' then
      if |s| >= 2 && s[1] == ']' then
        match UnescapeBrackets(s[2..])
        case None => None
        case Some(rest) => Some("]" + rest)
      else None
    else
      match UnescapeBrackets(s[1..])
      case None => None
      case Some(rest) => Some([s[0]] + rest)
  }

  /** A bracketed identifier's name, if it is one. */
  function UnquoteIdent(q: string): Option<string> {
    if |q| >= 2 && q[0] == '[' && q[|q| - 1] == ']' then UnescapeBrackets(q[1..|q| - 1]) else None
  }

  lemma {:induction false} UnescapeEscape(s: string)
    ensures UnescapeBrackets(EscapeBrackets(s)) == Some(s)
  {
    if s != [] {
      UnescapeEscape(s[1..]);
      var e := EscapeBrackets(s[1..]);
      if s[0] == ']' {
        assert EscapeBrackets(s) == "]]" + e;
        assert ("]]" + e)[2..] == e;
        assert "]" + s[1..] == s;
      } else {
        var x := [s[0]] + e;
        assert EscapeBrackets(s) == x;
        assert x[0] == s[0] && x[1..] == e;
        assert UnescapeBrackets(x) == Some([s[0]] + s[1..]);
        assert [s[0]] + s[1..] == s;
      }
    }
  }

  /** Different names never quote to the same identifier. */
  lemma QuoteIdentInjective(a: string, b: string)
    requires QuoteIdent(a) == QuoteIdent(b)
    ensures a == b
  {
  }

  /** A `]` inside a name is doubled, other characters are kept. */
  lemma QuoteClosingBracket()
    ensures QuoteIdent("a]b") == "[a]]b]"
  {
    EscapeExample();
  }

  lemma EscapeExample()
    ensures EscapeBrackets("a]b") == "a]]b"
  {
    NoBracketUnchanged("b");
    var s := "a]b";
    assert s[0] == 'a' && s[1..] == "]b";
    assert "]b"[0] == ']' && "]b"[1..] == "b";
  }

  lemma {:induction false} NoBracketUnchanged(s: string)
    requires ']' !in s
    ensures EscapeBrackets(s) == s
  {
    if s != [] {
      assert s[0] != ']' && forall c :: c in s[1..] ==> c in s;
      NoBracketUnchanged(s[1..]);
    }
  }
}
