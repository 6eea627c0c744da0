/** `quote_ident` of the schema migration, and a reader of quoted SQL identifiers. */
module Identifiers {
  import opened Wrappers

  const NUL: char := 0 as char

  function Doubled(s: string): string {
    if s == "" then "" else (if s[0] == '\"' then "\"\"" else [s[0]]) + Doubled(s[1..])
  }

  /** `quote_ident`; None stands for the ValueError. */
  function QuoteIdent(identifier: string): Option<string> {
    if identifier == "" || NUL in identifier then None
    else Some("\"" + Doubled(identifier) + "\"")
  }

  /** The SQL lexer inside a quoted identifier: two quotes are one, a single quote ends it. */
  function ReadBody(s: string): Option<(string, string)>
    decreases |s|
  {
    if s == "" || s[0] == NUL then None
    else if s[0] != '\"' then
      match ReadBody(s[1..])
      case None => None
      case Some((name, rest)) => Some(([s[0]] + name, rest))
    else if |s| > 1 && s[1] == '\"' then
      match ReadBody(s[2..])
      case None => None
      case Some((name, rest)) => Some((['\"'] + name, rest))
    else Some(("", s[1..]))
  }

  /** A quoted identifier at the front of a text: its name, and the text after the closing quote. */
  function ReadIdent(s: string): Option<(string, string)> {
    if s == "" || s[0] != '\"' then None
    else
      match ReadBody(s[1..])
      case None => None
      case Some((name, rest)) => if name == "" then None else Some((name, rest))
  }

  lemma ReadPlain(c: char, tail: string)
    requires c != '\"' && c != NUL
    ensures ReadBody([c] + tail)
         == match ReadBody(tail) case None => None case Some((name, rest)) => Some(([c] + name, rest))
  {
    assert ([c] + tail)[1..] == tail;
  }

  lemma ReadTwoQuotes(tail: string)
    ensures ReadBody("\"\"" + tail)
         == match ReadBody(tail) case None => None case Some((name, rest)) => Some((['\"'] + name, rest))
  {
    assert ("\"\"" + tail)[2..] == tail;
  }

  lemma ReadClosing(rest: string)
    requires rest == "" || rest[0] != '\"'
    ensures ReadBody("\"" + rest) == Some(("", rest))
  {
    assert ("\"" + rest)[1..] == rest;
  }

  lemma {:induction false} ReadDoubled(s: string, rest: string)
    requires NUL !in s
    requires rest == "" || rest[0] != '\"'
    ensures ReadBody(Doubled(s) + "\"" + rest) == Some((s, rest))
  {
    if s == "" {
      ReadClosing(rest);
      assert Doubled(s) + "\"" + rest == "\"" + rest;
    } else {
      ReadDoubled(s[1..], rest);
      var tail := Doubled(s[1..]) + "\"" + rest;
      assert s == [s[0]] + s[1..];
      if s[0] == '\"' {
        ReadTwoQuotes(tail);
        assert Doubled(s) + "\"" + rest == "\"\"" + tail;
      } else {
        ReadPlain(s[0], tail);
        assert Doubled(s) + "\"" + rest == [s[0]] + tail;
      }
    }
  }

  lemma ReadQuoted(body: string, name: string, rest: string)
    requires name != "" && ReadBody(body) == Some((name, rest))
    ensures ReadIdent("\"" + body) == Some((name, rest))
  {
    assert ("\"" + body)[1..] == body;
  }

  /**
   * Quoting is refused exactly for the empty name and for names with a NUL; otherwise the lexer stops at
   * the closing quote and returns the name, whatever quotes it contains.
   */
  lemma {:induction false} QuotedIsRead(s: string, rest: string)
    requires rest == "" || rest[0] != '\"'
    ensures QuoteIdent(s) == None <==> s == "" || NUL in s
    ensures QuoteIdent(s).Some? ==> ReadIdent(QuoteIdent(s).value + rest) == Some((s, rest))
  {
    if QuoteIdent(s).Some? {
      var body := Doubled(s) + "\"" + rest;
      ReadDoubled(s, rest);
      ReadQuoted(body, s, rest);
      assert QuoteIdent(s).value + rest == "\"" + body;
    }
  }

  /** Different names have different quoted forms. */
  lemma QuotingInjective(s: string, t: string)
    requires QuoteIdent(s).Some? && QuoteIdent(s) == QuoteIdent(t)
    ensures s == t
  {
    QuotedIsRead(s, "");
    QuotedIsRead(t, "");
  }
}
