/**
 Delimiter-separated values in the bundled d3 library (www/d3.v2.js): the printer, the parser, and
 exactly which tables survive printing and parsing.
 */
module Dsv {

  type Row = seq<string>

  // ------------------------------------------------- the two regular expressions

  // The delimiter is put between brackets as it is.  Three characters mean something else there, and a
  // fourth one makes a range that runs backwards.

  /** The characters that the bracket expression of the parser has: `]` closes it at once, so that it has none. */
  predicate InParseClass(d: char, c: char) {
    if d == '^' then c != '\r' && c != '\n'
    else if d == ']' then false
    else if d == '\\' then c == '\r' || c == '\n'
    else c == d || c == '\r' || c == '\n'
  }

  /** How much the parsing expression matches at a position: two characters, one, or nothing. */
  function MatchLength(d: char, text: string, i: nat): nat {
    if At(text, i, '\r') && At(text, i + 1, '\n') then 2
    else if i < |text| && InParseClass(d, text[i]) then 1
    else 0
  }

  /** Whether the printing expression is found in a value: with `]` it asks for a quote, a newline and a `]`. */
  predicate NeedsQuotes(d: char, f: string) {
    if d == ']' then exists i :: 0 <= i < |f| && f[i] == '"' && At(f, i + 1, '\n') && At(f, i + 2, ']')
    else if d == '\\' then '"' in f || '\n' in f
    else '"' in f || d in f || '\n' in f
  }

  /** With `-` the printing expression cannot be built. */
  predicate Usable(d: char) {
    d != '-'
  }

  /** A single code unit that means itself between brackets, and is not a quote or part of a line break. */
  predicate PlainDelimiter(d: char) {
    d < '\U{10000}' && d !in "\"\r\n^]\\-"
  }

  // -------------------------------------------------------------- printing

  function Escape(f: string): string {
    if f == "" then ""
    else (if f[0] == '"' then "\"\"" else [f[0]]) + Escape(f[1..])
  }

  function FormatValue(d: char, f: string): string {
    if NeedsQuotes(d, f) then "\"" + Escape(f) + "\"" else f
  }

  function FormatRow(d: char, row: Row): string {
    if row == [] then ""
    else if |row| == 1 then FormatValue(d, row[0])
    else FormatValue(d, row[0]) + [d] + FormatRow(d, row[1..])
  }

  function Format(d: char, rows: seq<Row>): string {
    if rows == [] then ""
    else if |rows| == 1 then FormatRow(d, rows[0])
    else FormatRow(d, rows[0]) + "\n" + Format(d, rows[1..])
  }

  // --------------------------------------------------------------- parsing

  datatype Token = Field(text: string) | EndOfLine | EndOfFile

  /** Where the parser is: reParse.lastIndex, and whether a line just ended. */
  datatype State = State(pos: nat, eol: bool)

  /** The next match of the parsing expression, or the end of the text. */
  function FindBreak(d: char, text: string, i: nat): (m: nat)
    requires i <= |text|
    ensures i <= m <= |text| && (m < |text| ==> MatchLength(d, text, m) > 0)
    decreases |text| - i
  {
    if i == |text| || MatchLength(d, text, i) > 0 then i else FindBreak(d, text, i + 1)
  }

  lemma {:induction false} FirstMatch(d: char, text: string, i: nat, m: nat)
    requires i <= m <= |text|
    requires forall j | i <= j < m :: MatchLength(d, text, j) == 0
    requires m == |text| || MatchLength(d, text, m) > 0
    ensures FindBreak(d, text, i) == m
    decreases m - i
  {
    if i == m {
    } else {
      FirstMatch(d, text, i + 1, m);
    }
  }

  lemma FindBreakFinds(d: char, text: string, i: nat, m: nat)
    requires PlainDelimiter(d) && i <= m <= |text|
    requires forall j | i <= j < m :: text[j] != d && text[j] != '\r' && text[j] != '\n'
    requires m == |text| || text[m] == d || text[m] == '\r' || text[m] == '\n'
    ensures FindBreak(d, text, i) == m
  {
    FirstMatch(d, text, i, m);
  }

  predicate At(text: string, i: nat, c: char) {
    i < |text| && text[i] == c
  }

  /** Where the scan for the closing quote stops; past the end if there is none. */
  function CloseQuote(text: string, i: nat): (r: nat)
    ensures r > i
    decreases |text| - i
  {
    if i >= |text| then i + 1
    else if At(text, i + 1, '"') then
      if !At(text, i + 2, '"') then i + 1 else CloseQuote(text, i + 2)
    else CloseQuote(text, i + 1)
  }

  function Unescape(s: string): string {
    if s == "" then ""
    else if |s| >= 2 && s[0] == '"' && s[1] == '"' then "\"" + Unescape(s[2..])
    else [s[0]] + Unescape(s[1..])
  }

  /** The substring function, which clips an end beyond the text. */
  function Substring(text: string, i: nat, j: nat): string
    requires i <= |text| && i <= j
  {
    text[i .. if j <= |text| then j else |text|]
  }

  function QuotedToken(text: string, j: nat): (Token, State)
    requires j < |text|
  {
    var i := CloseQuote(text, j);
    var field := Field(Unescape(Substring(text, j + 1, i)));
    if At(text, i + 1, '\r') then
      (field, State(if At(text, i + 2, '\n') then i + 3 else i + 2, true))
    else (field, State(i + 2, At(text, i + 1, '\n')))
  }

  function PlainToken(d: char, text: string, j: nat): (Token, State)
    requires j < |text|
  {
    var m := FindBreak(d, text, j);
    if m == |text| then (Field(text[j..]), State(m, false))
    else
      (Field(text[j..m]), State(m + MatchLength(d, text, m), text[m] != d))
  }

  function NextToken(d: char, text: string, st: State): (Token, State) {
    if st.pos >= |text| then (EndOfFile, st)
    else if st.eol then (EndOfLine, st.(eol := false))
    else if text[st.pos] == '"' then QuotedToken(text, st.pos)
    else PlainToken(d, text, st.pos)
  }

  /** What is left to read; every token but the end of the text takes some of it. */
  function Left(text: string, st: State): nat {
    if st.pos >= |text| then 0 else 2 * (|text| - st.pos) + if st.eol then 1 else 0
  }

  lemma TokenAdvances(d: char, text: string, st: State)
    ensures NextToken(d, text, st).0 != EndOfFile ==> Left(text, NextToken(d, text, st).1) < Left(text, st)
    ensures NextToken(d, text, st).0 == EndOfFile ==> NextToken(d, text, st).1 == st
  {
  }

  /** All tokens up to the end of the text. */
  function Tokens(d: char, text: string, st: State): seq<Token>
    decreases Left(text, st)
  {
    TokenAdvances(d, text, st);
    var (t, st') := NextToken(d, text, st);
    if t == EndOfFile then [] else [t] + Tokens(d, text, st')
  }

  /** The fields up to the end of the line, and the tokens behind it. */
  function FirstRow(ts: seq<Token>): Row {
    if ts == [] || !ts[0].Field? then [] else [ts[0].text] + FirstRow(ts[1..])
  }

  function AfterRow(ts: seq<Token>): (r: seq<Token>)
    ensures ts != [] ==> |r| < |ts|
    ensures |r| <= |ts|
  {
    if ts == [] then []
    else if ts[0].Field? then AfterRow(ts[1..])
    else ts[1..]
  }

  function RowsOf(ts: seq<Token>): seq<Row>
    decreases |ts|
  {
    if ts == [] then [] else [FirstRow(ts)] + RowsOf(AfterRow(ts))
  }

  function ParseRows(d: char, text: string): seq<Row> {
    RowsOf(Tokens(d, text, State(0, false)))
  }

  // ----------------------------------------------------- tokens of printed text

  lemma {:induction false} UnescapeEscape(f: string)
    ensures Unescape(Escape(f)) == f
  {
    if f == "" {
    } else {
      UnescapeEscape(f[1..]);
      var e := Escape(f);
      if f[0] == '"' {
        assert e[2..] == Escape(f[1..]);
      } else {
        assert e[1..] == Escape(f[1..]);
      }
    }
  }

  /** What may be behind a line: nothing, or a line break. */
  predicate AfterLine(rest: string) {
    rest == "" || rest[0] == '\n' || rest[0] == '\r'
  }

  /** What may be behind a value: nothing, or a delimiter or line break. */
  predicate AfterValue(d: char, rest: string) {
    AfterLine(rest) || rest[0] == d
  }

  /** A delimiter and a line break are one character each, and a carriage return takes a newline along. */
  function BreakLength(rest: string): nat
    requires rest != ""
  {
    if rest[0] == '\r' && At(rest, 1, '\n') then 2 else 1
  }

  lemma {:induction false} CloseQuoteFound(text: string, i: nat, f: string, rest: string)
    requires i < |text| && text[i+1..] == Escape(f) + "\"" + rest
    requires rest == "" || rest[0] != '"'
    ensures CloseQuote(text, i) == i + 1 + |Escape(f)|
    decreases |f|
  {
    var s := Escape(f) + "\"" + rest;
    assert |text| - (i + 1) == |s| && forall k | 0 <= k < |s| :: text[i+1+k] == s[k];
    if f == "" {
      assert s[0] == '"' && (|s| == 1 || s[1] == rest[0]);
    } else if f[0] == '"' {
      assert s[0] == '"' && s[1] == '"' && s[2..] == Escape(f[1..]) + "\"" + rest;
      assert text[i+3..] == s[2..];
      CloseQuoteFound(text, i + 2, f[1..], rest);
    } else {
      assert s[0] != '"' && s[1..] == Escape(f[1..]) + "\"" + rest;
      assert text[i+2..] == s[1..];
      CloseQuoteFound(text, i + 1, f[1..], rest);
    }
  }

  /** The state after the value that ends at `p` and is followed by `rest`. */
  ghost predicate Past(d: char, text: string, st: State, p: nat, rest: string) {
    if rest == "" then st.pos >= |text|
    else st == State(p + BreakLength(rest), rest[0] != d)
  }

  lemma QuotedSlices(text: string, p: nat, e: string, rest: string)
    requires p <= |text| && text[p..] == "\"" + e + "\"" + rest
    ensures var i := p + 1 + |e|;
            && |text| == i + 1 + |rest| && text[p] == '"'
            && text[p+1..] == e + "\"" + rest && text[p+1..i] == e
            && forall k | 0 <= k < |rest| :: text[i+1+k] == rest[k]
  {
    var s := "\"" + e + "\"" + rest;
    assert text[p..][0] == s[0] && text[p..][1..] == s[1..];
    assert s[1..] == e + "\"" + rest && s[1..][..|e|] == e;
    assert text[p+1..] == text[p..][1..] && text[p+1..p+1+|e|] == text[p+1..][..|e|];
    assert forall k | 0 <= k < |rest| :: s[|e|+2+k] == rest[k];
  }

  lemma QuotedTokenIs(d: char, text: string, j: nat, i: nat, f: string, rest: string)
    requires j < i && |text| == i + 1 + |rest| && CloseQuote(text, j) == i && Unescape(text[j+1..i]) == f
    requires PlainDelimiter(d) && AfterValue(d, rest) && forall k | 0 <= k < |rest| :: text[i+1+k] == rest[k]
    ensures QuotedToken(text, j).0 == Field(f) && Past(d, text, QuotedToken(text, j).1, i + 1, rest)
  {
    assert |rest| > 1 ==> text[i+2] == rest[1];
  }

  lemma QuotedText(d: char, text: string, p: nat, f: string, rest: string)
    requires PlainDelimiter(d) && AfterValue(d, rest) && p <= |text| && text[p..] == "\"" + Escape(f) + "\"" + rest
    ensures p < |text| && text[p] == '"'
    ensures QuotedToken(text, p).0 == Field(f) && Past(d, text, QuotedToken(text, p).1, p + 2 + |Escape(f)|, rest)
  {
    var e := Escape(f);
    QuotedSlices(text, p, e, rest);
    CloseQuoteFound(text, p, f, rest);
    UnescapeEscape(f);
    QuotedTokenIs(d, text, p, p + 1 + |e|, f, rest);
  }

  lemma QuotedValue(d: char, text: string, p: nat, f: string, rest: string)
    requires PlainDelimiter(d) && NeedsQuotes(d, f) && AfterValue(d, rest)
    requires p <= |text| && text[p..] == FormatValue(d, f) + rest
    ensures var (t, st) := NextToken(d, text, State(p, false));
            t == Field(f) && Past(d, text, st, p + |FormatValue(d, f)|, rest)
  {
    QuotedText(d, text, p, f, rest);
  }

  lemma PlainValue(d: char, text: string, p: nat, f: string, rest: string)
    requires PlainDelimiter(d) && !NeedsQuotes(d, f) && '\r' !in f && AfterValue(d, rest)
    requires p < |text| && text[p..] == f + rest
    ensures var (t, st) := NextToken(d, text, State(p, false));
            t == Field(f) && Past(d, text, st, p + |f|, rest)
  {
    PlainSlices(text, p, f, rest);
    assert |rest| > 1 ==> text[p+|f|+1] == rest[1];
    assert forall j | p <= j < p + |f| :: text[j] in f;
    FindBreakFinds(d, text, p, p + |f|);
  }

  lemma PlainSlices(text: string, p: nat, f: string, rest: string)
    requires p <= |text| && text[p..] == f + rest
    ensures p + |f| + |rest| == |text| && text[p..p+|f|] == f
    ensures forall j | p <= j < p + |f| :: text[j] == f[j-p]
    ensures forall k | 0 <= k < |rest| :: text[p+|f|+k] == rest[k]
  {
    var s := f + rest;
    assert forall k | 0 <= k < |s| :: text[p+k] == s[k];
    assert forall j | p <= j < p + |f| :: text[j] == s[j-p];
    forall k | 0 <= k < |rest| ensures text[p+|f|+k] == rest[k] {
      assert s[|f|+k] == rest[k] && text[p+(|f|+k)] == s[|f|+k];
    }
  }

  /** The first carriage return of a value that has one. */
  function FirstReturn(f: string): (k: nat)
    requires '\r' in f
    ensures k < |f| && f[k] == '\r' && '\r' !in f[..k]
  {
    if f[0] == '\r' then 0
    else
      assert f == [f[0]] + f[1..];
      1 + FirstReturn(f[1..])
  }

  /** A carriage return in a value that is printed without quotes ends the field early. */
  lemma SplitValue(d: char, text: string, p: nat, f: string, rest: string)
    requires PlainDelimiter(d) && !NeedsQuotes(d, f) && '\r' in f
    requires p <= |text| && text[p..] == f + rest
    ensures var t := NextToken(d, text, State(p, false)).0;
            t.Field? && t.text != f
  {
    PlainSlices(text, p, f, rest);
    var k := FirstReturn(f);
    assert forall j | p <= j < p + k :: text[j] == f[..k][j-p];
    assert forall j | p <= j < p + |f| :: text[j] in f;
    FindBreakFinds(d, text, p, p + k);
    assert |text[p..p+k]| < |f|;
  }

  // ------------------------------------------------------ rows of printed text

  /** A field that survives: a carriage return needs the quotes that only some other character brings. */
  predicate FieldKept(d: char, f: string) {
    '\r' in f ==> '"' in f || d in f || '\n' in f
  }

  predicate RowKept(d: char, row: Row) {
    row != [] && forall f | f in row :: FieldKept(d, f)
  }

  /** The tables that survive printing and parsing. */
  predicate Preserved(d: char, rows: seq<Row>) {
    && (forall row | row in rows :: RowKept(d, row))
    && (rows != [] && rows[|rows|-1] != [] ==>
          var last := rows[|rows|-1]; last[|last|-1] != "")
  }

  lemma ValueToken(d: char, text: string, p: nat, f: string, rest: string)
    requires PlainDelimiter(d) && AfterValue(d, rest)
    requires p < |text| && text[p..] == FormatValue(d, f) + rest
    ensures var (t, st) := NextToken(d, text, State(p, false));
            t.Field? && (t.text == f <==> FieldKept(d, f))
            && (FieldKept(d, f) ==> Past(d, text, st, p + |FormatValue(d, f)|, rest))
  {
    if NeedsQuotes(d, f) {
      QuotedValue(d, text, p, f, rest);
    } else if '\r' in f {
      SplitValue(d, text, p, f, rest);
    } else {
      PlainValue(d, text, p, f, rest);
    }
  }

  /** The tokens of a text that starts with a printed value. */
  lemma ValueTokens(d: char, text: string, p: nat, f: string, rest: string)
    requires PlainDelimiter(d) && AfterValue(d, rest)
    requires p < |text| && text[p..] == FormatValue(d, f) + rest
    ensures var ts := Tokens(d, text, State(p, false));
            if FieldKept(d, f) then
              ts == [Field(f)] + if rest == "" then []
                                 else Tokens(d, text, State(p + |FormatValue(d, f)| + BreakLength(rest), rest[0] != d))
            else ts != [] && ts[0].Field? && ts[0].text != f
  {
    ValueToken(d, text, p, f, rest);
  }

  lemma LineTokens(d: char, text: string, q: nat)
    ensures Tokens(d, text, State(q, true))
            == if q >= |text| then [] else [EndOfLine] + Tokens(d, text, State(q, false))
    ensures q >= |text| ==> Tokens(d, text, State(q, false)) == []
  {
  }

  // The reasoning about rows takes the tokens from each state on as a function `lex`, of which it needs
  // these facts only.

  type Lexer = State -> seq<Token>

  ghost predicate LexesValue(d: char, text: string, lex: Lexer, p: nat, f: string, rest: string) {
    p < |text| && text[p..] == FormatValue(d, f) + rest && AfterValue(d, rest) ==>
      var ts := lex(State(p, false));
      if FieldKept(d, f) then
        ts == [Field(f)] + if rest == "" then []
                           else lex(State(p + |FormatValue(d, f)| + BreakLength(rest), rest[0] != d))
      else ts != [] && ts[0].Field? && ts[0].text != f
  }

  ghost predicate LexesLine(text: string, lex: Lexer, q: nat) {
    && lex(State(q, true)) == (if q >= |text| then [] else [EndOfLine] + lex(State(q, false)))
    && (q >= |text| ==> lex(State(q, false)) == [])
  }

  ghost predicate Lexes(d: char, text: string, lex: Lexer) {
    && (forall p: nat, f, rest :: LexesValue(d, text, lex, p, f, rest))
    && (forall q: nat :: LexesLine(text, lex, q))
  }

  lemma TokensLex(d: char, text: string)
    requires PlainDelimiter(d)
    ensures Lexes(d, text, st => Tokens(d, text, st))
  {
    var lex := st => Tokens(d, text, st);
    forall p: nat, f, rest ensures LexesValue(d, text, lex, p, f, rest) {
      if p < |text| && text[p..] == FormatValue(d, f) + rest && AfterValue(d, rest) {
        ValueTokens(d, text, p, f, rest);
      }
    }
    forall q: nat ensures LexesLine(text, lex, q) {
      LineTokens(d, text, q);
    }
  }

  lemma Behind(text: string, p: nat, v: string, rest: string)
    requires p <= |text| && text[p..] == v + rest
    ensures p + |v| <= |text| && text[p+|v|..] == rest
    ensures forall k | 0 <= k <= |rest| :: text[p+|v|+k..] == rest[k..]
  {
    assert text[p..][|v|..] == rest;
    forall k | 0 <= k <= |rest| ensures text[p+|v|+k..] == rest[k..] {
      assert text[p..][|v|+k..] == rest[k..];
    }
  }

  /** The tokens at and behind the end of a printed row. */
  function LineEnd(lex: Lexer, q: nat, tail: string): seq<Token> {
    if tail == "" then [] else lex(State(q + BreakLength(tail), true))
  }

  /** The value that starts at `p`, with at least one character behind it or in it. */
  lemma LexValue(d: char, text: string, lex: Lexer, p: nat, f: string, rest: string)
    requires Lexes(d, text, lex) && AfterValue(d, rest)
    requires p < |text| && text[p..] == FormatValue(d, f) + rest
    ensures FieldKept(d, f) && rest == "" ==> lex(State(p, false)) == [Field(f)]
    ensures FieldKept(d, f) && rest != "" ==>
              lex(State(p, false)) == [Field(f)] +
                                      lex(State(p + |FormatValue(d, f)| + BreakLength(rest), rest[0] != d))
    ensures !FieldKept(d, f) ==> !([f] <= FirstRow(lex(State(p, false))))
  {
    assert LexesValue(d, text, lex, p, f, rest);
    if FieldKept(d, f) && rest == "" {
      assert lex(State(p, false)) == [Field(f)] + [];
    }
  }

  lemma LexLastField(d: char, text: string, lex: Lexer, p: nat, f: string, tail: string)
    requires Lexes(d, text, lex) && PlainDelimiter(d) && AfterLine(tail) && FieldKept(d, f)
    requires p <= |text| && text[p..] == FormatValue(d, f) + tail
    ensures lex(State(p, false)) ==
            if tail == "" && f == "" then [] else [Field(f)] + LineEnd(lex, p + |FormatValue(d, f)|, tail)
  {
    if p == |text| {
      assert |FormatValue(d, f)| + |tail| == |text[p..]| == 0;
      assert LexesLine(text, lex, p);
    } else {
      LexValue(d, text, lex, p, f, tail);
    }
  }

  lemma RowText(d: char, text: string, p: nat, f: string, more: Row, tail: string)
    requires more != [] && p <= |text| && text[p..] == FormatRow(d, [f] + more) + tail
    ensures var v, rest := FormatValue(d, f), [d] + (FormatRow(d, more) + tail);
            && |FormatRow(d, [f] + more)| == |v| + 1 + |FormatRow(d, more)|
            && p < |text| && text[p..] == v + rest && rest != "" && rest[0] == d
            && p + |v| + 1 <= |text| && text[p+|v|+1..] == FormatRow(d, more) + tail
  {
    assert ([f] + more)[1..] == more;
    var v, rest := FormatValue(d, f), [d] + (FormatRow(d, more) + tail);
    assert v + [d] + FormatRow(d, more) + tail == v + rest;
    Behind(text, p, v, rest);
    assert rest[1..] == FormatRow(d, more) + tail;
  }

  lemma LexField(d: char, text: string, lex: Lexer, p: nat, f: string, more: Row, tail: string)
    requires Lexes(d, text, lex) && PlainDelimiter(d) && more != []
    requires p <= |text| && text[p..] == FormatRow(d, [f] + more) + tail
    ensures FieldKept(d, f) ==>
              lex(State(p, false)) == [Field(f)] + lex(State(p + |FormatValue(d, f)| + 1, false))
    ensures !FieldKept(d, f) ==> !([f] <= FirstRow(lex(State(p, false))))
  {
    RowText(d, text, p, f, more, tail);
    LexValue(d, text, lex, p, f, [d] + (FormatRow(d, more) + tail));
  }

  /** The tokens of a row with `end` behind it; an empty last field at the end of the text is lost. */
  function RowTokens(row: Row, last: bool, end: seq<Token>): seq<Token> {
    if row == [] || (last && row == [""]) then end else [Field(row[0])] + RowTokens(row[1..], last, end)
  }

  lemma RowTokensCons(f: string, more: Row, last: bool, end: seq<Token>)
    requires more != []
    ensures RowTokens([f] + more, last, end) == [Field(f)] + RowTokens(more, last, end)
  {
    assert ([f] + more)[1..] == more;
  }

  lemma RowKeptCons(d: char, row: Row)
    requires RowKept(d, row)
    ensures FieldKept(d, row[0])
    ensures |row| > 1 ==> RowKept(d, row[1..])
  {
    assert row[0] in row && forall f | f in row[1..] :: f in row;
  }

  lemma {:induction false} KeptRowTokens(d: char, text: string, lex: Lexer, p: nat, row: Row, tail: string, q: nat)
    requires Lexes(d, text, lex) && PlainDelimiter(d) && RowKept(d, row) && AfterLine(tail)
    requires p <= |text| && text[p..] == FormatRow(d, row) + tail && q == p + |FormatRow(d, row)|
    ensures lex(State(p, false)) == RowTokens(row, tail == "", LineEnd(lex, q, tail))
    decreases |row|
  {
    var f, more := row[0], row[1..];
    assert row == [f] + more;
    RowKeptCons(d, row);
    if more == [] {
      LexLastField(d, text, lex, p, f, tail);
    } else {
      RowText(d, text, p, f, more, tail);
      LexField(d, text, lex, p, f, more, tail);
      KeptRowTokens(d, text, lex, p + |FormatValue(d, f)| + 1, more, tail, q);
      RowTokensCons(f, more, tail == "", LineEnd(lex, q, tail));
    }
  }

  /** Some field of the row is not kept: the row is not read back. */
  lemma {:induction false} LostRowTokens(d: char, text: string, lex: Lexer, p: nat, row: Row, k: nat, tail: string)
    requires Lexes(d, text, lex) && PlainDelimiter(d) && AfterLine(tail)
    requires k < |row| && !FieldKept(d, row[k])
    requires p <= |text| && text[p..] == FormatRow(d, row) + tail
    ensures FirstRow(lex(State(p, false))) != row
    decreases |row|
  {
    var f, more := row[0], row[1..];
    assert row == [f] + more && [f] <= row;
    if more == [] {
      assert |FormatValue(d, f)| > 0;
      LexValue(d, text, lex, p, f, tail);
    } else {
      LexField(d, text, lex, p, f, more, tail);
      if FieldKept(d, f) {
        RowText(d, text, p, f, more, tail);
        var next := p + |FormatValue(d, f)| + 1;
        LostRowTokens(d, text, lex, next, more, k - 1, tail);
        FirstRowCons(f, lex(State(next, false)), more);
      }
    }
  }

  lemma FirstRowCons(f: string, ts: seq<Token>, more: Row)
    ensures FirstRow([Field(f)] + ts) == [f] + FirstRow(ts)
    ensures AfterRow([Field(f)] + ts) == AfterRow(ts)
    ensures FirstRow(ts) != more ==> [f] + FirstRow(ts) != [f] + more
  {
    assert ([Field(f)] + ts)[1..] == ts;
    assert ([f] + FirstRow(ts))[1..] == FirstRow(ts) && ([f] + more)[1..] == more;
  }

  /** Reading the tokens of a row gives the row back, unless its empty last field was lost. */
  lemma {:induction false} RowOfTokens(row: Row, last: bool, end: seq<Token>)
    requires row != [] && if last then end == [] else end == [] || end[0] == EndOfLine
    ensures var ts := RowTokens(row, last, end);
            && FirstRow(ts) == (if last && row[|row|-1] == "" then row[..|row|-1] else row)
            && AfterRow(ts) == if end == [] then [] else end[1..]
  {
    var f, more := row[0], row[1..];
    var ts := RowTokens(more, last, end);
    assert row == [f] + more;
    FirstRowCons(f, ts, more);
    if more == [] {
    } else {
      RowOfTokens(more, last, end);
      assert row[..|row|-1] == [f] + more[..|more|-1];
    }
  }

  lemma LineEndIs(d: char, text: string, lex: Lexer, q: nat, tail: string)
    requires Lexes(d, text, lex)
    ensures var end := LineEnd(lex, q, tail);
            && (end == [] || (tail != "" && end[0] == EndOfLine))
            && (if end == [] then [] else end[1..]) ==
               if tail == "" then [] else lex(State(q + BreakLength(tail), false))
  {
    if tail != "" {
      assert LexesLine(text, lex, q + BreakLength(tail));
    }
  }

  lemma KeptRowParsed(d: char, text: string, lex: Lexer, p: nat, row: Row, tail: string, next: nat)
    requires Lexes(d, text, lex) && PlainDelimiter(d) && RowKept(d, row) && AfterLine(tail)
    requires p <= |text| && text[p..] == FormatRow(d, row) + tail
    requires tail != "" ==> next == p + |FormatRow(d, row)| + BreakLength(tail)
    ensures var ts := lex(State(p, false));
            && FirstRow(ts) == (if tail == "" && row[|row|-1] == "" then row[..|row|-1] else row)
            && (ts == [] <==> tail == "" && row == [""])
            && AfterRow(ts) == if tail == "" then [] else lex(State(next, false))
  {
    var q := p + |FormatRow(d, row)|;
    KeptRowTokens(d, text, lex, p, row, tail, q);
    LineEndIs(d, text, lex, q, tail);
    RowOfTokens(row, tail == "", LineEnd(lex, q, tail));
  }

  /** What the first row of a printed table becomes, and the tokens behind it. */
  lemma FirstRowParsed(d: char, text: string, lex: Lexer, p: nat, row: Row, tail: string, next: nat)
    requires Lexes(d, text, lex) && PlainDelimiter(d) && AfterLine(tail)
    requires p <= |text| && text[p..] == FormatRow(d, row) + tail
    requires tail != "" ==> next == p + |FormatRow(d, row)| + BreakLength(tail)
    ensures var ts := lex(State(p, false));
            && (ts != [] && FirstRow(ts) == row <==> RowKept(d, row) && (tail != "" || row[|row|-1] != ""))
            && (ts != [] && FirstRow(ts) == row ==>
                  AfterRow(ts) == if tail == "" then [] else lex(State(next, false)))
  {
    if row == [] {
      var blank: Row := [""];
      assert FormatRow(d, blank) == "";
      KeptRowParsed(d, text, lex, p, blank, tail, next);
    } else if k :| 0 <= k < |row| && !FieldKept(d, row[k]) {
      LostRowTokens(d, text, lex, p, row, k, tail);
    } else {
      KeptRowParsed(d, text, lex, p, row, tail, next);
    }
  }

  // --------------------------------------------------- tables with any line breaks

  predicate LineBreak(e: string) {
    e == "\n" || e == "\r\n" || e == "\r"
  }

  /** A line break behind each row; there may be none behind the last one. */
  predicate Ends(ends: seq<string>) {
    ends != [] ==> (LineBreak(ends[0]) || ends == [""]) && Ends(ends[1..])
  }

  /** A printed table with these line breaks. */
  function Lines(d: char, rows: seq<Row>, ends: seq<string>): string
    requires |rows| == |ends|
  {
    if rows == [] then "" else FormatRow(d, rows[0]) + ends[0] + Lines(d, rows[1..], ends[1..])
  }

  function JoinedBy(n: nat): (ends: seq<string>)
    ensures |ends| == n && Ends(ends)
    ensures forall i | 0 <= i < n :: ends[i] == if i == n - 1 then "" else "\n"
  {
    if n == 0 then [] else if n == 1 then [""] else ["\n"] + JoinedBy(n - 1)
  }

  /** The printer ends every row but the last one with a newline. */
  lemma {:induction false} FormatIsLines(d: char, rows: seq<Row>)
    ensures Format(d, rows) == Lines(d, rows, JoinedBy(|rows|))
    decreases |rows|
  {
    if rows == [] {
    } else {
      var ends := JoinedBy(|rows|);
      assert ends[1..] == JoinedBy(|rows[1..]|);
      FormatIsLines(d, rows[1..]);
    }
  }

  /** A row that is printed as nothing. */
  predicate Blank(row: Row) {
    row == [] || row == [""]
  }

  /** A carriage return, and a newline behind a blank row: together they are one line break. */
  predicate Melts(rows: seq<Row>, ends: seq<string>, i: nat)
    requires |rows| == |ends|
  {
    i + 1 < |rows| && ends[i] == "\r" && Blank(rows[i+1]) && ends[i+1] == "\n"
  }

  ghost predicate Apart(rows: seq<Row>, ends: seq<string>)
    requires |rows| == |ends|
  {
    forall i: nat | i < |rows| :: !Melts(rows, ends, i)
  }

  lemma {:induction false} RowStart(d: char, row: Row)
    requires PlainDelimiter(d)
    ensures FormatRow(d, row) == "" <==> Blank(row)
    ensures FormatRow(d, row) != "" ==> FormatRow(d, row)[0] != '\n'
  {
    if row != [] {
      var v := FormatValue(d, row[0]);
      assert v != "" ==> v[0] != '\n';
      if |row| > 1 {
        assert FormatRow(d, row) == v + ([d] + FormatRow(d, row[1..]));
      }
    }
  }

  lemma StartOf(v: string, e: string, rest: string)
    requires v != "" ==> v[0] != '\n'
    requires LineBreak(e) || (e == "" && rest == "")
    ensures At(v + e + rest, 0, '\n') <==> v == "" && e == "\n"
  {
    var s := v + e + rest;
    if v != "" {
      assert s[0] == v[0];
    } else if e != "" {
      assert s[0] == e[0];
    }
  }

  lemma LinesStart(d: char, rows: seq<Row>, ends: seq<string>)
    requires PlainDelimiter(d) && |rows| == |ends| && Ends(ends) && rows != []
    ensures At(Lines(d, rows, ends), 0, '\n') <==> Blank(rows[0]) && ends[0] == "\n"
  {
    RowStart(d, rows[0]);
    assert |rows| > 1 ==> LineBreak(ends[0]);
    StartOf(FormatRow(d, rows[0]), ends[0], Lines(d, rows[1..], ends[1..]));
  }

  lemma TailStarts(e: string, rest: string)
    requires LineBreak(e)
    ensures var tail := e + rest;
            && tail != "" && AfterLine(tail)
            && BreakLength(tail) == if e == "\r" && At(rest, 0, '\n') then 2 else |e|
  {
    var tail := e + rest;
    assert tail[0] == e[0];
    assert |e| == 1 && rest != "" ==> tail[1] == rest[0];
    assert |e| == 2 ==> tail[1] == e[1];
  }

  lemma TextBehind(text: string, p: nat, v: string, e: string, rest: string)
    requires p <= |text| && text[p..] == v + e + rest
    ensures text[p..] == v + (e + rest)
    ensures p + |v| + |e| <= |text| && text[p+|v|+|e|..] == rest
  {
    assert v + e + rest == v + (e + rest) && (v + e + rest)[|v|+|e|..] == rest;
    assert text[p+|v|+|e|..] == text[p..][|v|+|e|..];
  }

  /** What is behind the first row, and where the next one starts. */
  lemma LinesText(d: char, text: string, p: nat, rows: seq<Row>, ends: seq<string>) returns (tail: string)
    requires PlainDelimiter(d) && |rows| == |ends| && Ends(ends) && rows != []
    requires p <= |text| && text[p..] == Lines(d, rows, ends)
    ensures text[p..] == FormatRow(d, rows[0]) + tail && AfterLine(tail) && (tail == "" <==> ends[0] == "")
    ensures tail == "" ==> |rows| == 1
    ensures tail != "" ==> BreakLength(tail) == if Melts(rows, ends, 0) then 2 else |ends[0]|
    ensures var q := p + |FormatRow(d, rows[0])| + |ends[0]|; q <= |text| && text[q..] == Lines(d, rows[1..], ends[1..])
  {
    var rest := Lines(d, rows[1..], ends[1..]);
    TextBehind(text, p, FormatRow(d, rows[0]), ends[0], rest);
    tail := ends[0] + rest;
    if ends[0] != "" {
      TailStarts(ends[0], rest);
    }
    if |rows| > 1 {
      assert LineBreak(ends[0]);
      LinesStart(d, rows[1..], ends[1..]);
    }
  }

  lemma EndsTail(rows: seq<Row>, ends: seq<string>)
    requires |rows| == |ends| && Ends(ends) && rows != []
    ensures Ends(ends[1..])
    ensures Apart(rows, ends) <==> !Melts(rows, ends, 0) && Apart(rows[1..], ends[1..])
  {
    var rows', ends' := rows[1..], ends[1..];
    forall i: nat | i < |rows'| ensures Melts(rows', ends', i) <==> Melts(rows, ends, i + 1) {
    }
    if Apart(rows', ends') && !Melts(rows, ends, 0) {
      forall i: nat | i < |rows| ensures !Melts(rows, ends, i) {
        assert i > 0 ==> !Melts(rows', ends', i - 1);
      }
    }
  }

  lemma RowsOfCons(ts: seq<Token>, row: Row, more: seq<Row>)
    ensures RowsOf(ts) == [row] + more <==> ts != [] && FirstRow(ts) == row && RowsOf(AfterRow(ts)) == more
  {
    if ts != [] {
      assert RowsOf(ts)[0] == FirstRow(ts) && RowsOf(ts)[1..] == RowsOf(AfterRow(ts));
      assert ([row] + more)[0] == row && ([row] + more)[1..] == more;
    }
  }

  predicate AllKept(d: char, rows: seq<Row>) {
    rows != [] ==> RowKept(d, rows[0]) && AllKept(d, rows[1..])
  }

  lemma {:induction false} AllKeptIs(d: char, rows: seq<Row>)
    ensures AllKept(d, rows) <==> forall row | row in rows :: RowKept(d, row)
    decreases |rows|
  {
    if rows == [] {
    } else {
      AllKeptIs(d, rows[1..]);
      assert rows == [rows[0]] + rows[1..];
    }
  }

  /** Behind the last field there is a line break, or the field is not empty. */
  predicate Closed(rows: seq<Row>, ends: seq<string>)
    requires |rows| == |ends|
  {
    rows != [] && rows[|rows|-1] != [] ==>
      var last := rows[|rows|-1]; ends[|ends|-1] != "" || last[|last|-1] != ""
  }

  lemma KeptCons(d: char, rows: seq<Row>, ends: seq<string>)
    requires |rows| == |ends| && rows != []
    ensures RowKept(d, rows[0]) ==>
              (Closed(rows, ends) <==>
               if |rows| == 1 then ends[0] != "" || rows[0][|rows[0]|-1] != "" else Closed(rows[1..], ends[1..]))
  {
    assert rows == [rows[0]] + rows[1..];
  }

  lemma TableStep(d: char, ts: seq<Token>, ts': seq<Token>, rows: seq<Row>, ends: seq<string>)
    requires |rows| == |ends| && rows != [] && (ends[0] == "" ==> |rows| == 1)
    requires ts != [] && FirstRow(ts) == rows[0] <==>
             RowKept(d, rows[0]) && (ends[0] != "" || rows[0][|rows[0]|-1] != "")
    requires ts != [] && FirstRow(ts) == rows[0] ==> AfterRow(ts) == ts'
    requires RowsOf(ts') == rows[1..] <==> AllKept(d, rows[1..]) && Closed(rows[1..], ends[1..])
    ensures RowsOf(ts) == rows <==> AllKept(d, rows) && Closed(rows, ends)
  {
    KeptCons(d, rows, ends);
    assert rows == [rows[0]] + rows[1..];
    RowsOfCons(ts, rows[0], rows[1..]);
  }

  /** Where no line breaks melt, exactly these tables are read back. */
  lemma {:induction false} TableParsed(d: char, text: string, lex: Lexer, p: nat, rows: seq<Row>, ends: seq<string>)
    requires Lexes(d, text, lex) && PlainDelimiter(d) && |rows| == |ends| && Ends(ends) && Apart(rows, ends)
    requires p <= |text| && text[p..] == Lines(d, rows, ends)
    ensures RowsOf(lex(State(p, false))) == rows <==> AllKept(d, rows) && Closed(rows, ends)
    decreases |rows|
  {
    if rows == [] {
      assert LexesLine(text, lex, p);
    } else {
      var tail := LinesText(d, text, p, rows, ends);
      EndsTail(rows, ends);
      var q := p + |FormatRow(d, rows[0])| + |ends[0]|;
      FirstRowParsed(d, text, lex, p, rows[0], tail, q);
      if tail == "" {
        TableStep(d, lex(State(p, false)), [], rows, ends);
      } else {
        TableParsed(d, text, lex, q, rows[1..], ends[1..]);
        TableStep(d, lex(State(p, false)), lex(State(q, false)), rows, ends);
      }
    }
  }

  /** What is read of kept rows: a row between melted line breaks is lost, and so is an empty field at the end. */
  function ReadBack(rows: seq<Row>, ends: seq<string>): seq<Row>
    requires |rows| == |ends|
  {
    if rows == [] then []
    else if |rows| == 1 && ends[0] == "" && rows[0] != [] && rows[0][|rows[0]|-1] == "" then
      if rows[0] == [""] then [] else [rows[0][..|rows[0]|-1]]
    else if Melts(rows, ends, 0) then [rows[0]] + ReadBack(rows[2..], ends[2..])
    else [rows[0]] + ReadBack(rows[1..], ends[1..])
  }

  /** Behind the blank row whose newline melts into the line break before it. */
  lemma Skipped(d: char, text: string, q: nat, rows: seq<Row>, ends: seq<string>)
    requires |rows| == |ends| && Ends(ends) && Melts(rows, ends, 0) && AllKept(d, rows)
    requires q <= |text| && text[q..] == Lines(d, rows[1..], ends[1..])
    ensures q + 1 <= |text| && text[q+1..] == Lines(d, rows[2..], ends[2..])
    ensures Ends(ends[2..]) && AllKept(d, rows[2..])
  {
    assert Ends(ends[1..]);
    assert rows[1..][1..] == rows[2..] && ends[1..][1..] == ends[2..];
    assert rows[1..][0] == rows[1] && FormatRow(d, rows[1]) == "";
    assert text[q..] == "\n" + Lines(d, rows[2..], ends[2..]);
    assert text[q+1..] == text[q..][1..];
    assert AllKept(d, rows[1..]);
  }

  lemma KeptStep(ts: seq<Token>, ts': seq<Token>, rows: seq<Row>, ends: seq<string>)
    requires |rows| == |ends| && rows != [] && rows[0] != [] && (ends[0] == "" ==> |rows| == 1)
    requires ts == [] <==> ends[0] == "" && rows[0] == [""]
    requires FirstRow(ts) == if ends[0] == "" && rows[0][|rows[0]|-1] == "" then rows[0][..|rows[0]|-1] else rows[0]
    requires AfterRow(ts) == ts' && (ends[0] == "" ==> ts' == [])
    requires RowsOf(ts') == if Melts(rows, ends, 0) then ReadBack(rows[2..], ends[2..])
                            else ReadBack(rows[1..], ends[1..])
    ensures RowsOf(ts) == ReadBack(rows, ends)
  {
    assert ts != [] ==> RowsOf(ts) == [FirstRow(ts)] + RowsOf(ts');
  }

  lemma {:induction false} KeptParsed(d: char, text: string, lex: Lexer, p: nat, rows: seq<Row>, ends: seq<string>)
    requires Lexes(d, text, lex) && PlainDelimiter(d) && |rows| == |ends| && Ends(ends) && AllKept(d, rows)
    requires p <= |text| && text[p..] == Lines(d, rows, ends)
    ensures RowsOf(lex(State(p, false))) == ReadBack(rows, ends)
    decreases |rows|
  {
    if rows == [] {
      assert LexesLine(text, lex, p);
    } else {
      var tail := LinesText(d, text, p, rows, ends);
      var ts, q := lex(State(p, false)), p + |FormatRow(d, rows[0])| + |ends[0]|;
      KeptRowParsed(d, text, lex, p, rows[0], tail, if Melts(rows, ends, 0) then q + 1 else q);
      if ends[0] == "" {
        KeptStep(ts, [], rows, ends);
      } else if Melts(rows, ends, 0) {
        var more, next := rows[2..], ends[2..];
        Skipped(d, text, q, rows, ends);
        KeptParsed(d, text, lex, q + 1, more, next);
        KeptStep(ts, lex(State(q + 1, false)), rows, ends);
      } else {
        EndsTail(rows, ends);
        KeptParsed(d, text, lex, q, rows[1..], ends[1..]);
        KeptStep(ts, lex(State(q, false)), rows, ends);
      }
    }
  }

  /** Nothing is lost exactly where no line breaks melt and the last field is closed. */
  lemma {:induction false} ReadBackAll(d: char, rows: seq<Row>, ends: seq<string>)
    requires |rows| == |ends| && Ends(ends) && AllKept(d, rows)
    ensures |ReadBack(rows, ends)| <= |rows|
    ensures ReadBack(rows, ends) == rows <==> Apart(rows, ends) && Closed(rows, ends)
    decreases |rows|
  {
    if rows == [] {
    } else {
      EndsTail(rows, ends);
      KeptCons(d, rows, ends);
      assert rows == [rows[0]] + rows[1..];
      if Melts(rows, ends, 0) {
        EndsTail(rows[1..], ends[1..]);
        KeptCons(d, rows[1..], ends[1..]);
        assert rows[1..][1..] == rows[2..] && ends[1..][1..] == ends[2..];
        ReadBackAll(d, rows[2..], ends[2..]);
      } else {
        ReadBackAll(d, rows[1..], ends[1..]);
        assert ReadBack(rows, ends) == [rows[0]] + ReadBack(rows[1..], ends[1..]) ==>
                 (ReadBack(rows, ends) == rows <==> ReadBack(rows[1..], ends[1..]) == rows[1..]);
      }
    }
  }

  /** What is read of kept rows with any mix of line breaks. */
  lemma AnyLineBreaks(d: char, rows: seq<Row>, ends: seq<string>)
    requires PlainDelimiter(d) && |rows| == |ends| && Ends(ends) && AllKept(d, rows)
    ensures ParseRows(d, Lines(d, rows, ends)) == ReadBack(rows, ends)
    ensures ParseRows(d, Lines(d, rows, ends)) == rows <==> Apart(rows, ends) && Closed(rows, ends)
  {
    var text := Lines(d, rows, ends);
    TokensLex(d, text);
    KeptParsed(d, text, st => Tokens(d, text, st), 0, rows, ends);
    ReadBackAll(d, rows, ends);
  }

  /** And of any rows, where no line breaks melt. */
  lemma LinesRoundTrip(d: char, rows: seq<Row>, ends: seq<string>)
    requires PlainDelimiter(d) && |rows| == |ends| && Ends(ends) && Apart(rows, ends)
    ensures ParseRows(d, Lines(d, rows, ends)) == rows <==> AllKept(d, rows) && Closed(rows, ends)
  {
    var text := Lines(d, rows, ends);
    TokensLex(d, text);
    TableParsed(d, text, st => Tokens(d, text, st), 0, rows, ends);
  }

  /** A preserved table is read back with any line breaks, and whether or not there is one at its end. */
  lemma PreservedLines(d: char, rows: seq<Row>, ends: seq<string>)
    requires PlainDelimiter(d) && |rows| == |ends| && Ends(ends) && Preserved(d, rows)
    ensures ParseRows(d, Lines(d, rows, ends)) == rows <==> Apart(rows, ends)
  {
    AllKeptIs(d, rows);
    AnyLineBreaks(d, rows, ends);
  }

  /** The blank row between a carriage return and a newline is lost. */
  lemma MeltedRowIsLost(d: char)
    requires PlainDelimiter(d)
    ensures Preserved(d, [["a"], [""], ["b"]])
    ensures ParseRows(d, Lines(d, [["a"], [""], ["b"]], ["\r", "\n", ""])) == [["a"], ["b"]]
  {
    var rows: seq<Row>, ends := [["a"], [""], ["b"]], ["\r", "\n", ""];
    assert rows[2..] == [["b"]] && ends[2..] == [""] && Melts(rows, ends, 0);
    AllKeptIs(d, rows);
    AnyLineBreaks(d, rows, ends);
  }

  ghost predicate Survives(d: char, rows: seq<Row>) {
    Usable(d) && ParseRows(d, Format(d, rows)) == rows
  }

  /**
   Parsing undoes printing for exactly these tables: no row is empty, a field with a carriage return
   also has a quote, a delimiter or a newline, and the very last field is not empty.
   */
  lemma RoundTrip(d: char, rows: seq<Row>)
    requires PlainDelimiter(d)
    ensures Survives(d, rows) <==> Preserved(d, rows)
  {
    FormatIsLines(d, rows);
    AllKeptIs(d, rows);
    LinesRoundTrip(d, rows, JoinedBy(|rows|));
  }

  // ------------------------------------------------------- values that are not printed so

  lemma {:induction false} NoCloseQuote(text: string, i: nat, f: string)
    requires i < |text| && text[i+1..] == Escape(f)
    ensures CloseQuote(text, i) == |text| + 1
    decreases |f|
  {
    var s := Escape(f);
    assert |text| - (i + 1) == |s| && forall k | 0 <= k < |s| :: text[i+1+k] == s[k];
    if f == "" {
    } else if f[0] == '"' {
      assert s[0] == '"' && s[1] == '"' && s[2..] == Escape(f[1..]);
      assert text[i+3..] == s[2..];
      NoCloseQuote(text, i + 2, f[1..]);
    } else {
      assert s[0] != '"' && s[1..] == Escape(f[1..]);
      assert text[i+2..] == s[1..];
      NoCloseQuote(text, i + 1, f[1..]);
    }
  }

  /** A value whose quote is never closed takes all that is left of the text. */
  lemma UnclosedValue(d: char, text: string, p: nat, f: string)
    requires p <= |text| && text[p..] == "\"" + Escape(f)
    ensures var (t, st) := NextToken(d, text, State(p, false));
            t == Field(f) && st.pos >= |text| && !st.eol
  {
    assert text[p..][0] == '"' && text[p+1..] == text[p..][1..] == Escape(f);
    NoCloseQuote(text, p, f);
    UnescapeEscape(f);
    assert Substring(text, p + 1, |text| + 1) == text[p+1..];
  }

  /** Whatever is right behind the closing quote, but for a line break, is taken as the delimiter. */
  lemma StrayCharacter(d: char, text: string, p: nat, f: string, c: char, rest: string)
    requires c != '"' && c != '\r' && c != '\n'
    requires p <= |text| && text[p..] == "\"" + Escape(f) + "\"" + ([c] + rest)
    ensures NextToken(d, text, State(p, false)) == (Field(f), State(p + |Escape(f)| + 3, false))
  {
    QuotedSlices(text, p, Escape(f), [c] + rest);
    CloseQuoteFound(text, p, f, [c] + rest);
    UnescapeEscape(f);
    assert text[p+2+|Escape(f)|] == ([c] + rest)[0];
  }

  // ------------------------------------------------- delimiters with which it does not

  lemma FirstFieldDiffers(d: char, rows: seq<Row>)
    requires rows != [] && rows[0] != []
    requires var t := NextToken(d, Format(d, rows), State(0, false)).0; t.Field? && t.text != rows[0][0]
    ensures !Survives(d, rows)
  {
    var ts := Tokens(d, Format(d, rows), State(0, false));
    var (t, st) := NextToken(d, Format(d, rows), State(0, false));
    assert ts == [t] + Tokens(d, Format(d, rows), st);
    assert FirstRow(ts)[0] == t.text;
    assert RowsOf(ts)[0] == FirstRow(ts);
  }

  lemma SecondFieldDiffers(d: char, rows: seq<Row>, st: State)
    requires rows != [] && NextToken(d, Format(d, rows), State(0, false)).1 == st
    requires NextToken(d, Format(d, rows), State(0, false)).0.Field?
    requires var t := NextToken(d, Format(d, rows), st).0; t.Field? && (|rows[0]| < 2 || t.text != rows[0][1])
    ensures !Survives(d, rows)
  {
    var text := Format(d, rows);
    var t, u := NextToken(d, text, State(0, false)).0, NextToken(d, text, st).0;
    var more := Tokens(d, text, NextToken(d, text, st).1);
    assert Tokens(d, text, st) == [u] + more;
    var ts := [t] + ([u] + more);
    assert Tokens(d, text, State(0, false)) == ts;
    FirstRowCons(t.text, [u] + more, []);
    FirstRowCons(u.text, more, []);
    assert FirstRow(ts) == [t.text] + ([u.text] + FirstRow(more));
    assert RowsOf(ts)[0] == FirstRow(ts) && FirstRow(ts)[1] == u.text;
  }

  /** `[^\r\n]` matches the first character of the value. */
  lemma CaretLoses()
    ensures Preserved('^', [["a"]]) && !Survives('^', [["a"]])
  {
    var text := Format('^', [["a"]]);
    assert text == "a";
    FirstMatch('^', text, 0, 0);
    FirstFieldDiffers('^', [["a"]]);
  }

  /** With `]` and the backslash the parser does not see the delimiter. */
  lemma UnseenLoses(d: char)
    requires d == ']' || d == '\\'
    ensures Preserved(d, [["a", "b"]]) && !Survives(d, [["a", "b"]])
  {
    var rows: seq<Row> := [["a", "b"]];
    var text := Format(d, rows);
    assert rows[0][1..] == ["b"];
    assert text == "a" + [d] + "b";
    FirstMatch(d, text, 0, 3);
    FirstFieldDiffers(d, rows);
  }

  /** A quote as the delimiter, after an empty field, opens a quoted value. */
  lemma QuoteLoses()
    ensures Preserved('"', [["", "b"]]) && !Survives('"', [["", "b"]])
  {
    var rows: seq<Row> := [["", "b"]];
    var text := Format('"', rows);
    assert rows[0][1..] == ["b"];
    assert text == "\"b";
    assert CloseQuote(text, 2) == 3 && CloseQuote(text, 1) == 3 && CloseQuote(text, 0) == 3;
    assert Substring(text, 1, 3) == "b" && Unescape("b") == ['b'] + Unescape("b"[1..]);
    assert |Unescape("b")| > 0;
    FirstFieldDiffers('"', rows);
  }

  /** A carriage return as the delimiter, before the end of the line, is taken together with it. */
  lemma ReturnLoses()
    ensures Preserved('\r', [["a", ""], ["b"]]) && !Survives('\r', [["a", ""], ["b"]])
  {
    var rows: seq<Row> := [["a", ""], ["b"]];
    var text := Format('\r', rows);
    assert rows[0][1..] == [""] && rows[1..] == [["b"]];
    assert text == "a\r\nb";
    FirstMatch('\r', text, 0, 1);
    FirstMatch('\r', text, 3, 4);
    SecondFieldDiffers('\r', rows, State(3, false));
  }

  /** A newline as the delimiter does not end a line. */
  lemma NewlineLoses()
    ensures Preserved('\n', [["a"], ["b"]]) && !Survives('\n', [["a"], ["b"]])
  {
    var rows: seq<Row> := [["a"], ["b"]];
    var text := Format('\n', rows);
    assert rows[1..] == [["b"]];
    assert text == "a\nb";
    FirstMatch('\n', text, 0, 1);
    FirstMatch('\n', text, 2, 3);
    SecondFieldDiffers('\n', rows, State(2, false));
  }

  /** Of all single code units, the plain ones are exactly those with which every preserved table survives. */
  lemma PlainIsExact(d: char)
    requires d < '\U{10000}'
    ensures PlainDelimiter(d) <==> forall rows | Preserved(d, rows) :: Survives(d, rows)
  {
    if PlainDelimiter(d) {
      forall rows | Preserved(d, rows) ensures Survives(d, rows) {
        RoundTrip(d, rows);
      }
    } else if d == '"' {
      QuoteLoses();
    } else if d == '\r' {
      ReturnLoses();
    } else if d == '\n' {
      NewlineLoses();
    } else if d == '^' {
      CaretLoses();
    } else if d == '-' {
      assert Preserved(d, [["a"]]) && !Survives(d, [["a"]]);
    } else {
      UnseenLoses(d);
    }
  }

  // -------------------------------------------------- the parser as it is written

  /** A token and those behind it. */
  function With(t: Token, ts: seq<Token>): seq<Token> {
    if t == EndOfFile then [] else [t] + ts
  }

  ghost predicate StepsFrom(d: char, text: string, lex: Lexer, st: State) {
    var (t, st') := NextToken(d, text, st);
    lex(st) == With(t, lex(st'))
  }

  ghost predicate Steps(d: char, text: string, lex: Lexer) {
    forall st :: StepsFrom(d, text, lex, st)
  }

  lemma TokensStep(d: char, text: string)
    ensures Steps(d, text, st => Tokens(d, text, st))
  {
  }

  lemma RowTurn(a: Row, f: string, ts: seq<Token>)
    ensures a + FirstRow(With(Field(f), ts)) == (a + [f]) + FirstRow(ts)
    ensures AfterRow(With(Field(f), ts)) == AfterRow(ts)
  {
    FirstRowCons(f, ts, []);
  }

  lemma RowsTurn(rows: seq<Row>, ts: seq<Token>)
    requires ts != []
    ensures rows + RowsOf(ts) == (rows + [FirstRow(ts)]) + RowsOf(AfterRow(ts))
  {
  }

  lemma RowDone(t: Token, ts: seq<Token>)
    requires !t.Field? && (t == EndOfFile ==> ts == [])
    ensures FirstRow(With(t, ts)) == [] && AfterRow(With(t, ts)) == ts
  {
  }

  class Parser {
    const delimiter: char
    const text: string
    var lastIndex: nat
    var eol: bool

    constructor (delimiter: char, text: string)
      ensures this.delimiter == delimiter && this.text == text && lastIndex == 0 && !eol
    {
      this.delimiter, this.text, lastIndex, eol := delimiter, text, 0, false;
    }

    ghost function Place(): State
      reads this
    {
      State(lastIndex, eol)
    }

    /** The scan for the quote that ends a quoted value. */
    method ScanQuoted(j: nat) returns (i: nat)
      ensures i == CloseQuote(text, j)
    {
      i := j;
      var more := true;
      while more
        invariant i >= j
        invariant if more then CloseQuote(text, i) == CloseQuote(text, j) else i == CloseQuote(text, j)
        decreases more, |text| - i
      {
        more := i < |text|;
        i := i + 1;
        if more && At(text, i, '"') {
          if !At(text, i + 1, '"') {
            break;
          }
          i := i + 1;
        }
      }
    }

    method QuotedField() returns (t: Token)
      requires lastIndex < |text| && !eol
      modifies this
      ensures (t, Place()) == QuotedToken(text, old(lastIndex))
    {
      var j := lastIndex;
      var i := ScanQuoted(j);
      lastIndex := i + 2;
      if At(text, i + 1, '\r') {
        eol := true;
        if At(text, i + 2, '\n') {
          lastIndex := lastIndex + 1;
        }
      } else if At(text, i + 1, '\n') {
        eol := true;
      }
      t := Field(Unescape(Substring(text, j + 1, i)));
    }

    method PlainField() returns (t: Token)
      requires lastIndex < |text| && !eol
      modifies this
      ensures (t, Place()) == PlainToken(delimiter, text, old(lastIndex))
    {
      var j := lastIndex;
      var m := FindBreak(delimiter, text, j);
      if m < |text| {
        lastIndex := m + MatchLength(delimiter, text, m);
        eol := text[m] != delimiter;
        t := Field(text[j..m]);
      } else {
        lastIndex := |text|;
        t := Field(text[j..]);
      }
    }

    method ReadToken() returns (t: Token)
      modifies this
      ensures (t, Place()) == NextToken(delimiter, text, old(Place()))
    {
      if lastIndex >= |text| {
        t := EndOfFile;
      } else if eol {
        eol := false;
        t := EndOfLine;
      } else if text[lastIndex] == '"' {
        t := QuotedField();
      } else {
        t := PlainField();
      }
    }

    /** One token, in terms of all that are left; the end of the text is not passed. */
    method Advance(ghost lex: Lexer) returns (t: Token)
      requires Steps(delimiter, text, lex)
      modifies this
      ensures lex(old(Place())) == With(t, lex(Place()))
      ensures t == EndOfFile ==> lex(Place()) == []
    {
      assert StepsFrom(delimiter, text, lex, Place());
      t := ReadToken();
    }

    method ReadRow(ghost lex: Lexer, first: Token) returns (a: Row)
      requires Steps(delimiter, text, lex) && first != EndOfFile
      modifies this
      ensures a == FirstRow(With(first, lex(old(Place()))))
      ensures lex(Place()) == AfterRow(With(first, lex(old(Place()))))
    {
      var t := first;
      ghost var ts := With(t, lex(Place()));
      ghost var row, after := FirstRow(ts), AfterRow(ts);
      a := [];
      while t.Field?
        invariant t == EndOfFile ==> lex(Place()) == []
        invariant ts == With(t, lex(Place()))
        invariant a + FirstRow(ts) == row && AfterRow(ts) == after
        decreases |ts|
      {
        RowTurn(a, t.text, lex(Place()));
        a := a + [t.text];
        ts := lex(Place());
        t := Advance(lex);
      }
      RowDone(t, lex(Place()));
    }

    method ReadRest(ghost lex: Lexer) returns (rows: seq<Row>)
      requires Steps(delimiter, text, lex)
      modifies this
      ensures rows == RowsOf(lex(old(Place())))
    {
      ghost var ts := lex(Place());
      ghost var all := RowsOf(ts);
      rows := [];
      var t := Advance(lex);
      while t != EndOfFile
        invariant ts == With(t, lex(Place())) && rows + RowsOf(ts) == all
        decreases |ts|
      {
        RowsTurn(rows, ts);
        var a := ReadRow(lex, t);
        ts := lex(Place());
        rows := rows + [a];
        t := Advance(lex);
      }
    }

    method ReadRows() returns (rows: seq<Row>)
      modifies this
      ensures rows == ParseRows(delimiter, text)
    {
      lastIndex, eol := 0, false;
      TokensStep(delimiter, text);
      rows := ReadRest(st => Tokens(delimiter, text, st));
    }
  }
}
