/** The line-by-line syntax highlighter of the animated code block
    (`highlightSyntax`): the text is cut into lines, and each line is consumed
    left to right by a prioritised list of token recognisers, falling back to
    a single character. Each recogniser stands for one anchored regular
    expression of the component; the JavaScript character classes it uses
    (`\w`, `\d`, `\s`, `.`) are written out as predicates. */
module SyntaxHighlight {
  import opened Wrappers
  import opened Lines
  import opened Numerals

  // ---------------------------------------------------------------------
  // Character classes

  /** `\w`: an ASCII letter, digit or underscore. */
  predicate IsWordChar(c: char)
  {
    ('a' <= c <= 'z') || ('A' <= c <= 'Z') || ('0' <= c <= '9') || c == '_'
  }

  /** `[a-zA-Z_]`, the first character of a called name. */
  predicate IsIdentStart(c: char)
  {
    ('a' <= c <= 'z') || ('A' <= c <= 'Z') || c == '_'
  }

  /** `\s`: JavaScript white space and line terminators. */
  predicate IsSpace(c: char)
  {
    c == '\t' || c == '\n' || c == '\U{000B}' || c == '\U{000C}' || c == '\r' || c == ' '
    || c == '\U{00A0}' || c == '\U{1680}' || ('\U{2000}' <= c <= '\U{200A}')
    || c == '\U{2028}' || c == '\U{2029}' || c == '\U{202F}' || c == '\U{205F}'
    || c == '\U{3000}' || c == '\U{FEFF}'
  }

  /** The characters that `.` does not match. */
  predicate IsLineTerminator(c: char)
  {
    c == '\n' || c == '\r' || c == '\U{2028}' || c == '\U{2029}'
  }

  /** `["'`]`, the delimiters of a string literal. */
  predicate IsQuote(c: char) { c == '"' || c == '\'' || c == '`' }

  /** `[{}[\]()]`. */
  predicate IsBracket(c: char) { c in "{}[]()" }

  // The single-character operators, the class `[+\-*/%=<>!?:]`.
  const SingleOperators: string := "+-*/%=<>!?:"

  /** The multi-character operators, in the order the alternation tries them. */
  const MultiOperators: seq<string> := ["=>", "===", "!==", "==", "!=", "<=", ">=", "&&", "||"]

  /** The keyword alternation, in its order. */
  const Keywords: seq<string> := ["import", "export", "const", "let", "var", "function", "async",
    "await", "return", "if", "else", "throw", "new", "from", "interface", "type", "forEach", "map"]

  /** The type-name alternation, in its order. */
  const TypeNames: seq<string> := ["string", "number", "boolean", "void", "any", "Promise", "Error",
    "Date", "Record", "Trigger", "Agent", "Pipeline", "WorkflowConfig", "PipelineResult",
    "GeminiClient", "SupabaseClient"]

  predicate IsWord(w: string)
  {
    |w| > 0 && forall i :: 0 <= i < |w| ==> IsWordChar(w[i])
  }

  /** `w\b` at the start of `s`, for a word `w`: `w` is a prefix and is not
      followed by another word character. */
  predicate WordAt(s: string, w: string)
  {
    StartsWith(s, w) && (|w| == |s| || !IsWordChar(s[|w|]))
  }

  // ---------------------------------------------------------------------
  // Recognisers, one per anchored regular expression

  /** The end of the longest run of characters satisfying `p` from `i`. */
  function Span(s: string, i: nat, p: char -> bool): (j: nat)
    requires i <= |s|
    ensures i <= j <= |s|
    ensures forall k :: i <= k < j ==> p(s[k])
    ensures j == |s| || !p(s[j])
    decreases |s| - i
  {
    if i == |s| || !p(s[i]) then i else Span(s, i + 1, p)
  }

  /** The body of a string literal opened by quote `q`, from index `i`: the
      repetition `(?:(?!\1)[^\\]|\\.)*` followed by the closing `\1`. Each
      step takes either one character that is neither `q` nor a backslash, or
      a backslash and one character that is not a line terminator; the result
      is the index just past the closing quote. */
  function QuotedEnd(s: string, q: char, i: nat): (r: Option<nat>)
    requires i <= |s|
    requires q != '\\'
    ensures r.Some? ==> i < r.value <= |s| && s[r.value - 1] == q
    decreases |s| - i
  {
    if i == |s| then None
    else if s[i] == q then Some(i + 1)
    else if s[i] == '\\' then
      if i + 1 < |s| && !IsLineTerminator(s[i + 1]) then QuotedEnd(s, q, i + 2) else None
    else QuotedEnd(s, q, i + 1)
  }

  /** `^(["'`])(?:(?!\1)[^\\]|\\.)*\1`: the length of a string literal at the
      start of `s`, which ends with the quote it opened with. */
  function StringLiteral(s: string): (n: Option<nat>)
    ensures n.Some? ==> 2 <= n.value <= |s| && IsQuote(s[0]) && s[n.value - 1] == s[0]
  {
    if |s| >= 1 && IsQuote(s[0]) then QuotedEnd(s, s[0], 1) else None
  }

  /** The repetition `(?:(?!\1)[^\\]|\\.)*` inside a literal opened by `q`,
      as a grammar: a run of units, each either one character that is
      neither `q` nor a backslash, or a backslash and one character that is
      not a line terminator (an escaped quote included). */
  predicate LiteralBody(b: string, q: char)
    decreases |b|
  {
    || b == []
    || (b[0] != q && b[0] != '\\' && LiteralBody(b[1..], q))
    || (|b| >= 2 && b[0] == '\\' && !IsLineTerminator(b[1]) && LiteralBody(b[2..], q))
  }

  /** `s[..n]` is a match of the string pattern: an opening quote, a body,
      and the same quote again. */
  predicate IsStringLiteral(s: string, n: nat)
  {
    2 <= n <= |s| && IsQuote(s[0]) && s[n - 1] == s[0] && LiteralBody(s[1..n - 1], s[0])
  }

  /** The scan finds a match exactly when the pattern has one, and then the
      same one: there is no other length at which the pattern matches. */
  lemma StringLiteralMatch(s: string, n: nat)
    ensures StringLiteral(s) == Some(n) <==> IsStringLiteral(s, n)
  {
    if StringLiteral(s) == Some(n) {
      QuotedEndSound(s, s[0], 1);
    }
    if IsStringLiteral(s, n) {
      QuotedEndComplete(s, s[0], 1, n - 1);
    }
  }

  /** What the scan skips is a literal body. */
  lemma {:induction false} QuotedEndSound(s: string, q: char, i: nat)
    requires i <= |s| && q != '\\' && QuotedEnd(s, q, i).Some?
    ensures LiteralBody(s[i..QuotedEnd(s, q, i).value - 1], q)
    decreases |s| - i
  {
    var j := QuotedEnd(s, q, i).value;
    if s[i] == q {
      assert s[i..j - 1] == [];
    } else if s[i] == '\\' {
      QuotedEndSound(s, q, i + 2);
      assert s[i..j - 1][2..] == s[i + 2..j - 1];
    } else {
      QuotedEndSound(s, q, i + 1);
      assert s[i..j - 1][1..] == s[i + 1..j - 1];
    }
  }

  /** A literal body followed by the quote is where the scan stops. */
  lemma {:induction false} QuotedEndComplete(s: string, q: char, i: nat, k: nat)
    requires q != '\\' && i <= k < |s| && s[k] == q && LiteralBody(s[i..k], q)
    ensures QuotedEnd(s, q, i) == Some(k + 1)
    decreases k - i
  {
    if i < k {
      var b := s[i..k];
      if b[0] != q && b[0] != '\\' {
        assert b[1..] == s[i + 1..k];
        QuotedEndComplete(s, q, i + 1, k);
      } else {
        assert b[2..] == s[i + 2..k];
        QuotedEndComplete(s, q, i + 2, k);
      }
    }
  }

  /** An escaped quote does not close the literal: `"\""` is one literal of
      four characters. */
  lemma EscapedQuoteLiteral(q: char, rest: string)
    requires IsQuote(q)
    ensures StringLiteral([q, '\\', q, q] + rest) == Some(4)
  {
    var s := [q, '\\', q, q] + rest;
    assert s[1..3] == ['\\', q] && s[1..3][2..] == [];
    QuotedEndComplete(s, q, 1, 3);
  }

  /** A backslash at the end of the line escapes nothing, so the literal is
      not closed. */
  lemma DanglingEscapeLiteral(q: char)
    requires IsQuote(q)
    ensures StringLiteral([q, '\\']) == None
    ensures StringLiteral([q, '\\', q]) == None
  {
  }

  /** `^\$\{[^}]+\}`: the length of a template expression at the start of `s`,
      which runs to the first closing brace and holds at least one character. */
  function TemplateExpr(s: string): (n: Option<nat>)
    ensures n.Some? ==> 4 <= n.value <= |s| && StartsWith(s, "${") && s[n.value - 1] == '}'
                        && forall k :: 2 <= k < n.value - 1 ==> s[k] != '}'
    ensures n.None? ==> !(StartsWith(s, "${") && 3 <= |s| && s[2] != '}' && '}' in s[2..])
  {
    if |s| >= 2 && s[0] == '$' && s[1] == '{' then
      var j := Span(s, 2, c => c != '}');
      if 2 < j < |s| then Some(j + 1) else None
    else None
  }

  /** The ordered alternation `^(a0|a1|...)` (with a trailing `\b` when
      `boundary` holds): the index of the first alternative that matches at
      the start of `s`, or `|alts|` when none does. */
  function FirstAlternative(s: string, alts: seq<string>, boundary: bool, from: nat): (i: nat)
    requires from <= |alts|
    ensures from <= i <= |alts|
    ensures i < |alts| ==> Accepts(s, alts[i], boundary)
    ensures forall j :: from <= j < i ==> !Accepts(s, alts[j], boundary)
    decreases |alts| - from
  {
    if from == |alts| || Accepts(s, alts[from], boundary) then from
    else FirstAlternative(s, alts, boundary, from + 1)
  }

  predicate Accepts(s: string, a: string, boundary: bool)
  {
    if boundary then WordAt(s, a) else StartsWith(s, a)
  }

  /** A word alternation followed by `\b`: the matched word, if any. */
  function MatchWord(s: string, words: seq<string>): (r: Option<string>)
    ensures r.Some? ==> r.value in words && WordAt(s, r.value)
    ensures r.None? ==> forall w :: w in words ==> !WordAt(s, w)
  {
    var i := FirstAlternative(s, words, true, 0);
    if i < |words| then Some(words[i]) else None
  }

  // `^(=>|===|!==|==|!=|<=|>=|&&|\|\||[+\-*/%=<>!?:])`: the length of the
  // operator at the start of `s`, 0 when there is none.
  function OperatorLength(s: string): (n: nat)
    ensures n <= |s|
    ensures n > 0 ==> IsOperator(s[..n])
    ensures n == 0 ==> forall op :: IsOperator(op) ==> !StartsWith(s, op)
  {
    var i := FirstAlternative(s, MultiOperators, false, 0);
    if i < |MultiOperators| then |MultiOperators[i]|
    else if |s| >= 1 && s[0] in SingleOperators then 1
    else 0
  }

  predicate IsOperator(op: string)
  {
    op in MultiOperators || (|op| == 1 && op[0] in SingleOperators)
  }

  /** From index `n`, optional white space and then an opening parenthesis:
      the lookahead `\s*(?=\()`. */
  predicate OpensCall(s: string, n: nat)
  {
    exists j :: n <= j < |s| && s[j] == '(' && forall k :: n <= k < j ==> IsSpace(s[k])
  }

  /** `s[..m]` matches `[a-zA-Z_]\w*`. */
  predicate NamePrefix(s: string, m: nat)
  {
    1 <= m <= |s| && IsIdentStart(s[0]) && forall k :: 1 <= k < m ==> IsWordChar(s[k])
  }

  /** `^([a-zA-Z_]\w*)\s*(?=\()`: the length of the called name at the start
      of `s` (group 1 only), 0 when the pattern does not match. The name is
      the whole identifier: the regular expression cannot stop inside one. */
  function CallName(s: string): (n: nat)
    ensures n <= |s|
    ensures n > 0 ==> NamePrefix(s, n) && n < |s| && !IsWordChar(s[n]) && OpensCall(s, n)
    ensures n == 0 ==> forall m :: NamePrefix(s, m) ==> !OpensCall(s, m)
  {
    if |s| >= 1 && IsIdentStart(s[0]) then
      var m := Span(s, 1, IsWordChar);
      var j := Span(s, m, IsSpace);
      if j < |s| && s[j] == '(' then
        m
      else
        NoCallAfterName(s, m, j);
        0
    else 0
  }

  lemma NoCallAfterName(s: string, m: nat, j: nat)
    requires |s| >= 1 && IsIdentStart(s[0])
    requires m == Span(s, 1, IsWordChar) && j == Span(s, m, IsSpace)
    requires !(j < |s| && s[j] == '(')
    ensures forall m' :: NamePrefix(s, m') ==> !OpensCall(s, m')
  {
    forall m': nat | NamePrefix(s, m') && OpensCall(s, m')
      ensures false
    {
      var j' :| m' <= j' < |s| && s[j'] == '(' && forall k :: m' <= k < j' ==> IsSpace(s[k]);
    }
  }

  // ---------------------------------------------------------------------
  // Tokens

  datatype Kind = Comment | Str | Template | Keyword | TypeName | Number | Operator | Bracket | Call | Plain

  /** A highlighted span: its colour class and the text it shows. */
  datatype Token = Token(kind: Kind, text: string)

  /** The first token of a non-empty line remainder, by the component's
      priority: comment, string, template expression, keyword, type name,
      number, operator, bracket, called name, single character. */
  function NextToken(s: string): (t: Token)
    requires s != []
    ensures 0 < |t.text| <= |s| && t.text == s[..|t.text|]
    ensures t.kind == Comment <==> StartsWith(s, "//")
    ensures t.kind == Comment ==> t.text == s
  {
    if StartsWith(s, "//") then Token(Comment, s)
    else if StringLiteral(s).Some? then Token(Str, s[..StringLiteral(s).value])
    else if TemplateExpr(s).Some? then Token(Template, s[..TemplateExpr(s).value])
    else if MatchWord(s, Keywords).Some? then WordToken(s, Keyword, MatchWord(s, Keywords).value)
    else if MatchWord(s, TypeNames).Some? then WordToken(s, TypeName, MatchWord(s, TypeNames).value)
    else SymbolToken(s)
  }

  /** The token for a word `w` matched with its trailing `\b`. */
  function WordToken(s: string, kind: Kind, w: string): (t: Token)
    requires w != [] && WordAt(s, w)
    ensures t == Token(kind, w) && 0 < |t.text| <= |s| && t.text == s[..|t.text|]
  {
    Token(kind, w)
  }

  /** The recognisers after the word lists: number, operator, bracket,
      called name, single character. */
  function SymbolToken(s: string): (t: Token)
    requires s != []
    ensures 0 < |t.text| <= |s| && t.text == s[..|t.text|]
    ensures t.kind != Comment
    ensures t.kind in {Number, Operator, Bracket, Call, Plain}
    ensures t.kind == Number <==> IsDigit(s[0])
    ensures t.kind == Number ==>
              (forall k :: 0 <= k < |t.text| ==> IsDigit(t.text[k])) && (|t.text| == |s| || !IsDigit(s[|t.text|]))
    ensures t.kind == Operator ==>
              IsOperator(t.text) && forall op :: IsOperator(op) && StartsWith(s, op) ==> |op| <= |t.text|
    ensures t.kind in {Bracket, Call, Plain} ==> forall op :: IsOperator(op) ==> !StartsWith(s, op)
    ensures t.kind == Bracket <==> t.kind in {Bracket, Call, Plain} && IsBracket(s[0])
    ensures t.kind == Bracket ==> |t.text| == 1
    ensures t.kind == Call ==>
              NamePrefix(s, |t.text|) && |t.text| < |s| && !IsWordChar(s[|t.text|]) && OpensCall(s, |t.text|)
    ensures t.kind == Plain ==> |t.text| == 1 && forall m :: NamePrefix(s, m) ==> !OpensCall(s, m)
  {
    var digits := Span(s, 0, IsDigit);
    if digits > 0 then Token(Number, s[..digits])
    else
      var operator := OperatorLength(s);
      if operator > 0 then
        OperatorLongest(s);
        Token(Operator, s[..operator])
      else if IsBracket(s[0]) then Token(Bracket, s[..1])
      else
        var name := CallName(s);
        if name > 0 then Token(Call, s[..name]) else Token(Plain, s[..1])
  }

  /** The tokens of one line: a comment ends the line, any other token is
      followed by the tokens of what it leaves. */
  function LineTokens(s: string): seq<Token>
    decreases |s|
  {
    if s == [] then []
    else
      var t := NextToken(s);
      if t.kind == Comment then [t] else [t] + LineTokens(s[|t.text|..])
  }

  /** The text a sequence of tokens shows. */
  function Concat(ts: seq<Token>): string
  {
    if ts == [] then [] else ts[0].text + Concat(ts[1..])
  }

  /** `highlightSyntax(code)`: one row of tokens per line of `code`. A row
      with no tokens is drawn as a single non-breaking space. */
  function Highlight(code: string): (rows: seq<seq<Token>>)
    ensures |rows| == Lines.Count(code, '\n') + 1
    ensures Lines.Join(RowTexts(rows), '\n') == code
    ensures |rows| == |Lines.Split(code, '\n')|
    ensures forall i :: 0 <= i < |rows| ==> rows[i] == LineTokens(Lines.Split(code, '\n')[i])
  {
    var lines := Lines.Split(code, '\n');
    Lines.SplitCount(code, '\n');
    var rows := seq(|lines|, i requires 0 <= i < |lines| => LineTokens(lines[i]));
    RowTextsAreLines(lines, rows);
    Lines.JoinSplit(code, '\n');
    rows
  }

  function RowTexts(rows: seq<seq<Token>>): seq<string>
  {
    seq(|rows|, i requires 0 <= i < |rows| => Concat(rows[i]))
  }

  lemma RowTextsAreLines(lines: seq<string>, rows: seq<seq<Token>>)
    requires |rows| == |lines| && forall i :: 0 <= i < |lines| ==> rows[i] == LineTokens(lines[i])
    ensures RowTexts(rows) == lines
  {
    forall i | 0 <= i < |lines| ensures Concat(rows[i]) == lines[i] {
      Coverage(lines[i]);
    }
  }

  // ---------------------------------------------------------------------
  // The imperative tokenizer loop

  /** The `while (remaining.length > 0)` loop of `highlightSyntax` for one
      line: each round pushes one token and drops the text it shows from
      `remaining`; a comment takes the rest of the line and stops the loop.
      `charIndex` is the offset used in the element keys. */
  method TokenizeLine(line: string) returns (parts: seq<Token>)
    ensures parts == LineTokens(line)
  {
    parts := [];
    var remaining := line;
    var charIndex := 0;
    while |remaining| > 0
      invariant charIndex + |remaining| == |line|
      invariant parts + LineTokens(remaining) == LineTokens(line)
      decreases |remaining|
    {
      var token := Recognise(remaining);
      TokensAfter(remaining, token);
      parts := parts + [token];
      if token.kind == Comment {
        break;
      }
      remaining, charIndex := remaining[|token.text|..], charIndex + |token.text|;
    }
  }

  /** The body of one round: the recognisers tried in order, as the chain of
      `if (match) { push; continue; }` blocks, returning the token the round
      pushes. */
  method Recognise(remaining: string) returns (token: Token)
    requires remaining != []
    ensures token == NextToken(remaining)
  {
    if StartsWith(remaining, "//") {
      return Token(Comment, remaining);
    }
    var stringMatch := StringLiteral(remaining);
    if stringMatch.Some? {
      return Token(Str, remaining[..stringMatch.value]);
    }
    var templateMatch := TemplateExpr(remaining);
    if templateMatch.Some? {
      return Token(Template, remaining[..templateMatch.value]);
    }
    var keywordMatch := MatchWord(remaining, Keywords);
    if keywordMatch.Some? {
      return Token(Keyword, keywordMatch.value);
    }
    var typeMatch := MatchWord(remaining, TypeNames);
    if typeMatch.Some? {
      return Token(TypeName, typeMatch.value);
    }
    var numberLength := Span(remaining, 0, IsDigit);
    if numberLength > 0 {
      return Token(Number, remaining[..numberLength]);
    }
    var operatorLength := OperatorLength(remaining);
    if operatorLength > 0 {
      return Token(Operator, remaining[..operatorLength]);
    }
    if IsBracket(remaining[0]) {
      return Token(Bracket, remaining[..1]);
    }
    var nameLength := CallName(remaining);
    if nameLength > 0 {
      return Token(Call, remaining[..nameLength]);
    }
    return Token(Plain, remaining[..1]);
  }

  /** What the tokenizer does after recognising the first token `t`. */
  lemma TokensAfter(s: string, t: Token)
    requires s != [] && t == NextToken(s)
    ensures 0 < |t.text| <= |s|
    ensures LineTokens(s) == if t.kind == Comment then [t] else [t] + LineTokens(s[|t.text|..])
  {
  }

  // ---------------------------------------------------------------------
  // Properties

  /** `ts` cuts `s` into consecutive non-empty pieces, a comment piece
      being the last one and running to the end. This is all the structural
      lemmas below need to know about the recognisers. */
  predicate WellSplit(s: string, ts: seq<Token>)
    decreases |ts|
  {
    if ts == [] then s == []
    else
      var t := ts[0];
      && 0 < |t.text| <= |s| && t.text == s[..|t.text|]
      && if t.kind == Comment then t.text == s && |ts| == 1
         else WellSplit(s[|t.text|..], ts[1..])
  }

  lemma {:induction false} LineTokensWellSplit(s: string)
    ensures WellSplit(s, LineTokens(s))
    decreases |s|
  {
    if s != [] {
      var t := NextToken(s);
      if t.kind != Comment {
        LineTokensWellSplit(s[|t.text|..]);
      }
    }
  }

  /** One step of the tokenizer, stated without the recognisers. */
  lemma LineTokensStep(s: string)
    requires s != []
    ensures var ts := LineTokens(s);
            && |ts| >= 1 && 0 < |ts[0].text| <= |s| && ts[0].text == s[..|ts[0].text|]
            && (ts[0].kind == Comment ==> ts == [ts[0]] && ts[0].text == s)
            && (ts[0].kind != Comment ==> ts == [ts[0]] + LineTokens(s[|ts[0].text|..]))
  {
  }

  lemma {:induction false} SplitCovers(s: string, ts: seq<Token>)
    requires WellSplit(s, ts)
    ensures Concat(ts) == s
  {
    if ts != [] {
      var t := ts[0];
      if t.kind == Comment {
        assert Concat(ts) == t.text + Concat([]);
      } else {
        SplitCovers(s[|t.text|..], ts[1..]);
        assert t.text + s[|t.text|..] == s;
      }
    }
  }

  lemma {:induction false} SplitPiecesNonEmpty(s: string, ts: seq<Token>)
    requires WellSplit(s, ts)
    ensures ts == [] <==> s == []
    ensures forall i :: 0 <= i < |ts| ==> |ts[i].text| > 0
  {
    if ts != [] && ts[0].kind != Comment {
      SplitPiecesNonEmpty(s[|ts[0].text|..], ts[1..]);
      forall i | 1 <= i < |ts| ensures |ts[i].text| > 0 {
        assert ts[i] == ts[1..][i - 1];
      }
    }
  }

  lemma {:induction false} SplitCommentLast(s: string, ts: seq<Token>, i: nat)
    requires WellSplit(s, ts) && i < |ts| && ts[i].kind == Comment
    ensures i == |ts| - 1
  {
    if i > 0 {
      assert ts[i] == ts[1..][i - 1];
      SplitCommentLast(s[|ts[0].text|..], ts[1..], i - 1);
    }
  }

  /** The tokens of a line show exactly that line. */
  lemma Coverage(s: string)
    ensures Concat(LineTokens(s)) == s
  {
    LineTokensWellSplit(s);
    SplitCovers(s, LineTokens(s));
  }

  /** No token is empty, and only an empty line has no tokens (and so shows
      the placeholder). */
  lemma TokensNonEmpty(s: string)
    ensures LineTokens(s) == [] <==> s == []
    ensures forall i :: 0 <= i < |LineTokens(s)| ==> |LineTokens(s)[i].text| > 0
  {
    LineTokensWellSplit(s);
    SplitPiecesNonEmpty(s, LineTokens(s));
  }

  /** Only the last token of a line can be a comment. */
  lemma CommentIsLast(s: string, i: nat)
    requires i < |LineTokens(s)| && LineTokens(s)[i].kind == Comment
    ensures i == |LineTokens(s)| - 1
  {
    LineTokensWellSplit(s);
    SplitCommentLast(s, LineTokens(s), i);
  }

  /** Tokenizing resumes cleanly at every token boundary: the tokens after
      the first `j` are the tokens of the text those `j` leave. */
  lemma {:induction false} TokensFromBoundary(s: string, j: nat)
    requires j <= |LineTokens(s)|
    ensures |Concat(LineTokens(s)[..j])| <= |s|
    ensures LineTokens(s)[j..] == LineTokens(s[|Concat(LineTokens(s)[..j])|..])
    decreases |s|
  {
    var ts := LineTokens(s);
    if j == 0 {
      assert ts[..0] == [];
      assert s[0..] == s;
    } else {
      LineTokensStep(s);
      var t := ts[0];
      if t.kind == Comment {
        LastPrefix(s, ts, j);
      } else {
        var rest := s[|t.text|..];
        TokensFromBoundary(rest, j - 1);
        PrefixStep(s, t, LineTokens(rest), j);
      }
    }
  }

  /** The sequence algebra of one step of `TokensFromBoundary`: a first
      token `t` in front of the tokens `r` of the rest. */
  lemma PrefixStep(s: string, t: Token, r: seq<Token>, j: nat)
    requires 0 < |t.text| <= |s| && t.text == s[..|t.text|]
    requires 1 <= j <= |r| + 1
    requires |Concat(r[..j - 1])| <= |s| - |t.text|
    ensures |Concat(([t] + r)[..j])| <= |s|
    ensures ([t] + r)[j..] == r[j - 1..]
    ensures s[|Concat(([t] + r)[..j])|..] == s[|t.text|..][|Concat(r[..j - 1])|..]
  {
    var pre := r[..j - 1];
    assert ([t] + r)[..j] == [t] + pre;
    assert Concat([t] + pre) == t.text + Concat(pre) by {
      assert ([t] + pre)[1..] == pre;
    }
  }

  /** A lone comment token covers the whole text and leaves nothing. */
  lemma LastPrefix(s: string, ts: seq<Token>, j: nat)
    requires |ts| == 1 && ts[0].text == s && 1 <= j <= |ts|
    ensures |Concat(ts[..j])| <= |s| && ts[j..] == [] && s[|Concat(ts[..j])|..] == []
  {
    assert ts[..j] == ts;
    assert Concat(ts) == ts[0].text + Concat([]);
  }

  /** Where the token numbered `j` starts in the line. */
  function Offset(s: string, j: nat): (k: nat)
    requires j <= |LineTokens(s)|
    ensures k <= |s|
    ensures LineTokens(s)[j..] == LineTokens(s[k..])
  {
    TokensFromBoundary(s, j);
    |Concat(LineTokens(s)[..j])|
  }

  /** A `//` at a token boundary starts one comment token that covers the
      rest of the line and is the last token. */
  lemma CommentAtBoundary(s: string, j: nat)
    requires j < |LineTokens(s)|
    requires StartsWith(s[Offset(s, j)..], "//")
    ensures LineTokens(s)[j] == Token(Comment, s[Offset(s, j)..])
    ensures j == |LineTokens(s)| - 1
  {
    var rest := s[Offset(s, j)..];
    assert LineTokens(s)[j] == LineTokens(rest)[0];
    CommentIsLast(s, j);
  }

  /** A string literal is recognised before keywords, type names and
      operators: the whole literal is one token, whatever it contains. */
  lemma StringBeforeKeyword(s: string)
    requires StringLiteral(s).Some?
    ensures LineTokens(s)[0] == Token(Str, s[..StringLiteral(s).value])
  {
  }

  /** A template expression at a token boundary is one template token
      running to the first closing brace: a `$` starts neither a comment nor
      a string literal, the only recognisers tried before it. */
  lemma TemplateRecognised(s: string)
    requires TemplateExpr(s).Some?
    ensures LineTokens(s)[0] == Token(Template, s[..TemplateExpr(s).value])
  {
    assert s[0] == s[..2][0] == '$';
    assert !StartsWith(s, "//") && StringLiteral(s).None?;
    FirstTokenIsNext(s);
  }

  /** A keyword token is one of the keywords, followed by a non-word
      character or the end of the line. */
  lemma KeywordHasBoundary(s: string)
    requires s != [] && NextToken(s).kind == Keyword
    ensures NextToken(s).text in Keywords
    ensures |NextToken(s).text| == |s| || !IsWordChar(s[|NextToken(s).text|])
  {
    KeywordTokenMatch(s);
  }

  /** Only the keyword recogniser produces keyword tokens. */
  lemma KeywordTokenMatch(s: string)
    requires s != []
    ensures NextToken(s).kind == Keyword ==> MatchWord(s, Keywords) == Some(NextToken(s).text)
  {
    if StartsWith(s, "//") {
    } else if StringLiteral(s).Some? {
    } else if TemplateExpr(s).Some? {
    } else if MatchWord(s, Keywords).Some? {
    } else {
      assert NextToken(s).kind != Keyword;
    }
  }

  /** Two words that both match with a trailing `\b` are the same word, so
      the order of a word alternation does not decide what it matches. */
  lemma WordAtUnique(s: string, a: string, b: string)
    requires IsWord(a) && IsWord(b) && WordAt(s, a) && WordAt(s, b)
    ensures a == b
  {
    assert |a| == |b|;
    assert a == s[..|a|] == b;
  }

  /** Conversely, a keyword followed by a non-word character (or the end of
      the line) is always highlighted as that keyword. */
  lemma KeywordRecognised(s: string, k: string)
    requires k in Keywords && WordAt(s, k)
    ensures LineTokens(s)[0] == Token(Keyword, k)
  {
    KeywordsAreWords();
    WordStartsName(s, k);
    UniqueWordMatch(s, Keywords, k);
    FirstTokenIsNext(s);
  }

  /** A word alternation whose members are all words matches the one word
      that is present with a trailing boundary. */
  lemma UniqueWordMatch(s: string, words: seq<string>, k: string)
    requires forall w :: w in words ==> IsWord(w)
    requires k in words && WordAt(s, k)
    ensures MatchWord(s, words) == Some(k)
  {
    var m := MatchWord(s, words);
    WordAtUnique(s, m.value, k);
  }

  /** Text that starts like a name is neither a comment, a string literal nor
      a template expression. */
  lemma WordStartsName(s: string, k: string)
    requires IsWord(k) && IsIdentStart(k[0]) && StartsWith(s, k)
    ensures s[0] == k[0] && !StartsWith(s, "//") && StringLiteral(s).None? && TemplateExpr(s).None?
  {
    assert s[0] == s[..|k|][0];
  }

  lemma FirstTokenIsNext(s: string)
    requires s != []
    ensures LineTokens(s)[0] == NextToken(s)
  {
  }

  lemma KeywordsAreWords()
    ensures forall k :: k in Keywords ==> IsWord(k) && IsIdentStart(k[0])
  {
    KeywordsPart1();
    KeywordsPart2();
    KeywordsPart3();
  }

  // The word lists are checked a few entries at a time.

  lemma KeywordsPart1()
    ensures forall i :: 0 <= i < 6 ==> IsWord(Keywords[i]) && IsIdentStart(Keywords[i][0])
  {
  }

  lemma KeywordsPart2()
    ensures forall i :: 6 <= i < 12 ==> IsWord(Keywords[i]) && IsIdentStart(Keywords[i][0])
  {
  }

  lemma KeywordsPart3()
    ensures forall i :: 12 <= i < 18 ==> IsWord(Keywords[i]) && IsIdentStart(Keywords[i][0])
  {
  }

  lemma TypeNamesPart1()
    ensures forall i :: 0 <= i < 4 ==> IsWord(TypeNames[i]) && IsIdentStart(TypeNames[i][0])
  {
  }

  lemma TypeNamesPart2()
    ensures forall i :: 4 <= i < 8 ==> IsWord(TypeNames[i]) && IsIdentStart(TypeNames[i][0])
  {
  }

  lemma TypeNamesPart3()
    ensures forall i :: 8 <= i < 12 ==> IsWord(TypeNames[i]) && IsIdentStart(TypeNames[i][0])
  {
  }

  lemma TypeNamesPart4()
    ensures forall i :: 12 <= i < 14 ==> IsWord(TypeNames[i]) && IsIdentStart(TypeNames[i][0])
  {
  }

  lemma TypeNamesPart5()
    ensures forall i :: 14 <= i < 16 ==> IsWord(TypeNames[i]) && IsIdentStart(TypeNames[i][0])
  {
  }

  /** The operator recogniser takes the longest operator at the start of the
      text: `===` is one token, never `==` then `=`. */
  lemma OperatorLongestMatch(s: string, op: string)
    requires IsOperator(op) && StartsWith(s, op)
    ensures |op| <= OperatorLength(s)
  {
    var i := FirstAlternative(s, MultiOperators, false, 0);
    if op in MultiOperators {
      var j :| 0 <= j < |MultiOperators| && MultiOperators[j] == op;
      assert Accepts(s, MultiOperators[j], false);
      assert i <= j;
      if |op| == 3 {
        assert s[1] == op[1] == '=' by { assert s[..3] == op; }
        assert !StartsWith(s, "=>") by { assert s[..2][1] == '='; }
        if op == "!==" {
          assert !StartsWith(s, "===") by { assert s[..3][0] == '!'; }
        }
        assert i == j;
      }
    }
  }

  lemma OperatorLongest(s: string)
    ensures forall op :: IsOperator(op) && StartsWith(s, op) ==> |op| <= OperatorLength(s)
  {
    forall op | IsOperator(op) && StartsWith(s, op) ensures |op| <= OperatorLength(s) {
      OperatorLongestMatch(s, op);
    }
  }

  /** `===` at a token boundary is one operator token. */
  lemma StrictEqualityIsOneToken(s: string)
    requires StartsWith(s, "===")
    ensures LineTokens(s)[0] == Token(Operator, "===")
  {
    assert IsOperator("===");
    OperatorLongestMatch(s, "===");
    OperatorStartsNoName(s);
    FirstTokenIsNext(s);
  }

  /** Text that starts with an operator character is not a comment unless it
      starts with `//`, and is never a string literal, template expression,
      keyword, type name or number. */
  lemma OperatorStartsNoName(s: string)
    requires s != [] && s[0] in "=!<>&|+-*%?:"
    ensures !StartsWith(s, "//") && StringLiteral(s).None? && TemplateExpr(s).None?
    ensures MatchWord(s, Keywords).None? && MatchWord(s, TypeNames).None? && Span(s, 0, IsDigit) == 0
  {
    var c := s[0];
    assert !IsIdentStart(c) && !IsQuote(c) && !IsDigit(c) && c != '/' && c != '$';
    NoLiteralAt(s);
    NoKeywordOrTypeName(s);
  }

  /** Text whose first character is no slash, quote or dollar sign starts
      no comment, string literal or template expression. */
  lemma NoLiteralAt(s: string)
    requires s != [] && s[0] != '/' && !IsQuote(s[0]) && s[0] != '$'
    ensures !StartsWith(s, "//") && StringLiteral(s).None? && TemplateExpr(s).None?
  {
  }

  /** A digit at a token boundary starts a number token that takes the
      whole run of digits. */
  lemma NumberRecognised(s: string)
    requires s != [] && IsDigit(s[0])
    ensures var t := LineTokens(s)[0];
            && t.kind == Number && t.text == s[..|t.text|]
            && (forall k :: 0 <= k < |t.text| ==> IsDigit(t.text[k]))
            && (|t.text| == |s| || !IsDigit(s[|t.text|]))
  {
    NoLiteralAt(s);
    NoKeywordOrTypeName(s);
    FirstTokenIsNext(s);
  }

  /** A name that is neither a keyword nor a type name, followed by
      optional white space and `(`, is one call token holding the whole
      name. */
  lemma CallRecognised(s: string, m: nat)
    requires NamePrefix(s, m) && m < |s| && !IsWordChar(s[m]) && OpensCall(s, m)
    requires s[..m] !in Keywords && s[..m] !in TypeNames
    ensures LineTokens(s)[0] == Token(Call, s[..m])
  {
    NameIsNoSymbol(s);
    NameNotListed(s, m);
    assert NextToken(s) == SymbolToken(s);
    CallNameIsName(s, m);
    FirstTokenIsNext(s);
  }

  /** Text that starts like a name is no comment, literal, template,
      number, operator or bracket. */
  lemma NameIsNoSymbol(s: string)
    requires s != [] && IsIdentStart(s[0])
    ensures !StartsWith(s, "//") && StringLiteral(s).None? && TemplateExpr(s).None?
    ensures Span(s, 0, IsDigit) == 0 && OperatorLength(s) == 0 && !IsBracket(s[0])
  {
    var c := s[0];
    assert c != '/' && !IsQuote(c) && c != '$' && !IsDigit(c) && !IsBracket(c);
    NoLiteralAt(s);
    NoOperatorAtName(s);
  }

  lemma NoOperatorAtName(s: string)
    requires s != [] && IsIdentStart(s[0])
    ensures OperatorLength(s) == 0
  {
    OperatorsStartNoName();
  }

  lemma NameNotListed(s: string, m: nat)
    requires NamePrefix(s, m) && m < |s| && !IsWordChar(s[m])
    requires s[..m] !in Keywords && s[..m] !in TypeNames
    ensures MatchWord(s, Keywords).None? && MatchWord(s, TypeNames).None?
  {
    var name := s[..m];
    assert IsWord(name) && WordAt(s, name);
    KeywordsAreWords();
    TypeNamesAreWords();
    NotListed(s, Keywords, name);
    NotListed(s, TypeNames, name);
  }

  /** The called name is the whole identifier. */
  lemma CallNameIsName(s: string, m: nat)
    requires NamePrefix(s, m) && m < |s| && !IsWordChar(s[m]) && OpensCall(s, m)
    ensures CallName(s) == m
  {
  }

  /** A word list matches nothing where an unlisted word stands with a
      trailing boundary. */
  lemma NotListed(s: string, words: seq<string>, w: string)
    requires forall v :: v in words ==> IsWord(v)
    requires IsWord(w) && WordAt(s, w) && w !in words
    ensures MatchWord(s, words).None?
  {
    var m := MatchWord(s, words);
    if m.Some? {
      WordAtUnique(s, m.value, w);
    }
  }

  /** No operator starts like a name. */
  lemma OperatorsStartNoName()
    ensures forall op :: IsOperator(op) ==> !IsIdentStart(op[0])
  {
  }

  lemma NoKeywordOrTypeName(s: string)
    requires s != [] && !IsIdentStart(s[0])
    ensures MatchWord(s, Keywords).None? && MatchWord(s, TypeNames).None?
  {
    NoKeyword(s);
    NoTypeName(s);
  }

  lemma NoKeyword(s: string)
    requires s != [] && !IsIdentStart(s[0])
    ensures MatchWord(s, Keywords).None?
  {
    KeywordsAreWords();
    NoWordMatch(s, Keywords);
  }

  lemma NoTypeName(s: string)
    requires s != [] && !IsIdentStart(s[0])
    ensures MatchWord(s, TypeNames).None?
  {
    TypeNamesAreWords();
    NoWordMatch(s, TypeNames);
  }

  /** Text that does not start like a name matches no word alternation. */
  lemma NoWordMatch(s: string, words: seq<string>)
    requires forall w :: w in words ==> IsWord(w) && IsIdentStart(w[0])
    requires s != [] && !IsIdentStart(s[0])
    ensures MatchWord(s, words).None?
  {
    forall w | w in words ensures !WordAt(s, w) {
    }
  }

  lemma TypeNamesAreWords()
    ensures forall t :: t in TypeNames ==> IsWord(t) && IsIdentStart(t[0])
  {
    TypeNamesPart1();
    TypeNamesPart2();
    TypeNamesPart3();
    TypeNamesPart4();
    TypeNamesPart5();
  }

  /** A type name followed by a non-word character (or the end of the line)
      is highlighted as that type name: no keyword can match there, since
      the two lists share no word. */
  lemma TypeNameRecognised(s: string, t: string)
    requires t in TypeNames && WordAt(s, t)
    ensures LineTokens(s)[0] == Token(TypeName, t)
  {
    TypeNamesAreWords();
    WordStartsName(s, t);
    NoKeywordAt(s, t);
    UniqueWordMatch(s, TypeNames, t);
    FirstTokenIsNext(s);
  }

  lemma NoKeywordAt(s: string, t: string)
    requires t in TypeNames && WordAt(s, t) && IsWord(t)
    ensures MatchWord(s, Keywords).None?
  {
    KeywordsAreWords();
    TypeNamesAreNotKeywords();
    var m := MatchWord(s, Keywords);
    if m.Some? {
      WordAtUnique(s, m.value, t);
    }
  }

  lemma TypeNamesAreNotKeywords()
    ensures forall t :: t in TypeNames ==> t !in Keywords
  {
  }

  /** A literal whose body holds neither its quote nor a backslash ends at
      the next occurrence of its quote. */
  lemma PlainStringLiteral(s: string, j: nat)
    requires 0 < j < |s| && IsQuote(s[0]) && s[j] == s[0]
    requires forall k :: 0 < k < j ==> s[k] != s[0] && s[k] != '\\'
    ensures StringLiteral(s) == Some(j + 1)
  {
    PlainQuotedEnd(s, s[0], 1, j);
  }

  lemma {:induction false} PlainQuotedEnd(s: string, q: char, i: nat, j: nat)
    requires q != '\\' && i <= j < |s| && s[j] == q
    requires forall k :: i <= k < j ==> s[k] != q && s[k] != '\\'
    ensures QuotedEnd(s, q, i) == Some(j + 1)
    decreases j - i
  {
    if i < j {
      PlainQuotedEnd(s, q, i + 1, j);
    }
  }

  /** Keyword text inside a string literal stays inside the string token: a
      quoted word (a keyword or any other) is one string token. */
  lemma KeywordInsideString(q: char, w: string, rest: string)
    requires IsQuote(q) && IsWord(w)
    ensures var s := [q] + w + [q] + rest;
            LineTokens(s)[0] == Token(Str, [q] + w + [q])
  {
    var s := [q] + w + [q] + rest;
    forall i | 0 < i < |w| + 1 ensures s[i] != q && s[i] != '\\' {
      assert s[i] == w[i - 1];
    }
    PlainStringLiteral(s, |w| + 1);
    StringBeforeKeyword(s);
    assert s[..|w| + 2] == [q] + w + [q];
  }
}
