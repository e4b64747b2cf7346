/**
 What source text is made of, without any scanner: code, strings, comments,
 regular expressions and templates, each with its text and its shown form. The
 mask of such text is their shown forms, one after the other.
 */
module SourcePieces {
  import opened Masking

  // ---------- where a regular expression may stand ----------

  /** JavaScript's white space. */
  predicate White(c: char) {
    c in {' ', '\t', '\n', '\r', '\U{0B}', '\U{0C}', '\U{A0}', '\U{1680}', '\U{2000}', '\U{2001}', '\U{2002}', '\U{2003}',
          '\U{2004}', '\U{2005}', '\U{2006}', '\U{2007}', '\U{2008}', '\U{2009}', '\U{200A}', '\U{2028}', '\U{2029}',
          '\U{202F}', '\U{205F}', '\U{3000}', '\U{FEFF}'}
  }

  predicate Operator(c: char) {
    c in {'(', ',', '=', ':', '[', '!', '&', '|', '?', '{', '}', ';', '+', '-', '*', '%', '<', '>', '~', '^'}
  }

  predicate Keyword(w: string) {
    w in {"return", "typeof", "case", "do", "else", "in", "of", "void", "yield", "await"}
  }

  predicate NameChar(c: char) {
    'a' <= c <= 'z' || 'A' <= c <= 'Z' || '0' <= c <= '9' || c == '_' || c == '$'
  }

  /** `code` ends in a keyword that is not the end of a longer name. */
  ghost predicate EndsInKeyword(code: string) {
    exists front, w :: code == front + w && Keyword(w) && (front == "" || !NameChar(front[|front| - 1]))
  }

  /** Before a regular expression stands nothing, an operator or a keyword, and white space. */
  ghost predicate OpensRegex(before: string) {
    exists code, gap :: before == code + gap && (forall c :: c in gap ==> White(c)) &&
      (code == "" || Operator(code[|code| - 1]) || EndsInKeyword(code))
  }

  lemma WhiteIsSpace()
    ensures forall c :: White(c) <==> IsSpace(c)
  {
  }

  lemma OperatorOpens()
    ensures forall c :: Operator(c) <==> c in REGEX_AFTER
  {
  }

  lemma KeywordOpens(code: string)
    ensures EndsInKeyword(code) <==> exists w :: w in KEYWORDS && EndsInWord(code, w)
  {
    hide Keyword, EndsInWord;
    if EndsInKeyword(code) {
      var front, w :| code == front + w && Keyword(w) && (front == "" || !NameChar(front[|front| - 1]));
      KeywordListed(w);
      IsEnd(front, w);
    }
    if w :| w in KEYWORDS && EndsInWord(code, w) {
      KeywordListed(w);
      HasEnd(code, w);
    }
  }

  lemma IsEnd(front: string, w: string)
    requires front == "" || !NameChar(front[|front| - 1])
    ensures EndsInWord(front + w, w)
  {
  }

  lemma NameIsWord()
    ensures forall c :: NameChar(c) <==> IsWord(c)
  {
  }

  lemma HasEnd(code: string, w: string)
    requires EndsInWord(code, w)
    ensures exists front :: code == front + w && (front == "" || !NameChar(front[|front| - 1]))
  {
    hide NameChar, IsWord;
    NameIsWord();
    var front := code[..|code| - |w|];
    assert code == front + w;
    assert front != "" ==> front[|front| - 1] == code[|code| - |w| - 1];
  }

  lemma KeywordListed(w: string)
    ensures Keyword(w) <==> w in KEYWORDS
  {
    assert KEYWORDS[0] == "return" && KEYWORDS[1] == "typeof" && KEYWORDS[2] == "case" && KEYWORDS[3] == "do"
      && KEYWORDS[4] == "else" && KEYWORDS[5] == "in" && KEYWORDS[6] == "of" && KEYWORDS[7] == "void"
      && KEYWORDS[8] == "yield" && KEYWORDS[9] == "await";
  }

  lemma {:induction false} LastInkIs(source: string, at: nat)
    requires at <= |source|
    ensures forall k :: LastInk(source, at) <= k < at ==> IsSpace(source[k])
    ensures LastInk(source, at) > 0 ==> !IsSpace(source[LastInk(source, at) - 1])
  {
    if at > 0 && IsSpace(source[at - 1]) { LastInkIs(source, at - 1); }
  }

  /** Before `at`, white space back to `k`, and none right before that. */
  lemma LastInkFound(source: string, at: nat, k: nat)
    requires k <= at <= |source| && (forall j :: k <= j < at ==> IsSpace(source[j])) && (k > 0 ==> !IsSpace(source[k - 1]))
    ensures LastInk(source, at) == k
  {
    LastInkIs(source, at);
  }

  lemma OpensBefore(source: string, at: nat)
    requires at <= |source| && StartsRegex(source, at)
    ensures OpensRegex(source[..at])
  {
    hide Operator, Keyword, White, EndsInWord, EndsInKeyword, LastInk, IsSpace, NameChar;
    var k := LastInk(source, at);
    LastInkIs(source, at);
    WhiteIsSpace();
    OperatorOpens();
    KeywordOpens(source[..k]);
    var code, gap := source[..k], source[k..at];
    assert source[..at] == code + gap;
    assert code != "" ==> code[|code| - 1] == source[k - 1];
  }

  lemma BeforeOpens(source: string, at: nat, code: string, gap: string)
    requires at <= |source| && source[..at] == code + gap && forall c :: c in gap ==> White(c)
    requires code == "" || Operator(code[|code| - 1]) || EndsInKeyword(code)
    ensures StartsRegex(source, at)
  {
    hide Operator, Keyword, White, EndsInWord, EndsInKeyword, LastInk, IsSpace, NameChar;
    WhiteIsSpace();
    OperatorOpens();
    KeywordOpens(code);
    var n := |code|;
    assert code == source[..n];
    forall j | n <= j < at ensures IsSpace(source[j]) {
      assert source[j] == source[..at][j] == gap[j - n];
    }
    if n > 0 {
      assert code[n - 1] == source[n - 1];
      InkBefore(code);
    }
    LastInkFound(source, at, n);
  }

  /** The slash that the scanner takes for the start of a regular expression stands where one may stand. */
  lemma SlashOpens(source: string, at: nat)
    requires at <= |source|
    ensures StartsRegex(source, at) <==> OpensRegex(source[..at])
  {
    hide StartsRegex, Operator, EndsInKeyword, White;
    if StartsRegex(source, at) { OpensBefore(source, at); }
    if OpensRegex(source[..at]) {
      var code, gap :| source[..at] == code + gap && (forall c :: c in gap ==> White(c)) &&
        (code == "" || Operator(code[|code| - 1]) || EndsInKeyword(code));
      BeforeOpens(source, at, code, gap);
    }
  }

  lemma InkBefore(code: string)
    requires code != "" && (Operator(code[|code| - 1]) || EndsInKeyword(code))
    ensures !White(code[|code| - 1])
  {
    if EndsInKeyword(code) {
      hide Keyword, White, Operator, NameChar;
      var front, w :| code == front + w && Keyword(w) && (front == "" || !NameChar(front[|front| - 1]));
      KeywordInk(w);
      assert code[|code| - 1] == w[|w| - 1];
    }
  }

  lemma KeywordInk(w: string)
    requires Keyword(w)
    ensures w != "" && !White(w[|w| - 1])
  {
  }

  // ---------- the pieces ----------

  datatype Code =
    | Nothing
    /** A character of code that begins nothing. */
    | Char(c: char, rest: Code)
    /** A string, in either quote. */
    | Quote(quote: char, text: string, rest: Code)
    /** A string that the end of its line cuts short. */
    | CutQuote(quote: char, text: string, rest: Code)
    | Line(text: string, rest: Code)
    | Comment(text: string, rest: Code)
    | RegExp(text: string, rest: Code)
    | Braces(inside: Code, rest: Code)
    | Backtick(literal: Literal, rest: Code)

  /** Template text up to the closing backtick, with code in its holes. */
  datatype Literal =
    | Last(text: string)
    | HoleIn(text: string, inside: Code, more: Literal)

  /** The source text of some code. */
  function Source(code: Code): string {
    match code
    case Nothing => ""
    case Char(c, rest) => [c] + Source(rest)
    case Quote(q, text, rest) => [q] + text + [q] + Source(rest)
    case CutQuote(q, text, rest) => [q] + text + "\n" + Source(rest)
    case Line(text, rest) => "//" + text + Source(rest)
    case Comment(text, rest) => "/*" + text + "*/" + Source(rest)
    case RegExp(text, rest) => "/" + text + "/" + Source(rest)
    case Braces(inside, rest) => "{" + Source(inside) + "}" + Source(rest)
    case Backtick(literal, rest) => "`" + LiteralSource(literal) + Source(rest)
  }

  function LiteralSource(literal: Literal): string {
    match literal
    case Last(text) => text + "`"
    case HoleIn(text, inside, more) => text + "${" + Source(inside) + "}" + LiteralSource(more)
  }

  /** Blanks, with the line ends where they were. */
  function Blanks(text: string): string {
    seq(|text|, i requires 0 <= i < |text| => if text[i] == '\n' then '\n' else ' ')
  }

  /** What is left of some code once everything that is not code is blanked. */
  function Shown(code: Code): string {
    match code
    case Nothing => ""
    case Char(c, rest) => [c] + Shown(rest)
    case Quote(q, text, rest) => [q] + Blanks(text) + [q] + Shown(rest)
    case CutQuote(q, text, rest) => [q] + Blanks(text) + "\n" + Shown(rest)
    case Line(text, rest) => Blanks("//" + text) + Shown(rest)
    case Comment(text, rest) => Blanks("/*" + text + "*/") + Shown(rest)
    case RegExp(text, rest) => "/" + Blanks(text) + "/" + Shown(rest)
    case Braces(inside, rest) => "{" + Shown(inside) + "}" + Shown(rest)
    case Backtick(literal, rest) => "`" + LiteralShown(literal) + Shown(rest)
  }

  function LiteralShown(literal: Literal): string {
    match literal
    case Last(text) => Blanks(text) + "`"
    case HoleIn(text, inside, more) => Blanks(text) + "${" + Shown(inside) + "}" + LiteralShown(more)
  }

  // ---------- which texts may stand where ----------

  /** No unescaped quote, and no unescaped end of a line. */
  predicate StringText(q: char, text: string) {
    text == "" ||
    if text[0] == '\\' then |text| >= 2 && StringText(q, text[2..])
    else text[0] != q && text[0] != '\n' && StringText(q, text[1..])
  }

  /** No unescaped backtick and no unescaped `${`. */
  predicate TemplateText(text: string) {
    text == "" ||
    if text[0] == '\\' then |text| >= 2 && TemplateText(text[2..])
    else text[0] != '`' && !(|text| >= 2 && text[0] == '$' && text[1] == '{') && TemplateText(text[1..])
  }

  /** No unescaped slash outside brackets, and no unescaped end of a line; the brackets are closed. */
  predicate RegExpText(text: string, inBrackets: bool) {
    if text == "" then !inBrackets
    else if text[0] == '\\' then |text| >= 2 && RegExpText(text[2..], inBrackets)
    else
      && text[0] != '\n' && (text[0] == '/' ==> inBrackets)
      && RegExpText(text[1..], if text[0] == '[' then true else if text[0] == ']' then false else inBrackets)
  }

  predicate CommentText(text: string) {
    forall k :: 0 <= k < |text| - 1 && text[k] == '*' ==> text[k + 1] != '/'
  }

  predicate EndsLine(source: string, i: nat) {
    i < |source| ==> source[i] == '\n'
  }

  /** `text` stands at `i`. */
  predicate At(source: string, i: nat, text: string) {
    i + |text| <= |source| && source[i..i + |text|] == text
  }

  /** The pieces are what they are called, in this place of a source. */
  ghost predicate WellFormed(source: string, i: nat, code: Code)
    decreases code
  {
    match code
    case Nothing => true
    case Char(c, rest) =>
      && c !in {'"', '\'', '`', '{', '}'}
      && (c == '/' ==> i <= |source| && !OpensRegex(source[..i]) && !At(source, i + 1, "/") && !At(source, i + 1, "*"))
      && WellFormed(source, i + 1, rest)
    case Quote(q, text, rest) => q in {'"', '\''} && StringText(q, text) && WellFormed(source, i + |text| + 2, rest)
    case CutQuote(q, text, rest) => q in {'"', '\''} && StringText(q, text) && WellFormed(source, i + |text| + 2, rest)
    case Line(text, rest) => '\n' !in text && EndsLine(source, i + |text| + 2) && WellFormed(source, i + |text| + 2, rest)
    case Comment(text, rest) => CommentText(text) && WellFormed(source, i + |text| + 4, rest)
    case RegExp(text, rest) =>
      && text != "" && text[0] != '*' && text[0] != '/' && RegExpText(text, false)
      && i <= |source| && OpensRegex(source[..i]) && WellFormed(source, i + |text| + 2, rest)
    case Braces(inside, rest) =>
      WellFormed(source, i + 1, inside) && WellFormed(source, i + |Source(inside)| + 2, rest)
    case Backtick(literal, rest) =>
      LiteralFormed(source, i + 1, literal) && WellFormed(source, i + |LiteralSource(literal)| + 1, rest)
  }

  ghost predicate LiteralFormed(source: string, i: nat, literal: Literal)
    decreases literal
  {
    match literal
    case Last(text) => TemplateText(text)
    case HoleIn(text, inside, more) =>
      && TemplateText(text) && WellFormed(source, i + |text| + 2, inside)
      && LiteralFormed(source, i + |text| + |Source(inside)| + 3, more)
  }

  // ---------- the mask, piece by piece ----------

  /** The mask shows `shown` at `i`. */
  ghost predicate Shows(source: string, i: nat, shown: string) {
    i + |shown| <= |source| && forall k :: i <= k < i + |shown| ==> MaskedAt(source, k) == shown[k - i]
  }

  lemma ShowsBoth(source: string, i: nat, a: string, b: string)
    requires Shows(source, i, a) && Shows(source, i + |a|, b)
    ensures Shows(source, i, a + b)
  {
    hide MaskedAt;
  }

  lemma AtParts(source: string, i: nat, a: string, b: string)
    requires At(source, i, a + b)
    ensures At(source, i, a) && At(source, i + |a|, b)
  {
    assert source[i..i + |a|] == (a + b)[..|a|];
    assert source[i + |a|..i + |a| + |b|] == (a + b)[|a|..];
  }

  lemma AtFirst(source: string, i: nat, text: string)
    requires At(source, i, text) && text != ""
    ensures source[i] == text[0] && At(source, i + 1, text[1..])
  {
    assert text == [text[0]] + text[1..];
    AtParts(source, i, [text[0]], text[1..]);
  }

  /** Text none of which is visible shows as blanks. */
  lemma HiddenShows(source: string, i: nat, text: string)
    requires At(source, i, text) && forall k :: i <= k < i + |text| ==> !Visible(source, k)
    ensures Shows(source, i, Blanks(text))
  {
    forall k | i <= k < i + |text| ensures MaskedAt(source, k) == Blanks(text)[k - i] {
      assert source[k] == source[i..i + |text|][k - i];
    }
  }

  lemma VisibleShows(source: string, i: nat)
    requires i < |source| && Visible(source, i)
    ensures Shows(source, i, [source[i]])
  {
  }

  lemma StringStep(source: string, i: nat, q: char)
    requires i < |source| && LexAt(source, i).mode == Quoted(q) && source[i] != q && source[i] != '\n'
    ensures !Visible(source, i) && (source[i] != '\\' ==> LexAt(source, i + 1) == LexAt(source, i))
  {
  }

  lemma RegExpStep(source: string, i: nat, inBrackets: bool)
    requires i < |source| && LexAt(source, i).mode == Regex(inBrackets) && source[i] != '\n' && (source[i] == '/' ==> inBrackets)
    ensures !Visible(source, i)
    ensures source[i] != '\\' ==>
      LexAt(source, i + 1) ==
      LexAt(source, i).(mode := Regex(if source[i] == '[' then true else if source[i] == ']' then false else inBrackets))
  {
  }

  lemma TemplateStep(source: string, i: nat)
    requires i < |source| && LexAt(source, i).mode == Template && source[i] != '`'
    requires !(source[i] == '$' && Ahead(source, i, '{'))
    ensures !Visible(source, i) && (source[i] != '\\' ==> LexAt(source, i + 1) == LexAt(source, i))
  {
  }

  /** A backslash and what it escapes. */
  lemma AtEscape(source: string, i: nat, text: string)
    requires At(source, i, text) && |text| >= 2
    ensures source[i] == text[0] && At(source, i + 2, text[2..])
  {
    AtFirst(source, i, text);
    AtFirst(source, i + 1, text[1..]);
    assert text[1..][1..] == text[2..];
  }

  /** String text keeps the automaton in the string, hidden. */
  lemma {:induction false} InString(source: string, i: nat, q: char, text: string)
    requires At(source, i, text) && StringText(q, text) && q != '\\' && LexAt(source, i).mode == Quoted(q)
    ensures LexAt(source, i + |text|) == LexAt(source, i) && forall k :: i <= k < i + |text| ==> !Visible(source, k)
    decreases |text|
  {
    hide Next, Visible, LexAt, At;
    if text != "" {
      AtFirst(source, i, text);
      StringStep(source, i, q);
      if text[0] == '\\' {
        AtEscape(source, i, text);
        Escapes(source, i);
        InString(source, i + 2, q, text[2..]);
      } else {
        InString(source, i + 1, q, text[1..]);
      }
    }
  }

  lemma {:induction false} InRegExp(source: string, i: nat, text: string, inBrackets: bool)
    requires At(source, i, text) && RegExpText(text, inBrackets) && LexAt(source, i).mode == Regex(inBrackets)
    ensures LexAt(source, i + |text|) == LexAt(source, i).(mode := Regex(false))
    ensures forall k :: i <= k < i + |text| ==> !Visible(source, k)
    decreases |text|
  {
    hide Next, Visible, LexAt, At;
    if text != "" {
      AtFirst(source, i, text);
      RegExpStep(source, i, inBrackets);
      if text[0] == '\\' {
        AtEscape(source, i, text);
        Escapes(source, i);
        InRegExp(source, i + 2, text[2..], inBrackets);
      } else {
        InRegExp(source, i + 1, text[1..], if text[0] == '[' then true else if text[0] == ']' then false else inBrackets);
      }
    }
  }

  lemma {:induction false} InTemplate(source: string, i: nat, text: string)
    requires At(source, i, text) && TemplateText(text) && LexAt(source, i).mode == Template
    requires !At(source, i + |text|, "{")
    ensures LexAt(source, i + |text|) == LexAt(source, i) && forall k :: i <= k < i + |text| ==> !Visible(source, k)
    decreases |text|
  {
    hide Next, Visible, LexAt, At, Ahead;
    if text != "" {
      AtFirst(source, i, text);
      if text[0] == '\\' {
        TemplateStep(source, i);
        AtEscape(source, i, text);
        Escapes(source, i);
        InTemplate(source, i + 2, text[2..]);
      } else {
        NotAHole(source, i, text);
        TemplateStep(source, i);
        InTemplate(source, i + 1, text[1..]);
      }
    }
  }

  lemma NotAHole(source: string, i: nat, text: string)
    requires At(source, i, text) && text != "" && TemplateText(text) && text[0] != '\\' && !At(source, i + |text|, "{")
    ensures !(source[i] == '$' && Ahead(source, i, '{'))
  {
    AtFirst(source, i, text);
    if |text| >= 2 {
      AtFirst(source, i + 1, text[1..]);
    } else if i + 1 < |source| {
      assert source[i + 1..i + 2] == [source[i + 1]];
    }
  }

  /** `end` is at most one of the characters that end a string, and no backslash. */
  lemma ReadsQuote(source: string, i: nat, q: char, text: string, end: char)
    requires At(source, i, [q] + text + [end]) && q in {'"', '\''} && StringText(q, text) && end in {q, '\n'}
    requires LexAt(source, i).mode == Code
    ensures LexAt(source, i + |text| + 2) == LexAt(source, i) && Shows(source, i, [q] + Blanks(text) + [end])
  {
    hide Blanks, StringText, Visible, Next, LexAt, MaskedAt;
    var n := i + 1 + |text|;
    AtParts(source, i, [q] + text, [end]);
    AtParts(source, i, [q], text);
    AtFirst(source, i, [q]);
    AtFirst(source, n, [end]);
    QuoteOpens(source, i, q);
    InString(source, i + 1, q, text);
    QuoteCloses(source, n, q);
    hide At, Visible, LexAt, Next;
    VisibleShows(source, i);
    HiddenShows(source, i + 1, text);
    VisibleShows(source, n);
    BlanksLength(text);
    ShowsBoth(source, i, [q], Blanks(text));
    ShowsBoth(source, i, [q] + Blanks(text), [end]);
  }

  lemma BlanksLength(text: string)
    ensures |Blanks(text)| == |text|
  {
  }

  lemma QuoteOpens(source: string, i: nat, q: char)
    requires i < |source| && LexAt(source, i).mode == Code && source[i] == q && q in {'"', '\''}
    ensures Visible(source, i) && LexAt(source, i + 1) == LexAt(source, i).(mode := Quoted(q))
  {
    hide StartsRegex;
  }

  lemma QuoteCloses(source: string, i: nat, q: char)
    requires i < |source| && LexAt(source, i).mode == Quoted(q) && source[i] in {q, '\n'}
    ensures Visible(source, i) && LexAt(source, i + 1) == LexAt(source, i).(mode := Code)
  {
  }

  lemma ReadsLine(source: string, i: nat, text: string)
    requires At(source, i, "//" + text) && '\n' !in text && EndsLine(source, i + |text| + 2) && LexAt(source, i).mode == Code
    ensures i + |text| + 2 < |source| ==> LexAt(source, i + |text| + 2) == LexAt(source, i)
    ensures Shows(source, i, Blanks("//" + text)) && !LexAt(source, i + |text| + 2).mode.Escaped?
  {
    var all := "//" + text;
    var n := i + |all|;
    forall k | i <= k < n ensures source[k] != '\n' {
      assert source[k] == source[i..n][k - i] == all[k - i];
    }
    assert source[i] == source[i..n][0] && source[i + 1] == source[i..n][1];
    InLineComment(source, i, n);
    HiddenShows(source, i, all);
  }

  lemma ReadsComment(source: string, i: nat, text: string)
    requires At(source, i, "/*" + text + "*/") && CommentText(text) && LexAt(source, i).mode == Code
    ensures LexAt(source, i + |text| + 4) == LexAt(source, i) && Shows(source, i, Blanks("/*" + text + "*/"))
  {
    var all := "/*" + text + "*/";
    var n, end := i + |all|, i + |text| + 2;
    assert forall k :: i <= k < n ==> source[k] == source[i..n][k - i] == all[k - i];
    assert source[i] == '/' && source[i + 1] == '*' && source[end] == '*' && source[end + 1] == '/';
    forall j | i + 2 <= j < end ensures !(source[j] == '*' && Ahead(source, j, '/')) {
      assert source[j] == text[j - i - 2];
      if j + 1 < end { assert source[j + 1] == text[j - i - 1]; }
    }
    BlockCommentEnds(source, i, end, n);
    HiddenShows(source, i, all);
  }

  lemma ReadsRegExp(source: string, i: nat, text: string)
    requires At(source, i, "/" + text + "/") && text != "" && text[0] != '*' && text[0] != '/' && RegExpText(text, false)
    requires LexAt(source, i).mode == Code && OpensRegex(source[..i])
    ensures LexAt(source, i + |text| + 2) == LexAt(source, i) && Shows(source, i, "/" + Blanks(text) + "/")
  {
    hide Blanks, RegExpText, OpensRegex;
    var n := i + 1 + |text|;
    AtParts(source, i, "/" + text, "/");
    AtParts(source, i, "/", text);
    AtFirst(source, i, "/");
    AtFirst(source, i + 1, text);
    AtFirst(source, n, "/");
    SlashOpens(source, i);
    RegExpOpens(source, i);
    InRegExp(source, i + 1, text, false);
    RegExpCloses(source, n);
    hide At, Visible, LexAt, Next;
    VisibleShows(source, i);
    HiddenShows(source, i + 1, text);
    VisibleShows(source, n);
    BlanksLength(text);
    ShowsBoth(source, i, "/", Blanks(text));
    ShowsBoth(source, i, "/" + Blanks(text), "/");
  }

  lemma RegExpOpens(source: string, i: nat)
    requires i + 1 < |source| && LexAt(source, i).mode == Code && source[i] == '/' && source[i + 1] != '/' && source[i + 1] != '*'
    requires StartsRegex(source, i)
    ensures Visible(source, i) && LexAt(source, i + 1) == LexAt(source, i).(mode := Regex(false))
  {
    hide StartsRegex;
  }

  lemma RegExpCloses(source: string, i: nat)
    requires i < |source| && LexAt(source, i).mode == Regex(false) && source[i] == '/'
    ensures Visible(source, i) && LexAt(source, i + 1) == LexAt(source, i).(mode := Code)
  {
  }

  lemma ReadsChar(source: string, i: nat, c: char)
    requires At(source, i, [c]) && c !in {'"', '\'', '`', '{', '}'} && LexAt(source, i).mode == Code
    requires c == '/' ==> !OpensRegex(source[..i]) && !At(source, i + 1, "/") && !At(source, i + 1, "*")
    ensures LexAt(source, i + 1) == LexAt(source, i) && Shows(source, i, [c])
  {
    hide OpensRegex, StartsRegex;
    AtFirst(source, i, [c]);
    SlashOpens(source, i);
    if i + 1 < |source| { assert source[i + 1..i + 2] == [source[i + 1]]; }
    VisibleShows(source, i);
  }

  lemma BraceOpens(source: string, i: nat)
    requires At(source, i, "{") && LexAt(source, i).mode == Code
    ensures LexAt(source, i + 1) == LexAt(source, i).(depth := LexAt(source, i).depth + 1) && Shows(source, i, "{")
  {
    AtFirst(source, i, "{");
    VisibleShows(source, i);
  }

  /** The brace closes one of code, not a hole: every hole is further out. */
  lemma BraceCloses(source: string, i: nat, before: Lex)
    requires At(source, i, "}") && LexAt(source, i) == before.(depth := before.depth + 1) && before.mode == Code && Nested(before)
    ensures LexAt(source, i + 1) == before && Shows(source, i, "}")
  {
    AtFirst(source, i, "}");
    VisibleShows(source, i);
  }

  lemma BacktickOpens(source: string, i: nat)
    requires At(source, i, "`") && LexAt(source, i).mode == Code
    ensures LexAt(source, i + 1) == LexAt(source, i).(mode := Template) && Shows(source, i, "`")
  {
    AtFirst(source, i, "`");
    VisibleShows(source, i);
  }

  lemma BacktickCloses(source: string, i: nat)
    requires At(source, i, "`") && LexAt(source, i).mode == Template
    ensures LexAt(source, i + 1) == LexAt(source, i).(mode := Code) && Shows(source, i, "`")
  {
    AtFirst(source, i, "`");
    VisibleShows(source, i);
  }

  lemma HoleOpens(source: string, i: nat)
    requires At(source, i, "${") && LexAt(source, i).mode == Template
    ensures var s := LexAt(source, i);
      LexAt(source, i + 2) == Lex(Mode.Code, s.depth + 1, s.templates + [s.depth]) && Shows(source, i, "${")
  {
    AtFirst(source, i, "${");
    AtFirst(source, i + 1, "${"[1..]);
    assert LexAt(source, i + 1) == LexAt(source, i).(mode := Hole);
    VisibleShows(source, i);
    VisibleShows(source, i + 1);
    ShowsBoth(source, i, "$", "{");
  }

  lemma HoleCloses(source: string, i: nat, before: Lex)
    requires At(source, i, "}") && before.mode == Template
    requires LexAt(source, i) == Lex(Mode.Code, before.depth + 1, before.templates + [before.depth])
    ensures LexAt(source, i + 1) == before && Shows(source, i, "}")
  {
    AtFirst(source, i, "}");
    assert (before.templates + [before.depth])[..|before.templates|] == before.templates;
    VisibleShows(source, i);
  }

  lemma {:induction false} SameLength(code: Code)
    ensures |Shown(code)| == |Source(code)| && (Source(code) == "" ==> code == Nothing)
  {
    match code
    case Nothing =>
    case Braces(inside, rest) => SameLength(inside); SameLength(rest);
    case Backtick(literal, rest) => SameLiteralLength(literal); SameLength(rest);
    case _ => SameLength(code.rest);
  }

  lemma {:induction false} SameLiteralLength(literal: Literal)
    ensures |LiteralShown(literal)| == |LiteralSource(literal)|
  {
    match literal
    case Last(_) =>
    case HoleIn(_, inside, more) => SameLength(inside); SameLiteralLength(more);
  }

  /** Some code stands at `i`, where the automaton is in code. */
  ghost predicate Stands(source: string, i: nat, code: Code) {
    At(source, i, Source(code)) && WellFormed(source, i, code) && LexAt(source, i).mode == Mode.Code
  }

  /** The automaton comes out of `text` as it went in, and the mask shows `shown` of it. */
  ghost predicate ReadAs(source: string, i: nat, text: string, shown: string) {
    && |shown| == |text| && i + |text| <= |source| && Shows(source, i, shown)
    && (i + |text| < |source| ==> LexAt(source, i + |text|) == LexAt(source, i))
    && !LexAt(source, i + |text|).mode.Escaped?
  }

  lemma ReadsNothing(source: string, i: nat)
    requires i <= |source| && !LexAt(source, i).mode.Escaped?
    ensures ReadAs(source, i, "", "")
  {
    hide LexAt, MaskedAt;
  }

  lemma ReadBoth(source: string, i: nat, text: string, shown: string, more: string, shownMore: string)
    requires ReadAs(source, i, text, shown) && ReadAs(source, i + |text|, more, shownMore)
    ensures ReadAs(source, i, text + more, shown + shownMore)
  {
    hide LexAt, MaskedAt, Shows;
    ShowsBoth(source, i, shown, shownMore);
  }

  /** What follows a piece that leaves the automaton as it was. */
  lemma ReadsRest(source: string, i: nat, text: string, shown: string, rest: Code)
    requires At(source, i, text + Source(rest)) && ReadAs(source, i, text, shown)
    requires WellFormed(source, i + |text|, rest) && LexAt(source, i).mode == Mode.Code
    ensures ReadAs(source, i, text + Source(rest), shown + Shown(rest))
    decreases rest, 3
  {
    hide WellFormed, Source, Shown, ReadAs, At, LexAt;
    AtParts(source, i, text, Source(rest));
    ComesOut(source, i, text, shown);
    if i + |text| < |source| {
      Reads(source, i + |text|, rest);
    } else {
      NothingLeft(source, i + |text|, rest);
      ReadsNothing(source, i + |text|);
    }
    ReadBoth(source, i, text, shown, Source(rest), Shown(rest));
  }

  lemma ComesOut(source: string, i: nat, text: string, shown: string)
    requires ReadAs(source, i, text, shown)
    ensures i + |text| <= |source| && !LexAt(source, i + |text|).mode.Escaped?
    ensures i + |text| < |source| ==> LexAt(source, i + |text|) == LexAt(source, i)
  {
  }

  lemma NothingLeft(source: string, i: nat, rest: Code)
    requires i == |source| && At(source, i, Source(rest))
    ensures Source(rest) == "" && Shown(rest) == ""
  {
    SameLength(rest);
  }

  /**
   The pieces are read as what they are: code stays, everything else is blanked,
   and the automaton comes out of them as it went in.
   */
  lemma {:induction false} Reads(source: string, i: nat, code: Code)
    requires Stands(source, i, code)
    ensures ReadAs(source, i, Source(code), Shown(code))
    decreases code, 2
  {
    hide ReadAs;
    match code
    case Nothing => ReadsNothing(source, i);
    case Char(c, rest) => ReadsChars(source, i, code);
    case Quote(q, text, rest) => ReadsQuotes(source, i, code);
    case CutQuote(q, text, rest) => ReadsQuotes(source, i, code);
    case Line(text, rest) => ReadsComments(source, i, code);
    case Comment(text, rest) => ReadsComments(source, i, code);
    case RegExp(text, rest) => ReadsRegExps(source, i, code);
    case Braces(inside, rest) => ReadsNested(source, i, code);
    case Backtick(literal, rest) => ReadsNested(source, i, code);
  }

  lemma ReadsChars(source: string, i: nat, code: Code)
    requires code.Char? && Stands(source, i, code)
    ensures ReadAs(source, i, Source(code), Shown(code))
    decreases code, 1
  {
    AtParts(source, i, [code.c], Source(code.rest));
    hide LexAt, MaskedAt, OpensRegex, Shows;
    ReadsChar(source, i, code.c);
    ReadsRest(source, i, [code.c], [code.c], code.rest);
  }

  lemma ReadsQuotes(source: string, i: nat, code: Code)
    requires (code.Quote? || code.CutQuote?) && Stands(source, i, code)
    ensures ReadAs(source, i, Source(code), Shown(code))
    decreases code, 1
  {
    hide LexAt, MaskedAt, Shows, StringText;
    var end := if code.Quote? then code.quote else '\n';
    var text, shown := [code.quote] + code.text + [end], [code.quote] + Blanks(code.text) + [end];
    AtParts(source, i, text, Source(code.rest));
    ReadsQuote(source, i, code.quote, code.text, end);
    ReadsRest(source, i, text, shown, code.rest);
  }

  lemma ReadsComments(source: string, i: nat, code: Code)
    requires (code.Line? || code.Comment?) && Stands(source, i, code)
    ensures ReadAs(source, i, Source(code), Shown(code))
    decreases code, 1
  {
    hide LexAt, MaskedAt, Shows, CommentText;
    var text := if code.Line? then "//" + code.text else "/*" + code.text + "*/";
    AtParts(source, i, text, Source(code.rest));
    if code.Line? { ReadsLine(source, i, code.text); } else { ReadsComment(source, i, code.text); }
    ReadsRest(source, i, text, Blanks(text), code.rest);
  }

  lemma ReadsRegExps(source: string, i: nat, code: Code)
    requires code.RegExp? && Stands(source, i, code)
    ensures ReadAs(source, i, Source(code), Shown(code))
    decreases code, 1
  {
    hide LexAt, MaskedAt, Shows, RegExpText, OpensRegex;
    var text := "/" + code.text + "/";
    AtParts(source, i, text, Source(code.rest));
    ReadsRegExp(source, i, code.text);
    ReadsRest(source, i, text, "/" + Blanks(code.text) + "/", code.rest);
  }

  lemma ReadsNested(source: string, i: nat, code: Code)
    requires (code.Braces? || code.Backtick?) && Stands(source, i, code)
    ensures ReadAs(source, i, Source(code), Shown(code))
    decreases code, 1
  {
    hide LexAt, MaskedAt, Shows;
    if code.Braces? {
      var text := "{" + Source(code.inside) + "}";
      AtParts(source, i, text, Source(code.rest));
      ReadsBraces(source, i, code.inside);
      SameLength(code.inside);
      ReadsRest(source, i, text, "{" + Shown(code.inside) + "}", code.rest);
    } else {
      var text := "`" + LiteralSource(code.literal);
      AtParts(source, i, text, Source(code.rest));
      ReadsBacktick(source, i, code.literal);
      SameLiteralLength(code.literal);
      ReadsRest(source, i, text, "`" + LiteralShown(code.literal), code.rest);
    }
  }

  lemma ReadsBraces(source: string, i: nat, inside: Code)
    requires At(source, i, "{" + Source(inside) + "}") && WellFormed(source, i + 1, inside) && LexAt(source, i).mode == Mode.Code
    ensures LexAt(source, i + |Source(inside)| + 2) == LexAt(source, i) && Shows(source, i, "{" + Shown(inside) + "}")
    decreases inside, 3
  {
    hide LexAt, MaskedAt, Shows, Nested, Source, Shown, WellFormed;
    var n := i + |Source(inside)| + 1;
    AtParts(source, i, "{" + Source(inside), "}");
    AtParts(source, i, "{", Source(inside));
    BraceOpens(source, i);
    Reads(source, i + 1, inside);
    HolesNest(source, i);
    BraceCloses(source, n, LexAt(source, i));
    SameLength(inside);
    ShowsBoth(source, i, "{", Shown(inside));
    ShowsBoth(source, i, "{" + Shown(inside), "}");
  }

  lemma ReadsBacktick(source: string, i: nat, literal: Literal)
    requires At(source, i, "`" + LiteralSource(literal)) && LiteralFormed(source, i + 1, literal)
    requires LexAt(source, i).mode == Mode.Code
    ensures LexAt(source, i + |LiteralSource(literal)| + 1) == LexAt(source, i)
    ensures Shows(source, i, "`" + LiteralShown(literal))
    decreases literal, 3
  {
    hide LexAt, MaskedAt, Shows;
    AtParts(source, i, "`", LiteralSource(literal));
    BacktickOpens(source, i);
    ReadsLiteral(source, i + 1, literal);
    ShowsBoth(source, i, "`", LiteralShown(literal));
  }

  lemma {:induction false} ReadsLiteral(source: string, i: nat, literal: Literal)
    requires At(source, i, LiteralSource(literal)) && LiteralFormed(source, i, literal) && LexAt(source, i).mode == Template
    ensures LexAt(source, i + |LiteralSource(literal)|) == LexAt(source, i).(mode := Mode.Code)
    ensures Shows(source, i, LiteralShown(literal))
    decreases literal, 2
  {
    hide LexAt, MaskedAt, Shows, TemplateText;
    match literal
    case Last(text) =>
      AtParts(source, i, text, "`");
      NoBrace(source, i + |text|);
      InTemplate(source, i, text);
      HiddenShows(source, i, text);
      BacktickCloses(source, i + |text|);
      ShowsBoth(source, i, Blanks(text), "`");
    case HoleIn(text, inside, more) =>
      var hole := text + "${" + Source(inside) + "}";
      AtParts(source, i, hole, LiteralSource(more));
      ReadsHole(source, i, text, inside);
      SameLength(inside);
      ReadsLiteral(source, i + |hole|, more);
      ShowsBoth(source, i, Blanks(text) + "${" + Shown(inside) + "}", LiteralShown(more));
  }

  lemma NoBrace(source: string, i: nat)
    requires At(source, i, "${") || At(source, i, "`")
    ensures !At(source, i, "{")
  {
    if At(source, i, "${") { AtFirst(source, i, "${"); } else { AtFirst(source, i, "`"); }
    if At(source, i, "{") { AtFirst(source, i, "{"); }
  }

  lemma ReadsHole(source: string, i: nat, text: string, inside: Code)
    requires At(source, i, text + "${" + Source(inside) + "}") && TemplateText(text) && WellFormed(source, i + |text| + 2, inside)
    requires LexAt(source, i).mode == Template
    ensures LexAt(source, i + |text| + |Source(inside)| + 3) == LexAt(source, i)
    ensures Shows(source, i, Blanks(text) + "${" + Shown(inside) + "}")
    decreases inside, 4
  {
    hide LexAt, MaskedAt, Shows, TemplateText, Visible, Source, Shown, WellFormed, LiteralFormed;
    AtParts(source, i, text + "${" + Source(inside), "}");
    AtParts(source, i, text + "${", Source(inside));
    HoleReached(source, i, text);
    var n := i + |text| + 2;
    hide At;
    Reads(source, n, inside);
    HoleCloses(source, n + |Source(inside)|, LexAt(source, i));
    SameLength(inside);
    ShowsBoth(source, i, Blanks(text) + "${", Shown(inside));
    ShowsBoth(source, i, Blanks(text) + "${" + Shown(inside), "}");
  }

  /** Template text up to a hole. */
  lemma HoleReached(source: string, i: nat, text: string)
    requires At(source, i, text + "${") && TemplateText(text) && LexAt(source, i).mode == Template
    ensures var s := LexAt(source, i);
      && LexAt(source, i + |text| + 2) == Lex(Mode.Code, s.depth + 1, s.templates + [s.depth])
      && Shows(source, i, Blanks(text) + "${")
  {
    hide LexAt, MaskedAt, Shows, TemplateText, Visible;
    AtParts(source, i, text, "${");
    NoBrace(source, i + |text|);
    InTemplate(source, i, text);
    HiddenShows(source, i, text);
    HoleOpens(source, i + |text|);
    ShowsBoth(source, i, Blanks(text), "${");
  }

  /** The mask of a source made of pieces is what they show. */
  lemma MaskShowsCode(code: Code)
    requires WellFormed(Source(code), 0, code)
    ensures Masked(Source(code)) == Shown(code) && !EndsEscaping(Source(code))
  {
    var source := Source(code);
    assert source[0..|source|] == source;
    Reads(source, 0, code);
    SameLength(code);
  }

  method MaskPieces(code: Code) returns (masked: string)
    requires WellFormed(Source(code), 0, code)
    ensures masked == Shown(code)
  {
    MaskShowsCode(code);
    masked := MaskCode(Source(code));
  }
}
