/**
 Blanking everything in a source file that is not code. The scanner jumps from
 token to token; it is proved against an automaton that reads one character at
 a time and says of each whether it is code.
 */
module Masking {
  // ---------- the automaton ----------

  datatype Mode =
    | Code
    | Quoted(quote: char)
    | Template
    /** On the brace of a `${`. */
    | Hole
    | LineComment
    /** On the star of the opening of a block comment. */
    | BlockOpen
    | Block
    /** On the slash that closes a block comment. */
    | BlockClose
    | Regex(inClass: bool)
    /** After a backslash. */
    | Escaped(inside: Mode)

  /** Brackets the automaton remembers: the braces now open, and how many were when each hole of a template began. */
  datatype Lex = Lex(mode: Mode, depth: int, templates: seq<int>)

  const REGEX_AFTER := "(,=:[!&|?{};+-*%<>~^"

  const KEYWORDS := ["return", "typeof", "case", "do", "else", "in", "of", "void", "yield", "await"]

  predicate IsSpace(c: char) {
    || '\t' <= c <= '\r' || c == ' ' || c == '\U{A0}' || c == '\U{1680}' || '\U{2000}' <= c <= '\U{200A}'
    || c == '\U{2028}' || c == '\U{2029}' || c == '\U{202F}' || c == '\U{205F}' || c == '\U{3000}' || c == '\U{FEFF}'
  }

  predicate IsWord(c: char) {
    'a' <= c <= 'z' || 'A' <= c <= 'Z' || '0' <= c <= '9' || c == '_' || c == '$'
  }

  /** Where the last character before `at` that is no white space ends. */
  function LastInk(source: string, at: nat): nat
    requires at <= |source|
    ensures LastInk(source, at) <= at
  {
    if at > 0 && IsSpace(source[at - 1]) then LastInk(source, at - 1) else at
  }

  /** Whether `text` ends in `word`, and not in a longer one. */
  predicate EndsInWord(text: string, word: string) {
    && |word| <= |text| && text[|text| - |word|..] == word
    && (|text| > |word| ==> !IsWord(text[|text| - |word| - 1]))
  }

  /** What the code before a slash says of it: a literal begins here, or a quotient. */
  predicate StartsRegex(source: string, at: nat)
    requires at <= |source|
  {
    var k := LastInk(source, at);
    k == 0 || source[k - 1] in REGEX_AFTER || exists w :: w in KEYWORDS && EndsInWord(source[..k], w)
  }

  predicate Ahead(source: string, i: nat, c: char) {
    i + 1 < |source| && source[i + 1] == c
  }

  /** The mode after a character of code, other than a brace. */
  function AfterCode(source: string, i: nat): Mode
    requires i < |source|
  {
    var c := source[i];
    if c == '"' || c == '\'' then Quoted(c)
    else if c == '`' then Template
    else if c == '/' && Ahead(source, i, '/') then LineComment
    else if c == '/' && Ahead(source, i, '*') then BlockOpen
    else if c == '/' && StartsRegex(source, i) then Regex(false)
    else Code
  }

  /** The state after character `i`. */
  function Next(source: string, i: nat, s: Lex): Lex
    requires i < |source|
  {
    var c := source[i];
    match s.mode
    case Code =>
      if c == '{' then s.(depth := s.depth + 1)
      else if c == '}' then
        if s.templates != [] && s.depth - 1 == s.templates[|s.templates| - 1] then
          Lex(Template, s.depth - 1, s.templates[..|s.templates| - 1])
        else s.(depth := s.depth - 1)
      else s.(mode := AfterCode(source, i))
    case Quoted(q) => s.(mode := if c == q || c == '\n' then Code else if c == '\\' then Escaped(s.mode) else s.mode)
    case Template =>
      s.(mode := if c == '\\' then Escaped(Template)
                 else if c == '`' then Code
                 else if c == '$' && Ahead(source, i, '{') then Hole
                 else Template)
    case Hole => Lex(Code, s.depth + 1, s.templates + [s.depth])
    case LineComment => s.(mode := if Ahead(source, i, '\n') then Code else LineComment)
    case BlockOpen => s.(mode := Block)
    case Block => s.(mode := if c == '*' && Ahead(source, i, '/') then BlockClose else Block)
    case BlockClose => s.(mode := Code)
    case Regex(inClass) =>
      s.(mode := if c == '\n' then Code
                 else if c == '\\' then Escaped(s.mode)
                 else if c == '[' then Regex(true)
                 else if c == ']' then Regex(false)
                 else if c == '/' && !inClass then Code
                 else s.mode)
    case Escaped(inside) => s.(mode := inside)
  }

  /** The state before character `i`. */
  function LexAt(source: string, i: nat): Lex
    requires i <= |source|
  {
    if i == 0 then Lex(Code, 0, []) else Next(source, i - 1, LexAt(source, i - 1))
  }

  /** Whether character `i` is code, a delimiter or a line's end. */
  predicate Visible(source: string, i: nat)
    requires i < |source|
  {
    var c := source[i];
    match LexAt(source, i).mode
    case Code => !(c == '/' && (Ahead(source, i, '/') || Ahead(source, i, '*')))
    case Quoted(q) => c == q || c == '\n'
    case Template => c == '`' || (c == '$' && Ahead(source, i, '{'))
    case Hole => true
    case Regex(inClass) => c == '\n' || (c == '/' && !inClass)
    case _ => false
  }

  function MaskedAt(source: string, i: nat): char
    requires i < |source|
  {
    if Visible(source, i) || source[i] == '\n' then source[i] else ' '
  }

  /** `source` with what is not code blanked, up to `upTo`. */
  function MaskedTo(source: string, upTo: nat): string {
    seq(|source|, k requires 0 <= k < |source| => if k < upTo then MaskedAt(source, k) else source[k])
  }

  function Masked(source: string): string {
    MaskedTo(source, |source|)
  }

  /** The source ends inside a string or a regular expression, on a backslash that escapes nothing. */
  predicate EndsEscaping(source: string) {
    var m := LexAt(source, |source|).mode;
    m.Escaped? && (m.inside.Quoted? || m.inside.Regex?)
  }

  // ---------- the scanner ----------

  class Scanner {
    const source: string
    var out: string
    var i: nat
    var depth: int
    var templates: seq<int>

    constructor (source: string)
      ensures this.source == source && out == source && i == 0 && depth == 0 && templates == []
    {
      this.source, out, i, depth, templates := source, source, 0, 0, [];
    }

    /** Everything before `from` is masked, and the scanner stands at `i` in `mode`. */
    ghost predicate Scanned(from: nat, mode: Mode)
      reads this
    {
      && from <= i <= |source| && out == MaskedTo(source, from)
      && LexAt(source, i) == Lex(mode, depth, templates)
      && forall k :: from <= k < i ==> !Visible(source, k)
    }

    /** The whole source is masked; an escape at its end left a space behind it. */
    ghost predicate Done()
      reads this
    {
      i >= |source| && out == Masked(source) + if EndsEscaping(source) then " " else ""
    }

    ghost predicate Ready()
      reads this
    {
      Scanned(i, Code) || Done()
    }

    /** Writes past the end make the output longer, as they do in a JavaScript array. */
    method Blank(from: nat, to: nat)
      requires from <= to <= |out| + 1 && from <= |out|
      modifies `out
      ensures out == Blanked(old(out), from, to)
    {
      var s := out;
      for k := from to to
        invariant |s| == if k > |out| then k else |out|
        invariant s == Blanked(out, from, k)
      {
        if k == |s| { s := s + " "; } else if s[k] != '\n' { s := s[k := ' ']; }
      }
      out := s;
    }

    /** Moves past a visible character. */
    method Pass(mode: Mode)
      requires Scanned(i, mode) && i < |source| && Visible(source, i)
      requires Next(source, i, LexAt(source, i)).depth == depth && Next(source, i, LexAt(source, i)).templates == templates
      modifies `i
      ensures i == old(i) + 1 && Scanned(i, Next(source, i - 1, LexAt(source, i - 1)).mode)
    {
      hide Visible, Next;
      PassVisible(source, i);
      i := i + 1;
    }

    /** Blanks the hidden characters of a token. */
    method Flush(from: nat, mode: Mode)
      requires Scanned(from, mode)
      modifies `out
      ensures Scanned(i, mode)
    {
      hide Visible, Next;
      Blank(from, i);
    }

    /** Blanks to the end of the source and one past it. */
    method FlushPastEnd(from: nat)
      requires from <= |source| && out == MaskedTo(source, from) && i == |source| + 1 && EndsEscaping(source)
      requires forall k :: from <= k < |source| ==> !Visible(source, k)
      modifies `out
      ensures Done()
    {
      hide Visible, Next, EndsEscaping;
      Blank(from, |source| + 1);
    }

    /** The source ended inside a string or a regular expression. */
    method Finish(start: nat, mode: Mode)
      requires i >= |source| && (Scanned(start, mode) || Overshot(start, mode)) && (mode.Quoted? || mode.Regex?)
      modifies `i, `out
      ensures Done() && i == old(i) + 1
    {
      if i == |source| { Flush(start, mode); } else { FlushPastEnd(start); }
      i := i + 1;
    }

    method ScanQuoted(q: char)
      requires Scanned(i, Code) && i < |source| && source[i] == q && (q == '"' || q == '\'')
      modifies `i, `out
      ensures Ready() && i > old(i)
    {
      Pass(Code);
      var start := i;
      while i < |source| && source[i] != q && source[i] != '\n'
        invariant start <= |source| && out == MaskedTo(source, start)
        invariant Scanned(start, Quoted(q)) || Overshot(start, Quoted(q))
      {
        Skip(start, Quoted(q));
      }
      if i < |source| {
        Flush(start, Quoted(q));
        Pass(Quoted(q));
      } else {
        Finish(start, Quoted(q));
      }
    }

    /** An escape took the scanner past the end. */
    ghost predicate Overshot(from: nat, mode: Mode)
      reads this
    {
      && from <= |source| && i == |source| + 1 && out == MaskedTo(source, from)
      && LexAt(source, |source|).mode == Escaped(mode)
      && forall k :: from <= k < |source| ==> !Visible(source, k)
    }

    /** Moves past a hidden character of a token, and past what it escapes. */
    method Skip(start: nat, mode: Mode)
      requires Scanned(start, mode) && i < |source| && !Visible(source, i) && (mode.Quoted? || mode.Regex? || mode.Template?)
      modifies `i
      ensures i > old(i)
      ensures i <= |source| ==> Scanned(start, if source[old(i)] == '\\' then mode else Next(source, old(i), LexAt(source, old(i))).mode)
      ensures i > |source| ==> Overshot(start, mode) && source[old(i)] == '\\'
    {
      hide Next, Visible;
      if source[i] == '\\' { Escapes(source, i); }
      OpensNothing(source, i);
      i := i + if source[i] == '\\' then 2 else 1;
    }

    /** A character of a regular expression; a slash in brackets does not end it. */
    method SkipRegex(start: nat, inClass: bool) returns (now: bool)
      requires Scanned(start, Regex(inClass)) && i < |source|
      requires source[i] != '\n' && (source[i] == '/' ==> inClass)
      modifies `i
      ensures i > old(i) && (Scanned(start, Regex(now)) || Overshot(start, Regex(now)))
    {
      var r := source[i];
      now := if r == '[' then true else if r == ']' then false else inClass;
      assert Next(source, i, LexAt(source, i)).mode == if r == '\\' then Escaped(Regex(inClass)) else Regex(now);
      hide Visible, Next;
      Skip(start, Regex(inClass));
    }

    method ScanRegex()
      requires Scanned(i, Code) && i < |source| && AfterCode(source, i) == Regex(false)
      modifies `i, `out
      ensures Ready() && i > old(i)
    {
      hide StartsRegex;
      Pass(Code);
      var start := i;
      var inClass := false;
      while i < |source| && source[i] != '\n' && (source[i] != '/' || inClass)
        invariant start <= |source| && i >= start && out == MaskedTo(source, start)
        invariant Scanned(start, Regex(inClass)) || Overshot(start, Regex(inClass))
      {
        inClass := SkipRegex(start, inClass);
      }
      CloseRegex(start, inClass);
    }

    method CloseRegex(start: nat, inClass: bool)
      requires Scanned(start, Regex(inClass)) || Overshot(start, Regex(inClass))
      requires i < |source| ==> source[i] == '\n' || (source[i] == '/' && !inClass)
      modifies `i, `out
      ensures Ready() && i > old(i)
    {
      if i < |source| {
        Flush(start, Regex(inClass));
        Pass(Regex(inClass));
      } else {
        Finish(start, Regex(inClass));
      }
    }

    /** Called with the automaton in `Template`; leaves it in `Code`, or at the end of the source. */
    method ScanTemplate()
      requires Scanned(i, Template)
      modifies `i, `out, `depth, `templates
      ensures Ready() && i >= old(i)
    {
      var start := i;
      while i < |source|
        invariant start <= |source| && out == MaskedTo(source, start)
        invariant Scanned(start, Template) || Overshot(start, Template)
      {
        var c := source[i];
        if c == '\\' {
          Skip(start, Template);
        } else if c == '`' {
          Flush(start, Template);
          Pass(Template);
          return;
        } else if c == '$' && Ahead(source, i, '{') {
          Flush(start, Template);
          OpenHole();
          return;
        } else {
          Skip(start, Template);
        }
      }
      EndTemplate(start);
    }

    method OpenHole()
      requires Scanned(i, Template) && i + 1 < |source| && source[i] == '$' && source[i + 1] == '{'
      modifies `i, `depth, `templates
      ensures Scanned(i, Code) && i == old(i) + 2
    {
      Pass(Template);
      PassVisible(source, i);
      templates := templates + [depth];
      depth := depth + 1;
      i := i + 1;
    }

    method EndTemplate(start: nat)
      requires i >= |source| && (Scanned(start, Template) || Overshot(start, Template))
      modifies `out
      ensures Done()
    {
      hide Visible;
      Blank(start, |source|);
    }

    method ScanLineComment()
      requires Scanned(i, Code) && i < |source| && source[i] == '/' && Ahead(source, i, '/')
      modifies `i, `out
      ensures Ready() && i > old(i)
    {
      var stop := i;
      while stop < |source| && source[stop] != '\n'
        invariant i <= stop <= |source|
        invariant forall k :: i <= k < stop ==> source[k] != '\n'
      {
        stop := stop + 1;
      }
      InLineComment(source, i, stop);
      Blank(i, stop);
      i := stop;
    }

    method ScanBlockComment()
      requires Scanned(i, Code) && i < |source| && source[i] == '/' && Ahead(source, i, '*')
      modifies `i, `out
      ensures Ready() && i > old(i)
    {
      hide Next, Visible;
      var end := i + 2;
      while end < |source| && !(source[end] == '*' && Ahead(source, end, '/'))
        invariant i + 2 <= end <= |source|
        invariant forall k :: i + 2 <= k < end ==> !(source[k] == '*' && Ahead(source, k, '/'))
      {
        end := end + 1;
      }
      var stop := if end < |source| then end + 2 else |source|;
      BlockCommentEnds(source, i, end, stop);
      Blank(i, stop);
      i := stop;
    }

    method CloseBrace()
      requires Scanned(i, Code) && i < |source| && source[i] == '}'
      modifies `i, `out, `depth, `templates
      ensures Ready() && i > old(i)
    {
      PassVisible(source, i);
      depth := depth - 1;
      i := i + 1;
      if templates != [] && depth == templates[|templates| - 1] {
        templates := templates[..|templates| - 1];
        ScanTemplate();
      }
    }

    method OpenBrace()
      requires Scanned(i, Code) && i < |source| && source[i] == '{'
      modifies `i, `depth
      ensures Scanned(i, Code) && i > old(i)
    {
      PassVisible(source, i);
      depth := depth + 1;
      i := i + 1;
    }

    /** One token. */
    method ScanToken()
      requires Scanned(i, Code) && i < |source|
      modifies `i, `out, `depth, `templates
      ensures Ready() && i > old(i)
    {
      var c := source[i];
      if c == '"' || c == '\'' {
        ScanQuoted(c);
      } else if c == '`' {
        Pass(Code);
        ScanTemplate();
      } else if c == '/' && Ahead(source, i, '/') {
        ScanLineComment();
      } else if c == '/' && Ahead(source, i, '*') {
        ScanBlockComment();
      } else if c == '/' && StartsRegex(source, i) {
        ScanRegex();
      } else if c == '{' {
        OpenBrace();
      } else if c == '}' {
        CloseBrace();
      } else {
        Pass(Code);
      }
    }

    method Scan()
      requires i == 0 && out == source && depth == 0 && templates == []
      modifies `i, `out, `depth, `templates
      ensures out == Masked(source) + if EndsEscaping(source) then " " else ""
    {
      assert MaskedTo(source, 0) == source;
      while i < |source|
        invariant Ready()
      {
        ScanToken();
      }
    }
  }

  function Blanked(s: string, from: nat, to: nat): string {
    seq(if to > |s| && to > from then to else |s|, k requires 0 <= k =>
      if k >= |s| then ' ' else if from <= k < to && s[k] != '\n' then ' ' else s[k])
  }

  /** Inside a token no brace counts. */
  lemma OpensNothing(source: string, i: nat)
    requires i < |source|
    requires var m := LexAt(source, i).mode; m.Quoted? || m.Regex? || m.Template?
    ensures Next(source, i, LexAt(source, i)).depth == LexAt(source, i).depth
    ensures Next(source, i, LexAt(source, i)).templates == LexAt(source, i).templates
    ensures LexAt(source, i + 1) == Next(source, i, LexAt(source, i))
  {
  }

  /** A backslash hides what it escapes, and changes nothing after that. */
  lemma Escapes(source: string, i: nat)
    requires i < |source| && source[i] == '\\'
    requires var m := LexAt(source, i).mode; m.Quoted? || m.Regex? || m.Template?
    requires !Visible(source, i)
    ensures LexAt(source, i + 1) == LexAt(source, i).(mode := Escaped(LexAt(source, i).mode))
    ensures i + 1 < |source| ==> !Visible(source, i + 1) && LexAt(source, i + 2) == LexAt(source, i)
  {
  }

  /** A visible character leaves the mask as it is. */
  lemma PassVisible(source: string, i: nat)
    requires i < |source| && Visible(source, i)
    ensures MaskedTo(source, i + 1) == MaskedTo(source, i)
  {
  }

  /** A line comment runs to the end of its line. */
  lemma {:induction false} InLineComment(source: string, i: nat, k: nat)
    requires i < k <= |source| && LexAt(source, i).mode == Code && source[i] == '/' && Ahead(source, i, '/')
    requires forall j :: i <= j < k ==> source[j] != '\n'
    ensures LexAt(source, k) ==
      LexAt(source, i).(mode := if k < |source| && source[k] == '\n' then Code else LineComment)
    ensures forall j :: i <= j < k ==> !Visible(source, j)
  {
    if k > i + 1 { InLineComment(source, i, k - 1); }
  }

  /** A block comment runs to the first star and slash after its opening. */
  lemma {:induction false} InBlockComment(source: string, i: nat, k: nat)
    requires i + 2 <= k <= |source| && LexAt(source, i).mode == Code && source[i] == '/' && source[i + 1] == '*'
    requires forall j :: i + 2 <= j < k ==> !(source[j] == '*' && Ahead(source, j, '/'))
    ensures LexAt(source, k) == LexAt(source, i).(mode := Block)
    ensures forall j :: i <= j < k ==> !Visible(source, j)
  {
    if k > i + 2 {
      InBlockComment(source, i, k - 1);
    } else {
      assert LexAt(source, i + 1) == LexAt(source, i).(mode := BlockOpen);
    }
  }

  lemma BlockCommentEnds(source: string, i: nat, end: nat, stop: nat)
    requires i + 2 <= end <= |source| && LexAt(source, i).mode == Code && source[i] == '/' && source[i + 1] == '*'
    requires forall j :: i + 2 <= j < end ==> !(source[j] == '*' && Ahead(source, j, '/'))
    requires if end < |source| then stop == end + 2 && source[end] == '*' && Ahead(source, end, '/') else stop == end
    ensures stop <= |source| && LexAt(source, stop) == LexAt(source, i).(mode := if end < |source| then Code else Block)
    ensures forall j :: i <= j < stop ==> !Visible(source, j)
  {
    hide Visible, Next, LexAt, Ahead;
    InBlockComment(source, i, end);
    if end < |source| { BlockCloses(source, end); }
  }

  lemma BlockCloses(source: string, end: nat)
    requires end < |source| && LexAt(source, end).mode == Block && source[end] == '*' && Ahead(source, end, '/')
    ensures end + 2 <= |source| && LexAt(source, end + 2) == LexAt(source, end).(mode := Code)
    ensures !Visible(source, end) && !Visible(source, end + 1)
  {
    assert LexAt(source, end + 1) == LexAt(source, end).(mode := BlockClose);
  }

  /** Open holes each started at a depth below the next one's, and all below the current depth. */
  ghost predicate Nested(s: Lex) {
    && (forall j, k :: 0 <= j < k < |s.templates| ==> s.templates[j] < s.templates[k])
    && (forall j :: 0 <= j < |s.templates| ==> s.templates[j] < s.depth)
  }

  /** A closing brace closes at most the innermost hole. */
  lemma {:induction false} HolesNest(source: string, i: nat)
    requires i <= |source|
    ensures Nested(LexAt(source, i))
  {
    if i > 0 {
      HolesNest(source, i - 1);
    }
  }

  // ---------- what the mask keeps ----------

  method MaskCode(source: string) returns (masked: string)
    ensures masked == Masked(source) + if EndsEscaping(source) then " " else ""
  {
    var scanner := new Scanner(source);
    scanner.Scan();
    masked := scanner.out;
  }

  /** Line ends stay where they are, and nothing changes but into a space. */
  lemma OnlyBlanks(source: string, k: nat)
    requires k < |source|
    ensures |Masked(source)| == |source|
    ensures Masked(source)[k] == '\n' <==> source[k] == '\n'
    ensures Masked(source)[k] == source[k] || Masked(source)[k] == ' '
  {
  }

  /** The mask is a space too long exactly when a string or regular expression ends in a stray backslash. */
  lemma EndsEscapingInBackslash(source: string)
    ensures EndsEscaping(source) ==> |source| > 0 && source[|source| - 1] == '\\'
  {
    if EndsEscaping(source) { EscapedByBackslash(source, |source|); }
  }

  lemma {:induction false} EscapedByBackslash(source: string, i: nat)
    requires i <= |source| && LexAt(source, i).mode.Escaped?
    ensures i > 0 && source[i - 1] == '\\' && !LexAt(source, i).mode.inside.Escaped?
  {
    if LexAt(source, i - 1).mode.Escaped? { EscapedByBackslash(source, i - 1); }
  }

  lemma TooLong()
    ensures EndsEscaping("'\\") && !EndsEscaping("`\\") && !EndsEscaping("\\")
  {
    assert LexAt("'\\", 1).mode == Quoted('\'');
    assert LexAt("`\\", 1).mode == Template;
  }

  /** The number of the line a character is on. */
  function LineOf(text: string, at: nat): nat
    requires at <= |text|
  {
    if at == 0 then 1 else LineOf(text, at - 1) + if text[at - 1] == '\n' then 1 else 0
  }

  /** A finding's line in the mask is its line in the source. */
  lemma {:induction false} SameLine(source: string, tail: string, at: nat)
    requires at <= |source|
    ensures LineOf(Masked(source) + tail, at) == LineOf(source, at)
  {
    if at > 0 {
      SameLine(source, tail, at - 1);
      OnlyBlanks(source, at - 1);
    }
  }
}
