// Tokens and the lexer (src/compiler/lexer.h, src/compiler/lexer.cpp).
module Tokens {
  import opened Wrappers

  datatype TokenType =
    | VAR | ARRAY | INT | FLOAT | BOOL | CHAR6 | PRINT | IMPORT | IF | ELSE | WHILE | FUNC | RET
    | NUMBER | IDENT
    | PLUS | MINUS | STAR | SLASH
    | EQ | EQEQ | GREATER | LOWER | GREATER_EQ | LOWER_EQ | NOT_EQ
    | DOUBLE_AND | DOUBLE_VBAR | COLON | COMMA | DOUBLECOLON | SEMICOLON | NOT
    | L_PAREN | R_PAREN | L_SQR_BRKT | R_SQR_BRKT | L_CURL_BRKT | R_CURL_BRKT | ARR_RIGHT
    | UNKNOWN | END_OF_FILE

  datatype Token = Token(kind: TokenType, content: string)

  // ---------- character classes ----------

  const NUL: char := '\0'

  predicate IsSpace(c: char) {
    c == ' ' || '\t' <= c <= '\r'
  }

  predicate IsAlpha(c: char) {
    'a' <= c <= 'z' || 'A' <= c <= 'Z'
  }

  predicate IsDigit(c: char) {
    '0' <= c <= '9'
  }

  predicate IsAlnum(c: char) {
    IsAlpha(c) || IsDigit(c)
  }

  predicate InComment(c: char) {
    c != '\n' && c != NUL
  }

  // The character classification functions are undefined on negative chars.
  type Ascii = s: string | forall k :: 0 <= k < |s| ==> s[k] < 128 as char

  // ---------- lexemes ----------

  function WordKind(word: string): TokenType {
    if word == "int" then INT
    else if word == "double" then FLOAT
    else if word == "boolean" then BOOL
    else if word == "char6" then CHAR6
    else if word == "var" then VAR
    else if word == "array" then ARRAY
    else if word == "print" then PRINT
    else if word == "if" then IF
    else if word == "else" then ELSE
    else if word == "while" then WHILE
    else if word == "func" then FUNC
    else if word == "return" then RET
    else IDENT
  }

  function OneKind(c: char): TokenType {
    match c
    case '-' => MINUS
    case '=' => EQ
    case ':' => COLON
    case '!' => NOT
    case '<' => LOWER
    case '>' => GREATER
    case '+' => PLUS
    case '*' => STAR
    case '/' => SLASH
    case ',' => COMMA
    case '(' => L_PAREN
    case ')' => R_PAREN
    case ';' => SEMICOLON
    case '[' => L_SQR_BRKT
    case ']' => R_SQR_BRKT
    case '{' => L_CURL_BRKT
    case '}' => R_CURL_BRKT
    case _ => UNKNOWN
  }

  function TwoKind(c: char, d: char): TokenType {
    if c == '-' && d == '>' then ARR_RIGHT
    else if c == '=' && d == '=' then EQEQ
    else if c == ':' && d == ':' then DOUBLECOLON
    else if c == '!' && d == '=' then NOT_EQ
    else if c == '&' && d == '&' then DOUBLE_AND
    else if c == '|' && d == '|' then DOUBLE_VBAR
    else if c == '<' && d == '=' then LOWER_EQ
    else if c == '>' && d == '=' then GREATER_EQ
    else UNKNOWN
  }

  predicate Word(t: string) {
    t != "" && IsAlpha(t[0]) && forall k :: 0 <= k < |t| ==> IsAlnum(t[k])
  }

  predicate Digits(t: string) {
    t != "" && forall k :: 0 <= k < |t| ==> IsDigit(t[k])
  }

  predicate Decimal(t: string) {
    exists k: nat {:trigger t[k]} :: k < |t| && t[k] == '.' && Digits(t[..k]) && Digits(t[k + 1..])
  }

  // Any other single character; a '#' starts a directive instead, a NUL ends the text.
  predicate Single(t: string) {
    |t| == 1 && !IsAlnum(t[0]) && !IsSpace(t[0]) && t[0] != '#' && t[0] != NUL
  }

  // What kind of token a text is, when it is one at all.
  function KindOf(t: string): Option<TokenType> {
    if Word(t) then Some(WordKind(t))
    else if Digits(t) || Decimal(t) then Some(NUMBER)
    else if Single(t) then Some(OneKind(t[0]))
    else if |t| == 2 && TwoKind(t[0], t[1]) != UNKNOWN then Some(TwoKind(t[0], t[1]))
    else None
  }

  // How a symbol is written.
  function Spelling(k: TokenType): string {
    match k
    case PLUS => "+" case MINUS => "-" case STAR => "*" case SLASH => "/"
    case EQ => "=" case EQEQ => "==" case GREATER => ">" case LOWER => "<"
    case GREATER_EQ => ">=" case LOWER_EQ => "<=" case NOT_EQ => "!="
    case DOUBLE_AND => "&&" case DOUBLE_VBAR => "||"
    case COLON => ":" case COMMA => "," case DOUBLECOLON => "::" case SEMICOLON => ";" case NOT => "!"
    case L_PAREN => "(" case R_PAREN => ")" case L_SQR_BRKT => "[" case R_SQR_BRKT => "]"
    case L_CURL_BRKT => "{" case R_CURL_BRKT => "}" case ARR_RIGHT => "->"
    case INT => "int" case FLOAT => "double" case BOOL => "boolean" case CHAR6 => "char6"
    case VAR => "var" case ARRAY => "array" case PRINT => "print" case IF => "if" case ELSE => "else"
    case WHILE => "while" case FUNC => "func" case RET => "return"
    case IMPORT => "" case NUMBER => "" case IDENT => "" case UNKNOWN => "" case END_OF_FILE => ""
  }

  // Every symbol and keyword is lexed back from its own spelling.
  lemma {:induction false} SpellingIsLexeme(k: TokenType)
    requires Spelling(k) != ""
    ensures KindOf(Spelling(k)) == Some(k)
  {
    hide KindOf, Spelling, OneKind, TwoKind;
    var t := Spelling(k);
    if IsAlpha(t[0]) {
      WordSpelling(k);
    } else {
      SymbolSpelling(k);
      SymbolLexeme(t);
    }
  }

  // The character classes are those of the C locale.
  lemma {:induction false} CharClasses(c: char)
    ensures IsSpace(c) <==> c as int == 32 || 9 <= c as int <= 13
    ensures IsAlpha(c) <==> 65 <= c as int <= 90 || 97 <= c as int <= 122
    ensures IsDigit(c) <==> 48 <= c as int <= 57
    ensures IsAlnum(c) <==> 48 <= c as int <= 57 || 65 <= c as int <= 90 || 97 <= c as int <= 122
    ensures InComment(c) <==> c as int != 10 && c as int != 0
  {
  }

  // And from nothing else: a text of a symbol's or keyword's kind is its spelling.
  lemma {:induction false} OnlySpelling(t: string, k: TokenType)
    requires KindOf(t) == Some(k) && k != IDENT && k != NUMBER && k != UNKNOWN
    ensures t != "" && Spelling(k) == t
  {
    assert t != "";
    hide Word, Digits, Decimal, Single, WordKind, OneKind, TwoKind, Spelling;
    if Word(t) {
      SpelledWord(t);
    } else if |t| == 1 {
      SpelledOne(t[0]);
      assert t == [t[0]];
    } else {
      SpelledTwo(t[0], t[1]);
      assert t == [t[0], t[1]];
    }
  }

  lemma {:induction false} SpelledWord(t: string)
    ensures WordKind(t) != IDENT ==> Spelling(WordKind(t)) == t
    ensures WordKind(t) != NUMBER && WordKind(t) != UNKNOWN
  {
    hide WordKind, Spelling;
    KeywordText(t);
    KeywordSpelling(WordKind(t));
  }

  lemma {:induction false} KeywordText(t: string)
    ensures match WordKind(t)
            case INT => t == "int" case FLOAT => t == "double" case BOOL => t == "boolean" case CHAR6 => t == "char6"
            case VAR => t == "var" case ARRAY => t == "array" case PRINT => t == "print" case IF => t == "if"
            case ELSE => t == "else" case WHILE => t == "while" case FUNC => t == "func" case RET => t == "return"
            case k => k == IDENT
  {
  }

  lemma {:induction false} KeywordSpelling(k: TokenType)
    ensures match k
            case INT => Spelling(k) == "int" case FLOAT => Spelling(k) == "double"
            case BOOL => Spelling(k) == "boolean" case CHAR6 => Spelling(k) == "char6"
            case VAR => Spelling(k) == "var" case ARRAY => Spelling(k) == "array"
            case PRINT => Spelling(k) == "print" case IF => Spelling(k) == "if"
            case ELSE => Spelling(k) == "else" case WHILE => Spelling(k) == "while"
            case FUNC => Spelling(k) == "func" case RET => Spelling(k) == "return"
            case _ => true
  {
  }

  lemma {:induction false} SpelledOne(c: char)
    ensures OneKind(c) != UNKNOWN ==> Spelling(OneKind(c)) == [c]
  {
  }

  lemma {:induction false} SpelledTwo(c: char, d: char)
    ensures TwoKind(c, d) != UNKNOWN ==> Spelling(TwoKind(c, d)) == [c, d]
  {
  }

  // A word that is no spelling is an identifier, another single character that is none unknown.
  lemma {:induction false} Unspelled(t: string)
    requires forall k :: Spelling(k) != t
    ensures KindOf(t).Some? ==> KindOf(t).value == IDENT || KindOf(t).value == NUMBER || KindOf(t).value == UNKNOWN
    ensures Word(t) ==> KindOf(t) == Some(IDENT)
    ensures Single(t) ==> KindOf(t) == Some(UNKNOWN)
  {
    hide Spelling, KindOf, WordKind, OneKind, Digits, Decimal, Single;
    if KindOf(t).Some? {
      var k := KindOf(t).value;
      if k != IDENT && k != NUMBER && k != UNKNOWN {
        OnlySpelling(t, k);
      }
    }
    if Word(t) {
      SpelledWord(t);
      WordLexeme(t);
    }
    if Single(t) {
      SingleStart(t);
      SpelledOne(t[0]);
      SymbolLexeme(t);
      assert t == [t[0]];
    }
  }

  lemma {:induction false} SingleStart(t: string)
    requires Single(t)
    ensures |t| == 1 && !IsAlnum(t[0])
  {
  }

  // Numbers are digits, with or without a fraction, and nothing else.
  lemma {:induction false} OnlyNumbers(t: string)
    ensures KindOf(t) == Some(NUMBER) <==> Digits(t) || Decimal(t)
  {
    hide WordKind, OneKind, TwoKind;
    if Word(t) {
      SpelledWord(t);
    }
    if Decimal(t) {
      DecimalStart(t);
    }
    if |t| == 1 {
      SpelledOne(t[0]);
      OneNoNumber(t[0]);
    } else if |t| == 2 {
      TwoNoNumber(t[0], t[1]);
    }
  }

  lemma {:induction false} OneNoNumber(c: char)
    ensures OneKind(c) != NUMBER
  {
  }

  lemma {:induction false} TwoNoNumber(c: char, d: char)
    ensures TwoKind(c, d) != NUMBER
  {
  }

  // What is no word is a single character or two.
  lemma {:induction false} SymbolSpelling(k: TokenType)
    requires Spelling(k) != "" && !IsAlpha(Spelling(k)[0])
    ensures var t := Spelling(k);
            !IsAlnum(t[0]) && k != UNKNOWN &&
            if |t| == 1 then Single(t) && OneKind(t[0]) == k else |t| == 2 && TwoKind(t[0], t[1]) == k
  {
  }

  lemma {:induction false} WordSpelling(k: TokenType)
    requires Spelling(k) != "" && IsAlpha(Spelling(k)[0])
    ensures KindOf(Spelling(k)) == Some(k)
  {
    hide WordKind, KindOf, Word, Spelling;
    WordLexeme(Spelling(k));
    Keywords(k);
    if k == INT || k == VAR || k == IF || k == ELSE || k == FUNC {
      ShortWord(k);
    } else if k == ARRAY || k == PRINT || k == WHILE || k == CHAR6 {
      MiddleWord(k);
    } else {
      LongWord(k);
    }
  }

  lemma {:induction false} WordLexeme(t: string)
    requires t != ""
    ensures Word(t) ==> KindOf(t) == Some(WordKind(t))
  {
    hide Word, WordKind;
  }

  lemma {:induction false} Keywords(k: TokenType)
    requires Spelling(k) != "" && IsAlpha(Spelling(k)[0])
    ensures k == INT || k == VAR || k == IF || k == ELSE || k == FUNC || k == ARRAY || k == PRINT || k == WHILE ||
            k == CHAR6 || k == FLOAT || k == BOOL || k == RET
  {
  }

  lemma {:induction false} ShortWord(k: TokenType)
    requires k == INT || k == VAR || k == IF || k == ELSE || k == FUNC
    ensures Word(Spelling(k)) && WordKind(Spelling(k)) == k
  {
  }

  lemma {:induction false} MiddleWord(k: TokenType)
    requires k == ARRAY || k == PRINT || k == WHILE || k == CHAR6
    ensures Word(Spelling(k)) && WordKind(Spelling(k)) == k
  {
  }

  lemma {:induction false} LongWord(k: TokenType)
    requires k == FLOAT || k == BOOL || k == RET
    ensures Word(Spelling(k)) && WordKind(Spelling(k)) == k
  {
  }

  // A known symbol has its spelling as content; an unknown one is a single character that no token
  // is spelled with.
  ghost predicate SymbolSpelled(t: Token) {
    if t.kind == UNKNOWN then |t.content| == 1 && forall k :: Spelling(k) != t.content
    else t.content == Spelling(t.kind)
  }

  lemma {:induction false} SymbolsSpelled(c: char, d: char)
    ensures if TwoKind(c, d) != UNKNOWN then SymbolSpelled(Token(TwoKind(c, d), [c, d]))
            else SymbolSpelled(Token(OneKind(c), [c]))
  {
    hide OneKind, TwoKind, Spelling;
    SpelledOne(c);
    SpelledTwo(c, d);
    forall k ensures OneKind(c) == UNKNOWN ==> Spelling(k) != [c] {
      OneUnspelled(c, k);
    }
  }

  lemma {:induction false} OneUnspelled(c: char, k: TokenType)
    ensures OneKind(c) == UNKNOWN ==> Spelling(k) != [c]
  {
    hide OneKind, Spelling;
    if Spelling(k) == [c] {
      if IsAlpha(c) {
        Keywords(k);
        KeywordSpelling(k);
      } else {
        SymbolSpelling(k);
      }
    }
  }

  lemma {:induction false} DecimalStart(t: string)
    requires Decimal(t)
    ensures t != "" && IsDigit(t[0])
  {
    var k: nat :| k < |t| && t[k] == '.' && Digits(t[..k]) && Digits(t[k + 1..]);
    assert IsDigit(t[..k][0]);
  }

  lemma {:induction false} SymbolLexeme(t: string)
    requires t != "" && !IsAlnum(t[0])
    ensures Single(t) ==> KindOf(t) == Some(OneKind(t[0]))
    ensures |t| == 2 && TwoKind(t[0], t[1]) != UNKNOWN ==> KindOf(t) == Some(TwoKind(t[0], t[1]))
  {
    if Decimal(t) {
      DecimalStart(t);
    }
  }
}

module Lexing {
  import opened Wrappers
  import opened Tokens

  // ---------- the specification: positions in the text ----------

  function Peek(src: string, p: nat): char {
    if p < |src| then src[p] else NUL
  }

  // Where the run of characters of one class starting at p ends.
  function RunEnd(src: string, p: nat, f: char -> bool): (q: nat)
    requires p <= |src|
    ensures p <= q <= |src|
    ensures forall k :: p <= k < q ==> f(src[k])
    ensures q < |src| ==> !f(src[q])
    decreases |src| - p
  {
    if p < |src| && f(src[p]) then RunEnd(src, p + 1, f) else p
  }

  predicate CommentAt(src: string, p: nat) {
    p + 1 < |src| && src[p] == '/' && src[p + 1] == '/'
  }

  // Past whitespace and comments.
  function SkipBlank(src: string, p: nat): (q: nat)
    requires p <= |src|
    ensures p <= q <= |src|
    ensures q < |src| ==> !IsSpace(src[q]) && !CommentAt(src, q)
    decreases |src| - p
  {
    var a := RunEnd(src, p, IsSpace);
    if CommentAt(src, a) then
      var b := RunEnd(src, a, InComment);
      SkipBlank(src, b)
    else a
  }

  lemma {:induction false} BlankStep(src: string, p: nat)
    requires p <= |src|
    ensures var a := RunEnd(src, p, IsSpace);
            var b := RunEnd(src, a, InComment);
            SkipBlank(src, p) == (if CommentAt(src, a) then SkipBlank(src, b) else a) && (CommentAt(src, a) ==> a < b)
    ensures !IsSpace(NUL) && !InComment(NUL)
  {
  }

  // Undefined: a directive other than #import has no token type.
  datatype Scan = Scanned(token: Token, next: nat) | Undefined

  function NumberEnd(src: string, p: nat): (q: nat)
    requires p <= |src|
    ensures p <= q <= |src|
  {
    var a := RunEnd(src, p, IsDigit);
    if Peek(src, a) == '.' && a + 1 < |src| && IsDigit(src[a + 1]) then RunEnd(src, a + 1, IsDigit) else a
  }

  function Directive(src: string, p: nat): (r: Scan)
    requires p < |src|
    ensures r.Scanned? ==> p < r.next <= |src|
  {
    var a := RunEnd(src, p + 1, IsAlpha);
    var b := SkipBlank(src, a);
    var c := RunEnd(src, b, IsAlpha);
    if src[p + 1..a] == "import" then Scanned(Token(IMPORT, src[b..c]), c) else Undefined
  }

  // The token starting at p, where neither whitespace nor a comment starts.
  function TokenAt(src: string, p: nat): (r: Scan)
    requires p < |src|
    ensures r.Scanned? ==> p <= r.next <= |src|
    ensures r.Scanned? ==> r.token.kind != END_OF_FILE ==> p < r.next
  {
    var c := src[p];
    if c == NUL then Scanned(Token(END_OF_FILE, ""), p)
    else if IsAlpha(c) then
      var q := RunEnd(src, p, IsAlnum);
      Scanned(Token(WordKind(src[p..q]), src[p..q]), q)
    else if IsDigit(c) then
      var q := NumberEnd(src, p);
      Scanned(Token(NUMBER, src[p..q]), q)
    else if c == '#' then Directive(src, p)
    else if TwoKind(c, Peek(src, p + 1)) != UNKNOWN then Scanned(Token(TwoKind(c, src[p + 1]), src[p..p + 2]), p + 2)
    else Scanned(Token(OneKind(c), [c]), p + 1)
  }

  function NextToken(src: string, p: nat): (r: Scan)
    requires p <= |src|
    ensures r.Scanned? ==> p <= r.next <= |src|
    ensures r.Scanned? ==> r.token.kind != END_OF_FILE ==> p < r.next
  {
    var q := SkipBlank(src, p);
    if q == |src| then Scanned(Token(END_OF_FILE, ""), q) else TokenAt(src, q)
  }

  // None when some directive leaves a token without a type.
  function TokensFrom(src: string, p: nat): Option<seq<Token>>
    requires p <= |src|
    decreases |src| - p
  {
    var n := NextToken(src, p);
    if n.Undefined? then None
    else if n.token.kind == END_OF_FILE then Some([])
    else After([n.token], TokensFrom(src, n.next))
  }

  lemma {:induction false} NulIsNoSymbol(c: char)
    ensures TwoKind(c, NUL) == UNKNOWN
  {
  }

  function After(tokens: seq<Token>, rest: Option<seq<Token>>): Option<seq<Token>> {
    if rest.None? then None else Some(tokens + rest.value)
  }

  lemma {:induction false} AfterNothing(rest: Option<seq<Token>>)
    ensures After([], rest) == rest
  {
    if rest.Some? {
      assert [] + rest.value == rest.value;
    }
  }

  lemma {:induction false} AfterLast(tokens: seq<Token>)
    ensures After(tokens, Some([])) == Some(tokens)
  {
    assert tokens + [] == tokens;
  }

  lemma {:induction false} AfterOne(tokens: seq<Token>, t: Token, rest: Option<seq<Token>>)
    ensures After(tokens, After([t], rest)) == After(tokens + [t], rest)
  {
    if rest.Some? {
      assert tokens + ([t] + rest.value) == tokens + [t] + rest.value;
    }
  }

  function Tokenize(src: string): Option<seq<Token>> {
    TokensFrom(src, 0)
  }
}

module Lexer {
  import opened Wrappers
  import opened Tokens
  import opened Lexing

  class Source {
    const src: Ascii
    var pos: nat

    constructor (code: Ascii)
      ensures src == code && pos == 0
    {
      src := code;
      pos := 0;
    }

    function Current(): (c: char)
      reads this
      ensures c == Peek(src, pos)
    {
      if pos >= |src| then NUL else src[pos]
    }

    method Advance() returns (c: char)
      modifies `pos
      ensures c == Peek(src, old(pos)) && pos == old(pos) + 1
    {
      c := Current();
      pos := pos + 1;
    }

    // while (f(peek)) text += advance, for a class f that excludes NUL.
    method TakeWhile(f: char -> bool) returns (text: string)
      requires pos <= |src| && !f(NUL)
      modifies `pos
      ensures pos == RunEnd(src, old(pos), f) && text == src[old(pos)..pos]
    {
      text := "";
      while f(Current())
        invariant old(pos) <= pos <= |src| && text == src[old(pos)..pos]
        invariant RunEnd(src, pos, f) == RunEnd(src, old(pos), f)
        decreases |src| - pos
      {
        var c := Advance();
        text := text + [c];
      }
    }

    method SkipWhiteSpace()
      requires pos <= |src|
      modifies `pos
      ensures pos == SkipBlank(src, old(pos))
    {
      hide RunEnd, SkipBlank, IsSpace, InComment, Peek;
      while true
        invariant pos <= |src| && SkipBlank(src, pos) == SkipBlank(src, old(pos))
        decreases |src| - pos
      {
        BlankStep(src, pos);
        var _ := TakeWhile(IsSpace);
        if Current() == '/' && pos + 1 < |src| && src[pos + 1] == '/' {
          var _ := TakeWhile(InComment);
          continue;
        }
        break;
      }
    }

    method NextToken() returns (r: Option<Token>)
      requires pos <= |src|
      modifies `pos
      ensures var n := Lexing.NextToken(src, old(pos));
              if n.Scanned? then r == Some(n.token) && pos == n.next else r == None
    {
      hide RunEnd, SkipBlank, NumberEnd, Directive, WordKind, OneKind, TwoKind;
      SkipWhiteSpace();
      var c := Current();
      if c == NUL {
        return Some(Token(END_OF_FILE, ""));
      }
      if IsAlpha(c) {
        var word := TakeWhile(IsAlnum);
        return Some(Token(WordKind(word), word));
      }
      if IsDigit(c) {
        r := Number();
        return;
      }
      if c == '#' {
        r := DirectiveToken();
        return;
      }
      NulIsNoSymbol(c);
      ghost var at := pos;
      r := Symbol();
      assert at + 1 < |src| ==> src[at..at + 2] == [c, src[at + 1]];
    }

    method Number() returns (r: Option<Token>)
      requires pos <= |src|
      modifies `pos
      ensures pos == NumberEnd(src, old(pos)) && r == Some(Token(NUMBER, src[old(pos)..pos]))
    {
      var num := TakeWhile(IsDigit);
      if Current() == '.' && pos + 1 < |src| && IsDigit(src[pos + 1]) {
        ghost var a := pos;
        var dot := Advance();
        var fraction := TakeWhile(IsDigit);
        assert src[old(pos)..a] + [src[a]] + src[a + 1..pos] == src[old(pos)..pos];
        num := num + [dot] + fraction;
      }
      return Some(Token(NUMBER, num));
    }

    method DirectiveToken() returns (r: Option<Token>)
      requires pos < |src|
      modifies `pos
      ensures var n := Directive(src, old(pos));
              if n.Scanned? then r == Some(n.token) && pos == n.next else r == None
    {
      hide RunEnd, SkipBlank;
      var _ := Advance();
      var word := TakeWhile(IsAlpha);
      SkipWhiteSpace();
      var value := TakeWhile(IsAlpha);
      return if word == "import" then Some(Token(IMPORT, value)) else None;
    }

    method Symbol() returns (r: Option<Token>)
      requires pos < |src|
      modifies `pos
      ensures var c, d := src[old(pos)], Peek(src, old(pos) + 1);
              if TwoKind(c, d) != UNKNOWN then r == Some(Token(TwoKind(c, d), [c, d])) && pos == old(pos) + 2
              else r == Some(Token(OneKind(c), [c])) && pos == old(pos) + 1
      ensures r.Some? && SymbolSpelled(r.value)
    {
      SymbolsSpelled(src[pos], Peek(src, pos + 1));
      hide SymbolSpelled;
      var c := Advance();
      match c
      case '-' => r := OneOrTwo(c, '>', MINUS, ARR_RIGHT);
      case '=' => r := OneOrTwo(c, '=', EQ, EQEQ);
      case ':' => r := OneOrTwo(c, ':', COLON, DOUBLECOLON);
      case '!' => r := OneOrTwo(c, '=', NOT, NOT_EQ);
      case '&' => r := OneOrTwo(c, '&', UNKNOWN, DOUBLE_AND);
      case '|' => r := OneOrTwo(c, '|', UNKNOWN, DOUBLE_VBAR);
      case '<' => r := OneOrTwo(c, '=', LOWER, LOWER_EQ);
      case '>' => r := OneOrTwo(c, '=', GREATER, GREATER_EQ);
      case '+' => r := Some(Token(PLUS, "+"));
      case '*' => r := Some(Token(STAR, "*"));
      case '/' => r := Some(Token(SLASH, "/"));
      case ',' => r := Some(Token(COMMA, ","));
      case '(' => r := Some(Token(L_PAREN, "("));
      case ')' => r := Some(Token(R_PAREN, ")"));
      case ';' => r := Some(Token(SEMICOLON, ";"));
      case '[' => r := Some(Token(L_SQR_BRKT, "["));
      case ']' => r := Some(Token(R_SQR_BRKT, "]"));
      case '{' => r := Some(Token(L_CURL_BRKT, "{"));
      case '}' => r := Some(Token(R_CURL_BRKT, "}"));
      case _ => r := Some(Token(UNKNOWN, [c]));
    }

    // After c: its two-character token when `second` follows, its one-character token otherwise.
    method OneOrTwo(c: char, second: char, one: TokenType, two: TokenType) returns (r: Option<Token>)
      requires pos <= |src| && second != NUL
      modifies `pos
      ensures if Peek(src, old(pos)) == second then r == Some(Token(two, [c, second])) && pos == old(pos) + 1
              else r == Some(Token(one, [c])) && pos == old(pos)
    {
      if Current() == second {
        var _ := Advance();
        return Some(Token(two, [c, second]));
      }
      return Some(Token(one, [c]));
    }

    method Tokenize() returns (r: Option<seq<Token>>)
      requires pos == 0
      modifies `pos
      ensures r == Lexing.Tokenize(src)
    {
      hide Lexing.NextToken;
      var tokens: seq<Token> := [];
      AfterNothing(TokensFrom(src, 0));
      while true
        invariant pos <= |src|
        invariant Lexing.Tokenize(src) == After(tokens, TokensFrom(src, pos))
        decreases |src| - pos
      {
        ghost var before := pos;
        var t := NextToken();
        if t.None? {
          return None;
        }
        if t.value.kind == END_OF_FILE {
          assert TokensFrom(src, before) == Some([]);
          AfterLast(tokens);
          return Some(tokens);
        }
        AfterOne(tokens, t.value, TokensFrom(src, pos));
        tokens := tokens + [t.value];
      }
    }
  }
}
