// The compiler's front: source text to program tree (src/compiler/compiler.cpp).
module Compiler {
  import opened Wrappers
  import opened Tokens
  import opened Lexing
  import opened Lexemes
  import opened Ast
  import opened Parsing
  import opened Programs
  import opened Lexer
  import opened Parser

  // The text reads as blanks and longest lexemes, and the grammar derives the program from them.
  ghost predicate Means(code: string, program: seq<Stmt>) {
    exists starts, toks, its :: LaidOut(code, 0, starts, toks) && ItemsFit(its, toks, 0, program, |toks|, false)
  }

  lemma {:induction false} MeansParsed(code: string, toks: seq<Token>, program: seq<Stmt>)
    requires Plain(code) && Tokenize(code) == Some(toks)
    ensures ParseProgram(toks) == Done(program, |toks|) <==> Means(code, program)
  {
    hide LaidOut, ItemsFit, ParseFrom, TokensFrom, Plain;
    ProgramMeaning(toks, program);
    LexerMeaning(code, toks);
    if ParseProgram(toks) == Done(program, |toks|) {
      var starts :| LaidOut(code, 0, starts, toks);
      var its :| ItemsFit(its, toks, 0, program, |toks|, false);
      assert LaidOut(code, 0, starts, toks) && ItemsFit(its, toks, 0, program, |toks|, false);
    }
    if Means(code, program) {
      var starts, ts, its :| LaidOut(code, 0, starts, ts) && ItemsFit(its, ts, 0, program, |ts|, false);
      LaidOutIsLexed(code, 0, starts, ts);
      assert ItemsFit(its, toks, 0, program, |toks|, false);
    }
  }

  // None when the text holds a directive the lexer gives no type.
  method ParseSource(code: Ascii) returns (r: Option<Result<seq<Stmt>, ParseError>>)
    ensures r.None? <==> Tokenize(code).None?
    ensures Plain(code) ==> r.Some? && forall program :: r.value == Ok(program) <==> Means(code, program)
  {
    hide Tokenize, Means, Plain, Parsing.ParseProgram;
    var source := new Source(code);
    var tokens := source.Tokenize();
    if tokens.None? {
      PlainHasTokens(code);
      return None;
    }
    var parser := new TokenSource(tokens.value);
    var program := parser.ParseProgram();
    if Plain(code) {
      forall p ensures program == Ok(p) <==> Means(code, p) {
        ParsedAll(tokens.value);
        MeansParsed(code, tokens.value, p);
      }
    }
    return Some(program);
  }

  lemma {:induction false} PlainHasTokens(code: string)
    ensures Plain(code) ==> Tokenize(code).Some?
  {
    hide LaidOut, TokensFrom, Plain;
    if Plain(code) {
      var starts := LexedIsLaidOut(code, 0);
    }
  }

  lemma {:induction false} ParsedAll(toks: seq<Token>)
    ensures Parsing.ParseProgram(toks).Done? ==> Parsing.ParseProgram(toks).next == |toks|
  {
  }
}
