/**
 What the statement splitter takes for what, told from the side of the text
 (cmd/hm-db-migrate/main.go:166-289): SQL written as comments, quoted text, dollar quotes,
 plain characters and semicolons is cut at exactly those semicolons.
 */
module SqlTokens {
  import opened SqlSplitter
  import opened Wrappers

  /** A quoted text is written with its quotes doubled; a dollar quote has a name and a body. */
  datatype Token = Plain(c: char) | Semicolon | Comment(text: string) | Block(text: string)
                 | Quoted(quote: char, text: string) | Dollar(name: string, body: string)

  function Escaped(quote: char, text: string): string {
    if text == "" then "" else Doubled(quote, text[0]) + Escaped(quote, text[1..])
  }

  function Doubled(quote: char, c: char): string { if c == quote then [quote, quote] else [c] }

  function Written(t: Token): string {
    match t
    case Plain(c) => [c]
    case Semicolon => ";"
    case Comment(text) => "--" + (text + "\n")
    case Block(text) => "/*" + (text + "*/")
    case Quoted(quote, text) => [quote] + (Escaped(quote, text) + [quote])
    case Dollar(name, body) => TagOf(name) + (body + TagOf(name))
  }

  function TagOf(name: string): string { "$" + name + "$" }

  function Render(tokens: seq<Token>): string {
    if tokens == [] then "" else Written(tokens[0]) + Render(tokens[1..])
  }

  /** Letters, digits and the underscore. */
  predicate IsNameChar(c: char) { c == '_' || 'a' <= c <= 'z' || 'A' <= c <= 'Z' || '0' <= c <= '9' }

  ghost predicate IsName(name: string) { forall i :: 0 <= i < |name| ==> IsNameChar(name[i]) }

  predicate StartsWith(s: string, c: char) { s != "" && s[0] == c }

  /** A dollar sign before this text would open a dollar quote. */
  ghost predicate ClosesTag(s: string) {
    exists n :: 0 <= n < |s| && s[n] == '$' && IsName(s[..n])
  }

  ghost predicate HasBlockEnd(s: string) {
    exists i :: 0 <= i < |s| - 1 && s[i] == '*' && s[i + 1] == '/'
  }

  /** The tag occurs before the one that is meant to close the body. */
  ghost predicate ClosesEarly(tag: string, body: string) {
    exists i :: 0 <= i < |body| && tag <= (body + tag)[i..]
  }

  /** A token means itself in front of `rest`. */
  ghost predicate Stands(t: Token, rest: string) {
    match t
    case Plain(c) =>
      && c != ';' && c != '\'' && c != '"'
      && !(c == '-' && StartsWith(rest, '-')) && !(c == '/' && StartsWith(rest, '*'))
      && !(c == '$' && ClosesTag(rest))
    case Semicolon => true
    case Comment(text) => '\n' !in text
    case Block(text) => !HasBlockEnd(text)
    case Quoted(quote, text) => (quote == '\'' || quote == '"') && !StartsWith(rest, quote)
    case Dollar(name, body) => IsName(name) && !ClosesEarly(TagOf(name), body)
  }

  ghost predicate WellFormed(tokens: seq<Token>) {
    tokens == [] || (Stands(tokens[0], Render(tokens[1..])) && WellFormed(tokens[1..]))
  }

  /** What is written between the semicolons. */
  function Pieces(tokens: seq<Token>): (r: seq<string>)
    ensures r != []
  {
    if tokens == [] then [""]
    else
      var rest := Pieces(tokens[1..]);
      if tokens[0] == Semicolon then [""] + rest else [Written(tokens[0]) + rest[0]] + rest[1..]
  }

  // ---------------------------------------------------------------- dollar tags

  /** A tag is found exactly if only name characters come before the next dollar sign. */
  lemma {:induction false} TagIsFoundIff(s: string, i: nat)
    requires i <= |s|
    ensures TagEnd(s, i).Some? <==> ClosesTag(s[i..])
    decreases |s| - i
  {
    if i < |s| {
      var here := s[i..];
      assert here[0] == s[i] && here[1..] == s[i + 1..];
      TagIsFoundIff(s, i + 1);
      if s[i] == '$' {
        assert IsName(here[..0]);
      } else {
        ClosesLater(here);
      }
    }
  }

  lemma {:induction false} ClosesLater(s: string)
    requires s != "" && s[0] != '$'
    ensures ClosesTag(s) <==> IsNameChar(s[0]) && ClosesTag(s[1..])
  {
    if ClosesTag(s) {
      var n :| 0 <= n < |s| && s[n] == '$' && IsName(s[..n]);
      assert s[..n][0] == s[0];
      assert s[1..][..n - 1] == s[..n][1..] && s[1..][n - 1] == '$';
    }
    if IsNameChar(s[0]) && ClosesTag(s[1..]) {
      var n :| 0 <= n < |s[1..]| && s[1..][n] == '$' && IsName(s[1..][..n]);
      assert s[..n + 1] == [s[0]] + s[1..][..n] && s[n + 1] == '$';
    }
  }

  lemma {:induction false} TagIsRead(name: string, after: string, i: nat)
    requires IsName(name) && 1 <= i <= |name| + 1
    ensures TagEnd(TagOf(name) + after, i) == Some(|name| + 2)
    decreases |name| + 1 - i
  {
    var s := TagOf(name) + after;
    if i == |name| + 1 {
      assert s[i] == '$';
    } else {
      assert s[i] == name[i - 1] && IsNameChar(name[i - 1]);
      TagIsRead(name, after, i + 1);
    }
  }

  // ---------------------------------------------------------------- one token

  /** A step over `prefix` that does not cut. */
  lemma {:induction false} StepOver(m: Mode, prefix: string, rest: string, next: Mode)
    requires prefix != "" && Step(m, prefix + rest) == Move(next, |prefix|, false)
    ensures Lex(m, prefix + rest) == Glue(prefix, Lex(next, rest))
  {
    assert (prefix + rest)[..|prefix|] == prefix && (prefix + rest)[|prefix|..] == rest;
    LexOneStep(m, prefix + rest, Move(next, |prefix|, false));
  }

  lemma {:induction false} StepFurther(m: Mode, prefix: string, more: string, rest: string, next: Mode, last: Lexed)
    requires prefix != "" && Step(m, prefix + (more + rest)) == Move(next, |prefix|, false)
    requires last.pieces != [] && Lex(next, more + rest) == Glue(more, last)
    ensures Lex(m, prefix + (more + rest)) == Glue(prefix + more, last)
  {
    StepOver(m, prefix, more + rest, next);
    GlueGlue(prefix, more, last);
  }

  lemma {:induction false} CommentRuns(text: string, rest: string)
    requires '\n' !in text
    ensures Lex(LineComment, (text + "\n") + rest) == Glue(text + "\n", Lex(Top, rest))
  {
    if text == "" {
      assert text + "\n" == "\n";
      StepOver(LineComment, "\n", rest, Top);
    } else {
      var more := text[1..] + "\n";
      CommentRuns(text[1..], rest);
      assert text[..1] + more == text + "\n" && (text + "\n") + rest == text[..1] + (more + rest);
      StepFurther(LineComment, text[..1], more, rest, LineComment, Lex(Top, rest));
    }
  }

  /** The first character of a text, and what follows it up to its end mark and beyond. */
  lemma {:induction false} FirstApart(first: string, more: string, mark: string, rest: string)
    ensures first + (more + mark) == (first + more) + mark
    ensures ((first + more) + mark) + rest == first + ((more + mark) + rest)
  {
  }

  lemma {:induction false} NoBlockEndLater(text: string)
    requires text != "" && !HasBlockEnd(text)
    ensures !HasBlockEnd(text[1..])
  {
    assert forall i :: 0 <= i < |text[1..]| ==> text[1..][i] == text[i + 1];
  }

  lemma {:induction false} BlockSteps(text: string, rest: string)
    requires text != "" && !HasBlockEnd(text)
    ensures Step(BlockComment, text[..1] + ((text[1..] + "*/") + rest)) == Move(BlockComment, 1, false)
  {
    var s := text[..1] + ((text[1..] + "*/") + rest);
    assert s[0] == text[0] && s[1] == if |text| > 1 then text[1] else '*';
  }

  lemma {:induction false} BlockRuns(text: string, rest: string)
    requires !HasBlockEnd(text)
    ensures Lex(BlockComment, (text + "*/") + rest) == Glue(text + "*/", Lex(Top, rest))
  {
    if text == "" {
      assert text + "*/" == "*/";
      StepOver(BlockComment, "*/", rest, Top);
    } else {
      NoBlockEndLater(text);
      BlockRuns(text[1..], rest);
      BlockSteps(text, rest);
      assert text[..1] + text[1..] == text;
      FirstApart(text[..1], text[1..], "*/", rest);
      StepFurther(BlockComment, text[..1], text[1..] + "*/", rest, BlockComment, Lex(Top, rest));
    }
  }

  lemma {:induction false} QuotedRuns(m: Mode, quote: char, text: string, rest: string)
    requires (m == SingleQuote && quote == '\'') || (m == DoubleQuote && quote == '"')
    requires !StartsWith(rest, quote)
    ensures Lex(m, (Escaped(quote, text) + [quote]) + rest) == Glue(Escaped(quote, text) + [quote], Lex(Top, rest))
  {
    if text == "" {
      assert Escaped(quote, text) + [quote] == [quote];
      assert ([quote] + rest)[0] == quote && (rest != "" ==> ([quote] + rest)[1] == rest[0]);
      StepOver(m, [quote], rest, Top);
    } else {
      var first, more := Doubled(quote, text[0]), Escaped(quote, text[1..]);
      QuotedRuns(m, quote, text[1..], rest);
      FirstApart(first, more, [quote], rest);
      QuoteSteps(m, quote, text[0], (more + [quote]) + rest);
      StepFurther(m, first, more + [quote], rest, m, Lex(Top, rest));
    }
  }

  lemma {:induction false} QuoteSteps(m: Mode, quote: char, c: char, rest: string)
    requires (m == SingleQuote && quote == '\'') || (m == DoubleQuote && quote == '"')
    ensures Step(m, Doubled(quote, c) + rest) == Move(m, |Doubled(quote, c)|, false)
  {
    var s := Doubled(quote, c) + rest;
    assert s[0] == c && (c == quote ==> s[1] == quote);
  }

  lemma {:induction false} PrefixOfFront(tag: string, a: string, b: string)
    requires |tag| <= |a|
    ensures tag <= a + b <==> tag <= a
  {
    assert (a + b)[..|tag|] == a[..|tag|];
  }

  lemma {:induction false} NoEarlyCloseLater(tag: string, body: string)
    requires body != "" && !ClosesEarly(tag, body)
    ensures !ClosesEarly(tag, body[1..]) && !(tag <= body + tag)
  {
    assert (body + tag)[0..] == body + tag;
    assert forall i :: 0 <= i < |body[1..]| ==> (body[1..] + tag)[i..] == (body + tag)[i + 1..];
  }

  lemma {:induction false} DollarRuns(tag: string, body: string, rest: string)
    requires tag != "" && !ClosesEarly(tag, body)
    ensures Lex(DollarQuote(tag), (body + tag) + rest) == Glue(body + tag, Lex(Top, rest))
  {
    if body == "" {
      assert body + tag == tag;
      StepOver(DollarQuote(tag), tag, rest, Top);
    } else {
      NoEarlyCloseLater(tag, body);
      DollarRuns(tag, body[1..], rest);
      assert body[..1] + body[1..] == body;
      PrefixOfFront(tag, body + tag, rest);
      FirstApart(body[..1], body[1..], tag, rest);
      StepFurther(DollarQuote(tag), body[..1], body[1..] + tag, rest, DollarQuote(tag), Lex(Top, rest));
    }
  }

  lemma {:induction false} TokenStands(t: Token, rest: string)
    requires Stands(t, rest) && t != Semicolon
    ensures Lex(Top, Written(t) + rest) == Glue(Written(t), Lex(Top, rest))
  {
    match t
    case Plain(c) =>
      PlainStands(c, rest);
    case Comment(text) =>
      CommentRuns(text, rest);
      Opened("--", text + "\n", rest, LineComment);
    case Block(text) =>
      BlockRuns(text, rest);
      Opened("/*", text + "*/", rest, BlockComment);
    case Quoted(quote, text) =>
      var m := if quote == '\'' then SingleQuote else DoubleQuote;
      QuotedRuns(m, quote, text, rest);
      Opened([quote], Escaped(quote, text) + [quote], rest, m);
    case Dollar(name, body) =>
      var tag := TagOf(name);
      DollarRuns(tag, body, rest);
      TagIsRead(name, (body + tag) + rest, 1);
      assert (tag + ((body + tag) + rest))[..|tag|] == tag;
      Opened(tag, body + tag, rest, DollarQuote(tag));
  }

  lemma {:induction false} Opened(opener: string, more: string, rest: string, m: Mode)
    requires opener != "" && Step(Top, opener + (more + rest)) == Move(m, |opener|, false)
    requires Lex(m, more + rest) == Glue(more, Lex(Top, rest))
    ensures Lex(Top, (opener + more) + rest) == Glue(opener + more, Lex(Top, rest))
  {
    assert (opener + more) + rest == opener + (more + rest);
    StepFurther(Top, opener, more, rest, m, Lex(Top, rest));
  }

  lemma {:induction false} PlainStands(c: char, rest: string)
    requires Stands(Plain(c), rest)
    ensures Lex(Top, [c] + rest) == Glue([c], Lex(Top, rest))
  {
    var s := [c] + rest;
    assert s[1..] == rest && (rest != "" ==> s[1] == rest[0]);
    TagIsFoundIff(s, 1);
    StepOver(Top, [c], rest, Top);
  }

  // ---------------------------------------------------------------- whole texts

  /** Text that is written token by token is cut at exactly its semicolons, and nothing is left open. */
  lemma {:induction false} TokensAreCut(tokens: seq<Token>)
    requires WellFormed(tokens)
    ensures Lex(Top, Render(tokens)) == Lexed(Pieces(tokens), Top)
  {
    if tokens == [] {
    } else {
      var rest := Render(tokens[1..]);
      TokensAreCut(tokens[1..]);
      if tokens[0] == Semicolon {
        assert (";" + rest)[1..] == rest;
        LexOneStep(Top, ";" + rest, Move(Top, 1, true));
      } else {
        TokenStands(tokens[0], rest);
      }
    }
  }

  /** So the statements are what stands between the semicolons, trimmed, without the empty ones. */
  lemma {:induction false} TokensSplit(tokens: seq<Token>)
    requires WellFormed(tokens)
    ensures Split(Render(tokens)) == Ok(Statements(Pieces(tokens)))
  {
    TokensAreCut(tokens);
  }

  // ---------------------------------------------------------------- texts left open

  lemma {:induction false} BlockStaysOpen(text: string)
    requires !HasBlockEnd(text)
    ensures Lex(BlockComment, text) == Lexed([text], BlockComment)
  {
    if text == "" {
    } else {
      assert !HasBlockEnd(text[1..]) by {
        assert forall i :: 0 <= i < |text[1..]| ==> text[1..][i] == text[i + 1];
      }
      BlockStaysOpen(text[1..]);
      assert text[..1] + text[1..] == text;
      StepOver(BlockComment, text[..1], text[1..], BlockComment);
    }
  }

  lemma {:induction false} DollarStaysOpen(tag: string, body: string)
    requires tag != "" && !(exists i :: 0 <= i < |body| && tag <= body[i..])
    ensures Lex(DollarQuote(tag), body) == Lexed([body], DollarQuote(tag))
  {
    if body == "" {
    } else {
      assert !(exists i :: 0 <= i < |body[1..]| && tag <= body[1..][i..]) by {
        assert forall i :: 0 <= i < |body[1..]| ==> body[1..][i..] == body[i + 1..];
      }
      DollarStaysOpen(tag, body[1..]);
      assert body[..1] + body[1..] == body && body[0..] == body;
      StepOver(DollarQuote(tag), body[..1], body[1..], DollarQuote(tag));
    }
  }

  lemma {:induction false} QuotedStaysOpen(m: Mode, quote: char, text: string)
    requires (m == SingleQuote && quote == '\'') || (m == DoubleQuote && quote == '"')
    ensures Lex(m, Escaped(quote, text)) == Lexed([Escaped(quote, text)], m)
  {
    if text == "" {
    } else {
      QuotedStaysOpen(m, quote, text[1..]);
      QuoteSteps(m, quote, text[0], Escaped(quote, text[1..]));
      StepOver(m, Doubled(quote, text[0]), Escaped(quote, text[1..]), m);
    }
  }

  /** Text before an opener keeps its pieces, and the last one runs on. */
  lemma {:induction false} TokensThen(tokens: seq<Token>, rest: string)
    requires StandBefore(tokens, rest)
    ensures Lex(Top, Render(tokens) + rest).mode == Lex(Top, rest).mode
  {
    if tokens == [] {
      assert Render(tokens) + rest == rest;
    } else {
      var more := Render(tokens[1..]) + rest;
      TokensThen(tokens[1..], rest);
      assert Render(tokens) + rest == Written(tokens[0]) + more;
      if tokens[0] == Semicolon {
        assert (";" + more)[1..] == more;
        LexOneStep(Top, ";" + more, Move(Top, 1, true));
      } else {
        TokenStands(tokens[0], more);
      }
    }
  }

  ghost predicate StandBefore(tokens: seq<Token>, rest: string) {
    tokens == [] || (Stands(tokens[0], Render(tokens[1..]) + rest) && StandBefore(tokens[1..], rest))
  }

  /** A block comment that is never closed is an error. */
  lemma {:induction false} OpenBlockIsRefused(tokens: seq<Token>, text: string)
    requires !HasBlockEnd(text) && StandBefore(tokens, "/*" + text)
    ensures Split(Render(tokens) + ("/*" + text)) == Err(UnterminatedBlockComment)
  {
    TokensThen(tokens, "/*" + text);
    BlockStaysOpen(text);
    StepOver(Top, "/*", text, BlockComment);
  }

  /** So is a dollar quote; the error names its tag. */
  lemma {:induction false} OpenDollarIsRefused(tokens: seq<Token>, name: string, text: string)
    requires IsName(name) && !(exists i :: 0 <= i < |text| && TagOf(name) <= text[i..])
    requires StandBefore(tokens, TagOf(name) + text)
    ensures Split(Render(tokens) + (TagOf(name) + text)) == Err(UnterminatedDollarQuote(TagOf(name)))
  {
    var tag := TagOf(name);
    TokensThen(tokens, tag + text);
    DollarStaysOpen(tag, text);
    TagIsRead(name, text, 1);
    assert (tag + text)[..|tag|] == tag;
    StepOver(Top, tag, text, DollarQuote(tag));
  }

  /** A quoted text may stay open. */
  lemma {:induction false} OpenQuoteIsAccepted(tokens: seq<Token>, text: string)
    requires StandBefore(tokens, "'" + Escaped('\'', text))
    ensures Split(Render(tokens) + ("'" + Escaped('\'', text))).Ok?
  {
    TokensThen(tokens, "'" + Escaped('\'', text));
    QuotedStaysOpen(SingleQuote, '\'', text);
    StepOver(Top, "'", Escaped('\'', text), SingleQuote);
  }
}
