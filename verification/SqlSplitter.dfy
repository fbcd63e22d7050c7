/**
 The migration runner's statement splitter (cmd/hm-db-migrate/main.go:166-289).

 `Lex` is the lexer one step at a time, by mode; `Reference` reads whole tokens
 and never sees a mode. `SplitSQLStatements` is the flag-and-index loop.
 */
module SqlSplitter {
  import opened Text
  import opened Wrappers

  datatype Mode = Top | LineComment | BlockComment | SingleQuote | DoubleQuote | DollarQuote(tag: string)
  datatype Error = UnterminatedBlockComment | UnterminatedDollarQuote(tag: string)

  /** One step: the next mode, the characters consumed, and whether a statement ends here. */
  datatype Move = Move(mode: Mode, width: nat, cut: bool)

  /** The untrimmed pieces between cuts, and the mode at the end of input. */
  datatype Lexed = Lexed(pieces: seq<string>, mode: Mode)

  predicate IsTagChar(c: char) {
    c == '_' || 'a' <= c <= 'z' || 'A' <= c <= 'Z' || '0' <= c <= '9'
  }

  // ---------------------------------------------------------------- the lexer, step by step

  /** The index just past the dollar sign that closes a tag, scanning from i. */
  function TagEnd(s: string, i: nat): (r: Option<nat>)
    ensures r.Some? ==> i < r.value <= |s|
    decreases |s| - i
  {
    if i >= |s| then None
    else if s[i] == '$' then Some(i + 1)
    else if !IsTagChar(s[i]) then None
    else TagEnd(s, i + 1)
  }

  predicate PairAt(s: string, i: nat, a: char, b: char) {
    i + 1 < |s| && s[i] == a && s[i + 1] == b
  }

  function Step(m: Mode, s: string): (r: Move)
    requires s != ""
    ensures 1 <= r.width <= |s|
    ensures r.cut ==> m == Top && s[0] == ';' && r.width == 1 && r.mode == Top
  {
    match m
    case LineComment => Move(if s[0] == '\n' then Top else m, 1, false)
    case BlockComment => if PairAt(s, 0, '*', '/') then Move(Top, 2, false) else Move(m, 1, false)
    case DollarQuote(tag) => if tag != "" && tag <= s then Move(Top, |tag|, false) else Move(m, 1, false)
    case SingleQuote => QuoteStep(m, '\'', s)
    case DoubleQuote => QuoteStep(m, '"', s)
    case Top =>
      if PairAt(s, 0, '-', '-') then Move(LineComment, 2, false)
      else if PairAt(s, 0, '/', '*') then Move(BlockComment, 2, false)
      else if s[0] == '\'' then Move(SingleQuote, 1, false)
      else if s[0] == '"' then Move(DoubleQuote, 1, false)
      else if s[0] == '$' && TagEnd(s, 1).Some?
        then Move(DollarQuote(s[..TagEnd(s, 1).value]), TagEnd(s, 1).value, false)
      else Move(Top, 1, s[0] == ';')
  }

  /** Inside quotes a doubled quote is one character; a single one closes. */
  function QuoteStep(m: Mode, quote: char, s: string): (r: Move)
    requires s != ""
    ensures 1 <= r.width <= |s| && !r.cut
  {
    if PairAt(s, 0, quote, quote) then Move(m, 2, false)
    else Move(if s[0] == quote then Top else m, 1, false)
  }

  /** A lexed text with more characters in front. */
  function Glue(prefix: string, l: Lexed): Lexed
    requires l.pieces != []
  {
    Lexed([prefix + l.pieces[0]] + l.pieces[1..], l.mode)
  }

  /** What a text lexes to when its first step is known. */
  function After(s: string, width: nat, cut: bool, rest: Lexed): (r: Lexed)
    requires width <= |s| && rest.pieces != []
    ensures r.pieces != []
  {
    if cut then Lexed([""] + rest.pieces, rest.mode) else Glue(s[..width], rest)
  }

  function Lex(m: Mode, s: string): (r: Lexed)
    ensures r.pieces != []
    decreases |s|
  {
    if s == "" then Lexed([""], m)
    else
      var move := Step(m, s);
      After(s, move.width, move.cut, Lex(move.mode, s[move.width..]))
  }

  lemma {:induction false} LexOneStep(m: Mode, s: string, move: Move)
    requires s != "" && Step(m, s) == move
    ensures Lex(m, s) == After(s, move.width, move.cut, Lex(move.mode, s[move.width..]))
  {
  }

  function Statements(pieces: seq<string>): seq<string> {
    if pieces == [] then []
    else (if Trim(pieces[0]) != "" then [Trim(pieces[0])] else []) + Statements(pieces[1..])
  }

  function Split(sql: string): Result<seq<string>, Error> {
    var lexed := Lex(Top, sql);
    if lexed.mode == BlockComment then Err(UnterminatedBlockComment)
    else if lexed.mode.DollarQuote? then Err(UnterminatedDollarQuote(lexed.mode.tag))
    else Ok(Statements(lexed.pieces))
  }

  // ---------------------------------------------------------------- the loop

  /** What the whole text lexes to, given the pieces cut so far and the open one. */
  function Assembled(cut: seq<string>, open: string, rest: Lexed): Lexed
    requires rest.pieces != []
  {
    Lexed(cut + [open + rest.pieces[0]] + rest.pieces[1..], rest.mode)
  }

  /** The loop's variables: pieces cut, start of the open one, index and mode. */
  datatype Position = Position(cut: seq<string>, start: nat, i: nat, mode: Mode)

  /** What a step at index i does, read off the characters there. */
  function NextAt(m: Mode, s: string, i: nat): (r: Move)
    requires i < |s|
    ensures 1 <= r.width <= |s| - i
  {
    match m
    case LineComment => Move(if s[i] == '\n' then Top else m, 1, false)
    case BlockComment => if PairAt(s, i, '*', '/') then Move(Top, 2, false) else Move(m, 1, false)
    case DollarQuote(tag) =>
      if tag != "" && i + |tag| <= |s| && s[i..i + |tag|] == tag then Move(Top, |tag|, false) else Move(m, 1, false)
    case SingleQuote =>
      if PairAt(s, i, '\'', '\'') then Move(m, 2, false) else Move(if s[i] == '\'' then Top else m, 1, false)
    case DoubleQuote =>
      if PairAt(s, i, '"', '"') then Move(m, 2, false) else Move(if s[i] == '"' then Top else m, 1, false)
    case Top =>
      if PairAt(s, i, '-', '-') then Move(LineComment, 2, false)
      else if PairAt(s, i, '/', '*') then Move(BlockComment, 2, false)
      else if s[i] == '\'' then Move(SingleQuote, 1, false)
      else if s[i] == '"' then Move(DoubleQuote, 1, false)
      else if s[i] == '$' && TagEnd(s, i + 1).Some?
        then Move(DollarQuote(s[i..TagEnd(s, i + 1).value]), TagEnd(s, i + 1).value - i, false)
      else Move(Top, 1, s[i] == ';')
  }

  lemma {:induction false} TagEndShifts(s: string, i: nat, here: string, k: nat)
    requires i <= |s| && here == s[i..] && k <= |here|
    ensures TagEnd(s, i + k) == if TagEnd(here, k).Some? then Some(i + TagEnd(here, k).value) else None
    decreases |here| - k
  {
    if k == |here| {
    } else {
      assert here[k] == s[i + k];
      TagEndShifts(s, i, here, k + 1);
    }
  }

  lemma {:induction false} StepIsNext(m: Mode, s: string, i: nat)
    requires i < |s|
    ensures Step(m, s[i..]) == NextAt(m, s, i)
  {
    var here := s[i..];
    TagEndShifts(s, i, here, 1);
    assert here[0] == s[i] && (|here| > 1 ==> here[1] == s[i + 1]);
    assert TagEnd(here, 1).Some? ==> here[..TagEnd(here, 1).value] == s[i..i + TagEnd(here, 1).value];
    match m
    case DollarQuote(tag) =>
      assert |tag| <= |here| ==> here[..|tag|] == s[i..i + |tag|];
    case _ =>
  }

  /** The lexer again, by index. */
  function LexAt(m: Mode, s: string, i: nat): (r: Lexed)
    requires i <= |s|
    ensures r.pieces != []
    decreases |s| - i
  {
    if i == |s| then Lexed([""], m)
    else
      var next := NextAt(m, s, i);
      After(s[i..], next.width, next.cut, LexAt(next.mode, s, i + next.width))
  }

  lemma {:induction false} LexAtIsLex(m: Mode, s: string, i: nat, here: string)
    requires i <= |s| && here == s[i..]
    ensures LexAt(m, s, i) == Lex(m, here)
    decreases |s| - i
  {
    if i == |s| {
    } else {
      var next := NextAt(m, s, i);
      var rest := s[i + next.width..];
      LexAtIsLex(next.mode, s, i + next.width, rest);
      StepIsNext(m, s, i);
      LexAtStep(m, s, i, here, next, Lex(next.mode, rest));
      LexFrom(m, here, next, rest, s, i);
    }
  }

  lemma {:induction false} LexAtStep(m: Mode, s: string, i: nat, here: string, next: Move, tail: Lexed)
    requires i < |s| && here == s[i..] && next == NextAt(m, s, i) && tail == LexAt(next.mode, s, i + next.width)
    ensures LexAt(m, s, i) == After(here, next.width, next.cut, tail)
  {
  }

  lemma {:induction false} LexFrom(m: Mode, here: string, next: Move, rest: string, s: string, i: nat)
    requires i < |s| && here == s[i..] && Step(m, here) == next && rest == s[i + next.width..]
    ensures Lex(m, here) == After(here, next.width, next.cut, Lex(next.mode, rest))
  {
    SameTail(s, i, next.width, here, rest);
    LexOneStep(m, here, next);
  }

  lemma {:induction false} SameTail(s: string, i: nat, w: nat, here: string, rest: string)
    requires i + w <= |s| && here == s[i..] && rest == s[i + w..]
    ensures here[w..] == rest
  {
  }

  function Moved(sql: string, p: Position, next: Move): Position
    requires p.start <= p.i < |sql| && 1 <= next.width <= |sql| - p.i
  {
    if next.cut then Position(p.cut + [sql[p.start..p.i]], p.i + next.width, p.i + next.width, next.mode)
    else p.(i := p.i + next.width, mode := next.mode)
  }

  lemma {:induction false} MoveRegroups(sql: string, p: Position, next: Move, rest: Lexed)
    requires p.start <= p.i < |sql| && 1 <= next.width <= |sql| - p.i && rest.pieces != []
    ensures var q := Moved(sql, p, next);
      Assembled(p.cut, sql[p.start..p.i], After(sql[p.i..], next.width, next.cut, rest))
        == Assembled(q.cut, sql[q.start..q.i], rest)
  {
    var open, j := sql[p.start..p.i], p.i + next.width;
    if next.cut {
      assert open + "" == open && sql[j..j] + rest.pieces[0] == rest.pieces[0];
      assert rest.pieces == [rest.pieces[0]] + rest.pieces[1..];
    } else {
      var more := sql[p.i..][..next.width];
      assert open + more == sql[p.start..j];
      assert open + (more + rest.pieces[0]) == open + more + rest.pieces[0];
    }
  }

  /** What the loop ends with, from a given position. */
  function Finish(sql: string, p: Position): (q: Position)
    requires p.start <= p.i <= |sql|
    ensures q.start <= q.i == |sql|
    decreases |sql| - p.i
  {
    if p.i == |sql| then p else Finish(sql, Moved(sql, p, NextAt(p.mode, sql, p.i)))
  }

  /** The lexer's answer, read off the loop's final variables. */
  function Finished(sql: string, q: Position): Lexed
    requires q.start <= |sql|
  {
    Lexed(q.cut + [sql[q.start..]], q.mode)
  }

  /** The loop adds to its cut pieces exactly what the lexer finds in the rest of the text. */
  lemma {:induction false} FinishIsLex(sql: string, p: Position, here: Lexed)
    requires p.start <= p.i <= |sql| && here == LexAt(p.mode, sql, p.i)
    ensures Finished(sql, Finish(sql, p)) == Assembled(p.cut, sql[p.start..p.i], here)
    decreases |sql| - p.i
  {
    if p.i == |sql| {
      FinishAtEnd(sql, p, here);
    } else {
      var next := NextAt(p.mode, sql, p.i);
      var rest := LexAt(next.mode, sql, p.i + next.width);
      FinishIsLex(sql, Moved(sql, p, next), rest);
      FinishMoves(sql, p, next);
      LexAtStep(p.mode, sql, p.i, sql[p.i..], next, rest);
      Regrouped(sql, p, next, here, rest, Finish(sql, p));
    }
  }

  lemma {:induction false} FinishAtEnd(sql: string, p: Position, here: Lexed)
    requires p.start <= p.i == |sql| && here == Lexed([""], p.mode)
    ensures Finished(sql, p) == Assembled(p.cut, sql[p.start..p.i], here)
  {
    assert sql[p.start..p.i] + "" == sql[p.start..];
  }

  lemma {:induction false} Regrouped(sql: string, p: Position, next: Move, here: Lexed, rest: Lexed, final: Position)
    requires p.start <= p.i < |sql| && 1 <= next.width <= |sql| - p.i && rest.pieces != [] && final.start <= |sql|
    requires here == After(sql[p.i..], next.width, next.cut, rest)
    requires var q := Moved(sql, p, next); Finished(sql, final) == Assembled(q.cut, sql[q.start..q.i], rest)
    ensures Finished(sql, final) == Assembled(p.cut, sql[p.start..p.i], here)
  {
    MoveRegroups(sql, p, next, rest);
  }

  lemma {:induction false} FinishMoves(sql: string, p: Position, next: Move)
    requires p.start <= p.i < |sql| && next == NextAt(p.mode, sql, p.i)
    ensures Finish(sql, p) == Finish(sql, Moved(sql, p, next))
  {
  }

  lemma {:induction false} LoopRefinesSplit(sql: string, p: Position)
    requires p == Finish(sql, Position([], 0, 0, Top))
    ensures Split(sql) == if p.mode == BlockComment then Err(UnterminatedBlockComment)
                    else if p.mode.DollarQuote? then Err(UnterminatedDollarQuote(p.mode.tag))
                    else Ok(Statements(p.cut) + if Trim(sql[p.start..]) != "" then [Trim(sql[p.start..])] else [])
  {
    var whole := LexAt(Top, sql, 0);
    LexAtIsLex(Top, sql, 0, sql);
    FinishIsLex(sql, Position([], 0, 0, Top), whole);
    assert sql[0..0] == "" && "" + whole.pieces[0] == whole.pieces[0];
    StatementsAppend(p.cut, sql[p.start..]);
  }

  lemma {:induction false} StatementsAppend(pieces: seq<string>, piece: string)
    ensures Statements(pieces + [piece]) == Statements(pieces) + if Trim(piece) != "" then [Trim(piece)] else []
  {
    if pieces == [] {
    } else {
      StatementsAppend(pieces[1..], piece);
      assert (pieces + [piece])[1..] == pieces[1..] + [piece];
    }
  }

  method ReadDollarQuoteTag(sql: string) returns (tag: string, ok: bool)
    ensures ok == (sql != "" && sql[0] == '$' && TagEnd(sql, 1).Some?)
    ensures tag == if ok then sql[..TagEnd(sql, 1).value] else ""
  {
    if sql == "" || sql[0] != '$' {
      return "", false;
    }
    var i := 1;
    while i < |sql|
      invariant 1 <= i <= |sql|
      invariant TagEnd(sql, i) == TagEnd(sql, 1)
    {
      if sql[i] == '$' {
        return sql[..i + 1], true;
      }
      if !IsTagChar(sql[i]) {
        return "", false;
      }
      i := i + 1;
    }
    return "", false;
  }

  method SplitSQLStatements(sql: string) returns (result: Result<seq<string>, Error>)
    ensures result == Split(sql)
  {
    var statements: seq<string> := [];
    var start, i := 0, 0;
    var inSingleQuote, inDoubleQuote, inLineComment, inBlockComment := false, false, false, false;
    var dollarQuote := "";
    ghost var cut: seq<string> := [];
    ghost var mode := Top;
    ghost var final := Finish(sql, Position([], 0, 0, Top));
    while i < |sql|
      invariant start <= i <= |sql|
      invariant Finish(sql, Position(cut, start, i, mode)) == final
      invariant FlagsOf(mode, inSingleQuote, inDoubleQuote, inLineComment, inBlockComment, dollarQuote)
      invariant statements == Statements(cut)
      decreases |sql| - i
    {
      ghost var here := mode;
      mode := NextAt(here, sql, i).mode;
      var width, cutHere;
      inSingleQuote, inDoubleQuote, inLineComment, inBlockComment, dollarQuote, width, cutHere :=
        ReadAt(sql, i, inSingleQuote, inDoubleQuote, inLineComment, inBlockComment, dollarQuote, here);
      if cutHere {
        statements := AppendTrimmed(statements, sql[start..i], cut);
        cut, start := cut + [sql[start..i]], i + 1;
      }
      i := i + width;
    }
    assert final == Position(cut, start, i, mode);
    result := Conclude(sql, statements, start, inBlockComment, dollarQuote, final);
  }

  /** The flags that the mode is spread over. */
  ghost predicate FlagsOf(mode: Mode, inSingleQuote: bool, inDoubleQuote: bool, inLineComment: bool,
                          inBlockComment: bool, dollarQuote: string)
  {
    && inLineComment == mode.LineComment? && inBlockComment == mode.BlockComment?
    && inSingleQuote == mode.SingleQuote? && inDoubleQuote == mode.DoubleQuote?
    && if dollarQuote != "" then mode == DollarQuote(dollarQuote) else !mode.DollarQuote?
  }

  /** What the characters at an index do to the flags, how far to go, and whether a statement ends. */
  method ReadAt(sql: string, i: nat, single: bool, double: bool, line: bool, block: bool, tag: string, ghost mode: Mode)
    returns (inSingleQuote: bool, inDoubleQuote: bool, inLineComment: bool, inBlockComment: bool, dollarQuote: string,
             width: nat, cutHere: bool)
    requires i < |sql| && FlagsOf(mode, single, double, line, block, tag)
    ensures FlagsOf(NextAt(mode, sql, i).mode, inSingleQuote, inDoubleQuote, inLineComment, inBlockComment, dollarQuote)
    ensures width == NextAt(mode, sql, i).width && cutHere == NextAt(mode, sql, i).cut
  {
    cutHere := false;
    if line || block || tag != "" || single || double {
      inSingleQuote, inDoubleQuote, inLineComment, inBlockComment, dollarQuote, width :=
        Inside(sql, i, single, double, line, block, tag, mode);
    } else {
      inSingleQuote, inDoubleQuote, inLineComment, inBlockComment, dollarQuote, width, cutHere := TopLevel(sql, i);
    }
  }

  /** Inside a comment or quote: whether the character closes it, and how far to go. */
  method Inside(sql: string, i: nat, single: bool, double: bool, line: bool, block: bool, tag: string, ghost mode: Mode)
    returns (inSingleQuote: bool, inDoubleQuote: bool, inLineComment: bool, inBlockComment: bool, dollarQuote: string,
             width: nat)
    requires i < |sql| && mode != Top && FlagsOf(mode, single, double, line, block, tag)
    ensures FlagsOf(NextAt(mode, sql, i).mode, inSingleQuote, inDoubleQuote, inLineComment, inBlockComment, dollarQuote)
    ensures width == NextAt(mode, sql, i).width && !NextAt(mode, sql, i).cut
  {
    inSingleQuote, inDoubleQuote, inLineComment, inBlockComment, dollarQuote := single, double, line, block, tag;
    width := 1;
    if line {
      inLineComment := sql[i] != '\n';
    } else if block {
      if i + 1 < |sql| && sql[i] == '*' && sql[i + 1] == '/' {
        inBlockComment, width := false, 2;
      }
    } else if tag != "" {
      StepIsNext(mode, sql, i);
      if tag <= sql[i..] {
        dollarQuote, width := "", |tag|;
      }
    } else if single {
      if sql[i] == '\'' {
        if i + 1 < |sql| && sql[i + 1] == '\'' {
          width := 2;
        } else {
          inSingleQuote := false;
        }
      }
    } else if sql[i] == '"' {
      if i + 1 < |sql| && sql[i + 1] == '"' {
        width := 2;
      } else {
        inDoubleQuote := false;
      }
    }
  }

  /** The switch outside comments and quotes: what a character opens, and whether it ends a statement. */
  method TopLevel(sql: string, i: nat)
    returns (inSingleQuote: bool, inDoubleQuote: bool, inLineComment: bool, inBlockComment: bool, dollarQuote: string,
             width: nat, cutHere: bool)
    requires i < |sql|
    ensures FlagsOf(NextAt(Top, sql, i).mode, inSingleQuote, inDoubleQuote, inLineComment, inBlockComment, dollarQuote)
    ensures width == NextAt(Top, sql, i).width && cutHere == NextAt(Top, sql, i).cut
  {
    inSingleQuote, inDoubleQuote, inLineComment, inBlockComment := false, false, false, false;
    dollarQuote, width, cutHere := "", 1, false;
    if sql[i] == '-' {
      if i + 1 < |sql| && sql[i + 1] == '-' {
        inLineComment, width := true, 2;
      }
    } else if sql[i] == '/' {
      if i + 1 < |sql| && sql[i + 1] == '*' {
        inBlockComment, width := true, 2;
      }
    } else if sql[i] == '\'' {
      inSingleQuote := true;
    } else if sql[i] == '"' {
      inDoubleQuote := true;
    } else if sql[i] == '$' {
      var tag, ok := ReadDollarQuoteTag(sql[i..]);
      StepIsNext(Top, sql, i);
      if ok {
        dollarQuote, width := tag, |tag|;
      }
    } else if sql[i] == ';' {
      cutHere := true;
    }
  }

  /** After the loop: an error if a comment or quote is open, or else the statements with the last one. */
  method Conclude(sql: string, given: seq<string>, start: nat, inBlockComment: bool, dollarQuote: string,
                  ghost final: Position) returns (result: Result<seq<string>, Error>)
    requires final == Finish(sql, Position([], 0, 0, Top)) && start == final.start <= |sql|
    requires given == Statements(final.cut) && inBlockComment == final.mode.BlockComment?
    requires if dollarQuote != "" then final.mode == DollarQuote(dollarQuote) else !final.mode.DollarQuote?
    ensures result == Split(sql)
  {
    LoopRefinesSplit(sql, final);
    if inBlockComment {
      return Err(UnterminatedBlockComment);
    }
    if dollarQuote != "" {
      return Err(UnterminatedDollarQuote(dollarQuote));
    }
    var statements := AppendTrimmed(given, sql[start..], final.cut);
    StatementsAppend(final.cut, sql[start..]);
    return Ok(statements);
  }

  /** Trims a piece, and keeps it unless nothing is left. */
  method AppendTrimmed(given: seq<string>, piece: string, ghost cut: seq<string>) returns (statements: seq<string>)
    requires given == Statements(cut)
    ensures statements == Statements(cut + [piece])
  {
    statements := given;
    var statement := Trim(piece);
    StatementsAppend(cut, piece);
    if statement != "" {
      statements := statements + [statement];
    }
  }

  // ---------------------------------------------------------------- the reference lexer

  /** How far a quoted or commented stretch extends, and whether it is closed. */
  datatype Scan = Scan(length: nat, closed: bool)

  function Past(k: nat, scan: Scan): Scan { Scan(k + scan.length, scan.closed) }

  function LineEnd(s: string): (r: Scan)
    ensures r.length <= |s|
  {
    if s == "" then Scan(0, false) else if s[0] == '\n' then Scan(1, true) else Past(1, LineEnd(s[1..]))
  }

  function BlockEnd(s: string): (r: Scan)
    ensures r.length <= |s|
  {
    if s == "" then Scan(0, false) else if PairAt(s, 0, '*', '/') then Scan(2, true) else Past(1, BlockEnd(s[1..]))
  }

  function QuoteEnd(quote: char, s: string): (r: Scan)
    ensures r.length <= |s|
  {
    if s == "" then Scan(0, false)
    else if PairAt(s, 0, quote, quote) then Past(2, QuoteEnd(quote, s[2..]))
    else if s[0] == quote then Scan(1, true)
    else Past(1, QuoteEnd(quote, s[1..]))
  }

  function TagClose(tag: string, s: string): (r: Scan)
    requires tag != ""
    ensures r.length <= |s|
  {
    if s == "" then Scan(0, false) else if tag <= s then Scan(|tag|, true) else Past(1, TagClose(tag, s[1..]))
  }

  function ModeEnd(m: Mode, s: string): (r: Scan)
    requires m != Top && m != DollarQuote("")
    ensures r.length <= |s|
  {
    match m
    case LineComment => LineEnd(s)
    case BlockComment => BlockEnd(s)
    case SingleQuote => QuoteEnd('\'', s)
    case DoubleQuote => QuoteEnd('"', s)
    case DollarQuote(tag) => TagClose(tag, s)
  }

  /** The text up to the end of a scan, followed by what the remainder lexes to. */
  ghost predicate Skips(here: Lexed, m: Mode, s: string, scan: Scan) {
    && scan.length <= |s|
    && here == if scan.closed then Glue(s[..scan.length], Lex(Top, s[scan.length..])) else Lexed([s], m)
  }

  lemma {:induction false} GlueGlue(a: string, b: string, l: Lexed)
    requires l.pieces != []
    ensures Glue(a, Glue(b, l)) == Glue(a + b, l)
  {
    assert a + (b + l.pieces[0]) == a + b + l.pieces[0];
  }

  lemma {:induction false} SkipsFurther(here: Lexed, rest: Lexed, m: Mode, s: string, w: nat, scan: Scan)
    requires w <= |s| && rest.pieces != [] && here == Glue(s[..w], rest)
    requires Skips(rest, m, s[w..], scan)
    ensures Skips(here, m, s, Past(w, scan))
  {
    var n := w + scan.length;
    assert s[w..][scan.length..] == s[n..];
    assert s[..w] + s[w..][..scan.length] == s[..n];
    assert s[..w] + s[w..] == s;
    if scan.closed {
      GlueGlue(s[..w], s[w..][..scan.length], Lex(Top, s[n..]));
    }
  }

  /** Inside a mode, stepping reaches the end that a plain scan finds. */
  lemma {:induction false} ModeEndIsLex(m: Mode, s: string)
    requires m != Top && m != DollarQuote("")
    ensures Skips(Lex(m, s), m, s, ModeEnd(m, s))
    decreases |s|
  {
    if s == "" {
    } else {
      var move := Step(m, s);
      var rest := Lex(move.mode, s[move.width..]);
      if move.mode == m {
        ModeEndIsLex(m, s[move.width..]);
        SkipsFurther(Lex(m, s), rest, m, s, move.width, ModeEnd(m, s[move.width..]));
      }
    }
  }

  /** Whole tokens at the top level, none of them seen from inside. */
  function Reference(s: string): (r: Lexed)
    ensures r.pieces != []
    decreases |s|
  {
    if s == "" then Lexed([""], Top)
    else if s[0] == ';' then After(s, 1, true, Reference(s[1..]))
    else
      var (m, w) := Opening(s);
      if m == Top then Glue(s[..1], Reference(s[1..]))
      else
        var scan := ModeEnd(m, s[w..]);
        if scan.closed then Glue(s[..w + scan.length], Reference(s[w + scan.length..]))
        else Lexed([s], m)
  }

  /** The quoted or commented stretch that starts here, if any, and the width of its opener. */
  function Opening(s: string): (r: (Mode, nat))
    requires s != ""
    ensures 1 <= r.1 <= |s| && r.0 != DollarQuote("")
  {
    if PairAt(s, 0, '-', '-') then (LineComment, 2)
    else if PairAt(s, 0, '/', '*') then (BlockComment, 2)
    else if s[0] == '\'' then (SingleQuote, 1)
    else if s[0] == '"' then (DoubleQuote, 1)
    else if s[0] == '$' && TagEnd(s, 1).Some? then (DollarQuote(s[..TagEnd(s, 1).value]), TagEnd(s, 1).value)
    else (Top, 1)
  }

  /** The step-by-step lexer cuts at exactly the top-level semicolons. */
  lemma {:induction false} LexIsReference(s: string)
    ensures Lex(Top, s) == Reference(s)
    decreases |s|
  {
    if s == "" {
    } else {
      var move := Step(Top, s);
      var (m, w) := Opening(s);
      assert move.mode == m && move.width == w;
      if m == Top {
        LexIsReference(s[1..]);
      } else {
        ModeEndIsLex(m, s[w..]);
        OpenedIsReference(s, m, w, ModeEnd(m, s[w..]), Lex(m, s[w..]));
      }
    }
  }

  lemma {:induction false} OpenedIsReference(s: string, m: Mode, w: nat, scan: Scan, rest: Lexed)
    requires s != "" && s[0] != ';' && (m, w) == Opening(s) && m != Top
    requires scan == ModeEnd(m, s[w..]) && Skips(rest, m, s[w..], scan)
    ensures rest.pieces != [] && Glue(s[..w], rest) == Reference(s)
    decreases |s|, 0
  {
    var n := w + scan.length;
    if scan.closed {
      LexIsReference(s[n..]);
    }
    ReferenceOfToken(s, m, w, scan);
    TokenGlue(s, m, w, scan, Reference(s[n..]), rest);
  }

  lemma {:induction false} ReferenceOfToken(s: string, m: Mode, w: nat, scan: Scan)
    requires s != "" && s[0] != ';' && (m, w) == Opening(s) && m != Top && scan == ModeEnd(m, s[w..])
    ensures Reference(s) == if scan.closed then Glue(s[..w + scan.length], Reference(s[w + scan.length..]))
      else Lexed([s], m)
  {
  }

  lemma {:induction false} TokenGlue(s: string, m: Mode, w: nat, scan: Scan, after: Lexed, rest: Lexed)
    requires w + scan.length <= |s| && after.pieces != [] && Skips(rest, m, s[w..], scan)
    requires scan.closed ==> Lex(Top, s[w + scan.length..]) == after
    ensures rest.pieces != []
    ensures Glue(s[..w], rest) == if scan.closed then Glue(s[..w + scan.length], after) else Lexed([s], m)
  {
    var n := w + scan.length;
    assert s[w..][scan.length..] == s[n..] && s[..w] + s[w..] == s;
    assert s[..w] + s[w..][..scan.length] == s[..n];
    GlueGlue(s[..w], s[w..][..scan.length], after);
  }

  function Joined(pieces: seq<string>, separator: string): string {
    if pieces == [] then "" else if |pieces| == 1 then pieces[0]
      else pieces[0] + separator + Joined(pieces[1..], separator)
  }

  /** The untrimmed pieces and their semicolons rebuild the input. */
  lemma {:induction false} PiecesRebuild(m: Mode, s: string)
    ensures Joined(Lex(m, s).pieces, ";") == s
    decreases |s|
  {
    if s == "" {
    } else {
      var move := Step(m, s);
      PiecesRebuild(move.mode, s[move.width..]);
      RebuildStep(s, move.width, move.cut, Lex(move.mode, s[move.width..]));
    }
  }

  lemma {:induction false} RebuildStep(s: string, width: nat, cut: bool, rest: Lexed)
    requires width <= |s| && rest.pieces != [] && Joined(rest.pieces, ";") == s[width..]
    requires cut ==> width == 1 && s[0] == ';'
    ensures Joined(After(s, width, cut, rest).pieces, ";") == s
  {
  }
}
