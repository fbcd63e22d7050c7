/**
 Splitting loses nothing: joining the statements again and splitting gives the same list.
 The separator needs its newline, because trimming may have dropped the one that
 ended a line comment.
 */
module SqlRoundTrip {
  import opened SqlSplitter
  import opened Text
  import opened Wrappers

  /** Text that cannot complete a token begun before it. */
  ghost predicate Boundary(x: string) {
    x == "" || IsSpace(x[0]) || x[0] == ';'
  }

  ghost predicate Tagged(m: Mode) {
    m.DollarQuote? ==> m.tag != "" && forall c :: c in m.tag ==> c == '$' || IsTagChar(c)
  }

  // ---------------------------------------------------------------- lexing in two parts

  lemma {:induction false} TagEndLocal(a: string, x: string, i: nat)
    requires Boundary(x) && i <= |a|
    ensures TagEnd(a + x, i) == TagEnd(a, i)
    decreases |a| - i
  {
    if i < |a| {
      TagEndLocal(a, x, i + 1);
    }
  }

  lemma {:induction false} TagEndIsTag(s: string, i: nat)
    requires TagEnd(s, i).Some?
    ensures forall k :: i <= k < TagEnd(s, i).value ==> s[k] == '$' || IsTagChar(s[k])
    decreases |s| - i
  {
    if s[i] != '$' {
      TagEndIsTag(s, i + 1);
    }
  }

  lemma {:induction false} StepStaysTagged(m: Mode, s: string)
    requires Tagged(m) && s != ""
    ensures Tagged(Step(m, s).mode)
  {
    if m == Top && s[0] == '$' && TagEnd(s, 1).Some? {
      TagEndIsTag(s, 1);
    }
  }

  lemma {:induction false} TagLocal(tag: string, a: string, x: string)
    requires Tagged(DollarQuote(tag)) && Boundary(x)
    ensures tag <= a + x <==> tag <= a
  {
    if |a| < |tag| && x != "" {
      assert tag[|a|] in tag;
      assert tag[|a|] != x[0] && (a + x)[|a|] == x[0];
    }
  }

  lemma {:induction false} StepLocal(m: Mode, a: string, x: string)
    requires Tagged(m) && Boundary(x) && a != ""
    ensures Step(m, a + x) == Step(m, a)
  {
    match m
    case DollarQuote(tag) =>
      TagLocal(tag, a, x);
    case Top =>
      TagEndLocal(a, x, 1);
      var w := TagEnd(a, 1);
      if w.Some? {
        assert (a + x)[..w.value] == a[..w.value];
      }
    case _ =>
  }

  /** The lexing of a text followed by the lexing of what comes after it. */
  function Then(l: Lexed, r: Lexed): Lexed
    requires l.pieces != [] && r.pieces != []
  {
    var n := |l.pieces| - 1;
    Lexed(l.pieces[..n] + [l.pieces[n] + r.pieces[0]] + r.pieces[1..], r.mode)
  }

  lemma {:induction false} AfterThen(a: string, x: string, w: nat, cut: bool, l: Lexed, r: Lexed)
    requires w <= |a| && l.pieces != [] && r.pieces != []
    ensures After(a + x, w, cut, Then(l, r)) == Then(After(a, w, cut, l), r)
  {
    assert (a + x)[..w] == a[..w];
    if cut {
      CutThen(l, r);
    } else {
      GlueThen(a[..w], l, r);
    }
  }

  lemma {:induction false} CutThen(l: Lexed, r: Lexed)
    requires l.pieces != [] && r.pieces != []
    ensures Lexed([""] + Then(l, r).pieces, r.mode) == Then(Lexed([""] + l.pieces, l.mode), r)
  {
    var n := |l.pieces| - 1;
    assert ([""] + l.pieces)[..n + 1] == [""] + l.pieces[..n];
  }

  lemma {:induction false} GlueThen(prefix: string, l: Lexed, r: Lexed)
    requires l.pieces != [] && r.pieces != []
    ensures Glue(prefix, Then(l, r)) == Then(Glue(prefix, l), r)
  {
    var n := |l.pieces| - 1;
    if n == 0 {
      assert prefix + (l.pieces[0] + r.pieces[0]) == prefix + l.pieces[0] + r.pieces[0];
    } else {
      var joined := l.pieces[n] + r.pieces[0];
      assert Then(l, r).pieces[1..] == l.pieces[1..n] + [joined] + r.pieces[1..];
      assert Glue(prefix, l).pieces[..n] == [prefix + l.pieces[0]] + l.pieces[1..n];
    }
  }

  lemma {:induction false} LexConcat(m: Mode, a: string, x: string, l: Lexed)
    requires Tagged(m) && Boundary(x) && l == Lex(m, a)
    ensures Lex(m, a + x) == Then(l, Lex(l.mode, x))
    ensures Tagged(l.mode)
    decreases |a|, 1
  {
    if a == "" {
      var r := Lex(m, x);
      assert a + x == x && "" + r.pieces[0] == r.pieces[0];
    } else {
      var move := Step(m, a);
      LexOneStep(m, a, move);
      StepStaysTagged(m, a);
      StepLocal(m, a, x);
      LexConcatStep(m, a, x, move, a[move.width..], Lex(move.mode, a[move.width..]));
    }
  }

  lemma {:induction false} LexConcatStep(m: Mode, a: string, x: string, move: Move, tail: string, rest: Lexed)
    requires Boundary(x) && a != "" && Step(m, a) == move && Step(m, a + x) == move && Tagged(move.mode)
    requires tail == a[move.width..] && rest == Lex(move.mode, tail)
    ensures Lex(m, a + x) == Then(After(a, move.width, move.cut, rest), Lex(rest.mode, x)) && Tagged(rest.mode)
    decreases |a|, 0
  {
    LexConcat(move.mode, tail, x, rest);
    ConcatTail(a, x, move.width, tail);
    LexFromTail(m, a + x, move, tail + x);
    AfterThen(a, x, move.width, move.cut, rest, Lex(rest.mode, x));
  }

  lemma {:induction false} ConcatTail(a: string, x: string, w: nat, tail: string)
    requires w <= |a| && tail == a[w..]
    ensures (a + x)[w..] == tail + x
  {
  }

  lemma {:induction false} LexFromTail(m: Mode, s: string, move: Move, tail: string)
    requires s != "" && Step(m, s) == move && s[move.width..] == tail
    ensures Lex(m, s) == After(s, move.width, move.cut, Lex(move.mode, tail))
  {
  }

  /** Each piece lexes by itself as it did in place, back to the top level. */
  lemma {:induction false} FirstPiece(m: Mode, s: string) returns (rest: string)
    requires Tagged(m)
    ensures var l := Lex(m, s);
      if |l.pieces| == 1 then l.pieces == [s]
      else
        && s == l.pieces[0] + ";" + rest
        && Lex(m, l.pieces[0]) == Lexed([l.pieces[0]], Top)
        && Lex(Top, rest) == Lexed(l.pieces[1..], l.mode)
    decreases |s|
  {
    rest := "";
    if s == "" {
    } else {
      var move := Step(m, s);
      var l := Lex(move.mode, s[move.width..]);
      if move.cut {
        rest := s[1..];
        assert s == "" + ";" + rest;
      } else {
        StepStaysTagged(m, s);
        rest := FirstPiece(move.mode, s[move.width..]);
        assert s[..move.width] + s[move.width..] == s;
        if |l.pieces| > 1 {
          PieceInFront(m, s, move, l.pieces[0], rest);
        }
      }
    }
  }

  lemma {:induction false} PieceInFront(m: Mode, s: string, move: Move, tail: string, rest: string)
    requires Tagged(m) && s != "" && move == Step(m, s) && !move.cut
    requires s[move.width..] == tail + ";" + rest && Lex(move.mode, tail) == Lexed([tail], Top)
    ensures var piece := s[..move.width] + tail;
      s == piece + ";" + rest && Lex(m, piece) == Lexed([piece], Top)
  {
    var piece := s[..move.width] + tail;
    assert s == piece + (";" + rest);
    StepLocal(m, piece, ";" + rest);
    assert piece[..move.width] == s[..move.width] && piece[move.width..] == tail;
  }

  // ---------------------------------------------------------------- trimming

  lemma {:induction false} BlankKeepsMode(m: Mode, s: string)
    requires Tagged(m) && Blank(s)
    ensures Lex(m, s).pieces == [s]
    ensures Lex(m, s).mode == m || (m == LineComment && Lex(m, s).mode == Top)
    decreases |s|
  {
    if s == "" {
    } else {
      assert IsSpace(s[0]) && (m.DollarQuote? ==> m.tag[0] in m.tag);
      var move := Step(m, s);
      assert move.width == 1 && !move.cut && (move.mode == m || (m == LineComment && move.mode == Top));
      BlankKeepsMode(move.mode, s[1..]);
      assert s[..1] + s[1..] == s;
    }
  }

  lemma {:induction false} BlankInFront(lead: string, s: string)
    requires Blank(lead)
    ensures Lex(Top, lead + s) == Glue(lead, Lex(Top, s))
    decreases |lead|
  {
    var l := Lex(Top, s);
    if lead == "" {
      assert lead + s == s && "" + l.pieces[0] == l.pieces[0];
    } else {
      assert IsSpace(lead[0]);
      LexOneStep(Top, lead + s, Move(Top, 1, false));
      assert (lead + s)[1..] == lead[1..] + s && (lead + s)[..1] == lead[..1];
      BlankInFront(lead[1..], s);
      GlueGlue(lead[..1], lead[1..], l);
      assert lead[..1] + lead[1..] == lead;
    }
  }

  /** A trimmed piece lexes like the piece, except that it may end inside a line comment. */
  lemma {:induction false} TrimmedPiece(piece: string, m: Mode)
    requires Lex(Top, piece) == Lexed([piece], m)
    ensures var l := Lex(Top, Trim(piece));
      l.pieces == [Trim(piece)] && (l.mode == m || (l.mode == LineComment && m == Top))
  {
    var t := Trim(piece);
    var lead, trail := TrimParts(piece);
    BlankInFront(lead, t + trail);
    var l := Lex(Top, t);
    LexConcat(Top, t, trail, l);
    BlankKeepsMode(l.mode, trail);
    var rest := FirstPiece(Top, t);
  }

  // ---------------------------------------------------------------- the round trip

  /** A statement that stands by itself; only the last one may end inside an open quote. */
  ghost predicate Stands(t: string, isLast: bool) {
    var l := Lex(Top, t);
    && t != "" && Trim(t) == t && Trim(t + "\n") == t
    && l.pieces == [t]
    && (if isLast then l.mode != BlockComment && !l.mode.DollarQuote? else l.mode == Top || l.mode == LineComment)
  }

  ghost predicate AllStand(statements: seq<string>) {
    forall i :: 0 <= i < |statements| ==> Stands(statements[i], i == |statements| - 1)
  }

  lemma {:induction false} StatementsStand(s: string)
    requires Lex(Top, s).mode != BlockComment && !Lex(Top, s).mode.DollarQuote?
    ensures AllStand(Statements(Lex(Top, s).pieces))
    decreases |s|
  {
    var l := Lex(Top, s);
    var rest := FirstPiece(Top, s);
    var piece := l.pieces[0];
    var lead, trail := TrimParts(piece);
    if |l.pieces| == 1 {
      TrimmedPiece(piece, l.mode);
      assert Statements(l.pieces[1..]) == [];
    } else {
      TrimmedPiece(piece, Top);
      StatementsStand(rest);
      StandsInFront(Trim(piece), Statements(l.pieces[1..]));
    }
  }

  lemma {:induction false} StandsInFront(t: string, statements: seq<string>)
    requires AllStand(statements)
    requires t != "" ==> Stands(t, false)
    ensures AllStand((if t != "" then [t] else []) + statements)
  {
  }

  lemma {:induction false} JoinedSplits(statements: seq<string>)
    requires AllStand(statements)
    ensures Split(Joined(statements, "\n;")) == Ok(statements)
  {
    if statements == [] {
      assert Lex(Top, "").pieces == [""];
      assert Statements([""]) == [];
    } else {
      var t := statements[0];
      assert Stands(t, |statements| == 1);
      if |statements| == 1 {
        assert Statements([t]) == [t] && statements == [t];
      } else {
        var more := statements[1..];
        forall i | 0 <= i < |more| ensures Stands(more[i], i == |more| - 1) {
          assert more[i] == statements[i + 1];
        }
        JoinedSplits(more);
        StatementInFront(t, Joined(more, "\n;"));
        assert statements == [t] + more;
        assert t + "\n;" + Joined(more, "\n;") == Joined(statements, "\n;");
      }
    }
  }

  lemma {:induction false} SeparatorLexes(m: Mode, more: string, r: Lexed)
    requires m == Top || m == LineComment
    requires r == Lex(Top, more)
    ensures Lex(m, "\n;" + more) == Lexed(["\n"] + r.pieces, r.mode)
  {
    var cut := ";" + more;
    LexOneStep(Top, cut, Move(Top, 1, true));
    assert cut[1..] == more;
    var separator := "\n" + cut;
    LexOneStep(m, separator, Move(Top, 1, false));
    assert separator[1..] == cut && separator[..1] + "" == "\n";
    assert ([""] + r.pieces)[1..] == r.pieces;
    assert "\n;" + more == separator;
  }

  lemma {:induction false} StatementInFront(t: string, more: string)
    requires Stands(t, false)
    ensures var r := Lex(Top, more);
      && Lex(Top, t + "\n;" + more) == Lexed([t + "\n"] + r.pieces, r.mode)
      && Statements([t + "\n"] + r.pieces) == [t] + Statements(r.pieces)
  {
    var l, r := Lex(Top, t), Lex(Top, more);
    SeparatorLexes(l.mode, more, r);
    assert t + "\n;" + more == t + ("\n;" + more);
    LexConcat(Top, t, "\n;" + more, l);
    ThenSeparator(t, l, r);
    assert ([t + "\n"] + r.pieces)[1..] == r.pieces;
  }

  lemma {:induction false} ThenSeparator(t: string, l: Lexed, r: Lexed)
    requires l.pieces == [t]
    ensures Then(l, Lexed(["\n"] + r.pieces, r.mode)) == Lexed([t + "\n"] + r.pieces, r.mode)
  {
  }

  /** Joining the statements of a successful split and splitting again gives the same list. */
  lemma {:induction false} SplitRoundTrip(sql: string)
    requires Split(sql).Ok?
    ensures Split(Joined(Split(sql).value, "\n;")) == Split(sql)
  {
    StatementsStand(sql);
    JoinedSplits(Split(sql).value);
  }

  lemma {:induction false} CommentRunsOn(s: string)
    requires '\n' !in s
    ensures Lex(LineComment, s) == Lexed([s], LineComment)
    decreases |s|
  {
    if s == "" {
    } else {
      assert s[0] in s;
      CommentRunsOn(s[1..]);
      assert s[..1] + s[1..] == s;
    }
  }

  /** Without the newline the round trip fails: a trailing comment swallows what follows. */
  lemma {:induction false} NewlineIsNeeded(t: string, more: string)
    requires Stands(t, false) && Lex(Top, t).mode == LineComment && '\n' !in more
    ensures Split(t + ";" + more).Ok? && |Split(t + ";" + more).value| <= 1
  {
    assert t + ";" + more == t + (";" + more);
    LexConcat(Top, t, ";" + more, Lex(Top, t));
    CommentRunsOn(";" + more);
    var pieces := Lex(Top, t + (";" + more)).pieces;
    assert pieces == [t + (";" + more)];
    assert Statements(pieces[1..]) == [];
  }
}
