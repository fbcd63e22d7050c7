/** What trimming removes, and which spellings of a device address are one device. */
module TextLaws {
  import opened Text

  // ---------------------------------------------------------------- white space

  /** The white space of Latin-1: tab to carriage return, space, next line, and no-break space. */
  lemma {:induction false} LatinSpaces(c: char)
    requires c as int < 256
    ensures IsSpace(c) <==> '\t' <= c <= '\r' || c == ' ' || c as int == 133 || c as int == 160
  {
  }

  lemma {:induction false} BlankSplits(s: string)
    requires Blank(s) && s != ""
    ensures IsSpace(s[0]) && Blank(s[1..]) && IsSpace(s[|s| - 1]) && Blank(s[..|s| - 1])
  {
    assert s[0] in s && s[|s| - 1] in s;
  }

  lemma {:induction false} TrimRightDrops(s: string, trail: string)
    requires Blank(trail) && (s == "" || !IsSpace(s[|s| - 1]))
    ensures TrimRight(s + trail) == s
  {
    if trail == "" {
      assert s + trail == s;
    } else {
      BlankSplits(trail);
      TrimRightDrops(s, trail[..|trail| - 1]);
      assert (s + trail)[..|s + trail| - 1] == s + trail[..|trail| - 1];
    }
  }

  lemma {:induction false} TrimLeftDrops(lead: string, s: string)
    requires Blank(lead) && (s == "" || !IsSpace(s[0]))
    ensures TrimLeft(lead + s) == s
  {
    if lead == "" {
      assert lead + s == s;
    } else {
      BlankSplits(lead);
      TrimLeftDrops(lead[1..], s);
      assert (lead + s)[1..] == lead[1..] + s;
    }
  }

  /** Whatever white space surrounds it, text with none at its ends is what trimming leaves. */
  lemma {:induction false} TrimFinds(lead: string, s: string, trail: string)
    requires Blank(lead) && Blank(trail) && s != "" && !IsSpace(s[0]) && !IsSpace(s[|s| - 1])
    ensures Trim(lead + s + trail) == s
  {
    assert (lead + s)[|lead + s| - 1] == s[|s| - 1];
    TrimRightDrops(lead + s, trail);
    TrimLeftDrops(lead, s);
  }

  // ---------------------------------------------------------------- device addresses

  predicate IsDigit(c: char) { '0' <= c <= '9' || 'a' <= c <= 'f' }

  /** The same digit, in either case. */
  predicate Reads(c: char, digit: char) {
    c == digit || ('A' <= c <= 'F' && 'a' <= digit <= 'f' && (digit as int) - ('a' as int) == (c as int) - ('A' as int))
  }

  /** The text holds these digits in this order, with any dashes, colons and dots between them. */
  predicate Spells(s: string, digits: string) {
    if s == "" then digits == ""
    else if s[0] == '-' || s[0] == ':' || s[0] == '.' then Spells(s[1..], digits)
    else digits != "" && Reads(s[0], digits[0]) && Spells(s[1..], digits[1..])
  }

  predicate IsAddress(digits: string) { |digits| == 12 && forall c :: c in digits ==> IsDigit(c) }

  function Colons(d: string): string
    requires |d| == 12
  {
    d[..2] + ":" + (d[2..4] + ":" + (d[4..6] + ":" + (d[6..8] + ":" + (d[8..10] + ":" + d[10..]))))
  }

  lemma {:induction false} CompactSpells(s: string, digits: string)
    requires forall c :: c in digits ==> IsDigit(c)
    ensures Compact(s) == digits <==> Spells(s, digits)
  {
    if s == "" {
    } else if IsSeparator(s[0]) {
      CompactSpells(s[1..], digits);
    } else {
      assert Compact(s) == [Lower(s[0])] + Compact(s[1..]);
      if digits != "" {
        assert digits[0] in digits && digits == [digits[0]] + digits[1..];
        CompactSpells(s[1..], digits[1..]);
        LowerReads(s[0], digits[0]);
      }
    }
  }

  lemma {:induction false} LowerReads(c: char, digit: char)
    requires IsDigit(digit)
    ensures Reads(c, digit) <==> Lower(c) == digit
  {
  }

  lemma {:induction false} PairsAreColons(d: string)
    requires |d| == 12
    ensures Pairs(d) == Colons(d)
  {
    PairsStep(d, d[..2], d[2..]);
    PairsStep(d[2..], d[2..4], d[4..]);
    PairsStep(d[4..], d[4..6], d[6..]);
    PairsStep(d[6..], d[6..8], d[8..]);
    PairsStep(d[8..], d[8..10], d[10..]);
    assert Pairs(d[10..]) == d[10..];
  }

  lemma {:induction false} PairsStep(s: string, first: string, rest: string)
    requires |s| > 2 && first == s[..2] && rest == s[2..]
    ensures Pairs(s) == first + ":" + Pairs(rest)
  {
  }

  /** An address is known by its twelve digits alone, however they are spelled. */
  lemma {:induction false} SpellingDoesNotMatter(value: string, digits: string)
    requires IsAddress(digits)
    ensures NormalizeMAC(value) == Colons(digits) <==> Spells(Trim(value), digits)
  {
    var compact := Compact(Trim(value));
    CompactSpells(Trim(value), digits);
    PairsAreColons(digits);
    assert forall c :: c in digits ==> IsHex(c);
    if NormalizeMAC(value) == Colons(digits) {
      CompactPairs(compact);
      CompactPairs(digits);
    }
  }

  /** And only such spellings are addresses. */
  lemma {:induction false} NoAddressIff(value: string)
    ensures NormalizeMAC(value) == "" <==> !(exists digits :: IsAddress(digits) && Spells(Trim(value), digits))
  {
    var compact := Compact(Trim(value));
    if NormalizeMAC(value) != "" {
      CompactSpells(Trim(value), compact);
      assert IsAddress(compact);
    } else if exists digits :: IsAddress(digits) && Spells(Trim(value), digits) {
      var digits :| IsAddress(digits) && Spells(Trim(value), digits);
      CompactSpells(Trim(value), digits);
      assert forall c :: c in digits ==> IsHex(c);
      PairsEndInHex(digits);
    }
  }
}
