/** Strings as the Go library trims them, and device addresses as the sensor package spells them. */
module Text {

  /** unicode.IsSpace, which strings.TrimSpace uses. */
  predicate IsSpace(c: char) {
    var n := c as int;
    9 <= n <= 13 || n == 32 || n == 0x85 || n == 0xA0 || n == 0x1680 || 0x2000 <= n <= 0x200A
    || n == 0x2028 || n == 0x2029 || n == 0x202F || n == 0x205F || n == 0x3000
  }

  function TrimLeft(s: string): string {
    if s != "" && IsSpace(s[0]) then TrimLeft(s[1..]) else s
  }

  function TrimRight(s: string): string {
    if s != "" && IsSpace(s[|s| - 1]) then TrimRight(s[..|s| - 1]) else s
  }

  function Trim(s: string): string { TrimLeft(TrimRight(s)) }

  ghost predicate Blank(s: string) {
    forall c :: c in s ==> IsSpace(c)
  }

  lemma {:induction false} TrimRightParts(s: string) returns (trail: string)
    ensures s == TrimRight(s) + trail && Blank(trail)
    ensures TrimRight(s) != "" ==> !IsSpace(TrimRight(s)[|TrimRight(s)| - 1])
    decreases |s|
  {
    trail := "";
    if s != "" && IsSpace(s[|s| - 1]) {
      var more := TrimRightParts(s[..|s| - 1]);
      trail := more + [s[|s| - 1]];
    }
  }

  lemma {:induction false} TrimLeftParts(s: string) returns (lead: string)
    ensures s == lead + TrimLeft(s) && Blank(lead)
    ensures TrimLeft(s) != "" ==> !IsSpace(TrimLeft(s)[0])
    decreases |s|
  {
    lead := "";
    if s != "" && IsSpace(s[0]) {
      var more := TrimLeftParts(s[1..]);
      lead := [s[0]] + more;
    }
  }

  /** Trimmed text, and what was trimmed from around it. */
  lemma {:induction false} TrimParts(s: string) returns (lead: string, trail: string)
    ensures s == lead + (Trim(s) + trail) && Blank(lead) && Blank(trail)
    ensures Trim(s) != "" ==> Trim(Trim(s)) == Trim(s) && Trim(Trim(s) + "\n") == Trim(s)
  {
    trail := TrimRightParts(s);
    lead := TrimLeftParts(TrimRight(s));
    var t := Trim(s);
    assert TrimRight(s) == lead + t;
    if t != "" {
      assert TrimRight(s)[|TrimRight(s)| - 1] == t[|t| - 1];
      assert (t + "\n")[..|t|] == t;
    }
  }

  // ---------------------------------------------------------------- device addresses

  function Lower(c: char): char {
    if 'A' <= c <= 'Z' then (c as int + 32) as char else c
  }

  predicate IsSeparator(c: char) { c == '-' || c == ':' || c == '.' }

  predicate IsHex(c: char) { '0' <= c <= '9' || 'a' <= c <= 'f' }

  function WithoutSeparator(c: char): string { if IsSeparator(c) then "" else [Lower(c)] }

  /** Lower case, without separators. */
  function Compact(s: string): string {
    if s == "" then ""
    else WithoutSeparator(s[0]) + Compact(s[1..])
  }

  function Pairs(s: string): string {
    if |s| <= 2 then s else s[..2] + ":" + Pairs(s[2..])
  }

  /** Six colon-separated pairs of lower-case hex digits, or "" for anything else. */
  function NormalizeMAC(value: string): string {
    var compact := Compact(Trim(value));
    if |compact| == 12 && forall c :: c in compact ==> IsHex(c) then Pairs(compact) else ""
  }

  lemma {:induction false} CompactConcat(a: string, b: string)
    ensures Compact(a + b) == Compact(a) + Compact(b)
  {
    if a == "" {
      assert a + b == b;
    } else {
      CompactConcat(a[1..], b);
      CompactFirst(a, b, a[0], a[1..], Compact(a[1..]), Compact(b));
    }
  }

  lemma {:induction false} CompactFirst(a: string, b: string, c: char, rest: string, front: string, back: string)
    requires a != "" && c == a[0] && rest == a[1..] && front == Compact(rest) && Compact(rest + b) == front + back
    ensures Compact(a) == WithoutSeparator(c) + front && Compact(a + b) == Compact(a) + back
  {
    assert (a + b)[0] == c && (a + b)[1..] == rest + b;
    assert Compact(a + b) == WithoutSeparator(c) + (front + back);
  }

  lemma {:induction false} CompactHex(s: string)
    requires forall c :: c in s ==> IsHex(c)
    ensures Compact(s) == s
  {
    if s == "" {
    } else {
      assert s[0] in s;
      CompactHex(s[1..]);
    }
  }

  lemma {:induction false} CompactPairs(s: string)
    requires forall c :: c in s ==> IsHex(c)
    ensures Compact(Pairs(s)) == s
  {
    if |s| <= 2 {
      CompactHex(s);
    } else {
      CompactPairs(s[2..]);
      CompactHex(s[..2]);
      CompactConcat(s[..2] + ":", Pairs(s[2..]));
      CompactConcat(s[..2], ":");
      assert Compact(":") == Compact("");
    }
  }

  lemma {:induction false} PairsEndInHex(s: string)
    requires s != "" && forall c :: c in s ==> IsHex(c)
    ensures Pairs(s) != "" && IsHex(Pairs(s)[0]) && IsHex(Pairs(s)[|Pairs(s)| - 1])
  {
    assert s[0] in s && s[|s| - 1] in s;
    if |s| > 2 {
      PairsEndInHex(s[2..]);
    }
  }

  /** A normalised address stays as it is, so that two spellings cannot become two devices. */
  lemma {:induction false} NormalizeMACIsIdempotent(value: string)
    ensures NormalizeMAC(NormalizeMAC(value)) == NormalizeMAC(value)
  {
    var compact := Compact(Trim(value));
    if |compact| == 12 && forall c :: c in compact ==> IsHex(c) {
      CompactPairs(compact);
      PairsEndInHex(compact);
    }
  }
}
