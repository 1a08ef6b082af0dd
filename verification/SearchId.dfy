/**
 The identifier escape of the documentation search page and the row filter built on it.

 A script string is a sequence of UTF-16 code units.  Units in [a-z0-9] or at 0x80 and
 above are kept; every other unit becomes "_" followed by two lower-case hexadecimal digits.
 */
module SearchId {
  import opened Basics

  type CodeUnit = x: int | 0 <= x < 0x1_0000
  type JsString = seq<CodeUnit>

  const UNDERSCORE: CodeUnit := 95
  const SPACE: CodeUnit := 32

  predicate IsDigit(c: CodeUnit) { 48 <= c <= 57 }

  /** The character class of the regular expression in the escape loop. */
  predicate Kept(c: CodeUnit) { 97 <= c <= 122 || IsDigit(c) || 0x80 <= c }

  function HexDigit(n: int): CodeUnit
    requires 0 <= n < 16
  {
    if n < 10 then 48 + n else 87 + n
  }

  /** Number.toString(16). */
  function ToString16(n: nat): JsString
  {
    if n < 16 then [HexDigit(n)] else ToString16(n / 16) + [HexDigit(n % 16)]
  }

  function EscapeUnit(c: CodeUnit): JsString
  {
    if Kept(c) then [c]
    else if c < 16 then [UNDERSCORE, 48] + ToString16(c)
    else [UNDERSCORE] + ToString16(c)
  }

  function Escape(s: JsString): JsString
  {
    if s == [] then [] else EscapeUnit(s[0]) + Escape(s[1..])
  }

  lemma EscapeStep(done: JsString, s: JsString, i: nat)
    requires i < |s|
    ensures done + Escape(s[i..]) == done + EscapeUnit(s[i]) + Escape(s[i + 1..])
  {
    assert s[i..][1..] == s[i + 1..];
  }

  method ConvertToId(search: JsString) returns (result: JsString)
    ensures result == Escape(search)
  {
    result := [];
    var i := 0;
    while i < |search|
      invariant 0 <= i <= |search|
      invariant result + Escape(search[i..]) == Escape(search)
    {
      EscapeStep(result, search, i);
      var c := search[i];
      var piece;
      if Kept(c) {
        piece := [c];
      } else if c < 16 {
        piece := [UNDERSCORE, 48] + ToString16(c);
      } else {
        piece := [UNDERSCORE] + ToString16(c);
      }
      result := result + piece;
      i := i + 1;
    }
  }

  // ----- the escape is a prefix code -----

  lemma EscapedShape(c: CodeUnit)
    requires !Kept(c)
    ensures EscapeUnit(c) == [UNDERSCORE, HexDigit(c / 16), HexDigit(c % 16)]
  {
    if c >= 16 {
      assert ToString16(c / 16) == [HexDigit(c / 16)];
    }
  }

  /** The code word at the front of a string determines the unit it stands for. */
  lemma CodeWordUnique(a: CodeUnit, b: CodeUnit, x: JsString, y: JsString)
    requires EscapeUnit(a) + x <= EscapeUnit(b) + y
    ensures a == b && x <= y
  {
    if !Kept(a) { EscapedShape(a); }
    if !Kept(b) { EscapedShape(b); }
    var l, r := EscapeUnit(a) + x, EscapeUnit(b) + y;
    assert l[0] == r[0];
    if !Kept(a) {
      assert l[1] == r[1] && l[2] == r[2];
    }
    assert a == b;
    var n := |EscapeUnit(a)|;
    assert x == l[n..] && y == r[n..];
  }

  lemma {:induction false} EscapeEmpty(t: JsString)
    ensures Escape(t) == [] <==> t == []
  {
    if t != [] && !Kept(t[0]) { EscapedShape(t[0]); }
  }

  /** Prefixes of escaped strings are exactly the escapes of prefixes. */
  lemma {:induction false} PrefixCode(s: JsString, t: JsString)
    ensures Escape(s) <= Escape(t) <==> s <= t
  {
    if s == [] {
    } else if t == [] {
      EscapeEmpty(s);
    } else {
      PrefixCode(s[1..], t[1..]);
      assert s <= t <==> s[0] == t[0] && s[1..] <= t[1..] by {
        assert s == [s[0]] + s[1..] && t == [t[0]] + t[1..];
      }
      if Escape(s) <= Escape(t) {
        CodeWordUnique(s[0], t[0], Escape(s[1..]), Escape(t[1..]));
      }
    }
  }

  lemma Injective(s: JsString, t: JsString)
    requires Escape(s) == Escape(t)
    ensures s == t
  {
    PrefixCode(s, t);
    PrefixCode(t, s);
  }

  // ----- decoding -----

  function HexValue(c: CodeUnit): (r: Option<int>)
    ensures r.Some? ==> 0 <= r.value < 16 && HexDigit(r.value) == c
    ensures forall n :: 0 <= n < 16 && HexDigit(n) == c ==> r == Some(n)
  {
    if IsDigit(c) then Some(c - 48)
    else if 97 <= c <= 102 then Some(c - 87)
    else None
  }

  /** Reads one code word; the second component is the rest of the input. */
  function DecodeUnit(e: JsString): Option<(CodeUnit, JsString)>
  {
    if e == [] then None
    else if Kept(e[0]) then Some((e[0], e[1..]))
    else if e[0] != UNDERSCORE || |e| < 3 then None
    else
      match (HexValue(e[1]), HexValue(e[2]))
      case (Some(h), Some(l)) =>
        var c := 16 * h + l;
        if Kept(c) then None else Some((c, e[3..]))
      case _ => None
  }

  lemma DecodeUnitExact(e: JsString, c: CodeUnit, rest: JsString)
    ensures DecodeUnit(e) == Some((c, rest)) <==> e == EscapeUnit(c) + rest
  {
    if !Kept(c) { EscapedShape(c); }
    if e == EscapeUnit(c) + rest {
      assert rest == e[|EscapeUnit(c)|..];
      if !Kept(c) {
        assert e[0] == UNDERSCORE && e[1] == HexDigit(c / 16) && e[2] == HexDigit(c % 16);
        assert c < 0x80;
        assert HexValue(e[1]) == Some(c / 16) && HexValue(e[2]) == Some(c % 16);
      }
    }
    if DecodeUnit(e) == Some((c, rest)) {
      if Kept(e[0]) {
        assert e == [e[0]] + e[1..];
      } else {
        assert e == [e[0], e[1], e[2]] + e[3..];
        var h, l := HexValue(e[1]).value, HexValue(e[2]).value;
        assert c == 16 * h + l && c / 16 == h && c % 16 == l;
      }
    }
  }

  function Unescape(e: JsString): Option<JsString>
    decreases |e|
  {
    if e == [] then Some([])
    else
      match DecodeUnit(e)
      case None => None
      case Some((c, rest)) =>
        if |rest| >= |e| then None
        else
          match Unescape(rest)
          case None => None
          case Some(t) => Some([c] + t)
  }

  /** Decoding accepts exactly the escaped strings and returns the one string behind each. */
  lemma {:induction false} UnescapeExact(e: JsString, s: JsString)
    ensures Unescape(e) == Some(s) <==> e == Escape(s)
    decreases |e|
  {
    EscapeEmpty(s);
    if e != [] && s != [] {
      DecodeUnitExact(e, s[0], Escape(s[1..]));
      assert s == [s[0]] + s[1..];
      match DecodeUnit(e) {
        case None =>
        case Some((c, rest)) =>
          DecodeUnitExact(e, c, rest);
          DecodeUnitExact(e, s[0], rest);
          if |rest| < |e| {
            UnescapeExact(rest, s[1..]);
            if Unescape(e) == Some(s) {
              assert ([c] + Unescape(rest).value)[1..] == Unescape(rest).value;
            }
          }
      }
    }
  }

  // ----- the row filter -----

  const SR_RESULT: JsString := [83, 82, 82, 101, 115, 117, 108, 116]

  datatype Display = Unset | Block | Hidden
  datatype Row = Row(className: JsString, id: JsString, display: Display)

  function DropLeading(s: JsString): JsString
  {
    if s != [] && s[0] == SPACE then DropLeading(s[1..]) else s
  }

  function DropTrailing(s: JsString): JsString
  {
    if s != [] && s[|s| - 1] == SPACE then DropTrailing(s[..|s| - 1]) else s
  }

  function SkipDigits(s: JsString): JsString
  {
    if s != [] && IsDigit(s[0]) then SkipDigits(s[1..]) else s
  }

  /** Drops a leading row number: the letters sr, any digits and an underscore. */
  function StripRowPrefix(s: JsString): JsString
  {
    if |s| >= 2 && s[0] == 115 && s[1] == 114 then
      var t := SkipDigits(s[2..]);
      if t != [] && t[0] == UNDERSCORE then t[1..] else s
    else s
  }

  /** What one row's display becomes for an already escaped search term. */
  function Shown(lower: JsString -> JsString, term: JsString, r: Row): Display
  {
    if r.className != SR_RESULT then r.display
    else if term <= StripRowPrefix(lower(r.id)) then Block
    else Hidden
  }

  function CountMatches(lower: JsString -> JsString, term: JsString, rows: seq<Row>): nat
  {
    if rows == [] then 0
    else CountMatches(lower, term, rows[..|rows| - 1]) +
         if rows[|rows| - 1].className == SR_RESULT && Shown(lower, term, rows[|rows| - 1]) == Block then 1 else 0
  }

  lemma PrefixIsSlice(a: JsString, b: JsString)
    ensures a <= b <==> |a| <= |b| && b[..|a|] == a
  {
    if a <= b { assert b[..|a|] == a; }
  }

  /** The filter loop; `lower` stands for String.toLowerCase. */
  method Search(lower: JsString -> JsString, search: JsString, rows: array<Row>) returns (matches: nat)
    modifies rows
    ensures var term := Escape(lower(DropTrailing(DropLeading(search))));
            && (forall i :: 0 <= i < rows.Length ==>
                  rows[i] == old(rows[i]).(display := Shown(lower, term, old(rows[i]))))
            && matches == CountMatches(lower, term, old(rows[..]))
  {
    var term := ConvertToId(lower(DropTrailing(DropLeading(search))));
    matches := 0;
    ghost var before := rows[..];
    var i := 0;
    while i < rows.Length
      invariant 0 <= i <= rows.Length
      invariant forall j :: 0 <= j < i ==> rows[j] == before[j].(display := Shown(lower, term, before[j]))
      invariant forall j :: i <= j < rows.Length ==> rows[j] == before[j]
      invariant matches == CountMatches(lower, term, before[..i])
    {
      assert before[..i + 1][..i] == before[..i];
      var row := rows[i];
      if row.className == SR_RESULT {
        var rowMatchName := StripRowPrefix(lower(row.id));
        PrefixIsSlice(term, rowMatchName);
        if |term| <= |rowMatchName| && rowMatchName[..|term|] == term {
          rows[i] := row.(display := Block);
          matches := matches + 1;
        } else {
          rows[i] := row.(display := Hidden);
        }
      }
      i := i + 1;
    }
    assert before[..rows.Length] == before;
  }

  lemma {:induction false} StripNumbered(digits: JsString, rest: JsString)
    requires forall i :: 0 <= i < |digits| ==> IsDigit(digits[i])
    ensures SkipDigits(digits + ([UNDERSCORE] + rest)) == [UNDERSCORE] + rest
  {
    if digits != [] {
      StripNumbered(digits[1..], rest);
      assert (digits + ([UNDERSCORE] + rest))[1..] == digits[1..] + ([UNDERSCORE] + rest);
    }
  }

  lemma StripRowId(digits: JsString, rest: JsString)
    requires forall i :: 0 <= i < |digits| ==> IsDigit(digits[i])
    ensures StripRowPrefix([115, 114] + digits + [UNDERSCORE] + rest) == rest
  {
    var id := [115, 114] + digits + [UNDERSCORE] + rest;
    StripNumbered(digits, rest);
    assert id[2..] == digits + ([UNDERSCORE] + rest);
    assert ([UNDERSCORE] + rest)[1..] == rest;
  }

  /** A result row named by the escape of `name` is shown exactly when the cleaned, lower-cased
      search term is a prefix of `name`, whatever the lower-casing function does. */
  lemma FilterMatchesNames(lower: JsString -> JsString, search: JsString, r: Row, digits: JsString, name: JsString)
    requires r.className == SR_RESULT
    requires forall i :: 0 <= i < |digits| ==> IsDigit(digits[i])
    requires lower(r.id) == [115, 114] + digits + [UNDERSCORE] + Escape(name)
    ensures var wanted := lower(DropTrailing(DropLeading(search)));
            Shown(lower, Escape(wanted), r) == if wanted <= name then Block else Hidden
  {
    StripRowId(digits, Escape(name));
    PrefixCode(lower(DropTrailing(DropLeading(search))), name);
  }

  /** The escape of one unit, written out. */
  lemma EscapeWrittenOut(c: CodeUnit)
    ensures EscapeUnit(c) ==
            if 97 <= c <= 122 || 48 <= c <= 57 || 128 <= c then [c]
            else [95, c / 16 + (if c / 16 < 10 then 48 else 87), c % 16 + (if c % 16 < 10 then 48 else 87)]
  {
    if !Kept(c) { EscapedShape(c); }
  }

  // ----- what surrounds a search term -----

  predicate AllSpaces(s: JsString) { forall i :: 0 <= i < |s| ==> s[i] == 32 }

  /** Neither end is a space. */
  predicate Trimmed(s: JsString) { s != [] ==> s[0] != 32 && s[|s| - 1] != 32 }

  lemma {:induction false} LeadingDropped(p: JsString, t: JsString)
    requires AllSpaces(p) && (t != [] ==> t[0] != 32)
    ensures DropLeading(p + t) == t
  {
    if p == [] {
      assert p + t == t;
    } else {
      assert (p + t)[1..] == p[1..] + t;
      LeadingDropped(p[1..], t);
    }
  }

  lemma {:induction false} TrailingDropped(t: JsString, q: JsString)
    requires AllSpaces(q) && (t != [] ==> t[|t| - 1] != 32)
    ensures DropTrailing(t + q) == t
  {
    if q == [] {
      assert t + q == t;
    } else {
      assert (t + q)[..|t + q| - 1] == t + q[..|q| - 1];
      TrailingDropped(t, q[..|q| - 1]);
    }
  }

  /** Exactly the spaces around a term are dropped; spaces inside it stay. */
  lemma SpacesDropped(p: JsString, t: JsString, q: JsString)
    requires AllSpaces(p) && AllSpaces(q) && Trimmed(t)
    ensures DropTrailing(DropLeading(p + t + q)) == t
  {
    if t == [] {
      assert p + t + q == (p + q) + [];
      LeadingDropped(p + q, []);
    } else {
      assert p + t + q == p + (t + q);
      LeadingDropped(p, t + q);
      TrailingDropped(t, q);
    }
  }

  lemma LeadingSpaces(s: JsString) returns (n: nat)
    ensures n <= |s| && AllSpaces(s[..n]) && (n < |s| ==> s[n] != 32)
  {
    n := 0;
    while n < |s| && s[n] == 32
      invariant n <= |s| && AllSpaces(s[..n])
    {
      n := n + 1;
    }
  }

  lemma TrailingSpaces(s: JsString) returns (n: nat)
    ensures n <= |s| && AllSpaces(s[n..]) && (n > 0 ==> s[n - 1] != 32)
  {
    n := |s|;
    while n > 0 && s[n - 1] == 32
      invariant n <= |s| && AllSpaces(s[n..])
    {
      n := n - 1;
    }
  }

  /** Every term is a trimmed one with spaces around it. */
  lemma Core(s: JsString) returns (p: JsString, t: JsString, q: JsString)
    ensures s == p + t + q && AllSpaces(p) && AllSpaces(q) && Trimmed(t)
  {
    var n := LeadingSpaces(s);
    var rest := s[n..];
    var m := TrailingSpaces(rest);
    p, t, q := s[..n], rest[..m], rest[m..];
  }

  lemma Around(p: JsString, a: JsString, t: JsString, b: JsString, q: JsString)
    ensures p + (a + t + b) + q == (p + a) + t + (b + q)
  {
  }

  lemma MoreSpaces(p: JsString, q: JsString)
    requires AllSpaces(p) && AllSpaces(q)
    ensures AllSpaces(p + q)
  {
  }

  lemma SameCore(p: JsString, s: JsString, q: JsString)
    requires AllSpaces(p) && AllSpaces(q)
    ensures DropTrailing(DropLeading(p + s + q)) == DropTrailing(DropLeading(s))
  {
    var a, t, b := Core(s);
    Around(p, a, t, b, q);
    MoreSpaces(p, a);
    MoreSpaces(b, q);
    SpacesDropped(a, t, b);
    SpacesDropped(p + a, t, b + q);
  }

  /** More spaces around a term make no difference to any row. */
  lemma SpacesAroundIgnored(lower: JsString -> JsString, p: JsString, s: JsString, q: JsString, r: Row)
    requires AllSpaces(p) && AllSpaces(q)
    ensures Shown(lower, Escape(lower(DropTrailing(DropLeading(p + s + q)))), r) ==
            Shown(lower, Escape(lower(DropTrailing(DropLeading(s)))), r)
  {
    SameCore(p, s, q);
  }

  /** A result row is shown exactly when the lower-cased term, without the spaces around it, is a prefix of the row's
      name; a row of another class keeps its display. */
  lemma RowShownIff(lower: JsString -> JsString, p: JsString, t: JsString, q: JsString, r: Row, digits: JsString,
                    name: JsString)
    requires AllSpaces(p) && AllSpaces(q) && Trimmed(t)
    requires forall i :: 0 <= i < |digits| ==> 48 <= digits[i] <= 57
    requires lower(r.id) == [115, 114] + digits + [95] + Escape(name)
    ensures Shown(lower, Escape(lower(DropTrailing(DropLeading(p + t + q)))), r) ==
            if r.className != [83, 82, 82, 101, 115, 117, 108, 116] then r.display
            else if lower(t) <= name then Block
            else Hidden
  {
    SpacesDropped(p, t, q);
    if r.className == SR_RESULT { FilterMatchesNames(lower, p + t + q, r, digits, name); }
  }

  /** Where the row number is cut off, there was one. */
  lemma CutIsRowNumber(s: JsString) returns (digits: JsString)
    ensures forall i :: 0 <= i < |digits| ==> 48 <= digits[i] <= 57
    ensures StripRowPrefix(s) == s || s == [115, 114] + digits + [95] + StripRowPrefix(s)
  {
    digits := [];
    if StripRowPrefix(s) != s {
      digits := SkippedDigits(s[2..]);
      assert s == [115, 114] + s[2..];
      assert SkipDigits(s[2..]) == [95] + StripRowPrefix(s);
    }
  }

  lemma {:induction false} SkippedDigits(s: JsString) returns (digits: JsString)
    ensures forall i :: 0 <= i < |digits| ==> 48 <= digits[i] <= 57
    ensures s == digits + SkipDigits(s)
  {
    if s != [] && IsDigit(s[0]) {
      digits := SkippedDigits(s[1..]);
      digits := [s[0]] + digits;
      assert s == [s[0]] + s[1..];
    } else {
      digits := [];
    }
  }

  predicate Matches(lower: JsString -> JsString, term: JsString, r: Row)
  {
    r.className == SR_RESULT && term <= StripRowPrefix(lower(r.id))
  }

  function MatchingRows(lower: JsString -> JsString, term: JsString, rows: seq<Row>): set<nat>
  {
    set i: nat | i < |rows| && Matches(lower, term, rows[i])
  }

  lemma OneMoreRow(lower: JsString -> JsString, term: JsString, rows: seq<Row>)
    requires rows != []
    ensures var n := |rows| - 1;
            var before := MatchingRows(lower, term, rows[..n]);
            && n !in before
            && MatchingRows(lower, term, rows) == if Matches(lower, term, rows[n]) then before + {n} else before
  {
    var n := |rows| - 1;
    var before := MatchingRows(lower, term, rows[..n]);
    forall i: nat
      ensures i in MatchingRows(lower, term, rows) <==> i in before || (i == n && Matches(lower, term, rows[n]))
    {
      if i < n { assert rows[..n][i] == rows[i]; }
    }
  }

  /** The count is the number of matching result rows. */
  lemma {:induction false} CountIsNumberOfMatches(lower: JsString -> JsString, term: JsString, rows: seq<Row>)
    ensures CountMatches(lower, term, rows) == |MatchingRows(lower, term, rows)|
  {
    if rows == [] {
      assert MatchingRows(lower, term, rows) == {};
    } else {
      OneMoreRow(lower, term, rows);
      CountIsNumberOfMatches(lower, term, rows[..|rows| - 1]);
    }
  }
}
