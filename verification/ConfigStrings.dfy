/**
 Values as text: string values in quotes with escapes, written and read back, and which texts are values
 of a type. Texts are those of C strings, so none holds a zero character.
 */
module ConfigStrings {
  import opened Wrappers
  import opened Expressions

  predicate Special(c: char) {
    c == '"' || c == '\\'
  }

  // ----- writing -----

  /** Every quote and backslash behind a backslash. */
  function Escaped(s: string): string {
    if s == "" then "" else (if Special(s[0]) then ['\\', s[0]] else [s[0]]) + Escaped(s[1..])
  }

  function Quoted(s: string): string {
    "\"" + Escaped(s) + "\""
  }

  function Specials(s: string): nat {
    if s == "" then 0 else (if Special(s[0]) then 1 else 0) + Specials(s[1..])
  }

  // Characters before the first special one.
  method Span(s: string, from: nat) returns (n: nat)
    requires from <= |s|
    ensures from + n <= |s| && (from + n < |s| ==> Special(s[from + n]))
    ensures forall i :: from <= i < from + n ==> !Special(s[i])
  {
    n := 0;
    while from + n < |s| && !Special(s[from + n])
      invariant from + n <= |s| && forall i :: from <= i < from + n ==> !Special(s[i])
    {
      n := n + 1;
    }
  }

  // A stretch without special characters is copied as it is.
  lemma {:induction false} PlainEscaped(s: string, n: nat)
    requires n <= |s| && forall i :: 0 <= i < n ==> !Special(s[i])
    ensures Escaped(s) == s[..n] + Escaped(s[n..]) && Specials(s) == Specials(s[n..])
  {
    if n > 0 {
      PlainEscaped(s[1..], n - 1);
      assert s[1..][n - 1..] == s[n..] && [s[0]] + s[1..][..n - 1] == s[..n];
    } else {
      assert s[0..] == s;
    }
  }

  // A first pass finds the room the text needs.
  method CountSpecials(s: string) returns (n: nat)
    ensures n == Specials(s)
  {
    n := 0;
    var p := 0;
    assert s[0..] == s;
    while true
      invariant p <= |s| && n + Specials(s[p..]) == Specials(s)
      decreases |s| - p
    {
      var l := Span(s, p);
      PlainEscaped(s[p..], l);
      assert s[p..][l..] == s[p + l..];
      p := p + l;
      if p == |s| {
        break;
      }
      assert s[p..][1..] == s[p + 1..];
      n := n + 1;
      p := p + 1;
    }
  }

  lemma RegroupText(a: string, b: string, c: string)
    ensures a + (b + c) == (a + b) + c
  {}

  lemma {:induction false} EscapedLength(s: string)
    ensures |Escaped(s)| == |s| + Specials(s)
  {
    if s != "" {
      EscapedLength(s[1..]);
    }
  }

  /** The quoted text, in a buffer of exactly the size it needs, the terminating zero included. */
  method EscapeStringValue(s: string) returns (res: string, size: nat)
    ensures res == Quoted(s)
    ensures size == |res| + 1
  {
    var n := CountSpecials(s);
    size := |s| + |"\"\""| + 1 + n;
    EscapedLength(s);
    res := "\"";
    var p := 0;
    assert s[0..] == s;
    while true
      invariant p <= |s| && res + Escaped(s[p..]) == "\"" + Escaped(s)
      decreases |s| - p
    {
      var l := Span(s, p);
      PlainEscaped(s[p..], l);
      assert s[p..][l..] == s[p + l..] && s[p..][..l] == s[p..p + l];
      RegroupText(res, s[p..p + l], Escaped(s[p + l..]));
      res := res + s[p..p + l];
      p := p + l;
      if p == |s| {
        break;
      }
      assert s[p..][1..] == s[p + 1..];
      RegroupText(res, ['\\', s[p]], Escaped(s[p + 1..]));
      assert res + ['\\', s[p]] == res + "\\" + [s[p]];
      res := res + "\\";
      res := res + [s[p]];
      p := p + 1;
    }
    assert res == "\"" + Escaped(s);
    res := res + "\"";
  }

  // ----- reading -----

  /** The text up to the first quote that is not escaped, without the escapes. */
  function Unquoted(s: string): Option<string> {
    if s == "" then None
    else if s[0] == '"' then Some("")
    else if s[0] == '\\' then (if |s| == 1 then None else Prepend(s[1], Unquoted(s[2..])))
    else Prepend(s[0], Unquoted(s[1..]))
  }

  function Prepend(c: char, r: Option<string>): Option<string> {
    if r.None? then None else Some([c] + r.value)
  }

  /** What was quoted is read back, whatever follows the closing quote. */
  lemma {:induction false} UnquotedEscaped(s: string, end: string)
    requires end != "" && end[0] == '"'
    ensures Unquoted(Escaped(s) + end) == Some(s)
  {
    if s == "" {
      assert Escaped(s) + end == end;
    } else {
      var tail := Escaped(s[1..]) + end;
      UnquotedEscaped(s[1..], end);
      UnquotedFirst(s[0], tail);
      RegroupText(if Special(s[0]) then ['\\', s[0]] else [s[0]], Escaped(s[1..]), end);
      assert [s[0]] + s[1..] == s;
    }
  }

  lemma UnquotedFirst(c: char, tail: string)
    ensures Unquoted((if Special(c) then ['\\', c] else [c]) + tail) == Prepend(c, Unquoted(tail))
  {
    if Special(c) {
      assert (['\\', c] + tail)[2..] == tail;
    } else {
      assert ([c] + tail)[1..] == tail;
    }
  }

  /** Without a closing quote there is no string. */
  lemma {:induction false} EscapedIsOpen(s: string)
    ensures Unquoted(Escaped(s)).None?
  {
    if s != "" {
      EscapedIsOpen(s[1..]);
      UnquotedFirst(s[0], Escaped(s[1..]));
    }
  }

  // Reading takes characters away and adds none.
  lemma {:induction false} UnquotedFrom(s: string, c: char)
    requires Unquoted(s).Some? && c in Unquoted(s).value
    ensures c in s
  {
    if s[0] == '\\' {
      if c != s[1] {
        UnquotedFrom(s[2..], c);
      }
    } else if c != s[0] {
      UnquotedFrom(s[1..], c);
    }
  }

  // What has been read in front of a position, and what is still to be read behind it.
  function Joined(read: string, rest: Option<string>): Option<string> {
    if rest.None? then None else Some(read + rest.value)
  }

  lemma JoinedPrepend(read: string, c: char, rest: Option<string>)
    ensures Joined(read, Prepend(c, rest)) == Joined(read + [c], rest)
  {
    if rest.Some? {
      assert read + ([c] + rest.value) == read + [c] + rest.value;
    }
  }

  /** Reads in place: backslashes are taken out of the text, and the text is cut at the closing quote. */
  method Unquote(s: string) returns (r: Option<string>)
    ensures r == Unquoted(s)
  {
    var text, p2 := s, 0;
    assert text[..0] == "" && text[0..] == text;
    assert Unquoted(s).Some? ==> "" + Unquoted(s).value == Unquoted(s).value;
    while true
      invariant p2 <= |text| && Joined(text[..p2], Unquoted(text[p2..])) == Unquoted(s)
      decreases |text| - p2
    {
      var l := Span(text, p2);
      PlainUnquoted(text, p2, l);
      p2 := p2 + l;
      if p2 == |text| {
        return None;
      }
      if text[p2] == '"' {
        assert text[..p2] + "" == text[..p2];
        return Some(text[..p2]);
      }
      if p2 + 1 == |text| {
        // The text ends behind the backslash, and so does the search.
        return None;
      }
      JoinedPrepend(text[..p2], text[p2 + 1], Unquoted(text[p2 + 2..]));
      assert text[p2..][2..] == text[p2 + 2..];
      ghost var read, rest := text[..p2] + [text[p2 + 1]], text[p2 + 2..];
      text := text[..p2] + text[p2 + 1..];
      p2 := p2 + 1;
      assert text[..p2] == read && text[p2..] == rest;
    }
  }

  lemma {:induction false} PlainUnquoted(text: string, p: nat, l: nat)
    requires p + l <= |text| && forall i :: p <= i < p + l ==> !Special(text[i])
    ensures Joined(text[..p], Unquoted(text[p..])) == Joined(text[..p + l], Unquoted(text[p + l..]))
    decreases l
  {
    if l > 0 {
      assert text[p..][1..] == text[p + 1..] && text[..p] + [text[p]] == text[..p + 1];
      JoinedPrepend(text[..p], text[p], Unquoted(text[p + 1..]));
      PlainUnquoted(text, p + 1, l - 1);
    }
  }

  // ----- numbers -----

  predicate IsDigit(c: char) {
    '0' <= c <= '9'
  }

  predicate IsHexDigit(c: char) {
    IsDigit(c) || 'a' <= c <= 'f' || 'A' <= c <= 'F'
  }

  predicate AllDigits(s: string) {
    forall i :: 0 <= i < |s| ==> IsDigit(s[i])
  }

  predicate AllHexDigits(s: string) {
    forall i :: 0 <= i < |s| ==> IsHexDigit(s[i])
  }

  function WithoutSign(s: string): string {
    if |s| > 0 && s[0] == '-' then s[1..] else s
  }

  function WithoutPrefix(s: string): string {
    if |s| > 1 && s[0] == '0' && (s[1] == 'x' || s[1] == 'X') then s[2..] else s
  }

  /** A decimal number, with a sign perhaps, without leading zeros. */
  predicate IsDecimal(s: string) {
    var d := WithoutSign(s);
    d != "" && AllDigits(d) && (d[0] == '0' ==> |d| == 1)
  }

  /** A hexadecimal number, with a prefix perhaps. */
  predicate IsHexadecimal(s: string) {
    WithoutPrefix(s) != "" && AllHexDigits(WithoutPrefix(s))
  }

  predicate ValidText(stype: SymbolType, s: string) {
    match stype
    case TString => true
    case TInt => IsDecimal(s)
    case THex => IsHexadecimal(s)
    case TBoolean => s != "" && s[0] in "yYmMnN"
    case TTristate => s != "" && s[0] in "yYmMnN"
    case _ => false
  }

  // The character at a position; the zero that ends the text behind it.
  function CharAt(s: string, i: nat): char {
    if i < |s| then s[i] else '\0'
  }

  /** Whether a text is a value of the type, character by character. */
  method StringValid(stype: SymbolType, s: string) returns (ok: bool)
    requires '\0' !in s
    ensures ok == ValidText(stype, s)
  {
    match stype
    case TString =>
      return true;
    case TInt =>
      ok := DecimalValid(s);
    case THex =>
      ok := HexadecimalValid(s);
    case TBoolean =>
      ok := CharAt(s, 0) in "yYmMnN";
    case TTristate =>
      ok := CharAt(s, 0) in "yYmMnN";
    case _ =>
      return false;
  }

  method DecimalValid(s: string) returns (ok: bool)
    requires '\0' !in s
    ensures ok == IsDecimal(s)
  {
    ghost var d := WithoutSign(s);
    var ch, p := CharAt(s, 0), 1;
    if ch == '-' {
      ch, p := CharAt(s, 1), 2;
    }
    if !IsDigit(ch) {
      assert d != "" ==> d[0] == ch;
      return false;
    }
    ghost var first := p - 1;
    assert d == s[first..];
    if ch == '0' && CharAt(s, p) != '\0' {
      return false;
    }
    while p < |s|
      invariant first < p <= |s| && forall i :: first <= i < p ==> IsDigit(s[i])
    {
      if !IsDigit(s[p]) {
        assert d[p - first] == s[p];
        return false;
      }
      p := p + 1;
    }
    return true;
  }

  method HexadecimalValid(s: string) returns (ok: bool)
    requires '\0' !in s
    ensures ok == IsHexadecimal(s)
  {
    var p := 0;
    if CharAt(s, 0) == '0' && (CharAt(s, 1) == 'x' || CharAt(s, 1) == 'X') {
      p := 2;
    }
    ghost var d, first := WithoutPrefix(s), p;
    assert d == s[first..];
    if p == |s| {
      return false;
    }
    while p < |s|
      invariant first <= p <= |s| && forall i :: first <= i < p ==> IsHexDigit(s[i])
    {
      if !IsHexDigit(s[p]) {
        assert d[p - first] == s[p];
        return false;
      }
      p := p + 1;
    }
    return true;
  }

  // ----- the texts of each type -----

  const DECIMALS: string := "0123456789"
  const LETTERS: string := "abcdefABCDEF"

  lemma DigitsAre(c: char)
    ensures IsDigit(c) <==> c in DECIMALS
    ensures IsHexDigit(c) <==> c in DECIMALS || c in LETTERS
  {
    if IsDigit(c) {
      assert DECIMALS[c as int - '0' as int] == c;
    }
    if 'a' <= c <= 'f' {
      assert LETTERS[c as int - 'a' as int] == c;
    }
    if 'A' <= c <= 'F' {
      assert LETTERS[c as int - 'A' as int + 6] == c;
    }
  }

  predicate DecimalDigits(d: string) {
    d != "" && (forall i :: 0 <= i < |d| ==> d[i] in DECIMALS) && (d[0] == '0' ==> d == "0")
  }

  predicate HexadecimalDigits(d: string) {
    d != "" && forall i :: 0 <= i < |d| ==> d[i] in DECIMALS || d[i] in LETTERS
  }

  /** The texts of each type, spelled out: anything for strings; digits without a leading zero, with a minus
      perhaps; hexadecimal digits, with a prefix perhaps; and a letter that stands for a value. */
  lemma ValidTextsAre(stype: SymbolType, s: string)
    ensures ValidText(stype, s) <==>
            match stype
            case TString => true
            case TInt => exists d :: DecimalDigits(d) && (s == d || s == "-" + d)
            case THex => exists d :: HexadecimalDigits(d) && (s == d || s == "0x" + d || s == "0X" + d)
            case TBoolean => s != "" && s[0] in ['y', 'Y', 'm', 'M', 'n', 'N']
            case TTristate => s != "" && s[0] in ['y', 'Y', 'm', 'M', 'n', 'N']
            case _ => false
  {
    match stype
    case TInt => DecimalTexts(s);
    case THex => HexadecimalTexts(s);
    case _ =>
  }

  lemma DecimalTexts(s: string)
    ensures IsDecimal(s) <==> exists d :: DecimalDigits(d) && (s == d || s == "-" + d)
  {
    forall c
      ensures IsDigit(c) <==> c in DECIMALS
    {
      DigitsAre(c);
    }
    if IsDecimal(s) {
      var d := WithoutSign(s);
      assert |d| == 1 ==> d == [d[0]];
      assert DecimalDigits(d);
    }
    if d :| DecimalDigits(d) && (s == d || s == "-" + d) {
      assert d[0] in DECIMALS && IsDigit(d[0]);
      assert ("-" + d)[1..] == d;
      assert WithoutSign(s) == d;
    }
  }

  lemma HexadecimalTexts(s: string)
    ensures IsHexadecimal(s) <==> exists d :: HexadecimalDigits(d) && (s == d || s == "0x" + d || s == "0X" + d)
  {
    forall c
      ensures IsHexDigit(c) <==> c in DECIMALS || c in LETTERS
    {
      DigitsAre(c);
    }
    if IsHexadecimal(s) {
      var d := WithoutPrefix(s);
      assert HexadecimalDigits(d);
      assert d != s ==> s == s[..2] + d && (s[..2] == "0x" || s[..2] == "0X");
    }
    if d :| HexadecimalDigits(d) && (s == d || s == "0x" + d || s == "0X" + d) {
      assert |d| > 1 ==> IsHexDigit(d[1]);
      assert ("0x" + d)[2..] == d && ("0X" + d)[2..] == d;
      assert WithoutPrefix(s) == d;
    }
  }
}
