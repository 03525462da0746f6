/**
 * Go's `strconv.Quote`, which the command library applies to every argument
 * it prints, and a reader that takes a quoted argument back apart.
 */
module Quoting {
  import opened Wrappers

  /** Characters `strconv.Quote` copies unchanged: printable ASCII other than `"` and `\`, and everything beyond ASCII. */
  predicate PrintedAsIs(c: char) {
    c != '"' && c != '\\' && ' ' <= c && c as int != 0x7f
  }

  /** Every character of `s` is copied unchanged by quoting. */
  predicate PrintsVerbatim(s: string) {
    forall j :: 0 <= j < |s| ==> PrintedAsIs(s[j])
  }

  /** A lower-case hexadecimal digit. */
  function HexDigit(n: nat): (d: char)
    requires n < 16
    ensures '0' <= d <= '9' || 'a' <= d <= 'f'
  {
    if n < 10 then ('0' as int + n) as char else ('a' as int + n - 10) as char
  }

  predicate IsHexDigit(d: char) {
    '0' <= d <= '9' || 'a' <= d <= 'f'
  }

  function HexValue(d: char): (n: nat)
    requires IsHexDigit(d)
    ensures n < 16
  {
    if d <= '9' then d as int - '0' as int else d as int - 'a' as int + 10
  }

  /** The letter of the one-letter escape for a control character that has one (`\a` … `\v`). */
  function ControlLetter(c: char): (e: Option<char>)
    ensures e.Some? ==> e.value in "abfnrtv"
  {
    if c as int == 7 then Some('a')
    else if c as int == 8 then Some('b')
    else if c as int == 12 then Some('f')
    else if c == '\n' then Some('n')
    else if c == '\r' then Some('r')
    else if c == '\t' then Some('t')
    else if c as int == 11 then Some('v')
    else None
  }

  /** The control character a one-letter escape stands for. */
  function LetterControl(e: char): Option<char> {
    if e == 'a' then Some(7 as char)
    else if e == 'b' then Some(8 as char)
    else if e == 'f' then Some(12 as char)
    else if e == 'n' then Some('\n')
    else if e == 'r' then Some('\r')
    else if e == 't' then Some('\t')
    else if e == 'v' then Some(11 as char)
    else None
  }

  /**
   * One character as `strconv.Quote` writes it: `"` and `\` behind a
   * backslash, printable characters as they are, the seven control characters
   * with a letter escape as that escape, and the other control characters as
   * `\x` and two hexadecimal digits.
   */
  function Escaped(c: char): (r: string)
    ensures |r| >= 1
    ensures |r| == 1 <==> PrintedAsIs(c)
    ensures PrintedAsIs(c) ==> r == [c]
  {
    if c == '"' || c == '\\' then ['\\', c]
    else if PrintedAsIs(c) then [c]
    else if ControlLetter(c).Some? then ['\\', ControlLetter(c).value]
    else ['\\', 'x', HexDigit(c as int / 16), HexDigit(c as int % 16)]
  }

  /** The text between the quotes that `strconv.Quote` puts around `s`. */
  function Escape(s: string): (r: string)
    ensures |r| >= |s|
  {
    if s == [] then [] else Escaped(s[0]) + Escape(s[1..])
  }

  /** `strconv.Quote(s)`. */
  function Quote(s: string): string {
    "\"" + Escape(s) + "\""
  }

  /** Quoting changes an argument exactly when it holds a character that must be escaped. */
  lemma {:induction false} EscapeIsIdentityIff(s: string)
    ensures Escape(s) == s <==> PrintsVerbatim(s)
  {
    if s != [] {
      EscapeIsIdentityIff(s[1..]);
      var head, rest := Escaped(s[0]), Escape(s[1..]);
      if Escape(s) == s {
        assert |head| == 1;
        assert rest == Escape(s)[1..] == s[1..];
      }
      if PrintsVerbatim(s) {
        assert PrintsVerbatim(s[1..]) && head == [s[0]];
        assert [s[0]] + s[1..] == s;
      }
    }
  }

  /** Prepends a character to the text of a read result. */
  function Prepend(c: char, o: Option<(string, string)>): (r: Option<(string, string)>)
    ensures r.Some? <==> o.Some?
    ensures r.Some? ==> r.value == ([c] + o.value.0, o.value.1)
  {
    match o
    case None => None
    case Some((text, rest)) => Some(([c] + text, rest))
  }

  /**
   * Reads an argument as `strconv.Quote` writes it, after its opening quote:
   * the argument and what follows its closing quote, or None when the text is
   * cut short or holds an escape quoting never writes.
   */
  function ReadQuoted(t: string): (r: Option<(string, string)>)
    ensures r.Some? ==> |r.value.1| < |t|
    decreases |t|
  {
    if t == [] then None
    else if t[0] == '"' then Some(([], t[1..]))
    else if t[0] != '\\' then Prepend(t[0], ReadQuoted(t[1..]))
    else if |t| < 2 then None
    else if t[1] == '"' || t[1] == '\\' then Prepend(t[1], ReadQuoted(t[2..]))
    else if LetterControl(t[1]).Some? then Prepend(LetterControl(t[1]).value, ReadQuoted(t[2..]))
    else if t[1] == 'x' && |t| >= 4 && IsHexDigit(t[2]) && IsHexDigit(t[3]) then
      Prepend((HexValue(t[2]) * 16 + HexValue(t[3])) as char, ReadQuoted(t[4..]))
    else None
  }

  /** The character written as `\x` and two hexadecimal digits reads back as itself. */
  lemma HexEscapeRoundTrip(c: char)
    requires c as int < 256
    ensures IsHexDigit(HexDigit(c as int / 16)) && IsHexDigit(HexDigit(c as int % 16))
    ensures (HexValue(HexDigit(c as int / 16)) * 16 + HexValue(HexDigit(c as int % 16))) as char == c
  {
  }

  /** One escaped character reads back as itself, and reading goes on after it. */
  lemma ReadEscaped(c: char, rest: string)
    ensures ReadQuoted(Escaped(c) + rest) == Prepend(c, ReadQuoted(rest))
  {
    if c == '"' || c == '\\' {
      ReadTwoCharEscape(c, c, rest);
    } else if PrintedAsIs(c) {
      var t := [c] + rest;
      assert t[0] == c && t[1..] == rest;
    } else if ControlLetter(c).Some? {
      LetterRoundTrip(c);
      ReadTwoCharEscape(ControlLetter(c).value, c, rest);
    } else {
      ReadHexEscape(c, rest);
    }
  }

  lemma LetterRoundTrip(c: char)
    requires ControlLetter(c).Some?
    ensures LetterControl(ControlLetter(c).value) == Some(c)
    ensures ControlLetter(c).value != '"' && ControlLetter(c).value != '\\'
  {
  }

  /** A backslash and `e` read back as `c` when `e` is `c` itself or the letter escape of `c`. */
  lemma ReadTwoCharEscape(e: char, c: char, rest: string)
    requires (e == c && (c == '"' || c == '\\')) || (e != '"' && e != '\\' && LetterControl(e) == Some(c))
    ensures ReadQuoted(['\\', e] + rest) == Prepend(c, ReadQuoted(rest))
  {
    var t := ['\\', e] + rest;
    assert t[0] == '\\' && t[1] == e && t[2..] == rest;
  }

  /** A control character without a letter escape reads back from its `\x` escape. */
  lemma ReadHexEscape(c: char, rest: string)
    requires !PrintedAsIs(c) && c != '"' && c != '\\' && ControlLetter(c).None?
    ensures ReadQuoted(Escaped(c) + rest) == Prepend(c, ReadQuoted(rest))
  {
    assert c as int < 0x80;
    HexEscapeRoundTrip(c);
    var t := Escaped(c) + rest;
    assert LetterControl('x').None?;
    assert t[0] == '\\' && t[1] == 'x' && t[4..] == rest;
    assert t[2] == HexDigit(c as int / 16) && t[3] == HexDigit(c as int % 16);
  }

  /** Reading a quoted argument gives back the argument and the text after its closing quote. */
  lemma {:induction false} ReadQuotedRoundTrip(s: string, rest: string)
    ensures ReadQuoted(Escape(s) + "\"" + rest) == Some((s, rest))
    decreases |s|
  {
    if s == [] {
      assert Escape(s) + "\"" + rest == "\"" + rest;
    } else {
      ReadQuotedRoundTrip(s[1..], rest);
      assert Escape(s) + "\"" + rest == Escaped(s[0]) + (Escape(s[1..]) + "\"" + rest);
      ReadEscaped(s[0], Escape(s[1..]) + "\"" + rest);
      assert [s[0]] + s[1..] == s;
    }
  }

  /** Characters that escaping itself writes: the backslash, the quote, the escape letters and hexadecimal digits. */
  predicate EscapeSyntax(c: char) {
    c == '\\' || c == '"' || c in "abfnrtvx" || IsHexDigit(c)
  }

  /** A character escaping does not write appears in the escaped text only where it is in the original. */
  lemma {:induction false} EscapeLacks(s: string, c: char)
    requires !EscapeSyntax(c) && c !in s
    ensures c !in Escape(s)
    decreases |s|
  {
    if s != [] {
      EscapeLacks(s[1..], c);
      assert c !in Escaped(s[0]);
    }
  }
}
