/**
 * `JSON.stringify` applied to a string, as the runner uses it to log a
 * command's options: the text in double quotes, with the quote, the
 * backslash and the control characters written as escapes. Characters here
 * are Unicode scalar values, so no lone surrogate needs escaping.
 */
module Json {
  import opened Wrappers

  const HexDigits: string := "0123456789abcdef"

  /** Lower-case hexadecimal digit, as the escapes of `JSON.stringify` write it. */
  function HexDigit(d: nat): (c: char)
    requires d < 16
    ensures IsHexDigit(c) && HexValue(c) == d
  {
    HexDigits[d]
  }

  predicate IsHexDigit(c: char)
  {
    '0' <= c <= '9' || 'a' <= c <= 'f'
  }

  function HexValue(c: char): nat
    requires IsHexDigit(c)
  {
    if c <= '9' then c as int - '0' as int else c as int - 'a' as int + 10
  }

  /** The characters `JSON.stringify` writes as a backslash and one letter, with that letter. */
  const ShortEscapes: map<char, char> :=
    map['"' := '"', '\\' := '\\', '\U{0008}' := 'b', '\t' := 't', '\n' := 'n', '\U{000C}' := 'f', '\r' := 'r']

  /** The letter after a backslash, with the character it stands for. */
  const ShortUnescapes: map<char, char> :=
    map['"' := '"', '\\' := '\\', 'b' := '\U{0008}', 't' := '\t', 'n' := '\n', 'f' := '\U{000C}', 'r' := '\r']

  /** The escape `JSON.stringify` writes for one character (the character itself when none is needed). */
  function EscapeChar(c: char): string
  {
    if c in ShortEscapes then ['\\', ShortEscapes[c]]
    else if c < ' ' then ['\\', 'u', '0', '0', HexDigit(c as int / 16), HexDigit(c as int % 16)]
    else [c]
  }

  function Escape(s: string): string
  {
    EscapeFrom(s, 0)
  }

  function EscapeFrom(s: string, i: nat): string
    requires i <= |s|
    decreases |s| - i
  {
    if i == |s| then [] else EscapeChar(s[i]) + EscapeFrom(s, i + 1)
  }

  /** `JSON.stringify(s)` for a string `s`. */
  function Quote(s: string): string
  {
    "\"" + Escape(s) + "\""
  }

  function Prepend(c: char, rest: Option<string>): Option<string>
  {
    match rest
    case None => None
    case Some(r) => Some([c] + r)
  }

  /** Reads back the escapes `Escape` writes; `None` for text it could not have written. */
  function Unescape(t: string): Option<string>
    decreases |t|
  {
    if t == [] then Some([])
    else if t[0] != '\\' then
      if t[0] == '"' || t[0] < ' ' then None else Prepend(t[0], Unescape(t[1..]))
    else if |t| < 2 then None
    else if t[1] in ShortUnescapes then Prepend(ShortUnescapes[t[1]], Unescape(t[2..]))
    else if t[1] == 'u' && |t| >= 6 && t[2] == '0' && t[3] == '0' && IsHexDigit(t[4]) && IsHexDigit(t[5]) then
      Prepend((16 * HexValue(t[4]) + HexValue(t[5])) as char, Unescape(t[6..]))
    else None
  }

  /** The two tables are inverse to each other. */
  lemma ShortEscapesInverse(c: char)
    requires c in ShortEscapes
    ensures ShortEscapes[c] in ShortUnescapes && ShortUnescapes[ShortEscapes[c]] == c
  {
  }

  /** Reading back one escaped character, followed by any text, gives the character first. */
  lemma UnescapeChar(c: char, t: string)
    ensures Unescape(EscapeChar(c) + t) == Prepend(c, Unescape(t))
  {
    var e := EscapeChar(c);
    var u := e + t;
    if c in ShortEscapes {
      ShortEscapesInverse(c);
      assert u[0] == '\\' && u[1] == ShortEscapes[c] && u[2..] == t;
    } else if c < ' ' {
      assert u[0] == '\\' && u[1] == 'u' && u[2] == '0' && u[3] == '0';
      assert u[4] == e[4] && u[5] == e[5] && u[6..] == t;
      assert (16 * (c as int / 16) + c as int % 16) as char == c;
    } else {
      assert u[0] == c && u[1..] == t;
    }
  }

  /** Every string comes back from its escaped form. */
  lemma UnescapeEscape(s: string)
    ensures Unescape(Escape(s)) == Some(s)
  {
    UnescapeEscapeFrom(s, 0);
  }

  lemma {:induction false} UnescapeEscapeFrom(s: string, i: nat)
    requires i <= |s|
    ensures Unescape(EscapeFrom(s, i)) == Some(s[i..])
    decreases |s| - i
  {
    if i < |s| {
      UnescapeStep(s, i);
      UnescapeEscapeFrom(s, i + 1);
      ConsSlice(s, i);
    } else {
      assert s[i..] == [];
    }
  }

  lemma ConsSlice(s: string, i: nat)
    requires i < |s|
    ensures Some(s[i..]) == Prepend(s[i], Some(s[i + 1..]))
  {
    assert [s[i]] + s[i + 1..] == s[i..];
  }

  /** Reading back the escapes from position `i` on starts with the character at `i`. */
  lemma UnescapeStep(s: string, i: nat)
    requires i < |s|
    ensures Unescape(EscapeFrom(s, i)) == Prepend(s[i], Unescape(EscapeFrom(s, i + 1)))
  {
    UnescapeChar(s[i], EscapeFrom(s, i + 1));
  }

  /** Quoting is injective: the quoted text determines the string. */
  lemma QuoteInjective(a: string, b: string)
    requires Quote(a) == Quote(b)
    ensures a == b
  {
    var qa, qb := Quote(a), Quote(b);
    assert Escape(a) == qa[1..|qa| - 1];
    assert Escape(b) == qb[1..|qb| - 1];
    UnescapeEscape(a);
    UnescapeEscape(b);
  }

  /** A string without quote, backslash or control character is written as it is, between quotes. */
  lemma EscapePlain(s: string)
    requires forall i :: 0 <= i < |s| ==> s[i] != '"' && s[i] != '\\' && s[i] >= ' '
    ensures Escape(s) == s
  {
    EscapePlainFrom(s, 0);
  }

  lemma {:induction false} EscapePlainFrom(s: string, i: nat)
    requires i <= |s|
    requires forall k :: 0 <= k < |s| ==> s[k] != '"' && s[k] != '\\' && s[k] >= ' '
    ensures EscapeFrom(s, i) == s[i..]
    decreases |s| - i
  {
    if i < |s| {
      assert EscapeChar(s[i]) == [s[i]];
      EscapePlainFrom(s, i + 1);
      assert [s[i]] + s[i + 1..] == s[i..];
    } else {
      assert s[i..] == [];
    }
  }
}
