/**
 * The JavaScript string operations the extension relies on, as functions on
 * `seq<char>`: `trim`, `startsWith`, `endsWith`, `split` on one character,
 * `join`, the first-occurrence `replace` with an empty replacement, and the
 * decimal rendering of numbers inside template literals.
 */
module Text {
  import opened Wrappers
  import opened Seqs

  /** WhiteSpace and LineTerminator of ECMAScript: what `String.prototype.trim` removes. */
  predicate IsWhitespace(c: char)
  {
    c == '\t' || c == '\n' || c == '\U{000B}' || c == '\U{000C}' || c == '\r' || c == ' ' ||
    c == '\U{00A0}' || c == '\U{1680}' || ('\U{2000}' <= c <= '\U{200A}') ||
    c == '\U{2028}' || c == '\U{2029}' || c == '\U{202F}' || c == '\U{205F}' ||
    c == '\U{3000}' || c == '\U{FEFF}'
  }

  predicate AllWhitespace(s: string)
  {
    forall i :: 0 <= i < |s| ==> IsWhitespace(s[i])
  }

  /** The number of whitespace characters `s` starts with. */
  function LeadingBlanks(s: string): (n: nat)
    ensures n <= |s| && AllWhitespace(s[..n])
    ensures n < |s| ==> !IsWhitespace(s[n])
    decreases |s|
  {
    if s != [] && IsWhitespace(s[0]) then
      var m := LeadingBlanks(s[1..]);
      BlankHead(s, m);
      1 + m
    else 0
  }

  lemma BlankHead(s: string, m: nat)
    requires s != [] && IsWhitespace(s[0]) && m <= |s| - 1 && AllWhitespace(s[1..][..m])
    ensures AllWhitespace(s[..m + 1])
  {
    var head, rest := s[..m + 1], s[1..][..m];
    forall i | 1 <= i < |head|
      ensures IsWhitespace(head[i])
    {
      assert head[i] == rest[i - 1];
    }
  }

  /** The number of whitespace characters `s` ends with. */
  function TrailingBlanks(s: string): (n: nat)
    ensures n <= |s| && AllWhitespace(s[|s| - n..])
    ensures n < |s| ==> !IsWhitespace(s[|s| - n - 1])
    decreases |s|
  {
    if s != [] && IsWhitespace(s[|s| - 1]) then
      var m := TrailingBlanks(s[..|s| - 1]);
      BlankTail(s, m);
      1 + m
    else 0
  }

  lemma BlankTail(s: string, m: nat)
    requires s != [] && IsWhitespace(s[|s| - 1]) && m <= |s| - 1
    requires AllWhitespace(s[..|s| - 1][|s| - 1 - m..])
    ensures AllWhitespace(s[|s| - 1 - m..])
  {
    var tail, rest := s[|s| - 1 - m..], s[..|s| - 1][|s| - 1 - m..];
    forall i | 0 <= i < m
      ensures IsWhitespace(tail[i])
    {
      assert tail[i] == rest[i];
    }
  }

  /** `s.trim()`: what lies between the leading and the trailing whitespace. */
  function Trim(s: string): (r: string)
    ensures r == [] || (!IsWhitespace(r[0]) && !IsWhitespace(r[|r| - 1]))
  {
    var rest := s[LeadingBlanks(s)..];
    rest[..|rest| - TrailingBlanks(rest)]
  }

  /**
   * Trimming keeps the middle of the text intact, where the leading blanks
   * end, and what it removes before and after it is whitespace only.
   */
  lemma TrimRemovesOnlyWhitespace(s: string)
    ensures var k := LeadingBlanks(s);
      k + |Trim(s)| <= |s| && Trim(s) == s[k..k + |Trim(s)|] &&
      AllWhitespace(s[..k]) && AllWhitespace(s[k + |Trim(s)|..])
  {
    var k := LeadingBlanks(s);
    var rest := s[k..];
    var r := Trim(s);
    assert r == rest[..|r|];
    PrefixOfSuffix(s, k, r);
  }

  /** A prefix of a suffix, followed by blanks, sits at the same place in the whole. */
  lemma PrefixOfSuffix(s: string, k: nat, r: string)
    requires k <= |s| && |r| <= |s| - k
    requires r == s[k..][..|r|] && AllWhitespace(s[k..][|r|..])
    ensures r == s[k..k + |r|] && AllWhitespace(s[k + |r|..])
  {
    assert s[k..][|r|..] == s[k + |r|..];
  }

  /** A string that neither starts nor ends with whitespace is its own trim. */
  lemma TrimOfTrimmed(s: string)
    requires s == [] || (!IsWhitespace(s[0]) && !IsWhitespace(s[|s| - 1]))
    ensures Trim(s) == s
  {
  }

  lemma DropPrefix(prefix: string, s: string)
    ensures (prefix + s)[|prefix|..] == s
  {
  }

  predicate StartsWith(s: string, prefix: string)
  {
    |prefix| <= |s| && s[..|prefix|] == prefix
  }

  predicate EndsWith(s: string, suffix: string)
  {
    |suffix| <= |s| && s[|s| - |suffix|..] == suffix
  }

  /** A suffix no longer than the last part of a concatenation is decided by that part alone. */
  lemma EndsWithConcat(dir: string, name: string, suffix: string)
    requires |suffix| <= |name|
    ensures EndsWith(dir + name, suffix) <==> EndsWith(name, suffix)
  {
    assert (dir + name)[|dir + name| - |suffix|..] == name[|name| - |suffix|..];
  }

  /** `s.split(sep)` for a one-character separator: always at least one piece. */
  function Split(s: string, sep: char): (r: seq<string>)
    ensures |r| >= 1
    ensures forall i :: 0 <= i < |r| ==> sep !in r[i]
    decreases |s|
  {
    if s == [] then [""]
    else
      var rest := Split(s[1..], sep);
      if s[0] == sep then [""] + rest
      else [[s[0]] + rest[0]] + rest[1..]
  }

  /** `xs.join(sep)` for a one-character separator (`[].join(sep)` is empty). */
  function Join(xs: seq<string>, sep: char): string
    decreases |xs|
  {
    if xs == [] then ""
    else if |xs| == 1 then xs[0]
    else xs[0] + [sep] + Join(xs[1..], sep)
  }

  lemma JoinCons(x: string, xs: seq<string>, sep: char)
    requires xs != []
    ensures Join([x] + xs, sep) == x + [sep] + Join(xs, sep)
  {
    assert ([x] + xs)[1..] == xs;
  }

  /** Joining the pieces of a split gives back the text. */
  lemma {:induction false} JoinSplit(s: string, sep: char)
    ensures Join(Split(s, sep), sep) == s
    decreases |s|
  {
    if s != [] {
      JoinSplit(s[1..], sep);
      JoinSplitStep(s, sep);
    }
  }

  /** One character more in front of a text whose split joins back. */
  lemma JoinSplitStep(s: string, sep: char)
    requires s != [] && Join(Split(s[1..], sep), sep) == s[1..]
    ensures Join(Split(s, sep), sep) == s
  {
    var rest := Split(s[1..], sep);
    HeadTail(s);
    if s[0] == sep {
      JoinCons("", rest, sep);
      DropEmpty([sep]);
    } else if |rest| > 1 {
      JoinCons([s[0]] + rest[0], rest[1..], sep);
      JoinCons(rest[0], rest[1..], sep);
      HeadTail(rest);
      AppendAssociative([s[0]], rest[0], [sep]);
      AppendAssociative([s[0]], rest[0] + [sep], Join(rest[1..], sep));
    }
  }

  /** A text without the separator is a single piece. */
  lemma {:induction false} SplitWithoutSeparator(s: string, sep: char)
    requires sep !in s
    ensures Split(s, sep) == [s]
    decreases |s|
  {
    if s != [] {
      SplitWithoutSeparator(s[1..], sep);
      assert s == [s[0]] + s[1..];
    }
  }

  /** Splitting `a + sep + b` splits `a` and `b` independently, in order. */
  lemma {:induction false} SplitConcat(a: string, b: string, sep: char)
    ensures Split(a + [sep] + b, sep) == Split(a, sep) + Split(b, sep)
    decreases |a|
  {
    var s := a + [sep] + b;
    if a == [] {
      assert s[1..] == b;
    } else {
      assert s[1..] == a[1..] + [sep] + b;
      SplitConcat(a[1..], b, sep);
    }
  }

  /** Splitting a join gives back the pieces, when none holds the separator. */
  lemma {:induction false} SplitJoin(xs: seq<string>, sep: char)
    requires |xs| >= 1
    requires forall i :: 0 <= i < |xs| ==> sep !in xs[i]
    ensures Split(Join(xs, sep), sep) == xs
    decreases |xs|
  {
    SplitWithoutSeparator(xs[0], sep);
    if |xs| > 1 {
      SplitJoin(xs[1..], sep);
      SplitConcat(xs[0], Join(xs[1..], sep), sep);
      assert xs == [xs[0]] + xs[1..];
    }
  }

  predicate IsDigit(c: char)
  {
    '0' <= c <= '9'
  }

  predicate AllDigits(s: string)
  {
    forall i :: 0 <= i < |s| ==> IsDigit(s[i])
  }

  function DigitChar(d: nat): (c: char)
    requires d < 10
    ensures IsDigit(c)
  {
    ('0' as int + d) as char
  }

  /** The decimal rendering of a count in a template literal, as `${n}` gives it. */
  function NatToString(n: nat): (s: string)
    ensures |s| >= 1 && AllDigits(s)
    ensures s[0] == '0' <==> n == 0
    decreases n
  {
    if n < 10 then [DigitChar(n)] else NatToString(n / 10) + [DigitChar(n % 10)]
  }

  /** The length of the run of digits a text starts with. */
  function LeadingDigits(s: string): (n: nat)
    ensures n <= |s|
    decreases |s|
  {
    if s != [] && IsDigit(s[0]) then 1 + LeadingDigits(s[1..]) else 0
  }

  /** A run of digits followed by a non-digit is exactly the leading run. */
  lemma {:induction false} LeadingDigitsOf(digits: string, rest: string)
    requires AllDigits(digits)
    requires rest == [] || !IsDigit(rest[0])
    ensures LeadingDigits(digits + rest) == |digits|
    decreases |digits|
  {
    if digits != [] {
      assert (digits + rest)[1..] == digits[1..] + rest;
      LeadingDigitsOf(digits[1..], rest);
    } else {
      assert digits + rest == rest;
    }
  }

  /** Two texts that each start with a whole run of digits, and are equal, start with the same run. */
  lemma DigitRunsAgree(digits1: string, rest1: string, digits2: string, rest2: string)
    requires AllDigits(digits1) && (rest1 == [] || !IsDigit(rest1[0]))
    requires AllDigits(digits2) && (rest2 == [] || !IsDigit(rest2[0]))
    requires digits1 + rest1 == digits2 + rest2
    ensures digits1 == digits2
  {
    LeadingDigitsOf(digits1, rest1);
    LeadingDigitsOf(digits2, rest2);
    assert digits1 == (digits1 + rest1)[..|digits1|];
    assert digits2 == (digits2 + rest2)[..|digits2|];
  }

  /** The value of a string of decimal digits. */
  function DecimalValue(s: string): nat
    requires AllDigits(s)
    decreases |s|
  {
    if s == [] then 0 else DecimalValue(s[..|s| - 1]) * 10 + (s[|s| - 1] as int - '0' as int)
  }

  /** Reading back a rendered count gives the count. */
  lemma {:induction false} DecimalRoundTrip(n: nat)
    ensures DecimalValue(NatToString(n)) == n
    decreases n
  {
    if n >= 10 {
      DecimalRoundTrip(n / 10);
      var s := NatToString(n);
      assert s[..|s| - 1] == NatToString(n / 10);
    }
  }

  lemma NatToStringInjective(a: nat, b: nat)
    requires NatToString(a) == NatToString(b)
    ensures a == b
  {
    DecimalRoundTrip(a);
    DecimalRoundTrip(b);
  }

  /** `${i}` for an integer that may be negative. */
  function IntToString(i: int): (s: string)
    ensures i >= 0 ==> AllDigits(s) && |s| >= 1
    ensures i < 0 ==> |s| >= 2 && s[0] == '-' && AllDigits(s[1..])
    ensures i >= 0 ==> DecimalValue(s) == i
    ensures i < 0 ==> DecimalValue(s[1..]) == -i
  {
    if i < 0 then
      DecimalRoundTrip(-i);
      assert ("-" + NatToString(-i))[1..] == NatToString(-i);
      "-" + NatToString(-i)
    else
      DecimalRoundTrip(i);
      NatToString(i)
  }

  /** `p` occurs in `s` starting at index `i`. */
  predicate OccursAt(s: string, p: string, i: nat)
  {
    i + |p| <= |s| && s[i..i + |p|] == p
  }

  /** The first occurrence of `p` in `s` at or after `from`, as `s.indexOf(p, from)`. */
  function IndexOfFrom(s: string, p: string, from: nat): (r: Option<nat>)
    ensures r.Some? ==> from <= r.value && OccursAt(s, p, r.value)
    ensures r.Some? ==> forall j :: from <= j < r.value ==> !OccursAt(s, p, j)
    ensures r.None? ==> forall j :: from <= j ==> !OccursAt(s, p, j)
    decreases |s| - from
  {
    if from + |p| > |s| then None
    else if OccursAt(s, p, from) then Some(from)
    else IndexOfFrom(s, p, from + 1)
  }

  function IndexOf(s: string, p: string): Option<nat>
  {
    IndexOfFrom(s, p, 0)
  }

  /** `s.replace(p, "")` with a string pattern: removes the first occurrence only. */
  function RemoveFirst(s: string, p: string): string
  {
    match IndexOf(s, p)
    case None => s
    case Some(i) => s[..i] + s[i + |p|..]
  }

  /** Without an occurrence, the replacement leaves the text as it is. */
  lemma RemoveFirstAbsent(s: string, p: string)
    requires forall j: nat :: !OccursAt(s, p, j)
    ensures RemoveFirst(s, p) == s
  {
  }

  /** When the first occurrence is at `i`, exactly those characters go. */
  lemma RemoveFirstAt(s: string, p: string, i: nat)
    requires OccursAt(s, p, i)
    requires forall j: nat :: j < i ==> !OccursAt(s, p, j)
    ensures RemoveFirst(s, p) == s[..i] + s[i + |p|..]
  {
  }

  /** A pattern with a character the text lacks does not occur in it. */
  lemma AbsentCharacter(s: string, p: string, c: char)
    requires c in p && c !in s
    ensures forall j: nat :: !OccursAt(s, p, j)
  {
    var k :| 0 <= k < |p| && p[k] == c;
    forall j: nat
      ensures !OccursAt(s, p, j)
    {
      if j + |p| <= |s| {
        assert s[j..j + |p|][k] == s[j + k] != c;
      }
    }
  }

  /** The last index of `c` in `s`, as `s.lastIndexOf(c)`. */
  function LastIndexOf(s: string, c: char): (r: Option<nat>)
    ensures r.Some? ==> r.value < |s| && s[r.value] == c && c !in s[r.value + 1..]
    ensures r.None? ==> c !in s
    decreases |s|
  {
    if s == [] then None
    else if s[|s| - 1] == c then Some(|s| - 1)
    else
      var r := LastIndexOf(s[..|s| - 1], c);
      LastIndexOfStep(s, c, r);
      r
  }

  /** What holds of the last `c` in all but the last character holds in the whole text, when that character is not `c`. */
  lemma LastIndexOfStep(s: string, c: char, r: Option<nat>)
    requires s != [] && s[|s| - 1] != c
    requires r.Some? ==> r.value < |s| - 1 && s[..|s| - 1][r.value] == c && c !in s[..|s| - 1][r.value + 1..]
    requires r.None? ==> c !in s[..|s| - 1]
    ensures r.Some? ==> r.value < |s| && s[r.value] == c && c !in s[r.value + 1..]
    ensures r.None? ==> c !in s
  {
    assert s == s[..|s| - 1] + [s[|s| - 1]];
    if r.Some? {
      assert s[r.value + 1..] == s[..|s| - 1][r.value + 1..] + [s[|s| - 1]];
    }
  }

  /** The last `c` is at `i` when `s[i]` is `c` and none follows it. */
  lemma LastIndexOfAt(s: string, c: char, i: nat)
    requires i < |s| && s[i] == c
    requires forall k :: i < k < |s| ==> s[k] != c
    ensures LastIndexOf(s, c) == Some(i)
  {
    var r := LastIndexOf(s, c);
    assert c in s by {
      assert s[i] == c;
    }
    forall k | r.value < k < |s|
      ensures s[k] != c
    {
      assert s[r.value + 1..][k - r.value - 1] == s[k];
    }
  }
}
