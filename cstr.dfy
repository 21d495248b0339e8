/**
 * Character and C-string helpers shared by every firmware model: the C
 * library behaviour the programs rely on (NUL-terminated buffers, isspace,
 * atoi, the "%Ns" conversion of sscanf, "%d"/"%+d" formatting), written
 * once so that each program's model states its own rules on top of it.
 */
module CText {

  datatype Option<T> = None | Some(value: T)

  /** An unsigned 8-bit value, as read out of a network packet. */
  type Byte = b: int | 0 <= b < 256

  const UINT32_MOD: int := 0x1_0000_0000

  /** C `isspace` in the "C" locale. */
  predicate IsSpace(c: char) {
    c == ' ' || c == '\t' || c == '\n' || c == '\r' || c as int == 11 || c as int == 12
  }

  predicate IsDigit(c: char) {
    '0' <= c <= '9'
  }

  function DigitValue(c: char): (d: nat)
    requires IsDigit(c)
    ensures d < 10
  {
    c as int - '0' as int
  }

  function DigitChar(d: nat): (c: char)
    requires d < 10
    ensures IsDigit(c) && DigitValue(c) == d
  {
    ('0' as int + d) as char
  }

  /** C `tolower` on ASCII. */
  function ToLower(c: char): char {
    if 'A' <= c <= 'Z' then (c as int + 32) as char else c
  }

  function Min(a: int, b: int): int {
    if a <= b then a else b
  }

  /**
   * The first n elements, or all when there are fewer: the characters
   * strncpy/snprintf keep, or the tokens an argv of n slots keeps.
   */
  function Take<T>(s: seq<T>, n: nat): (r: seq<T>)
    ensures |r| == Min(|s|, n) && r <= s
  {
    if |s| <= n then s else s[..n]
  }

  /** The C string held in a char buffer: everything before the first NUL. */
  function CString(s: seq<char>): (r: string)
    ensures r <= s
    ensures '\0' !in r
    ensures |r| < |s| ==> s[|r|] == '\0'
  {
    if s == [] || s[0] == '\0' then [] else [s[0]] + CString(s[1..])
  }

  /** A NUL stored after w ends the C string no later than w does. */
  lemma {:induction false} CStringOfStored(w: seq<char>, rest: seq<char>)
    ensures CString(w + ['\0'] + rest) == CString(w)
  {
    if w != [] {
      assert (w + ['\0'] + rest)[1..] == w[1..] + ['\0'] + rest;
      if w[0] != '\0' {
        CStringOfStored(w[1..], rest);
      }
    }
  }

  lemma CStringOfTerminated(w: string, rest: seq<char>)
    requires '\0' !in w
    ensures CString(w + ['\0'] + rest) == w
  {
    CStringOfStored(w, rest);
    CStringOfPlain(w);
  }

  lemma CStringOfPlain(w: string)
    requires '\0' !in w
    ensures CString(w) == w
  {
    if w != [] {
      CStringOfPlain(w[1..]);
    }
  }

  /** The suffix left after skipping leading white space. */
  function SkipSpaces(s: string): (r: string)
    ensures |r| <= |s|
    ensures forall i :: 0 <= i < |s| - |r| ==> IsSpace(s[i])
    ensures r == [] || !IsSpace(r[0])
  {
    if s != [] && IsSpace(s[0]) then SkipSpaces(s[1..]) else s
  }

  /** What SkipSpaces leaves is a suffix of its input: nothing is reordered or dropped inside. */
  lemma {:induction false} SkipSpacesIsSuffix(s: string)
    ensures SkipSpaces(s) == s[|s| - |SkipSpaces(s)|..]
  {
    if s != [] && IsSpace(s[0]) {
      SkipSpacesIsSuffix(s[1..]);
      assert s[1..][|s| - 1 - |SkipSpaces(s[1..])|..] == s[|s| - |SkipSpaces(s)|..];
    }
  }

  /** The longest prefix of at most `width` characters that are not white space. */
  function WordPrefix(s: string, width: nat): (w: string)
    ensures w <= s && |w| <= width
    ensures forall i :: 0 <= i < |w| ==> !IsSpace(w[i])
    ensures |w| < width && |w| < |s| ==> IsSpace(s[|w|])
  {
    if s == [] || width == 0 || IsSpace(s[0]) then [] else [s[0]] + WordPrefix(s[1..], width - 1)
  }

  /**
   * One "%Ns" conversion of sscanf: skip white space, then take at most N
   * non-space characters; it fails when nothing is left to take.
   */
  function ScanWord(s: string, width: nat): (r: Option<(string, string)>)
    requires width > 0
    ensures r.Some? ==> IsWord(r.value.0) && |r.value.0| <= width && r.value.0 + r.value.1 == SkipSpaces(s)
    ensures r.None? <==> SkipSpaces(s) == []
    ensures r.Some? ==> r.value.0 == WordPrefix(SkipSpaces(s), width)
    ensures r.Some? ==> |r.value.0| == width || r.value.1 == [] || IsSpace(r.value.1[0])
  {
    var t := SkipSpaces(s);
    var w := WordPrefix(t, width);
    if w == [] then None else assert w + t[|w|..] == t; Some((w, t[|w|..]))
  }

  /**
   * sscanf(s, "%w0s %w1s ...") as the list of fields it converts: it stops at
   * the first conversion that fails, and its return value is the length.
   */
  function ScanWords(s: string, widths: seq<nat>): (r: seq<string>)
    requires forall i :: 0 <= i < |widths| ==> widths[i] > 0
    ensures |r| <= |widths|
    ensures forall i :: 0 <= i < |r| ==> IsWord(r[i]) && |r[i]| <= widths[i]
    decreases |widths|
  {
    if widths == [] then []
    else match ScanWord(s, widths[0])
      case None => []
      case Some((w, rest)) => [w] + ScanWords(rest, widths[1..])
  }

  predicate IsWord(w: string) {
    w != [] && forall i :: 0 <= i < |w| ==> !IsSpace(w[i])
  }

  function JoinSpaces(words: seq<string>): string {
    if words == [] then [] else if |words| == 1 then words[0] else words[0] + " " + JoinSpaces(words[1..])
  }

  /** Three words joined by single spaces. */
  lemma JoinThree(a: string, b: string, c: string)
    ensures JoinSpaces([a, b, c]) == a + " " + b + " " + c
  {
    assert [a, b, c][1..] == [b, c] && [b, c][1..] == [c];
    assert JoinSpaces([c]) == c;
    assert JoinSpaces([b, c]) == b + " " + c;
    assert JoinSpaces([a, b, c]) == a + " " + (b + " " + c);
  }

  lemma SkipSpacesOfWord(w: string, rest: string)
    requires IsWord(w)
    ensures SkipSpaces(w + rest) == w + rest
  {
    assert (w + rest)[0] == w[0];
  }

  lemma {:induction false} WordPrefixOfWord(w: string, rest: string, width: nat)
    requires IsWord(w) && |w| <= width
    requires rest == [] || IsSpace(rest[0])
    ensures WordPrefix(w + rest, width) == w
  {
    assert (w + rest)[0] == w[0];
    if |w| > 1 {
      assert (w + rest)[1..] == w[1..] + rest;
      WordPrefixOfWord(w[1..], rest, width - 1);
    } else {
      assert (w + rest)[1..] == rest;
    }
  }

  lemma {:induction false} SkipOneSpace(rest: string)
    requires rest != []
    ensures SkipSpaces(" " + rest) == SkipSpaces(rest)
  {
    assert (" " + rest)[1..] == rest;
  }

  /**
   * Round trip: words no wider than their fields, written with one space
   * between them, are read back by sscanf exactly.
   */
  lemma {:induction false} ScanJoinedWords(words: seq<string>, widths: seq<nat>)
    requires |words| == |widths|
    requires forall i :: 0 <= i < |widths| ==> widths[i] > 0
    requires forall i :: 0 <= i < |words| ==> IsWord(words[i]) && |words[i]| <= widths[i]
    ensures ScanWords(JoinSpaces(words), widths) == words
  {
    if words != [] {
      var w := words[0];
      var rest := if |words| == 1 then [] else " " + JoinSpaces(words[1..]);
      assert JoinSpaces(words) == w + rest;
      SkipSpacesOfWord(w, rest);
      WordPrefixOfWord(w, rest, widths[0]);
      assert (w + rest)[|w|..] == rest;
      assert ScanWord(JoinSpaces(words), widths[0]) == Some((w, rest));
      if |words| == 1 {
        assert ScanWords(rest, widths[1..]) == [];
      } else {
        var tail := JoinSpaces(words[1..]);
        assert IsWord(words[1]);
        assert words[1..][0] == words[1];
        assert tail[0] == words[1][0] by {
          if |words| == 2 {
          } else {
            assert tail == words[1] + " " + JoinSpaces(words[2..]);
          }
        }
        ScanSkipsSpace(tail, widths[1..]);
        ScanJoinedWords(words[1..], widths[1..]);
      }
    }
  }

  lemma ScanSkipsSpace(tail: string, widths: seq<nat>)
    requires tail != []
    requires forall i :: 0 <= i < |widths| ==> widths[i] > 0
    ensures ScanWords(" " + tail, widths) == ScanWords(tail, widths)
  {
    SkipOneSpace(tail);
  }

  /** The digits at the front of s. */
  function LeadingDigits(s: string): (d: string)
    ensures d <= s
    ensures forall i :: 0 <= i < |d| ==> IsDigit(d[i])
    ensures |d| < |s| ==> !IsDigit(s[|d|])
  {
    if s != [] && IsDigit(s[0]) then [s[0]] + LeadingDigits(s[1..]) else []
  }

  /** The value of a run of decimal digits, most significant first. */
  function DecimalValue(d: string): nat
    requires forall i :: 0 <= i < |d| ==> IsDigit(d[i])
  {
    if d == [] then 0 else DecimalValue(d[..|d| - 1]) * 10 + DigitValue(d[|d| - 1])
  }

  /**
   * C `atoi` (strtol in base 10): skip white space, an optional sign, then
   * as many digits as follow; no digits gives 0. Overflow is not modelled.
   */
  function Atoi(s: string): (r: int)
    ensures var t := SkipSpaces(s);
      (t == [] || !(IsDigit(t[0]) || t[0] == '+' || t[0] == '-')) ==> r == 0
    ensures var t := SkipSpaces(s); t != [] && t[0] == '-' ==> r <= 0
    ensures var t := SkipSpaces(s); !(t != [] && t[0] == '-') ==> r >= 0
  {
    var t := SkipSpaces(s);
    if t != [] && t[0] == '-' then -(DecimalValue(LeadingDigits(t[1..])) as int)
    else if t != [] && t[0] == '+' then DecimalValue(LeadingDigits(t[1..]))
    else DecimalValue(LeadingDigits(t))
  }

  /** "%d" of a non-negative value: the shortest decimal spelling. */
  function Decimal(n: nat): (r: string)
    ensures 0 < |r| && forall i :: 0 <= i < |r| ==> IsDigit(r[i])
    ensures |r| > 1 ==> r[0] != '0'
  {
    if n < 10 then [DigitChar(n)] else Decimal(n / 10) + [DigitChar(n % 10)]
  }

  lemma {:induction false} DecimalValueOfDecimal(n: nat)
    ensures DecimalValue(Decimal(n)) == n
  {
    if n >= 10 {
      var r := Decimal(n);
      assert r[..|r| - 1] == Decimal(n / 10);
      DecimalValueOfDecimal(n / 10);
    }
  }

  lemma {:induction false} LeadingDigitsOfDigits(d: string)
    requires forall i :: 0 <= i < |d| ==> IsDigit(d[i])
    ensures LeadingDigits(d) == d
  {
    if d != [] {
      LeadingDigitsOfDigits(d[1..]);
    }
  }

  /** The digits at the front stop at the first character that is not a digit. */
  lemma {:induction false} LeadingDigitsBefore(d: string, rest: string)
    requires forall i :: 0 <= i < |d| ==> IsDigit(d[i])
    requires rest == [] || !IsDigit(rest[0])
    ensures LeadingDigits(d + rest) == d
  {
    if d != [] {
      assert (d + rest)[1..] == d[1..] + rest;
      LeadingDigitsBefore(d[1..], rest);
    } else {
      assert d + rest == rest;
    }
  }

  /** printf "%+d": the sign is always written. */
  function SignedDecimal(v: int): (r: string)
    ensures |r| >= 2 && (r[0] == '+' || r[0] == '-')
  {
    if v >= 0 then "+" + Decimal(v) else "-" + Decimal(-v)
  }

  /** Round trip: atoi reads back what "%+d" writes. */
  lemma AtoiOfSignedDecimal(v: int)
    ensures Atoi(SignedDecimal(v)) == v
  {
    var n: nat := if v >= 0 then v else -v;
    var r := SignedDecimal(v);
    assert r[1..] == Decimal(n);
    assert SkipSpaces(r) == r;
    LeadingDigitsOfDigits(Decimal(n));
    DecimalValueOfDecimal(n);
  }

  /** Round trip: atoi reads back what "%d" writes for a non-negative value. */
  lemma AtoiOfDecimal(n: nat)
    ensures Atoi(Decimal(n)) == n
  {
    var r := Decimal(n);
    assert SkipSpaces(r) == r;
    LeadingDigitsOfDigits(r);
    DecimalValueOfDecimal(n);
  }

  /** printf "%0wd" (zero padded to at least w characters). */
  function ZeroPadded(n: nat, w: nat): (r: string)
    ensures |r| == if |Decimal(n)| >= w then |Decimal(n)| else w
    ensures r[|r| - |Decimal(n)|..] == Decimal(n)
    ensures forall i :: 0 <= i < |r| - |Decimal(n)| ==> r[i] == '0'
  {
    var d := Decimal(n);
    if |d| >= w then d else seq(w - |d|, _ => '0') + d
  }

  /**
   * C `tolower` applied to every character: no capital letter is left,
   * each capital becomes its small letter and every other character is kept.
   */
  function Lower(s: string): (r: string)
    ensures |r| == |s|
    ensures forall i :: 0 <= i < |r| ==> !('A' <= r[i] <= 'Z')
    ensures forall i :: 0 <= i < |s| && 'A' <= s[i] <= 'Z' ==> r[i] as int == s[i] as int + 32
    ensures forall i :: 0 <= i < |s| && !('A' <= s[i] <= 'Z') ==> r[i] == s[i]
  {
    seq(|s|, i requires 0 <= i < |s| => ToLower(s[i]))
  }

  /** Lower-casing twice is lower-casing once. */
  lemma LowerIdempotent(s: string)
    ensures Lower(Lower(s)) == Lower(s)
  {
    var l := Lower(s);
    assert forall i :: 0 <= i < |l| ==> Lower(l)[i] == l[i];
  }

  /** The longest prefix of at most `width` characters none of which is a newline. */
  function LinePrefix(s: string, width: nat): (l: string)
    ensures l <= s && |l| <= width && '\n' !in l
    ensures |l| < width && |l| < |s| ==> s[|l|] == '\n'
  {
    if s == [] || width == 0 || s[0] == '\n' then [] else [s[0]] + LinePrefix(s[1..], width - 1)
  }

  /**
   * " %N[^\n]" of sscanf into a zeroed buffer: skip white space (newlines
   * included), then take at most N characters up to the next newline; when
   * nothing is taken the buffer keeps its empty string.
   */
  function ScanRestOfLine(s: string, width: nat): (r: string)
    ensures |r| <= width && '\n' !in r && r <= SkipSpaces(s)
    ensures width > 0 && SkipSpaces(s) != [] ==> r != []
    ensures |r| < width && |r| < |SkipSpaces(s)| ==> SkipSpaces(s)[|r|] == '\n'
  {
    LinePrefix(SkipSpaces(s), width)
  }
}
