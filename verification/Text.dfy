/** The str operations of Rust's standard library that the firmware uses. A str is
    its UTF-8 octets, and an octet is a char below 256, so that literals read as
    text. */
module Text {
  import opened Wrappers

  // ---- White space -----------------------------------------------------------

  /** What split_ascii_whitespace splits on. */
  predicate IsAsciiWhitespace(c: char) {
    c == ' ' || c == '\t' || c == '\n' || c == '\U{0C}' || c == '\r'
  }

  /** The white space that is a single octet; it has the vertical tab besides. */
  predicate IsOneOctetSpace(c: char) {
    IsAsciiWhitespace(c) || c == '\U{0B}'
  }

  predicate AllAsciiWhitespace(s: string) {
    forall i :: 0 <= i < |s| ==> IsAsciiWhitespace(s[i])
  }

  predicate NoAsciiWhitespace(s: string) {
    forall i :: 0 <= i < |s| ==> !IsAsciiWhitespace(s[i])
  }

  /** The octets of the other characters with the Unicode property White_Space. */
  predicate IsWideSpace(s: string) {
    if |s| == 2 then s[0] == '\U{C2}' && (s[1] == '\U{85}' || s[1] == '\U{A0}')
    else if |s| == 3 then
      || (s[0] == '\U{E1}' && s[1] == '\U{9A}' && s[2] == '\U{80}')
      || (s[0] == '\U{E2}' && s[1] == '\U{80}'
          && ('\U{80}' <= s[2] <= '\U{8A}' || s[2] == '\U{A8}' || s[2] == '\U{A9}' || s[2] == '\U{AF}'))
      || (s[0] == '\U{E2}' && s[1] == '\U{81}' && s[2] == '\U{9F}')
      || (s[0] == '\U{E3}' && s[1] == '\U{80}' && s[2] == '\U{80}')
    else false
  }

  // The same sets of characters as they are listed elsewhere.

  /** Section 4.3 of the Infra standard, to which the documentation of Rust refers. */
  const ASCII_GAPS := " \t\n\U{0C}\r"

  const ONE_OCTET_SPACES := " \t\n\U{0B}\U{0C}\r"

  /** U+0085, U+00A0, U+1680, U+2000 to U+200A, U+2028, U+2029, U+202F, U+205F and U+3000. */
  const WIDE_SPACES: set<string> :=
    {"\U{C2}\U{85}", "\U{C2}\U{A0}", "\U{E1}\U{9A}\U{80}",
     "\U{E2}\U{80}\U{80}", "\U{E2}\U{80}\U{81}", "\U{E2}\U{80}\U{82}", "\U{E2}\U{80}\U{83}",
     "\U{E2}\U{80}\U{84}", "\U{E2}\U{80}\U{85}", "\U{E2}\U{80}\U{86}", "\U{E2}\U{80}\U{87}",
     "\U{E2}\U{80}\U{88}", "\U{E2}\U{80}\U{89}", "\U{E2}\U{80}\U{8A}", "\U{E2}\U{80}\U{A8}",
     "\U{E2}\U{80}\U{A9}", "\U{E2}\U{80}\U{AF}", "\U{E2}\U{81}\U{9F}", "\U{E3}\U{80}\U{80}"}

  predicate OnlyGaps(s: string) {
    forall i :: 0 <= i < |s| ==> s[i] in ASCII_GAPS
  }

  predicate NoGaps(s: string) {
    forall i :: 0 <= i < |s| ==> s[i] !in ASCII_GAPS
  }

  lemma GapsAreWhitespace(s: string)
    ensures OnlyGaps(s) <==> AllAsciiWhitespace(s)
    ensures NoGaps(s) <==> NoAsciiWhitespace(s)
  {
    forall c: char
      ensures c in ASCII_GAPS <==> IsAsciiWhitespace(c)
    {
      GapChar(c);
    }
  }

  lemma GapChar(c: char)
    ensures c in ASCII_GAPS <==> IsAsciiWhitespace(c)
    ensures c in ONE_OCTET_SPACES <==> IsOneOctetSpace(c)
  {
    assert ASCII_GAPS[0] == ' ' && ASCII_GAPS[1] == '\t' && ASCII_GAPS[2] == '\n';
    assert ASCII_GAPS[3] == '\U{0C}' && ASCII_GAPS[4] == '\r';
    assert ONE_OCTET_SPACES[0] == ' ' && ONE_OCTET_SPACES[1] == '\t' && ONE_OCTET_SPACES[2] == '\n';
    assert ONE_OCTET_SPACES[3] == '\U{0B}' && ONE_OCTET_SPACES[4] == '\U{0C}' && ONE_OCTET_SPACES[5] == '\r';
  }

  /** A character with the property White_Space, in UTF-8. */
  predicate IsSpace(s: string) {
    (|s| == 1 && s[0] in ONE_OCTET_SPACES) || s in WIDE_SPACES
  }

  lemma WideSpaceTable(s: string)
    ensures s in WIDE_SPACES <==> IsWideSpace(s)
  {
    if IsWideSpace(s) && |s| == 2 {
      assert s == [s[0], s[1]];
    } else if IsWideSpace(s) {
      assert s == [s[0], s[1], s[2]];
    }
  }

  predicate FreeFront(s: string) {
    forall n :: 0 <= n <= |s| ==> !IsSpace(s[..n])
  }

  predicate FreeBack(s: string) {
    forall i :: 0 <= i <= |s| ==> !IsSpace(s[i..])
  }

  /** Neither at the front nor at the back of the text there is white space. */
  predicate Trimmed(s: string) {
    FreeFront(s) && FreeBack(s)
  }

  lemma SpaceLengths(s: string)
    ensures IsSpace(s) ==> 1 <= |s| <= 3
    ensures |s| == 1 ==> (IsSpace(s) <==> IsOneOctetSpace(s[0]))
    ensures |s| == 2 || |s| == 3 ==> (IsSpace(s) <==> IsWideSpace(s))
  {
    WideSpaceTable(s);
    if |s| == 1 {
      GapChar(s[0]);
    }
  }

  lemma FrontIsFree(s: string)
    ensures SpaceAtFront(s) == 0 <==> FreeFront(s)
  {
    forall n | 0 <= n <= |s|
      ensures IsSpace(s[..n]) <==> (n == 1 && IsOneOctetSpace(s[0])) || ((n == 2 || n == 3) && IsWideSpace(s[..n]))
    {
      SpaceLengths(s[..n]);
    }
    if SpaceAtFront(s) > 0 {
      assert IsSpace(s[..SpaceAtFront(s)]);
    }
  }

  lemma BackIsFree(s: string)
    ensures SpaceAtBack(s) == 0 <==> FreeBack(s)
  {
    forall i | 0 <= i <= |s|
      ensures IsSpace(s[i..]) <==>
                (i == |s| - 1 && IsOneOctetSpace(s[i])) || ((i == |s| - 2 || i == |s| - 3) && IsWideSpace(s[i..]))
    {
      SpaceLengths(s[i..]);
    }
    if SpaceAtBack(s) > 0 {
      assert IsSpace(s[|s| - SpaceAtBack(s)..]);
    }
  }

  lemma TrimmedHasNoSpace(s: string)
    ensures Trimmed(s) <==> SpaceAtFront(s) == 0 && SpaceAtBack(s) == 0
  {
    FrontIsFree(s);
    BackIsFree(s);
  }

  /** Octets of the white space character at the front, 0 if there is none. */
  function SpaceAtFront(s: string): (n: nat)
    ensures n <= |s|
  {
    if |s| >= 1 && IsOneOctetSpace(s[0]) then 1
    else if |s| >= 2 && IsWideSpace(s[..2]) then 2
    else if |s| >= 3 && IsWideSpace(s[..3]) then 3
    else 0
  }

  function SpaceAtBack(s: string): (n: nat)
    ensures n <= |s|
  {
    if |s| >= 1 && IsOneOctetSpace(s[|s| - 1]) then 1
    else if |s| >= 2 && IsWideSpace(s[|s| - 2..]) then 2
    else if |s| >= 3 && IsWideSpace(s[|s| - 3..]) then 3
    else 0
  }

  function TrimStart(s: string): string {
    var n := SpaceAtFront(s);
    if n == 0 then s else TrimStart(s[n..])
  }

  function TrimEnd(s: string): string
    decreases |s|
  {
    var n := SpaceAtBack(s);
    if n == 0 then s else TrimEnd(s[..|s| - n])
  }

  function Trim(s: string): string {
    TrimEnd(TrimStart(s))
  }

  predicate AllSpaces(pieces: seq<string>) {
    forall i :: 0 <= i < |pieces| ==> IsSpace(pieces[i])
  }

  function Glue(pieces: seq<string>): string {
    if pieces == [] then "" else pieces[0] + Glue(pieces[1..])
  }

  lemma {:induction false} GlueLast(pieces: seq<string>, last: string)
    ensures Glue(pieces + [last]) == Glue(pieces) + last
  {
    if pieces == [] {
      assert [last][1..] == [] && pieces + [last] == [last];
    } else {
      GlueLast(pieces[1..], last);
      assert (pieces + [last])[1..] == pieces[1..] + [last];
    }
  }

  lemma SpaceFound(s: string)
    ensures SpaceAtFront(s) > 0 ==> IsSpace(s[..SpaceAtFront(s)])
    ensures SpaceAtBack(s) > 0 ==> IsSpace(s[|s| - SpaceAtBack(s)..])
  {
    var m, n := SpaceAtFront(s), SpaceAtBack(s);
    if m > 0 {
      SpaceLengths(s[..m]);
    }
    if n > 0 {
      SpaceLengths(s[|s| - n..]);
    }
  }

  lemma TrimStartStep(s: string)
    ensures var n := SpaceAtFront(s);
            n > 0 ==> TrimStart(s) == TrimStart(s[n..]) && s == s[..n] + s[n..]
  {
  }

  lemma OneSpaceBefore(first: string, pieces: seq<string>, trimmed: string)
    requires AllSpaces(pieces) && IsSpace(first)
    ensures AllSpaces([first] + pieces) && Glue([first] + pieces) + trimmed == first + (Glue(pieces) + trimmed)
  {
    assert ([first] + pieces)[1..] == pieces;
  }

  lemma {:induction false} TrimStartParts(s: string) returns (before: seq<string>)
    ensures AllSpaces(before) && s == Glue(before) + TrimStart(s) && SpaceAtFront(TrimStart(s)) == 0
    decreases |s|
  {
    var n := SpaceAtFront(s);
    if n == 0 {
      before := [];
    } else {
      var first, more := s[..n], s[n..];
      var pieces := TrimStartParts(more);
      SpaceFound(s);
      TrimStartStep(s);
      OneSpaceBefore(first, pieces, TrimStart(more));
      before := [first] + pieces;
    }
  }

  lemma OneSpaceMore(front: string, trimmed: string, pieces: seq<string>, last: string)
    requires AllSpaces(pieces) && IsSpace(last) && front == trimmed + Glue(pieces)
    ensures AllSpaces(pieces + [last]) && front + last == trimmed + Glue(pieces + [last])
  {
    GlueLast(pieces, last);
    assert front + last == trimmed + (Glue(pieces) + last);
  }

  lemma TrimEndStep(s: string)
    ensures var n := SpaceAtBack(s);
            n > 0 ==> TrimEnd(s) == TrimEnd(s[..|s| - n]) && s == s[..|s| - n] + s[|s| - n..]
  {
  }

  lemma {:induction false} TrimEndParts(s: string) returns (after: seq<string>)
    ensures AllSpaces(after) && s == TrimEnd(s) + Glue(after) && SpaceAtBack(TrimEnd(s)) == 0
    decreases |s|
  {
    var n := SpaceAtBack(s);
    if n == 0 {
      after := [];
    } else {
      var front, last := s[..|s| - n], s[|s| - n..];
      var pieces := TrimEndParts(front);
      SpaceFound(s);
      TrimEndStep(s);
      OneSpaceMore(front, TrimEnd(front), pieces, last);
      after := pieces + [last];
    }
  }

  lemma FrontOfPrefix(s: string, front: string, after: string)
    requires s == front + after && FreeFront(s)
    ensures FreeFront(front)
  {
    forall n | 0 <= n <= |front|
      ensures front[..n] == s[..n]
    {
    }
  }

  /** What is left has no white space at either end. */
  lemma BothEndsFree(s: string, front: string, after: string)
    requires s == front + after && SpaceAtFront(s) == 0 && SpaceAtBack(front) == 0
    ensures Trimmed(front)
  {
    FrontIsFree(s);
    FrontOfPrefix(s, front, after);
    BackIsFree(front);
  }

  /** trim takes white space off both ends, all of it, and nothing else. */
  lemma TrimExactly(s: string) returns (before: seq<string>, after: seq<string>)
    ensures AllSpaces(before) && AllSpaces(after) && s == Glue(before) + (Trim(s) + Glue(after))
    ensures Trimmed(Trim(s))
  {
    before := TrimStartParts(s);
    after := TrimEndParts(TrimStart(s));
    BothEndsFree(TrimStart(s), Trim(s), Glue(after));
  }

  // ---- Searching and splitting -----------------------------------------------

  /** Where c first occurs, or the length of s. */
  function IndexOf(s: string, c: char): (i: nat)
    ensures i <= |s|
    ensures i < |s| ==> s[i] == c
    ensures forall j :: 0 <= j < i ==> s[j] != c
  {
    if s == [] || s[0] == c then 0 else 1 + IndexOf(s[1..], c)
  }

  function SplitOn(s: string, c: char): (parts: seq<string>)
    ensures |parts| >= 1
    decreases |s|
  {
    var i := IndexOf(s, c);
    if i == |s| then [s] else [s[..i]] + SplitOn(s[i + 1..], c)
  }

  function SkipSpaces(s: string): (r: string)
    ensures |r| <= |s|
  {
    if s != [] && IsAsciiWhitespace(s[0]) then SkipSpaces(s[1..]) else s
  }

  function WordLength(s: string): (n: nat)
    ensures n <= |s|
    ensures NoAsciiWhitespace(s[..n])
    ensures n < |s| ==> IsAsciiWhitespace(s[n])
  {
    if s == [] || IsAsciiWhitespace(s[0]) then 0 else 1 + WordLength(s[1..])
  }

  /** What split_ascii_whitespace yields. */
  function Words(s: string): seq<string>
    decreases |s|
  {
    var t := SkipSpaces(s);
    if t == [] then [] else
      var n := WordLength(t);
      if n == 0 then [] else [t[..n]] + Words(t[n..])
  }

  // ---- Numbers -----------------------------------------------------------------

  predicate IsDigit(c: char) {
    '0' <= c <= '9'
  }

  predicate AllDigits(s: string) {
    forall i :: 0 <= i < |s| ==> IsDigit(s[i])
  }

  function DigitChar(d: int): char
    requires 0 <= d < 10
  {
    ('0' as int + d) as char
  }

  function DigitsValue(s: string): nat
    requires AllDigits(s)
  {
    if s == [] then 0
    else DigitsValue(s[..|s| - 1]) * 10 + (s[|s| - 1] as int - '0' as int)
  }

  /** from_str of an unsigned type: an optional plus sign, then digits that fit. */
  function ParseUnsigned(s: string, max: nat): (r: Option<nat>)
    ensures r.Some? ==> r.value <= max
  {
    var digits := if s != [] && s[0] == '+' then s[1..] else s;
    if digits == [] || !AllDigits(digits) || DigitsValue(digits) > max then None
    else Some(DigitsValue(digits))
  }

  /** from_str of a signed type whose least value is -min. */
  function ParseSigned(s: string, min: nat, max: nat): (r: Option<int>)
    ensures r.Some? ==> 0 - min <= r.value <= max
  {
    if s != [] && s[0] == '-' then
      var digits := s[1..];
      if digits == [] || !AllDigits(digits) || DigitsValue(digits) > min then None
      else Some(0 - DigitsValue(digits))
    else ParseUnsigned(s, max)
  }

  /** `{:0w}` of a nonnegative number: digits, zeros to the left up to width w. */
  function Padded(n: nat, width: nat): (s: string)
    ensures |s| >= 1 && |s| >= width && AllDigits(s)
    decreases n + width
  {
    if n < 10 && width <= 1 then [DigitChar(n)]
    else Padded(n / 10, if width > 1 then width - 1 else 1) + [DigitChar(n % 10)]
  }

  function Pow10(e: nat): (p: nat)
    ensures p >= 1
  {
    if e == 0 then 1 else 10 * Pow10(e - 1)
  }

  lemma {:induction false} PaddedValue(n: nat, width: nat)
    ensures DigitsValue(Padded(n, width)) == n
    decreases n + width
  {
    if n < 10 && width <= 1 {
      assert Padded(n, width)[..0] == [];
    } else {
      var w := if width > 1 then width - 1 else 1;
      PaddedValue(n / 10, w);
      assert Padded(n, width)[..|Padded(n, width)| - 1] == Padded(n / 10, w);
    }
  }

  lemma {:induction false} PaddedLength(n: nat, width: nat)
    requires width >= 1 && n < Pow10(width)
    ensures |Padded(n, width)| == width
    decreases width
  {
    if width > 1 {
      assert n / 10 < Pow10(width - 1);
      PaddedLength(n / 10, width - 1);
    } else {
      assert Pow10(0) == 1;
    }
  }

  lemma ParsePadded(n: nat, width: nat, max: nat)
    requires n <= max
    ensures ParseUnsigned(Padded(n, width), max) == Some(n)
  {
    PaddedValue(n, width);
    assert IsDigit(Padded(n, width)[0]);
  }

  lemma ParsePaddedSigned(n: nat, width: nat, min: nat, max: nat)
    requires n <= max
    ensures ParseSigned(Padded(n, width), min, max) == Some(n)
  {
    ParsePadded(n, width, max);
    assert IsDigit(Padded(n, width)[0]);
  }

  // ---- What the parsers accept -------------------------------------------------

  predicate IsNumeral(s: string, n: nat, width: nat) {
    s == Padded(n, width) || s == "+" + Padded(n, width)
  }

  /** n in decimal, behind any zeros and possibly a plus sign. */
  ghost predicate Numeral(s: string, n: nat) {
    exists width: nat :: IsNumeral(s, n, width)
  }

  predicate IsNegative(s: string, n: nat, width: nat) {
    s == "-" + Padded(n, width)
  }

  /** -n in decimal. */
  ghost predicate NegativeNumeral(s: string, n: nat) {
    exists width: nat :: IsNegative(s, n, width)
  }

  ghost predicate SignedNumeral(s: string, n: int) {
    (n >= 0 && Numeral(s, n)) || (n <= 0 && NegativeNumeral(s, 0 - n))
  }

  lemma {:induction false} DigitsArePadded(s: string)
    requires s != "" && AllDigits(s)
    ensures s == Padded(DigitsValue(s), |s|)
  {
    var n := |s| - 1;
    assert s == s[..n] + [s[n]];
    if n > 0 {
      DigitsArePadded(s[..n]);
    } else {
      assert s[..0] == "" && DigitsValue(s[..0]) == 0;
    }
  }

  /** from_str of an unsigned type accepts the numerals of its values and nothing else. */
  lemma ParseUnsignedExactly(s: string, max: nat, n: nat)
    ensures ParseUnsigned(s, max) == Some(n) <==> n <= max && Numeral(s, n)
  {
    if ParseUnsigned(s, max) == Some(n) {
      var digits := if s != [] && s[0] == '+' then s[1..] else s;
      DigitsArePadded(digits);
      assert s == digits || s == "+" + digits;
      assert IsNumeral(s, n, |digits|);
    } else if n <= max && Numeral(s, n) {
      var width: nat :| IsNumeral(s, n, width);
      ParsePadded(n, width, max);
      if s == "+" + Padded(n, width) {
        assert s[1..] == Padded(n, width);
        PaddedValue(n, width);
      }
    }
  }

  lemma ParseSignedExactly(s: string, min: nat, max: nat, n: int)
    ensures ParseSigned(s, min, max) == Some(n) <==> 0 - min <= n <= max && SignedNumeral(s, n)
  {
    if s != [] && s[0] == '-' {
      NegativeParts(s, min, n);
      if n >= 0 {
        NoMinus(s, n);
      }
    } else {
      if n >= 0 {
        ParseUnsignedExactly(s, max, n);
      }
      if n <= 0 {
        MinusFirst(s, 0 - n);
      }
    }
  }

  lemma MinusFirst(s: string, n: nat)
    requires s == "" || s[0] != '-'
    ensures !NegativeNumeral(s, n)
  {
    forall width: nat
      ensures !IsNegative(s, n, width)
    {
      assert ("-" + Padded(n, width))[0] == '-';
    }
  }

  lemma NoMinus(s: string, n: nat)
    requires s != "" && s[0] == '-'
    ensures !Numeral(s, n)
  {
    forall width: nat
      ensures !IsNumeral(s, n, width)
    {
      assert IsDigit(Padded(n, width)[0]) && ("+" + Padded(n, width))[0] == '+';
    }
  }

  lemma NegativeParts(s: string, min: nat, n: int)
    requires s != "" && s[0] == '-'
    ensures (var digits := s[1..];
             digits != "" && AllDigits(digits) && DigitsValue(digits) <= min && n == 0 - DigitsValue(digits))
       <==> 0 - min <= n <= 0 && NegativeNumeral(s, 0 - n)
  {
    var digits := s[1..];
    if digits != "" && AllDigits(digits) && DigitsValue(digits) <= min && n == 0 - DigitsValue(digits) {
      DigitsArePadded(digits);
      assert IsNegative(s, 0 - n, |digits|);
    }
    if 0 - min <= n <= 0 && NegativeNumeral(s, 0 - n) {
      var magnitude: nat := 0 - n;
      var width: nat :| IsNegative(s, magnitude, width);
      assert s[1..] == Padded(0 - n, width);
      PaddedValue(0 - n, width);
    }
  }

  // ---- Order -------------------------------------------------------------------

  /** Character-wise lexicographic order. */
  predicate LexLess(a: string, b: string) {
    if a == [] || b == [] then |a| < |b|
    else a[0] < b[0] || (a[0] == b[0] && LexLess(a[1..], b[1..]))
  }

  lemma {:induction false} LexLessIrreflexive(a: string)
    ensures !LexLess(a, a)
  {
    if a != [] {
      LexLessIrreflexive(a[1..]);
    }
  }

  /** Behind prefixes of one length, the first difference decides. */
  lemma {:induction false} LexLessConcat(a: string, b: string, x: string, y: string)
    requires |a| == |b|
    ensures LexLess(a + x, b + y) <==> LexLess(a, b) || (a == b && LexLess(x, y))
  {
    if a == [] {
      assert a + x == x && b + y == y;
    } else {
      assert (a + x)[1..] == a[1..] + x && (b + y)[1..] == b[1..] + y;
      assert a == [a[0]] + a[1..] && b == [b[0]] + b[1..];
      LexLessConcat(a[1..], b[1..], x, y);
    }
  }

  /** Numbers padded to one width compare as their texts do. */
  lemma {:induction false} PaddedOrder(m: nat, n: nat, width: nat)
    requires width >= 1 && m < Pow10(width) && n < Pow10(width)
    ensures LexLess(Padded(m, width), Padded(n, width)) <==> m < n
    ensures Padded(m, width) == Padded(n, width) <==> m == n
    decreases width
  {
    PaddedValue(m, width);
    PaddedValue(n, width);
    QuotientOrder(m, n);
    if width == 1 {
      assert Pow10(1) == 10 * Pow10(0);
      DigitOrder(m, n);
    } else {
      assert m / 10 < Pow10(width - 1) && n / 10 < Pow10(width - 1);
      PaddedOrder(m / 10, n / 10, width - 1);
      PaddedLength(m / 10, width - 1);
      PaddedLength(n / 10, width - 1);
      DigitOrder(m % 10, n % 10);
      LexLessConcat(Padded(m / 10, width - 1), Padded(n / 10, width - 1), [DigitChar(m % 10)], [DigitChar(n % 10)]);
    }
  }

  lemma QuotientOrder(m: nat, n: nat)
    ensures m < n <==> m / 10 < n / 10 || (m / 10 == n / 10 && m % 10 < n % 10)
  {
  }

  lemma DigitOrder(d: nat, e: nat)
    requires d < 10 && e < 10
    ensures LexLess([DigitChar(d)], [DigitChar(e)]) <==> d < e
  {
  }

  // ---- Characters that JSON leaves alone ---------------------------------------

  /** `unescaped` of section 7 of RFC 8259. */
  predicate IsPlainChar(c: char) {
    c >= ' ' && c != '"' && c != '\\'
  }

  predicate Plain(s: string) {
    forall i :: 0 <= i < |s| ==> IsPlainChar(s[i])
  }

  // ---- Texts built from pieces -------------------------------------------------

  lemma FrontOf(a: string, b: string)
    requires a != ""
    ensures a + b != "" && (a + b)[0] == a[0]
  {
  }

  lemma {:induction false} IndexOfConcat(a: string, c: char, rest: string)
    requires c !in a
    ensures IndexOf(a + [c] + rest, c) == |a|
  {
    var s := a + [c] + rest;
    assert s[|a|] == c;
    assert forall j :: 0 <= j < |a| ==> s[j] == a[j];
  }

  lemma SplitOnConcat(a: string, c: char, rest: string)
    requires c !in a
    ensures SplitOn(a + [c] + rest, c) == [a] + SplitOn(rest, c)
  {
    var s := a + [c] + rest;
    IndexOfConcat(a, c, rest);
    assert s[..|a|] == a && s[|a| + 1..] == rest;
  }

  lemma SplitOnWhole(a: string, c: char)
    requires c !in a
    ensures SplitOn(a, c) == [a]
  {
    assert IndexOf(a, c) == |a|;
  }

  lemma {:induction false} SkipSpacesConcat(spaces: string, rest: string)
    requires AllAsciiWhitespace(spaces)
    ensures SkipSpaces(spaces + rest) == SkipSpaces(rest)
  {
    if spaces == [] {
      assert spaces + rest == rest;
    } else {
      assert (spaces + rest)[1..] == spaces[1..] + rest;
      SkipSpacesConcat(spaces[1..], rest);
    }
  }

  lemma {:induction false} WordLengthConcat(word: string, rest: string)
    requires NoAsciiWhitespace(word) && (rest != [] ==> IsAsciiWhitespace(rest[0]))
    ensures WordLength(word + rest) == |word|
  {
    var s := word + rest;
    var n := WordLength(s);
    assert forall i :: 0 <= i < |word| ==> s[i] == word[i];
    assert rest != [] ==> s[|word|] == rest[0];
    assert forall i :: 0 <= i < n ==> s[..n][i] == s[i];
  }

  lemma WordsConcat(spaces: string, word: string, rest: string)
    requires AllAsciiWhitespace(spaces)
    requires word != [] && NoAsciiWhitespace(word) && (rest != [] ==> IsAsciiWhitespace(rest[0]))
    ensures Words(spaces + word + rest) == [word] + Words(rest)
  {
    var t := word + rest;
    assert spaces + word + rest == spaces + t;
    SkipSpacesConcat(spaces, t);
    assert t[0] == word[0];
    WordLengthConcat(word, rest);
    assert t[..|word|] == word && t[|word|..] == rest;
  }

  /** split_ascii_whitespace yields the runs of other characters, in order. */
  lemma WordsAreRuns(gap: string, word: string, rest: string)
    requires OnlyGaps(gap) && word != "" && NoGaps(word) && (rest != "" ==> rest[0] in ASCII_GAPS)
    ensures Words(gap + word + rest) == [word] + Words(rest)
    ensures Words(gap) == []
  {
    GapsAreWhitespace(gap);
    GapsAreWhitespace(word);
    if rest != "" {
      GapChar(rest[0]);
    }
    WordsConcat(gap, word, rest);
    SkipSpacesConcat(gap, "");
    assert gap + "" == gap;
  }

  lemma NextWord(gap: string, word: string, rest: string)
    requires AllAsciiWhitespace(gap) && gap != ""
    requires word != "" && NoAsciiWhitespace(word) && (rest != "" ==> IsAsciiWhitespace(rest[0]))
    ensures var s := gap + word + rest;
            s != "" && IsAsciiWhitespace(s[0]) && Words(s) == [word] + Words(rest)
  {
    WordsConcat(gap, word, rest);
    assert (gap + word + rest)[0] == gap[0];
  }

  lemma FirstWord(word: string, rest: string)
    requires word != "" && NoAsciiWhitespace(word)
    requires rest != "" ==> IsAsciiWhitespace(rest[0])
    ensures Words(word + rest) == [word] + Words(rest)
  {
    assert word + rest == "" + word + rest;
    WordsConcat("", word, rest);
  }

  lemma {:induction false} TrimStartConcat(spaces: string, rest: string)
    requires forall i :: 0 <= i < |spaces| ==> IsOneOctetSpace(spaces[i])
    requires SpaceAtFront(rest) == 0
    ensures TrimStart(spaces + rest) == rest
  {
    if spaces == [] {
      assert spaces + rest == rest;
    } else {
      assert (spaces + rest)[1..] == spaces[1..] + rest;
      TrimStartConcat(spaces[1..], rest);
    }
  }
}
