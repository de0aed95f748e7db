/** src/net/http.rs: responses as RFC 9112 frames them. */
module Http {
  import opened Wrappers
  import opened Text

  // ---- UTF-8 ------------------------------------------------------------------------

  predicate Between(s: string, i: nat, lo: char, hi: char) {
    i < |s| && lo <= s[i] <= hi
  }

  predicate Tail(s: string, i: nat) {
    Between(s, i, '\U{80}', '\U{BF}')
  }

  /** Octets of the character at the front by the grammar in section 4 of RFC 3629,
      0 if there is none. */
  function CharLength(s: string): (n: nat)
    ensures n <= |s|
  {
    if Between(s, 0, '\0', '\U{7F}') then 1
    else if Between(s, 0, '\U{C2}', '\U{DF}') && Tail(s, 1) then 2
    else if Between(s, 0, '\U{E0}', '\U{EF}') && Tail(s, 1) && Tail(s, 2)
         && (s[0] == '\U{E0}' ==> s[1] >= '\U{A0}') && (s[0] == '\U{ED}' ==> s[1] <= '\U{9F}') then 3
    else if Between(s, 0, '\U{F0}', '\U{F4}') && Tail(s, 1) && Tail(s, 2) && Tail(s, 3)
         && (s[0] == '\U{F0}' ==> s[1] >= '\U{90}') && (s[0] == '\U{F4}' ==> s[1] <= '\U{8F}') then 4
    else 0
  }

  predicate Utf8(s: string) {
    s == "" || (CharLength(s) > 0 && Utf8(s[CharLength(s)..]))
  }

  lemma {:induction false} Utf8Concat(a: string, b: string)
    requires Utf8(a) && Utf8(b)
    ensures Utf8(a + b)
    decreases |a|
  {
    if a == "" {
      assert a + b == b;
    } else {
      var n := CharLength(a);
      assert forall i :: 0 <= i < |a| ==> (a + b)[i] == a[i];
      assert CharLength(a + b) == n;
      assert (a + b)[n..] == a[n..] + b;
      Utf8Concat(a[n..], b);
    }
  }

  /** A Unicode scalar value. */
  predicate Scalar(c: nat) {
    c < 0xD800 || 0xE000 <= c <= 0x10FFFF
  }

  function Octet(n: nat): char
    requires n < 0x100
  {
    n as char
  }

  /** The encoding of section 3 of RFC 3629. */
  function Octets(c: nat): (s: string)
    requires Scalar(c)
    ensures s != ""
  {
    if c < 0x80 then [Octet(c)]
    else if c < 0x800 then [Octet(0xC0 + c / 0x40), Octet(0x80 + c % 0x40)]
    else if c < 0x1_0000 then [Octet(0xE0 + c / 0x1000), Octet(0x80 + c / 0x40 % 0x40), Octet(0x80 + c % 0x40)]
    else [Octet(0xF0 + c / 0x4_0000), Octet(0x80 + c / 0x1000 % 0x40), Octet(0x80 + c / 0x40 % 0x40), Octet(0x80 + c % 0x40)]
  }

  lemma OctetsAreAChar(c: nat, rest: string)
    requires Scalar(c)
    ensures CharLength(Octets(c) + rest) == |Octets(c)|
  {
    var s := Octets(c) + rest;
    assert forall i :: 0 <= i < |Octets(c)| ==> s[i] == Octets(c)[i];
  }

  lemma CharIsOctets(s: string) returns (c: nat)
    requires CharLength(s) > 0
    ensures Scalar(c) && s[..CharLength(s)] == Octets(c)
  {
    var n := CharLength(s);
    var a := s[0] as int;
    if n == 1 {
      c := a;
    } else if n == 2 {
      c := TwoParts(a - 0xC0, s[1] as int - 0x80);
    } else if n == 3 {
      c := ThreeParts(a - 0xE0, s[1] as int - 0x80, s[2] as int - 0x80);
    } else {
      c := FourParts(a - 0xF0, s[1] as int - 0x80, s[2] as int - 0x80, s[3] as int - 0x80);
    }
  }

  lemma TwoParts(a: nat, b: nat) returns (c: nat)
    requires 2 <= a < 0x20 && b < 0x40
    ensures 0x80 <= c < 0x800 && c / 0x40 == a && c % 0x40 == b
  {
    c := a * 0x40 + b;
  }

  lemma ThreeParts(a: nat, b: nat, d: nat) returns (c: nat)
    requires a < 0x10 && b < 0x40 && d < 0x40 && (a == 0 ==> b >= 0x20) && (a == 0xD ==> b < 0x20)
    ensures 0x800 <= c < 0x1_0000 && Scalar(c) && c / 0x1000 == a && c / 0x40 % 0x40 == b && c % 0x40 == d
  {
    c := a * 0x1000 + b * 0x40 + d;
    assert c / 0x40 == a * 0x40 + b;
  }

  lemma FourParts(a: nat, b: nat, d: nat, e: nat) returns (c: nat)
    requires a <= 4 && b < 0x40 && d < 0x40 && e < 0x40 && (a == 0 ==> b >= 0x10) && (a == 4 ==> b < 0x10)
    ensures 0x1_0000 <= c <= 0x10FFFF
    ensures c / 0x4_0000 == a && c / 0x1000 % 0x40 == b && c / 0x40 % 0x40 == d && c % 0x40 == e
  {
    c := a * 0x4_0000 + b * 0x1000 + d * 0x40 + e;
    assert c / 0x40 == (a * 0x40 + b) * 0x40 + d;
    assert c / 0x1000 == a * 0x40 + b;
  }

  function Encoded(chars: seq<nat>): string
    requires forall i :: 0 <= i < |chars| ==> Scalar(chars[i])
  {
    if chars == [] then "" else Octets(chars[0]) + Encoded(chars[1..])
  }

  /** What from_utf8 accepts is encoded text ... */
  lemma {:induction false} EncodedIsUtf8(chars: seq<nat>)
    requires forall i :: 0 <= i < |chars| ==> Scalar(chars[i])
    ensures Utf8(Encoded(chars))
  {
    if chars != [] {
      var first, more := Octets(chars[0]), Encoded(chars[1..]);
      OctetsAreAChar(chars[0], more);
      assert (first + more)[|first|..] == more;
      EncodedIsUtf8(chars[1..]);
    }
  }

  /** ... and nothing else is. */
  lemma {:induction false} Utf8IsEncoded(s: string) returns (chars: seq<nat>)
    requires Utf8(s)
    ensures (forall i :: 0 <= i < |chars| ==> Scalar(chars[i])) && s == Encoded(chars)
    decreases |s|
  {
    if s == "" {
      chars := [];
    } else {
      var n := CharLength(s);
      var c := CharIsOctets(s);
      var more := Utf8IsEncoded(s[n..]);
      chars := [c] + more;
      assert chars[1..] == more && s == s[..n] + s[n..];
    }
  }

  predicate Ascii(s: string) {
    forall i :: 0 <= i < |s| ==> s[i] <= '\U{7F}'
  }

  lemma {:induction false} AsciiIsUtf8(s: string)
    requires Ascii(s)
    ensures Utf8(s)
  {
    if s != "" {
      AsciiIsUtf8(s[1..]);
    }
  }

  // ---- Lines --------------------------------------------------------------------------

  const CRLF := "\r\n"
  const BLANK := "\r\n\r\n"

  predicate MatchAt(s: string, pattern: string, i: nat) {
    i + |pattern| <= |s| && s[i..i + |pattern|] == pattern
  }

  /** Where pattern first occurs from i on, or the length of s. */
  function FindFrom(s: string, pattern: string, i: nat): (r: nat)
    requires i <= |s| && pattern != ""
    ensures i <= r <= |s|
    ensures r < |s| ==> MatchAt(s, pattern, r)
    ensures forall j :: i <= j < r ==> !MatchAt(s, pattern, j)
    decreases |s| - i
  {
    if i == |s| || MatchAt(s, pattern, i) then i else FindFrom(s, pattern, i + 1)
  }

  function StripCr(line: string): string {
    if line != "" && line[|line| - 1] == '\r' then line[..|line| - 1] else line
  }

  /** What str::lines yields. */
  function Lines(s: string): seq<string>
    decreases |s|
  {
    if s == "" then []
    else
      var i := IndexOf(s, '\n');
      if i == |s| then [s] else [StripCr(s[..i])] + Lines(s[i + 1..])
  }

  lemma LineStep(s: string, i: nat, rest: string)
    requires i < |s| && IndexOf(s, '\n') == i && s[i + 1..] == rest
    ensures Lines(s) == [StripCr(s[..i])] + Lines(rest)
  {
  }

  lemma EndedLine(line: string, rest: string)
    requires '\n' !in line
    ensures Lines(line + ['\n'] + rest) == [StripCr(line)] + Lines(rest)
  {
    var s := line + ['\n'] + rest;
    IndexOfConcat(line, '\n', rest);
    assert s[..|line|] == line && s[|line| + 1..] == rest;
    LineStep(s, |line|, rest);
  }

  /** lines ends a line at each line feed, and takes a CR before it for part of the end. */
  lemma LineBreaks(line: string, rest: string)
    requires '\n' !in line
    ensures line == "" || line[|line| - 1] != '\r' ==> Lines(line + ['\n'] + rest) == [line] + Lines(rest)
    ensures Lines(line + ['\r'] + ['\n'] + rest) == [line] + Lines(rest)
    ensures Lines(line) == if line == "" then [] else [line]
  {
    EndedLine(line, rest);
    EndedLine(line + ['\r'], rest);
    assert StripCr(line + ['\r']) == line;
    assert line != "" ==> IndexOf(line, '\n') == |line|;
  }

  // ---- Responses ----------------------------------------------------------------------

  datatype ApiError = BadResponse | Truncated(size: nat) | Tls

  datatype Response = Response(status: nat, headers: string, body: string) {
    /** The value behind the first line with this name. */
    function Header(name: string): Option<string> {
      HeaderIn(Lines(headers), name)
    }
  }

  function Lower(c: char): char {
    if 'A' <= c <= 'Z' then (c as int + 32) as char else c
  }

  predicate EqIgnoreAsciiCase(a: string, b: string) {
    |a| == |b| && forall i :: 0 <= i < |a| ==> Lower(a[i]) == Lower(b[i])
  }

  const UPPER_CASE := "ABCDEFGHIJKLMNOPQRSTUVWXYZ"
  const LOWER_CASE := "abcdefghijklmnopqrstuvwxyz"

  /** The n-th letter of either alphabet is the one that many behind the first. */
  lemma Alphabets(n: nat)
    requires n < 26
    ensures UPPER_CASE[n] as int == 'A' as int + n && LOWER_CASE[n] as int == 'a' as int + n
  {
  }

  /** The same character, or one letter in both cases. */
  ghost predicate SameLetter(c: char, d: char) {
    c == d || exists n :: 0 <= n < 26 && {c, d} == {UPPER_CASE[n], LOWER_CASE[n]}
  }

  ghost predicate SameName(a: string, b: string) {
    |a| == |b| && forall i :: 0 <= i < |a| ==> SameLetter(a[i], b[i])
  }

  lemma LowerDecides(c: char, d: char)
    ensures Lower(c) == Lower(d) <==> SameLetter(c, d)
  {
    forall n: nat | n < 26
      ensures UPPER_CASE[n] as int == 'A' as int + n && LOWER_CASE[n] as int == 'a' as int + n
    {
      Alphabets(n);
    }
    if c != d && Lower(c) == Lower(d) {
      var n := Lower(c) as int - 'a' as int;
      assert {c, d} == {UPPER_CASE[n], LOWER_CASE[n]};
    }
  }

  /** eq_ignore_ascii_case tells names apart that differ in more than the case of letters. */
  lemma CaseDoesNotMatter(a: string, b: string)
    ensures EqIgnoreAsciiCase(a, b) <==> SameName(a, b)
  {
    if |a| == |b| {
      forall i | 0 <= i < |a|
        ensures Lower(a[i]) == Lower(b[i]) <==> SameLetter(a[i], b[i])
      {
        LowerDecides(a[i], b[i]);
      }
    }
  }

  function HeaderIn(lines: seq<string>, name: string): Option<string> {
    if lines == [] then None
    else
      var line := lines[0];
      var colon := IndexOf(line, ':');
      if colon < |line| && EqIgnoreAsciiCase(line[..colon], name) then Some(Trim(line[colon + 1..]))
      else HeaderIn(lines[1..], name)
  }

  function ParseResponse(buf: string): Result<Response, ApiError> {
    var split := FindFrom(buf, BLANK, 0);
    if split == |buf| then Err(BadResponse)
    else
      var head := buf[..split];
      var body := buf[split + 4..];
      if !Utf8(head) then Err(BadResponse)
      else
        var lines := Lines(head);
        if lines == [] then Err(BadResponse)
        else
          var parts := Words(lines[0]);
          if |parts| < 2 then Err(BadResponse)
          else
            var status := ParseUnsigned(parts[1], 0xFFFF);
            if status.None? then Err(BadResponse)
            else Ok(Response(status.value, HeaderBlock(head), body))
  }

  /** Everything behind the first CRLF. */
  function HeaderBlock(head: string): string {
    var i := FindFrom(head, CRLF, 0);
    if i == |head| then "" else head[i + 2..]
  }

  // ---- Messages as sections 2.1 and 4 of RFC 9112 print them ----------------------------

  predicate NoLineBreak(s: string) {
    forall i :: 0 <= i < |s| ==> s[i] != '\r' && s[i] != '\n'
  }

  /** status-line: version, code, reason. */
  function StatusLine(version: string, code: string, reason: string): string {
    version + (" " + code + (" " + reason))
  }

  function WithLines(first: string, lines: seq<string>): string {
    if lines == [] then first else WithLines(first, lines[..|lines| - 1]) + CRLF + lines[|lines| - 1]
  }

  function JoinLines(lines: seq<string>): string {
    if lines == [] then "" else WithLines(lines[0], lines[1..])
  }

  predicate GoodLine(line: string) {
    line != "" && NoLineBreak(line) && Utf8(line)
  }

  // ---- The blank line is where the printer put it ---------------------------------------

  /** Behind every CR of the text there is a line feed and a character of a line. */
  predicate CrSafe(s: string) {
    forall p :: 0 <= p < |s| && s[p] == '\r' ==> p + 2 < |s| && s[p + 2] != '\r'
  }

  lemma {:induction false} WithLinesShape(first: string, lines: seq<string>)
    requires NoLineBreak(first) && Utf8(first)
    requires forall i :: 0 <= i < |lines| ==> GoodLine(lines[i])
    ensures CrSafe(WithLines(first, lines)) && Utf8(WithLines(first, lines))
  {
    if lines != [] {
      var n := |lines| - 1;
      var front := WithLines(first, lines[..n]);
      WithLinesShape(first, lines[..n]);
      AddLineShape(front, lines[n]);
    }
  }

  lemma AddLineShape(front: string, line: string)
    requires CrSafe(front) && Utf8(front) && GoodLine(line)
    ensures CrSafe(front + CRLF + line) && Utf8(front + CRLF + line)
  {
    AsciiIsUtf8(CRLF);
    Utf8Concat(front, CRLF);
    Utf8Concat(front + CRLF, line);
    AddLineCrSafe(front, line);
  }

  lemma AddLineCrSafe(front: string, line: string)
    requires CrSafe(front) && line != "" && NoLineBreak(line)
    ensures CrSafe(front + CRLF + line)
  {
    var s := front + CRLF + line;
    assert forall p :: 0 <= p < |front| ==> s[p] == front[p];
    assert forall p :: |front| + 2 <= p < |s| ==> s[p] == line[p - |front| - 2];
    assert s[|front| + 1] == '\n' && s[|front| + 2] == line[0];
  }

  lemma MatchedChar(s: string, pattern: string, i: nat, k: nat)
    requires k < |pattern|
    ensures MatchAt(s, pattern, i) ==> s[i + k] == pattern[k]
  {
    if MatchAt(s, pattern, i) {
      assert s[i..i + |pattern|][k] == s[i + k];
    }
  }

  /** In a CR-safe text the first blank line of any message is the one behind it. */
  lemma FindBlank(head: string, body: string)
    requires CrSafe(head)
    ensures FindFrom(head + BLANK + body, BLANK, 0) == |head|
  {
    var s := head + BLANK + body;
    assert s[|head|..|head| + 4] == BLANK;
    assert MatchAt(s, BLANK, |head|);
    forall i | 0 <= i < |head|
      ensures !MatchAt(s, BLANK, i)
    {
      MatchedChar(s, BLANK, i, 0);
      MatchedChar(s, BLANK, i, 2);
    }
  }

  lemma {:induction false} WithLinesFront(first: string, lines: seq<string>)
    requires lines != []
    ensures WithLines(first, lines) == first + CRLF + JoinLines(lines)
  {
    var n := |lines| - 1;
    if n == 0 {
      assert lines[..0] == [] && lines[1..] == [];
    } else {
      WithLinesFront(first, lines[..n]);
      assert lines[..n][1..] == lines[1..][..n - 1];
      assert lines[1..][n - 1] == lines[n];
      var mid := JoinLines(lines[..n]);
      assert JoinLines(lines) == mid + CRLF + lines[n];
      assert first + CRLF + mid + CRLF + lines[n] == first + CRLF + (mid + CRLF + lines[n]);
    }
  }

  lemma FindCrlf(first: string, rest: string)
    requires NoLineBreak(first)
    ensures FindFrom(first + CRLF + rest, CRLF, 0) == |first|
    ensures IndexOf(first + CRLF + rest, '\n') == |first| + 1
  {
    var s := first + CRLF + rest;
    assert s[|first|..|first| + 2] == CRLF;
    assert MatchAt(s, CRLF, |first|);
    assert s[|first| + 1] == '\n';
    forall i | 0 <= i < |first|
      ensures !MatchAt(s, CRLF, i)
    {
      MatchedChar(s, CRLF, i, 0);
    }
    assert forall i :: 0 <= i <= |first| ==> s[i] != '\n';
  }

  lemma NoCrlf(first: string)
    requires NoLineBreak(first)
    ensures FindFrom(first, CRLF, 0) == |first| && IndexOf(first, '\n') == |first|
  {
    forall i | 0 <= i < |first|
      ensures !MatchAt(first, CRLF, i)
    {
      MatchedChar(first, CRLF, i, 0);
    }
  }

  /** First line and header block of a printed head. */
  lemma HeadParts(first: string, lines: seq<string>)
    requires first != "" && NoLineBreak(first)
    ensures var head := WithLines(first, lines);
            HeaderBlock(head) == JoinLines(lines) && Lines(head) != [] && Lines(head)[0] == first
  {
    if lines == [] {
      NoCrlf(first);
    } else {
      WithLinesFront(first, lines);
      FindCrlf(first, JoinLines(lines));
      var head := first + CRLF + JoinLines(lines);
      assert head[..|first| + 1] == first + "\r";
      assert StripCr(first + "\r") == first;
    }
  }

  predicate IsCode(code: string) {
    code != "" && NoGaps(code) && Utf8(code)
  }

  lemma StatusLineWords(version: string, code: string, reason: string)
    requires IsCode(version) && IsCode(code)
    ensures var words := Words(StatusLine(version, code, reason));
            |words| >= 2 && words[1] == code
  {
    GapsAreWhitespace(version);
    GapsAreWhitespace(code);
    var tail := " " + reason;
    assert tail[0] == ' ';
    NextWord(" ", code, tail);
    FirstWord(version, " " + code + tail);
  }

  lemma PrintedResponse(version: string, code: string, reason: string, lines: seq<string>, body: string)
    requires IsCode(version) && IsCode(code) && NoLineBreak(reason) && Utf8(reason)
    requires forall i :: 0 <= i < |lines| ==> GoodLine(lines[i])
    ensures ParseResponse(WithLines(StatusLine(version, code, reason), lines) + BLANK + body)
         == var status := ParseUnsigned(code, 0xFFFF);
            if status.None? then Err(BadResponse) else Ok(Response(status.value, JoinLines(lines), body))
  {
    var first := StatusLine(version, code, reason);
    StatusLineShape(version, code, reason);
    var head := WithLines(first, lines);
    WithLinesShape(first, lines);
    FindBlank(head, body);
    var buf := head + BLANK + body;
    assert buf[..|head|] == head && buf[|head| + 4..] == body;
    HeadParts(first, lines);
    StatusLineWords(version, code, reason);
  }

  /** Any status line, header lines and body parse back, even a body that contains
      blank lines itself: with the status if the code is the numeral of a 16-bit number, not
      at all if it is anything else. */
  lemma ResponseReadsBack(version: string, code: string, reason: string, lines: seq<string>, body: string)
    requires IsCode(version) && IsCode(code) && NoLineBreak(reason) && Utf8(reason)
    requires forall i :: 0 <= i < |lines| ==> GoodLine(lines[i])
    ensures var r := ParseResponse(WithLines(StatusLine(version, code, reason), lines) + BLANK + body);
            && (forall status: nat :: status <= 0xFFFF && Numeral(code, status) ==> r == Ok(Response(status, JoinLines(lines), body)))
            && (r.Err? <==> !exists status: nat :: status <= 0xFFFF && Numeral(code, status))
  {
    PrintedResponse(version, code, reason, lines, body);
    forall status: nat
      ensures ParseUnsigned(code, 0xFFFF) == Some(status) <==> status <= 0xFFFF && Numeral(code, status)
    {
      ParseUnsignedExactly(code, 0xFFFF, status);
    }
  }

  lemma StatusLineShape(version: string, code: string, reason: string)
    requires IsCode(version) && IsCode(code) && NoLineBreak(reason) && Utf8(reason)
    ensures var first := StatusLine(version, code, reason);
            first != "" && NoLineBreak(first) && Utf8(first)
  {
    GapsAreWhitespace(version);
    GapsAreWhitespace(code);
    WordIsText(version);
    WordIsText(code);
    AsciiIsUtf8(" ");
    TextConcat(" ", code);
    TextConcat(" ", reason);
    TextConcat(" " + code, " " + reason);
    TextConcat(version, " " + code + (" " + reason));
  }

  lemma WordIsText(word: string)
    requires NoAsciiWhitespace(word)
    ensures NoLineBreak(word)
  {
  }

  /** The first line of a head has a version and the numeral of this status. */
  ghost predicate HasStatus(head: string, status: nat) {
    && Utf8(head) && Lines(head) != []
    && var words := Words(Lines(head)[0]);
       |words| >= 2 && status <= 0xFFFF && Numeral(words[1], status)
  }

  /** rest is what follows the first occurrence of pattern in s, or nothing if there is none. */
  ghost predicate Follows(s: string, pattern: string, rest: string)
    requires pattern != ""
  {
    if forall i :: 0 <= i < |s| ==> !MatchAt(s, pattern, i) then rest == ""
    else exists i :: 0 <= i < |s| && MatchAt(s, pattern, i) && (forall j :: 0 <= j < i ==> !MatchAt(s, pattern, j))
                     && rest == s[i + |pattern|..]
  }

  /** Conversely, a buffer is accepted exactly if before its first blank line there is a head
      with a status; it is then that head, the blank line, and the body, and the header lines
      are those behind the first line of the head. */
  lemma AcceptedSplit(buf: string) returns (head: string)
    ensures (forall i :: 0 <= i < |buf| ==> !MatchAt(buf, "\r\n\r\n", i)) ==> ParseResponse(buf).Err?
    ensures ParseResponse(buf).Ok? ==>
              && var r := ParseResponse(buf).value;
              && FindFrom(buf, "\r\n\r\n", 0) == |head| && buf == head + "\r\n\r\n" + r.body
              && HasStatus(head, r.status) && Follows(head, "\r\n", r.headers)
    ensures var split := FindFrom(buf, "\r\n\r\n", 0);
            split < |buf| && (exists status: nat :: HasStatus(buf[..split], status)) ==> ParseResponse(buf).Ok?
  {
    var split := FindFrom(buf, BLANK, 0);
    head := buf[..split];
    if ParseResponse(buf).Ok? {
      AcceptedParts(buf);
      SplitAt(buf, split);
      HeadersFollow(head);
      ParseUnsignedExactly(Words(Lines(head)[0])[1], 0xFFFF, ParseResponse(buf).value.status);
    } else if split < |buf| && exists status: nat :: HasStatus(head, status) {
      var status: nat :| HasStatus(head, status);
      ParseUnsignedExactly(Words(Lines(head)[0])[1], 0xFFFF, status);
      assert false;
    }
  }

  lemma HeadersFollow(head: string)
    ensures Follows(head, "\r\n", HeaderBlock(head))
  {
    var i := FindFrom(head, CRLF, 0);
    if i < |head| {
      assert MatchAt(head, "\r\n", i);
    }
  }

  lemma SplitAt(s: string, i: nat)
    requires MatchAt(s, BLANK, i)
    ensures i + 4 <= |s| && s == s[..i] + BLANK + s[i + 4..]
  {
    assert s == s[..i] + s[i..i + |BLANK|] + s[i + |BLANK|..];
  }

  lemma AcceptedParts(buf: string)
    requires ParseResponse(buf).Ok?
    ensures var split := FindFrom(buf, BLANK, 0);
            && split + 4 <= |buf| && Utf8(buf[..split]) && ParseResponse(buf).value.body == buf[split + 4..]
            && ParseResponse(buf).value.headers == HeaderBlock(buf[..split])
            && Lines(buf[..split]) != []
            && var words := Words(Lines(buf[..split])[0]);
               |words| >= 2 && ParseUnsigned(words[1], 0xFFFF) == Some(ParseResponse(buf).value.status)
  {
  }

  // ---- Header fields --------------------------------------------------------------------

  /** field-line: name, colon, white space around the value. */
  datatype Field = Field(name: string, before: string, value: string, after: string) {
    predicate Valid() {
      && ':' !in name && NoLineBreak(name) && Utf8(name)
      && Utf8(value) && NoLineBreak(value)
      && Blanks(before) && Blanks(after)
      && Trimmed(value)
    }

    function Line(): string {
      name + [':'] + (before + (value + after))
    }
  }

  /** OWS. */
  predicate Blanks(s: string) {
    forall i :: 0 <= i < |s| ==> s[i] == ' ' || s[i] == '\t'
  }

  function FieldLines(fields: seq<Field>): (lines: seq<string>)
    ensures |lines| == |fields|
  {
    seq(|fields|, i requires 0 <= i < |fields| => fields[i].Line())
  }

  /** The value of the first field with this name, case aside. */
  ghost function FirstField(fields: seq<Field>, name: string): Option<string> {
    if fields == [] then None
    else if SameName(fields[0].name, name) then Some(fields[0].value)
    else FirstField(fields[1..], name)
  }

  lemma {:induction false} TrimEndBlanks(value: string, after: string)
    requires Blanks(after) && SpaceAtBack(value) == 0
    ensures TrimEnd(value + after) == value
    decreases |after|
  {
    if after == "" {
      assert value + after == value;
    } else {
      var s := value + after;
      assert s[|s| - 1] == after[|after| - 1];
      assert s[..|s| - 1] == value + after[..|after| - 1];
      TrimEndBlanks(value, after[..|after| - 1]);
    }
  }

  lemma FrontUnchanged(value: string, after: string)
    requires value != "" && SpaceAtFront(value) == 0 && Blanks(after)
    ensures SpaceAtFront(value + after) == 0
  {
    var s := value + after;
    assert s[0] == value[0];
    if |s| >= 2 {
      assert s[..2][0] == s[0] && s[..2][1] == s[1];
      assert |value| >= 2 ==> s[..2] == value[..2];
      assert |value| < 2 ==> s[1] == after[1 - |value|];
    }
    if |s| >= 3 {
      assert s[..3][0] == s[0] && s[..3][1] == s[1] && s[..3][2] == s[2];
      assert |value| >= 3 ==> s[..3] == value[..3];
      assert |value| < 3 ==> s[2] == after[2 - |value|];
    }
  }

  lemma TrimField(before: string, value: string, after: string)
    requires Blanks(before) && Blanks(after) && SpaceAtFront(value) == 0 && SpaceAtBack(value) == 0
    ensures Trim(before + (value + after)) == value
  {
    if value == "" {
      assert before + (value + after) == (before + after) + "";
      TrimStartConcat(before + after, "");
    } else {
      FrontUnchanged(value, after);
      TrimStartConcat(before, value + after);
      TrimEndBlanks(value, after);
    }
  }

  lemma {:induction false} HeaderOfFields(fields: seq<Field>, name: string)
    requires forall i :: 0 <= i < |fields| ==> fields[i].Valid()
    ensures HeaderIn(FieldLines(fields), name) == FirstField(fields, name)
  {
    if fields != [] {
      var f := fields[0];
      var rest := f.before + (f.value + f.after);
      IndexOfConcat(f.name, ':', rest);
      assert f.Line()[..|f.name|] == f.name && f.Line()[|f.name| + 1..] == rest;
      TrimmedHasNoSpace(f.value);
      TrimField(f.before, f.value, f.after);
      CaseDoesNotMatter(f.name, name);
      assert FieldLines(fields)[0] == f.Line();
      assert FieldLines(fields)[1..] == FieldLines(fields[1..]);
      HeaderOfFields(fields[1..], name);
    }
  }

  lemma {:induction false} LinesReadBack(lines: seq<string>)
    requires forall i :: 0 <= i < |lines| ==> lines[i] != "" && NoLineBreak(lines[i])
    ensures Lines(JoinLines(lines)) == lines
  {
    if |lines| == 1 {
      NoCrlf(lines[0]);
    } else if |lines| >= 2 {
      var first, rest := lines[0], JoinLines(lines[1..]);
      WithLinesFront(first, lines[1..]);
      FindCrlf(first, rest);
      var s := first + CRLF + rest;
      assert s[..|first| + 1] == first + "\r" && s[|first| + 2..] == rest;
      assert StripCr(first + "\r") == first;
      LinesReadBack(lines[1..]);
    }
  }

  lemma FieldLineIsGood(f: Field)
    requires f.Valid()
    ensures GoodLine(f.Line())
  {
    AsciiIsUtf8([':']);
    BlanksAreText(f.before);
    BlanksAreText(f.after);
    TextConcat(f.name, [':']);
    TextConcat(f.value, f.after);
    TextConcat(f.before, f.value + f.after);
    TextConcat(f.name + [':'], f.before + (f.value + f.after));
  }

  lemma BlanksAreText(s: string)
    requires Blanks(s)
    ensures Utf8(s) && NoLineBreak(s)
  {
    AsciiIsUtf8(s);
  }

  lemma TextConcat(a: string, b: string)
    requires Utf8(a) && Utf8(b) && NoLineBreak(a) && NoLineBreak(b)
    ensures Utf8(a + b) && NoLineBreak(a + b)
  {
    Utf8Concat(a, b);
  }

  /** A header of a printed response is the trimmed value of the first field with
      that name, and nothing when there is no such field. */
  lemma HeaderReadsBack(version: string, code: string, reason: string, fields: seq<Field>, body: string, name: string)
    requires IsCode(version) && IsCode(code) && NoLineBreak(reason) && Utf8(reason)
    requires exists status: nat :: status <= 0xFFFF && Numeral(code, status)
    requires forall i :: 0 <= i < |fields| ==> fields[i].Valid()
    ensures var r := ParseResponse(WithLines(StatusLine(version, code, reason), FieldLines(fields)) + BLANK + body);
            r.Ok? && r.value.Header(name) == FirstField(fields, name)
  {
    var lines := FieldLines(fields);
    forall i | 0 <= i < |lines|
      ensures GoodLine(lines[i])
    {
      FieldLineIsGood(fields[i]);
    }
    ResponseReadsBack(version, code, reason, lines, body);
    LinesReadBack(lines);
    HeaderOfFields(fields, name);
  }
}
