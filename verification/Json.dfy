/** JSON as the firmware writes it: objects, arrays, natural numbers and strings without
    white space and without escapes (sections 2 and 4 to 7 of RFC 8259), printed and read. */
module Json {
  import opened Wrappers
  import opened Text

  datatype List<+T> = Nil | Cons(head: T, tail: List<T>)

  datatype Json = Str(text: string) | Num(digits: string) | Arr(items: List<Json>) | Obj(members: List<Member>)

  datatype Member = Member(key: string, value: Json)

  /** Every string in the value needs no escape, and every number is one. */
  predicate PlainJson(j: Json) {
    match j
    case Str(s) => Plain(s)
    case Num(digits) => digits != "" && AllDigits(digits) && (digits[0] == '0' ==> digits == "0")
    case Arr(items) => PlainItems(items)
    case Obj(members) => PlainMembers(members)
  }

  predicate PlainItems(items: List<Json>) {
    items.Nil? || (PlainJson(items.head) && PlainItems(items.tail))
  }

  predicate PlainMembers(members: List<Member>) {
    members.Nil? || (Plain(members.head.key) && PlainJson(members.head.value) && PlainMembers(members.tail))
  }

  // ---- Printing ------------------------------------------------------------------

  function Quoted(s: string): string {
    "\"" + s + "\""
  }

  function Render(j: Json): (s: string)
    ensures PlainJson(j) ==> s != "" && s[0] != ']'
  {
    match j
    case Str(s) => Quoted(s)
    case Num(digits) => digits
    case Arr(items) => "[" + RenderItems(items) + "]"
    case Obj(members) => "{" + RenderMembers(members) + "}"
  }

  function RenderItems(items: List<Json>): string {
    match items
    case Nil => ""
    case Cons(j, Nil) => Render(j)
    case Cons(j, more) => Render(j) + "," + RenderItems(more)
  }

  function RenderMember(m: Member): string {
    Quoted(m.key) + ":" + Render(m.value)
  }

  function RenderMembers(members: List<Member>): string {
    match members
    case Nil => ""
    case Cons(m, Nil) => RenderMember(m)
    case Cons(m, more) => RenderMember(m) + "," + RenderMembers(more)
  }

  // ---- Reading -------------------------------------------------------------------

  datatype Read<+T> = Read(value: T, rest: string)

  function PlainLength(s: string): (n: nat)
    ensures n <= |s| && Plain(s[..n])
    ensures n < |s| ==> !IsPlainChar(s[n])
  {
    if s != "" && IsPlainChar(s[0]) then 1 + PlainLength(s[1..]) else 0
  }

  predicate StartsWith(s: string, c: char) {
    s != "" && s[0] == c
  }

  function ReadString(s: string): (r: Option<Read<string>>)
    ensures r.Some? ==> |r.value.rest| < |s|
  {
    if !StartsWith(s, '"') then None
    else
      var n := PlainLength(s[1..]);
      if StartsWith(s[1 + n..], '"') then Some(Read(s[1..1 + n], s[2 + n..])) else None
  }

  function DigitLength(s: string): (n: nat)
    ensures n <= |s|
  {
    if s != "" && IsDigit(s[0]) then 1 + DigitLength(s[1..]) else 0
  }

  function ReadNumber(s: string): (r: Option<Read<string>>)
    ensures r.Some? ==> |r.value.rest| < |s|
  {
    var n := DigitLength(s);
    if n == 0 || (s[0] == '0' && n > 1) then None else Some(Read(s[..n], s[n..]))
  }

  function ReadValue(s: string): (r: Option<Read<Json>>)
    ensures r.Some? ==> |r.value.rest| < |s|
    decreases |s|, 0
  {
    if StartsWith(s, '"') then
      var str :- ReadString(s);
      Some(Read(Str(str.value), str.rest))
    else if StartsWith(s, '[') then
      if StartsWith(s[1..], ']') then Some(Read(Arr(Nil), s[2..]))
      else
        var items :- ReadItems(s[1..]);
        if StartsWith(items.rest, ']') then Some(Read(Arr(items.value), items.rest[1..])) else None
    else if StartsWith(s, '{') then
      if StartsWith(s[1..], '}') then Some(Read(Obj(Nil), s[2..]))
      else
        var members :- ReadMembers(s[1..]);
        if StartsWith(members.rest, '}') then Some(Read(Obj(members.value), members.rest[1..])) else None
    else
      var number :- ReadNumber(s);
      Some(Read(Num(number.value), number.rest))
  }

  function ReadItems(s: string): (r: Option<Read<List<Json>>>)
    ensures r.Some? ==> |r.value.rest| < |s|
    decreases |s|, 1
  {
    var first :- ReadValue(s);
    if StartsWith(first.rest, ',') then
      var more :- ReadItems(first.rest[1..]);
      Some(Read(Cons(first.value, more.value), more.rest))
    else Some(Read(Cons(first.value, Nil), first.rest))
  }

  function ReadMember(s: string): (r: Option<Read<Member>>)
    ensures r.Some? ==> |r.value.rest| < |s|
    decreases |s|, 1
  {
    var key :- ReadString(s);
    if !StartsWith(key.rest, ':') then None
    else
      var value :- ReadValue(key.rest[1..]);
      Some(Read(Member(key.value, value.value), value.rest))
  }

  function ReadMembers(s: string): (r: Option<Read<List<Member>>>)
    ensures r.Some? ==> |r.value.rest| < |s|
    decreases |s|, 2
  {
    var first :- ReadMember(s);
    if StartsWith(first.rest, ',') then
      var more :- ReadMembers(first.rest[1..]);
      Some(Read(Cons(first.value, more.value), more.rest))
    else Some(Read(Cons(first.value, Nil), first.rest))
  }

  /** A whole text is one value. */
  function Parse(s: string): Option<Json> {
    var r :- ReadValue(s);
    if r.rest == "" then Some(r.value) else None
  }

  // ---- What is printed reads back --------------------------------------------------

  lemma PlainLengthConcat(s: string, rest: string)
    requires Plain(s) && (rest != "" ==> !IsPlainChar(rest[0]))
    ensures PlainLength(s + rest) == |s|
  {
    var n := PlainLength(s + rest);
    assert forall i :: 0 <= i < |s| ==> (s + rest)[i] == s[i];
    assert rest != "" ==> (s + rest)[|s|] == rest[0];
    assert forall i :: 0 <= i < n ==> (s + rest)[..n][i] == (s + rest)[i];
  }

  lemma StringReadsBack(s: string, rest: string)
    requires Plain(s)
    ensures ReadString(Quoted(s) + rest) == Some(Read(s, rest))
  {
    var t := Quoted(s) + rest;
    PlainLengthConcat(s, "\"" + rest);
    assert t[1..] == s + ("\"" + rest);
    assert t[1 + |s|..] == "\"" + rest;
    assert t[1..1 + |s|] == s && t[2 + |s|..] == rest;
  }

  predicate NoDigitFirst(rest: string) {
    rest == "" || !IsDigit(rest[0])
  }

  lemma {:induction false} DigitLengthConcat(digits: string, rest: string)
    requires AllDigits(digits) && NoDigitFirst(rest)
    ensures DigitLength(digits + rest) == |digits|
  {
    if digits == "" {
      assert digits + rest == rest;
    } else {
      assert (digits + rest)[1..] == digits[1..] + rest;
      DigitLengthConcat(digits[1..], rest);
    }
  }

  lemma NumberReadsBack(digits: string, rest: string)
    requires PlainJson(Num(digits)) && NoDigitFirst(rest)
    ensures ReadValue(digits + rest) == Some(Read(Num(digits), rest))
  {
    var t := digits + rest;
    DigitLengthConcat(digits, rest);
    assert t[0] == digits[0] && t[..|digits|] == digits && t[|digits|..] == rest;
    assert ReadNumber(t) == Some(Read(digits, rest));
  }

  // One step of each reader, on the texts it sees.

  lemma StrStep(t: string, s: string, rest: string)
    requires ReadString(t) == Some(Read(s, rest))
    ensures ReadValue(t) == Some(Read(Str(s), rest))
  {
  }

  lemma EmptyStep(t: string, rest: string)
    requires |t| >= 2 && t[1..] == "" + (t[1..2] + rest)
    ensures t[0] == '[' && t[1] == ']' ==> ReadValue(t) == Some(Read(Arr(Nil), rest))
    ensures t[0] == '{' && t[1] == '}' ==> ReadValue(t) == Some(Read(Obj(Nil), rest))
  {
    assert t[1..][1..] == rest;
    assert t[2..] == t[1..][1..];
  }

  lemma ArrayStep(t: string, inner: string, items: List<Json>, after: string)
    requires StartsWith(t, '[') && t[1..] == inner && !StartsWith(inner, ']')
    requires ReadItems(inner) == Some(Read(items, after)) && StartsWith(after, ']')
    ensures ReadValue(t) == Some(Read(Arr(items), after[1..]))
  {
  }

  lemma ObjectStep(t: string, inner: string, members: List<Member>, after: string)
    requires StartsWith(t, '{') && t[1..] == inner && !StartsWith(inner, '}')
    requires ReadMembers(inner) == Some(Read(members, after)) && StartsWith(after, '}')
    ensures ReadValue(t) == Some(Read(Obj(members), after[1..]))
  {
  }

  lemma ItemsStep(t: string, j: Json, after: string, inner: string, items: List<Json>, rest: string)
    requires ReadValue(t) == Some(Read(j, after)) && StartsWith(after, ',') && after[1..] == inner
    requires ReadItems(inner) == Some(Read(items, rest))
    ensures ReadItems(t) == Some(Read(Cons(j, items), rest))
  {
  }

  lemma MembersStep(t: string, m: Member, after: string, inner: string, members: List<Member>, rest: string)
    requires ReadMember(t) == Some(Read(m, after)) && StartsWith(after, ',') && after[1..] == inner
    requires ReadMembers(inner) == Some(Read(members, rest))
    ensures ReadMembers(t) == Some(Read(Cons(m, members), rest))
  {
  }

  lemma MemberStep(t: string, key: string, after: string, inner: string, value: Json, rest: string)
    requires ReadString(t) == Some(Read(key, after)) && StartsWith(after, ':') && after[1..] == inner
    requires ReadValue(inner) == Some(Read(value, rest))
    ensures ReadMember(t) == Some(Read(Member(key, value), rest))
  {
  }

  // Where the pieces of a printed text lie.

  lemma Enclosed(open_: string, body: string, close: string, rest: string)
    requires |open_| == 1 && |close| == 1
    ensures var t := open_ + body + close + rest;
            t != "" && t[0] == open_[0] && t[1..] == body + (close + rest)
    ensures (close + rest) != "" && (close + rest)[0] == close[0] && (close + rest)[1..] == rest
  {
  }

  lemma Separated(first: string, separator: string, more: string, rest: string)
    requires |separator| == 1
    ensures first + separator + more + rest == first + (separator + (more + rest))
    ensures (separator + (more + rest)) != "" && (separator + (more + rest))[0] == separator[0]
    ensures (separator + (more + rest))[1..] == more + rest
  {
  }

  lemma {:induction false} ValueReadsBack(j: Json, rest: string)
    requires PlainJson(j) && NoDigitFirst(rest)
    ensures ReadValue(Render(j) + rest) == Some(Read(j, rest))
    decreases j, 0
  {
    match j
    case Num(digits) =>
      NumberReadsBack(digits, rest);
    case Str(s) =>
      StringReadsBack(s, rest);
      StrStep(Quoted(s) + rest, s, rest);
    case Arr(items) =>
      Enclosed("[", RenderItems(items), "]", rest);
      if items.Nil? {
        EmptyStep(Render(j) + rest, rest);
      } else {
        ItemsReadBack(items, "]" + rest);
        FrontOf(RenderItems(items), "]" + rest);
        ArrayStep(Render(j) + rest, RenderItems(items) + ("]" + rest), items, "]" + rest);
      }
    case Obj(members) =>
      Enclosed("{", RenderMembers(members), "}", rest);
      if members.Nil? {
        EmptyStep(Render(j) + rest, rest);
      } else {
        MembersReadBack(members, "}" + rest);
        FrontOf(RenderMembers(members), "}" + rest);
        ObjectStep(Render(j) + rest, RenderMembers(members) + ("}" + rest), members, "}" + rest);
      }
  }

  lemma {:induction false} ItemsReadBack(items: List<Json>, rest: string)
    requires PlainItems(items) && items.Cons? && !StartsWith(rest, ',') && NoDigitFirst(rest)
    ensures ReadItems(RenderItems(items) + rest) == Some(Read(items, rest))
    ensures RenderItems(items) != "" && RenderItems(items)[0] != ']'
    decreases items, 1
  {
    var first := Render(items.head);
    if items.tail.Nil? {
      ValueReadsBack(items.head, rest);
    } else {
      var more := RenderItems(items.tail);
      ItemsReadBack(items.tail, rest);
      ValueReadsBack(items.head, "," + (more + rest));
      Separated(first, ",", more, rest);
      ItemsStep(first + ("," + (more + rest)), items.head, "," + (more + rest), more + rest, items.tail, rest);
    }
  }

  lemma {:induction false} MemberReadsBack(m: Member, rest: string)
    requires Plain(m.key) && PlainJson(m.value) && NoDigitFirst(rest)
    ensures ReadMember(RenderMember(m) + rest) == Some(Read(m, rest))
    decreases m, 1
  {
    var value := Render(m.value);
    Separated(Quoted(m.key), ":", value, rest);
    StringReadsBack(m.key, ":" + (value + rest));
    ValueReadsBack(m.value, rest);
    MemberStep(Quoted(m.key) + (":" + (value + rest)), m.key, ":" + (value + rest), value + rest, m.value, rest);
  }

  lemma {:induction false} MembersReadBack(members: List<Member>, rest: string)
    requires PlainMembers(members) && members.Cons? && !StartsWith(rest, ',') && NoDigitFirst(rest)
    ensures ReadMembers(RenderMembers(members) + rest) == Some(Read(members, rest))
    ensures RenderMembers(members) != "" && RenderMembers(members)[0] == '"'
    decreases members, 1
  {
    var first := RenderMember(members.head);
    if members.tail.Nil? {
      MemberReadsBack(members.head, rest);
    } else {
      var more := RenderMembers(members.tail);
      MembersReadBack(members.tail, rest);
      MemberReadsBack(members.head, "," + (more + rest));
      Separated(first, ",", more, rest);
      MembersStep(first + ("," + (more + rest)), members.head, "," + (more + rest), more + rest, members.tail, rest);
    }
  }

  lemma ParseRender(j: Json)
    requires PlainJson(j)
    ensures Parse(Render(j)) == Some(j)
  {
    ValueReadsBack(j, "");
    assert Render(j) + "" == Render(j);
  }
}
