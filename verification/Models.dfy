/** src/k8s/models.rs: the status and lease bodies, written into bounded buffers. */
module Models {
  import opened Wrappers
  import opened MachineInts
  import opened Config
  import opened Json
  import opened Text
  import opened Buffers
  import opened Conditions
  import opened StatusModel
  import opened CivilTime
  import opened WallClock

  // ---- Condition rows as text --------------------------------------------------------

  /** One element of status.conditions. */
  datatype TextRow = TextRow(
    name: string, status: string, reason: string, message: string, heartbeat: string, transition: string)
  {
    predicate IsPlain() {
      Plain(name) && Plain(status) && Plain(reason) && Plain(message) && Plain(heartbeat) && Plain(transition)
    }

    function Length(): nat {
      |name| + |status| + |reason| + |message| + |heartbeat| + |transition|
    }
  }

  /** `"key":"value"` of the format strings. */
  function MemberText(key: string, value: string): string {
    Quoted(key) + ":" + Quoted(value)
  }

  function ConditionText(r: TextRow): string {
    "{" + (MemberText("type", r.name) + ","
      + (MemberText("status", r.status) + ","
        + (MemberText("reason", r.reason) + ","
          + (MemberText("message", r.message) + ","
            + (MemberText("lastHeartbeatTime", r.heartbeat) + ","
              + MemberText("lastTransitionTime", r.transition)))))) + "}"
  }

  /** Texts with commas between them. */
  function Join(texts: seq<string>): string {
    if texts == [] then ""
    else if |texts| == 1 then texts[0]
    else Join(texts[..|texts| - 1]) + "," + texts[|texts| - 1]
  }

  function Texts(rows: seq<TextRow>): (texts: seq<string>)
    ensures |texts| == |rows|
  {
    seq(|rows|, i requires 0 <= i < |rows| => ConditionText(rows[i]))
  }

  function RowsText(rows: seq<TextRow>): string {
    Join(Texts(rows))
  }

  const BODY_START := "{\"status\":{\"conditions\":["
  const BODY_END := "]}}"

  function BodyText(rows: seq<TextRow>): string {
    BODY_START + RowsText(rows) + BODY_END
  }

  // ---- Writing -----------------------------------------------------------------------

  /** CustomCondEntry. */
  datatype Entry = Entry(name: string, status: CondStatus, reason: string, message: string, transitionedAt: u64)

  function StatusText(s: CondStatus): string {
    match s
    case True => "True"
    case False => "False"
    case Unknown => "Unknown"
  }

  /** A printer of timestamps; the firmware's is fmt_rfc3339. */
  type Stamp = u64 -> string

  function EntryRow(e: Entry, heartbeat: u64, stamp: Stamp): TextRow {
    TextRow(e.name, StatusText(e.status), e.reason, e.message, stamp(heartbeat), stamp(e.transitionedAt))
  }

  /** The stamp is fmt_rfc3339; proofs look at its text only where it is printed. */
  ghost predicate PrintsRfc3339(stamp: Stamp) {
    forall u: u64 {:trigger Rfc3339(u)} :: stamp(u) == Rfc3339(u)
  }

  /** A condition with the verdict on it. */
  datatype Stated = Stated(kind: CondType, status: CondStatus, verdict: Verdict, since: u64)

  function EntryOf(c: Stated): Entry {
    Entry(CondName(c.kind), c.status, c.verdict.Reason(), c.verdict.Message(), c.since)
  }

  function Entries(stated: seq<Stated>): (entries: seq<Entry>)
    ensures |entries| == |stated|
  {
    seq(|stated|, i requires 0 <= i < |stated| => EntryOf(stated[i]))
  }

  function BuiltinStated(tr: Trackers): seq<Stated> {
    [Stated(Ready, Get(tr, Ready).status, BuiltinVerdict(tr, Ready), tr.ready.since),
     Stated(MemoryPressure, Get(tr, MemoryPressure).status, BuiltinVerdict(tr, MemoryPressure), tr.memoryPressure.since),
     Stated(DiskPressure, Get(tr, DiskPressure).status, BuiltinVerdict(tr, DiskPressure), tr.diskPressure.since),
     Stated(PIDPressure, Get(tr, PIDPressure).status, BuiltinVerdict(tr, PIDPressure), tr.pidPressure.since)]
  }

  function BuiltinEntries(tr: Trackers): seq<Entry> {
    Entries(BuiltinStated(tr))
  }

  function EvaluatedStated(kind: CondType, v: Verdict, since: u64): Stated {
    Stated(kind, v.Status(), v, since)
  }

  /** The five evaluated conditions of a tick. */
  function CustomStated(tr: Trackers, i: Inputs): seq<Stated> {
    [EvaluatedStated(Vibes, EvalVibes(i), tr.vibes.since),
     EvaluatedStated(Caffeinated, EvalCaffeinated(i), tr.caffeinated.since),
     EvaluatedStated(Existential, EvalExistential(i), tr.existential.since),
     EvaluatedStated(Peckish, EvalPeckish(i), tr.peckish.since),
     EvaluatedStated(Haunted, EvalHaunted(i), tr.haunted.since)]
  }

  /** The entries that a tick writes for them. */
  function TickEntries(tr: Trackers, i: Inputs): seq<Entry> {
    Entries(CustomStated(tr, i))
  }

  function CondName(t: CondType): string {
    match t
    case Ready => "Ready"
    case MemoryPressure => "MemoryPressure"
    case DiskPressure => "DiskPressure"
    case PIDPressure => "PIDPressure"
    case Vibes => "Vibes"
    case Caffeinated => "Caffeinated"
    case Existential => "Existential"
    case Peckish => "Peckish"
    case Haunted => "Haunted"
  }

  function EntryRows(entries: seq<Entry>, heartbeat: u64, stamp: Stamp): (rows: seq<TextRow>)
    ensures |rows| == |entries|
  {
    seq(|entries|, i requires 0 <= i < |entries| => EntryRow(entries[i], heartbeat, stamp))
  }

  /** The four built-in conditions, then the custom entries in their order. */
  function PatchRows(tr: Trackers, custom: seq<Entry>, heartbeat: u64, stamp: Stamp): seq<TextRow> {
    EntryRows(BuiltinEntries(tr) + custom, heartbeat, stamp)
  }

  lemma JoinGrows(texts: seq<string>, n: nat)
    requires 0 < n < |texts|
    ensures Join(texts[..n + 1]) == Join(texts[..n]) + "," + texts[n]
  {
    assert texts[..n + 1][..n] == texts[..n];
  }

  lemma {:induction false} JoinLonger(texts: seq<string>, n: nat)
    requires n <= |texts|
    ensures |Join(texts[..n])| <= |Join(texts)|
    decreases |texts| - n
  {
    if n == |texts| {
      assert texts[..n] == texts;
    } else {
      if n > 0 {
        JoinGrows(texts, n);
      }
      JoinLonger(texts, n + 1);
    }
  }

  lemma {:induction false} JoinFront(texts: seq<string>)
    requires |texts| >= 2
    ensures Join(texts) == texts[0] + "," + Join(texts[1..])
  {
    var n := |texts| - 1;
    var last := texts[n];
    if n == 1 {
      assert texts[..1] == [texts[0]] && texts[1..] == [texts[1]];
    } else {
      JoinFront(texts[..n]);
      assert texts[..n][1..] == texts[1..][..n - 1];
      var mid := Join(texts[1..][..n - 1]);
      assert Join(texts[1..]) == mid + "," + last;
      assert texts[0] + "," + mid + "," + last == texts[0] + "," + (mid + "," + last);
    }
  }

  lemma {:induction false} JoinLength(texts: seq<string>)
    requires forall i :: 0 <= i < |texts| ==> |texts[i]| <= 247
    ensures |Join(texts)| <= |texts| * 248
  {
    if texts != [] {
      JoinLength(texts[..|texts| - 1]);
    }
  }

  /** fmt_rfc3339 into a buffer of 40 characters never fails. */
  method Timestamp(unix: u64, ghost stamp: Stamp) returns (text: string)
    requires PrintsRfc3339(stamp)
    ensures text == stamp(unix)
  {
    var out := new HString(40);
    Rfc3339Fits(unix);
    var ok := FmtRfc3339(unix, out);
    text := out.text;
    assert "" + Rfc3339(unix) == Rfc3339(unix);
  }

  /** One format string of the loop. */
  method FormatEntry(e: Entry, hb: string, ghost heartbeat: u64, ghost stamp: Stamp) returns (piece: string)
    requires PrintsRfc3339(stamp) && hb == stamp(heartbeat)
    ensures piece == "," + ConditionText(EntryRow(e, heartbeat, stamp))
  {
    var tt := Timestamp(e.transitionedAt, stamp);
    piece := "," + ConditionText(TextRow(e.name, StatusText(e.status), e.reason, e.message, hb, tt));
  }

  /** From the n-th on, the pieces are the entries' texts. */
  ghost predicate EndsWithEntries(texts: seq<string>, n: nat, custom: seq<Entry>, heartbeat: u64, stamp: Stamp) {
    && |texts| == n + |custom|
    && forall i :: 0 <= i < |custom| ==> texts[n + i] == ConditionText(EntryRow(custom[i], heartbeat, stamp))
  }

  /** The loop over self.custom: texts are the pieces of the whole body, the first n of
      them already written behind start. */
  method WriteEntries(custom: seq<Entry>, hb: string, out: HString, ghost heartbeat: u64, ghost stamp: Stamp,
                      ghost start: string, ghost texts: seq<string>, ghost n: nat)
    returns (ok: bool)
    requires out.Valid() && PrintsRfc3339(stamp) && hb == stamp(heartbeat)
    requires 0 < n && EndsWithEntries(texts, n, custom, heartbeat, stamp) && out.text == start + Join(texts[..n])
    modifies out
    ensures out.Valid()
    ensures ok <==> |start + Join(texts)| <= out.capacity
    ensures ok ==> out.text == start + Join(texts)
  {
    var i := 0;
    JoinLonger(texts, n);
    while i < |custom|
      invariant 0 <= i <= |custom| && out.Valid()
      invariant out.text == start + Join(texts[..n + i])
    {
      var piece := FormatEntry(custom[i], hb, heartbeat, stamp);
      JoinGrows(texts, n + i);
      JoinLonger(texts, n + i + 1);
      ConcatThree(start, Join(texts[..n + i]), ",", texts[n + i]);
      ok := out.Write(piece);
      if !ok {
        return;
      }
      i := i + 1;
    }
    assert texts[..n + i] == texts;
    ok := true;
  }

  lemma ConcatThree(start: string, front: string, separator: string, piece: string)
    ensures start + front + (separator + piece) == start + (front + separator + piece)
  {
  }

  lemma RowsParts(builtin: seq<Entry>, custom: seq<Entry>, heartbeat: u64, stamp: Stamp)
    ensures EntryRows(builtin + custom, heartbeat, stamp)
         == EntryRows(builtin, heartbeat, stamp) + EntryRows(custom, heartbeat, stamp)
  {
  }

  lemma TextsParts(a: seq<TextRow>, b: seq<TextRow>)
    ensures Texts(a + b) == Texts(a) + Texts(b)
  {
  }

  lemma PatchTexts(builtin: seq<Entry>, custom: seq<Entry>, heartbeat: u64, stamp: Stamp)
    ensures var texts := Texts(EntryRows(builtin + custom, heartbeat, stamp));
            && EndsWithEntries(texts, |builtin|, custom, heartbeat, stamp)
            && texts[..|builtin|] == Texts(EntryRows(builtin, heartbeat, stamp))
  {
    RowsParts(builtin, custom, heartbeat, stamp);
    TextsParts(EntryRows(builtin, heartbeat, stamp), EntryRows(custom, heartbeat, stamp));
  }

  /** NodeStatusPatch::write_json. It fails exactly when the body is larger than the
      buffer; otherwise the buffer holds the body. */
  method WriteStatusJson(tr: Trackers, custom: seq<Entry>, heartbeat: u64, out: HString, ghost stamp: Stamp)
    returns (ok: bool)
    requires out.Valid() && out.text == "" && PrintsRfc3339(stamp)
    modifies out
    ensures out.Valid()
    ensures ok <==> |BodyText(PatchRows(tr, custom, heartbeat, stamp))| <= out.capacity
    ensures ok ==> out.text == BodyText(PatchRows(tr, custom, heartbeat, stamp))
  {
    var hb := Timestamp(heartbeat, stamp);
    ok := WriteRows(BuiltinEntries(tr), custom, heartbeat, hb, out, stamp);
  }

  /** The first format string covers the built-in conditions, the loop the others. */
  method WriteRows(builtin: seq<Entry>, custom: seq<Entry>, heartbeat: u64, hb: string, out: HString, ghost stamp: Stamp)
    returns (ok: bool)
    requires out.Valid() && out.text == "" && PrintsRfc3339(stamp) && |builtin| == 4 && hb == stamp(heartbeat)
    modifies out
    ensures out.Valid()
    ensures ok <==> |BodyText(EntryRows(builtin + custom, heartbeat, stamp))| <= out.capacity
    ensures ok ==> out.text == BodyText(EntryRows(builtin + custom, heartbeat, stamp))
  {
    ghost var texts := Texts(EntryRows(builtin + custom, heartbeat, stamp));
    PatchTexts(builtin, custom, heartbeat, stamp);
    var head := BuiltinHead(builtin, heartbeat, hb, stamp);
    ok := WriteBehind(head, custom, hb, out, heartbeat, stamp, texts);
  }

  /** What follows the first format string. */
  method WriteBehind(head: string, custom: seq<Entry>, hb: string, out: HString, ghost heartbeat: u64, ghost stamp: Stamp,
                     ghost texts: seq<string>)
    returns (ok: bool)
    requires out.Valid() && out.text == "" && PrintsRfc3339(stamp) && hb == stamp(heartbeat)
    requires EndsWithEntries(texts, 4, custom, heartbeat, stamp) && head == BODY_START + Join(texts[..4])
    modifies out
    ensures out.Valid()
    ensures ok <==> |BODY_START + Join(texts) + BODY_END| <= out.capacity
    ensures ok ==> out.text == BODY_START + Join(texts) + BODY_END
  {
    JoinLonger(texts, 4);
    ok := out.Write(head);
    if !ok {
      return;
    }
    assert "" + head == head;
    ok := WriteEntries(custom, hb, out, heartbeat, stamp, BODY_START, texts, 4);
    if !ok {
      return;
    }
    ok := out.Write(BODY_END);
  }

  method BuiltinHead(builtin: seq<Entry>, ghost heartbeat: u64, hb: string, ghost stamp: Stamp) returns (head: string)
    requires PrintsRfc3339(stamp) && |builtin| == 4 && hb == stamp(heartbeat)
    ensures head == BODY_START + Join(Texts(EntryRows(builtin, heartbeat, stamp)))
  {
    var rows: seq<TextRow> := [];
    for i := 0 to 4
      invariant rows == EntryRows(builtin[..i], heartbeat, stamp)
    {
      var tt := Timestamp(builtin[i].transitionedAt, stamp);
      var e := builtin[i];
      rows := rows + [TextRow(e.name, StatusText(e.status), e.reason, e.message, hb, tt)];
    }
    assert builtin[..4] == builtin;
    head := BODY_START + Join(Texts(rows));
  }

  // ---- The size of a body ------------------------------------------------------------

  lemma ConditionLength(r: TextRow)
    ensures |ConditionText(r)| == r.Length() + 95
  {
    assert |"type"| == 4 && |"status"| == 6 && |"reason"| == 6 && |"message"| == 7;
    assert |"lastHeartbeatTime"| == 17 && |"lastTransitionTime"| == 18;
  }

  lemma ReasonLength(v: Verdict)
    ensures |v.Reason()| <= 28
  {
  }

  lemma MessageLength(v: Verdict)
    ensures |v.Message()| <= 35
  {
  }

  lemma NameLength(t: CondType)
    ensures |CondName(t)| <= 14
  {
  }

  ghost predicate ShortStamp(stamp: Stamp) {
    forall u: u64 :: |stamp(u)| <= 34
  }

  lemma StatedLength(c: Stated, heartbeat: u64, stamp: Stamp)
    requires ShortStamp(stamp)
    ensures |ConditionText(EntryRow(EntryOf(c), heartbeat, stamp))| <= 247
  {
    NameLength(c.kind);
    ReasonLength(c.verdict);
    MessageLength(c.verdict);
    ConditionLength(EntryRow(EntryOf(c), heartbeat, stamp));
  }

  lemma StatedTextsAreShort(stated: seq<Stated>, heartbeat: u64, stamp: Stamp)
    requires ShortStamp(stamp)
    ensures |Join(Texts(EntryRows(Entries(stated), heartbeat, stamp)))| <= |stated| * 248
  {
    var texts := Texts(EntryRows(Entries(stated), heartbeat, stamp));
    forall k | 0 <= k < |texts|
      ensures |texts[k]| <= 247
    {
      StatedLength(stated[k], heartbeat, stamp);
    }
    JoinLength(texts);
  }

  lemma EntriesParts(a: seq<Stated>, b: seq<Stated>)
    ensures Entries(a + b) == Entries(a) + Entries(b)
  {
  }

  lemma Rfc3339IsShort(stamp: Stamp)
    requires PrintsRfc3339(stamp)
    ensures ShortStamp(stamp)
  {
    forall u: u64
      ensures |stamp(u)| <= 34
    {
      Rfc3339Fits(u);
    }
  }

  /** Whatever the evaluators return and whatever the times, the body fits the buffer
      of 3072 bytes, so building it never fails. */
  lemma TickBodyFits(tr: Trackers, i: Inputs, heartbeat: u64, stamp: Stamp)
    requires PrintsRfc3339(stamp)
    ensures |BodyText(PatchRows(tr, TickEntries(tr, i), heartbeat, stamp))| <= 3072
  {
    Rfc3339IsShort(stamp);
    var a := BuiltinStated(tr);
    var b := CustomStated(tr, i);
    EntriesParts(a, b);
    StatedTextsAreShort(a + b, heartbeat, stamp);
    assert |BODY_START| == 25 && |BODY_END| == 3;
  }

  // ---- The body as JSON --------------------------------------------------------------

  function StringMember(key: string, value: string): Member {
    Member(key, Str(value))
  }

  function ConditionJson(r: TextRow): Json {
    Obj(Cons(StringMember("type", r.name),
      Cons(StringMember("status", r.status),
        Cons(StringMember("reason", r.reason),
          Cons(StringMember("message", r.message),
            Cons(StringMember("lastHeartbeatTime", r.heartbeat),
              Cons(StringMember("lastTransitionTime", r.transition), Nil)))))))
  }

  function ConditionItems(rows: seq<TextRow>): List<Json> {
    if rows == [] then Nil else Cons(ConditionJson(rows[0]), ConditionItems(rows[1..]))
  }

  function StatusJson(rows: seq<TextRow>): Json {
    Obj(Cons(Member("status", Obj(Cons(Member("conditions", Arr(ConditionItems(rows))), Nil))), Nil))
  }

  lemma RenderStringMember(key: string, value: string)
    ensures RenderMember(StringMember(key, value)) == MemberText(key, value)
  {
  }

  lemma RenderMoreMembers(m: Member, more: List<Member>)
    ensures more.Cons? ==> RenderMembers(Cons(m, more)) == RenderMember(m) + "," + RenderMembers(more)
    ensures more.Nil? ==> RenderMembers(Cons(m, more)) == RenderMember(m)
  {
  }

  lemma ConditionTextIsJson(r: TextRow)
    ensures ConditionText(r) == Render(ConditionJson(r))
  {
    var m6 := Cons(StringMember("lastTransitionTime", r.transition), Nil);
    var m5 := Cons(StringMember("lastHeartbeatTime", r.heartbeat), m6);
    var m4 := Cons(StringMember("message", r.message), m5);
    var m3 := Cons(StringMember("reason", r.reason), m4);
    var m2 := Cons(StringMember("status", r.status), m3);
    RenderStringMember("lastTransitionTime", r.transition);
    RenderStringMember("lastHeartbeatTime", r.heartbeat);
    RenderStringMember("message", r.message);
    RenderStringMember("reason", r.reason);
    RenderStringMember("status", r.status);
    RenderStringMember("type", r.name);
    RenderMoreMembers(m6.head, Nil);
    RenderMoreMembers(m5.head, m6);
    RenderMoreMembers(m4.head, m5);
    RenderMoreMembers(m3.head, m4);
    RenderMoreMembers(m2.head, m3);
    RenderMoreMembers(StringMember("type", r.name), m2);
  }

  lemma {:induction false} RowsTextIsJson(rows: seq<TextRow>)
    ensures RowsText(rows) == RenderItems(ConditionItems(rows))
  {
    if rows != [] {
      ConditionTextIsJson(rows[0]);
      assert Texts(rows)[0] == ConditionText(rows[0]);
      assert Texts(rows)[1..] == Texts(rows[1..]);
      if |rows| >= 2 {
        JoinFront(Texts(rows));
        RowsTextIsJson(rows[1..]);
      }
    }
  }

  lemma BodyTextIsJson(rows: seq<TextRow>)
    ensures BodyText(rows) == Render(StatusJson(rows))
  {
    RowsTextIsJson(rows);
    var inner := Member("conditions", Arr(ConditionItems(rows)));
    var outer := Member("status", Obj(Cons(inner, Nil)));
    RenderMoreMembers(inner, Nil);
    RenderMoreMembers(outer, Nil);
    assert RenderMember(inner) == Quoted("conditions") + ":" + ("[" + RowsText(rows) + "]");
    assert RenderMember(outer) == Quoted("status") + ":" + ("{" + RenderMember(inner) + "}");
    BracketsMeet(RowsText(rows));
  }

  lemma BracketsMeet(items: string)
    ensures BODY_START + items + BODY_END
         == "{" + (Quoted("status") + ":" + ("{" + (Quoted("conditions") + ":" + ("[" + items + "]")) + "}")) + "}"
  {
    BodyStartParts();
    BracketsNest(Quoted("status") + ":", Quoted("conditions") + ":", items);
  }

  lemma BodyStartParts()
    ensures BODY_START == "{" + (Quoted("status") + ":") + "{" + (Quoted("conditions") + ":") + "["
    ensures BODY_END == "]" + "}" + "}"
  {
  }

  lemma BracketsNest(outer: string, inner: string, items: string)
    ensures "{" + outer + "{" + inner + "[" + items + ("]" + "}" + "}")
         == "{" + (outer + ("{" + (inner + ("[" + items + "]")) + "}")) + "}"
  {
  }

  // ---- Reading a body back -----------------------------------------------------------

  function Lookup(members: List<Member>, key: string): Option<Json> {
    match members
    case Nil => None
    case Cons(m, more) => if m.key == key then Some(m.value) else Lookup(more, key)
  }

  function StringAt(members: List<Member>, key: string): Option<string> {
    var j :- Lookup(members, key);
    if j.Str? then Some(j.text) else None
  }

  function RowOfJson(j: Json): Option<TextRow> {
    if !j.Obj? then None
    else
      var name :- StringAt(j.members, "type");
      var status :- StringAt(j.members, "status");
      var reason :- StringAt(j.members, "reason");
      var message :- StringAt(j.members, "message");
      var heartbeat :- StringAt(j.members, "lastHeartbeatTime");
      var transition :- StringAt(j.members, "lastTransitionTime");
      Some(TextRow(name, status, reason, message, heartbeat, transition))
  }

  function RowsOfJson(items: List<Json>): Option<seq<TextRow>> {
    match items
    case Nil => Some([])
    case Cons(j, more) =>
      var row :- RowOfJson(j);
      var rows :- RowsOfJson(more);
      Some([row] + rows)
  }

  /** What a server finds at status.conditions of a patch. */
  function ReadBody(s: string): Option<seq<TextRow>> {
    var j :- Parse(s);
    if !j.Obj? then None
    else
      var status :- Lookup(j.members, "status");
      if !status.Obj? then None
      else
        var conditions :- Lookup(status.members, "conditions");
        if conditions.Arr? then RowsOfJson(conditions.items) else None
  }

  lemma KeysDiffer()
    ensures "type" != "status" && "type" != "reason" && "type" != "message" && "status" != "reason" && "status" != "message"
    ensures "reason" != "message" && "lastHeartbeatTime" != "lastTransitionTime"
  {
    assert "status"[0] == 's' && "reason"[0] == 'r';
    assert "lastHeartbeatTime"[4] == 'H';
  }

  lemma RowJsonReadsBack(r: TextRow)
    ensures RowOfJson(ConditionJson(r)) == Some(r)
  {
    KeysDiffer();
    var m6 := Cons(StringMember("lastTransitionTime", r.transition), Nil);
    var m5 := Cons(StringMember("lastHeartbeatTime", r.heartbeat), m6);
    var m4 := Cons(StringMember("message", r.message), m5);
    var m3 := Cons(StringMember("reason", r.reason), m4);
    var m2 := Cons(StringMember("status", r.status), m3);
    var m1 := Cons(StringMember("type", r.name), m2);
    assert Lookup(m6, "lastTransitionTime") == Some(Str(r.transition));
    forall key | key in ["status", "reason", "message", "lastHeartbeatTime", "lastTransitionTime"]
      ensures Lookup(m1, key) == Lookup(m2, key)
    {
    }
    assert Lookup(m2, "reason") == Lookup(m3, "reason") == Some(Str(r.reason));
    assert Lookup(m2, "message") == Lookup(m3, "message") == Lookup(m4, "message") == Some(Str(r.message));
    assert Lookup(m2, "lastHeartbeatTime") == Lookup(m3, "lastHeartbeatTime") == Lookup(m4, "lastHeartbeatTime");
    assert Lookup(m4, "lastHeartbeatTime") == Lookup(m5, "lastHeartbeatTime") == Some(Str(r.heartbeat));
    assert Lookup(m2, "lastTransitionTime") == Lookup(m3, "lastTransitionTime") == Lookup(m4, "lastTransitionTime");
    assert Lookup(m4, "lastTransitionTime") == Lookup(m5, "lastTransitionTime") == Lookup(m6, "lastTransitionTime");
  }

  lemma {:induction false} RowsJsonReadBack(rows: seq<TextRow>)
    ensures RowsOfJson(ConditionItems(rows)) == Some(rows)
  {
    if rows != [] {
      RowJsonReadsBack(rows[0]);
      RowsJsonReadBack(rows[1..]);
      assert [rows[0]] + rows[1..] == rows;
    }
  }

  lemma KeysArePlain()
    ensures Plain("type") && Plain("status") && Plain("reason") && Plain("message") && Plain("conditions")
    ensures Plain("lastHeartbeatTime") && Plain("lastTransitionTime")
  {
  }

  lemma RowIsPlain(r: TextRow)
    requires r.IsPlain()
    ensures PlainJson(ConditionJson(r))
  {
    KeysArePlain();
    var m6 := Cons(StringMember("lastTransitionTime", r.transition), Nil);
    var m5 := Cons(StringMember("lastHeartbeatTime", r.heartbeat), m6);
    var m4 := Cons(StringMember("message", r.message), m5);
    var m3 := Cons(StringMember("reason", r.reason), m4);
    var m2 := Cons(StringMember("status", r.status), m3);
    StringMemberIsPlain("lastTransitionTime", r.transition, Nil);
    StringMemberIsPlain("lastHeartbeatTime", r.heartbeat, m6);
    StringMemberIsPlain("message", r.message, m5);
    StringMemberIsPlain("reason", r.reason, m4);
    StringMemberIsPlain("status", r.status, m3);
    StringMemberIsPlain("type", r.name, m2);
  }

  lemma MemberIsPlain(key: string, value: Json)
    requires Plain(key) && PlainJson(value)
    ensures PlainMembers(Cons(Member(key, value), Nil))
    ensures PlainJson(Obj(Cons(Member(key, value), Nil)))
  {
  }

  lemma StringMemberIsPlain(key: string, value: string, more: List<Member>)
    requires Plain(key) && Plain(value) && PlainMembers(more)
    ensures PlainMembers(Cons(StringMember(key, value), more))
  {
    assert PlainJson(Str(value));
  }

  lemma {:induction false} RowsArePlain(rows: seq<TextRow>)
    requires forall i :: 0 <= i < |rows| ==> rows[i].IsPlain()
    ensures PlainItems(ConditionItems(rows))
  {
    if rows != [] {
      RowIsPlain(rows[0]);
      RowsArePlain(rows[1..]);
    }
  }

  /** The body that the loop writes reads back as the rows it was written from. */
  lemma BodyReadsBack(rows: seq<TextRow>)
    requires forall i :: 0 <= i < |rows| ==> rows[i].IsPlain()
    ensures ReadBody(BodyText(rows)) == Some(rows)
  {
    BodyTextIsJson(rows);
    RowsArePlain(rows);
    KeysArePlain();
    MemberIsPlain("conditions", Arr(ConditionItems(rows)));
    MemberIsPlain("status", Obj(Cons(Member("conditions", Arr(ConditionItems(rows))), Nil)));
    ParseRender(StatusJson(rows));
    RowsJsonReadBack(rows);
  }

  lemma Rfc3339IsPlain(unix: u64)
    ensures Plain(Rfc3339(unix))
  {
    DateInRange(unix);
    var f := FieldsFromUnix(unix);
    YearIsPlain(f.date.year);
    DateTailIsPlain(f.date.month, f.date.day);
    TimeIsPlain(f.hour, f.minute, f.second);
    PlainConcat(YearText(f.date.year), DateTail(f.date.month, f.date.day), TimeText(f.hour, f.minute, f.second));
  }

  lemma PlainConcat(a: string, b: string, c: string)
    requires Plain(a) && Plain(b) && Plain(c)
    ensures Plain(a + (b + c))
  {
  }

  lemma YearIsPlain(year: i32)
    ensures Plain(YearText(year))
  {
  }

  lemma DateTailIsPlain(month: nat, day: nat)
    ensures Plain(DateTail(month, day))
  {
  }

  lemma TimeIsPlain(hour: nat, minute: nat, second: nat)
    ensures Plain(TimeText(hour, minute, second))
  {
  }

  predicate PlainEntry(e: Entry) {
    Plain(e.name) && Plain(e.reason) && Plain(e.message)
  }

  ghost predicate PlainStamp(stamp: Stamp) {
    forall u: u64 :: Plain(stamp(u))
  }

  lemma Rfc3339StampIsPlain(stamp: Stamp)
    requires PrintsRfc3339(stamp)
    ensures PlainStamp(stamp)
  {
    forall u: u64
      ensures Plain(stamp(u))
    {
      Rfc3339IsPlain(u);
    }
  }

  lemma EntriesReadBack(entries: seq<Entry>, heartbeat: u64, stamp: Stamp)
    requires PlainStamp(stamp) && forall i :: 0 <= i < |entries| ==> PlainEntry(entries[i])
    ensures ReadBody(BodyText(EntryRows(entries, heartbeat, stamp))) == Some(EntryRows(entries, heartbeat, stamp))
  {
    var rows := EntryRows(entries, heartbeat, stamp);
    forall i | 0 <= i < |rows|
      ensures rows[i].IsPlain()
    {
      assert PlainEntry(entries[i]);
    }
    BodyReadsBack(rows);
  }

  /** For any custom entries without characters that JSON escapes, a reader of the
      body finds the four built-in conditions followed by exactly those entries. */
  lemma PatchReadsBack(tr: Trackers, custom: seq<Entry>, heartbeat: u64, stamp: Stamp)
    requires PrintsRfc3339(stamp)
    requires forall i :: 0 <= i < |custom| ==> PlainEntry(custom[i])
    ensures ReadBody(BodyText(PatchRows(tr, custom, heartbeat, stamp)))
         == Some(EntryRows(BuiltinEntries(tr), heartbeat, stamp) + EntryRows(custom, heartbeat, stamp))
  {
    var entries := BuiltinEntries(tr) + custom;
    forall i | 0 <= i < |entries|
      ensures PlainEntry(entries[i])
    {
      if i < 4 {
        BuiltinsArePlain(tr, i);
      }
    }
    Rfc3339StampIsPlain(stamp);
    EntriesReadBack(entries, heartbeat, stamp);
    RowsParts(BuiltinEntries(tr), custom, heartbeat, stamp);
  }

  lemma BuiltinsArePlain(tr: Trackers, i: nat)
    requires i < 4
    ensures PlainEntry(BuiltinEntries(tr)[i])
  {
    StatedIsPlain(BuiltinStated(tr)[i]);
  }

  lemma StatedIsPlain(c: Stated)
    ensures PlainEntry(EntryOf(c))
  {
    NameIsPlain(c.kind);
    ReasonIsPlain(c.verdict);
    MessageIsPlain(c.verdict);
  }

  /** Every body that a tick sends is JSON from which a reader gets back exactly its nine
      conditions, whatever the evaluators said. */
  lemma TickBodyReadsBack(tr: Trackers, i: Inputs, heartbeat: u64, stamp: Stamp)
    requires PrintsRfc3339(stamp)
    ensures ReadBody(BodyText(PatchRows(tr, TickEntries(tr, i), heartbeat, stamp)))
         == Some(EntryRows(BuiltinEntries(tr), heartbeat, stamp) + EntryRows(TickEntries(tr, i), heartbeat, stamp))
  {
    var custom := TickEntries(tr, i);
    forall k | 0 <= k < |custom|
      ensures PlainEntry(custom[k])
    {
      TickEntryIsPlain(tr, i, k);
    }
    PatchReadsBack(tr, custom, heartbeat, stamp);
  }

  lemma TickEntryIsPlain(tr: Trackers, i: Inputs, k: nat)
    requires k < |TickEntries(tr, i)|
    ensures PlainEntry(TickEntries(tr, i)[k])
  {
    StatedIsPlain(CustomStated(tr, i)[k]);
  }

  lemma NameIsPlain(t: CondType)
    ensures Plain(CondName(t))
  {
  }

  lemma ReasonIsPlain(v: Verdict)
    ensures Plain(v.Reason())
  {
    match v
    case Cursed | Off | Immaculate | Cromulent | Dissociating => VibesReasonsArePlain();
    case FreshlyBrewed | Decaf | Transcendent | Accepting | Questioning | Innocent => LifeReasonsArePlain();
    case Hungry | Sated | CouldGoForASnack | NewGhost | TimeSlip | Calm => BodyReasonsArePlain();
    case _ => BuiltinReasonsArePlain();
  }

  lemma VibesReasonsArePlain()
    ensures Plain(Cursed.Reason()) && Plain(Off.Reason()) && Plain(Immaculate.Reason()) && Plain(Cromulent.Reason())
    ensures Plain(Dissociating.Reason())
  {
  }

  lemma LifeReasonsArePlain()
    ensures Plain(FreshlyBrewed.Reason()) && Plain(Decaf.Reason()) && Plain(Transcendent.Reason())
    ensures Plain(Accepting.Reason()) && Plain(Questioning.Reason()) && Plain(Innocent.Reason())
  {
  }

  lemma BodyReasonsArePlain()
    ensures Plain(Hungry.Reason()) && Plain(Sated.Reason()) && Plain(CouldGoForASnack.Reason())
    ensures Plain(NewGhost.Reason()) && Plain(TimeSlip.Reason()) && Plain(Calm.Reason())
  {
  }

  lemma BuiltinReasonsArePlain()
    ensures Plain(KubeletReady.Reason()) && Plain(InsufficientMemory.Reason()) && Plain(SufficientMemory.Reason())
    ensures Plain(NoDiskPressure.Reason()) && Plain(SufficientPid.Reason())
  {
  }

  lemma MessageIsPlain(v: Verdict)
    ensures Plain(v.Message())
  {
    match v
    case Cursed | Off | Immaculate => VibesMessagesArePlain();
    case Cromulent | Dissociating | FreshlyBrewed => MixedMessagesArePlain();
    case Decaf | Transcendent | Accepting => LifeMessagesArePlain();
    case Questioning | Innocent | Hungry => YoungMessagesArePlain();
    case Sated | CouldGoForASnack | NewGhost => BodyMessagesArePlain();
    case TimeSlip | Calm => HauntedMessagesArePlain();
    case KubeletReady | InsufficientMemory => NodeMessagesArePlain();
    case _ => BuiltinMessagesArePlain();
  }

  lemma VibesMessagesArePlain()
    ensures Plain(Cursed.Message()) && Plain(Off.Message()) && Plain(Immaculate.Message())
  {
  }

  lemma MixedMessagesArePlain()
    ensures Plain(Cromulent.Message()) && Plain(Dissociating.Message()) && Plain(FreshlyBrewed.Message())
  {
  }

  lemma LifeMessagesArePlain()
    ensures Plain(Decaf.Message()) && Plain(Transcendent.Message()) && Plain(Accepting.Message())
  {
  }

  lemma YoungMessagesArePlain()
    ensures Plain(Questioning.Message()) && Plain(Innocent.Message()) && Plain(Hungry.Message())
  {
  }

  lemma BodyMessagesArePlain()
    ensures Plain(Sated.Message()) && Plain(CouldGoForASnack.Message()) && Plain(NewGhost.Message())
  {
  }

  lemma HauntedMessagesArePlain()
    ensures Plain(TimeSlip.Message()) && Plain(Calm.Message())
  {
  }

  lemma NodeMessagesArePlain()
    ensures Plain(KubeletReady.Message()) && Plain(InsufficientMemory.Message())
  {
  }

  lemma BuiltinMessagesArePlain()
    ensures Plain(SufficientMemory.Message()) && Plain(NoDiskPressure.Message()) && Plain(SufficientPid.Message())
  {
  }

  // ---- LeaseBody ---------------------------------------------------------------------

  const LEASE_API := MemberText("apiVersion", "coordination.k8s.io/v1")
  const LEASE_KIND := MemberText("kind", "Lease")
  const LEASE_SPACE := MemberText("namespace", "kube-node-lease")

  function LeaseMetadataText(nodeName: string): string {
    "{" + (MemberText("name", nodeName) + "," + LEASE_SPACE) + "}"
  }

  function LeaseSpecText(nodeName: string, duration: string, renewTime: string): string {
    "{" + (MemberText("holderIdentity", nodeName) + ","
      + (Quoted("leaseDurationSeconds") + ":" + duration + ","
        + MemberText("renewTime", renewTime))) + "}"
  }

  function LeaseObjectText(nodeName: string, duration: string, renewTime: string): string {
    "{" + (LEASE_API + "," + (LEASE_KIND + ","
      + (Quoted("metadata") + ":" + LeaseMetadataText(nodeName) + ","
        + (Quoted("spec") + ":" + LeaseSpecText(nodeName, duration, renewTime))))) + "}"
  }

  function LeaseText(nodeName: string, renew: u64): string {
    LeaseObjectText(nodeName, Padded(LEASE_DURATION_SECS, 1), Rfc3339(renew))
  }

  /** LeaseBody::write_json into a buffer of 512 bytes. */
  method WriteLeaseJson(nodeName: string, renew: u64, out: HString) returns (ok: bool)
    requires out.Valid() && out.text == ""
    modifies out
    ensures out.Valid()
    ensures ok <==> |LeaseText(nodeName, renew)| <= out.capacity
    ensures ok ==> out.text == LeaseText(nodeName, renew)
  {
    var stamped := new HString(40);
    Rfc3339Fits(renew);
    var printed := FmtRfc3339(renew, stamped);
    assert "" + Rfc3339(renew) == Rfc3339(renew);
    var text := LeaseObjectText(nodeName, Padded(LEASE_DURATION_SECS, 1), stamped.text);
    ok := out.Write(text);
    assert "" + text == text;
  }

  function LeaseMetadata(nodeName: string): Json {
    Obj(Cons(StringMember("name", nodeName), Cons(StringMember("namespace", "kube-node-lease"), Nil)))
  }

  function LeaseSpec(nodeName: string, duration: string, renewTime: string): Json {
    Obj(Cons(StringMember("holderIdentity", nodeName),
      Cons(Member("leaseDurationSeconds", Num(duration)),
        Cons(StringMember("renewTime", renewTime), Nil))))
  }

  /** The lease as a JSON value. */
  function LeaseJson(nodeName: string, duration: string, renewTime: string): Json {
    Obj(Cons(StringMember("apiVersion", "coordination.k8s.io/v1"),
      Cons(StringMember("kind", "Lease"),
        Cons(Member("metadata", LeaseMetadata(nodeName)),
          Cons(Member("spec", LeaseSpec(nodeName, duration, renewTime)), Nil)))))
  }

  lemma LeaseMetadataIsJson(nodeName: string)
    ensures LeaseMetadataText(nodeName) == Render(LeaseMetadata(nodeName))
  {
    var space := StringMember("namespace", "kube-node-lease");
    RenderStringMember("namespace", "kube-node-lease");
    RenderStringMember("name", nodeName);
    RenderMoreMembers(space, Nil);
    RenderMoreMembers(StringMember("name", nodeName), Cons(space, Nil));
  }

  lemma LeaseSpecIsJson(nodeName: string, duration: string, renewTime: string)
    ensures LeaseSpecText(nodeName, duration, renewTime) == Render(LeaseSpec(nodeName, duration, renewTime))
  {
    var holder, time := StringMember("holderIdentity", nodeName), StringMember("renewTime", renewTime);
    var seconds := Member("leaseDurationSeconds", Num(duration));
    RenderStringMember("holderIdentity", nodeName);
    RenderStringMember("renewTime", renewTime);
    RenderMoreMembers(time, Nil);
    RenderMoreMembers(seconds, Cons(time, Nil));
    RenderMoreMembers(holder, Cons(seconds, Cons(time, Nil)));
  }

  lemma LeaseTextIsJson(nodeName: string, duration: string, renewTime: string)
    ensures LeaseObjectText(nodeName, duration, renewTime) == Render(LeaseJson(nodeName, duration, renewTime))
  {
    var api, kind := StringMember("apiVersion", "coordination.k8s.io/v1"), StringMember("kind", "Lease");
    var metadata := Member("metadata", LeaseMetadata(nodeName));
    var spec := Member("spec", LeaseSpec(nodeName, duration, renewTime));
    LeaseMetadataIsJson(nodeName);
    LeaseSpecIsJson(nodeName, duration, renewTime);
    RenderStringMember("apiVersion", "coordination.k8s.io/v1");
    RenderStringMember("kind", "Lease");
    RenderMoreMembers(spec, Nil);
    RenderMoreMembers(metadata, Cons(spec, Nil));
    RenderMoreMembers(kind, Cons(metadata, Cons(spec, Nil)));
    RenderMoreMembers(api, Cons(kind, Cons(metadata, Cons(spec, Nil))));
  }

  /** A reader of the lease body gets back the holder, the duration and the renewTime,
      for every node name that needs no escape. */
  lemma LeaseReadsBack(nodeName: string, renew: u64)
    requires Plain(nodeName)
    ensures Parse(LeaseText(nodeName, renew)) == Some(LeaseJson(nodeName, "40", Rfc3339(renew)))
  {
    Rfc3339IsPlain(renew);
    LeasePartsRead(nodeName, Rfc3339(renew));
    assert Padded(40, 1) == Padded(4, 1) + ['0'] == "40";
  }

  lemma LeasePartsRead(nodeName: string, renewTime: string)
    requires Plain(nodeName) && Plain(renewTime)
    ensures Parse(LeaseObjectText(nodeName, "40", renewTime)) == Some(LeaseJson(nodeName, "40", renewTime))
  {
    LeaseTextIsJson(nodeName, "40", renewTime);
    LeaseIsPlain(nodeName, renewTime);
    ParseRender(LeaseJson(nodeName, "40", renewTime));
  }

  lemma LeaseIsPlain(nodeName: string, renewTime: string)
    requires Plain(nodeName) && Plain(renewTime)
    ensures PlainJson(LeaseJson(nodeName, "40", renewTime))
  {
    LeaseKeysArePlain();
    LeaseValuesArePlain();
    var time := Cons(StringMember("renewTime", renewTime), Nil);
    var seconds := Cons(Member("leaseDurationSeconds", Num("40")), time);
    StringMemberIsPlain("renewTime", renewTime, Nil);
    assert PlainMembers(seconds);
    StringMemberIsPlain("holderIdentity", nodeName, seconds);
    var spec := Cons(Member("spec", LeaseSpec(nodeName, "40", renewTime)), Nil);
    assert PlainMembers(spec);
    var space := Cons(StringMember("namespace", "kube-node-lease"), Nil);
    StringMemberIsPlain("namespace", "kube-node-lease", Nil);
    StringMemberIsPlain("name", nodeName, space);
    var metadata := Cons(Member("metadata", LeaseMetadata(nodeName)), spec);
    assert PlainMembers(metadata);
    StringMemberIsPlain("kind", "Lease", metadata);
    StringMemberIsPlain("apiVersion", "coordination.k8s.io/v1", Cons(StringMember("kind", "Lease"), metadata));
  }

  lemma LeaseKeysArePlain()
    ensures Plain("apiVersion") && Plain("kind") && Plain("metadata") && Plain("name") && Plain("namespace") && Plain("spec")
    ensures Plain("holderIdentity") && Plain("leaseDurationSeconds") && Plain("renewTime")
  {
  }

  lemma LeaseValuesArePlain()
    ensures Plain("coordination.k8s.io/v1") && Plain("Lease") && Plain("kube-node-lease")
  {
  }
}
