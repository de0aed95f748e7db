/** The first step of bootstrap in src/kubelet.rs: the wall clock is anchored to the Date
    header of a response. The later steps are with the reconcilers they start. */
module Kubelet {
  import opened Wrappers
  import opened MachineInts
  import opened Text
  import opened CivilTime
  import opened WallClock
  import opened Http

  /** anchor_clock: a Date header that can be read sets the anchor; after a failed request,
      without the header or with one that cannot be read the clock stays as it was. */
  method AnchorClock(response: Result<Response, ApiError>, clock: Clock, nowMs: u64)
    modifies clock
    ensures response.Err? ==> clock.Now() == old(clock.Now())
    ensures response.Ok? ==>
              match response.value.Header("Date")
              case None => clock.Now() == old(clock.Now())
              case Some(text) =>
                && (ParseHttpDate(text).None? ==> clock.Now() == old(clock.Now()))
                && (ParseHttpDate(text).Some? ==> clock.Now() == Anchor(ParseHttpDate(text).value, nowMs))
  {
    if response.Ok? {
      var date := response.value.Header("Date");
      if date.Some? {
        var unix := ParseHttpDate(date.value);
        if unix.Some? {
          clock.SetWallClock(unix.value, nowMs);
        }
      }
    }
  }

  /** From the octets of a response to a printed timestamp: a clock anchored to the Date of
      any response that follows RFC 9112 prints, at that instant, the very date and time
      that the server sent. */
  lemma AnchoredClockPrintsTheDate(
    version: string, code: string, reason: string, fields: seq<Field>, body: string, f: Fields, w: Framing, nowMs: u64)
    requires IsCode(version) && IsCode(code) && NoLineBreak(reason) && Utf8(reason)
    requires exists status: nat :: status <= 0xFFFF && Numeral(code, status)
    requires forall i :: 0 <= i < |fields| ==> fields[i].Valid()
    requires f.Valid() && 1970 <= f.date.year <= 9999 && w.Valid()
    requires FirstField(fields, "Date") == Some(HttpDate(f, w))
    ensures var r := ParseResponse(WithLines(StatusLine(version, code, reason), FieldLines(fields)) + BLANK + body);
            && r.Ok? && r.value.Header("Date").Some?
            && var date := ParseHttpDate(r.value.Header("Date").value);
               date.Some? && ReadRfc3339(Rfc3339(UnixNow(Anchor(date.value, nowMs), nowMs))) == Some(DateTime(f, 0))
  {
    HeaderReadsBack(version, code, reason, fields, body, "Date");
    HttpDatePrintsBack(f, w);
    AnchorReadsItself(ParseHttpDate(HttpDate(f, w)).value, nowMs);
  }

  lemma AnchorReadsItself(unix: u64, nowMs: u64)
    ensures UnixNow(Anchor(unix, nowMs), nowMs) == unix
  {
  }
}
