# picokubelet: a verified model

picokubelet is a Kubernetes kubelet for an ESP32. It has no clock of its own: it anchors one to
the `Date` header of an API server, prints Kubernetes timestamps from it, renews a lease every ten
seconds, keeps nine node conditions on the server, and shows its state on one LED. This project
models that logic in Dafny and proves what the node, as a whole, keeps.

The model has four parts.

- **Time.** `Calendar` is a naive Gregorian calendar that counts days; `CivilTime` has the
  firmware's closed forms and proves that they count the same days, both ways. `WallClock` has the
  anchored clock, the timestamp printer and the HTTP date parser, on `Text` (the string operations
  of the Rust library, over UTF-8 octets) and `MachineInts` (fixed-width integers; the release
  profile has overflow checks off, so arithmetic wraps). `Kubelet` puts parser, clock and printer
  together.
- **Conditions.** `Conditions` has the trackers and evaluators. `StatusModel` states one tick of the
  status reconciler as a function of what it samples and of what becomes of its two PATCHes, and
  proves theorems about all runs of such ticks against a server that merges conditions by type.
  `StatusReconciler` has the classes that the firmware updates in place; its `Reconcile` is proved
  to be that function. `TimeSlip` is about the detector of moved clocks.
- **The running node.** `Node` interleaves the lease, status, Wi-Fi and LED tasks between their
  awaits, with one shared client and an API server that serves, refuses or loses requests and is
  written by others. `NodeStatus`, `NodeHeartbeat`, `NodeLease` and `NodeLed` prove what every
  interleaving keeps; `NodeStatus.StatusTaskRefinesTicks` carries the theorems about runs of ticks
  over to it, and `NodeLease.LeaseTaskRefinesReconcile` ties it to the lease reconciler.
  `LeaseReconciler` and `Wifi` have the classes of those tasks.
- **Wire formats.** `Models` writes the status and lease bodies into bounded buffers (`Buffers`);
  `Json` reads them back, and `StatusPatch` is what a server makes of the text of a status body.
  `Http` parses responses as RFC 9112 frames them, `Client` reads them piece by piece, and `Led`
  computes the breathing curve and the WS2812 pulses.

Classes and methods stand where the firmware mutates state; their postconditions equate the new
state with a function of the old one, and the lemmas are about those functions. What the hardware,
the network and the clocks do is a parameter of the methods (`Sample`, `Fate`, `LeaseFate`) or an
event of the `Node` machine.

## Where the code differs from what it says

- The README of the firmware promises a status PATCH "immediately whenever any tracked condition
  flips". A flip is recorded before the PATCH is sent, so one whose PATCH is lost is sent again only
  by the next tick that is due or sees another flip (`StatusModel.LostFlipsAreNotResent`, an exact
  condition for that tick; `StatusModel.CoherentExactlyWhenSent`, one for whole runs;
  `StatusModel.StaleServerWitness`, a server that stays stale).
- A comment in `src/k8s/conditions.rs:102` says that the first evaluation always counts as a
  transition. For `Vibes` it does not when the heap has from 30 KiB to less than 51 KiB free
  (`StatusReconciler.FirstEvaluationFlips`, exact; `StatusReconciler.FirstEvaluationCanBeSilent`, one
  such boot).
- A comment in `src/kubelet.rs:91-92` says that a failed anchoring is tried again in the renewal
  loop. Nothing does that (`NodeLease.NeverAnchoredForGood`).
- A comment in `src/config.rs:45-48` says that the detector of moved clocks hits on more than five
  seconds. Whether it does depends on the instants of the reads: it surely hits exactly from eight
  seconds on, and can hit from four (`TimeSlip.AlwaysNoticed`, `TimeSlip.NeverNoticed`). It also
  fires on a clock that was never anchored (`TimeSlip.NeverAnchoredSlips`).

## Model

| member | source | states |
|---|---|---|
| CivilTime.DaysFromCivilIsDayNumber | src/wallclock.rs:35-40 | the era formula gives the number of days that a calendar with the leap rule and month lengths counts from 1970-01-01, for every valid date whose year is in range, before 1970 too |
| CivilTime.UnixFromYmdhmsIsEpochSeconds | src/wallclock.rs:34-42 | for every valid date and time from 1970 on, the 64-bit result is the counted number of seconds; nothing wraps |
| CivilTime.YearOfEraIsYear | src/wallclock.rs:84 | the three corrections by 1460, 36524 and 146096 days find the year of the era that contains the day, and leave a day within it |
| CivilTime.CivilFromDaysCounts | src/wallclock.rs:79-90 | every day number yields a real calendar date, and that date has this day number |
| CivilTime.CivilFromDaysInverse | src/wallclock.rs:79-90 | the conversion from days inverts counting for every valid date |
| CivilTime.FieldsFromUnixCounts | src/wallclock.rs:77-93 | the printed fields of any instant whose year fits an i32 are a valid date and time, and counting them gives the instant back |
| CivilTime.FieldsRoundTrip | src/wallclock.rs:34-93 | seconds, then fields: every valid date and time from 1970 on comes back |
| CivilTime.UnixRoundTrip | src/wallclock.rs:34-93 | fields, then seconds: every instant whose year fits an i32 comes back |
| CivilTime.EpochSecondsOrder | src/wallclock.rs:34-42 | an earlier date and time has the smaller number, and conversely |
| WallClock.Clock.SetWallClock | src/wallclock.rs:16-20 | the new anchor is the given time at the present instant |
| WallClock.Clock.UnixNowSecs | src/wallclock.rs:22-30 | reads 0 before an anchor; afterwards the anchor plus the milliseconds since, rounded down to whole seconds |
| WallClock.FmtRfc3339 | src/wallclock.rs:77-99 | appends the timestamp, and fails exactly when the buffer is too small for it |
| WallClock.Rfc3339Fits | src/wallclock.rs:77-99 | at no 64-bit instant is the timestamp longer than 34 characters, so the buffer of 40 is enough even where years wrap |
| WallClock.Rfc3339ReadsBack | src/wallclock.rs:77-99 | wherever the year fits an i32 a reader of the text gets the valid date and time and no microseconds, which count to exactly unix * 1,000,000 microseconds; until the end of the year 9999 it has 27 characters and the form of section 5.6 of RFC 3339 |
| WallClock.Rfc3339Order | src/wallclock.rs:77-99 | until then, comparing two texts character by character compares the instants |
| WallClock.PrintedTimeMonotone | src/wallclock.rs:22-30 | with one anchor and a monotonic time source neither the clock nor its text goes backwards |
| WallClock.ParseHttpDateReads | src/wallclock.rs:46-73 | every IMF-fixdate (section 5.6.7 of RFC 9110) from 1970 to 9999, with any day name, zone and runs of white space, parses to the instant that the calendar counts |
| WallClock.ParseHttpDateExactly | src/wallclock.rs:46-73 | over all texts: accepted is exactly what has, behind the first comma, the numeral of a 32-bit day, one of twelve month names, the signed numeral of a 32-bit year and three numerals between colons, and then for the instant of those numbers |
| WallClock.UnknownMonthIsRefused | src/wallclock.rs:52-66 | a date whose second word is no month name is refused, whatever stands around it |
| WallClock.HttpDatePrintsBack | src/wallclock.rs:46-99 | printing the parsed date shows the same year, month, day, hour, minute and second |
| Kubelet.AnchorClock | src/kubelet.rs:70-95 | a Date header that parses sets the anchor to its instant at the present one; after a failed request, without the header or with one that does not parse the clock is as before |
| Kubelet.AnchoredClockPrintsTheDate | src/kubelet.rs:70-95 | from the octets of any response in the form of RFC 9112 to a timestamp: the anchored clock prints the date and time that the server sent, with no microseconds |
| Conditions.CondState.Observe | src/k8s/conditions.rs:28-35 | the tracker takes the new status, and the time only on a flip, which is reported |
| Conditions.TransitionTimeMeaning | src/k8s/conditions.rs:112-120 | after any observations the transition time is when the longest constant suffix of statuses began, the creation time if nothing flipped; that suffix is unique |
| Conditions.EvaluatorThresholds | src/k8s/conditions.rs:139-304 | each of the five statuses as a threshold in bytes, seconds, reconnects or renewals, although the code compares rounded percentages |
| Conditions.ReasonThresholds | src/k8s/conditions.rs:170-304 | and each of the seventeen reasons, among them Accepting from 1,000 and Transcendent from 10,000 renewals |
| Conditions.EvaluatorsAgree | src/k8s/conditions.rs:170-282 | memory pressure, below 20 KiB, makes Peckish hungry and Vibes bad, good vibes exclude hunger, and a sated node without reconnects has good vibes |
| StatusModel.FlipsExactly | src/reconcilers/status.rs:133-145 | the six flags of a tick together say whether any of the nine statuses changed |
| StatusModel.BodyStatesTrackers | src/reconcilers/status.rs:147-189 | the body of a tick has, for each of the nine conditions, the status just evaluated, the tracker's transition time and the tick's heartbeat |
| StatusModel.TickThresholds | src/reconcilers/status.rs:92-131 | which status a tick evaluates for each of the six observed conditions, in the units of what it samples: MemoryPressure is True exactly below 20 KiB, reconnects are those above the snapshot and none below it, a ghost needs two known BSSIDs |
| StatusModel.BodyReasons | src/reconcilers/status.rs:92-189 | the reason of each of the nine rows of a tick's body in the same units, and the status in the row for memory |
| StatusModel.CoherentWhenAnswered | src/reconcilers/status.rs:97-201 | in every run, whenever the latest status PATCH was answered 200, the server's nine statuses and transition times are the trackers', across any number of ticks that skip the push |
| StatusModel.PushesWhenServerDiffers | src/reconcilers/status.rs:133-145 | in a run without failures a tick pushes exactly when it is due or an evaluated status differs from the server's |
| StatusModel.LostFlipsAreNotResent | src/reconcilers/status.rs:133-189 | after a lost PATCH the next tick pushes exactly when it is due or evaluates a status that differs from the lost tick's |
| StatusModel.CoherentExactlyWhenSent | src/reconcilers/status.rs:97-189 | over whole runs with a clock that moves on: the server agrees with the trackers if and only if no tick has flipped a condition since the last PATCH that the server acted on |
| StatusModel.StaleServerWitness | src/reconcilers/status.rs:133-189 | a coherent server stays stale: if the flip to memory pressure is lost, a next tick that is not due and evaluates the same sends nothing |
| StatusModel.StaleServerInput | src/reconcilers/mod.rs:35-43 | two such samples, ten and twenty seconds after a full push |
| StatusModel.StaleServerExample | src/reconcilers/status.rs:133-189 | a coherent state and two ticks ten seconds apart after which the server says there is memory and the tracker that there is not |
| StatusModel.RunTransitionTimes | src/reconcilers/status.rs:97-139 | in every run, each of the nine transition times is when the longest constant suffix of that condition's statuses began |
| StatusModel.BodiesAreOrdered | src/reconcilers/status.rs:133-189 | with a monotone clock no body has a transition time after its heartbeat |
| StatusModel.WindowFromLastFullPush | src/reconcilers/status.rs:194-201 | the four snapshots are the association count, the BSSID, the wall clock and the monotonic clock that the last tick sampled that pushed and had both PATCHes answered, or those of the creation, whatever failed since |
| StatusModel.SkippedOnlyWhenRecent | src/reconcilers/status.rs:140-145 | in every run a tick pushes exactly if one of the nine statuses differs, or its clock is set and reads 300 s or more after the last full push |
| StatusModel.HauntedMeansNewBssid | src/reconcilers/status.rs:103-108 | without a time slip Haunted is True exactly when the BSSIDs sampled now and at the last full push are both known and differ |
| StatusModel.GhostsCalmDown | src/reconcilers/status.rs:194-199 | once the BSSID stays the same, Haunted is Calm from the tick after the next full push on |
| StatusModel.ConsumedIsWindowMove | src/reconcilers/status.rs:102-104 | what the full pushes of a run reported is how far the window has moved, whatever failed in between |
| StatusModel.OneWayFlips | src/k8s/conditions.rs:207-249 | with counters that never fall back, Caffeinated and Existential flip once if the run passes their threshold and never otherwise |
| TimeSlip.OneAnchorNeverSlips | src/reconcilers/status.rs:114-116 | with one anchor and at most 4.001 s between the two clock reads of a tick, no tick of any run sees a slip, however old its snapshots are |
| TimeSlip.SkewBoundIsTight | src/reconcilers/status.rs:114-116 | one millisecond more can be taken for a slip, by a tick more than ten seconds after its snapshots |
| TimeSlip.NeverAnchoredSlips | src/wallclock.rs:22-30 | on a clock that was never anchored the detector fires exactly from six seconds on |
| TimeSlip.MovedClockSlips | src/reconcilers/status.rs:114-116 | exactly when a clock moved once between snapshots and tick is noticed, for any move and any distance between reads: the move, less the whole seconds in what the three floor divisions drop and the reads are apart, is over 5 s |
| TimeSlip.ReanchoringIsNoticed | src/reconcilers/status.rs:114-116 | in every run, with reads at most 1 s apart: one re-anchoring since the last full push by 8 s or more either way makes the next tick haunted, and one by at most 3 s is not taken for a slip |
| TimeSlip.AlwaysNoticed | src/config.rs:45-48 | a move is noticed whatever the instants of the reads, at most 1 s apart and of a tick ten seconds or more after its snapshots, if and only if it is by at least 8 s either way, not by more than 5 s as the comment says |
| TimeSlip.NeverNoticed | src/config.rs:45-48 | of the moves that can happen, exactly those by at most 3 s are never taken for a slip, so that one by 4 s can be |
| StatusReconciler.CustomCondTracker.ObserveAll | src/reconcilers/status.rs:133-139 | each of five trackers observes its own evaluation, and the result says whether one of them flipped |
| StatusReconciler.KubeApi.PatchNodeStatus | src/k8s/api.rs:110-143 | a body that does not fit is never sent; otherwise success means a 200, and exactly if the server acted it has received that body and merged the stated rows |
| StatusReconciler.KubeApi.SendStatus | src/reconcilers/status.rs:147-189 | the body of a tick is never too long to be sent, and up to the year 9999 the conditions stored afterwards are those that a server gets from reading the octets it was sent, by a table of its own for types, statuses, reasons and messages |
| StatusPatch.MergeStatedIsMerge | src/k8s/models.rs:128-133 | merging the rows of a body one after the other by type leaves the nine rows of the body and every other stored row as it was |
| StatusPatch.TextMerges | src/k8s/models.rs:128-215 | up to the year 9999, reading the text of a tick's body (type, status, reason, message and both times of each row, by tables of the nine types, the three statuses and the twenty-two reasons with their messages) and merging what it says gives exactly the nine rows of the tick and keeps every other stored row |
| StatusReconciler.StatusReconciler.Reconcile | src/reconcilers/status.rs:92-203 | for every sample and fate of the two PATCHes, trackers, snapshots and server end where the tick function of `StatusModel` puts them, memory pressure being True exactly below 20 KiB; an error is returned exactly when a push was not answered 200 twice; and up to the year 9999 a server that acted stores what the text it received says |
| StatusReconciler.StatusReconciler.constructor | src/reconcilers/status.rs:73-86 | the window starts at the creation's clock, counter and BSSID reads |
| StatusReconciler.Bootstrap | src/kubelet.rs:63-67 | the trackers handed on were created at one time and observed once at a later one; the server has their body exactly if it acted |
| StatusReconciler.BootstrapIsCoherent | src/kubelet.rs:162-263 | a server that acted on the initial PATCH agrees with the trackers whatever it stored before, which starts the coherence of runs |
| StatusReconciler.BootStates | src/kubelet.rs:63-207 | the nine trackers after bootstrap in the units of what it read: which were stamped by the push and which keep the creation time, memory pressure being True since the push exactly below 20 KiB |
| StatusReconciler.BootRows | src/kubelet.rs:169-235 | the nine rows of the initial push, with reasons and heartbeat |
| StatusReconciler.FirstEvaluationFlips | src/k8s/conditions.rs:102-105 | the first evaluation stamps a new transition time except, exactly, for Vibes with 30 KiB to below 51 KiB free |
| StatusReconciler.FirstEvaluationCanBeSilent | src/k8s/conditions.rs:102-105 | a boot with 40 KiB free keeps the creation time for Vibes |
| NodeStatus.OneRequestAtATime | src/k8s/api.rs:62-66 | an invariant of the machine, whose `Acquire` step is the lock of the shared client: the client is held by exactly that task whose request is on its way |
| NodeStatus.StatusTaskRefinesTicks | src/reconcilers/mod.rs:35-43 | in every interleaving the status task and the server are where the model's run of the finished ticks is, or, within a tick, where it would be if the request failed now |
| NodeStatus.NodeIsCoherent | src/reconcilers/status.rs:97-201 | at any moment of any interleaving, once the latest status PATCH was answered, the server's nine conditions are the trackers' |
| NodeStatus.NodeIsCoherentExactlyWhenSent | src/reconcilers/status.rs:97-189 | on an anchored clock, at any moment of any interleaving, the server agrees with the trackers if and only if no tick has flipped a condition since the last PATCH that the server acted on |
| NodeStatus.SharedCounter | src/reconcilers/lease.rs:124-125 | RENEWAL_COUNT is always the lease task's own counter and the number of HTTP 200 renewals modulo 2^32 |
| NodeStatus.ReconnectsConserved | src/reconcilers/status.rs:102-104 | below 2^32 associations, in every interleaving, reconnects reported by full pushes and those a tick would report now add up to all associations since creation |
| NodeStatus.FlipsAtMostOnce | src/k8s/conditions.rs:207-249 | after bootstrap Caffeinated flips at most once, and Existential too while the counter does not wrap; the last sample decides between once and never |
| NodeStatus.TickSpeaksOfTheNode | src/reconcilers/status.rs:92-131 | at any moment of any interleaving a tick that starts evaluates the six conditions of the node as it is then: the heap it finds, the time since boot, all renewals so far modulo 2^32, and associations and access point since the last full push |
| NodeStatus.NodeNeverSlips | src/reconcilers/status.rs:114-116 | in every interleaving with one anchor and clock reads of a tick at most 4.001 s apart, no tick sees a slip, and Haunted is True exactly for a BSSID that is new since the last full push |
| NodeStatus.SentBodiesAreOrdered | src/reconcilers/status.rs:187-189 | no body on its way has a transition time after its heartbeat |
| NodeHeartbeat.HeartbeatsStayFresh | src/reconcilers/status.rs:140-201 | on an anchored clock: if the timer wakes the status task at most j ms late, its ticks take at most d ms and at most k pushes in a row are not fully answered, then after the first full push no heartbeat on the server is ever older than 300 s plus (k + 1)(10 s + j + d) + d |
| LeaseReconciler.PathsFitExactly | src/kubelet.rs:37-55 | a node name is accepted exactly if it has at most 65 octets: only then do its three paths fit 128 bytes each |
| LeaseReconciler.LeaseBodyFits | src/k8s/models.rs:105-123 | the lease body of every node name that NodeIdentity accepts fits 512 bytes at every 64-bit time |
| LeaseReconciler.LeaseReconciler.RenewLease | src/k8s/api.rs:52-80 | 200 means renewed, 404 missing, any other status and a lost request their errors; the stored time changes exactly if the server acted on an existing lease, and then, up to the year 9999, the octets that it received are a coordination.k8s.io/v1 Lease in kube-node-lease with this holder, 40 seconds and this time |
| LeaseReconciler.LeaseReconciler.CreateLease | src/k8s/api.rs:82-108 | 201 and 409 are successes, all else an error; the lease appears exactly if it was missing and the server acted, and then the octets that it received say the same of it |
| LeaseReconciler.LeaseReconciler.Reconcile | src/reconcilers/lease.rs:121-158 | only an HTTP 200 changes counters and LED, Healthy the first time and Activity later; a 404 leads to one creation, with a time of its own; the state ends where `AfterTick`, the step of the runs below, puts it |
| NodeLease.LeaseTaskRefinesReconcile | src/reconcilers/lease.rs:121-158 | in every interleaving, with time passing within ticks, the counters and a lease that nobody else touches are where that step takes them over the finished ticks, or, within a tick, where it would take them if the request failed now; every renewal has the time at which its tick started, every creation the time at which its 404 was read |
| NodeLease.ClockReads | src/reconcilers/lease.rs:122-154 | a tick reads the clock as it starts and once more exactly when it reads a 404; no other step changes the time that its request carries |
| NodeLease.CreationIsStampedWhenRead | src/reconcilers/lease.rs:152-155 | over every run: the lease that a creation leaves on the server has the time at which the answer to the renewal before it was read |
| NodeLease.LeaseStaysFresh | src/reconcilers/mod.rs:35-43 | if the timer wakes the lease task at most j ms late, its ticks take at most d ms and at most k in a row fail, a lease that it wrote last is never older than (k + 1)(10 s + j + d) + d plus one second, through 404s and re-creations; a 409 counts as a failure |
| NodeLease.TwoFailuresKeepTheLease | src/config.rs:19-20 | two failures in a row stay below the 40 s lease if 3j + 4d is below 9 s: with ticks of up to 2 s the timer may be up to 333 ms late |
| NodeLease.UndisturbedLeaseIsKept | src/reconcilers/lease.rs:121-158 | if nobody else touches the lease, it exists and is ours from the first good tick on |
| NodeLease.RenewTimesNeverGoBack | src/k8s/models.rs:105-123 | over every run the renewTime that the lease task leaves on the server never goes back, nor does its text until the year 9999, whatever is lost, deleted or overwritten in between |
| NodeLease.NeverAnchoredForGood | src/kubelet.rs:90-93 | on a node that starts without an anchor every renewTime that the lease task leaves is 0 for the whole run, and no status tick is ever due |
| NodeLed.HealthySignalledOnce | src/reconcilers/lease.rs:145-150 | in every interleaving Healthy is signalled exactly once if there was an HTTP 200, and never by a creation |
| NodeLed.StepHealthyOnce | src/reconcilers/lease.rs:145-150 | the step that signals it is the answer to the first HTTP 200 and no other |
| NodeLed.NoSignalIsLost | src/led.rs:115-138 | with lease ticks ten seconds apart and shorter LED iterations no signal is overwritten unread, and Healthy is unread or steady after the first renewal |
| NodeLed.HealthyStaysSteady | src/led.rs:115-138 | with LED iterations under ten seconds: ten seconds after a renewal the LED has taken its signal and the steady pattern is Healthy |
| NodeLed.SteadyForTheRest | src/led.rs:115-138 | once steady, Healthy stays for the rest of every run |
| NodeLed.FramesOnTime | src/led.rs:115-118 | in every interleaving, a waiting LED task goes on exactly if a signal is unread or its iteration began 33 ms or more ago |
| Wifi.BssidsStayDistinct | src/net/wifi.rs:22-29 | different access points get different numbers below 2^48, and the sentinel 0 is only the all-zero address |
| Wifi.OctetsInOrder | src/net/wifi.rs:22-29 | the six octets stand in the number in the order of the address |
| Wifi.WifiCells.ConnectionTask | src/net/wifi.rs:32-47 | after any attempts to connect the counter has counted the successful ones modulo 2^32, and the BSSID is that of the last access point joined, whatever failed in between |
| Models.WriteStatusJson | src/k8s/models.rs:141-215 | the loop fails exactly when the whole body is too long for the buffer, and otherwise leaves the four built-in conditions and the entries in order |
| Models.TickBodyFits | src/k8s/models.rs:141-215 | for every output of the evaluators and all 64-bit times the body fits its 3072 bytes |
| Models.PatchReadsBack | src/k8s/models.rs:141-215 | for any entries without characters that section 7 of RFC 8259 escapes, a JSON reader gets back the built-in conditions followed by exactly those entries |
| Models.TickBodyReadsBack | src/k8s/models.rs:141-215 | every body that a tick sends is such JSON, whatever the evaluators said |
| Models.LeaseReadsBack | src/k8s/models.rs:105-123 | for every node name without such characters a JSON reader gets back the holder, the duration of 40 seconds and the renewTime, at every 64-bit time |
| Models.WriteLeaseJson | src/k8s/models.rs:105-123 | fails exactly when the body is too long for the buffer, and otherwise leaves the text that reads back |
| Json.ParseRender | src/k8s/models.rs:165-214 | the reader used above inverts rendering for every JSON value of strings without escapes, natural numbers, arrays and objects |
| Http.ResponseReadsBack | src/net/http.rs:53-77 | any status line, header lines and body, even with blank lines in it, printed as in sections 2.1 and 4 of RFC 9112, parse back to the same header block and body with the status that the code denotes, and are refused exactly if the code is not the numeral of a 16-bit number |
| Http.AcceptedSplit | src/net/http.rs:53-77 | over all buffers: accepted is exactly what has, before its first blank line, a head in UTF-8 whose first line has a version and the numeral of a 16-bit status; body and status are those, and the header lines are what follows the first line break of the head |
| Http.HeaderReadsBack | src/net/http.rs:41-50 | a header of a printed response is the value of the first field of that name, without the blanks around it, and absent if there is none; names are one if they differ in the case of letters alone |
| Http.CaseDoesNotMatter | src/net/http.rs:44 | two names are taken for one exactly if at each place they have the same character or the same of the 26 letters |
| Http.LineBreaks | src/net/http.rs:42 | lines end at line feeds, and a carriage return before one is not part of the line |
| Http.EncodedIsUtf8 | src/net/http.rs:59 | every sequence of Unicode scalar values, encoded as in section 3 of RFC 3629, passes from_utf8 |
| Http.Utf8IsEncoded | src/net/http.rs:59 | conversely, what passes is such an encoding |
| Text.ParseUnsignedExactly | src/wallclock.rs:51 | a number is read from exactly the decimal numerals, with any zeros and one plus sign before them, of the values that fit |
| Text.ParseSignedExactly | src/wallclock.rs:67 | and a signed one also from those with a minus sign |
| Text.TrimmedHasNoSpace | src/net/http.rs:46 | the trimmed texts are those that neither begin nor end with one of the 25 characters with the property White_Space |
| Text.TrimExactly | src/net/http.rs:46 | trim takes all of that white space off both ends of any text, and nothing else |
| Text.WordsAreRuns | src/wallclock.rs:50 | the words of any text are its runs of characters other than space, tab, line feed, form feed and carriage return |
| Client.ReadResponse | src/net/client.rs:149-165 | for every way of splitting a stream into reads the loop ends, and the result depends on the whole stream alone: truncated if it does not fit, an error if it broke off, else the parse of all of it |
| Led.PctInRange | src/led.rs:173-188 | for any elapsed time and any period that does not divide by zero, brightness is from 5% to 25% |
| Led.PctReachesEnds | src/led.rs:173-188 | for periods up to 2^24 ms both ends are reached: 5% at the start and, if the period is even, 25% in its middle |
| Led.TriangleIsDistance | src/led.rs:174-181 | for periods up to 2^24 ms the wave is the distance from the nearest start of a period, scaled so that half a period is 255, and rounded down |
| Led.TriangleIsSymmetric | src/led.rs:174-181 | it repeats, and is symmetric about the middle of each period |
| Led.EasedNearSmoothstep | src/led.rs:182-185 | the fixed-point curve lies strictly between smoothstep - 3 and smoothstep + 2 on the scale of 255 |
| Led.PctIsLinear | src/led.rs:187 | the percentage is linear in the eased wave, rounded down |
| Led.SteadyColors | src/led.rs:148-171 | Booting is white, Connecting has a blue channel alone and Healthy a green one, at the percentage of their periods; every other pattern is dark |
| Led.SteadyIsCapped | src/led.rs:148-171 | no colour that is rendered or written exceeds the brightness cap |
| Led.LedTask.Turns | src/led.rs:115-138 | over any turns of the loop the steady pattern and the colours written are those of the turns, and no colour ever exceeds the brightness cap |
| Led.SteadyIsLastSignal | src/led.rs:122-136 | after any turns the steady pattern is the last signal that was not a flash, Booting for a self-test, shown since that signal was handled |
| Led.TurnColors | src/led.rs:115-145 | what each turn writes: the steady colour at a frame, yellow before it at a flash, red, green, blue and dark in a self-test, nothing for another pattern |
| Led.Encode | src/led.rs:195-213 | each of the 24 pulses is 32 ticks high and 68 low or 64 high and 36 low, and together they decode to the same colour |

## Left out

- TLS, TCP, DHCP, DNS, the SPI probe and `src/net/ethernet.rs`: only whether a request was acted on and answered is modelled.
- `NodeRegistration`, `HeapAnnotationPatch`, `src/k8s/path.rs` and the request head: single format calls. Of the annotation only its answer matters.
- Log lines, milestones, flavour lines and the rotation of `status_ok_idx`: they influence nothing.
- The executor: tasks interleave at their awaits, and the clock may move within a status tick. The waits of `connection_task` are not timed.
- `Reconciler::run` as an endless method: it is the alternation of waking and ending of the two tasks in `Node.Step`, since it has no end to state a postcondition at.
- A request that a server acts on after the client gave up: `Node.Step` lets a server act only while the request is on its way.
- Dates before 1970 through the last casts of `unix_from_ymdhms`, which wrap; the day number before them is covered.
- CivilTime.UnixRoundTrip: is about instants whose year fits an i32, as later ones wrap in the code; the timestamps of those are only shown to fit their buffer.
- WallClock.ParseHttpDateReads: is about valid dates; a wrong day name or another zone is accepted and fields out of range enter the formula as they are, since the code does not look at them (`WallClock.ParseHttpDateExactly` covers every text).
- WallClock.Rfc3339Order: is about instants until 9999-12-31T23:59:59Z; longer years have longer texts.
- TimeSlip.OneAnchorNeverSlips: the clock is below 2^62 seconds, so that the signed differences do not overflow.
- NodeStatus.ReconnectsConserved: holds below 2^32 associations; a counter that wraps makes the saturating difference 0.
- Led.PctInRange: excludes periods whose half is 0 in 32 bits, where the code divides by zero; the curve is not claimed to be monotone, as it is not.
- Led.Encode: the analogue tolerances of the pulses and the end marker's meaning to the peripheral are not part of it.
- `ready`, `disk_pressure` and `pid_pressure` are rows of every body, but nothing ever observes them.
- LeaseReconciler.LeaseReconciler.RenewLease: what the octets say is about node names that need no escape in JSON; the code does not look at the name.
- NodeStatus.FlipsAtMostOnce: Existential is about runs below 2^32 renewals, after which the counter starts over.
- StatusPatch.TextMerges: is about bodies whose times end by 9999-12-31T23:59:59Z, as a reader of RFC 3339 understands no later ones.
- NodeLease.LeaseTaskRefinesReconcile: is about runs in which nobody else writes or deletes the lease; freshness and the order of renewTimes do not need that.
- Other writers of the node's conditions: the server is written by the status task alone.
