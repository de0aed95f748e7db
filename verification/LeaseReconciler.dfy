/** src/reconcilers/lease.rs and the lease requests of src/k8s/api.rs. */
module LeaseReconciler {
  import opened Wrappers
  import opened MachineInts
  import opened Buffers
  import opened KubeErrors
  import opened Led
  import Config
  import Text
  import opened Json
  import opened Models
  import opened WallClock

  // ---- What the lease task shares ---------------------------------------------------------

  /** The reconciler's fields, the atomic RENEWAL_COUNT and the LED signal, of which a
      new value replaces an unread one. */
  datatype LeaseView = LeaseView(healthy: bool, renewals: u32, sharedCount: u32, signal: Option<LedPattern>)

  /** The effect of an HTTP 200. */
  function Renewed(v: LeaseView): LeaseView {
    var count := WrapU32(v.renewals + 1);
    LeaseView(true, count, count, Some(if v.healthy then Activity else Healthy))
  }

  class SharedCells {
    var renewalCount: u32
    var ledSignal: Option<LedPattern>

    constructor ()
      ensures renewalCount == 0 && ledSignal == None
    {
      renewalCount, ledSignal := 0, None;
    }

    /** led::set. */
    method SetLed(pattern: LedPattern)
      modifies this`ledSignal
      ensures ledSignal == Some(pattern)
    {
      ledSignal := Some(pattern);
    }
  }

  // ---- Requests -----------------------------------------------------------------------

  /** What becomes of a lease request: lost before or after the server acted on it,
      refused, or served. */
  datatype LeaseFate = Lost(reached: bool) | Refused(status: u16) | Served

  datatype LeaseRenewal = IsRenewed | IsMissing

  /** The server changes an existing lease. */
  predicate PatchActs(lease: Option<u64>, fate: LeaseFate) {
    lease.Some? && (fate.Served? || fate == Lost(true))
  }

  /** The server creates a missing lease. */
  predicate PostActs(lease: Option<u64>, fate: LeaseFate) {
    lease.None? && (fate.Served? || fate == Lost(true))
  }

  function PatchedLease(lease: Option<u64>, renew: u64, fate: LeaseFate): Option<u64> {
    if PatchActs(lease, fate) then Some(renew) else lease
  }

  function PostedLease(lease: Option<u64>, renew: u64, fate: LeaseFate): Option<u64> {
    if PostActs(lease, fate) then Some(renew) else lease
  }

  /** The stored Lease of this node, as the renewTime it carries, and the octets of the last
      body that the server acted on. */
  class LeaseServer {
    var lease: Option<u64>
    var received: string

    constructor ()
      ensures lease == None && received == ""
    {
      lease, received := None, "";
    }

    /** PATCH changes an existing lease: 200 or 404. */
    method Patch(renew: u64, body: string) returns (status: u16)
      modifies this
      ensures lease == PatchedLease(old(lease), renew, Served)
      ensures received == if old(lease).Some? then body else old(received)
      ensures status == if old(lease).Some? then 200 else 404
    {
      status := 404;
      if lease.Some? {
        status, lease, received := 200, Some(renew), body;
      }
    }

    /** POST creates a missing lease: 201 or 409. */
    method Post(renew: u64, body: string) returns (status: u16)
      modifies this
      ensures lease == PostedLease(old(lease), renew, Served)
      ensures received == if old(lease).None? then body else old(received)
      ensures status == if old(lease).None? then 201 else 409
    {
      status := 409;
      if lease.None? {
        status, lease, received := 201, Some(renew), body;
      }
    }
  }

  predicate AnswersMissing(lease: Option<u64>, fate: LeaseFate) {
    fate == Refused(404) || (fate.Served? && lease.None?)
  }

  /** What a tick reads and what becomes of its one or two requests. */
  datatype LeaseTick = LeaseTick(now: u64, later: u64, renewFate: LeaseFate, createFate: LeaseFate)

  datatype LeaseState = LeaseState(view: LeaseView, lease: Option<u64>)

  /** A 404 is followed by one attempt to create the lease anew, with a time of its own. */
  function AfterTick(s: LeaseState, k: LeaseTick): LeaseState {
    if AnswersMissing(s.lease, k.renewFate) then s.(lease := PostedLease(s.lease, k.later, k.createFate))
    else LeaseState(if k.renewFate.Served? then Renewed(s.view) else s.view, PatchedLease(s.lease, k.now, k.renewFate))
  }

  function RunLease(s: LeaseState, ticks: seq<LeaseTick>): LeaseState {
    if ticks == [] then s else AfterTick(RunLease(s, ticks[..|ticks| - 1]), ticks[|ticks| - 1])
  }

  /** A longer name does not fit the 128 bytes of the lease path, and NodeIdentity::new
      stops the firmware. */
  const MAX_NODE_NAME := 65

  lemma LeaseTextLength(nodeName: string, duration: string, renewTime: string)
    ensures |LeaseObjectText(nodeName, duration, renewTime)| == 175 + 2 * |nodeName| + |duration| + |renewTime|
  {
    assert |LEASE_API| == 37 && |LEASE_KIND| == 14 && |LEASE_SPACE| == 29;
  }

  lemma FortyHasTwoDigits()
    ensures |Text.Padded(Config.LEASE_DURATION_SECS, 1)| == 2
  {
  }

  /** NodeIdentity::new accepts a name if its three paths fit their 128 bytes: that of the
      lease is the longest. */
  lemma PathsFitExactly(nodeName: string)
    ensures |nodeName| <= MAX_NODE_NAME
            <==> && |"/apis/coordination.k8s.io/v1/namespaces/kube-node-lease/leases/" + nodeName| <= 128
                 && |"/api/v1/nodes/" + nodeName + "/status"| <= 128 && |"/api/v1/nodes/" + nodeName| <= 128
  {
    assert |"/apis/coordination.k8s.io/v1/namespaces/kube-node-lease/leases/"| == 63;
  }

  /** The body of every name that passed NodeIdentity::new fits its 512 bytes, at every
      64-bit time. */
  lemma LeaseBodyFits(nodeName: string, renew: u64)
    requires |nodeName| <= MAX_NODE_NAME
    ensures |LeaseText(nodeName, renew)| <= 512
  {
    Rfc3339Fits(renew);
    FortyHasTwoDigits();
    LeaseTextLength(nodeName, Text.Padded(Config.LEASE_DURATION_SECS, 1), Rfc3339(renew));
  }

  /** What a server finds in a lease body. */
  datatype LeaseContent = LeaseContent(
    apiVersion: string, kind: string, name: string, namespace: string, holder: string, seconds: string, renewTime: u64)

  function LeaseOfJson(j: Json): Option<LeaseContent> {
    if !j.Obj? then None
    else
      var apiVersion :- StringAt(j.members, "apiVersion");
      var kind :- StringAt(j.members, "kind");
      var metadata :- Lookup(j.members, "metadata");
      var spec :- Lookup(j.members, "spec");
      if !metadata.Obj? || !spec.Obj? then None
      else
        var name :- StringAt(metadata.members, "name");
        var namespace :- StringAt(metadata.members, "namespace");
        var holder :- StringAt(spec.members, "holderIdentity");
        var seconds :- Lookup(spec.members, "leaseDurationSeconds");
        var stamp :- StringAt(spec.members, "renewTime");
        var renewTime :- TimeRead(stamp);
        if seconds.Num? then Some(LeaseContent(apiVersion, kind, name, namespace, holder, seconds.digits, renewTime)) else None
  }

  function LeaseRead(body: string): Option<LeaseContent> {
    var j :- Parse(body);
    LeaseOfJson(j)
  }

  lemma LeaseKeysDiffer()
    ensures "apiVersion" != "kind" && "apiVersion" != "metadata" && "kind" != "metadata"
    ensures "apiVersion" != "spec" && "kind" != "spec" && "metadata" != "spec"
    ensures "holderIdentity" != "leaseDurationSeconds"
    ensures "holderIdentity" != "renewTime" && "leaseDurationSeconds" != "renewTime"
  {
    assert "kind"[0] == 'k' && "spec"[0] == 's';
  }

  /** This node holds its lease in the namespace of node leases for 40 seconds from then on. */
  function HeldBy(nodeName: string, renew: u64): LeaseContent {
    LeaseContent("coordination.k8s.io/v1", "Lease", nodeName, "kube-node-lease", nodeName, "40", renew)
  }

  lemma LeaseJsonReads(nodeName: string, stamp: string, renew: u64)
    requires TimeRead(stamp) == Some(renew)
    ensures LeaseOfJson(LeaseJson(nodeName, "40", stamp)) == Some(HeldBy(nodeName, renew))
  {
    LeaseKeysDiffer();
    var members := LeaseJson(nodeName, "40", stamp).members;
    var objects := members.tail.tail;
    assert Lookup(objects, "metadata") == Some(LeaseMetadata(nodeName));
    assert Lookup(objects, "spec") == Lookup(objects.tail, "spec") == Some(LeaseSpec(nodeName, "40", stamp));
    assert Lookup(members, "metadata") == Lookup(members.tail, "metadata") == Lookup(objects, "metadata");
    assert Lookup(members, "spec") == Lookup(members.tail, "spec") == Lookup(objects, "spec");
    assert Lookup(members, "kind") == Lookup(members.tail, "kind") == Some(Str("Lease"));
    SpecReads(nodeName, stamp);
    MetadataReads(nodeName);
  }

  lemma MetadataReads(nodeName: string)
    ensures var members := LeaseMetadata(nodeName).members;
            StringAt(members, "name") == Some(nodeName) && StringAt(members, "namespace") == Some("kube-node-lease")
  {
    var members := LeaseMetadata(nodeName).members;
    assert "name" != "namespace" && Lookup(members.tail, "namespace") == Some(Str("kube-node-lease"));
  }

  lemma SpecReads(nodeName: string, stamp: string)
    ensures var members := LeaseSpec(nodeName, "40", stamp).members;
            && StringAt(members, "holderIdentity") == Some(nodeName)
            && Lookup(members, "leaseDurationSeconds") == Some(Num("40"))
            && StringAt(members, "renewTime") == Some(stamp)
  {
    LeaseKeysDiffer();
    var members := LeaseSpec(nodeName, "40", stamp).members;
    assert Lookup(members.tail, "leaseDurationSeconds") == Some(Num("40"));
    assert Lookup(members.tail.tail, "renewTime") == Some(Str(stamp));
    assert Lookup(members, "renewTime") == Lookup(members.tail, "renewTime") == Lookup(members.tail.tail, "renewTime");
  }

  /** Up to the year 9999, and for names that need no escape, the body says that this node
      holds the lease for 40 seconds from this time on. */
  predicate Says(body: string, nodeName: string, renew: u64) {
    Text.Plain(nodeName) && renew <= LAST_FOUR_DIGIT_SECOND ==>
      LeaseRead(body) == Some(HeldBy(nodeName, renew))
  }

  lemma LeaseTextSays(nodeName: string, renew: u64)
    ensures Says(LeaseText(nodeName, renew), nodeName, renew)
  {
    if Text.Plain(nodeName) && renew <= LAST_FOUR_DIGIT_SECOND {
      TimeReadsBack(renew);
      LeaseJsonReads(nodeName, Rfc3339(renew), renew);
      LeaseReadsBack(nodeName, renew);
    }
  }

  method BuildBody(nodeName: string, renew: u64) returns (built: bool, text: string)
    requires |nodeName| <= MAX_NODE_NAME
    ensures built && Says(text, nodeName, renew)
  {
    var body := new HString(512);
    LeaseBodyFits(nodeName, renew);
    built := WriteLeaseJson(nodeName, renew, body);
    text := body.text;
    LeaseTextSays(nodeName, renew);
  }

  // ---- The reconciler -------------------------------------------------------------------

  class LeaseReconciler {
    const nodeName: string
    var healthy: bool
    var renewalCount: u32

    predicate Valid() {
      |nodeName| <= MAX_NODE_NAME
    }

    constructor (nodeName: string)
      requires |nodeName| <= MAX_NODE_NAME
      ensures Valid() && !healthy && renewalCount == 0 && this.nodeName == nodeName
    {
      this.nodeName := nodeName;
      healthy, renewalCount := false, 0;
    }

    function View(cells: SharedCells): LeaseView
      reads this, cells
    {
      LeaseView(healthy, renewalCount, cells.renewalCount, cells.ledSignal)
    }

    method RenewLease(renew: u64, fate: LeaseFate, server: LeaseServer) returns (r: Result<LeaseRenewal, ReconcileError>)
      requires Valid() && fate != Refused(200)
      modifies server
      ensures server.lease == PatchedLease(old(server.lease), renew, fate)
      ensures PatchActs(old(server.lease), fate) ==> Says(server.received, nodeName, renew)
      ensures fate.Served? ==> r == Ok(if old(server.lease).Some? then IsRenewed else IsMissing)
      ensures fate.Refused? ==> r == if fate.status == 404 then Ok(IsMissing) else Err(UnexpectedStatus(fate.status))
      ensures fate.Lost? ==> r == Err(Api)
    {
      var built, body := BuildBody(nodeName, renew);
      if !built {
        return Err(BuildJson);
      }
      var status: u16;
      match fate {
        case Lost(reached) =>
          if reached {
            status := server.Patch(renew, body);
          }
          return Err(Api);
        case Refused(s) => status := s;
        case Served => status := server.Patch(renew, body);
      }
      if status == 200 {
        r := Ok(IsRenewed);
      } else if status == 404 {
        r := Ok(IsMissing);
      } else {
        r := Err(UnexpectedStatus(status));
      }
    }

    method CreateLease(renew: u64, fate: LeaseFate, server: LeaseServer) returns (r: Result<(), ReconcileError>)
      requires Valid()
      modifies server
      ensures server.lease == PostedLease(old(server.lease), renew, fate)
      ensures PostActs(old(server.lease), fate) ==> Says(server.received, nodeName, renew)
      ensures fate.Served? ==> r.Ok?
      ensures fate.Refused? ==>
                r == if fate.status == 201 || fate.status == 409 then Ok(()) else Err(UnexpectedStatus(fate.status))
      ensures fate.Lost? ==> r == Err(Api)
    {
      var built, body := BuildBody(nodeName, renew);
      if !built {
        return Err(BuildJson);
      }
      var status: u16;
      match fate {
        case Lost(reached) =>
          if reached {
            status := server.Post(renew, body);
          }
          return Err(Api);
        case Refused(s) => status := s;
        case Served => status := server.Post(renew, body);
      }
      r := if status == 201 || status == 409 then Ok(()) else Err(UnexpectedStatus(status));
    }

    /** reconcile. Only an HTTP 200 touches the counters and the LED. */
    method Reconcile(now: u64, later: u64, renewFate: LeaseFate, createFate: LeaseFate,
                     cells: SharedCells, server: LeaseServer)
      returns (r: Result<(), ReconcileError>)
      requires Valid() && renewFate != Refused(200)
      modifies this, cells, server
      ensures LeaseState(View(cells), server.lease)
           == AfterTick(old(LeaseState(View(cells), server.lease)), LeaseTick(now, later, renewFate, createFate))
      ensures if renewFate.Served? && old(server.lease).Some? then
                && healthy && renewalCount == (old(renewalCount) + 1) % 0x1_0000_0000 == cells.renewalCount
                && cells.ledSignal == Some(if old(healthy) then Activity else Healthy)
              else View(cells) == old(View(cells))
      ensures (if AnswersMissing(old(server.lease), renewFate) then PostActs(old(server.lease), createFate)
               else PatchActs(old(server.lease), renewFate)) ==>
                server.lease.Some? && Says(server.received, nodeName, server.lease.value)
      ensures r.Ok? == if AnswersMissing(old(server.lease), renewFate)
                       then createFate.Served? || createFate == Refused(201) || createFate == Refused(409)
                       else renewFate.Served?
    {
      var renewal := RenewLease(now, renewFate, server);
      if renewal.Err? {
        return Err(renewal.error);
      }
      match renewal.value {
        case IsRenewed =>
          renewalCount := WrapU32(renewalCount + 1);
          cells.renewalCount := renewalCount;
          if !healthy {
            cells.SetLed(Healthy);
            healthy := true;
          } else {
            cells.SetLed(Activity);
          }
          r := Ok(());
        case IsMissing =>
          r := CreateLease(later, createFate, server);
      }
    }
  }
}
