/** src/net/wifi.rs: the two atomics that connection_task updates. */
module Wifi {
  import opened Wrappers
  import opened MachineInts

  /** A hardware address, first octet first. */
  datatype Bssid = Bssid(b0: u8, b1: u8, b2: u8, b3: u8, b4: u8, b5: u8)

  /** The shifted octets do not overlap, so the ors are sums. */
  function BssidToU64(b: Bssid): u64 {
    b.b0 * 0x100_0000_0000 + b.b1 * 0x1_0000_0000 + b.b2 * 0x100_0000 + b.b3 * 0x1_0000 + b.b4 * 0x100 + b.b5
  }

  /** The address is read in network order: shifting its number right by five octets leaves the
      first one, and so on. */
  lemma OctetsInOrder(b: Bssid)
    ensures var n := BssidToU64(b);
            && n / 0x100_0000_0000 == b.b0 && n / 0x1_0000_0000 % 0x100 == b.b1 && n / 0x100_0000 % 0x100 == b.b2
            && n / 0x1_0000 % 0x100 == b.b3 && n / 0x100 % 0x100 == b.b4 && n % 0x100 == b.b5
  {
    var n1 := b.b0 * 0x100 + b.b1;
    var n2 := n1 * 0x100 + b.b2;
    var n3 := n2 * 0x100 + b.b3;
    var n4 := n3 * 0x100 + b.b4;
    var n := BssidToU64(b);
    assert n == n4 * 0x100 + b.b5;
    assert n / 0x100 == n4 && n / 0x1_0000 == n3 && n / 0x100_0000 == n2 && n / 0x1_0000_0000 == n1;
  }

  /** Different access points stay different, 48 bits are enough, and the sentinel
      "never associated" is the all-zero address and no other. */
  lemma BssidsStayDistinct(a: Bssid, b: Bssid)
    ensures BssidToU64(a) == BssidToU64(b) <==> a == b
    ensures BssidToU64(a) < 0x1_0000_0000_0000
    ensures BssidToU64(a) == 0 <==> a == Bssid(0, 0, 0, 0, 0, 0)
  {
    if BssidToU64(a) == BssidToU64(b) {
      OctetsDecide(a, b);
    }
    if BssidToU64(a) == 0 {
      OctetsDecide(a, Bssid(0, 0, 0, 0, 0, 0));
    }
  }

  lemma LastOctet(x: int, o: u8, y: int, p: u8)
    requires x * 0x100 + o == y * 0x100 + p
    ensures x == y && o == p
  {
  }

  lemma OctetsDecide(a: Bssid, b: Bssid)
    requires BssidToU64(a) == BssidToU64(b)
    ensures a == b
  {
    var a1, b1 := a.b0 * 0x100 + a.b1, b.b0 * 0x100 + b.b1;
    var a2, b2 := a1 * 0x100 + a.b2, b1 * 0x100 + b.b2;
    var a3, b3 := a2 * 0x100 + a.b3, b2 * 0x100 + b.b3;
    var a4, b4 := a3 * 0x100 + a.b4, b3 * 0x100 + b.b4;
    LastOctet(a4, a.b5, b4, b.b5);
    LastOctet(a3, a.b4, b3, b.b4);
    LastOctet(a2, a.b3, b2, b.b3);
    LastOctet(a1, a.b2, b1, b.b2);
    LastOctet(a.b0, a.b1, b.b0, b.b1);
  }

  // ---- Associations -------------------------------------------------------------------

  /** What the two atomics hold. */
  datatype WifiView = WifiView(assocTotal: u32, bssid: u64)

  /** A successful connect. */
  function Associated(v: WifiView, ap: Bssid): WifiView {
    WifiView(WrapU32(v.assocTotal + 1), BssidToU64(ap))
  }

  /** The access points of the successful attempts, in order. */
  function Successes(attempts: seq<Option<Bssid>>): seq<Bssid> {
    if attempts == [] then []
    else
      var last := attempts[|attempts| - 1];
      Successes(attempts[..|attempts| - 1]) + (if last.Some? then [last.value] else [])
  }

  lemma WrapNext(total: u32, n: nat)
    ensures WrapU32((total + n) % 0x1_0000_0000 + 1) == (total + (n + 1)) % 0x1_0000_0000
  {
  }

  class WifiCells {
    var bssid: u64
    var associationsTotal: u32

    constructor ()
      ensures View() == WifiView(0, 0)
    {
      bssid, associationsTotal := 0, 0;
    }

    function View(): WifiView
      reads this
    {
      WifiView(associationsTotal, bssid)
    }

    /** The Ok arm of one turn. */
    method Associate(ap: Bssid)
      modifies this
      ensures View() == Associated(old(View()), ap)
    {
      bssid := BssidToU64(ap);
      associationsTotal := WrapU32(associationsTotal + 1);
    }

    /** connection_task up to any moment: it tries to connect over and over, and a failed
        attempt leaves no trace. The counter has counted the successes modulo 2^32, and the
        BSSID is the last one's. */
    method ConnectionTask(attempts: seq<Option<Bssid>>)
      modifies this
      ensures var aps := Successes(attempts);
              && associationsTotal == (old(associationsTotal) + |aps|) % 0x1_0000_0000
              && bssid == if aps == [] then old(bssid) else BssidToU64(aps[|aps| - 1])
    {
      for i := 0 to |attempts|
        invariant var aps := Successes(attempts[..i]);
                  && associationsTotal == (old(associationsTotal) + |aps|) % 0x1_0000_0000
                  && bssid == if aps == [] then old(bssid) else BssidToU64(aps[|aps| - 1])
      {
        assert attempts[..i + 1][..i] == attempts[..i];
        WrapNext(old(associationsTotal), |Successes(attempts[..i])|);
        if attempts[i].Some? {
          Associate(attempts[i].value);
        }
      }
      assert attempts[..|attempts|] == attempts;
    }
  }
}
