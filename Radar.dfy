/** The poll cycle (`checkIPChanges`) and the poll loop (`main`) over the
    process-wide map of previously seen sightings. */
module Radar {
  import opened Wrappers
  import opened Scanner
  import opened Detector
  import opened Notifier

  /** What one notification did: the body it carried, how many delivery
      attempts it made, how many pauses it took, and whether it got through. */
  datatype Notice = Notice(body: string, attempts: nat, pauses: nat, delivered: bool)

  /** The inputs of one poll cycle: the interface enumeration, the clock
      reading used for the timestamp, and the outcomes the mail transport
      would give to successive attempts. */
  datatype Cycle = Cycle(enumeration: Result<seq<Interface>, string>, detectedAt: string,
                         transport: seq<bool>)

  /** The scans a series of cycles produces. */
  function Scans(cycles: seq<Cycle>): (r: seq<seq<IPInfo>>)
    decreases |cycles|
  {
    if cycles == [] then []
    else Scans(cycles[..|cycles| - 1]) + [Scan(cycles[|cycles| - 1].enumeration)]
  }

  /** How many of a series of scans produce a notification. */
  function NotifiedCycles(known: Known, scans: seq<seq<IPInfo>>): (r: nat)
    decreases |scans|
  {
    if scans == [] then 0
    else
      var pre := scans[..|scans| - 1];
      NotifiedCycles(known, pre)
        + (if NewSightings(AfterCycles(known, pre), scans[|scans| - 1]) != [] then 1 else 0)
  }

  /** What a notice about `newIPs` carries: the body lists the sightings
      then the timestamp, and delivery follows the retry policy of
      `Deliver` — stop at the first success, at most MaxRetries attempts,
      all of them when none succeeds, a pause between attempts. */
  predicate SentPerPolicy(n: Notice, newIPs: seq<IPInfo>, detectedAt: string, transport: seq<bool>)
  {
    && n.body == ItemsHtml(newIPs) + TimestampHtml(detectedAt)
    && 1 <= n.attempts <= MaxRetries
    && n.pauses == n.attempts - 1
    && n.delivered == Succeeds(transport, n.attempts - 1)
    && (forall i :: 0 <= i < n.attempts - 1 ==> !Succeeds(transport, i))
    && (!n.delivered ==> n.attempts == MaxRetries)
    && (n.delivered <==> SomeAttemptSucceeds(transport, MaxRetries))
  }

  /** The notification gate: a notice is sent exactly when there are new
      sightings, and then it follows the body layout and the retry policy. */
  method NotifyIfNew(newIPs: seq<IPInfo>, detectedAt: string, transport: seq<bool>)
    returns (notice: Option<Notice>)
    ensures notice.Some? <==> newIPs != []
    ensures notice.Some? ==> SentPerPolicy(notice.value, newIPs, detectedAt, transport)
  {
    notice := None;
    if |newIPs| > 0 {
      var body, attempts, pauses, delivered := SendEmailNotification(newIPs, detectedAt, transport);
      notice := Some(Notice(body, attempts, pauses, delivered));
    }
  }

  class Monitor {
    /** `previousIPs`: observation key to Type, for every sighting so far. */
    var previousIPs: map<string, string>

    /** At process start nothing has been seen. */
    constructor ()
      ensures previousIPs == map[]
    {
      previousIPs := map[];
    }

    /** One poll cycle: scan, record every unseen key in scan order, and send
        one notification listing the new sightings exactly when there are
        any. */
    method CheckIPChanges(enumeration: Result<seq<Interface>, string>, detectedAt: string,
                          transport: seq<bool>)
      returns (newIPs: seq<IPInfo>, notice: Option<Notice>)
      modifies this
      ensures newIPs == NewSightings(old(previousIPs), Scan(enumeration))
      ensures previousIPs == Remember(old(previousIPs), Scan(enumeration))
      ensures notice.Some? <==> newIPs != []
      ensures notice.Some? ==> SentPerPolicy(notice.value, newIPs, detectedAt, transport)
    {
      var currentIPs := GetRealIPs(enumeration);
      newIPs := [];
      var i := 0;
      while i < |currentIPs|
        invariant 0 <= i <= |currentIPs|
        invariant newIPs == NewSightings(old(previousIPs), currentIPs[..i])
        invariant previousIPs == Remember(old(previousIPs), currentIPs[..i])
      {
        var ipInfo := currentIPs[i];
        assert currentIPs[..i + 1] == currentIPs[..i] + [ipInfo];
        DetectStep(old(previousIPs), currentIPs[..i], ipInfo);
        var key := ipInfo.InterfaceName + "-" + ipInfo.IPAddress;
        assert key == Key(ipInfo);
        if key !in previousIPs {
          newIPs := newIPs + [ipInfo];
          previousIPs := previousIPs[key := ipInfo.Type];
        }
        i := i + 1;
      }
      assert currentIPs[..i] == currentIPs;
      notice := NotifyIfNew(newIPs, detectedAt, transport);
    }

    /** One iteration of the poll loop: a `CheckIPChanges` call, reporting
        whether it sent a notice. */
    method RunCycle(c: Cycle) returns (notified: bool)
      modifies this
      ensures previousIPs == Remember(old(previousIPs), Scan(c.enumeration))
      ensures notified <==> NewSightings(old(previousIPs), Scan(c.enumeration)) != []
    {
      var newIPs, notice := CheckIPChanges(c.enumeration, c.detectedAt, c.transport);
      notified := notice.Some?;
    }

    /** The poll loop cut to a finite run: the initial check, then a pause
        before each further check. */
    method Poll(cycles: seq<Cycle>) returns (notices: nat, sleeps: nat)
      modifies this
      ensures previousIPs == AfterCycles(old(previousIPs), Scans(cycles))
      ensures notices == NotifiedCycles(old(previousIPs), Scans(cycles))
      ensures sleeps == if cycles == [] then 0 else |cycles| - 1
    {
      notices, sleeps := 0, 0;
      var k := 0;
      while k < |cycles|
        invariant 0 <= k <= |cycles|
        invariant previousIPs == AfterCycles(old(previousIPs), Scans(cycles[..k]))
        invariant notices == NotifiedCycles(old(previousIPs), Scans(cycles[..k]))
        invariant sleeps == if k == 0 then 0 else k - 1
      {
        if k > 0 {
          sleeps := sleeps + 1;
        }
        var c := cycles[k];
        assert cycles[..k + 1][..k] == cycles[..k];
        ghost var known := old(previousIPs);
        ghost var pre := Scans(cycles[..k]);
        ghost var scan := Scan(c.enumeration);
        assert Scans(cycles[..k + 1]) == pre + [scan];
        CycleStep(known, pre, scan);
        var notified := RunCycle(c);
        if notified {
          notices := notices + 1;
        }
        k := k + 1;
      }
      assert cycles[..k] == cycles;
    }
  }

  /** One more cycle: the map is updated by its scan, and the count of
      notices grows by one exactly when that scan has new sightings. */
  lemma CycleStep(known: Known, pre: seq<seq<IPInfo>>, scan: seq<IPInfo>)
    ensures AfterCycles(known, pre + [scan]) == Remember(AfterCycles(known, pre), scan)
    ensures NotifiedCycles(known, pre + [scan])
            == NotifiedCycles(known, pre) + (if NewSightings(AfterCycles(known, pre), scan) != [] then 1 else 0)
  {
    assert (pre + [scan])[..|pre|] == pre;
  }

  /** A cycle whose scan was already seen in an earlier cycle changes nothing
      and sends nothing. */
  lemma RepeatedScanIsSilent(known: Known, scans: seq<seq<IPInfo>>, n: nat)
    requires n < |scans|
    ensures AfterCycles(known, scans + [scans[n]]) == AfterCycles(known, scans)
    ensures NotifiedCycles(known, scans + [scans[n]]) == NotifiedCycles(known, scans)
  {
    var all := scans + [scans[n]];
    assert all[..|all| - 1] == scans;
    CyclesAccumulate(known, scans);
    forall e | e in scans[n] ensures Key(e) in AfterCycles(known, scans) {
      assert Key(e) in KeysOf(scans[n]);
    }
    KnownScanIsQuiet(AfterCycles(known, scans), scans[n]);
  }

  /** The three-cycle scenario: a first sighting is reported; the same scan
      again reports nothing; a scan adding an IPv6 address reports only
      that address. */
  lemma ThreeCycleScenario()
    ensures var v4 := IPInfo("eth0", "203.0.113.5", "IPv4");
            var v6 := IPInfo("eth0", "2001:db8::1", "IPv6");
            && NewSightings(map[], [v4]) == [v4]
            && NewSightings(AfterCycles(map[], [[v4]]), [v4]) == []
            && NewSightings(AfterCycles(map[], [[v4], [v4]]), [v4, v6]) == [v6]
            && NotifiedCycles(map[], [[v4], [v4], [v4, v6]]) == 2
  {
    var v4 := IPInfo("eth0", "203.0.113.5", "IPv4");
    var v6 := IPInfo("eth0", "2001:db8::1", "IPv6");
    var k1 := Remember(map[], [v4]);
    assert [v4][..0] == [];
    assert Remember(map[], []) == map[];
    assert k1 == map[][Key(v4) := "IPv4"];
    assert AfterCycles(map[], [[v4]]) == k1 by {
      assert [[v4]][..0] == [];
    }
    assert NewSightings(map[], [v4]) == [v4];
    assert NewSightings(k1, [v4]) == [];
    assert Remember(k1, [v4]) == k1;
    assert AfterCycles(map[], [[v4], [v4]]) == k1 by {
      assert [[v4], [v4]][..1] == [[v4]];
    }
    assert Key(v6) != Key(v4) by {
      assert Key(v6)[7] != Key(v4)[7];
    }
    assert [v4, v6][..1] == [v4];
    assert NewSightings(k1, [v4, v6]) == [v6];
    assert [[v4], [v4], [v4, v6]][..2] == [[v4], [v4]];
    assert [[v4], [v4]][..1] == [[v4]];
    assert NotifiedCycles(map[], [[v4]]) == 1;
    assert NotifiedCycles(map[], [[v4], [v4]]) == 1;
  }
}
