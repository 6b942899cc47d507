/** The change detector's semantics (`checkIPChanges`, first half): the map
    of previously seen sightings, keyed by "interface-address", and the new
    sightings a scan produces against it. The loop that computes them over
    the process-wide map is `Radar.Monitor.CheckIPChanges`; here are the
    functions it is proved against and what they guarantee. */
module Detector {
  import opened Scanner

  type Known = map<string, string>

  /** The observation key `InterfaceName + "-" + IPAddress`. */
  function Key(e: IPInfo): (r: string)
  {
    e.InterfaceName + "-" + e.IPAddress
  }

  /** The keys of a scan. */
  ghost function KeysOf(scan: seq<IPInfo>): (r: set<string>)
  {
    set e | e in scan :: Key(e)
  }

  /** The known map after processing `scan` entry by entry: an absent key is
      added with the entry's Type, a present one is left alone. */
  function Remember(known: Known, scan: seq<IPInfo>): (r: Known)
    decreases |scan|
  {
    if scan == [] then known
    else
      var m := Remember(known, scan[..|scan| - 1]);
      var e := scan[|scan| - 1];
      if Key(e) in m then m else m[Key(e) := e.Type]
  }

  /** The entries the loop appends to `newIPs`: those whose key is absent
      when they are reached. */
  function NewSightings(known: Known, scan: seq<IPInfo>): (r: seq<IPInfo>)
    decreases |scan|
  {
    if scan == [] then []
    else
      var pre := scan[..|scan| - 1];
      var e := scan[|scan| - 1];
      NewSightings(known, pre) + (if Key(e) in Remember(known, pre) then [] else [e])
  }

  /** One step of the detection loop: the entry is reported and recorded
      exactly when its key is absent from the map built so far. */
  lemma DetectStep(known: Known, pre: seq<IPInfo>, e: IPInfo)
    ensures Key(e) in Remember(known, pre) ==>
              Remember(known, pre + [e]) == Remember(known, pre)
              && NewSightings(known, pre + [e]) == NewSightings(known, pre)
    ensures Key(e) !in Remember(known, pre) ==>
              Remember(known, pre + [e]) == Remember(known, pre)[Key(e) := e.Type]
              && NewSightings(known, pre + [e]) == NewSightings(known, pre) + [e]
  {
    assert (pre + [e])[..|pre|] == pre;
  }

  /** Entry `i` of the scan is a first sighting: its key is not known and no
      earlier entry of the scan has the same key. */
  ghost predicate FirstSighting(known: Known, scan: seq<IPInfo>, i: int)
    requires 0 <= i < |scan|
  {
    Key(scan[i]) !in known && forall j :: 0 <= j < i ==> Key(scan[j]) != Key(scan[i])
  }

  /** `r` is `s` with some elements dropped, order kept. */
  ghost predicate IsSubsequence<T>(r: seq<T>, s: seq<T>)
    decreases |s|
  {
    if r == [] then true
    else if s == [] then false
    else if r[|r| - 1] == s[|s| - 1] then IsSubsequence(r[..|r| - 1], s[..|s| - 1])
    else IsSubsequence(r, s[..|s| - 1])
  }

  /** The detector only adds: known keys keep their values, and the keys
      afterwards are the old keys plus every key of the scan. */
  lemma {:induction false} RememberGrows(known: Known, scan: seq<IPInfo>)
    ensures Remember(known, scan).Keys == known.Keys + KeysOf(scan)
    ensures forall k :: k in known ==> Remember(known, scan)[k] == known[k]
    decreases |scan|
  {
    if scan != [] {
      var pre := scan[..|scan| - 1];
      RememberGrows(known, pre);
      assert scan == pre + [scan[|scan| - 1]];
      assert KeysOf(scan) == KeysOf(pre) + {Key(scan[|scan| - 1])};
    }
  }

  /** A key the scan added maps to the Type of the first scan entry with
      that key. */
  lemma {:induction false} RememberNewValue(known: Known, scan: seq<IPInfo>, k: string) returns (i: nat)
    requires k in Remember(known, scan) && k !in known
    ensures i < |scan| && Key(scan[i]) == k && FirstSighting(known, scan, i)
    ensures Remember(known, scan)[k] == scan[i].Type
    decreases |scan|
  {
    var pre := scan[..|scan| - 1];
    var e := scan[|scan| - 1];
    if k in Remember(known, pre) {
      i := RememberNewValue(known, pre, k);
    } else {
      i := |scan| - 1;
      RememberGrows(known, pre);
      forall j | 0 <= j < i ensures Key(scan[j]) != k {
        assert scan[j] == pre[j];
        assert Key(pre[j]) in KeysOf(pre);
      }
    }
  }

  /** A key is known after `pre` exactly when it was known before or some
      entry of `pre` has it. */
  lemma RememberedKey(known: Known, pre: seq<IPInfo>, k: string)
    ensures k in Remember(known, pre) <==> k in known || exists j :: 0 <= j < |pre| && Key(pre[j]) == k
  {
    RememberGrows(known, pre);
    if k in KeysOf(pre) {
      var e :| e in pre && Key(e) == k;
      var j :| 0 <= j < |pre| && pre[j] == e;
    }
  }

  /** The result is exactly the first sightings: an entry is reported if and
      only if it stands in the scan at a position whose key is neither known
      nor taken by an earlier entry. */
  lemma {:induction false} NewSightingsExact(known: Known, scan: seq<IPInfo>, e: IPInfo)
    ensures e in NewSightings(known, scan) <==>
            exists i :: 0 <= i < |scan| && scan[i] == e && FirstSighting(known, scan, i)
    decreases |scan|
  {
    if scan != [] {
      var pre := scan[..|scan| - 1];
      var last := |scan| - 1;
      NewSightingsExact(known, pre, e);
      assert scan == pre + [scan[last]];
      DetectStep(known, pre, scan[last]);
      RememberedKey(known, pre, Key(scan[last]));
      if exists i :: 0 <= i < |scan| && scan[i] == e && FirstSighting(known, scan, i) {
        var i :| 0 <= i < |scan| && scan[i] == e && FirstSighting(known, scan, i);
        if i < last {
          assert pre[i] == e && FirstSighting(known, pre, i);
        }
      }
      if e in NewSightings(known, pre) {
        var i :| 0 <= i < |pre| && pre[i] == e && FirstSighting(known, pre, i);
        assert scan[i] == e && FirstSighting(known, scan, i);
      }
    }
  }

  /** The result lists its entries in scan order. */
  lemma {:induction false} NewSightingsInScanOrder(known: Known, scan: seq<IPInfo>)
    ensures IsSubsequence(NewSightings(known, scan), scan)
    decreases |scan|
  {
    if scan != [] {
      var pre := scan[..|scan| - 1];
      var x := scan[|scan| - 1];
      assert scan == pre + [x];
      NewSightingsInScanOrder(known, pre);
      var r := NewSightings(known, pre);
      if Key(x) !in Remember(known, pre) {
        assert NewSightings(known, scan) == r + [x];
        assert (r + [x])[..|r|] == r;
      } else {
        assert NewSightings(known, scan) == r;
        SubsequenceExtend(r, pre, x);
      }
    }
  }

  /** The first sightings among the first `n` entries of the scan, taken
      index by index in scan order: an independent description of the
      detector's result. */
  ghost function FirstSightingsUpTo(known: Known, scan: seq<IPInfo>, n: nat): (r: seq<IPInfo>)
    requires n <= |scan|
  {
    if n == 0 then []
    else FirstSightingsUpTo(known, scan, n - 1) + (if FirstSighting(known, scan, n - 1) then [scan[n - 1]] else [])
  }

  /** The first sightings among the first `n` entries do not depend on the
      entries after them. */
  lemma {:induction false} FirstSightingsPrefix(known: Known, scan: seq<IPInfo>, m: nat, n: nat)
    requires n <= m <= |scan|
    ensures FirstSightingsUpTo(known, scan[..m], n) == FirstSightingsUpTo(known, scan, n)
    decreases n
  {
    if n > 0 {
      FirstSightingsPrefix(known, scan, m, n - 1);
      assert forall j :: 0 <= j < n ==> scan[..m][j] == scan[j];
      assert FirstSighting(known, scan[..m], n - 1) == FirstSighting(known, scan, n - 1);
    }
  }

  /** The result is exactly the sequence of first sightings in scan order:
      the entry at each position whose key is neither known nor taken by
      an earlier entry, and nothing else, in the order of those positions. */
  lemma {:induction false} NewSightingsAreFirstSightings(known: Known, scan: seq<IPInfo>)
    ensures NewSightings(known, scan) == FirstSightingsUpTo(known, scan, |scan|)
    decreases |scan|
  {
    if scan != [] {
      var last := |scan| - 1;
      var pre := scan[..last];
      NewSightingsAreFirstSightings(known, pre);
      FirstSightingsPrefix(known, scan, last, last);
      var k := Key(scan[last]);
      RememberedKey(known, pre, k);
      if k in Remember(known, pre) {
        if k !in known {
          var j :| 0 <= j < |pre| && Key(pre[j]) == k;
          assert Key(scan[j]) == k;
        }
        assert !FirstSighting(known, scan, last);
      } else {
        forall j | 0 <= j < last ensures Key(scan[j]) != k {
          assert scan[j] == pre[j];
        }
        assert FirstSighting(known, scan, last);
      }
    }
  }

  lemma {:induction false} SubsequenceExtend<T>(r: seq<T>, s: seq<T>, x: T)
    requires IsSubsequence(r, s)
    ensures IsSubsequence(r, s + [x])
    decreases |s|, 1
  {
    assert (s + [x])[..|s|] == s;
    if r != [] && r[|r| - 1] == x {
      SubsequenceDropLast(r, s);
    }
  }

  lemma {:induction false} SubsequenceDropLast<T>(r: seq<T>, s: seq<T>)
    requires r != [] && IsSubsequence(r, s)
    ensures IsSubsequence(r[..|r| - 1], s)
    decreases |s|, 0
  {
    var s' := s[..|s| - 1];
    assert s == s' + [s[|s| - 1]];
    if r[|r| - 1] == s[|s| - 1] {
      SubsequenceExtend(r[..|r| - 1], s', s[|s| - 1]);
    } else {
      SubsequenceDropLast(r, s');
      SubsequenceExtend(r[..|r| - 1], s', s[|s| - 1]);
    }
  }

  /** No two entries of `r` share a key. */
  ghost predicate DistinctKeys(r: seq<IPInfo>)
  {
    forall i, j :: 0 <= i < j < |r| ==> Key(r[i]) != Key(r[j])
  }

  /** No key is reported twice, even when the scan repeats an entry. */
  lemma {:induction false} NewSightingsDistinctKeys(known: Known, scan: seq<IPInfo>)
    ensures DistinctKeys(NewSightings(known, scan))
    ensures forall e :: e in NewSightings(known, scan) ==> Key(e) in Remember(known, scan) && Key(e) !in known
    decreases |scan|
  {
    if scan != [] {
      var pre := scan[..|scan| - 1];
      var x := scan[|scan| - 1];
      var r := NewSightings(known, pre);
      NewSightingsDistinctKeys(known, pre);
      RememberGrows(known, pre);
      RememberGrows(known, scan);
      if Key(x) !in Remember(known, pre) {
        var r' := r + [x];
        assert NewSightings(known, scan) == r';
        forall i, j | 0 <= i < j < |r'| ensures Key(r'[i]) != Key(r'[j]) {
          if j == |r| {
            assert r[i] in r;
          } else {
            assert r'[i] == r[i] && r'[j] == r[j];
          }
        }
      } else {
        assert NewSightings(known, scan) == r;
      }
    }
  }

  /** Every key of the scan is known afterwards; if it was not known before,
      an entry with that key was reported. */
  lemma NewSightingsCoverScan(known: Known, scan: seq<IPInfo>, i: nat)
    requires i < |scan|
    ensures Key(scan[i]) in Remember(known, scan)
    ensures Key(scan[i]) !in known ==> exists e :: e in NewSightings(known, scan) && Key(e) == Key(scan[i])
  {
    RememberGrows(known, scan);
    assert Key(scan[i]) in KeysOf(scan);
    if Key(scan[i]) !in known {
      var k := Key(scan[i]);
      var j := RememberNewValue(known, scan, k);
      NewSightingsExact(known, scan, scan[j]);
    }
  }

  /** Once every key of a scan is known, the scan adds nothing and reports
      nothing. */
  lemma {:induction false} KnownScanIsQuiet(known: Known, scan: seq<IPInfo>)
    requires forall e :: e in scan ==> Key(e) in known
    ensures Remember(known, scan) == known
    ensures NewSightings(known, scan) == []
    decreases |scan|
  {
    if scan != [] {
      var pre := scan[..|scan| - 1];
      assert forall e :: e in pre ==> e in scan;
      KnownScanIsQuiet(known, pre);
      assert scan[|scan| - 1] in scan;
    }
  }

  /** Re-detection is idempotent: running the same scan a second time leaves
      the map as it is and reports nothing. */
  lemma DetectTwiceIsQuiet(known: Known, scan: seq<IPInfo>)
    ensures Remember(Remember(known, scan), scan) == Remember(known, scan)
    ensures NewSightings(Remember(known, scan), scan) == []
  {
    RememberGrows(known, scan);
    forall e | e in scan ensures Key(e) in Remember(known, scan) {
      assert Key(e) in KeysOf(scan);
    }
    KnownScanIsQuiet(Remember(known, scan), scan);
  }

  /** The known map after a series of poll cycles. */
  function AfterCycles(known: Known, scans: seq<seq<IPInfo>>): (r: Known)
    decreases |scans|
  {
    if scans == [] then known
    else Remember(AfterCycles(known, scans[..|scans| - 1]), scans[|scans| - 1])
  }

  /** Every key seen in a series of scans. */
  ghost function KeysOfAll(scans: seq<seq<IPInfo>>): (r: set<string>)
    decreases |scans|
  {
    if scans == [] then {} else KeysOfAll(scans[..|scans| - 1]) + KeysOf(scans[|scans| - 1])
  }

  /** Across poll cycles the known keys are the starting keys plus the keys of
      every scan so far, no value once stored changes, and any scan already
      processed would now be reported as nothing new. */
  lemma {:induction false} CyclesAccumulate(known: Known, scans: seq<seq<IPInfo>>)
    ensures AfterCycles(known, scans).Keys == known.Keys + KeysOfAll(scans)
    ensures forall k :: k in known ==> AfterCycles(known, scans)[k] == known[k]
    ensures forall n :: 0 <= n < |scans| ==> KeysOf(scans[n]) <= AfterCycles(known, scans).Keys
    ensures forall n :: 0 <= n < |scans| ==> NewSightings(AfterCycles(known, scans), scans[n]) == []
    decreases |scans|
  {
    if scans != [] {
      var pre := scans[..|scans| - 1];
      var m := AfterCycles(known, pre);
      CyclesAccumulate(known, pre);
      RememberGrows(m, scans[|scans| - 1]);
      var after := AfterCycles(known, scans);
      forall n | 0 <= n < |scans| ensures NewSightings(after, scans[n]) == [] {
        forall e | e in scans[n] ensures Key(e) in after {
          assert Key(e) in KeysOf(scans[n]);
          if n < |pre| {
            assert scans[n] == pre[n];
          }
        }
        KnownScanIsQuiet(after, scans[n]);
      }
    }
  }

  /** The key identifies the (interface, address) pair as long as address
      texts contain no '-', which holds of every textual IPv4 or IPv6 form. */
  lemma KeyIdentifiesSighting(a: IPInfo, b: IPInfo)
    requires '-' !in a.IPAddress && '-' !in b.IPAddress
    requires Key(a) == Key(b)
    ensures a.InterfaceName == b.InterfaceName && a.IPAddress == b.IPAddress
  {
    var s := Key(a);
    var la, lb := |a.IPAddress|, |b.IPAddress|;
    assert s[|s| - la - 1] == '-';
    assert s[|s| - lb - 1] == '-';
    assert a.IPAddress == s[|s| - la..];
    assert b.IPAddress == s[|s| - lb..];
    assert a.InterfaceName == s[..|s| - la - 1];
    assert b.InterfaceName == s[..|s| - lb - 1];
  }
}
