/** The interface scanner (`getRealIPs`): walks the host's interfaces, drops
    loopback, point-to-point, down, virtual and unrecognised adapters, drops
    addresses that are not public unicast, and labels the rest IPv4 or IPv6.

    The operating system's interface list and Go's `net.IP` predicates are
    inputs: an interface carries its name, its flag word and either its
    address list or the error listing them produced; an address carries the
    answers the `net.IP` library gives for it. */
module Scanner {
  import opened Wrappers
  import opened Text
  import opened Seqs

  // The bits of Go's `net.Flags` the scanner tests.
  const FlagUp: bv64 := 1
  const FlagLoopback: bv64 := 4
  const FlagPointToPoint: bv64 := 8

  /** A non-nil `net.IP`, described by what the library answers about it:
      `IsGlobalUnicast`, `IsLoopback`, `IsLinkLocalUnicast`, whether `To4`
      is non-nil, and `String`. */
  datatype IP = IP(globalUnicast: bool, loopback: bool, linkLocalUnicast: bool,
                   to4: bool, text: string)

  /** A `net.Addr` as returned by `Addrs`: the two concrete types the type
      switch recognises, with a possibly nil IP, and any other type. */
  datatype Addr = IPNet(ip: Option<IP>) | IPAddr(ip: Option<IP>) | OtherAddr

  /** A `net.Interface` together with the outcome of its `Addrs` call. */
  datatype Interface = Interface(name: string, flags: bv64, addrs: Result<seq<Addr>, string>)

  /** One observed address: the record `IPInfo`. */
  datatype IPInfo = IPInfo(InterfaceName: string, IPAddress: string, Type: string)

  /** The IP the type switch extracts; nil for an address of another type. */
  function AddrIP(a: Addr): (r: Option<IP>)
  {
    match a
    case IPNet(ip) => ip
    case IPAddr(ip) => ip
    case OtherAddr => None
  }

  /** The flag test: not loopback, not point-to-point, and up. */
  predicate FlagsAdmit(flags: bv64)
  {
    flags & FlagLoopback == 0 && flags & FlagPointToPoint == 0 && flags & FlagUp != 0
  }

  /** The deny-list of virtual adapters, on the lower-cased name. */
  predicate IsVirtualName(name: string)
  {
    var low := Lower(name);
    Contains(low, "vmware") || Contains(low, "virtual") || Contains(low, "vbox")
  }

  /** The allow-list of wired and wireless adapters, on the lower-cased name. */
  predicate IsRealName(name: string)
  {
    var low := Lower(name);
    Contains(low, "eth") || Contains(low, "en") || Contains(low, "wlan")
      || Contains(low, "wi-fi") || Contains(low, "wireless")
  }

  /** An interface is scanned when its flags pass, its name is not on the
      deny-list and is on the allow-list. */
  predicate InterfaceAdmits(iface: Interface)
  {
    FlagsAdmit(iface.flags) && !IsVirtualName(iface.name) && IsRealName(iface.name)
  }

  /** The address test: global unicast, not loopback, not link-local, and no
      IPv6 text starting with "fe80:". */
  predicate AddressAdmits(ip: IP)
  {
    ip.globalUnicast && !ip.loopback && !ip.linkLocalUnicast
      && !(!ip.to4 && HasPrefix(ip.text, "fe80:"))
  }

  /** The family label: "IPv4" exactly when the IP has a 4-byte form,
      "IPv6" exactly when it has none. */
  function Label(ip: IP): (r: string)
    ensures r == "IPv4" <==> ip.to4
    ensures r == "IPv6" <==> !ip.to4
  {
    if ip.to4 then "IPv4" else "IPv6"
  }

  /** The entries one address list yields, in list order. */
  function AddrEntries(name: string, addrs: seq<Addr>): (r: seq<IPInfo>)
    decreases |addrs|
  {
    if addrs == [] then []
    else
      var rest := AddrEntries(name, addrs[..|addrs| - 1]);
      var ip := AddrIP(addrs[|addrs| - 1]);
      if ip.Some? && AddressAdmits(ip.value)
      then rest + [IPInfo(name, ip.value.text, Label(ip.value))]
      else rest
  }

  /** The entries one interface contributes. */
  function InterfaceEntries(iface: Interface): (r: seq<IPInfo>)
  {
    if InterfaceAdmits(iface) && iface.addrs.Success?
    then AddrEntries(iface.name, iface.addrs.value)
    else []
  }

  /** The entries a list of interfaces yields, in interface order. */
  function ScanEntries(ifaces: seq<Interface>): (r: seq<IPInfo>)
  {
    FlatMap(InterfaceEntries, ifaces)
  }

  /** The whole scan: nothing when the interface list cannot be read. */
  function Scan(enumeration: Result<seq<Interface>, string>): (r: seq<IPInfo>)
  {
    if enumeration.Failure? then [] else ScanEntries(enumeration.value)
  }

  /** `getRealIPs`: the nested loops over interfaces and addresses, with the
      filters as `continue`s, compute exactly `Scan`. */
  method GetRealIPs(enumeration: Result<seq<Interface>, string>) returns (ips: seq<IPInfo>)
    ensures ips == Scan(enumeration)
  {
    ips := [];
    if enumeration.Failure? {
      return;
    }
    var interfaces := enumeration.value;
    var i := 0;
    while i < |interfaces|
      invariant 0 <= i <= |interfaces|
      invariant ips == ScanEntries(interfaces[..i])
    {
      var iface := interfaces[i];
      assert interfaces[..i + 1][..i] == interfaces[..i];
      i := i + 1;
      if iface.flags & FlagLoopback != 0
        || iface.flags & FlagPointToPoint != 0
        || iface.flags & FlagUp == 0
      {
        continue;
      }
      var low := Lower(iface.name);
      if Contains(low, "vmware") || Contains(low, "virtual") || Contains(low, "vbox") {
        continue;
      }
      var isRealInterface := Contains(low, "eth") || Contains(low, "en")
        || Contains(low, "wlan") || Contains(low, "wi-fi") || Contains(low, "wireless");
      if !isRealInterface {
        continue;
      }
      if iface.addrs.Failure? {
        continue;
      }
      var addrs := iface.addrs.value;
      ghost var before := ips;
      var j := 0;
      while j < |addrs|
        invariant 0 <= j <= |addrs|
        invariant ips == before + AddrEntries(iface.name, addrs[..j])
      {
        var addr := addrs[j];
        assert addrs[..j + 1][..j] == addrs[..j];
        j := j + 1;
        var ip := AddrIP(addr);
        if ip.None? || !ip.value.globalUnicast || ip.value.loopback || ip.value.linkLocalUnicast {
          continue;
        }
        if !ip.value.to4 && HasPrefix(ip.value.text, "fe80:") {
          continue;
        }
        var ipType := "IPv4";
        if !ip.value.to4 {
          ipType := "IPv6";
        }
        ips := ips + [IPInfo(iface.name, ip.value.text, ipType)];
      }
      assert addrs[..j] == addrs;
    }
    assert interfaces[..i] == interfaces;
  }

  /** Scanning two lists one after the other is scanning their concatenation:
      the output keeps interface order. */
  lemma ScanEntriesAppend(a: seq<Interface>, b: seq<Interface>)
    ensures ScanEntries(a + b) == ScanEntries(a) + ScanEntries(b)
  {
    FlatMapAppend(InterfaceEntries, a, b);
  }

  /** Within an interface, the output keeps address order. */
  lemma {:induction false} AddrEntriesAppend(name: string, a: seq<Addr>, b: seq<Addr>)
    ensures AddrEntries(name, a + b) == AddrEntries(name, a) + AddrEntries(name, b)
    decreases |b|
  {
    if b == [] {
      assert a + b == a;
    } else {
      var b' := b[..|b| - 1];
      assert (a + b)[..|a + b| - 1] == a + b';
      AddrEntriesAppend(name, a, b');
    }
  }

  /** An interface that is loopback, point-to-point, down, virtual, not on
      the allow-list, or whose addresses cannot be listed contributes
      nothing: removing it leaves the scan unchanged, and the scan goes on
      with the interfaces after it. */
  lemma ExcludedInterfaceContributesNothing(a: seq<Interface>, iface: Interface, b: seq<Interface>)
    requires !FlagsAdmit(iface.flags) || IsVirtualName(iface.name) || !IsRealName(iface.name)
             || iface.addrs.Failure?
    ensures ScanEntries(a + [iface] + b) == ScanEntries(a) + ScanEntries(b)
  {
    ScanEntriesAppend(a + [iface], b);
    ScanEntriesAppend(a, [iface]);
    assert [iface][..0] == [];
  }

  /** Soundness of the scan: every emitted entry comes from an interface
      whose flags and name pass, through an address whose IP is non-nil,
      global unicast, not loopback, not link-local and not textual "fe80:"
      IPv6; the entry is labelled "IPv4" exactly when the IP has a 4-byte
      form, and "IPv6" otherwise. */
  lemma {:induction false} ScanSound(ifaces: seq<Interface>, e: IPInfo) returns (i: nat, j: nat, ip: IP)
    requires e in ScanEntries(ifaces)
    ensures i < |ifaces| && FlagsAdmit(ifaces[i].flags)
    ensures !IsVirtualName(ifaces[i].name) && IsRealName(ifaces[i].name)
    ensures ifaces[i].addrs.Success? && j < |ifaces[i].addrs.value|
    ensures AddrIP(ifaces[i].addrs.value[j]) == Some(ip)
    ensures ip.globalUnicast && !ip.loopback && !ip.linkLocalUnicast
    ensures !(!ip.to4 && HasPrefix(ip.text, "fe80:"))
    ensures e.InterfaceName == ifaces[i].name && e.IPAddress == ip.text
    ensures e.Type == "IPv4" <==> ip.to4
    ensures e.Type == "IPv6" <==> !ip.to4
    decreases |ifaces|
  {
    var pre := ifaces[..|ifaces| - 1];
    if e in ScanEntries(pre) {
      i, j, ip := ScanSound(pre, e);
    } else {
      i := |ifaces| - 1;
      j, ip := AddrSound(ifaces[i].name, ifaces[i].addrs.value, e);
    }
  }

  lemma {:induction false} AddrSound(name: string, addrs: seq<Addr>, e: IPInfo) returns (j: nat, ip: IP)
    requires e in AddrEntries(name, addrs)
    ensures j < |addrs| && AddrIP(addrs[j]) == Some(ip) && AddressAdmits(ip)
    ensures e == IPInfo(name, ip.text, Label(ip))
    decreases |addrs|
  {
    var pre := addrs[..|addrs| - 1];
    if e in AddrEntries(name, pre) {
      j, ip := AddrSound(name, pre, e);
    } else {
      j := |addrs| - 1;
      ip := AddrIP(addrs[j]).value;
    }
  }

  /** Completeness of the scan: an address passing every test, on an
      interface passing every test, is emitted, with its interface's name,
      its text and its family label, after the entries of the earlier
      interfaces and earlier addresses and before those of the later ones. */
  lemma ScanComplete(ifaces: seq<Interface>, i: nat, j: nat)
    requires i < |ifaces| && InterfaceAdmits(ifaces[i]) && ifaces[i].addrs.Success?
    requires j < |ifaces[i].addrs.value|
    requires AddrIP(ifaces[i].addrs.value[j]).Some?
    requires AddressAdmits(AddrIP(ifaces[i].addrs.value[j]).value)
    ensures var ip := AddrIP(ifaces[i].addrs.value[j]).value;
            var addrs := ifaces[i].addrs.value;
            ScanEntries(ifaces)
            == ScanEntries(ifaces[..i]) + AddrEntries(ifaces[i].name, addrs[..j])
               + [IPInfo(ifaces[i].name, ip.text, if ip.to4 then "IPv4" else "IPv6")]
               + AddrEntries(ifaces[i].name, addrs[j + 1..]) + ScanEntries(ifaces[i + 1..])
  {
    var addrs := ifaces[i].addrs.value;
    AddrEntriesAppend(ifaces[i].name, addrs[..j + 1], addrs[j + 1..]);
    assert addrs[..j + 1] + addrs[j + 1..] == addrs;
    assert addrs[..j + 1][..j] == addrs[..j];
    ScanEntriesAppend(ifaces[..i + 1], ifaces[i + 1..]);
    assert ifaces[..i + 1] + ifaces[i + 1..] == ifaces;
    assert ifaces[..i + 1][..i] == ifaces[..i];
  }

  /** A failed interface enumeration yields an empty scan; nothing is raised. */
  lemma EnumerationFailureIsEmpty(err: string)
    ensures Scan(Failure(err)) == []
  {
  }

  /** Name filtering is case-insensitive: a name and its lower-cased form are
      admitted alike. */
  lemma NameFilterIgnoresCase(name: string)
    ensures IsVirtualName(name) == IsVirtualName(Lower(name))
    ensures IsRealName(name) == IsRealName(Lower(name))
  {
    LowerIdempotent(name);
  }
}
