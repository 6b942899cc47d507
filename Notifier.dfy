/** The notifier (`sendEmailNotification`): the per-sighting HTML the body
    lists, the timestamp line, and the bounded retry of the mail transport.
    The transport is an input: the outcome (delivered or not) each attempt
    would have. Pauses are counted instead of slept. */
module Notifier {
  import opened Text
  import opened Scanner
  import opened Seqs

  /** `maxRetries`: the total number of delivery attempts. */
  const MaxRetries: nat := 3

  /** The extra class the type span gets: " ipv4" for IPv4 only. */
  function TypeClassSuffix(t: string): (r: string)
  {
    if t == "IPv4" then " ipv4" else ""
  }

  /** The builder after writing the opening of a sighting's block, up to and
      including its address. */
  function WriteAddress(html: string, address: string): (r: string)
  {
    html + "<div class=\"ip-item\">" + "<div class=\"ip-address\">" + address
  }

  /** The builder after writing the type span, which closes the address line. */
  function WriteTypeSpan(html: string, t: string): (r: string)
  {
    html + "<span class=\"ip-type" + TypeClassSuffix(t) + "\">" + t + "</span>" + "</div>"
  }

  /** The builder after writing the interface line, which closes the block. */
  function WriteInterface(html: string, name: string): (r: string)
  {
    html + "<div class=\"interface-name\">Interface: " + name + "</div>" + "</div>"
  }

  /** The builder after writing one sighting. */
  function WriteItem(html: string, e: IPInfo): (r: string)
  {
    WriteInterface(WriteTypeSpan(WriteAddress(html, e.IPAddress), e.Type), e.InterfaceName)
  }

  /** The HTML one sighting contributes. */
  function ItemHtml(e: IPInfo): (r: string)
  {
    WriteItem("", e)
  }

  /** Writing a sighting appends its HTML to what the builder holds. */
  lemma WriteItemAppends(html: string, e: IPInfo)
    ensures WriteItem(html, e) == html + ItemHtml(e)
  {
    var a := WriteAddress("", e.IPAddress);
    var t := WriteTypeSpan("", e.Type);
    var n := WriteInterface("", e.InterfaceName);
    WriteAddressAppends(html, e.IPAddress);
    WriteTypeSpanAppends(html + a, e.Type);
    WriteInterfaceAppends(html + a + t, e.InterfaceName);
    WriteTypeSpanAppends(a, e.Type);
    WriteInterfaceAppends(a + t, e.InterfaceName);
    Regroup4(html, a, t, n);
  }

  lemma WriteAddressAppends(html: string, address: string)
    ensures WriteAddress(html, address) == html + WriteAddress("", address)
  {
    Regroup3(html, "<div class=\"ip-item\">", "<div class=\"ip-address\">", address);
  }

  lemma WriteTypeSpanAppends(html: string, t: string)
    ensures WriteTypeSpan(html, t) == html + WriteTypeSpan("", t)
  {
    Regroup6(html, "<span class=\"ip-type", TypeClassSuffix(t), "\">", t, "</span>", "</div>");
  }

  lemma WriteInterfaceAppends(html: string, name: string)
    ensures WriteInterface(html, name) == html + WriteInterface("", name)
  {
    Regroup3(html, "<div class=\"interface-name\">Interface: ", name, "</div>" + "</div>");
    assert html + "<div class=\"interface-name\">Interface: " + name + "</div>" + "</div>"
        == html + "<div class=\"interface-name\">Interface: " + name + ("</div>" + "</div>");
  }

  /** The HTML of all sightings, in list order. */
  function ItemsHtml(items: seq<IPInfo>): (r: string)
  {
    FlatMap(ItemHtml, items)
  }

  /** The timestamp line; the time text is an input. */
  function TimestampHtml(detectedAt: string): (r: string)
  {
    "<div class=\"timestamp\">Detected at: " + detectedAt + "</div>"
  }

  /** The item-rendering loop: writes each sighting's pieces in turn and
      ends with exactly the HTML of all sightings. */
  method RenderItems(newIPs: seq<IPInfo>) returns (html: string)
    ensures html == ItemsHtml(newIPs)
  {
    html := "";
    var i := 0;
    while i < |newIPs|
      invariant 0 <= i <= |newIPs|
      invariant html == ItemsHtml(newIPs[..i])
    {
      var ipInfo := newIPs[i];
      ghost var before := html;
      html := html + "<div class=\"ip-item\">";
      html := html + "<div class=\"ip-address\">";
      html := html + ipInfo.IPAddress;
      assert html == WriteAddress(before, ipInfo.IPAddress);
      ghost var address := html;
      var ipTypeClass := "";
      if ipInfo.Type == "IPv4" {
        ipTypeClass := " ipv4";
      }
      html := html + "<span class=\"ip-type";
      html := html + ipTypeClass;
      html := html + "\">";
      html := html + ipInfo.Type;
      html := html + "</span>";
      html := html + "</div>";
      assert html == WriteTypeSpan(address, ipInfo.Type);
      ghost var span := html;
      html := html + "<div class=\"interface-name\">Interface: ";
      html := html + ipInfo.InterfaceName;
      html := html + "</div>";
      html := html + "</div>";
      assert html == WriteInterface(span, ipInfo.InterfaceName);
      WriteItemAppends(before, ipInfo);
      assert newIPs[..i + 1] == newIPs[..i] + [ipInfo];
      FlatMapAppend(ItemHtml, newIPs[..i], [ipInfo]);
      assert [ipInfo][..0] == [];
      i := i + 1;
    }
    assert newIPs[..i] == newIPs;
  }

  /** The body the model keeps: the sightings followed by the timestamp. */
  method RenderBody(newIPs: seq<IPInfo>, detectedAt: string) returns (body: string)
    ensures body == ItemsHtml(newIPs) + TimestampHtml(detectedAt)
  {
    body := RenderItems(newIPs);
    body := body + "<div class=\"timestamp\">Detected at: ";
    body := body + detectedAt;
    body := body + "</div>";
  }

  /** The body lists every sighting, each in its place: the items before it,
      then its own HTML, then the items after it. */
  lemma ItemsInOrder(items: seq<IPInfo>, i: nat)
    requires i < |items|
    ensures ItemsHtml(items) == ItemsHtml(items[..i]) + ItemHtml(items[i]) + ItemsHtml(items[i + 1..])
  {
    assert items == items[..i] + [items[i]] + items[i + 1..];
    FlatMapAppend(ItemHtml, items[..i] + [items[i]], items[i + 1..]);
    FlatMapAppend(ItemHtml, items[..i], [items[i]]);
    assert [items[i]][..0] == [];
  }

  /** A sighting's HTML is its address part, its type span and its
      interface line, in that order. */
  lemma ItemParts(e: IPInfo)
    ensures ItemHtml(e)
            == WriteAddress("", e.IPAddress) + WriteTypeSpan("", e.Type) + WriteInterface("", e.InterfaceName)
  {
    var a := WriteAddress("", e.IPAddress);
    WriteTypeSpanAppends(a, e.Type);
    WriteInterfaceAppends(a + WriteTypeSpan("", e.Type), e.InterfaceName);
  }

  /** The type span reads as a span whose class attribute is "ip-type ipv4"
      for "IPv4" and "ip-type" otherwise, enclosing the Type text. */
  lemma TypeSpanClass(t: string)
    ensures WriteTypeSpan("", t)
            == "<span class=\"" + (if t == "IPv4" then "ip-type ipv4" else "ip-type") + "\">" + t + "</span>"
               + "</div>"
  {
  }

  lemma InterfaceLine(name: string)
    ensures WriteInterface("", name)
            == "<div class=\"interface-name\">" + ("Interface: " + name) + ("</div>" + "</div>")
  {
  }

  /** Where the three fields stand in a block laid out as the opening `x`,
      the address, a span part and an interface part. */
  lemma FieldOffsets<T>(x: seq<T>, address: seq<T>, t: seq<T>, span: seq<T>, z: seq<T>,
                        n: seq<T>, head: seq<T>, caption: seq<T>, tail: seq<T>)
    requires t == span + z && n == head + caption + tail
    ensures OccursAt(x + address + t + n, address, |x|)
    ensures OccursAt(x + address + t + n, span, |x| + |address|)
    ensures OccursAt(x + address + t + n, caption, |x| + |address| + |t| + |head|)
  {
    var s := x + address + t + n;
    assert s[|x|..|x| + |address|] == address;
    assert s[|x| + |address|..|x| + |address| + |span|] == span;
    var r := |x| + |address| + |t| + |head|;
    assert s[r..r + |caption|] == caption;
  }

  /** One sighting's HTML shows its address, then immediately a span whose
      class is "ip-type ipv4" exactly when the Type is "IPv4" (else
      "ip-type") holding the Type text, and after the span has ended
      "Interface: " followed by the interface name. */
  lemma ItemFieldsInOrder(e: IPInfo) returns (p: nat, q: nat, r: nat)
    ensures OccursAt(ItemHtml(e), e.IPAddress, p)
    ensures q == p + |e.IPAddress|
    ensures OccursAt(ItemHtml(e),
                     "<span class=\"" + (if e.Type == "IPv4" then "ip-type ipv4" else "ip-type") + "\">"
                     + e.Type + "</span>", q)
    ensures q + |"<span class=\"" + (if e.Type == "IPv4" then "ip-type ipv4" else "ip-type") + "\">"
                 + e.Type + "</span>"| < r
    ensures OccursAt(ItemHtml(e), "Interface: " + e.InterfaceName, r)
  {
    var x := "" + "<div class=\"ip-item\">" + "<div class=\"ip-address\">";
    var t := WriteTypeSpan("", e.Type);
    var head := "<div class=\"interface-name\">";
    ItemParts(e);
    TypeSpanClass(e.Type);
    InterfaceLine(e.InterfaceName);
    FieldOffsets(x, e.IPAddress, t,
                 "<span class=\"" + (if e.Type == "IPv4" then "ip-type ipv4" else "ip-type") + "\">"
                 + e.Type + "</span>", "</div>",
                 WriteInterface("", e.InterfaceName), head, "Interface: " + e.InterfaceName,
                 "</div>" + "</div>");
    p, q, r := |x|, |x| + |e.IPAddress|, |x| + |e.IPAddress| + |t| + |head|;
  }

  /** Whether attempt `i` (from 0) gets through: the transport reports an
      outcome per attempt; an attempt past the reported ones fails. */
  predicate Succeeds(transport: seq<bool>, i: nat)
  {
    i < |transport| && transport[i]
  }

  /** Some attempt among the first `n` would get through. */
  predicate SomeAttemptSucceeds(transport: seq<bool>, n: nat)
  {
    n > 0 && (SomeAttemptSucceeds(transport, n - 1) || Succeeds(transport, n - 1))
  }

  /** SomeAttemptSucceeds is the existential reading: one of the first `n`
      attempts succeeds. */
  lemma {:induction false} SomeAttemptSucceedsIff(transport: seq<bool>, n: nat)
    ensures SomeAttemptSucceeds(transport, n) <==> exists i :: 0 <= i < n && Succeeds(transport, i)
  {
    if n > 0 {
      SomeAttemptSucceedsIff(transport, n - 1);
    }
  }

  /** The retry loop. It stops at the first successful attempt, makes at
      most MaxRetries attempts, pauses only after a failed attempt that is
      not the last, and never fails to its caller. */
  method Deliver(transport: seq<bool>) returns (attempts: nat, pauses: nat, delivered: bool)
    ensures 1 <= attempts <= MaxRetries
    ensures forall i :: 0 <= i < attempts - 1 ==> !Succeeds(transport, i)
    ensures delivered == Succeeds(transport, attempts - 1)
    ensures !delivered ==> attempts == MaxRetries
    ensures delivered <==> SomeAttemptSucceeds(transport, MaxRetries)
    ensures pauses == attempts - 1
  {
    attempts, pauses, delivered := 0, 0, false;
    var i := 0;
    while i < MaxRetries
      invariant 0 <= i <= MaxRetries
      invariant attempts == i && !delivered
      invariant forall k :: 0 <= k < i ==> !Succeeds(transport, k)
      invariant !SomeAttemptSucceeds(transport, i)
      invariant pauses == if i < MaxRetries then i else MaxRetries - 1
    {
      var sent := Succeeds(transport, i);
      attempts := attempts + 1;
      if !sent {
        if i < MaxRetries - 1 {
          pauses := pauses + 1;
          i := i + 1;
          continue;
        }
      } else {
        SomeAttemptSucceedsIff(transport, MaxRetries);
        delivered := true;
        break;
      }
      i := i + 1;
    }
  }

  /** `sendEmailNotification` as modelled: the body, then delivery with retry. */
  method SendEmailNotification(newIPs: seq<IPInfo>, detectedAt: string, transport: seq<bool>)
    returns (body: string, attempts: nat, pauses: nat, delivered: bool)
    ensures body == ItemsHtml(newIPs) + TimestampHtml(detectedAt)
    ensures 1 <= attempts <= MaxRetries && pauses == attempts - 1
    ensures forall i :: 0 <= i < attempts - 1 ==> !Succeeds(transport, i)
    ensures delivered == Succeeds(transport, attempts - 1)
    ensures !delivered ==> attempts == MaxRetries
    ensures delivered <==> SomeAttemptSucceeds(transport, MaxRetries)
  {
    body := RenderBody(newIPs, detectedAt);
    attempts, pauses, delivered := Deliver(transport);
  }
}
