# IP Radar — a verified model of the change-detection pipeline

IP Radar polls the host's network interfaces and e-mails when it sees an address it has not seen before. This project models that pipeline in Dafny:

- **Scanner** (`getRealIPs`). It walks the interface list and drops:
  - interfaces that are loopback, point-to-point or down;
  - interfaces whose lower-cased name matches the virtual-adapter deny-list ("vmware", "virtual", "vbox");
  - interfaces whose name misses the allow-list ("eth", "en", "wlan", "wi-fi", "wireless");
  - interfaces whose address listing fails.

  Within the remaining interfaces it drops every address that is nil, not global unicast, loopback, link-local, or IPv6 text starting with "fe80:". It labels each remaining address "IPv4" or "IPv6". Module `Scanner`, method `GetRealIPs`, proved against the function `Scan`.
- **Detector** (`checkIPChanges`). The process-wide map `previousIPs` is keyed by `InterfaceName + "-" + IPAddress`. A scan yields the entries whose key is new, in scan order. Each such key is recorded with its Type as the loop meets it. Module `Detector` holds the specification functions `Remember` and `NewSightings` and their properties. Class `Radar.Monitor` holds the map and the loop method `CheckIPChanges`.
- **Notification gate.** A notification is sent exactly when the set of new sightings is non-empty.
- **Notifier** (`sendEmailNotification`). Module `Notifier` holds:
  - the per-sighting HTML loop: address, then a type span with class "ip-type ipv4" for IPv4 and "ip-type" otherwise, then "Interface: " followed by the name;
  - the timestamp line;
  - the retry loop: at most three attempts, stopping at the first success and pausing only between attempts.
- **Poll loop** (`main`). `Radar.Monitor.Poll` runs a finite series of poll cycles on one monitor.

The model takes these as inputs:

- The operating system's interface list: each interface's name, its flag word (Go's `net.Flags` bits: up = 1, loopback = 4, point-to-point = 8), and either its address list or the listing error.
- What Go's `net.IP` library answers for each address: `IsGlobalUnicast`, `IsLoopback`, `IsLinkLocalUnicast`, whether `To4` is non-nil, and `String`.
- The clock reading used for the timestamp.
- The outcome each mail-delivery attempt would have.

The source comment at main.go:157 says private addresses are skipped. The code only tests `IsGlobalUnicast`, `IsLoopback` and `IsLinkLocalUnicast`, and Go's `IsGlobalUnicast` is true for private ranges such as 10.0.0.0/8. The model follows the code: private addresses whose library answers are global unicast are kept.

## Model

| member | source | states |
|---|---|---|
| Scanner.AddrIP | main.go:149-155 | Definition: the type switch yields the IP of a `*net.IPNet` or `*net.IPAddr` and nil for any other address type. |
| Scanner.FlagsAdmit | main.go:118-122 | Definition: an interface is kept only when the loopback bit (4) and the point-to-point bit (8) are clear and the up bit (1) is set. |
| Scanner.IsVirtualName | main.go:125-127 | Definition: the lower-cased name contains "vmware", "virtual" or "vbox". |
| Scanner.IsRealName | main.go:132-136 | Definition: the lower-cased name contains "eth", "en", "wlan", "wi-fi" or "wireless". |
| Scanner.AddressAdmits | main.go:158-165 | Definition: the IP is global unicast, not loopback, not link-local, and not an IPv6 address whose text starts with "fe80:". |
| Scanner.Label | main.go:167-170 | The label is "IPv4" exactly when the IP has a 4-byte form, and "IPv6" exactly when it has none. |
| Scanner.InterfaceAdmits | main.go:116-140 | Definition: an interface is scanned when its flags pass, its name is not on the deny-list, and its name is on the allow-list. |
| Scanner.AddrEntries | main.go:148-179 | Definition: the entries one address list yields, in list order: for each address whose extracted IP is non-nil and passes the address test, the record of interface name, IP text and label. |
| Scanner.InterfaceEntries | main.go:116-146 | Definition: an admitted interface whose address listing succeeds contributes its address entries; any other interface contributes nothing. |
| Scanner.ScanEntries | main.go:116-180 | Definition: the interfaces' entries concatenated in interface order. |
| Scanner.Scan | main.go:108-183 | Definition: the empty list when enumeration fails, otherwise each interface's entries in interface order, where an interface contributes its admitted addresses' entries only when it is admitted and its address listing succeeds. |
| Scanner.GetRealIPs | main.go:108-183 | The nested scan loop, with its `continue`s on filters and errors, returns exactly `Scan(enumeration)`: interface order, then address order, with filtered entries dropped. |
| Scanner.EnumerationFailureIsEmpty | main.go:110-114 | When enumerating the interfaces fails, the scan is empty. |
| Scanner.ExcludedInterfaceContributesNothing | main.go:118-146 | An interface that is loopback, point-to-point or down, or on the deny-list, or off the allow-list, or whose address listing fails, contributes nothing. The scan of the interfaces around it is unchanged. |
| Scanner.ScanSound | main.go:116-178 | Every emitted entry comes from an interface that passes the flag, deny-list and allow-list tests and lists its addresses. The address's IP is non-nil, global unicast, not loopback, not link-local, and not IPv6 text starting "fe80:". The entry carries the interface name and the IP text, and is "IPv4" iff `To4` is non-nil, else "IPv6". |
| Scanner.AddrSound | main.go:148-178 | Every entry the address loop emits comes from an address whose IP passes the address filters, and carries the name, the IP text and its label. |
| Scanner.ScanComplete | main.go:116-182 | Conversely, every admitted address of an admitted interface appears in the scan, at its place: after the entries of the earlier interfaces and of the earlier addresses. |
| Scanner.ScanEntriesAppend | main.go:116-182 | The scan of two runs of interfaces is the scan of the first followed by the scan of the second: output order is interface order. |
| Scanner.AddrEntriesAppend | main.go:148-181 | Within one interface, output order is address order. |
| Scanner.NameFilterIgnoresCase | main.go:125-136 | The deny-list and allow-list tests give the same answer for a name and its lower-cased form. |
| Text.HasPrefix | main.go:163 | Definition: `strings.HasPrefix`, the text starts with the pattern. |
| Text.Contains | main.go:125-136 | Definition: `strings.Contains`, the pattern is a prefix of the text or of one of its suffixes. |
| Text.LowerChar | main.go:125-136 | Definition: an ASCII upper-case letter becomes its lower-case letter; every other character is unchanged. |
| Text.Lower | main.go:125-136 | Lower-casing keeps the length and maps each character on its own (ASCII letters only). |
| Text.LowerIdempotent | main.go:125-136 | Lower-casing twice is lower-casing once. |
| Text.ContainsAt | main.go:125-136 | `strings.Contains` as modelled holds iff the pattern occurs at some offset of the text. |
| Detector.Key | main.go:94 | Definition: the observation key is the interface name, "-", then the address text. |
| Detector.Remember | main.go:93-99 | Definition: the map after visiting the scan in order, adding each absent key with its entry's Type and leaving present keys alone. |
| Detector.NewSightings | main.go:92-100 | Definition: the entries the loop appends, namely those whose key is absent when the loop reaches them, in scan order. |
| Detector.FirstSightingsUpTo | main.go:92-100 | Definition, written independently of the loop: the entries at positions whose key is neither known nor carried by an earlier entry, taken in position order. |
| Detector.NewSightingsAreFirstSightings | main.go:92-100 | The reported list equals the first sightings in position order, element for element. This holds even when the scan repeats entries: for scan [e, f, e] with new keys the report is [e, f]. |
| Detector.DetectStep | main.go:93-99 | Proof step: the definitions of `Remember` and `NewSightings` unfolded for one appended entry. |
| Detector.AfterCycles | main.go:53-60 | Definition: the map after a series of cycles, each applying `Remember` with its scan to the map the previous ones left. |
| Detector.RememberGrows | main.go:93-99 | After a pass, the keys are the old keys plus every scanned key, and every old key keeps its old value: nothing is removed or overwritten. |
| Detector.RememberNewValue | main.go:93-99 | A key added by a pass maps to the Type of the entry that first carried it in the scan. |
| Detector.RememberedKey | main.go:93-99 | A key is recorded after a pass iff it was known before or some scan entry carries it. |
| Detector.NewSightingsExact | main.go:92-100 | An entry is reported iff it is the first entry in the scan with its key and that key was not known before the pass. |
| Detector.NewSightingsInScanOrder | main.go:92-100 | The reported entries form a subsequence of the scan. The exact order is fixed by NewSightingsAreFirstSightings. |
| Detector.NewSightingsDistinctKeys | main.go:92-100 | No key is reported twice, even when the scan repeats an entry. Every reported key is new and is recorded by the pass. |
| Detector.NewSightingsCoverScan | main.go:92-100 | Every scanned key is recorded after the pass, and every scanned key that was unknown is reported. |
| Detector.KnownScanIsQuiet | main.go:92-100 | A scan whose keys are all known reports nothing and changes nothing. |
| Detector.DetectTwiceIsQuiet | main.go:92-100 | Re-running a pass on the same scan reports nothing and leaves the map as it was. |
| Detector.CyclesAccumulate | main.go:53-60 | Over any series of cycles the map's keys are the initial keys plus every scanned key, old values are kept, and re-running any earlier scan reports nothing. |
| Detector.KeyIdentifiesSighting | main.go:94 | When addresses contain no '-', equal keys mean equal interface name and address, so the key identifies the sighting. |
| Radar.SentPerPolicy | main.go:259-333 | Definition (body at main.go:259-286, retry at main.go:312-333): what a notice about the new sightings carries. The body is the sightings then the timestamp. Delivery stops at the first success, makes at most 3 attempts (all 3 when none succeeds), pauses between attempts, and is delivered iff `SomeAttemptSucceeds(transport, 3)`, that is, iff one of the first 3 attempts would succeed. |
| Radar.NotifyIfNew | main.go:103-105 | The gate sends a notice iff there are new sightings, and every notice it sends satisfies `SentPerPolicy`. |
| Radar.Monitor.RunCycle | main.go:55-59 | One iteration of the poll loop moves the map to `Remember` of the old map and the cycle's scan, and notifies iff that scan has new sightings. |
| Radar.Scans | main.go:53-60 | Definition: the scans a series of cycles produce, one per cycle, in cycle order. |
| Radar.NotifiedCycles | main.go:53-60 | Definition: the number of cycles in a series whose scan has new sightings against the map left by the cycles before it. |
| Radar.CycleStep | main.go:53-60 | Proof step: the definitions of `AfterCycles` and `NotifiedCycles` unfolded for one appended cycle. |
| Radar.Monitor.constructor | main.go:33-36 | The process starts with an empty map of previous sightings. |
| Radar.Monitor.CheckIPChanges | main.go:88-106 | One cycle reports exactly `NewSightings` of the old map and the scan, and leaves the map at `Remember` of the two. A notice is sent iff the report is non-empty. The notice satisfies `SentPerPolicy`: it carries the full retry contract of `Deliver`, so it is delivered iff one of the first three attempts would succeed, and all three attempts are made when none succeeds. |
| Radar.Monitor.Poll | main.go:53-60 | After a series of cycles the map is `AfterCycles` of the scans, the number of notices is `NotifiedCycles`, and there is one pause between consecutive cycles. |
| Radar.RepeatedScanIsSilent | main.go:53-60 | A cycle whose scan repeats an earlier cycle's scan changes nothing and notifies nobody. |
| Radar.ThreeCycleScenario | main.go:88-106 | An IPv4 sighting is reported once. The same scan again reports nothing. Adding an IPv6 address on the same interface reports just that address, giving two notices in three cycles. |
| Notifier.TypeClassSuffix | main.go:265-268 | Definition: the extra class " ipv4" for Type "IPv4", nothing for any other Type. |
| Notifier.WriteAddress | main.go:261-263 | Definition: the builder's text followed by the item and address openings and the address. |
| Notifier.WriteTypeSpan | main.go:270-275 | Definition: the builder's text followed by the type span with its class suffix, and the closing of the address line. |
| Notifier.WriteInterface | main.go:277-280 | Definition: the builder's text followed by "Interface: ", the name, and the closings of the line and the item. |
| Notifier.TimestampHtml | main.go:284-286 | Definition: the timestamp line around the given time text. |
| Notifier.Succeeds | main.go:315-321 | Definition: attempt i gets through when the transport reports success for it. An attempt past the reported outcomes fails. |
| Notifier.SomeAttemptSucceeds | main.go:314-333 | Definition: one of the first n attempts would get through. |
| Notifier.SomeAttemptSucceedsIff | main.go:314-333 | `SomeAttemptSucceeds(transport, n)` holds iff some attempt index below n succeeds. |
| Notifier.MaxRetries | main.go:312 | Definition: the total number of delivery attempts, 3. |
| Notifier.WriteItem | main.go:260-281 | Definition: the builder after writing one sighting: its address part, then its type span, then its interface line. |
| Notifier.ItemHtml | main.go:260-281 | Definition: one sighting's block, as written onto an empty builder. |
| Notifier.ItemsHtml | main.go:260-281 | Definition: the sightings' blocks concatenated in list order. |
| Notifier.RenderItems | main.go:260-281 | The item loop's writes produce exactly the HTML of all sightings, one block per sighting in list order. |
| Notifier.RenderBody | main.go:259-286 | The body holds the item blocks followed by the timestamp line. |
| Notifier.ItemsInOrder | main.go:260-281 | The body holds each sighting's block at its place: the earlier sightings' blocks, then its own, then the later ones. |
| Notifier.ItemFieldsInOrder | main.go:261-280 | A sighting's block shows its address, then immediately a span with class "ip-type ipv4" iff Type is "IPv4" (else "ip-type") holding the Type, and only after that span has ended, "Interface: " and the interface name. |
| Notifier.TypeSpanClass | main.go:265-275 | The type span's class attribute is "ip-type ipv4" for "IPv4" and "ip-type" for any other Type. |
| Notifier.ItemParts | main.go:260-281 | Proof step: `ItemHtml` regrouped as its address part, then its type span, then its interface line. |
| Notifier.WriteItemAppends | main.go:260-281 | Proof step: writing a sighting appends its block to what the builder already holds (the definition of `WriteItem` regrouped). |
| Notifier.Deliver | main.go:312-333 | Delivery makes between 1 and 3 attempts. Every attempt before the last failed. It is delivered iff the last attempt succeeded, iff one of the first three attempts would succeed. Without success it makes exactly 3 attempts, and it pauses once per failed attempt before the last: at most 2 pauses. It never reports an error to its caller. |
| Notifier.SendEmailNotification | main.go:185-334 | The body is the sightings then the timestamp. Delivery has the full retry contract of `Deliver`: 1 to 3 attempts, stopping at the first success, exactly 3 when none succeeds, delivered iff one of the first 3 would succeed, one pause fewer than attempts. |

## Left out

- Operating-system enumeration (`net.Interfaces`, `iface.Addrs`) is an input: a list of interface records, each carrying either its addresses or an error.
- Go's `net.IP` predicates and `String` are recorded per address as data (`IP`). Their meaning for particular byte patterns is not modelled.
- Address values that are neither `*net.IPNet` nor `*net.IPAddr` are the `OtherAddr` case and yield a nil IP, as the type switch does.
- `strings.ToLower` is modelled for ASCII letters only. Unicode case mapping is not modelled.
- `smtp.SendMail` has no timeout, so one attempt could stall the cycle indefinitely. The model assumes every attempt returns an outcome.
- SMTP authentication and `smtp.SendMail` are replaced by a sequence of per-attempt outcomes; an attempt beyond the sequence fails. The message text with headers is not built. Header order comes from Go map iteration and is unspecified.
- `time.Sleep` is counted, not performed. The endless poll loop is modelled as a finite series of cycles.
- The timestamp from `time.Now` is an input string; its formatting is not modelled.
- The fixed CSS and HTML framing around the items and the timestamp is not modelled.
- The `fmt.Println` and `fmt.Printf` diagnostics are not modelled.
- The web console, loading and saving `config.json`, and default-config creation are file and HTTP I/O and are not modelled. Neither is the unsynchronised sharing of `config` between the web server goroutine and the poll loop.
