# WARP endpoint scanner: a Dafny model of its core

`Files/script.py` scans Cloudflare WARP endpoints. It:

1. fetches a list of `ip:port` endpoints from a remote API and keeps the well-formed ones;
2. generates a manual list from seven built-in address prefixes and seven ports;
3. merges both lists without duplicates and shuffles them;
4. writes one Xray configuration with a local HTTP proxy per candidate, each routed through a WireGuard tunnel to that candidate;
5. probes every candidate three times through its proxy and collects the results as the probes complete;
6. ranks the results by latency, then loss, and publishes the best ten along with a few configuration snippets.

This project models the pure decisions of that pipeline and proves what they promise. The network, the Xray process and the thread pool are represented by their inputs and outputs.

Modules, one per concern:

| module | file | what it models |
|---|---|---|
| `Wrappers`, `Seqs` | `seqs.dfy` | optional values; duplicate-free and ordered sub-lists, the filter, swap |
| `Decimal` | `decimal.dfy` | `str(n)`, `s.isdigit()` and `int(s)` on ASCII digit strings |
| `Text` | `text.dfy` | `s.split(c)` for a one-character separator and its inverse `c.join` |
| `Endpoints` | `endpoints.dfy` | the validation in `fetch_endpoints_from_api` |
| `ManualList` | `manual.dfy` | `generate_manual_endpoints` and its built-in prefixes and ports |
| `Merge` | `merge.dfy` | `list(set(api + manual))`, the empty-list exit and `random.shuffle` |
| `WarpParams` | `warp_params.dfy` | the parameters handed to the proxy and the `/128` suffix |
| `XrayConfig` | `xray_config.dfy` | `build_xray_config_json` and how a connection to a local port is routed |
| `Probe` | `probe.dfy` | `test_single_proxy` over the outcomes of its tries |
| `Scan` | `scan.dfy` | job submission and the collection loop with its progress lines |
| `Ranking` | `ranking.dfy` | the sort, the top-10 filter and the snippet positions |
| `WireguardKey` | `keys.dfy` | clamping of the private key in `generate_wireguard_keypair` |

## Model

| member | source | states |
|---|---|---|
| Decimal.Str | Files/script.py:140 | `str(n)` is a non-empty ASCII digit string with no `.` or `:`; it is longer than one digit exactly when n ≥ 10, and it starts with `0` only for n = 0, so it has no leading zero |
| Decimal.ValueOfStr | Files/script.py:122 | `int(str(n)) == n`: reading the decimal spelling back gives the number |
| Decimal.StrInjective | Files/script.py:140 | distinct numbers have distinct decimal spellings |
| Text.Split | Files/script.py:120-121 | `split` always returns at least one part, and no part contains the separator |
| Text.JoinSplit | Files/script.py:120-121 | joining the parts of a split with the separator rebuilds the original string |
| Text.SplitJoin | Files/script.py:120-121 | splitting a join of separator-free parts gives back exactly those parts |
| Text.SplitWithout | Files/script.py:120-121 | a string without the separator splits into itself alone |
| Text.SplitAround | Files/script.py:120 | a separator between two strings splits them apart |
| Text.SplitAppend | Files/script.py:140 | appending separator-free text only lengthens the last part |
| Seqs.Filter | Files/script.py:118-127 | the filtered list keeps exactly the elements that pass, with their multiplicities, and is no longer than the input |
| Seqs.FilterIsSubsequence | Files/script.py:118-127 | filtering keeps the relative order of the entries |
| Seqs.FilterAll | Files/script.py:333 | a filter that every element passes returns the list unchanged |
| Seqs.SubsequenceKeepsOrder | Files/script.py:333 | any pairwise order holding along a list still holds along each of its sub-lists |
| Endpoints.ApiEndpoints | Files/script.py:116-129 | an entry is kept if and only if it is in the remote list and valid; it is kept as often as it occurs there, in its original order |
| Endpoints.ValidEndpointShape | Files/script.py:120-122 | every accepted entry has the form `a.b.c.d:port` with four valid octets and a port free of `:` |
| Endpoints.EndpointOfOctets | Files/script.py:120-122 | an entry built from four pieces and a port is accepted if and only if every piece is a digit string of value at most 255, whatever the port text |
| Endpoints.RejectsOctetAbove255 | Files/script.py:122 | `999.1.1.1:80` is rejected |
| ManualList.SlotsLength | Files/script.py:137-141 | the triple loop produces one entry per prefix, last octet and port |
| ManualList.SlotAt | Files/script.py:137-141 | the entry for prefix a, octet b and port j sits at position (a·254 + b)·7 + j, in prefix-major then octet then port order |
| ManualList.SlotsMembership | Files/script.py:137-141 | a combination is generated if and only if its prefix, octet and port are all listed |
| ManualList.SlotsNoDup | Files/script.py:137-141 | with distinct prefixes, octets and ports no combination is generated twice |
| ManualList.RenderIsValidEndpoint | Files/script.py:140 | every `f"{prefix}{i}:{port}"` with a well-formed prefix and i ≤ 255 passes the validation that remote entries undergo |
| ManualList.RenderSplits | Files/script.py:140 | a rendered entry splits on `:` into host and port, and its host splits into the prefix octets plus `str(i)` |
| ManualList.RenderInjective | Files/script.py:140 | distinct combinations render to distinct strings |
| ManualList.ManualEndpoints | Files/script.py:134-143 | the list is the rendered enumeration cut to its first 100 entries, or fewer when the enumeration is shorter |
| ManualList.ManualEndpointAt | Files/script.py:137-143 | entry (a·254 + o − 1)·7 + j, below the cap, is `prefix[a] + str(o) + ":" + str(port[j])` |
| ManualList.ManualEndpointsWellFormed | Files/script.py:134-143 | with distinct well-formed prefixes and distinct ports the list has no duplicates and every entry is a valid endpoint |
| ManualList.SplitPrefix | Files/script.py:22-24 | a built prefix `a.b.c.` splits into the three octets and an empty tail |
| ManualList.PrefixOfOctets | Files/script.py:22-24 | three octets up to 255 spell a well-formed prefix |
| ManualList.PrefixTextInjective | Files/script.py:22-24 | distinct octet triples spell distinct prefixes |
| ManualList.DefaultPrefixesWellFormed | Files/script.py:22-25 | every built-in prefix has the form `x.y.z.` with valid octets |
| ManualList.DefaultsDistinct | Files/script.py:22-26 | no built-in prefix or port is listed twice |
| ManualList.FirstBlockEntry | Files/script.py:134-143 | while the cap falls within the first prefix's block, entry k is `prefix[0] + str(k // len(ports) + 1) + ":" + str(ports[k % len(ports)])` |
| ManualList.FirstBlockFull | Files/script.py:134-143 | when the first prefix alone yields more than 100 entries, the list has exactly 100 |
| ManualList.DefaultManualEndpoints | Files/script.py:134-143 | with the built-in constants the list has 100 entries, all under `162.159.192.` with last octets 1 to 15 |
| ManualList.FirstDefaultPrefix | Files/script.py:23 | the first built-in prefix is `162.159.192.` |
| Merge.Dedup | Files/script.py:233 | `list(set(xs))` has no duplicates, holds exactly the elements of xs, and is empty only when xs is |
| Merge.ShuffleDown | Files/script.py:237 | each Fisher-Yates step is a permutation and keeps the list duplicate-free |
| Merge.Shuffle | Files/script.py:237 | the shuffle is a permutation of its input and keeps it duplicate-free |
| Merge.Candidates | Files/script.py:231-237 | the run stops with no candidates exactly when both lists are empty; otherwise the candidates are duplicate-free and are exactly the union of both lists |
| Merge.CatalogOnlyValid | Files/script.py:116-143 | with the built-in constants the candidate list is never empty, and every candidate is a well-formed `a.b.c.d:port` entry |
| WarpParams.NormalizeIpv6 | Files/script.py:79-81 | the address ends with `/128`; it is unchanged exactly when it already did, and otherwise `/128` is appended to it |
| WarpParams.NormalizeIdempotent | Files/script.py:80-81 | normalising twice is normalising once |
| XrayConfig.BuildConfig | Files/script.py:145-183 | inbound i listens on 127.0.0.1:10800+i with tag `http-in-{i+1}`; outbound i is a WireGuard tunnel to candidate i with the client keys, addresses, MTU 1280, keep-alive 25 and reserved bytes; rule i routes the former to the latter; the DNS rule and the direct outbound come first |
| XrayConfig.TagsInjective | Files/script.py:151-152 | distinct candidates get distinct inbound and outbound tags, and no tunnel is tagged `direct` |
| XrayConfig.InboundOnPortAt | Files/script.py:153-157 | a listener exists on a port exactly when the port is 10800+i for some candidate i, and it is that candidate's listener |
| XrayConfig.RouteOfAt | Files/script.py:173-175 | the first rule naming inbound i sends it to outbound `proxy-{i+1}` |
| XrayConfig.OutboundTaggedAt | Files/script.py:158-172 | the first outbound tagged `proxy-{i+1}` is the tunnel to candidate i |
| XrayConfig.ResolvePort | Files/script.py:147-183 | a connection to a local port leaves the proxy if and only if the port belongs to a candidate, and then through that candidate's tunnel |
| XrayConfig.ProbeProxyUrl | Files/script.py:278 | the probe's proxy URL is the address and port of the candidate's listener |
| XrayConfig.ProbeProxyUrlInjective | Files/script.py:277-278 | distinct candidates are probed through distinct proxy URLs |
| XrayConfig.ProbeReachesCandidate | Files/script.py:145-183 | the probe of candidate i is carried by a WireGuard tunnel whose peer is candidate i |
| XrayConfig.PortsInRange | Files/script.py:153 | every local port is a valid TCP port exactly when there are at most 54736 candidates |
| Probe.SuccessLatencies | Files/script.py:189-201 | exactly one latency is recorded per try answered with 204, so the list is as long as the success count |
| Probe.SuccessesAppend | Files/script.py:199-200 | one more try adds one to the success count exactly when it answered 204 |
| Probe.SuccessLatencyAt | Files/script.py:189-201 | the latency of a 204 try is recorded, at the position given by the number of 204 tries before it, so the list keeps try order |
| Probe.SuccessLatencyOrigin | Files/script.py:198-201 | every recorded latency is the latency of some try answered with 204 |
| Probe.SuccessLatenciesMembers | Files/script.py:189-201 | a value is recorded if and only if some try answered 204 with that latency |
| Probe.TestSingleProxy | Files/script.py:185-212 | no result exactly when no try got a 204 response; otherwise the average of the successful latencies and `(tries − successes) / tries · 100` as loss, for the tested endpoint |
| Probe.ThreeCandidates | Files/script.py:185-212 | with three tries each, a candidate answering at 50, 60 and 70 ms averages 60 ms with no loss; one answering a single try at 200 ms averages 200 ms with two tries' worth of loss (2 · 100/3 %); one never answering 204 yields no result |
| Probe.SuccessLatenciesOfThree | Files/script.py:189-201 | the latencies of three tries are those of the 204 answers, try by try |
| Probe.LossBounds | Files/script.py:211 | the loss lies in [0, 100], is below 100 when some try succeeded, and is 100/tries per failed try |
| Probe.MeanBounds | Files/script.py:210 | the average lies between the least and the greatest latency |
| Probe.SumBounds | Files/script.py:210 | the sum of n latencies in [lo, hi] lies in [n·lo, n·hi] |
| Probe.SuccessLatenciesFrom | Files/script.py:198-201 | every recorded latency respects any lower bound shared by the measured latencies |
| Probe.ResultLatencyNonNegative | Files/script.py:198-210 | with non-negative measured latencies the reported average is non-negative, so it is never the -1 that the ranking treats as unreachable |
| Scan.Jobs | Files/script.py:276-280 | one job per candidate, in order, each testing its own candidate |
| Scan.JobsMatchConfig | Files/script.py:276-280 | job i's proxy URL is `http://127.0.0.1:{10800+i}`; that port routes through a tunnel to the job's own endpoint; no two jobs share a proxy |
| Scan.Step | Files/script.py:291 | `len // 20 or 1` is at least 1; it is 1 below 20 candidates, and otherwise the largest s with 20·s ≤ len |
| Scan.Collect | Files/script.py:282-292 | every completion is counted, whether its job returned a result, returned None or raised; the results are the returned values in completion order; progress is printed at the counts the predicate selects |
| Scan.ReportsMembership | Files/script.py:291-292 | a progress line is printed at count d if and only if 1 ≤ d ≤ completed and d is a multiple of the step or the total |
| Scan.FinalReported | Files/script.py:291 | the last completion is always reported, and nothing is reported before the first |
| Scan.MeasurementsCount | Files/script.py:285-288 | a result is collected once for every job that returned it |
| Scan.CompletionOrderIrrelevant | Files/script.py:283-288 | any two completion orders of the same outcomes collect the same results, up to order |
| Ranking.KeyOrder | Files/script.py:309 | the sort key `(latency or +inf, loss)` is a strict weak order, so sorting by it is well defined |
| Ranking.Insert | Files/script.py:309 | an insertion adds exactly the one element and loses none |
| Ranking.InsertSorted | Files/script.py:309 | inserting into a list sorted by the key keeps it sorted |
| Ranking.Sort | Files/script.py:309 | the sorted list is a permutation of the collected results |
| Ranking.SortOrders | Files/script.py:309 | the sorted list is ordered by `(latency, with -1 as +inf; loss)` |
| Ranking.SortStable | Files/script.py:309 | results with equal keys keep their relative order, as Python's sort guarantees |
| Ranking.InsertTies | Files/script.py:309 | an insertion appends the new element to its own tie class and leaves every other class unchanged |
| Ranking.TiesAppend | Files/script.py:309 | appending an element extends only its own tie class |
| Ranking.NoTies | Files/script.py:309 | a list with no element tying with x has an empty tie class for x |
| Ranking.SortSorted | Files/script.py:309 | sorting an already sorted list changes nothing |
| Ranking.InsertLast | Files/script.py:309 | an element not below any element of a sorted list is inserted at its end |
| Ranking.Published | Files/script.py:332-333 | the published entries are the first reachable results in the given order: at most 10 of them, and fewer only when fewer are reachable |
| Ranking.PublishedIsTop | Files/script.py:309-333 | from the sorted results, the published entries are the first reachable ones in rank order, and no reachable result left out ranks before a published one |
| Ranking.PublishedFromResults | Files/script.py:308-333 | every published endpoint is one of the collected results |
| Ranking.PublishedWhole | Files/script.py:332-333 | a ranked list of at most 10 reachable results is published whole |
| Ranking.SortPair | Files/script.py:309 | two results with different keys end up in key order, whichever was collected first |
| Ranking.TwoResultsRanked | Files/script.py:309-333 | the results of the 60 ms and 200 ms candidates above are published as [60 ms, 200 ms] in either completion order |
| Ranking.ReachableFirst | Files/script.py:309 | in the sorted results every reachable result comes before every unreachable one |
| Ranking.WarpOnWarp | Files/script.py:354-356 | the snippet exists exactly when at least two endpoints are published; it uses positions 0 and 1, the best and second-best endpoints |
| Ranking.WarpAuto | Files/script.py:377-380 | the positions are exactly 2, 3, … up to min(6, n) − 1, in increasing order, and none is out of range |
| Ranking.WarpPlus | Files/script.py:394-396 | the snippet exists exactly when at least two endpoints are published; both positions exist and are in order |
| Ranking.WarpPlusPositions | Files/script.py:394-396 | with at most seven published endpoints both positions are the last one; with eight or more they are 6 and 7 |
| WireguardKey.ClampLow | Files/script.py:49 | the first byte becomes a multiple of 8, losing only its three low bits |
| WireguardKey.ClampHigh | Files/script.py:50-51 | the last byte lands in [64, 127] and keeps its six low bits |
| WireguardKey.Clamp | Files/script.py:48-51 | only bytes 0 and 31 change, as section 5 of RFC 7748 requires of a private scalar |
| WireguardKey.ClampFixpoint | Files/script.py:49-51 | clamping leaves a key unchanged exactly when it is already clamped |
| WireguardKey.ClampIdempotent | Files/script.py:49-51 | clamping twice is clamping once |
| WireguardKey.LittleEndianTop | Files/script.py:50-51 | a little-endian number whose top byte lies in [lo, hi] lies within lo and hi+1 times that byte's weight |
| WireguardKey.ScalarRange | Files/script.py:50-51 | a key whose last byte lies in [64, 127] reads as a number in [2^254, 2^255) |
| WireguardKey.ClampedMultipleOf8 | Files/script.py:49 | a key whose first byte is a multiple of 8 reads as a multiple of 8 |
| WireguardKey.ClampedScalar | Files/script.py:48-51 | the clamped key, read little-endian, is a multiple of 8 in [2^254, 2^255) |

## Left out

- The HTTP requests (the WARP registration, the endpoint API and the probe's `HEAD` requests) are not modelled. Their results are inputs: the list of remote entries and the outcome of each try.
- The clocks (`time.monotonic`, the pauses between tries, the IRST timestamp) are not modelled. Latencies are given per try as reals, and floating-point rounding is not modelled.
- `os.urandom`, the public key computed by `crypto_scalarmult_base`, and the base64 encoding and decoding of keys and client ids are not modelled. Only the clamping is.
- `random.shuffle`'s random source is a parameter `pick`. The shuffle is modelled as the Fisher-Yates pass that CPython performs.
- `set()` iteration order is unspecified in Python. `Merge.Dedup` keeps first occurrences, and only the order-free properties (no duplicates, same elements) are claimed about it.
- The thread pool and `as_completed` are modelled as the list of job outcomes in completion order, which may be any order.
- The Xray subprocess, the configuration file written to disk, the log file paths and the cleanup of temporary files are not modelled.
- The JSON extraction in `extract_warp_parameters` is not modelled beyond the `/128` suffix. This covers the missing-key errors, the empty peer list and the decoding of `reserved`.
- Non-string entries in the remote `ipv4` list are not modelled, because entries are strings in the model.
- The rendering of the README tables and snippet text is not modelled. Only which positions each snippet reads is.
- Endpoints.ValidEndpoint: `str.isdigit()` is modelled for ASCII digits only. Python also accepts other Unicode decimal digits (for example Arabic-Indic digits) that `int()` would read.
- XrayConfig.BuildConfig: the `log` section (file paths and level) and `domainStrategy` are not modelled, and the HTTP inbound's protocol name is implicit in the `Inbound` type. The DNS servers, inbounds, outbounds and rules are modelled.
- XrayConfig.Resolve: the routing is simplified in two ways. First, it follows only inbound-tag rules and skips the leading DNS rule, which matches DNS traffic rather than the HTTP probes. Second, when no rule matches it returns nothing, whereas Xray falls back to its first outbound (`direct`). In the configuration built here every listener has its own rule, so the fallback never applies. A port with no listener resolves to nothing in both.

### Where the behaviour differs from its description

- The port part of a remote entry is never checked: `1.2.3.4:` and `1.2.3.4:x` are accepted (`Endpoints.EndpointOfOctets`).
- Nothing checks that 10800 + i stays a valid TCP port. `XrayConfig.PortsInRange` states the bound (54736 candidates) without enforcing it.
- The manual list, cut to 100 entries, covers only `162.159.192.1` to `162.159.192.15`; the other six prefixes never contribute (`ManualList.DefaultManualEndpoints`).
- A probe that raised an exception still counts toward completion and the progress lines (`Scan.Collect`).
- With fewer than eight published endpoints, the Warp-plus snippet chains the last endpoint to itself (`Ranking.WarpPlusPositions`).
