/** The locally generated endpoint list (generate_manual_endpoints): seven
    address prefixes crossed with the last octets 1..254 and seven ports,
    prefix-major, cut to the first 100 entries. */
module ManualList {
  import opened Seqs
  import opened Decimal
  import opened Text
  import opened Endpoints

  /** The first three octets of each built-in address prefix. */
  const PrefixOctets: seq<(nat, nat, nat)> := [
    (162, 159, 192), (162, 159, 193), (162, 159, 195),
    (188, 114, 96), (188, 114, 97), (188, 114, 98), (188, 114, 99)
  ]

  /** The prefix `a.b.c.` for the octets `(a, b, c)`. */
  function PrefixText(t: (nat, nat, nat)): string {
    Str(t.0) + "." + Str(t.1) + "." + Str(t.2) + "."
  }

  /** The built-in address prefixes, "162.159.192." to "188.114.99.". */
  const Ipv4Prefixes: seq<string> :=
    seq(|PrefixOctets|, k requires 0 <= k < |PrefixOctets| => PrefixText(PrefixOctets[k]))
  const Ports: seq<nat> := [80, 443, 8080, 8880, 500, 1701, 2408]
  /** generate_manual_endpoints keeps only this many entries. */
  const ManualCap: nat := 100

  /** One iteration of the triple loop: a prefix, a last octet, a port. */
  datatype Slot = Slot(prefix: string, octet: nat, port: nat)

  /** `f"{prefix}{i}:{port}"` */
  function Render(s: Slot): string {
    s.prefix + Str(s.octet) + ":" + Str(s.port)
  }

  /** Python's `range(lo, hi)`. */
  function Range(lo: nat, hi: nat): (r: seq<nat>)
    requires lo <= hi
    ensures |r| == hi - lo
    ensures forall i :: 0 <= i < |r| ==> r[i] == lo + i
  {
    seq(hi - lo, i requires 0 <= i < hi - lo => lo + i)
  }

  /** The last octets tried for every prefix: `range(1, 255)`. */
  const LastOctets: seq<nat> := Range(1, 255)

  /** Innermost loop: every port for one prefix and octet. */
  function PortSlots(prefix: string, octet: nat, ports: seq<nat>): (r: seq<Slot>)
    ensures |r| == |ports|
    ensures forall j :: 0 <= j < |ports| ==> r[j] == Slot(prefix, octet, ports[j])
  {
    if |ports| == 0 then []
    else [Slot(prefix, octet, ports[0])] + PortSlots(prefix, octet, ports[1..])
  }

  /** Middle loop: every octet of `octets`, each with every port. */
  function OctetSlots(prefix: string, octets: seq<nat>, ports: seq<nat>): (r: seq<Slot>)
    ensures |r| == |octets| * |ports|
  {
    if |octets| == 0 then []
    else
      var rest := OctetSlots(prefix, octets[1..], ports);
      assert |octets| * |ports| == |ports| + |octets[1..]| * |ports|;
      PortSlots(prefix, octets[0], ports) + rest
  }

  /** Outer loop: prefix-major enumeration of all slots. */
  function Slots(prefixes: seq<string>, octets: seq<nat>, ports: seq<nat>): seq<Slot>
  {
    if |prefixes| == 0 then []
    else OctetSlots(prefixes[0], octets, ports) + Slots(prefixes[1..], octets, ports)
  }

  /** The enumeration has one slot per combination. */
  lemma {:induction false} SlotsLength(prefixes: seq<string>, octets: seq<nat>, ports: seq<nat>)
    ensures |Slots(prefixes, octets, ports)| == |prefixes| * (|octets| * |ports|)
  {
    if |prefixes| > 0 {
      SlotsLength(prefixes[1..], octets, ports);
      MulStep(|prefixes|, |octets| * |ports|);
    }
  }

  /** Positions inside the middle loop: octet-major, then port. */
  lemma {:induction false} OctetSlotAt(prefix: string, octets: seq<nat>, ports: seq<nat>, b: nat, j: nat, at: nat)
    requires b < |octets| && j < |ports|
    requires at == b * |ports| + j
    ensures at < |OctetSlots(prefix, octets, ports)|
    ensures OctetSlots(prefix, octets, ports)[at] == Slot(prefix, octets[b], ports[j])
    decreases b
  {
    var n := |ports|;
    var here := PortSlots(prefix, octets[0], ports);
    var rest := OctetSlots(prefix, octets[1..], ports);
    assert OctetSlots(prefix, octets, ports) == here + rest;
    if b == 0 {
      assert at == j;
    } else {
      assert at - n == (b - 1) * n + j by {
        MulStep(b, n);
      }
      OctetSlotAt(prefix, octets[1..], ports, b - 1, j, at - n);
      assert octets[1..][b - 1] == octets[b];
      ConcatAt(here, rest, at);
    }
  }

  /** Block `a` of the enumeration is the middle loop for prefix `a`. */
  lemma {:induction false} SlotsBlock(prefixes: seq<string>, octets: seq<nat>, ports: seq<nat>,
                                      a: nat, r: nat, block: nat, at: nat)
    requires a < |prefixes| && block == |octets| * |ports| && r < block
    requires at == a * block + r
    ensures at < |Slots(prefixes, octets, ports)|
    ensures Slots(prefixes, octets, ports)[at] == OctetSlots(prefixes[a], octets, ports)[r]
    decreases a
  {
    var first := OctetSlots(prefixes[0], octets, ports);
    var rest := Slots(prefixes[1..], octets, ports);
    assert Slots(prefixes, octets, ports) == first + rest;
    if a == 0 {
      assert at == r;
    } else {
      assert at - block == (a - 1) * block + r by {
        MulStep(a, block);
      }
      SlotsBlock(prefixes[1..], octets, ports, a - 1, r, block, at - block);
      assert prefixes[1..][a - 1] == prefixes[a];
      ConcatAt(first, rest, at);
    }
  }

  /** The position of a slot in the enumeration: prefix-major, then octet,
      then port. */
  lemma SlotAt(prefixes: seq<string>, octets: seq<nat>, ports: seq<nat>, a: nat, b: nat, j: nat, at: nat)
    requires a < |prefixes| && b < |octets| && j < |ports|
    requires at == (a * |octets| + b) * |ports| + j
    ensures at < |Slots(prefixes, octets, ports)|
    ensures Slots(prefixes, octets, ports)[at] == Slot(prefixes[a], octets[b], ports[j])
  {
    var block := |octets| * |ports|;
    var r := b * |ports| + j;
    assert at == a * block + r by {
      PositionArithmetic(a, |octets|, b, |ports|, j);
    }
    assert r < block by {
      BlockOffset(b, j, |octets|, |ports|);
    }
    OctetSlotAt(prefixes[a], octets, ports, b, j, r);
    SlotsBlock(prefixes, octets, ports, a, r, block, at);
  }

  lemma BlockOffset(b: nat, j: nat, m: nat, n: nat)
    requires b < m && j < n
    ensures b * n + j < m * n
  {
    assert (b + 1) * n <= m * n;
  }

  lemma DivBelow(k: nat, n: nat, m: nat)
    requires n > 0 && k < m * n
    ensures k / n < m
  {
    assert (k / n) * n <= k;
  }

  lemma MulStep(a: nat, block: nat)
    requires a > 0
    ensures a * block == block + (a - 1) * block
  {
  }

  lemma PositionArithmetic(a: nat, m: nat, b: nat, n: nat, j: nat)
    ensures (a * m + b) * n + j == a * (m * n) + (b * n + j)
  {
  }

  lemma {:induction false} OctetSlotsMember(prefix: string, octets: seq<nat>, ports: seq<nat>, x: Slot)
    requires x in OctetSlots(prefix, octets, ports)
    ensures x.prefix == prefix && x.octet in octets && x.port in ports
  {
    var here := PortSlots(prefix, octets[0], ports);
    if x in here {
      var j :| 0 <= j < |here| && here[j] == x;
    } else {
      OctetSlotsMember(prefix, octets[1..], ports, x);
    }
  }

  lemma {:induction false} SlotsMember(prefixes: seq<string>, octets: seq<nat>, ports: seq<nat>, x: Slot)
    requires x in Slots(prefixes, octets, ports)
    ensures x.prefix in prefixes && x.octet in octets && x.port in ports
  {
    if x in OctetSlots(prefixes[0], octets, ports) {
      OctetSlotsMember(prefixes[0], octets, ports, x);
    } else {
      SlotsMember(prefixes[1..], octets, ports, x);
      assert x.prefix in prefixes[1..];
    }
  }

  /** The enumeration holds exactly the combinations of a listed prefix, a
      listed octet and a listed port. */
  lemma SlotsMembership(prefixes: seq<string>, octets: seq<nat>, ports: seq<nat>, x: Slot)
    ensures x in Slots(prefixes, octets, ports) <==> x.prefix in prefixes && x.octet in octets && x.port in ports
  {
    if x.prefix in prefixes && x.octet in octets && x.port in ports {
      var a :| 0 <= a < |prefixes| && prefixes[a] == x.prefix;
      var b :| 0 <= b < |octets| && octets[b] == x.octet;
      var j :| 0 <= j < |ports| && ports[j] == x.port;
      SlotAt(prefixes, octets, ports, a, b, j, (a * |octets| + b) * |ports| + j);
    }
    if x in Slots(prefixes, octets, ports) {
      SlotsMember(prefixes, octets, ports, x);
    }
  }

  lemma {:induction false} PortSlotsNoDup(prefix: string, octet: nat, ports: seq<nat>)
    requires NoDup(ports)
    ensures NoDup(PortSlots(prefix, octet, ports))
  {
  }

  lemma {:induction false} OctetSlotsNoDup(prefix: string, octets: seq<nat>, ports: seq<nat>)
    requires NoDup(octets) && NoDup(ports)
    ensures NoDup(OctetSlots(prefix, octets, ports))
  {
    if |octets| > 0 {
      var here := PortSlots(prefix, octets[0], ports);
      var rest := OctetSlots(prefix, octets[1..], ports);
      PortSlotsNoDup(prefix, octets[0], ports);
      NoDupTail(octets);
      OctetSlotsNoDup(prefix, octets[1..], ports);
      forall x | x in here ensures x !in rest {
        var j :| 0 <= j < |here| && here[j] == x;
        if x in rest {
          OctetSlotsMember(prefix, octets[1..], ports, x);
        }
      }
      ConcatNoDup(here, rest);
    }
  }

  /** With distinct prefixes, octets and ports, no slot is enumerated twice. */
  lemma {:induction false} SlotsNoDup(prefixes: seq<string>, octets: seq<nat>, ports: seq<nat>)
    requires NoDup(prefixes) && NoDup(octets) && NoDup(ports)
    ensures NoDup(Slots(prefixes, octets, ports))
  {
    if |prefixes| > 0 {
      var first := OctetSlots(prefixes[0], octets, ports);
      var rest := Slots(prefixes[1..], octets, ports);
      OctetSlotsNoDup(prefixes[0], octets, ports);
      NoDupTail(prefixes);
      SlotsNoDup(prefixes[1..], octets, ports);
      forall x | x in first ensures x !in rest {
        OctetSlotsMember(prefixes[0], octets, ports, x);
        if x in rest {
          SlotsMember(prefixes[1..], octets, ports, x);
        }
      }
      ConcatNoDup(first, rest);
    }
  }

  /** A prefix of the form `x.y.z.` with three valid octets. */
  predicate WellFormedPrefix(p: string) {
    var parts := Split(p, '.');
    && |parts| == 4
    && parts[3] == ""
    && (forall k :: 0 <= k < 3 ==> ValidOctet(parts[k]))
    && ':' !in p
  }

  /** A slot whose prefix is well formed and whose octet fits a byte renders
      to an entry the remote-list validation would accept. */
  lemma RenderIsValidEndpoint(s: Slot)
    requires WellFormedPrefix(s.prefix) && s.octet <= 255
    ensures ValidEndpoint(Render(s))
  {
    RenderSplits(s);
    ValueOfStr(s.octet);
    var host := s.prefix + Str(s.octet);
    var parts := Split(s.prefix, '.');
    var octets := Split(host, '.');
    assert Split(Render(s), ':')[0] == host;
    assert octets == parts[..3] + [Str(s.octet)];
    assert ValidOctet(octets[3]);
    forall k | 0 <= k < 3 ensures ValidOctet(octets[k]) {
      assert octets[k] == parts[k];
    }
  }

  /** How a rendered slot splits on ':' and then on '.'. */
  lemma RenderSplits(s: Slot)
    requires WellFormedPrefix(s.prefix)
    ensures Split(Render(s), ':') == [s.prefix + Str(s.octet), Str(s.port)]
    ensures Split(s.prefix + Str(s.octet), '.') == Split(s.prefix, '.')[..3] + [Str(s.octet)]
  {
    var host := s.prefix + Str(s.octet);
    assert Render(s) == host + [':'] + Str(s.port);
    SplitAround(host, Str(s.port), ':');
    SplitWithout(host, ':');
    SplitWithout(Str(s.port), ':');
    var parts := Split(s.prefix, '.');
    SplitAppend(s.prefix, Str(s.octet), '.');
    assert parts[3] + Str(s.octet) == Str(s.octet);
    assert parts[..|parts| - 1] == parts[..3];
  }

  /** Distinct slots with well-formed prefixes render to distinct strings. */
  lemma RenderInjective(s: Slot, t: Slot)
    requires WellFormedPrefix(s.prefix) && WellFormedPrefix(t.prefix)
    requires Render(s) == Render(t)
    ensures s == t
  {
    RenderSplits(s);
    RenderSplits(t);
    var hs := s.prefix + Str(s.octet);
    assert hs == Split(Render(s), ':')[0] == t.prefix + Str(t.octet);
    assert Str(s.port) == Split(Render(s), ':')[1] == Str(t.port);
    assert Str(s.octet) == Split(hs, '.')[3] == Str(t.octet);
    StrInjective(s.port, t.port);
    StrInjective(s.octet, t.octet);
    assert s.prefix == hs[..|s.prefix|] && t.prefix == hs[..|t.prefix|];
  }

  /** generate_manual_endpoints: the rendered enumeration, cut to 100. */
  function ManualEndpoints(prefixes: seq<string>, ports: seq<nat>): (r: seq<string>)
    ensures |r| == if |Slots(prefixes, LastOctets, ports)| < ManualCap
                   then |Slots(prefixes, LastOctets, ports)| else ManualCap
    ensures forall k :: 0 <= k < |r| ==> r[k] == Render(Slots(prefixes, LastOctets, ports)[k])
  {
    var all := Slots(prefixes, LastOctets, ports);
    var rendered := seq(|all|, i requires 0 <= i < |all| => Render(all[i]));
    rendered[..if |rendered| < ManualCap then |rendered| else ManualCap]
  }

  /** Entry k of the manual list is `prefix + str(octet) + ":" + str(port)`
      for the k-th (prefix, octet, port) of the prefix-major enumeration. */
  lemma ManualEndpointAt(prefixes: seq<string>, ports: seq<nat>, a: nat, o: nat, j: nat, at: nat)
    requires a < |prefixes| && 1 <= o <= 254 && j < |ports|
    requires at == (a * 254 + (o - 1)) * |ports| + j && at < ManualCap
    ensures at < |ManualEndpoints(prefixes, ports)|
    ensures ManualEndpoints(prefixes, ports)[at] == prefixes[a] + Str(o) + ":" + Str(ports[j])
  {
    assert |LastOctets| == 254 && LastOctets[o - 1] == o;
    SlotAt(prefixes, LastOctets, ports, a, o - 1, j, at);
  }

  /** With distinct prefixes of the form `x.y.z.` and distinct ports, the
      manual list has no duplicates and every entry passes validation. */
  lemma ManualEndpointsWellFormed(prefixes: seq<string>, ports: seq<nat>)
    requires NoDup(prefixes) && NoDup(ports)
    requires forall k :: 0 <= k < |prefixes| ==> WellFormedPrefix(prefixes[k])
    ensures NoDup(ManualEndpoints(prefixes, ports))
    ensures forall e :: e in ManualEndpoints(prefixes, ports) ==> ValidEndpoint(e)
  {
    var all := Slots(prefixes, LastOctets, ports);
    var r := ManualEndpoints(prefixes, ports);
    assert NoDup(LastOctets);
    SlotsNoDup(prefixes, LastOctets, ports);
    forall k | 0 <= k < |r| ensures WellFormedPrefix(all[k].prefix) && all[k].octet <= 254 {
      SlotsMember(prefixes, LastOctets, ports, all[k]);
    }
    forall i, j | 0 <= i < j < |r| ensures r[i] != r[j] {
      if r[i] == r[j] {
        RenderInjective(all[i], all[j]);
      }
    }
    forall e | e in r ensures ValidEndpoint(e) {
      var k :| 0 <= k < |r| && r[k] == e;
      RenderIsValidEndpoint(all[k]);
    }
  }

  /** How a prefix `a.b.c.` splits on '.'. */
  lemma SplitPrefix(t: (nat, nat, nat))
    ensures Split(PrefixText(t), '.') == [Str(t.0), Str(t.1), Str(t.2), ""]
  {
    var ab := Str(t.0) + "." + Str(t.1);
    var abc := ab + "." + Str(t.2);
    SplitAround(Str(t.0), Str(t.1), '.');
    SplitWithout(Str(t.0), '.');
    SplitWithout(Str(t.1), '.');
    SplitAround(ab, Str(t.2), '.');
    SplitWithout(Str(t.2), '.');
    SplitAround(abc, "", '.');
    assert PrefixText(t) == abc + ['.'] + "";
  }

  /** Three octets up to 255 spell a well-formed prefix. */
  lemma PrefixOfOctets(t: (nat, nat, nat))
    requires t.0 <= 255 && t.1 <= 255 && t.2 <= 255
    ensures WellFormedPrefix(PrefixText(t))
  {
    SplitPrefix(t);
    ValueOfStr(t.0);
    ValueOfStr(t.1);
    ValueOfStr(t.2);
  }

  /** Distinct octet triples spell distinct prefixes. */
  lemma PrefixTextInjective(t: (nat, nat, nat), u: (nat, nat, nat))
    requires PrefixText(t) == PrefixText(u)
    ensures t == u
  {
    SplitPrefix(t);
    SplitPrefix(u);
    StrInjective(t.0, u.0);
    StrInjective(t.1, u.1);
    StrInjective(t.2, u.2);
  }

  /** The built-in prefixes are of the form `x.y.z.`. */
  lemma DefaultPrefixesWellFormed()
    ensures forall k :: 0 <= k < |Ipv4Prefixes| ==> WellFormedPrefix(Ipv4Prefixes[k])
  {
    forall k | 0 <= k < |Ipv4Prefixes| ensures WellFormedPrefix(Ipv4Prefixes[k]) {
      PrefixOfOctets(PrefixOctets[k]);
    }
  }

  /** No built-in prefix or port is listed twice. */
  lemma DefaultsDistinct()
    ensures NoDup(Ipv4Prefixes) && NoDup(Ports)
  {
    PortsDistinct();
    OctetTriplesDistinct();
    forall i, j | 0 <= i < j < |Ipv4Prefixes| ensures Ipv4Prefixes[i] != Ipv4Prefixes[j] {
      if Ipv4Prefixes[i] == Ipv4Prefixes[j] {
        PrefixTextInjective(PrefixOctets[i], PrefixOctets[j]);
      }
    }
  }

  lemma PortsDistinct()
    ensures NoDup(Ports)
  {
  }

  lemma OctetTriplesDistinct()
    ensures NoDup(PrefixOctets)
  {
  }

  /** While the cap falls inside the first prefix's block, entry k is that
      prefix with last octet k / |ports| + 1 and port k % |ports|. */
  lemma FirstBlockEntry(prefixes: seq<string>, ports: seq<nat>, k: nat)
    requires |prefixes| > 0 && |ports| > 0
    requires k < ManualCap && k < 254 * |ports|
    ensures k < |ManualEndpoints(prefixes, ports)|
    ensures ManualEndpoints(prefixes, ports)[k]
         == prefixes[0] + Str(k / |ports| + 1) + ":" + Str(ports[k % |ports|])
  {
    var n := |ports|;
    DivBelow(k, n, 254);
    ManualEndpointAt(prefixes, ports, 0, k / n + 1, k % n, k);
  }

  /** With the built-in constants the cap bites long before the first prefix
      is exhausted: the list is 100 entries long and entry k is
      162.159.192.(k / 7 + 1) with port Ports[k % 7], so the manual list
      only ever covers the addresses 162.159.192.1 to 162.159.192.15. */
  lemma DefaultManualEndpoints(k: nat)
    requires k < ManualCap
    ensures |ManualEndpoints(Ipv4Prefixes, Ports)| == ManualCap
    ensures ManualEndpoints(Ipv4Prefixes, Ports)[k]
         == "162.159.192." + Str(k / 7 + 1) + ":" + Str(Ports[k % 7])
  {
    FirstDefaultPrefix();
    assert |Ports| == 7;
    SevenPortBlock(Ipv4Prefixes, Ports, k);
  }

  /** FirstBlockEntry and FirstBlockFull for seven ports and a first prefix
      of 162.159.192. */
  lemma SevenPortBlock(prefixes: seq<string>, ports: seq<nat>, k: nat)
    requires |prefixes| > 0 && prefixes[0] == "162.159.192." && |ports| == 7
    requires k < ManualCap
    ensures |ManualEndpoints(prefixes, ports)| == ManualCap
    ensures ManualEndpoints(prefixes, ports)[k]
         == "162.159.192." + Str(k / 7 + 1) + ":" + Str(ports[k % 7])
  {
    FirstBlockEntry(prefixes, ports, k);
    FirstBlockFull(prefixes, ports);
  }

  /** When the first prefix's block alone exceeds the cap, the list is
      exactly ManualCap entries long. */
  lemma FirstBlockFull(prefixes: seq<string>, ports: seq<nat>)
    requires |prefixes| > 0 && ManualCap <= 254 * |ports|
    ensures |ManualEndpoints(prefixes, ports)| == ManualCap
  {
    FirstBlockEntry(prefixes, ports, ManualCap - 1);
  }

  lemma FirstDefaultPrefix()
    ensures Ipv4Prefixes[0] == "162.159.192."
  {
    assert Ipv4Prefixes[0] == PrefixText((162, 159, 192));
  }
}
