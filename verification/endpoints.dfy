/** Validation of the remote `ip:port` list (fetch_endpoints_from_api). */
module Endpoints {
  import opened Seqs
  import opened Decimal
  import opened Text

  /** One dotted-quad component: `o.isdigit() and 0 <= int(o) <= 255`. */
  predicate ValidOctet(o: string) {
    IsDigits(o) && Value(o) <= 255
  }

  /** The filter of fetch_endpoints_from_api: the entry splits on ':' into
      exactly two parts (otherwise the tuple unpacking raises ValueError),
      and the address part splits on '.' into four valid octets. The port
      part is never examined. */
  predicate ValidEndpoint(e: string) {
    var hostPort := Split(e, ':');
    && |hostPort| == 2
    && var octets := Split(hostPort[0], '.');
    && |octets| == 4
    && forall k :: 0 <= k < 4 ==> ValidOctet(octets[k])
  }

  /** The entries of the remote list that pass validation, in their order. */
  function ApiEndpoints(entries: seq<string>): (kept: seq<string>)
    ensures forall e :: e in kept <==> e in entries && ValidEndpoint(e)
    ensures forall e :: multiset(kept)[e] == if ValidEndpoint(e) then multiset(entries)[e] else 0
    ensures Subsequence(kept, entries)
  {
    FilterIsSubsequence(entries, ValidEndpoint);
    Filter(entries, ValidEndpoint)
  }

  /** The four address octets of a valid entry. */
  function Octets(e: string): (octets: seq<string>)
    requires ValidEndpoint(e)
    ensures |octets| == 4
  {
    Split(Split(e, ':')[0], '.')
  }

  /** The (unchecked) port text of a valid entry. */
  function PortText(e: string): string
    requires ValidEndpoint(e)
  {
    Split(e, ':')[1]
  }

  /** Every accepted entry has the shape `a.b.c.d:port`, with four valid
      octets and a port free of ':'. */
  lemma ValidEndpointShape(e: string)
    requires ValidEndpoint(e)
    ensures e == Join(Octets(e), '.') + ":" + PortText(e)
    ensures forall k :: 0 <= k < 4 ==> ValidOctet(Octets(e)[k])
    ensures ':' !in PortText(e)
  {
    var hostPort := Split(e, ':');
    JoinSplit(e, ':');
    JoinSplit(hostPort[0], '.');
    assert Join(hostPort, ':') == hostPort[0] + [':'] + hostPort[1];
  }

  /** How an entry assembled from separator-free pieces splits back. */
  lemma SplitEndpoint(octets: seq<string>, port: string)
    requires |octets| == 4
    requires forall k :: 0 <= k < 4 ==> '.' !in octets[k] && ':' !in octets[k]
    requires ':' !in port
    ensures Split(Join(octets, '.') + ":" + port, ':') == [Join(octets, '.'), port]
    ensures Split(Join(octets, '.'), '.') == octets
  {
    var host := Join(octets, '.');
    SplitJoin(octets, '.');
    assert ':' !in host by {
      var t2 := octets[2..];
      assert Join(t2, '.') == octets[2] + "." + octets[3] by {
        assert t2[1..] == [octets[3]];
      }
      assert Join(octets[1..], '.') == octets[1] + "." + Join(t2, '.') by {
        assert octets[1..][1..] == t2;
      }
      assert host == octets[0] + "." + Join(octets[1..], '.');
    }
    SplitAround(host, port, ':');
    SplitWithout(host, ':');
    SplitWithout(port, ':');
    assert host + ":" + port == host + [':'] + port;
  }

  /** An entry `a.b.c.d:port` built from four separator-free pieces is
      accepted exactly when all four pieces are valid octets, whatever the
      port text (`1.2.3.4:` and `1.2.3.4:x` pass too). */
  lemma EndpointOfOctets(octets: seq<string>, port: string)
    requires |octets| == 4
    requires forall k :: 0 <= k < 4 ==> '.' !in octets[k] && ':' !in octets[k]
    requires ':' !in port
    ensures ValidEndpoint(Join(octets, '.') + ":" + port) <==> forall k :: 0 <= k < 4 ==> ValidOctet(octets[k])
  {
    SplitEndpoint(octets, port);
  }

  /** An octet above 255 is rejected: `999.1.1.1:80` does not pass. */
  lemma RejectsOctetAbove255()
    ensures !ValidEndpoint("999.1.1.1:80")
  {
    var octets := ["999", "1", "1", "1"];
    assert Join(octets, '.') + ":" + "80" == "999.1.1.1:80" by {
      assert octets[1..][1..][1..] == ["1"];
    }
    assert "999" == Str(999);
    ValueOfStr(999);
    EndpointOfOctets(octets, "80");
  }
}
