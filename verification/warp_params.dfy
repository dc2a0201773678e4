/** The WARP parameters handed to the proxy configuration, and the one
    piece of logic applied to them: the client IPv6 address gets a `/128`
    prefix length unless it already has one (extract_warp_parameters). */
module WarpParams {
  import opened Text

  /** PrivateKey, IPv6, Reserved and PublicKey of the parameter dictionary.
      The keys are base64 text and `reserved` the decoded client id bytes;
      neither is interpreted here. */
  datatype Params = Params(privateKey: string, ipv6: string, reserved: seq<nat>, publicKey: string)

  const HostPrefixLength: string := "/128"

  /** The client address with `/128` appended when it does not already end
      with it. */
  function NormalizeIpv6(v6: string): (r: string)
    ensures EndsWith(r, HostPrefixLength)
    ensures |r| == |v6| || |r| == |v6| + |HostPrefixLength|
    ensures r[..|v6|] == v6
    ensures |r| == |v6| <==> EndsWith(v6, HostPrefixLength)
  {
    if EndsWith(v6, HostPrefixLength) then v6 else v6 + HostPrefixLength
  }

  /** Normalising twice is normalising once. */
  lemma NormalizeIdempotent(v6: string)
    ensures NormalizeIpv6(NormalizeIpv6(v6)) == NormalizeIpv6(v6)
  {
  }
}
