/** Which address the backend logs as the client's: the Cloudflare header
    first, then the first hop of `X-Forwarded-For`, then the socket
    address. */
module IpExtractor {
  import opened Wrappers
  import opened JsText
  import opened Users

  /** `xForwardedFor.split(',')[0].trim()`: the first hop of the chain. */
  function FirstHop(xff: string): (ip: string)
    ensures ',' !in ip
    ensures |ip| <= |xff|
  {
    Trim(Split(xff, ',')[0])
  }

  /** `getClientIp`: `cfConnectingIp`, `xForwardedFor` and `reqIp` are the
      two headers and the address Express reports, each possibly absent. */
  function GetClientIp(cfConnectingIp: Option<string>, xForwardedFor: Option<string>,
                       reqIp: Option<string>): (ip: string)
    ensures ip != []
    ensures Truthy(cfConnectingIp) ==> ip == cfConnectingIp.value
    ensures !Truthy(cfConnectingIp) && Truthy(xForwardedFor) && FirstHop(xForwardedFor.value) != [] ==>
      ip == FirstHop(xForwardedFor.value)
    ensures !Truthy(cfConnectingIp) && !(Truthy(xForwardedFor) && FirstHop(xForwardedFor.value) != []) ==>
      ip == if Truthy(reqIp) then reqIp.value else "unknown"
  {
    if Truthy(cfConnectingIp) then cfConnectingIp.value
    else if Truthy(xForwardedFor) && FirstHop(xForwardedFor.value) != [] then FirstHop(xForwardedFor.value)
    else if Truthy(reqIp) then reqIp.value
    else "unknown"
  }

  /** The first hop is the text before the first comma with surrounding
      whitespace removed: for a chain `a, b, ...` it is `a` trimmed. */
  lemma FirstHopIsFirstElement(first: string, rest: string)
    requires ',' !in first
    ensures FirstHop(first + "," + rest) == Trim(first)
    ensures FirstHop(first) == Trim(first)
  {
    SplitCons(first, ',', rest);
    assert first + "," + rest == first + [','] + rest;
    SplitNone(first, ',');
  }

  /** A chain whose first element is blank falls through to the socket
      address even when later elements are not blank. */
  lemma BlankFirstHopFallsThrough(pad: string, rest: string, reqIp: Option<string>)
    requires forall k | 0 <= k < |pad| :: IsSpace(pad[k])
    requires ',' !in pad
    ensures GetClientIp(None, Some(pad + "," + rest), reqIp)
      == if Truthy(reqIp) then reqIp.value else "unknown"
  {
    FirstHopIsFirstElement(pad, rest);
  }
}
