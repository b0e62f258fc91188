/**
 * `getLocalIP`: the first interface address, in the order the system lists
 * them, that is an IP network address, not loopback and IPv4.  The address
 * list itself (or the error of reading it) is an input.
 */
module LocalIP {
  import opened Wrappers

  /** An entry of `net.InterfaceAddrs()`: a `*net.IPNet` with what the search asks of it, or any other address kind. */
  datatype InterfaceAddr =
    | IPNet(isLoopback: bool, isV4: bool, text: string)
    | OtherAddr

  datatype LocalIPError =
    | AddrsFailed(cause: string)   // the address list could not be read
    | NoLocalIP                    // "cannot find local IP"

  /** The address qualifies (main.go:51-52). */
  predicate Eligible(a: InterfaceAddr)
  {
    a.IPNet? && !a.isLoopback && a.isV4
  }

  /** Position `k` holds the first qualifying address. */
  predicate FirstEligibleAt(addrs: seq<InterfaceAddr>, k: int)
  {
    && 0 <= k < |addrs|
    && Eligible(addrs[k])
    && forall j :: 0 <= j < k ==> !Eligible(addrs[j])
  }

  /** The address text the search returns, if any address qualifies. */
  function FirstLocalIP(addrs: seq<InterfaceAddr>): Option<string>
  {
    if addrs == [] then None
    else if Eligible(addrs[0]) then Some(addrs[0].text)
    else FirstLocalIP(addrs[1..])
  }

  /**
   * The search finds nothing exactly when no address qualifies, and
   * otherwise returns the text of the first qualifying one.
   */
  lemma {:induction false} FirstLocalIPSpec(addrs: seq<InterfaceAddr>)
    ensures FirstLocalIP(addrs).None? <==> forall k :: 0 <= k < |addrs| ==> !Eligible(addrs[k])
    ensures FirstLocalIP(addrs).Some? ==>
      exists k :: FirstEligibleAt(addrs, k) && FirstLocalIP(addrs).value == addrs[k].text
  {
    if addrs != [] && !Eligible(addrs[0]) {
      var rest := addrs[1..];
      FirstLocalIPSpec(rest);
      if FirstLocalIP(rest).Some? {
        var k :| FirstEligibleAt(rest, k) && FirstLocalIP(rest).value == rest[k].text;
        assert FirstEligibleAt(addrs, k + 1);
      } else {
        assert forall k :: 1 <= k < |addrs| ==> addrs[k] == rest[k - 1];
      }
    } else if addrs != [] {
      assert FirstEligibleAt(addrs, 0);
    }
  }

  /** The first qualifying position is unique, so the result is the text at that position. */
  lemma FirstLocalIPAt(addrs: seq<InterfaceAddr>, k: int)
    requires FirstEligibleAt(addrs, k)
    ensures FirstLocalIP(addrs) == Some(addrs[k].text)
  {
    FirstLocalIPSpec(addrs);
    var k' :| FirstEligibleAt(addrs, k') && FirstLocalIP(addrs).value == addrs[k'].text;
    assert !(k' < k) && !(k < k');
  }

  /** Addresses after the first qualifying one are never looked at; leading non-qualifying ones are skipped. */
  lemma {:induction false} FirstLocalIPAppend(xs: seq<InterfaceAddr>, ys: seq<InterfaceAddr>)
    ensures FirstLocalIP(xs).Some? ==> FirstLocalIP(xs + ys) == FirstLocalIP(xs)
    ensures FirstLocalIP(xs).None? ==> FirstLocalIP(xs + ys) == FirstLocalIP(ys)
  {
    if xs == [] {
      assert xs + ys == ys;
    } else if !Eligible(xs[0]) {
      FirstLocalIPAppend(xs[1..], ys);
      assert (xs + ys)[1..] == xs[1..] + ys;
    }
  }

  /** `getLocalIP` over the (already read) address list: a search loop that returns at the first hit. */
  method GetLocalIP(addrs: Result<seq<InterfaceAddr>, string>) returns (r: Result<string, LocalIPError>)
    ensures addrs.Failure? ==> r == Failure(AddrsFailed(addrs.error))
    ensures addrs.Success? && FirstLocalIP(addrs.value).Some? ==> r == Success(FirstLocalIP(addrs.value).value)
    ensures addrs.Success? && FirstLocalIP(addrs.value).None? ==> r == Failure(NoLocalIP)
  {
    if addrs.Failure? {
      return Failure(AddrsFailed(addrs.error));
    }
    var xs := addrs.value;
    for i := 0 to |xs|
      invariant FirstLocalIP(xs) == FirstLocalIP(xs[i..])
    {
      assert xs[i..][1..] == xs[i + 1..];
      var a := xs[i];
      if a.IPNet? && !a.isLoopback {
        if a.isV4 {
          return Success(a.text);
        }
      }
    }
    assert xs[|xs|..] == [];
    r := Failure(NoLocalIP);
  }

  /** A loopback address or an IPv6 address ahead of an eligible one does not prevent finding it. */
  lemma SkipsLoopbackAndV6(lo: string, v6: string, ip: string)
    ensures FirstLocalIP([IPNet(true, true, lo), IPNet(false, false, v6), OtherAddr, IPNet(false, true, ip)]) == Some(ip)
  {
    var addrs := [IPNet(true, true, lo), IPNet(false, false, v6), OtherAddr, IPNet(false, true, ip)];
    assert FirstEligibleAt(addrs, 3);
    FirstLocalIPAt(addrs, 3);
  }
}
