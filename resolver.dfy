/**
 * The choice made by `getOpenPorts`: use the declared `PORTS` list when it
 * is set and parses, otherwise fall back to the local scan.  The scan itself
 * (a concurrent TCP probe of ports 1 to 65535) is an input here: `scanned`
 * is whatever list it produced.
 */
module PortResolver {
  import opened Wrappers
  import opened GoStrings
  import opened GoStrconv
  import opened PortSpec

  /** The span the fallback scan probes. */
  const StartPort: int := 1
  const EndPort: int := 65535

  /**
   * The ports reported for registration, given the value of `PORTS` (`""`
   * when unset) and the result of the scan the code would otherwise run.
   */
  function GetOpenPorts(portsEnv: string, scanned: seq<int>): (ports: seq<int>)
    ensures ParsePortSpec(portsEnv).Failure? ==> ports == scanned
  {
    if portsEnv != "" then
      match ParsePortSpec(portsEnv)
      case Success(p) => p
      case Failure(_) => scanned
    else scanned
  }

  /**
   * The `portsEnv != ""` guard changes nothing: the empty spec does not
   * parse, so the resolver is exactly "the parsed list, or else the scan".
   */
  lemma ResolveByParse(portsEnv: string, scanned: seq<int>)
    ensures ParsePortSpec(portsEnv).Success? ==> GetOpenPorts(portsEnv, scanned) == ParsePortSpec(portsEnv).value
    ensures ParsePortSpec(portsEnv).Failure? ==> GetOpenPorts(portsEnv, scanned) == scanned
  {
    EmptySpecFails();
  }

  /** A declared list that parses is used verbatim, whatever the scan would have found. */
  lemma DeclaredIgnoresScan(portsEnv: string, scan1: seq<int>, scan2: seq<int>)
    requires ParsePortSpec(portsEnv).Success?
    ensures GetOpenPorts(portsEnv, scan1) == GetOpenPorts(portsEnv, scan2) == ParsePortSpec(portsEnv).value
  {
    EmptySpecFails();
  }

  /** Unset `PORTS`: the scan result is reported. */
  lemma UnsetScans(scanned: seq<int>)
    ensures GetOpenPorts("", scanned) == scanned
  {
  }

  /** A `PORTS` value of nothing but white space reads as one empty token, which fails, so the scan is used. */
  lemma BlankScans(portsEnv: string, scanned: seq<int>)
    requires AllSpace(portsEnv)
    ensures GetOpenPorts(portsEnv, scanned) == scanned
  {
    assert !IsSpace(',');
    SplitSepFree(portsEnv, ',');
    TrimSpaceAround(portsEnv, [], []);
    assert portsEnv + [] + [] == portsEnv;
    CollectSingle(TokenPorts(TrimSpace(portsEnv)));
    assert ReadTokens([portsEnv]) == [TokenPorts([])] by {
      assert [portsEnv][..0] == [];
    }
  }

  /** A trailing comma spoils the whole list: the scan is used. */
  lemma TrailingCommaScans(portsEnv: string, scanned: seq<int>)
    ensures GetOpenPorts(portsEnv + ",", scanned) == scanned
  {
    TrailingCommaFails(portsEnv);
  }

  /** The list `22,8000-8002` is reported as four ports, and no scan result enters it. */
  lemma DeclaredExample(scanned: seq<int>)
    ensures GetOpenPorts("22,8000-8002", scanned) == [22, 8000, 8001, 8002]
  {
    ExampleSpec();
  }

  /**
   * What a scan can report: ports in the probed span, each at most once.
   * This is the shape a scan result has; a declared list need not have it.
   */
  predicate IsPortSet(ports: seq<int>)
  {
    && (forall i :: 0 <= i < |ports| ==> StartPort <= ports[i] <= EndPort)
    && (forall i, j :: 0 <= i < j < |ports| ==> ports[i] != ports[j])
  }

  /** A declared list is neither deduplicated nor range-checked: `80,80` and `70000` are reported as given. */
  lemma DeclaredNotPortSet(scanned: seq<int>)
    ensures GetOpenPorts("80,80", scanned) == [80, 80]
    ensures GetOpenPorts("70000", scanned) == [70000]
    ensures !IsPortSet([80, 80]) && !IsPortSet([70000])
  {
    DuplicateExample();
    OutOfRangeExample();
    assert [80, 80][0] == [80, 80][1];
    assert [70000][0] > EndPort;
  }
}
