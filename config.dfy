/**
 * The configuration `main` reads from the environment: the monitoring
 * server's host and port (with their defaults) and the two endpoint URLs
 * built from them, and the metric send interval.  An environment value is
 * a string, `""` when the variable is unset.
 */
module AgentConfig {
  import opened Wrappers
  import opened GoStrconv

  // ---------------------------------------------------------------------
  // Server address and endpoint URLs.

  const DefaultHost: string := "localhost"
  const DefaultPort: string := "8080"
  const Scheme: string := "http://"
  const RegisterPath: string := "/api/agent/register"
  const MetricsPath: string := "/api/metrics"

  /** An environment value, or `default` when it is empty. */
  function OrDefault(value: string, default: string): (r: string)
    ensures value != "" ==> r == value
    ensures value == "" ==> r == default
  {
    if value == "" then default else value
  }

  /** `MONITORING_SERVER_HOST`, defaulting to `localhost`. */
  function ServerHost(hostEnv: string): (host: string)
    ensures host != ""
  {
    OrDefault(hostEnv, DefaultHost)
  }

  /** `MONITORING_SERVER_PORT`, defaulting to `8080`. */
  function ServerPort(portEnv: string): (port: string)
    ensures port != ""
  {
    OrDefault(portEnv, DefaultPort)
  }

  /** `http://host:port`, the prefix both endpoints share. */
  function BaseURL(hostEnv: string, portEnv: string): string
  {
    Scheme + ServerHost(hostEnv) + ":" + ServerPort(portEnv)
  }

  /** The registration endpoint. */
  function RegistrationURL(hostEnv: string, portEnv: string): string
  {
    BaseURL(hostEnv, portEnv) + RegisterPath
  }

  /** The metrics endpoint. */
  function MetricsURL(hostEnv: string, portEnv: string): string
  {
    BaseURL(hostEnv, portEnv) + MetricsPath
  }

  /** The default applies exactly when the value is empty: a value spelled like the default is the same value. */
  lemma DefaultsOnlyWhenEmpty(hostEnv: string, portEnv: string)
    ensures ServerHost(hostEnv) == DefaultHost <==> hostEnv == "" || hostEnv == DefaultHost
    ensures ServerPort(portEnv) == DefaultPort <==> portEnv == "" || portEnv == DefaultPort
    ensures hostEnv != "" ==> ServerHost(hostEnv) == hostEnv
    ensures portEnv != "" ==> ServerPort(portEnv) == portEnv
  {
  }

  /** The first position of `c` in `s`, if any. */
  function IndexOf(s: string, c: char): (r: Option<nat>)
    ensures r.None? <==> c !in s
    ensures r.Some? ==> r.value < |s| && s[r.value] == c && c !in s[..r.value]
  {
    if s == [] then None
    else if s[0] == c then Some(0)
    else
      match IndexOf(s[1..], c)
      case None => None
      case Some(k) =>
        assert s[..k + 1] == [s[0]] + s[1..][..k];
        Some(k + 1)
  }

  /** An occurrence of `c` after a `c`-free prefix is the first one. */
  lemma IndexOfAfter(a: string, c: char, b: string)
    requires c !in a
    ensures IndexOf(a + [c] + b, c) == Some(|a|)
  {
    var s := a + [c] + b;
    assert s[|a|] == c;
    assert s[..|a|] == a;
  }

  /**
   * The inverse of URL composition: the host and port an endpoint URL with
   * the given path addresses, read up to the first `:` after the scheme.
   */
  function ParseEndpoint(url: string, path: string): (r: Option<(string, string)>)
    ensures r.Some? ==> url == Scheme + r.value.0 + ":" + r.value.1 + path
  {
    if |url| < |Scheme| + |path| || url[..|Scheme|] != Scheme || url[|url| - |path|..] != path then None
    else
      var mid := url[|Scheme|..|url| - |path|];
      match IndexOf(mid, ':')
      case None => None
      case Some(k) =>
        Recompose(url, |Scheme|, |url| - |path|, k);
        Some((mid[..k], mid[k + 1..]))
  }

  /** Cutting `url` into prefix, middle and suffix, and the middle at its `:`, loses nothing. */
  lemma Recompose(url: string, i: nat, j: nat, k: nat)
    requires i <= j <= |url| && k < j - i && url[i + k] == ':'
    ensures url == url[..i] + url[i..j][..k] + ":" + url[i..j][k + 1..] + url[j..]
  {
    var mid := url[i..j];
    assert mid == mid[..k] + [mid[k]] + mid[k + 1..];
    assert url == url[..i] + mid + url[j..];
  }

  /** For a host without `:`, the endpoint URL gives back exactly the host and port it was built from. */
  lemma EndpointRoundTrip(hostEnv: string, portEnv: string, path: string)
    requires ':' !in hostEnv
    ensures ParseEndpoint(BaseURL(hostEnv, portEnv) + path, path) == Some((ServerHost(hostEnv), ServerPort(portEnv)))
  {
    var host, port := ServerHost(hostEnv), ServerPort(portEnv);
    var url := BaseURL(hostEnv, portEnv) + path;
    assert ':' !in host by {
      assert ':' !in DefaultHost;
    }
    assert url == Scheme + (host + ":" + port) + path;
    assert url[..|Scheme|] == Scheme;
    assert url[|url| - |path|..] == path;
    var mid := url[|Scheme|..|url| - |path|];
    assert mid == host + [':'] + port;
    IndexOfAfter(host, ':', port);
    assert mid[..|host|] == host;
    assert mid[|host| + 1..] == port;
  }

  /** Both endpoints address the same server, and a host without `:` is recovered from either. */
  lemma EndpointsAgree(hostEnv: string, portEnv: string)
    requires ':' !in hostEnv
    ensures ParseEndpoint(RegistrationURL(hostEnv, portEnv), RegisterPath)
            == ParseEndpoint(MetricsURL(hostEnv, portEnv), MetricsPath)
            == Some((ServerHost(hostEnv), ServerPort(portEnv)))
  {
    EndpointRoundTrip(hostEnv, portEnv, RegisterPath);
    EndpointRoundTrip(hostEnv, portEnv, MetricsPath);
  }

  /** Different server addresses (hosts without `:`) give different registration URLs. */
  lemma RegistrationURLInjective(h1: string, p1: string, h2: string, p2: string)
    requires ':' !in h1 && ':' !in h2
    requires RegistrationURL(h1, p1) == RegistrationURL(h2, p2)
    ensures ServerHost(h1) == ServerHost(h2) && ServerPort(p1) == ServerPort(p2)
  {
    EndpointRoundTrip(h1, p1, RegisterPath);
    EndpointRoundTrip(h2, p2, RegisterPath);
  }

  /** With nothing set, the agent registers at `http://localhost:8080/api/agent/register`. */
  lemma DefaultEndpoints()
    ensures RegistrationURL("", "") == "http://localhost:8080/api/agent/register"
    ensures MetricsURL("", "") == "http://localhost:8080/api/metrics"
  {
    assert BaseURL("", "") == "http://localhost:8080";
  }

  // ---------------------------------------------------------------------
  // The send interval, as a Go `time.Duration` (int64 nanoseconds).

  /** `time.Second` in nanoseconds. */
  const Second: int := 1_000_000_000
  const DefaultSendInterval: int := 60 * Second
  /** The most whole seconds whose duration fits in an int64. */
  const MaxSeconds: int := MaxInt64 / Second

  const TwoTo64: int := 0x1_0000_0000_0000_0000

  /** Go's int64 arithmetic: reduce modulo 2^64 into the signed range. */
  function Wrap64(x: int): (y: int)
    ensures InInt64(y)
    ensures InInt64(x) ==> y == x
    ensures (x - y) % TwoTo64 == 0
  {
    var m := (x - MinInt64) % TwoTo64;
    assert x - MinInt64 == (x - MinInt64) / TwoTo64 * TwoTo64 + m;
    m + MinInt64
  }

  /** One wrap: an int64 product that overshoots MaxInt64 by less than 2^64 loses exactly 2^64. */
  lemma Wrap64Once(x: int)
    requires MaxInt64 < x <= MaxInt64 + TwoTo64
    ensures Wrap64(x) == x - TwoTo64
  {
    var y := x - MinInt64;
    assert TwoTo64 <= y < 2 * TwoTo64;
    assert y % TwoTo64 == y - TwoTo64 by {
      assert y == 1 * TwoTo64 + (y - TwoTo64);
    }
  }

  /**
   * `SEND_INTERVAL` as main.go:294-302 computes it: the default 60 s when
   * unset or not an integer, otherwise `time.Duration(seconds) * time.Second`
   * with the int64 product wrapping.
   */
  function SendInterval(s: string): (d: int)
    ensures InInt64(d)
  {
    if s == "" then DefaultSendInterval
    else
      match Atoi(s)
      case Success(secs) => Wrap64(secs * Second)
      case Failure(_) => DefaultSendInterval
  }

  /** Unset or non-integer: 60 seconds. */
  lemma SendIntervalDefault(s: string)
    requires s == "" || Atoi(s).Failure?
    ensures SendInterval(s) == DefaultSendInterval
  {
  }

  /** Any integer whose duration fits, zero and negative ones included, is taken as that many seconds. */
  lemma SendIntervalSeconds(secs: int)
    requires -MaxSeconds <= secs <= MaxSeconds
    ensures SendInterval(FormatInt(secs)) == secs * Second
  {
    AtoiFormatInt(secs);
  }

  /** `time.NewTicker` panics unless its duration is positive. */
  predicate TickerAccepts(d: int)
  {
    d > 0
  }

  /** A zero or negative `SEND_INTERVAL` reaches `time.NewTicker` as a non-positive duration. */
  lemma NonPositiveIntervalPanics(secs: int)
    requires -MaxSeconds <= secs <= 0
    ensures !TickerAccepts(SendInterval(FormatInt(secs)))
  {
    SendIntervalSeconds(secs);
  }

  /** `SEND_INTERVAL=18446744074` wraps to 290448384 ns, under a third of a second. */
  lemma LargeIntervalWraps()
    ensures SendInterval(FormatInt(18446744074)) == 290448384
    ensures 0 < SendInterval(FormatInt(18446744074)) < Second
  {
    AtoiFormatInt(18446744074);
    Wrap64Once(18446744074 * Second);
  }

  /**
   * The send interval as intended: a positive whole number of seconds that
   * fits a duration; anything else (unset, not an integer, zero, negative,
   * too large) gives the default.
   */
  function EffectiveSendInterval(s: string): (d: int)
    ensures TickerAccepts(d) && InInt64(d)
    ensures d % Second == 0
  {
    if s == "" then DefaultSendInterval
    else
      match Atoi(s)
      case Success(secs) => if 1 <= secs <= MaxSeconds then secs * Second else DefaultSendInterval
      case Failure(_) => DefaultSendInterval
  }

  /** Wherever the written code yields a usable interval of whole seconds, the corrected one agrees with it. */
  lemma EffectiveAgrees(s: string)
    requires s == "" || Atoi(s).Failure? || 1 <= Atoi(s).value <= MaxSeconds
    ensures EffectiveSendInterval(s) == SendInterval(s)
  {
  }

  /** `SEND_INTERVAL=0` and negative values give the default, and the large value no longer wraps. */
  lemma EffectiveFixesFindings(secs: int)
    requires -MaxSeconds <= secs <= 0
    ensures EffectiveSendInterval(FormatInt(secs)) == DefaultSendInterval
    ensures EffectiveSendInterval(FormatInt(18446744074)) == DefaultSendInterval
  {
    AtoiFormatInt(secs);
    AtoiFormatInt(18446744074);
  }
}
