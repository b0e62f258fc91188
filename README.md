# cheetah-monitoring-agent: startup configuration and port resolution

This project models the deterministic core of the agent in `main.go`. The
agent registers itself with a monitoring server and then reports metrics.
The model covers five pieces:

- **`parsePorts`.** It reads a `PORTS` value such as `8080,9000-9090,1433`
  into the list of ports it names. The model has two halves:
  - a specification function, `PortSpec.ParsePortSpec`, that splits,
    trims, reads each token and stops at the first error;
  - the loop as the code writes it, `PortSpec.ParsePorts`, which appends
    token by token and is proved equal to the function.
- **The choice in `getOpenPorts`.** A declared list that parses is used
  as given. Otherwise the agent scans. The scan's result is an input of
  the model.
- **The endpoint URLs.** `main` builds them from the server host and port,
  with the defaults `localhost` and `8080`.
- **The send interval.** This is `SEND_INTERVAL` in seconds, default 60,
  held as an int64 count of nanoseconds as Go's `time.Duration` is.
- **`getLocalIP`.** A search loop finds the first non-loopback IPv4
  network address.

The library behaviour these rely on is modelled as well:

- `strings.Split` with a one-character separator;
- `strings.TrimSpace`, with Go's `unicode.IsSpace` set of spaces;
- `strconv.Atoi` on a 64-bit platform, meaning an optional sign, at least
  one decimal digit and an int64 range check. `GoStrconv.FormatInt`, the
  decimal text of an integer, is the reference inverse of `Atoi`; `main.go`
  itself never formats integers.

Modules: `Wrappers` (Option, Result), `GoStrings`, `GoStrconv`,
`PortSpec`, `PortResolver`, `AgentConfig`, `LocalIP` and `Registration`.

Three behaviours of the code a reader may not expect:

- Registration succeeds only on status 200; 201 or 204 fail
  (`Registration.Only200Succeeds`).
- A declared list keeps duplicates and values outside 1–65535, unlike a
  scan result (`PortResolver.DeclaredNotPortSet`).
- `SEND_INTERVAL=0` reaches `time.NewTicker` as a zero duration, which
  panics. See the findings below.

## Model

| member | source | states |
|---|---|---|
| GoStrings.Split | main.go:64 | `strings.Split` yields one more part than there are separators, and no part contains the separator |
| GoStrings.JoinSplit | main.go:64 | joining the parts of a split with the separator gives back the original string |
| GoStrings.SplitJoin | main.go:64 | splitting separator-free parts that were joined gives back the parts |
| GoStrings.SplitSepFree | main.go:64 | a string without the separator splits into itself alone |
| GoStrings.SplitConcat | main.go:64 | splitting at one separator splits each side independently |
| GoStrings.IsSpace | main.go:66 | the white space `strings.TrimSpace` cuts: the Latin-1 spaces and the other Unicode White_Space characters, as Go's `unicode.IsSpace` lists them |
| GoStrings.TrimSpace | main.go:66 | the result is no longer than the input and has no space at either end |
| GoStrings.TrimSpaceSlice | main.go:66 | the result is a contiguous slice of the input, and everything cut on both sides is white space |
| GoStrings.TrimSpaceAround | main.go:66 | trimming white space around a trimmed core gives exactly that core |
| GoStrings.TrimSpaceIdempotent | main.go:72 | trimming twice is trimming once |
| GoStrconv.Atoi | main.go:72 | a successful result is an int64; the error names `Atoi` and the input; the empty string is a syntax error |
| GoStrconv.AtoiAccepts | main.go:87 | success needs an optional sign then only digits; an unsigned digit string within int64 reads as its decimal value |
| GoStrconv.AtoiFormatInt | main.go:87 | `Atoi` reads back every int64 from its decimal text and reports a range error outside int64 |
| GoStrconv.AtoiPlusSign | main.go:72 | a leading `+` is accepted and changes nothing |
| GoStrconv.FormatNat | main.go:87 | decimal text: non-empty digits, no leading zero, denoting the number |
| GoStrconv.FormatInt | main.go:72-87 | the decimal text of an integer, never empty; the reference inverse of `Atoi` (see `AtoiFormatInt`), used to state which texts the parser reads as which numbers |
| PortSpec.Expand | main.go:83-85 | a range yields `end - start + 1` ascending consecutive values starting at `start` |
| PortSpec.TokenPorts | main.go:67-91 | a token that reads successfully contributes at least one port |
| PortSpec.ReadTokens | main.go:64-66 | one read result per token |
| PortSpec.ReadTokensAt | main.go:64-66 | the result at position `i` is the reading of token `i` after trimming |
| PortSpec.Collect | main.go:65-94 | the outer loop as a fold: ports appended in token order, the first failing token ending it; `CollectSuccess` and `CollectFailure` relate it to an independent description |
| PortSpec.ParsePortSpec | main.go:62-95 | the specification of `parsePorts`: split at commas, read every trimmed token, fold; what it yields is stated by `ParsePortSpecTokens` and the lemmas after it |
| PortSpec.CollectSuccess | main.go:65-94 | the fold succeeds iff every token does, and its value is the in-order concatenation of the tokens' ports |
| PortSpec.CollectFailure | main.go:70-90 | the fold's error is the error of the first failing token, with no partial list |
| PortSpec.CollectAppend | main.go:65-93 | reading a longer token list: an earlier failure wins, otherwise the later failure, otherwise the lists concatenate |
| PortSpec.ReadTokensAppend | main.go:65-66 | tokens are read independently of each other |
| PortSpec.ParsePortSpecTokens | main.go:62-95 | parsing succeeds iff every trimmed token reads, yields the concatenation of their ports, and fails with the first bad token's error |
| PortSpec.ParsePortSpecAppend | main.go:64-93 | a spec joined with a comma behaves as its two halves in order, the first error winning |
| PortSpec.ParseLength | main.go:65-93 | a successful parse of `n` tokens yields at least `n` ports |
| PortSpec.ParsePortSpecNonEmpty | main.go:62-95 | a successful parse is never empty |
| PortSpec.EmptySpecFails | main.go:87-90 | the empty spec is one empty token, rejected with Atoi's syntax error on `""` |
| PortSpec.TrailingCommaFails | main.go:87-90 | a trailing comma makes the whole parse fail |
| PortSpec.DigitsAreTrimmed | main.go:66 | a digit string is unchanged by trimming and contains neither `-` nor `,` |
| PortSpec.SingleToken | main.go:64-66 | a trimmed spec without commas is read as its one token |
| PortSpec.NumberToken | main.go:86-91 | a plain decimal token `n` gives exactly `[n]`, with no range limit |
| PortSpec.DuplicatesKept | main.go:91 | `n,n` yields `[n, n]`: no deduplication |
| PortSpec.DashToken | main.go:67-85 | `x-y` whose two sides, each trimmed, read as integers `a` and `b` yields the range `a..b` when `a <= b`, and otherwise fails with start-after-end |
| PortSpec.SpacedNumberLeft | main.go:72 | a decimal number followed by spaces has no dash and reads as the number once trimmed |
| PortSpec.SpacedNumberRight | main.go:76 | a decimal number after spaces has no dash and reads as the number once trimmed |
| PortSpec.SpacedRangeToken | main.go:72-85 | spaces around the dash of a range, such as `1 - 3`, are trimmed from both sides: the token reads as the range |
| PortSpec.RangeToken | main.go:80-85 | the decimal range `a-b` yields `a..b` when `a <= b`, and otherwise fails |
| PortSpec.ManyDashesToken | main.go:68-71 | a token with two or more dashes, such as `1-2-3`, is an invalid range |
| PortSpec.LeadingDashToken | main.go:72-75 | a token starting with `-` fails; with no further dash, such as `-5`, the error is Atoi's syntax error on the empty left part |
| PortSpec.ExampleSpec | main.go:62-95 | the literal `22,8000-8002` parses to `[22, 8000, 8001, 8002]` |
| PortSpec.DuplicateExample | main.go:86-91 | the literal `80,80` parses to `[80, 80]` |
| PortSpec.OutOfRangeExample | main.go:86-91 | the literal `70000`, above the highest TCP port, parses to `[70000]` |
| PortSpec.DocumentedExample | main.go:60-61 | the literal `8080,9000-9090,1433` documented beside the parser parses to 8080, then 9000 through 9090, then 1433: 93 ports |
| PortSpec.AppendRange | main.go:83-85 | the inner loop appends exactly the range `start..end` to the list so far |
| PortSpec.AppendToken | main.go:66-92 | one iteration of the outer loop: the token's error, or the list so far extended by the token's ports |
| PortSpec.ParsePortsStep | main.go:65-93 | one more token read into the fold: its error if it fails, otherwise the ports so far followed by its ports |
| PortSpec.ParsePorts | main.go:62-95 | the imperative parser returns exactly what the specification function gives |
| PortSpec.Increment64 | main.go:83 | Go's `i++` on int64: the successor below MaxInt64, always an int64 |
| PortSpec.RangeLoopAtMaxInt64 | main.go:83 | with `end = MaxInt64` the guard holds for every int64 and `i++` wraps to MinInt64, so the loop never ends; the unbounded model reads that token as one port |
| PortResolver.GetOpenPorts | main.go:100-111 | a spec that fails to parse falls back to the scan result |
| PortResolver.ResolveByParse | main.go:101-111 | the result is exactly the parsed list when the spec parses and the scan otherwise, so the empty-value guard is redundant |
| PortResolver.DeclaredIgnoresScan | main.go:102-109 | a declared list that parses is returned verbatim, independent of any scan |
| PortResolver.UnsetScans | main.go:101-102 | an unset `PORTS` gives the scan result |
| PortResolver.BlankScans | main.go:103-106 | an all-white-space `PORTS` fails to parse and falls back to the scan |
| PortResolver.TrailingCommaScans | main.go:103-106 | a `PORTS` value with a trailing comma falls back to the scan |
| PortResolver.DeclaredExample | main.go:102-109 | the literal `PORTS=22,8000-8002` reports those four ports, whatever the scan found |
| PortResolver.DeclaredNotPortSet | main.go:102-109 | declared `80,80` and `70000` are reported as given, though neither is a duplicate-free list within 1–65535 |
| AgentConfig.OrDefault | main.go:272-279 | a non-empty environment value is used as is; only the empty value is replaced by the default |
| AgentConfig.ServerHost | main.go:272-275 | the server host is never empty |
| AgentConfig.ServerPort | main.go:276-279 | the server port is never empty |
| AgentConfig.DefaultsOnlyWhenEmpty | main.go:272-279 | host and port take their defaults exactly when unset; a set value is used unchanged |
| AgentConfig.BaseURL | main.go:280 | `http://host:port`, the prefix both endpoint URLs share; `ParseEndpoint` reads host and port back from it |
| AgentConfig.RegistrationURL | main.go:280 | the registration endpoint, the base URL followed by `/api/agent/register`; injective in the server address (`RegistrationURLInjective`) |
| AgentConfig.MetricsURL | main.go:290 | the metrics endpoint, the base URL followed by `/api/metrics`; it names the same server as the registration URL (`EndpointsAgree`) |
| AgentConfig.ParseEndpoint | main.go:280 | whatever host and port it reads back, the URL is `http://host:port` followed by the path |
| AgentConfig.EndpointRoundTrip | main.go:280 | for a host without `:`, the host and port a URL was built from are read back from it |
| AgentConfig.EndpointsAgree | main.go:280-290 | the registration and metrics URLs address the same host and port |
| AgentConfig.RegistrationURLInjective | main.go:272-280 | different server addresses, hosts without `:`, give different registration URLs |
| AgentConfig.DefaultEndpoints | main.go:272-290 | unset host and port give `http://localhost:8080/api/agent/register` and `http://localhost:8080/api/metrics` |
| AgentConfig.Wrap64 | main.go:298 | int64 arithmetic: the result is an int64, congruent modulo 2^64, unchanged when already in range |
| AgentConfig.Wrap64Once | main.go:298 | an overshoot of less than 2^64 past MaxInt64 loses exactly 2^64 |
| AgentConfig.SendInterval | main.go:294-302 | the interval is always an int64 duration |
| AgentConfig.SendIntervalDefault | main.go:295-301 | unset or non-integer `SEND_INTERVAL` gives 60 seconds |
| AgentConfig.SendIntervalSeconds | main.go:297-298 | every integer whose duration fits, 0 and negatives included, gives that many seconds |
| AgentConfig.NonPositiveIntervalPanics | main.go:297-304 | `SEND_INTERVAL` 0 or negative reaches `time.NewTicker` as a non-positive duration |
| AgentConfig.LargeIntervalWraps | main.go:298 | `SEND_INTERVAL=18446744074` gives 290448384 ns, under one second |
| AgentConfig.EffectiveSendInterval | main.go:294-304 | the corrected interval is always positive, an int64 and a whole number of seconds |
| AgentConfig.EffectiveAgrees | main.go:294-302 | wherever the code yields a positive, fitting interval (or the default), the corrected one is the same |
| AgentConfig.EffectiveFixesFindings | main.go:297-304 | 0, negatives and the wrapping value give the 60-second default under the correction |
| LocalIP.Eligible | main.go:51-52 | an address qualifies when it is an IP network address, not loopback, and IPv4 |
| LocalIP.FirstLocalIP | main.go:50-57 | the specification of the search: the text of the first qualifying address in list order, if any; `FirstLocalIPSpec` gives the independent description |
| LocalIP.FirstLocalIPSpec | main.go:50-57 | the search finds nothing iff no address qualifies, and otherwise returns the text of the first qualifying one |
| LocalIP.FirstLocalIPAt | main.go:50-55 | the result is the text at the unique first qualifying position |
| LocalIP.FirstLocalIPAppend | main.go:50-56 | addresses after the first hit are never consulted, and leading non-qualifying ones are skipped |
| LocalIP.GetLocalIP | main.go:45-58 | a failed address lookup is passed on; otherwise the result is the first qualifying address's text, or "cannot find local IP" |
| LocalIP.SkipsLoopbackAndV6 | main.go:51-52 | loopback, IPv6 and non-network entries before an eligible IPv4 address are passed over |
| Registration.RegisterResult | main.go:151-159 | registration succeeds iff a response arrived with status exactly 200; otherwise it is a send failure or a bad-status error |
| Registration.Only200Succeeds | main.go:157 | other 2xx codes, such as 201 or 204, abort registration |

## Left out

- The port scan (main.go:112-141). It uses goroutines, a semaphore channel, a wait group, a mutex and TCP dials with a 200 ms timeout. Its result order depends on scheduling. It is an input (`scanned`) of `PortResolver.GetOpenPorts`.
- The reachability listener and its accept loop (main.go:227-246), which are socket I/O with no final state. `agentPort` is therefore not modelled.
- `AgentInfo`/`Metrics` JSON encoding and `http.Post` in `registerAgent` and `sendMetrics` (main.go:145-180). Only the status rule of registration is kept, and the outcome of the exchange is an input.
- `collectMetrics` (main.go:183-222). It makes foreign gopsutil calls, uses `float64` percentages and reads the clock.
- The ticker loop (main.go:304-327), which is timer-driven I/O without end. Its panic on a non-positive duration is kept as `AgentConfig.TickerAccepts`.
- The sequence of `main` (main.go:224-302), which calls the modelled pieces in order. Each piece is modelled separately, and the environment values are parameters.
- `os.Getenv` and `net.InterfaceAddrs`: their results are parameters (the environment values, the address list of `LocalIP.GetLocalIP`).
- `os.Hostname` (main.go:40-42, 248-252): its result only fills `AgentInfo` and `Metrics`, which are left out above, so no member takes a hostname.
- Logging (`fmt.Print*`) is not modelled.
- GoStrconv.Atoi: one error kind is merged. For a malformed string whose leading digits already overflow 64 bits, such as `99999999999999999999x`, Go reports a range error. The model reports a syntax error. Every other input gets Go's verdict, and the error value is the same apart from this kind.
- GoStrconv.Atoi: only the 64-bit `int` of the usual platforms is modelled, not 32-bit platforms.
- GoStrings.TrimSpace: strings are sequences of Unicode scalar values, not UTF-8 bytes. This agrees with Go on valid UTF-8. Invalid byte sequences are not modelled.
- PortSpec.ParsePorts: the ports are unbounded integers. So a range ending at MaxInt64 terminates here, whereas the written loop spins (see the findings). The memory a very large range needs is not modelled either.
- AgentConfig.ParseEndpoint: hosts containing `:`, such as unbracketed IPv6 literals, are excluded from the round trip. The URL built for them is ambiguous.

## Findings

| source | as written | input that shows it | evidently intended | confidence | as-written member | corrected member |
|---|---|---|---|---|---|---|
| main.go:297-304 | any integer `SEND_INTERVAL` becomes the ticker's duration | `SEND_INTERVAL=0` (or `-5`) makes `time.NewTicker` panic with a non-positive interval | 0 or a non-positive value falls back to the 60-second default | high; not executed | AgentConfig.NonPositiveIntervalPanics | AgentConfig.EffectiveSendInterval |
| main.go:298 | `time.Duration(seconds) * time.Second` wraps in int64 | `SEND_INTERVAL=18446744074` gives 290448384 ns, about 0.29 s, instead of about 585 years | values whose duration does not fit fall back to the default | high; not executed | AgentConfig.LargeIntervalWraps | AgentConfig.EffectiveFixesFindings |
| main.go:83 | `for i := start; i <= end; i++` over int64 | `PORTS=9223372036854775807-9223372036854775807`: `i++` wraps to MinInt64 and the guard stays true, so the loop never ends and the list grows until memory runs out | the token yields the single port 9223372036854775807 | high; not executed | PortSpec.RangeLoopAtMaxInt64 | PortSpec.AppendRange |
