/**
 * The PORTS specification parser (`parsePorts`, main.go:62-95): a
 * comma-separated list of tokens, each trimmed of white space and read
 * either as one integer or, when it contains `-`, as an inclusive range
 * `start-end`. The first bad token aborts the whole parse.
 *
 * `ParsePortSpec` is the specification, a left fold over the tokens that
 * follows the loop; `ParsePorts` is the loop itself, proved equal to it.
 */
module PortSpec {
  import opened Wrappers
  import opened GoStrings
  import opened GoStrconv

  /** Why `parsePorts` gave up. */
  datatype ParseError =
    | InvalidRange(token: string)      // a token with `-` that is not exactly two parts
    | NotAnInteger(cause: NumError)    // Atoi's own error, passed on unchanged
    | StartAfterEnd(token: string)     // a range whose start exceeds its end

  /** The inclusive run `start, start + 1, ..., end`. */
  function Expand(start: int, end: int): (r: seq<int>)
    requires start <= end
    ensures |r| == end - start + 1
    ensures forall k :: 0 <= k < |r| ==> r[k] == start + k
    decreases end - start
  {
    if start == end then [start] else Expand(start, end - 1) + [end]
  }

  /** The ports one already trimmed token stands for (main.go:67-92). */
  function TokenPorts(token: string): (r: Result<seq<int>, ParseError>)
    ensures r.Success? ==> |r.value| >= 1
  {
    if '-' in token then
      var parts := Split(token, '-');
      if |parts| != 2 then Failure(InvalidRange(token))
      else
        match Atoi(TrimSpace(parts[0]))
        case Failure(e) => Failure(NotAnInteger(e))
        case Success(start) =>
          match Atoi(TrimSpace(parts[1]))
          case Failure(e) => Failure(NotAnInteger(e))
          case Success(end) =>
            if start > end then Failure(StartAfterEnd(token)) else Success(Expand(start, end))
    else
      match Atoi(token)
      case Failure(e) => Failure(NotAnInteger(e))
      case Success(port) => Success([port])
  }

  /** Each token's outcome, in order; every token is trimmed first (main.go:66). */
  function ReadTokens(tokens: seq<string>): (rs: seq<Result<seq<int>, ParseError>>)
    ensures |rs| == |tokens|
  {
    if tokens == [] then []
    else ReadTokens(tokens[..|tokens| - 1]) + [TokenPorts(TrimSpace(tokens[|tokens| - 1]))]
  }

  /** The outcomes folded left to right: ports appended in order, stopping at the first error. */
  function Collect(rs: seq<Result<seq<int>, ParseError>>): Result<seq<int>, ParseError>
  {
    if rs == [] then Success([])
    else
      match Collect(rs[..|rs| - 1])
      case Failure(e) => Failure(e)
      case Success(ports) =>
        match rs[|rs| - 1]
        case Failure(e) => Failure(e)
        case Success(more) => Success(ports + more)
  }

  /** `parsePorts(s)` as a value. */
  function ParsePortSpec(s: string): Result<seq<int>, ParseError>
  {
    Collect(ReadTokens(Split(s, ',')))
  }

  // ---------------------------------------------------------------------
  // An independent description of the fold: it succeeds when every token
  // does, with the tokens' runs concatenated, and otherwise fails with the
  // error of the first token that does not parse.

  predicate AllSucceed(rs: seq<Result<seq<int>, ParseError>>)
  {
    forall i :: 0 <= i < |rs| ==> rs[i].Success?
  }

  /** The concatenation, in order, of the successful outcomes. */
  function Flatten(rs: seq<Result<seq<int>, ParseError>>): seq<int>
    requires AllSucceed(rs)
  {
    if rs == [] then [] else rs[0].value + Flatten(rs[1..])
  }

  /** Outcome `i` is the first failure. */
  predicate FirstFailure(rs: seq<Result<seq<int>, ParseError>>, i: int)
  {
    && 0 <= i < |rs|
    && rs[i].Failure?
    && forall j :: 0 <= j < i ==> rs[j].Success?
  }

  lemma {:induction false} FlattenSnoc(rs: seq<Result<seq<int>, ParseError>>, r: Result<seq<int>, ParseError>)
    requires AllSucceed(rs) && r.Success?
    ensures AllSucceed(rs + [r])
    ensures Flatten(rs + [r]) == Flatten(rs) + r.value
  {
    if rs != [] {
      assert (rs + [r])[1..] == rs[1..] + [r];
      FlattenSnoc(rs[1..], r);
    }
  }

  /** The fold succeeds exactly when every outcome does, and then yields their runs in order. */
  lemma {:induction false} CollectSuccess(rs: seq<Result<seq<int>, ParseError>>)
    ensures Collect(rs).Success? <==> AllSucceed(rs)
    ensures Collect(rs).Success? ==> Collect(rs).value == Flatten(rs)
  {
    if rs != [] {
      var init, last := rs[..|rs| - 1], rs[|rs| - 1];
      assert rs == init + [last];
      CollectSuccess(init);
      if AllSucceed(init) && last.Success? {
        FlattenSnoc(init, last);
      }
    }
  }

  /** When the fold fails, it fails with the error of the first failing outcome. */
  lemma {:induction false} CollectFailure(rs: seq<Result<seq<int>, ParseError>>, i: int)
    requires FirstFailure(rs, i)
    ensures Collect(rs) == Failure(rs[i].error)
  {
    var init := rs[..|rs| - 1];
    if i < |rs| - 1 {
      assert FirstFailure(init, i);
      CollectFailure(init, i);
    } else {
      assert AllSucceed(init);
      CollectSuccess(init);
    }
  }

  /** Folding two runs of outcomes one after the other. */
  lemma {:induction false} CollectAppend(xs: seq<Result<seq<int>, ParseError>>, ys: seq<Result<seq<int>, ParseError>>)
    ensures Collect(xs).Failure? ==> Collect(xs + ys) == Collect(xs)
    ensures Collect(xs).Success? && Collect(ys).Failure? ==> Collect(xs + ys) == Collect(ys)
    ensures Collect(xs).Success? && Collect(ys).Success? ==>
      Collect(xs + ys) == Success(Collect(xs).value + Collect(ys).value)
  {
    if ys == [] {
      assert xs + ys == xs;
      if Collect(xs).Success? {
        assert Collect(xs).value + [] == Collect(xs).value;
      }
    } else {
      var init, last := ys[..|ys| - 1], ys[|ys| - 1];
      assert (xs + ys)[..|xs + ys| - 1] == xs + init;
      assert (xs + ys)[|xs + ys| - 1] == last;
      CollectAppend(xs, init);
      if Collect(xs).Success? && Collect(init).Success? && last.Success? {
        var p, q, more := Collect(xs).value, Collect(init).value, last.value;
        assert (p + q) + more == p + (q + more);
      }
    }
  }

  lemma {:induction false} ReadTokensAppend(xs: seq<string>, ys: seq<string>)
    ensures ReadTokens(xs + ys) == ReadTokens(xs) + ReadTokens(ys)
  {
    if ys == [] {
      assert xs + ys == xs;
    } else {
      var init := ys[..|ys| - 1];
      assert (xs + ys)[..|xs + ys| - 1] == xs + init;
      assert (xs + ys)[|xs + ys| - 1] == ys[|ys| - 1];
      ReadTokensAppend(xs, init);
    }
  }

  /** A specification parses exactly when each trimmed token does, and then lists their runs in order. */
  lemma ParsePortSpecTokens(s: string)
    ensures var rs := ReadTokens(Split(s, ','));
      && (ParsePortSpec(s).Success? <==> AllSucceed(rs))
      && (ParsePortSpec(s).Success? ==> ParsePortSpec(s).value == Flatten(rs))
      && (forall i :: FirstFailure(rs, i) ==> ParsePortSpec(s) == Failure(rs[i].error))
  {
    var rs := ReadTokens(Split(s, ','));
    CollectSuccess(rs);
    forall i | FirstFailure(rs, i) ensures Collect(rs) == Failure(rs[i].error) {
      CollectFailure(rs, i);
    }
  }

  // ---------------------------------------------------------------------
  // Properties of whole specifications.

  /** Tokens after a bad one are never reached; otherwise the ports of two specifications are concatenated. */
  lemma ParsePortSpecAppend(s1: string, s2: string)
    ensures ParsePortSpec(s1).Failure? ==> ParsePortSpec(s1 + "," + s2) == ParsePortSpec(s1)
    ensures ParsePortSpec(s1).Success? && ParsePortSpec(s2).Failure? ==>
      ParsePortSpec(s1 + "," + s2) == ParsePortSpec(s2)
    ensures ParsePortSpec(s1).Success? && ParsePortSpec(s2).Success? ==>
      ParsePortSpec(s1 + "," + s2) == Success(ParsePortSpec(s1).value + ParsePortSpec(s2).value)
  {
    SplitConcat(s1, s2, ',');
    ReadTokensAppend(Split(s1, ','), Split(s2, ','));
    CollectAppend(ReadTokens(Split(s1, ',')), ReadTokens(Split(s2, ',')));
  }

  /** A successful parse yields at least one port per token, so never an empty list. */
  lemma {:induction false} ParseLength(tokens: seq<string>)
    requires Collect(ReadTokens(tokens)).Success?
    ensures |Collect(ReadTokens(tokens)).value| >= |tokens|
  {
    if tokens != [] {
      var init := tokens[..|tokens| - 1];
      var last := TokenPorts(TrimSpace(tokens[|tokens| - 1]));
      CollectAppend(ReadTokens(init), [last]);
      CollectSingle(last);
      ParseLength(init);
    }
  }

  lemma ParsePortSpecNonEmpty(s: string)
    requires ParsePortSpec(s).Success?
    ensures |ParsePortSpec(s).value| >= |Split(s, ',')| >= 1
  {
    ParseLength(Split(s, ','));
  }

  /** The empty specification has one empty token, which Atoi rejects. */
  lemma EmptySpecFails()
    ensures ParsePortSpec("") == Failure(NotAnInteger(NumError("Atoi", "", ErrSyntax)))
  {
    SingleToken("");
  }

  /** A trailing comma leaves an empty last token, so the whole specification fails. */
  lemma TrailingCommaFails(s: string)
    ensures ParsePortSpec(s + ",").Failure?
  {
    EmptySpecFails();
    ParsePortSpecAppend(s, "");
    assert s + "," + "" == s + ",";
  }

  lemma DigitsAreTrimmed(ds: string)
    requires ds != [] && AllDigits(ds)
    ensures TrimSpace(ds) == ds
    ensures '-' !in ds && ',' !in ds
  {
    TrimSpaceAround([], ds, []);
    assert [] + ds + [] == ds;
  }

  lemma CollectSingle(r: Result<seq<int>, ParseError>)
    ensures Collect([r]) == r
  {
    assert [r][..0] == [];
    if r.Success? {
      assert [] + r.value == r.value;
    }
  }

  /** A specification of one token without surrounding space is read as that token. */
  lemma SingleToken(t: string)
    requires ',' !in t && Trimmed(t)
    ensures ParsePortSpec(t) == TokenPorts(t)
  {
    SplitSepFree(t, ',');
    TrimSpaceAround([], t, []);
    assert [] + t + [] == t;
    assert [t][..0] == [];
    assert ReadTokens([t]) == [TokenPorts(t)];
    CollectSingle(TokenPorts(t));
  }

  /** A non-negative 64-bit number is a valid token on its own; there is no 1..65535 range check. */
  lemma NumberToken(n: int)
    requires 0 <= n <= MaxInt64
    ensures ParsePortSpec(FormatInt(n)) == Success([n])
  {
    var t := FormatInt(n);
    DigitsAreTrimmed(t);
    AtoiFormatInt(n);
    SingleToken(t);
  }

  /** Repeated ports are kept: the parser does not deduplicate. */
  lemma DuplicatesKept(n: int)
    requires 0 <= n <= MaxInt64
    ensures ParsePortSpec(FormatInt(n) + "," + FormatInt(n)) == Success([n, n])
  {
    var x := FormatInt(n);
    NumberToken(n);
    ParsePortSpecAppend(x, x);
    assert [n] + [n] == [n, n];
  }

  /**
   * A token `x-y` whose sides, each trimmed, read as `a` and `b` stands for
   * the run from `a` to `b`, or fails when `a > b`.
   */
  lemma DashToken(x: string, y: string, a: int, b: int)
    requires '-' !in x && '-' !in y
    requires Atoi(TrimSpace(x)) == Success(a) && Atoi(TrimSpace(y)) == Success(b)
    ensures var token := x + "-" + y;
      TokenPorts(token) == if a <= b then Success(Expand(a, b)) else Failure(StartAfterEnd(token))
  {
    var token := x + "-" + y;
    assert token[|x|] == '-';
    DashSplit(x, y);
  }

  /** Spaces around the dash are trimmed away: `8000 - 8002` is the range 8000, 8001, 8002. */
  lemma SpacedRangeToken(a: int, b: int, sp1: string, sp2: string)
    requires 0 <= a <= MaxInt64 && 0 <= b <= MaxInt64
    requires AllSpace(sp1) && AllSpace(sp2)
    ensures var token := (FormatInt(a) + sp1) + "-" + (sp2 + FormatInt(b));
      TokenPorts(token) == if a <= b then Success(Expand(a, b)) else Failure(StartAfterEnd(token))
  {
    var x, y := FormatInt(a) + sp1, sp2 + FormatInt(b);
    SpacedNumberLeft(a, sp1);
    SpacedNumberRight(sp2, b);
    DashToken(x, y, a, b);
  }

  /** A decimal number followed by spaces has no dash and reads as the number once trimmed. */
  lemma SpacedNumberLeft(n: int, sp: string)
    requires 0 <= n <= MaxInt64 && AllSpace(sp)
    ensures '-' !in FormatInt(n) + sp
    ensures Atoi(TrimSpace(FormatInt(n) + sp)) == Success(n)
  {
    var d := FormatInt(n);
    DigitsAreTrimmed(d);
    assert !IsSpace('-');
    TrimSpaceAround([], d, sp);
    assert [] + d + sp == d + sp;
    AtoiFormatInt(n);
  }

  /** A decimal number after spaces has no dash and reads as the number once trimmed. */
  lemma SpacedNumberRight(sp: string, n: int)
    requires 0 <= n <= MaxInt64 && AllSpace(sp)
    ensures '-' !in sp + FormatInt(n)
    ensures Atoi(TrimSpace(sp + FormatInt(n))) == Success(n)
  {
    var d := FormatInt(n);
    DigitsAreTrimmed(d);
    assert !IsSpace('-');
    TrimSpaceAround(sp, d, []);
    assert sp + d + [] == sp + d;
    AtoiFormatInt(n);
  }

  lemma DashSplit(x: string, y: string)
    requires '-' !in x && '-' !in y
    ensures Split(x + "-" + y, '-') == [x, y]
  {
    SplitConcat(x, y, '-');
    SplitSepFree(x, '-');
    SplitSepFree(y, '-');
  }

  lemma TrimmedFixed(t: string)
    requires Trimmed(t)
    ensures TrimSpace(t) == t
  {
    TrimSpaceAround([], t, []);
    assert [] + t + [] == t;
  }

  /**
   * A range token `a-b` of non-negative numbers contributes the `b - a + 1`
   * ascending values from `a` to `b`, and fails when `a > b`.
   */
  lemma RangeToken(a: int, b: int)
    requires 0 <= a <= MaxInt64 && 0 <= b <= MaxInt64
    ensures var token := FormatInt(a) + "-" + FormatInt(b);
      ParsePortSpec(token) == if a <= b then Success(Expand(a, b)) else Failure(StartAfterEnd(token))
  {
    var x, y := FormatInt(a), FormatInt(b);
    var token := x + "-" + y;
    DigitsAreTrimmed(x);
    DigitsAreTrimmed(y);
    AtoiFormatInt(a);
    AtoiFormatInt(b);
    DashToken(x, y, a, b);
    assert token[0] == x[0] && token[|token| - 1] == y[|y| - 1];
    assert ',' !in token;
    SingleToken(token);
  }

  lemma {:induction false} CountPositive(s: string, c: char)
    requires Count(s, c) > 0
    ensures c in s
  {
    if s[0] != c {
      CountPositive(s[1..], c);
    }
  }

  /** A token with two or more `-`, such as `1-2-3`, is an invalid range. */
  lemma ManyDashesToken(token: string)
    requires Count(token, '-') >= 2
    ensures TokenPorts(token) == Failure(InvalidRange(token))
  {
    CountPositive(token, '-');
  }

  /** A token that starts with `-`, such as `-5`, fails: the empty left part is not a number. */
  lemma LeadingDashToken(rest: string)
    ensures TokenPorts("-" + rest).Failure?
    ensures '-' !in rest ==> TokenPorts("-" + rest) == Failure(NotAnInteger(NumError("Atoi", "", ErrSyntax)))
  {
    var token := "-" + rest;
    assert token == [] + ['-'] + rest;
    SplitPrepend([], rest, '-');
    assert token[0] == '-';
    assert TrimSpace([]) == [];
    if '-' !in rest {
      SplitSepFree(rest, '-');
      assert Split(token, '-') == [[], rest];
    }
  }

  /** The specification `22,8000-8002` lists 22, 8000, 8001 and 8002. */
  lemma ExampleSpec()
    ensures ParsePortSpec("22,8000-8002") == Success([22, 8000, 8001, 8002])
  {
    Decimal22And80();
    Decimal8000s();
    var x, y := FormatInt(22), FormatInt(8000) + "-" + FormatInt(8002);
    assert "22,8000-8002" == x + "," + y;
    NumberToken(22);
    RangeToken(8000, 8002);
    ParsePortSpecAppend(x, y);
    ExampleList();
  }

  /** The example `8080,9000-9090,1433` documented beside the parser: 8080, the 91 ports 9000 to 9090, then 1433. */
  lemma DocumentedExample()
    ensures ParsePortSpec("8080,9000-9090,1433") == Success([8080] + Expand(9000, 9090) + [1433])
    ensures |ParsePortSpec("8080,9000-9090,1433").value| == 93
  {
    Decimal8000s();
    Decimal9000s();
    var x, y, z := FormatInt(8080), FormatInt(9000) + "-" + FormatInt(9090), FormatInt(1433);
    assert "8080,9000-9090,1433" == x + "," + y + "," + z;
    NumberToken(8080);
    RangeToken(9000, 9090);
    NumberToken(1433);
    ParsePortSpecAppend(x, y);
    ParsePortSpecAppend(x + "," + y, z);
  }

  /** `80,80` parses to the port 80 twice. */
  lemma DuplicateExample()
    ensures ParsePortSpec("80,80") == Success([80, 80])
  {
    Decimal22And80();
    assert "80" + "," + "80" == "80,80";
    DuplicatesKept(80);
  }

  /** `70000`, above the highest TCP port, parses to itself. */
  lemma OutOfRangeExample()
    ensures ParsePortSpec("70000") == Success([70000])
  {
    Decimal70000();
    NumberToken(70000);
  }

  lemma ExampleList()
    ensures [22] + Expand(8000, 8002) == [22, 8000, 8001, 8002]
  {
    assert Expand(8000, 8002) == [8000, 8001, 8002];
  }

  // ---------------------------------------------------------------------
  // The loop of main.go:62-95.

  lemma ReadTokensPrefix(tokens: seq<string>, k: nat)
    requires k < |tokens|
    ensures ReadTokens(tokens[..k + 1]) == ReadTokens(tokens[..k]) + [TokenPorts(TrimSpace(tokens[k]))]
  {
    assert tokens[..k + 1][..k] == tokens[..k];
  }

  /** Token `i`'s outcome is the reading of token `i` after trimming. */
  lemma ReadTokensAt(tokens: seq<string>)
    ensures forall i :: 0 <= i < |tokens| ==> ReadTokens(tokens)[i] == TokenPorts(TrimSpace(tokens[i]))
  {
    forall i | 0 <= i < |tokens|
      ensures ReadTokens(tokens)[i] == TokenPorts(TrimSpace(tokens[i]))
    {
      var before, rest := ReadTokens(tokens[..i]), ReadTokens(tokens[i + 1..]);
      SliceAt(tokens, i + 1);
      ReadTokensAppend(tokens[..i + 1], tokens[i + 1..]);
      ReadTokensPrefix(tokens, i);
      assert ReadTokens(tokens) == (before + [TokenPorts(TrimSpace(tokens[i]))]) + rest;
    }
  }

  lemma SliceAt<T>(s: seq<T>, k: nat)
    requires k <= |s|
    ensures s == s[..k] + s[k..]
  {
  }

  /** An error within the first `k` tokens is the error of the whole list. */
  lemma FailureExtends(tokens: seq<string>, k: nat, e: ParseError)
    requires k <= |tokens|
    requires Collect(ReadTokens(tokens[..k])) == Failure(e)
    ensures Collect(ReadTokens(tokens)) == Failure(e)
  {
    var xs, ys := tokens[..k], tokens[k..];
    SliceAt(tokens, k);
    ReadTokensAppend(xs, ys);
    CollectAppend(ReadTokens(xs), ReadTokens(ys));
  }

  /** The inner loop of main.go:83-85: append every port from `start` to `end`. */
  method AppendRange(ports: seq<int>, start: int, end: int) returns (acc: seq<int>)
    requires start <= end
    ensures acc == ports + Expand(start, end)
  {
    acc := ports;
    var i := start;
    while i <= end
      invariant start <= i <= end + 1
      invariant acc == if i == start then ports else ports + Expand(start, i - 1)
    {
      acc := acc + [i];
      i := i + 1;
    }
  }

  /**
   * The body of the loop of main.go:65-93 for one trimmed token: append its
   * ports to `ports`, or report why it is not a valid token.
   */
  method AppendToken(ports: seq<int>, token: string) returns (r: Result<seq<int>, ParseError>)
    ensures TokenPorts(token).Failure? ==> r == Failure(TokenPorts(token).error)
    ensures TokenPorts(token).Success? ==> r == Success(ports + TokenPorts(token).value)
  {
    if '-' in token {
      var parts := Split(token, '-');
      if |parts| != 2 {
        assert TokenPorts(token) == Failure(InvalidRange(token));
        return Failure(InvalidRange(token));
      }
      var start := Atoi(TrimSpace(parts[0]));
      if start.Failure? {
        assert TokenPorts(token) == Failure(NotAnInteger(start.error));
        return Failure(NotAnInteger(start.error));
      }
      var end := Atoi(TrimSpace(parts[1]));
      if end.Failure? {
        assert TokenPorts(token) == Failure(NotAnInteger(end.error));
        return Failure(NotAnInteger(end.error));
      }
      if start.value > end.value {
        assert TokenPorts(token) == Failure(StartAfterEnd(token));
        return Failure(StartAfterEnd(token));
      }
      assert TokenPorts(token) == Success(Expand(start.value, end.value));
      var expanded := AppendRange(ports, start.value, end.value);
      r := Success(expanded);
    } else {
      var port := Atoi(token);
      assert TokenPorts(token) == if port.Failure? then Failure(NotAnInteger(port.error)) else Success([port.value]);
      if port.Failure? {
        return Failure(NotAnInteger(port.error));
      }
      r := Success(ports + [port.value]);
    }
  }

  /** One more token read: the fold so far either stops at its error or grows by its ports. */
  lemma ParsePortsStep(tokens: seq<string>, k: nat, ports: seq<int>)
    requires k < |tokens| && Collect(ReadTokens(tokens[..k])) == Success(ports)
    ensures var t := TokenPorts(TrimSpace(tokens[k]));
      Collect(ReadTokens(tokens[..k + 1])) == (if t.Failure? then Failure(t.error) else Success(ports + t.value))
  {
    var t := TokenPorts(TrimSpace(tokens[k]));
    ReadTokensPrefix(tokens, k);
    CollectAppend(ReadTokens(tokens[..k]), [t]);
    CollectSingle(t);
  }

  /** `parsePorts`: split, trim, read each token, append its ports, return at the first error. */
  method ParsePorts(s: string) returns (r: Result<seq<int>, ParseError>)
    ensures r == ParsePortSpec(s)
  {
    var ports: seq<int> := [];
    var tokens := Split(s, ',');
    for k := 0 to |tokens|
      invariant Collect(ReadTokens(tokens[..k])) == Success(ports)
    {
      var token := TrimSpace(tokens[k]);
      ParsePortsStep(tokens, k, ports);
      r := AppendToken(ports, token);
      if r.Failure? {
        FailureExtends(tokens, k + 1, r.error);
        return;
      }
      ports := r.value;
    }
    assert tokens[..|tokens|] == tokens;
    r := Success(ports);
  }

  // ---------------------------------------------------------------------
  // The range loop on 64-bit integers.

  /** Go's `i++` on a 64-bit `int`: two's-complement wrap-around past MaxInt64. */
  function Increment64(i: int): (j: int)
    requires InInt64(i)
    ensures InInt64(j)
    ensures i < MaxInt64 ==> j == i + 1
  {
    if i == MaxInt64 then MinInt64 else i + 1
  }

  /**
   * With `end == MaxInt64` the guard `i <= end` of main.go:83 holds for every
   * 64-bit `i`, and `i++` keeps `i` a 64-bit value, so the loop written there
   * never exits for the one-port token `9223372036854775807-9223372036854775807`,
   * which the unbounded loop of `ParsePorts` reads as that one port.
   */
  lemma RangeLoopAtMaxInt64(i: int)
    requires InInt64(i)
    ensures i <= MaxInt64 && Increment64(i) <= MaxInt64
    ensures Increment64(MaxInt64) == MinInt64
    ensures ParsePortSpec(FormatInt(MaxInt64) + "-" + FormatInt(MaxInt64)) == Success([MaxInt64])
  {
    RangeToken(MaxInt64, MaxInt64);
  }
}
