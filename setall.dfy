/**
 * setall: sets every (xpath, value) pair of a configuration file on every
 * device of an address file, with the `setBoxParameters` call, and counts
 * the requests that fail.
 */
module SetAll {
  import opened Wrappers
  import opened Text
  import opened Xpo2b
  import opened Tally
  import opened ConfigFiles

  const SetParamMethod := "setBoxParameters"

  /** The `setBoxParameters` call for one pair: the xpath and the value, each trimmed, in that order. */
  function NewMethodCall(mname: string, xpath: string, value: string): (mc: MethodCall)
    ensures mc.methodName == mname && |mc.params| == 2
    ensures IsTrimmed(mc.params[0].stringValue) && IsTrimmed(mc.params[1].stringValue)
  {
    MethodCall(mname, [StringParam(TrimSpace(xpath)), StringParam(TrimSpace(value))])
  }

  /** It is the call the variadic builder of the client library makes from [xpath, value]. */
  lemma NewMethodCallAgrees(mname: string, xpath: string, value: string)
    ensures NewMethodCall(mname, xpath, value) == MethodCall(mname, TrimmedParams([xpath, value]))
  {
    assert [xpath, value][1..] == [value];
    assert [xpath, value][1..][1..] == [];
  }

  /**
   * MakeSetParamRequestTo: the pair (msg, err). The message the reply carries
   * is bound to a new variable inside the branches, so msg itself is always
   * empty; err follows the reply's verdict.
   */
  function MakeSetParamRequestTo(net: Network, ipa: string, xpath: string, value: string): (r: (string, Outcome))
    ensures r.0 == ""
    ensures var ex := net(ipa, NewMethodCall(SetParamMethod, xpath, value));
      && (r.1.Pass? <==> ex.Delivered? && ex.response.Document? && ex.response.param == Some(""))
      && (ex.EncodeFailed? || ex.PostFailed? ==> r.1 == Fail(ex.reason))
      && (ex.Delivered? && ex.response.ParseFailed? ==> r.1 == Fail(ex.response.reason))
      && (ex.Delivered? && ex.response.Document? ==> r.1 == Classify(ex.response.param, ex.response.fault))
  {
    var mc := NewMethodCall(SetParamMethod, xpath, value);
    match net(ipa, mc)
    case EncodeFailed(e) => ("", Fail(e))
    case PostFailed(e) => ("", Fail(e))
    case Delivered(ParseFailed(e)) => ("", Fail(e))
    case Delivered(Document(param, fault)) => ("", Classify(param, fault))
  }

  // ---------------------------------------------------------------------
  // The batch: every change (outer loop) on every device (inner loop)

  /** Every change read from the file is an (xpath, value) pair. */
  predicate WellFormed(xpaths: seq<seq<string>>) {
    forall i :: 0 <= i < |xpaths| ==> |xpaths[i]| == 2
  }

  /** One request of the batch: set xpath to value on the device at ipa. */
  datatype Request = Request(ipa: string, xpath: string, value: string)

  /** The requests for change xp on the first n devices, in device order. */
  function RowRequests(xp: seq<string>, ipas: seq<string>, n: nat): (row: seq<Request>)
    requires |xp| == 2 && n <= |ipas|
    ensures |row| == n
  {
    if n == 0 then [] else RowRequests(xp, ipas, n - 1) + [Request(ipas[n - 1], xp[0], xp[1])]
  }

  /** The requests for the first m changes on every device, change-major. */
  function Requests(xpaths: seq<seq<string>>, ipas: seq<string>, m: nat): seq<Request>
    requires WellFormed(xpaths) && m <= |xpaths|
  {
    if m == 0 then [] else Requests(xpaths, ipas, m - 1) + RowRequests(xpaths[m - 1], ipas, |ipas|)
  }

  lemma {:induction false} RowRequestsAt(xp: seq<string>, ipas: seq<string>, n: nat)
    requires |xp| == 2 && n <= |ipas|
    ensures forall j :: 0 <= j < n ==> RowRequests(xp, ipas, n)[j] == Request(ipas[j], xp[0], xp[1])
  {
    if n > 0 {
      RowRequestsAt(xp, ipas, n - 1);
    }
  }

  /** One request per (change, device) pair. */
  lemma {:induction false} RequestsLength(xpaths: seq<seq<string>>, ipas: seq<string>, m: nat)
    requires WellFormed(xpaths) && m <= |xpaths|
    ensures |Requests(xpaths, ipas, m)| == m * |ipas|
  {
    if m > 0 {
      RequestsLength(xpaths, ipas, m - 1);
      assert (m - 1) * |ipas| + |ipas| == m * |ipas|;
    }
  }

  /** Where the request for change i on device j sits in a run over n devices: row by row. */
  function Slot(i: nat, j: nat, n: nat): nat {
    i * n + j
  }

  lemma MulCancel(a: nat, b: nat, n: nat)
    requires a * n < b * n
    ensures a < b
  {
  }

  /** Slot j of row i lies before row k when i < k. */
  lemma SlotBelow(i: nat, j: nat, k: nat, n: nat)
    requires i < k && j < n
    ensures Slot(i, j, n) < k * n
  {
    assert i * n + n == (i + 1) * n;
    assert (i + 1) * n <= k * n;
  }

  /** Every position below m * n is a slot: slot k % n of row k / n, with that row below m. */
  lemma SlotOf(k: nat, m: nat, n: nat)
    requires k < m * n
    ensures n > 0 && k / n < m && k % n < n && k == Slot(k / n, k % n, n)
  {
    assert n > 0;
    assert (k / n) * n <= k;
    MulCancel(k / n, m, n);
  }

  /** Request number Slot(i, j, |ipas|) sets change i on device j. */
  lemma {:induction false} RequestsAt(xpaths: seq<seq<string>>, ipas: seq<string>, m: nat, i: nat, j: nat)
    requires WellFormed(xpaths) && m <= |xpaths| && i < m && j < |ipas|
    ensures Slot(i, j, |ipas|) < |Requests(xpaths, ipas, m)|
    ensures Requests(xpaths, ipas, m)[Slot(i, j, |ipas|)] == Request(ipas[j], xpaths[i][0], xpaths[i][1])
  {
    var n := |ipas|;
    var k := Slot(i, j, n);
    var prefix := Requests(xpaths, ipas, m - 1);
    var row := RowRequests(xpaths[m - 1], ipas, n);
    var reqs := Requests(xpaths, ipas, m);
    assert reqs == prefix + row;
    RequestsLength(xpaths, ipas, m - 1);
    SlotBelow(i, j, m, n);
    if i == m - 1 {
      assert k == |prefix| + j;
      RowRequestsAt(xpaths[m - 1], ipas, n);
      assert reqs[k] == row[j];
    } else {
      SlotBelow(i, j, m - 1, n);
      RequestsAt(xpaths, ipas, m - 1, i, j);
      assert reqs[k] == prefix[k];
    }
  }

  /** The verdict of one request. */
  function Send(net: Network, r: Request): Outcome {
    MakeSetParamRequestTo(net, r.ipa, r.xpath, r.value).1
  }

  /** The verdicts of the requests, in the order they are sent. */
  function Outcomes(net: Network, reqs: seq<Request>): (outs: seq<Outcome>)
    ensures |outs| == |reqs|
  {
    if reqs == [] then [] else Outcomes(net, reqs[..|reqs| - 1]) + [Send(net, reqs[|reqs| - 1])]
  }

  lemma OutcomesSnoc(net: Network, reqs: seq<Request>, r: Request)
    ensures Outcomes(net, reqs + [r]) == Outcomes(net, reqs) + [Send(net, r)]
  {
    assert (reqs + [r])[..|reqs|] == reqs;
  }

  lemma {:induction false} OutcomeAt(net: Network, reqs: seq<Request>, k: nat)
    requires k < |reqs|
    ensures Outcomes(net, reqs)[k] == Send(net, reqs[k])
  {
    if k < |reqs| - 1 {
      OutcomeAt(net, reqs[..|reqs| - 1], k);
    }
  }

  /** The verdicts of a + b are those of a followed by those of b. */
  lemma {:induction false} OutcomesAppend(net: Network, a: seq<Request>, b: seq<Request>)
    ensures Outcomes(net, a + b) == Outcomes(net, a) + Outcomes(net, b)
  {
    if b == [] {
      assert a + b == a;
    } else {
      var init := b[..|b| - 1];
      assert a + b == (a + init) + [b[|b| - 1]];
      OutcomesSnoc(net, a + init, b[|b| - 1]);
      OutcomesAppend(net, a, init);
    }
  }

  /** The batch's log: the verdict of every request, change-major. */
  function BatchLog(net: Network, xpaths: seq<seq<string>>, ipas: seq<string>): seq<Outcome>
    requires WellFormed(xpaths)
  {
    Outcomes(net, Requests(xpaths, ipas, |xpaths|))
  }

  /** The verdict of setting change i on device j. */
  function PairOutcome(net: Network, xpaths: seq<seq<string>>, ipas: seq<string>, i: nat, j: nat): Outcome
    requires WellFormed(xpaths) && i < |xpaths| && j < |ipas|
  {
    Send(net, Request(ipas[j], xpaths[i][0], xpaths[i][1]))
  }

  /** Entry Slot(i, j, |ipas|) of the log is change i on device j. */
  lemma BatchLogAt(net: Network, xpaths: seq<seq<string>>, ipas: seq<string>, i: nat, j: nat)
    requires WellFormed(xpaths) && i < |xpaths| && j < |ipas|
    ensures Slot(i, j, |ipas|) < |BatchLog(net, xpaths, ipas)|
    ensures BatchLog(net, xpaths, ipas)[Slot(i, j, |ipas|)] == PairOutcome(net, xpaths, ipas, i, j)
  {
    var reqs := Requests(xpaths, ipas, |xpaths|);
    RequestsAt(xpaths, ipas, |xpaths|, i, j);
    OutcomeAt(net, reqs, Slot(i, j, |ipas|));
  }

  /**
   * The log holds one verdict per (change, device) pair, change-major: entry
   * i * |ipas| + j is change i on device j.
   */
  lemma BatchLogOrder(net: Network, xpaths: seq<seq<string>>, ipas: seq<string>)
    requires WellFormed(xpaths)
    ensures |BatchLog(net, xpaths, ipas)| == |xpaths| * |ipas|
    ensures forall i, j :: 0 <= i < |xpaths| && 0 <= j < |ipas| ==>
      Slot(i, j, |ipas|) < |BatchLog(net, xpaths, ipas)| &&
      BatchLog(net, xpaths, ipas)[Slot(i, j, |ipas|)] == PairOutcome(net, xpaths, ipas, i, j)
  {
    RequestsLength(xpaths, ipas, |xpaths|);
    forall i, j | 0 <= i < |xpaths| && 0 <= j < |ipas|
      ensures Slot(i, j, |ipas|) < |BatchLog(net, xpaths, ipas)|
      ensures BatchLog(net, xpaths, ipas)[Slot(i, j, |ipas|)] == PairOutcome(net, xpaths, ipas, i, j)
    {
      BatchLogAt(net, xpaths, ipas, i, j);
    }
  }

  /** No error is counted exactly when every pair succeeded, and never more errors than requests. */
  lemma BatchLogCount(net: Network, xpaths: seq<seq<string>>, ipas: seq<string>)
    requires WellFormed(xpaths)
    ensures FailCount(BatchLog(net, xpaths, ipas)) <= |xpaths| * |ipas|
    ensures FailCount(BatchLog(net, xpaths, ipas)) == 0 <==>
      forall i, j :: 0 <= i < |xpaths| && 0 <= j < |ipas| ==> PairOutcome(net, xpaths, ipas, i, j).Pass?
  {
    var log := BatchLog(net, xpaths, ipas);
    var m, n := |xpaths|, |ipas|;
    BatchLogOrder(net, xpaths, ipas);
    FailCountBound(log);
    FailCountZero(log);
    if forall i, j :: 0 <= i < m && 0 <= j < n ==> PairOutcome(net, xpaths, ipas, i, j).Pass? {
      forall k | 0 <= k < |log| ensures log[k].Pass? {
        SlotOf(k, m, n);
        assert log[Slot(k / n, k % n, n)] == PairOutcome(net, xpaths, ipas, k / n, k % n);
      }
    }
  }

  /**
   * The loops of main: for each change, for each device, one request; a
   * failed request is counted and the loops go on.
   */
  method RunBatch(net: Network, xpaths: seq<seq<string>>, ipas: seq<string>) returns (errcnt: nat, log: seq<Outcome>)
    requires WellFormed(xpaths)
    ensures log == BatchLog(net, xpaths, ipas)
    ensures errcnt == FailCount(log)
  {
    errcnt, log := 0, [];
    for i := 0 to |xpaths|
      invariant log == Outcomes(net, Requests(xpaths, ipas, i))
      invariant errcnt == FailCount(log)
    {
      var xp := xpaths[i];
      var row: seq<Outcome> := [];
      for j := 0 to |ipas|
        invariant row == Outcomes(net, RowRequests(xp, ipas, j))
        invariant errcnt == FailCount(log) + FailCount(row)
      {
        var ipa := ipas[j];
        var (res, err) := MakeSetParamRequestTo(net, ipa, xp[0], xp[1]);
        OutcomesSnoc(net, RowRequests(xp, ipas, j), Request(ipa, xp[0], xp[1]));
        FailCountSnoc(row, err);
        if err.Fail? {
          errcnt := errcnt + 1;
        }
        row := row + [err];
      }
      FailCountAppend(log, row);
      OutcomesAppend(net, Requests(xpaths, ipas, i), RowRequests(xp, ipas, |ipas|));
      log := log + row;
    }
  }

  // ---------------------------------------------------------------------
  // Start-up: reading the two files

  datatype Inputs = Fatal(reason: string) | Ready(ipas: seq<string>, xpaths: seq<seq<string>>)

  /**
   * Start-up as main is written: the address file's error is overwritten by
   * the xpath file's before it is checked, so only the latter can stop the run.
   */
  function ReadInputsAsWritten(isIP: string -> bool, addrFile: FileScan, xpathFile: FileScan): (s: Inputs)
    ensures s.Fatal? <==> ScanError(xpathFile).Some?
    ensures s.Ready? ==>
      s.ipas == ValidAddresses(isIP, ScannedLines(addrFile)) && s.xpaths == XpathPairs(ScannedLines(xpathFile))
  {
    var ipas := ValidAddresses(isIP, ScannedLines(addrFile));
    var xpaths := XpathPairs(ScannedLines(xpathFile));
    match ScanError(xpathFile)
    case Some(e) => Fatal(e)
    case None => Ready(ipas, xpaths)
  }

  /**
   * An address file that cannot be opened does not stop the run as written:
   * the run starts with no devices, sends nothing and reports no error.
   */
  lemma AddressFileErrorIgnored()
    ensures ReadInputsAsWritten((a: string) => true, OpenFailed("open units.txt: no such file or directory"),
                             Scanned(["/a/b,5"], None))
            == Ready([], [["/a/b", "5"]])
  {
    var line := "/a/b,5";
    assert IndexOf(line, ',') == 4;
    assert line[..4] == "/a/b" && line[5..] == "5";
    var lines: seq<string> := [line];
    assert lines[..0] == [];
  }

  /**
   * Whatever stopped the address file, as written the run starts with the
   * addresses read before it stopped; an unopened file gives no devices,
   * and a batch with no devices sends nothing and counts no error.
   */
  lemma AddressErrorRunsOnLinesRead(net: Network, isIP: string -> bool, addrFile: FileScan, xpathFile: FileScan)
    requires ScanError(xpathFile).None?
    ensures ReadInputsAsWritten(isIP, addrFile, xpathFile)
      == Ready(ValidAddresses(isIP, ScannedLines(addrFile)), XpathPairs(ScannedLines(xpathFile)))
    ensures addrFile.OpenFailed? ==>
      && ReadInputsAsWritten(isIP, addrFile, xpathFile).ipas == []
      && BatchLog(net, XpathPairs(ScannedLines(xpathFile)), []) == []
  {
    var xpaths := XpathPairs(ScannedLines(xpathFile));
    RequestsLength(xpaths, [], |xpaths|);
  }

  /** Start-up with each file's error checked: either error stops the run, the address file's first. */
  function ReadInputs(isIP: string -> bool, addrFile: FileScan, xpathFile: FileScan): (s: Inputs)
    ensures s.Ready? <==> ScanError(addrFile).None? && ScanError(xpathFile).None?
    ensures ScanError(addrFile).Some? ==> s == Fatal(ScanError(addrFile).value)
    ensures ScanError(addrFile).None? && ScanError(xpathFile).Some? ==> s == Fatal(ScanError(xpathFile).value)
    ensures s.Ready? ==>
      && s.ipas == ValidAddresses(isIP, ScannedLines(addrFile))
      && s.xpaths == XpathPairs(ScannedLines(xpathFile))
      && WellFormed(s.xpaths)
  {
    match ScanError(addrFile)
    case Some(e) => Fatal(e)
    case None =>
      match ScanError(xpathFile)
      case Some(e) => Fatal(e)
      case None => Ready(ValidAddresses(isIP, ScannedLines(addrFile)), XpathPairs(ScannedLines(xpathFile)))
  }

  /** Start-up as intended agrees with the code whenever the address file reads cleanly. */
  lemma ReadInputsAgreeWithoutAddressError(isIP: string -> bool, addrFile: FileScan, xpathFile: FileScan)
    requires ScanError(addrFile).None?
    ensures ReadInputs(isIP, addrFile, xpathFile) == ReadInputsAsWritten(isIP, addrFile, xpathFile)
  {
  }

  /** main with each file's error checked: stop on either before any request, else run the batch. */
  method Run(net: Network, isIP: string -> bool, addrFile: FileScan, xpathFile: FileScan) returns (result: RunResult)
    ensures var s := ReadInputs(isIP, addrFile, xpathFile);
      && (s.Fatal? ==> result == Aborted(s.reason))
      && (s.Ready? ==>
            && result.Completed?
            && result.log == BatchLog(net, s.xpaths, s.ipas)
            && result.errcnt == FailCount(result.log))
  {
    var ipas, aerr := ParseAddrFile(isIP, addrFile);
    if aerr.Some? {
      return Aborted(aerr.value);
    }
    var xpaths, xerr := ParseXpathFile(xpathFile);
    if xerr.Some? {
      return Aborted(xerr.value);
    }
    var errcnt, log := RunBatch(net, xpaths, ipas);
    result := Completed(errcnt, log);
  }

  /**
   * main as written: only the change file's error stops the run; the
   * address lines read are used whatever happened to the address file.
   */
  method RunAsWritten(net: Network, isIP: string -> bool, addrFile: FileScan, xpathFile: FileScan) returns (result: RunResult)
    ensures var s := ReadInputsAsWritten(isIP, addrFile, xpathFile);
      && (s.Fatal? ==> result == Aborted(s.reason))
      && (s.Ready? ==>
            && result.Completed?
            && result.log == BatchLog(net, s.xpaths, s.ipas)
            && result.errcnt == FailCount(result.log))
  {
    var ipas, err := ParseAddrFile(isIP, addrFile);
    var xpaths: seq<seq<string>>;
    xpaths, err := ParseXpathFile(xpathFile);
    if err.Some? {
      return Aborted(err.value);
    }
    var errcnt, log := RunBatch(net, xpaths, ipas);
    result := Completed(errcnt, log);
  }

  /**
   * Two devices, one change, and the second device answers with the fault
   * "locked": the first request succeeds, the second fails, one error in all.
   */
  lemma LockedDeviceScenario()
    ensures var net: Network := (ipa: string, mc: MethodCall) =>
      if ipa == "10.0.0.2" then Delivered(Document(None, Some("locked"))) else Delivered(Document(Some(""), None));
      var log := BatchLog(net, [["/x/y", "5"]], ["10.0.0.1", "10.0.0.2"]);
      log == [Pass, Fail("locked")] && FailCount(log) == 1
  {
    var net: Network := (ipa: string, mc: MethodCall) =>
      if ipa == "10.0.0.2" then Delivered(Document(None, Some("locked"))) else Delivered(Document(Some(""), None));
    var xpaths, ipas := [["/x/y", "5"]], ["10.0.0.1", "10.0.0.2"];
    var r1, r2 := Request("10.0.0.1", "/x/y", "5"), Request("10.0.0.2", "/x/y", "5");
    assert Requests(xpaths, ipas, 1) == RowRequests(xpaths[0], ipas, 2) == [r1] + [r2];
    assert Send(net, r1) == Pass;
    assert Send(net, r2) == Fail("locked");
    OutcomesSnoc(net, [], r1);
    OutcomesSnoc(net, [r1], r2);
    FailCountSnoc([], Pass);
    FailCountSnoc([Pass], Fail("locked"));
  }
}
