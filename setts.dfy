/**
 * setts: puts one transport stream (or all of them) of output 2 Online or
 * Offline on every device of an address file, with the `setModeMediaLevel`
 * call, and counts the requests that fail.
 */
module SetTs {
  import opened Wrappers
  import opened Text
  import opened Xpo2b
  import opened Tally
  import opened ConfigFiles

  const ModeMethod := "setModeMediaLevel"

  /** The transport-stream list of output 2; without an index the call addresses every stream. */
  const TransportStreamList := "/viper/outputList/output[2]" + "/transportStreamList/transportStream"

  const StateErrorText := "State must be either 0 (Offline) or 1 (Online)\n\n"

  // ---------------------------------------------------------------------
  // The xpath of a transport stream

  /** Index 0 is the whole list; index n > 0 is the list followed by `[n]`, n in decimal. */
  function TransportStreamXpath(index: nat): (xpath: string)
    ensures |xpath| >= |TransportStreamList| && xpath[..|TransportStreamList|] == TransportStreamList
    ensures IsTrimmed(xpath)
  {
    var b := |TransportStreamList|;
    assert TransportStreamList[0] == '/' && TransportStreamList[b - 1] == 'm';
    if index == 0 then TransportStreamList
    else
      var x := TransportStreamList + "[" + Decimal(index) + "]";
      assert x[..b] == TransportStreamList;
      assert x[0] == '/' && x[|x| - 1] == ']';
      x
  }

  /** Reads an index back from an xpath: the whole list, or the list with a decimal index in brackets. */
  function StreamIndex(xpath: string): Option<nat> {
    var b := |TransportStreamList|;
    if xpath == TransportStreamList then Some(0)
    else if |xpath| >= b + 3 && xpath[..b] == TransportStreamList && xpath[b] == '[' && xpath[|xpath| - 1] == ']'
      && AllDigits(xpath[b + 1..|xpath| - 1]) && xpath[b + 1] != '0'
    then Some(DecimalValue(xpath[b + 1..|xpath| - 1]))
    else None
  }

  /** The index can be read back from the xpath built for it. */
  lemma StreamIndexRoundTrip(index: nat)
    ensures StreamIndex(TransportStreamXpath(index)) == Some(index)
  {
    if index > 0 {
      var b := |TransportStreamList|;
      var digits := Decimal(index);
      var x := TransportStreamList + "[" + digits + "]";
      assert |x| > b;
      assert x[b + 1..|x| - 1] == digits;
      assert x[b + 1] == digits[0];
      DecimalRoundTrip(index);
    }
  }

  /** An xpath StreamIndex accepts is the one built for the index it reads. */
  lemma StreamIndexSound(xpath: string)
    requires StreamIndex(xpath).Some?
    ensures xpath == TransportStreamXpath(StreamIndex(xpath).value)
  {
    var b := |TransportStreamList|;
    if xpath != TransportStreamList {
      var digits := xpath[b + 1..|xpath| - 1];
      assert digits[0] == xpath[b + 1];
      DecimalCanonical(digits);
      DecimalValuePositive(digits);
      assert xpath == xpath[..b] + "[" + digits + "]";
    }
  }

  /**
   * StreamIndex reads exactly the xpaths TransportStreamXpath writes: an
   * xpath denotes index n if and only if it is the one built for n.
   */
  lemma StreamIndexExact(xpath: string, index: nat)
    ensures StreamIndex(xpath) == Some(index) <==> xpath == TransportStreamXpath(index)
  {
    if xpath == TransportStreamXpath(index) {
      StreamIndexRoundTrip(index);
    }
    if StreamIndex(xpath) == Some(index) {
      StreamIndexSound(xpath);
    }
  }

  /** Distinct indices address distinct xpaths. */
  lemma TransportStreamXpathInjective(a: nat, b: nat)
    requires TransportStreamXpath(a) == TransportStreamXpath(b)
    ensures a == b
  {
    StreamIndexRoundTrip(a);
    StreamIndexRoundTrip(b);
  }

  // ---------------------------------------------------------------------
  // The state argument

  /** The switch in main: 0 is Offline, 1 is Online, anything else has no name. */
  function StateString(state: nat): (s: Option<string>)
    ensures s.Some? <==> state <= 1
    ensures state == 0 ==> s == Some("Offline")
    ensures state == 1 ==> s == Some("Online")
    ensures s.Some? ==> IsTrimmed(s.value) && s.value != ""
  {
    match state
    case 0 => Some("Offline")
    case 1 => Some("Online")
    case _ => None
  }

  /** The two names differ, so the state is carried faithfully. */
  lemma StateStringInjective(a: nat, b: nat)
    requires a <= 1 && b <= 1 && StateString(a) == StateString(b)
    ensures a == b
  {
  }

  // ---------------------------------------------------------------------
  // One request

  /** The call MakeSetModeMLRequestTo builds: `setModeMediaLevel` with the xpath, the state and an empty string. */
  function ModeCall(index: nat, state: string): MethodCall {
    MethodCall(ModeMethod, TrimmedParams([TransportStreamXpath(index), state, ""]))
  }

  /**
   * The call has exactly three parameters in the order xpath, state, "";
   * trimming leaves the xpath as built and the state's text unpadded.
   */
  lemma ModeCallShape(index: nat, state: string)
    ensures var mc := ModeCall(index, state);
      && mc.methodName == ModeMethod
      && |mc.params| == 3
      && mc.params[0].stringValue == TransportStreamXpath(index)
      && mc.params[1].stringValue == TrimSpace(state)
      && mc.params[2].stringValue == ""
  {
    var args := [TransportStreamXpath(index), state, ""];
    TrimmedParamsAt(args, 0);
    TrimmedParamsAt(args, 1);
    TrimmedParamsAt(args, 2);
    TrimmedIsFixed(TransportStreamXpath(index));
    TrimmedIsFixed("");
  }

  /** With a named state the parameters are exactly the xpath, the name and "". */
  lemma ModeCallOfState(index: nat, state: nat)
    requires state <= 1
    ensures ModeCall(index, StateString(state).value).params ==
      [StringParam(TransportStreamXpath(index)), StringParam(StateString(state).value), StringParam("")]
  {
    ModeCallShape(index, StateString(state).value);
    TrimmedIsFixed(StateString(state).value);
  }

  /** The verdict of the request to the device at ipa. */
  function ModeOutcome(net: Network, ipa: string, index: nat, state: string): Outcome {
    ExchangeOutcome(net(ipa, ModeCall(index, state)))
  }

  /**
   * MakeSetModeMLRequestTo: builds the call, sends it and classifies the
   * reply; an encode, POST or parse error is returned as it is.
   */
  method MakeSetModeMLRequestTo(net: Network, ipa: string, index: nat, state: string) returns (err: Outcome)
    ensures err == ModeOutcome(net, ipa, index, state)
    ensures var ex := net(ipa, ModeCall(index, state));
      && (err.Pass? <==> ex.Delivered? && ex.response.Document? && ex.response.param == Some(""))
      && (ex.EncodeFailed? || ex.PostFailed? ==> err == Fail(ex.reason))
      && (ex.Delivered? && ex.response.ParseFailed? ==> err == Fail(ex.response.reason))
      && (ex.Delivered? && ex.response.Document? ==> err == Classify(ex.response.param, ex.response.fault))
  {
    var xpath: string;
    if index == 0 {
      xpath := TransportStreamList;
    } else {
      xpath := TransportStreamList + "[" + Decimal(index) + "]";
    }
    var mc := NewMethodCall(ModeMethod, [xpath, state, ""]);
    match net(ipa, mc)
    case EncodeFailed(e) =>
      err := Fail(e);
    case PostFailed(e) =>
      err := Fail(e);
    case Delivered(parsed) =>
      err := ParseXMLRPCResponse(parsed);
  }

  // ---------------------------------------------------------------------
  // The device loop

  /** The verdicts of the requests to the devices, in list order. */
  function DeviceLog(net: Network, ipas: seq<string>, index: nat, state: string): (log: seq<Outcome>)
    ensures |log| == |ipas|
  {
    if ipas == [] then []
    else DeviceLog(net, ipas[..|ipas| - 1], index, state) + [ModeOutcome(net, ipas[|ipas| - 1], index, state)]
  }

  /** Entry j of the log is the verdict of device j. */
  lemma {:induction false} DeviceLogAt(net: Network, ipas: seq<string>, index: nat, state: string, j: nat)
    requires j < |ipas|
    ensures DeviceLog(net, ipas, index, state)[j] == ModeOutcome(net, ipas[j], index, state)
  {
    if j < |ipas| - 1 {
      DeviceLogAt(net, ipas[..|ipas| - 1], index, state, j);
    }
  }

  /**
   * One request per device, in list order; no more errors than devices, and
   * none exactly when every device succeeded.
   */
  lemma DeviceLogFacts(net: Network, ipas: seq<string>, index: nat, state: string)
    ensures var log := DeviceLog(net, ipas, index, state);
      && (forall j :: 0 <= j < |ipas| ==> log[j] == ModeOutcome(net, ipas[j], index, state))
      && FailCount(log) <= |ipas|
      && (FailCount(log) == 0 <==> forall j :: 0 <= j < |ipas| ==> ModeOutcome(net, ipas[j], index, state).Pass?)
  {
    var log := DeviceLog(net, ipas, index, state);
    forall j | 0 <= j < |ipas| ensures log[j] == ModeOutcome(net, ipas[j], index, state) {
      DeviceLogAt(net, ipas, index, state, j);
    }
    FailCountBound(log);
    FailCountZero(log);
  }

  /** The loop of main: one request per device, a failure is counted and the loop goes on. */
  method RunDevices(net: Network, ipas: seq<string>, index: nat, state: string) returns (errcnt: nat, log: seq<Outcome>)
    ensures log == DeviceLog(net, ipas, index, state)
    ensures errcnt == FailCount(log)
  {
    errcnt, log := 0, [];
    for j := 0 to |ipas|
      invariant log == DeviceLog(net, ipas[..j], index, state)
      invariant errcnt == FailCount(log)
    {
      var err := MakeSetModeMLRequestTo(net, ipas[j], index, state);
      FailCountSnoc(log, err);
      if err.Fail? {
        errcnt := errcnt + 1;
      }
      assert ipas[..j + 1][..j] == ipas[..j];
      log := log + [err];
    }
    assert ipas[..|ipas|] == ipas;
  }

  /**
   * main after the flags: an unreadable address file, then a state other
   * than 0 or 1, stops the run before any request; otherwise every device
   * is sent the request for the named state.
   */
  method Run(net: Network, isIP: string -> bool, addrFile: FileScan, index: nat, state: nat) returns (result: RunResult)
    ensures ScanError(addrFile).Some? ==> result == Aborted(ScanError(addrFile).value)
    ensures ScanError(addrFile).None? && state > 1 ==> result == Aborted(StateErrorText)
    ensures ScanError(addrFile).None? && state <= 1 ==>
      && result.Completed?
      && result.log == DeviceLog(net, ValidAddresses(isIP, ScannedLines(addrFile)), index, StateString(state).value)
      && result.errcnt == FailCount(result.log)
  {
    var ipas, err := ParseAddrFile(isIP, addrFile);
    if err.Some? {
      return Aborted(err.value);
    }
    var statestr: string;
    if state == 0 {
      statestr := "Offline";
    } else if state == 1 {
      statestr := "Online";
    } else {
      return Aborted(StateErrorText);
    }
    var errcnt, log := RunDevices(net, ipas, index, statestr);
    result := Completed(errcnt, log);
  }

  /** Stream 3 set Offline: the xpath ends in `[3]` and the parameters are the xpath, "Offline" and "". */
  lemma StreamThreeOffline()
    ensures ModeCall(3, "Offline") == MethodCall("setModeMediaLevel",
      [StringParam(TransportStreamList + "[3]"),
       StringParam("Offline"), StringParam("")])
  {
    assert Decimal(3) == "3";
    assert TransportStreamXpath(3) == TransportStreamList + "[3]";
    ModeCallOfState(3, 0);
  }
}
