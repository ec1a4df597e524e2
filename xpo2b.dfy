/**
 * The XML-RPC client library: the method-call payload, its builder, and the
 * interpretation of a device's reply.
 *
 * The XML encoder, the HTTP POST and the XPath library are not modelled; what
 * they produce for one request is an Exchange value, and the XPath document
 * is reduced to the results of its two lookups.
 */
module Xpo2b {
  import opened Wrappers
  import opened Text

  /** One string-valued parameter: `<param><value><string>...</string></value></param>`. */
  datatype StringParam = StringParam(stringValue: string)

  /** An XML-RPC payload: a method name and its ordered parameters. */
  datatype MethodCall = MethodCall(methodName: string, params: seq<StringParam>)

  /** A Go `error`: nil on success, otherwise an error carrying its text. */
  datatype Outcome = Pass | Fail(error: string)

  /** The parameters NewMethodCall builds from its arguments: each one trimmed, in order. */
  function TrimmedParams(args: seq<string>): (ps: seq<StringParam>)
    ensures |ps| == |args|
  {
    if args == [] then [] else [StringParam(TrimSpace(args[0]))] + TrimmedParams(args[1..])
  }

  /** Parameter i is argument i with its surrounding white space removed. */
  lemma {:induction false} TrimmedParamsAt(args: seq<string>, i: nat)
    requires i < |args|
    ensures TrimmedParams(args)[i] == StringParam(TrimSpace(args[i]))
  {
    if i > 0 {
      TrimmedParamsAt(args[1..], i - 1);
    }
  }

  /** Building parameters for a + b gives those for a followed by those for b. */
  lemma {:induction false} TrimmedParamsAppend(a: seq<string>, b: seq<string>)
    ensures TrimmedParams(a + b) == TrimmedParams(a) + TrimmedParams(b)
  {
    if a == [] {
      assert a + b == b;
    } else {
      var ab := a + b;
      assert ab[0] == a[0] && ab[1..] == a[1..] + b;
      TrimmedParamsAppend(a[1..], b);
      assert TrimmedParams(ab) == [StringParam(TrimSpace(a[0]))] + TrimmedParams(a[1..] + b);
    }
  }

  /** The values carried by a parameter list. */
  function Values(ps: seq<StringParam>): (vs: seq<string>)
    ensures |vs| == |ps|
    ensures forall i :: 0 <= i < |ps| ==> vs[i] == ps[i].stringValue
  {
    seq(|ps|, i requires 0 <= i < |ps| => ps[i].stringValue)
  }

  /**
   * No stored value has white space at either end, and rebuilding the
   * parameters from their own values gives the same list.
   */
  lemma TrimmedParamsStable(args: seq<string>)
    ensures forall i :: 0 <= i < |args| ==> IsTrimmed(TrimmedParams(args)[i].stringValue)
    ensures TrimmedParams(Values(TrimmedParams(args))) == TrimmedParams(args)
  {
    var ps := TrimmedParams(args);
    forall i | 0 <= i < |args|
      ensures ps[i] == StringParam(TrimSpace(args[i]))
      ensures TrimmedParams(Values(ps))[i] == ps[i]
    {
      TrimmedParamsAt(args, i);
      TrimmedParamsAt(Values(ps), i);
      TrimSpaceIdempotent(args[i]);
    }
  }

  lemma ParamsEqual(args: seq<string>, parms: seq<StringParam>)
    requires |parms| == |args|
    requires forall i :: 0 <= i < |args| ==> parms[i] == StringParam(TrimSpace(args[i]))
    ensures parms == TrimmedParams(args)
  {
    forall i | 0 <= i < |args| ensures parms[i] == TrimmedParams(args)[i] {
      TrimmedParamsAt(args, i);
    }
  }

  /** NewMethodCall: the name is stored as given and every argument, trimmed, becomes a parameter. */
  method NewMethodCall(mname: string, args: seq<string>) returns (mc: MethodCall)
    ensures mc.methodName == mname
    ensures |mc.params| == |args|
    ensures forall i :: 0 <= i < |args| ==> mc.params[i] == StringParam(TrimSpace(args[i]))
    ensures mc == MethodCall(mname, TrimmedParams(args))
  {
    var parms: seq<StringParam> := [];
    for k := 0 to |args|
      invariant |parms| == k
      invariant forall i :: 0 <= i < k ==> parms[i] == StringParam(TrimSpace(args[i]))
    {
      var temp := StringParam(TrimSpace(args[k]));
      parms := parms + [temp];
    }
    ParamsEqual(args, parms);
    mc := MethodCall(mname, parms);
  }

  // ---------------------------------------------------------------------
  // The reply

  /**
   * What xmlpath.Parse makes of a response body: an error, or a document in
   * which `//param/value/string` and `//fault/value/string` were looked up.
   */
  datatype Parsed = ParseFailed(reason: string) | Document(param: Option<string>, fault: Option<string>)

  /**
   * What one request does on the wire: the encoder fails, the POST fails, or
   * a body arrives and is parsed.
   */
  datatype Exchange = EncodeFailed(reason: string) | PostFailed(reason: string) | Delivered(response: Parsed)

  /**
   * What the encoder, the HTTP POST to `http://<address>/xmlrpc.cgi` and the
   * XPath parser make of a call sent to an address.
   */
  type Network = (string, MethodCall) -> Exchange

  const ParseFailureText := "couldn't parse response!"

  /**
   * The reply's verdict from its two lookups. The return slot is consulted
   * first: empty there is success, any text there is an error with that text,
   * whatever the fault slot holds. Only without a return slot does the fault
   * text become the error; with neither, the reply is unreadable.
   */
  function Classify(param: Option<string>, fault: Option<string>): (err: Outcome)
    ensures err.Pass? <==> param == Some("")
    ensures param.Some? && param.value != "" ==> err == Fail(param.value)
    ensures param.None? && fault.Some? ==> err == Fail(fault.value)
    ensures param.None? && fault.None? ==> err == Fail(ParseFailureText)
  {
    match param
    case Some(msg) => if |msg| == 0 then Pass else Fail(msg)
    case None =>
      match fault
      case Some(msg) => Fail(msg)
      case None => Fail(ParseFailureText)
  }

  /** The first slot, in priority order, in which something was found, with its position. */
  function FirstFound(slots: seq<Option<string>>): (r: Option<(nat, string)>)
    ensures r.Some? ==> r.value.0 < |slots| && slots[r.value.0] == Some(r.value.1)
    ensures r.Some? ==> forall k :: 0 <= k < r.value.0 ==> slots[k].None?
    ensures r.None? ==> forall k :: 0 <= k < |slots| ==> slots[k].None?
  {
    if slots == [] then None
    else if slots[0].Some? then Some((0, slots[0].value))
    else
      match FirstFound(slots[1..])
      case None => None
      case Some((k, t)) => Some((k + 1, t))
  }

  /**
   * Classify read as a priority lookup: the first of the two slots that was
   * found decides, and only an empty text from the return slot is success.
   */
  lemma ClassifyByPriority(param: Option<string>, fault: Option<string>)
    ensures Classify(param, fault) ==
      match FirstFound([param, fault])
      case None => Fail(ParseFailureText)
      case Some((k, t)) => if k == 0 && t == "" then Pass else Fail(t)
  {
    var slots := [param, fault];
    if param.None? {
      assert slots[1..] == [fault];
    }
  }

  /** With a return slot present, the fault slot never matters. */
  lemma ParamTakesPriority(msg: string, fault1: Option<string>, fault2: Option<string>)
    ensures Classify(Some(msg), fault1) == Classify(Some(msg), fault2)
  {
  }

  /**
   * ParseXMLRPCResponse: a parse error is returned as it is, before either
   * lookup; otherwise the verdict is that of the two lookups.
   */
  function ParseXMLRPCResponse(parsed: Parsed): (err: Outcome)
    ensures err.Pass? <==> parsed.Document? && parsed.param == Some("")
    ensures parsed.ParseFailed? ==> err == Fail(parsed.reason)
    ensures parsed.Document? ==> err == Classify(parsed.param, parsed.fault)
  {
    match parsed
    case ParseFailed(e) => Fail(e)
    case Document(param, fault) => Classify(param, fault)
  }

  /** The verdict of a whole request from what happened on the wire. */
  function ExchangeOutcome(ex: Exchange): (err: Outcome)
    ensures err.Pass? <==> ex.Delivered? && ex.response.Document? && ex.response.param == Some("")
    ensures ex.EncodeFailed? || ex.PostFailed? ==> err == Fail(ex.reason)
    ensures ex.Delivered? ==> err == ParseXMLRPCResponse(ex.response)
  {
    match ex
    case EncodeFailed(e) => Fail(e)
    case PostFailed(e) => Fail(e)
    case Delivered(parsed) => ParseXMLRPCResponse(parsed)
  }
}
