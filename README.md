# XML-RPC set-parameter client, modelled in Dafny

The repository holds two command-line programs and one library. All of them
talk to video devices through one XML-RPC call over HTTP. The shared flow:

- A method call is built from a name and string arguments, and each argument is trimmed of surrounding white space.
- The call is POSTed to `http://<address>/xmlrpc.cgi`.
- The reply is classified by two XPath lookups: the return slot `//param/value/string` and the fault slot `//fault/value/string`.

The two programs:

- `setall` reads two files: an address file with one IP address per line, and a change file with one `xpath,value` pair per line. It sends `setBoxParameters` for every change on every device, changes in the outer loop and devices in the inner one. It counts the requests that fail and never stops early.
- `setts` reads an address file, a transport-stream index and a state (0 or 1). It sends `setModeMediaLevel` to every device with the stream's xpath, `"Offline"` or `"Online"`, and an empty string, and counts the failures.

The model is split into one Dafny module per concern:

- `text.dfy` (`Text`): Go's `strings.TrimSpace`, using exactly the white space of `unicode.IsSpace`. It also has `strings.SplitN(s, ",", 2)` and the decimal rendering of `%d`.
- `xpo2b.dfy` (`Xpo2b`): the library. It holds the payload types and the variadic builder, written as a loop. It also holds the reply classifier, and the `Network` oracle that stands in for the encoder, HTTP and the XPath library.
- `config.dfy` (`ConfigFiles`): the line loops of the two file readers.
- `tally.dfy` (`Tally`): the failure counter and the result of a run.
- `setall.dfy` (`SetAll`) and `setts.dfy` (`SetTs`): the two programs.

How the outside world is represented:

- Each request's fate on the wire is the value of an arbitrary function `net(address, call)`. It can be an encoding error, a POST error, a parse error, or a parsed document reduced to its two lookups (each an `Option<string>`).
- The verdict is a Go-style error: `Pass` for nil, or `Fail(text)`.
- A scanned file is a `FileScan`: either the open error, or the lines read together with the scanner's error.

On top of this the model proves the following:

- The two programs visit every (change, device) pair, or every device, exactly once, in order.
- Their error counts are the number of failing requests.
- Trimming is characterised independently of how it is computed.
- The xpath built from a stream index can be read back to that index.
- The return slot takes priority in classification, and only an empty return slot is success.

Two behaviours of the code worth stating, which the model follows:

- A reply that xmlpath cannot parse yields xmlpath's own error, not `"couldn't parse response!"`. That text is only for a parsed reply that has neither slot.
- The string that `MakeSetParamRequestTo` returns is always empty. The `msg` bound in the `if` and `else if` heads is a new variable, so it shadows the named result.

## Model

| member | source | states |
|---|---|---|
| Text.TrimSpace | setall.go:37-38 | the stored value has no white space at either end and is never longer than the argument |
| Text.TrimLeftSpec | setall.go:37-38 | dropping leading space leaves a suffix that does not start with a space, and everything dropped is space |
| Text.TrimRightSpec | setall.go:37-38 | dropping trailing space leaves a prefix that does not end with a space, and everything dropped is space |
| Text.TrimSpaceUnique | setall.go:37-38 | if s is white space, then a trimmed middle, then white space, TrimSpace(s) is exactly that middle |
| Text.TrimmedIsFixed | xpo2b.go:42 | an argument with no surrounding white space is stored unchanged |
| Text.TrimSpaceIdempotent | xpo2b.go:42 | trimming twice is trimming once |
| Text.TrimSpaceEmpty | xpo2b.go:42 | an argument is stored as "" exactly when it is all white space |
| Text.IndexOf | setall.go:123 | the position of the first comma, or the length when there is none; no comma before it |
| Text.SplitFirst | setall.go:123 | SplitN(s, ",", 2) gives two parts exactly when s has a comma: the text before the first comma, which has no comma, and the rest, which joined back with the comma give s; otherwise [s] |
| Text.Decimal | setts.go:58 | `%d` writes at least one digit, only digits, and a leading 0 only for zero |
| Text.DecimalRoundTrip | setts.go:58 | reading back the digits `%d` writes gives the number |
| Text.DecimalInjective | setts.go:58 | distinct numbers are written differently |
| Text.DecimalCanonical | setts.go:58 | every digit string without a leading zero is what `%d` writes for its value |
| Xpo2b.NewMethodCall | xpo2b.go:38-51 | the name is stored verbatim; there is one parameter per argument, in order, and parameter i is TrimSpace(argument i); no arguments gives no parameters; setts.go:36-49 is the same loop |
| Xpo2b.TrimmedParams | xpo2b.go:41-44 | one parameter per argument |
| Xpo2b.TrimmedParamsAt | xpo2b.go:41-44 | parameter i is argument i trimmed |
| Xpo2b.TrimmedParamsAppend | xpo2b.go:41-44 | the parameters of a + b are those of a followed by those of b, so order is kept |
| Xpo2b.TrimmedParamsStable | xpo2b.go:42 | every stored value is trimmed, and rebuilding from the stored values gives the same parameters |
| Xpo2b.Classify | xpo2b.go:85-99 | success exactly when the return slot is found and empty; a non-empty return slot is an error with its text, whatever the fault slot holds; with no return slot, the fault text is the error; with neither, "couldn't parse response!" |
| Xpo2b.ClassifyByPriority | xpo2b.go:85-99 | the verdict is decided by the first slot found, in the order param then fault, and only an empty text from the param slot is success |
| Xpo2b.ParamTakesPriority | xpo2b.go:85-93 | with a return slot present, the fault slot never changes the verdict |
| Xpo2b.ParseXMLRPCResponse | xpo2b.go:74-102 | a parse error is returned as it is, before any lookup; otherwise the verdict is Classify of the two lookups; success exactly when the document has an empty return slot |
| Xpo2b.ExchangeOutcome | setts.go:61-99 | an encode or POST error is returned as it is; a delivered reply gets ParseXMLRPCResponse's verdict; success exactly when the delivered document has an empty return slot |
| Tally.FailCountSnoc | setall.go:162-163 | one more request adds one to the count exactly when it failed |
| Tally.FailCountBound | setall.go:155-172 | the count never exceeds the number of requests |
| Tally.FailCountZero | setall.go:155-172 | the count is zero exactly when every request succeeded |
| Tally.FailCountAppend | setall.go:155-172 | the count over two runs is the sum of their counts |
| ConfigFiles.ValidAddresses | setall.go:101-107 | the kept lines are at most as many as the lines read, each one accepted by the address check and read from the file |
| ConfigFiles.ValidAddressesOfLine | setall.go:102-106 | a single line is kept exactly when the address check accepts it, and then as it was read |
| ConfigFiles.ValidAddressesAppend | setall.go:101-107 | the addresses of two files' worth of lines are those of the first followed by those of the second, so file order is kept |
| ConfigFiles.ValidAddressesComplete | setall.go:101-107 | a line of the file is among the addresses if and only if the address check accepts it |
| ConfigFiles.ParseAddrFile | setall.go:91-110 | the addresses are the lines the check accepts, in file order; the open or scan error is passed on, and an unopened file gives no lines; setts.go:102-121 is the same loop |
| ConfigFiles.XpathPairs | setall.go:122-127 | every kept pair has two parts: a first part with no comma, and a rest that joined back with a comma is a line of the file |
| ConfigFiles.XpathPairsOfLine | setall.go:123-126 | a line is kept exactly when it has a comma, and it is split at its first comma only, so further commas stay in the value |
| ConfigFiles.XpathPairsAppend | setall.go:122-127 | the pairs of a + b are those of a followed by those of b, so file order is kept |
| ConfigFiles.ParseXpathFile | setall.go:112-130 | the pairs are XpathPairs of the lines read; the open or scan error is passed on |
| SetAll.NewMethodCall | setall.go:36-45 | the name is stored verbatim, with exactly two parameters, both trimmed |
| SetAll.NewMethodCallAgrees | setall.go:36-45 | the two-argument builder gives the call the variadic library builder makes from [xpath, value]: [TrimSpace(xpath), TrimSpace(value)] in that order |
| SetAll.MakeSetParamRequestTo | setall.go:47-89 | msg is always ""; err is success exactly when the delivered document has an empty return slot; encode, POST and parse errors are returned as they are; a parsed document gets Classify's four-way verdict |
| SetAll.RowRequestsAt | setall.go:157-158 | the requests for one change go to the devices in list order |
| SetAll.RequestsLength | setall.go:156-158 | one request per (change, device) pair: (number of changes) * (number of devices) of them |
| SetAll.RequestsAt | setall.go:156-158 | request Slot(i, j, n) = i * n + j sets change i on device j |
| SetAll.OutcomeAt | setall.go:158 | entry k of the outcomes is the verdict of request k |
| SetAll.OutcomesAppend | setall.go:156-172 | the outcomes of two runs of requests, one after the other, are the outcomes of the first followed by those of the second |
| SetAll.BatchLogAt | setall.go:156-158 | log entry Slot(i, j, n), over n devices, is the verdict of change i on device j |
| SetAll.BatchLogOrder | setall.go:155-172 | the log has one entry per (change, device) pair, change-major: over n devices, entry i * n + j is change i on device j |
| SetAll.BatchLogCount | setall.go:155-172 | the error count is at most the number of pairs, and zero exactly when every pair succeeded |
| SetAll.RunBatch | setall.go:155-172 | the nested loops produce exactly the batch log and count its failures; there is no early exit |
| SetAll.ReadInputsAsWritten | setall.go:147-152 | start-up as written: only an error from the change file stops the run |
| SetAll.AddressFileErrorIgnored | setall.go:148-149 | an address file that does not open, with a good change file, starts a run with no devices |
| SetAll.ReadInputs | setall.go:147-152 | start-up with both errors checked: the run starts exactly when both files read cleanly, the address file's error reported first; the changes are all pairs |
| SetAll.ReadInputsAgreeWithoutAddressError | setall.go:147-152 | when the address file reads cleanly, both start-ups agree |
| SetAll.RunAsWritten | setall.go:147-174 | main as written: only the change file's error aborts, with its text, before any request; otherwise the run completes with the batch log over the addresses read and its error count, whatever happened to the address file |
| SetAll.AddressErrorRunsOnLinesRead | setall.go:148-152 | with a readable change file the run always starts, on the addresses read before the address file stopped; an unopened address file gives no devices and a batch that sends nothing |
| SetAll.Run | setall.go:147-174 | the corrected main (see Findings): an error in either file aborts with its text before any request, the address file's first; otherwise the run completes with the batch log and its error count |
| SetAll.LockedDeviceScenario | setall.go:155-172 | one change and two devices, the second answering with the fault "locked": the log is [Pass, Fail("locked")] and one error is counted |
| SetTs.TransportStreamXpath | setts.go:54-59 | the xpath always starts with the transport-stream list path and has no surrounding white space, so trimming leaves it as built |
| SetTs.StreamIndexRoundTrip | setts.go:54-59 | the index can be read back from the xpath built for it: 0 is the bare list path, n > 0 is the path with [n] |
| SetTs.StreamIndexSound | setts.go:54-59 | every xpath that reads as an index is the one built for it |
| SetTs.StreamIndexExact | setts.go:54-59 | an xpath reads as index n if and only if it is the xpath built for n |
| SetTs.TransportStreamXpathInjective | setts.go:54-59 | distinct indices address distinct streams |
| SetTs.StateString | setts.go:146-154 | state 0 is named "Offline", state 1 "Online", and no other state has a name |
| SetTs.StateStringInjective | setts.go:146-151 | the two states have different names |
| SetTs.ModeCallShape | setts.go:60 | the call is setModeMediaLevel with exactly three parameters, in order: the xpath as built, the trimmed state, and "" |
| SetTs.ModeCallOfState | setts.go:60 | for a named state, the parameters are exactly [xpath, state name, ""] |
| SetTs.MakeSetModeMLRequestTo | setts.go:51-100 | the verdict is success exactly when the delivered document has an empty return slot; encode, POST and parse errors are returned as they are; a parsed document gets Classify's four-way verdict |
| SetTs.DeviceLogAt | setts.go:158-159 | log entry j is the verdict of device j |
| SetTs.DeviceLogFacts | setts.go:157-168 | one verdict per device, in list order; the error count is at most the number of devices, and zero exactly when every device succeeded |
| SetTs.RunDevices | setts.go:157-168 | the loop produces exactly the device log and counts its failures; there is no early exit |
| SetTs.Run | setts.go:139-170 | an address-file error aborts with its text; then a state other than 0 or 1 aborts with the state message, before any request; otherwise every device is sent the named state |
| SetTs.StreamThreeOffline | setts.go:54-60 | stream 3 set Offline is the call with parameters [list path + "[3]", "Offline", ""] |

## Left out

- The XML encoding (`xml.MarshalIndent`), the HTTP POST and `xmlpath` are foreign libraries. Together they are the `Network` function, which may give any result for any address and call.
- Network: it is a function of the address and the call alone, so the same call sent twice to the same address gets the same verdict. Timeouts, and devices whose answer depends on earlier requests (a change listed twice, an address listed twice), are not modelled.
- `SendXMLRPCPayload` (xpo2b.go:53-72) is left out: it is only the POST and the reading of the response body, which is I/O.
- Opening and scanning files is left out: `os.Open` and `bufio.Scanner` are I/O. A file is given as the lines read and the errors met. Line splitting, the dropping of `\r` and the scanner's token-size limit are not modelled.
- `net.ParseIP` is a library validator, so address checking is a predicate supplied by the caller.
- Flag parsing and the `"REQUIRED"` usage checks (setall.go:143-145, setts.go:135-137) are command-line plumbing, so they are left out.
- Progress output, error printing and the debug print of `res` (setall.go:159-169, setts.go:160-170) only print. The log of outcomes stands in for them.
- `log.Fatal` becomes `Aborted` with its text. The logger's prefix and the process exit are not modelled.
- The unused `XpoParam` type is left out.
- Text.TrimSpace: works on Unicode code points; Go trims UTF-8 bytes, and ill-formed UTF-8 is not modelled.
- SetTs.Run: the index and state are unbounded naturals; Go's `uint` caps them at 2^64 - 1, but flag parsing rejects larger values, so no other path depends on the bound.
- The source has no reader of stream xpaths: SetTs.StreamIndex is added to the model only as the inverse the builder is proved against.

## Findings

| source | as written | input that shows it | evidently intended | confidence | as-written member | corrected member |
|---|---|---|---|---|---|---|
| setall.go:148-149 | the address file's error is overwritten by the change file's error before it is checked | an address file that cannot be opened, with a readable change file: the run starts with no devices, sends nothing and reports "Completed with 0 errors" | stop on either file's error, as setts does for its address file (setts.go:140-143) | high, not executed | SetAll.RunAsWritten, SetAll.AddressFileErrorIgnored | SetAll.Run, SetAll.ReadInputs |
