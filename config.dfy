/**
 * The per-line filters of the two configuration-file readers, ParseAddrFile
 * and ParseXpathFile. Opening the file and scanning it into lines is not
 * modelled: a FileScan says what that produced. Address validation
 * (net.ParseIP) is a predicate the caller supplies.
 */
module ConfigFiles {
  import opened Wrappers
  import opened Text

  /** What opening and scanning a file yields: the open error, or the lines read and the scanner's error. */
  datatype FileScan = OpenFailed(reason: string) | Scanned(lines: seq<string>, scanErr: Option<string>)

  /** The lines the reader gets to see: none when the file did not open. */
  function ScannedLines(f: FileScan): seq<string> {
    match f
    case OpenFailed(_) => []
    case Scanned(lines, _) => lines
  }

  /** The error the reader returns next to its result. */
  function ScanError(f: FileScan): Option<string> {
    match f
    case OpenFailed(e) => Some(e)
    case Scanned(_, e) => e
  }

  /** The lines that isIP accepts, in file order. */
  function ValidAddresses(isIP: string -> bool, lines: seq<string>): (ipas: seq<string>)
    ensures |ipas| <= |lines|
    ensures forall k :: 0 <= k < |ipas| ==> isIP(ipas[k]) && ipas[k] in lines
  {
    if lines == [] then []
    else
      var last := lines[|lines| - 1];
      ValidAddresses(isIP, lines[..|lines| - 1]) + (if isIP(last) then [last] else [])
  }

  /** One line is kept exactly when isIP accepts it, and then as it was read. */
  lemma ValidAddressesOfLine(isIP: string -> bool, line: string)
    ensures ValidAddresses(isIP, [line]) == if isIP(line) then [line] else []
  {
    assert [line][..0] == [];
  }

  /** The addresses of a + b are those of a followed by those of b: file order is kept. */
  lemma {:induction false} ValidAddressesAppend(isIP: string -> bool, a: seq<string>, b: seq<string>)
    ensures ValidAddresses(isIP, a + b) == ValidAddresses(isIP, a) + ValidAddresses(isIP, b)
  {
    if b == [] {
      assert a + b == a;
    } else {
      var init := b[..|b| - 1];
      assert (a + b)[..|a + b| - 1] == a + init;
      assert (a + b)[|a + b| - 1] == b[|b| - 1];
      ValidAddressesAppend(isIP, a, init);
    }
  }

  /** Every accepted line is kept: isIP accepts a line of the file exactly when it is among the addresses. */
  lemma {:induction false} ValidAddressesComplete(isIP: string -> bool, lines: seq<string>, line: string)
    requires line in lines
    ensures line in ValidAddresses(isIP, lines) <==> isIP(line)
  {
    var init := lines[..|lines| - 1];
    var last := lines[|lines| - 1];
    assert lines == init + [last];
    if line in init {
      ValidAddressesComplete(isIP, init, line);
    }
  }

  /** ParseAddrFile: keeps every scanned line that is an address, and passes on the scan error. */
  method ParseAddrFile(isIP: string -> bool, f: FileScan) returns (lines: seq<string>, err: Option<string>)
    ensures lines == ValidAddresses(isIP, ScannedLines(f))
    ensures err == ScanError(f)
  {
    match f
    case OpenFailed(e) =>
      return [], Some(e);
    case Scanned(txts, scanErr) =>
      lines := [];
      for k := 0 to |txts|
        invariant lines == ValidAddresses(isIP, txts[..k])
      {
        var txt := txts[k];
        if isIP(txt) {
          lines := lines + [txt];
        }
        assert txts[..k + 1][..k] == txts[..k];
      }
      assert txts[..|txts|] == txts;
      err := scanErr;
  }

  /** The (xpath, value) pairs kept from the lines, in file order. */
  function XpathPairs(lines: seq<string>): (params: seq<seq<string>>)
    ensures |params| <= |lines|
    ensures forall k :: 0 <= k < |params| ==>
      |params[k]| == 2 && ',' !in params[k][0] && params[k][0] + [','] + params[k][1] in lines
  {
    if lines == [] then []
    else
      var pair := SplitFirst(lines[|lines| - 1], ',');
      XpathPairs(lines[..|lines| - 1]) + (if |pair| == 2 then [pair] else [])
  }

  /**
   * One line is kept exactly when it holds a comma, and then it becomes the
   * text before its first comma and everything after it, further commas included.
   */
  lemma XpathPairsOfLine(line: string)
    ensures |XpathPairs([line])| == (if ',' in line then 1 else 0)
    ensures ',' in line ==>
      var p := XpathPairs([line])[0];
      |p| == 2 && ',' !in p[0] && p[0] + [','] + p[1] == line
  {
    assert [line][..0] == [];
  }

  /** The pairs of a + b are those of a followed by those of b: file order is kept. */
  lemma {:induction false} XpathPairsAppend(a: seq<string>, b: seq<string>)
    ensures XpathPairs(a + b) == XpathPairs(a) + XpathPairs(b)
  {
    if b == [] {
      assert a + b == a;
    } else {
      var init := b[..|b| - 1];
      assert (a + b)[..|a + b| - 1] == a + init;
      assert (a + b)[|a + b| - 1] == b[|b| - 1];
      XpathPairsAppend(a, init);
    }
  }

  /** ParseXpathFile: splits every scanned line at its first comma, keeps those that split, and passes on the scan error. */
  method ParseXpathFile(f: FileScan) returns (params: seq<seq<string>>, err: Option<string>)
    ensures params == XpathPairs(ScannedLines(f))
    ensures err == ScanError(f)
  {
    match f
    case OpenFailed(e) =>
      return [], Some(e);
    case Scanned(txts, scanErr) =>
      params := [];
      for k := 0 to |txts|
        invariant params == XpathPairs(txts[..k])
      {
        var pair := SplitFirst(txts[k], ',');
        if |pair| == 2 {
          params := params + [pair];
        }
        assert txts[..k + 1][..k] == txts[..k];
      }
      assert txts[..|txts|] == txts;
      err := scanErr;
  }
}
