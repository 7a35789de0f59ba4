/** The list loader (lpm_load in ip-list.cpp): read a list file line by line,
    skip comments, split each other line into address token and tag, parse the
    token with the address codec and insert it into a fresh trie; a line whose
    token does not parse or whose insert fails is reported and skipped. */
module Loader {
  import opened Base
  import opened Lpm
  import opened ListFile

  /** The readable files: each path maps to the lines getline yields for it.
      A path that is absent cannot be opened. */
  type FileSystem = map<string, seq<string>>

  /** A skipped line, with its 1-based line number and the token as logged. */
  datatype Skip =
    | BadFormat(line: nat, token: string)     // "bad address/network format"
    | InsertFailed(line: nat, token: string)  // "failed to insert"

  /** The loop's state: the trie being filled, the count of loaded entries,
      and the lines reported as skipped so far. */
  datatype LoadState<T> = LoadState(trie: T, loaded: nat, skipped: seq<Skip>)

  function Initial<T>(lib: Lpm<T>): LoadState<T> {
    LoadState(lib.create, 0, [])
  }

  /** The token handed to the address codec for a data line: the address
      part of the line as a C string. */
  function Token(line: string): (t: string)
    ensures t <= SplitLine(line).address && '\0' !in t
  {
    CString(SplitLine(line).address)
  }

  /** The insert a data line whose token parses makes into `trie`: its key
      with the tag as a C string. The library says whether it succeeded. */
  function InsertLine<T>(lib: Lpm<T>, trie: T, line: string): (T, bool)
    requires lib.strtobin(Token(line)).Some?
  {
    lib.insert(trie, lib.strtobin(Token(line)).value, CString(SplitLine(line).tag))
  }

  /** One iteration of the loop, for line number `cline`: a comment changes
      nothing; a token the codec rejects is reported; any other line is
      either counted or reported (ProcessInsert says which). */
  function ProcessLine<T>(lib: Lpm<T>, st: LoadState<T>, cline: nat, line: string): (r: LoadState<T>)
    ensures IsComment(line) ==> r == st
    ensures !IsComment(line) && lib.strtobin(Token(line)).None? ==>
              r == st.(skipped := st.skipped + [BadFormat(cline, Token(line))])
    ensures !IsComment(line) ==>
              || (r.loaded == st.loaded + 1 && r.skipped == st.skipped)
              || (r.loaded == st.loaded && |r.skipped| == |st.skipped| + 1
                  && r.skipped[..|st.skipped|] == st.skipped && r.skipped[|st.skipped|].line == cline)
  {
    if IsComment(line) then st
    else
      var token := Token(line);
      match lib.strtobin(token)
      case None => st.(skipped := st.skipped + [BadFormat(cline, token)])
      case Some(key) =>
        var (trie, ok) := lib.insert(st.trie, key, CString(SplitLine(line).tag));
        if ok then st.(trie := trie, loaded := st.loaded + 1)
        else st.(trie := trie, skipped := st.skipped + [InsertFailed(cline, token)])
  }

  /** A data line whose token parses is inserted: counted when the insert
      succeeds, reported as a failed insert and not counted when it fails.
      Either way the trie becomes the one the insert returned. */
  lemma ProcessInsert<T>(lib: Lpm<T>, st: LoadState<T>, cline: nat, line: string)
    requires !IsComment(line) && lib.strtobin(Token(line)).Some?
    ensures InsertLine(lib, st.trie, line).1 ==>
              ProcessLine(lib, st, cline, line) == st.(trie := InsertLine(lib, st.trie, line).0, loaded := st.loaded + 1)
    ensures !InsertLine(lib, st.trie, line).1 ==>
              ProcessLine(lib, st, cline, line) == st.(trie := InsertLine(lib, st.trie, line).0,
                                                       skipped := st.skipped + [InsertFailed(cline, Token(line))])
  {
  }

  /** The number of comment lines. */
  function Comments(lines: seq<string>): (n: nat)
    ensures n <= |lines|
  {
    if lines == [] then 0
    else Comments(lines[..|lines| - 1]) + (if IsComment(lines[|lines| - 1]) then 1 else 0)
  }

  /** The state after the loop has read `lines`. Every line is a comment, a
      loaded entry or a skipped line, so `loaded` never exceeds the number of
      lines. */
  function LoadLines<T>(lib: Lpm<T>, lines: seq<string>): (r: LoadState<T>)
    ensures r.loaded + |r.skipped| + Comments(lines) == |lines|
    ensures r.loaded <= |lines|
    decreases |lines|
  {
    if lines == [] then Initial(lib)
    else
      var n := |lines|;
      ProcessLine(lib, LoadLines(lib, lines[..n - 1]), n, lines[n - 1])
  }

  /** lpm_load: fails, before any trie exists, when the file cannot be opened. */
  function Load<T>(lib: Lpm<T>, fs: FileSystem, path: string): (r: Result<LoadState<T>>)
    ensures r.Failure? <==> path !in fs
    ensures r.Failure? ==> r.error == BadFile(path)
    ensures r.Success? ==> r.value.loaded <= |fs[path]|
  {
    if path !in fs then Failure(BadFile(path)) else Success(LoadLines(lib, fs[path]))
  }

  /** The loop of lpm_load, with its line counter `cline` and its count
      `loaded`. */
  method LoadFile<T>(lib: Lpm<T>, fs: FileSystem, path: string) returns (r: Result<LoadState<T>>)
    ensures r == Load(lib, fs, path)
  {
    if path !in fs {
      return Failure(BadFile(path));
    }
    var lines := fs[path];
    var trie := lib.create;
    var cline: nat := 1;
    var loaded: nat := 0;
    var skipped: seq<Skip> := [];
    while cline <= |lines|
      invariant 1 <= cline <= |lines| + 1
      invariant LoadState(trie, loaded, skipped) == LoadLines(lib, lines[..cline - 1])
    {
      var line := lines[cline - 1];
      assert lines[..cline][..cline - 1] == lines[..cline - 1];
      if !IsComment(line) {
        var parts := SplitLine(line);
        var token := CString(parts.address);
        match lib.strtobin(token) {
          case None =>
            skipped := skipped + [BadFormat(cline, token)];
          case Some(key) =>
            var (t, ok) := lib.insert(trie, key, CString(parts.tag));
            trie := t;
            if ok {
              loaded := loaded + 1;
            } else {
              skipped := skipped + [InsertFailed(cline, token)];
            }
        }
      }
      cline := cline + 1;
    }
    assert lines[..|lines|] == lines;
    r := Success(LoadState(trie, loaded, skipped));
  }

  /** What a report says about the file: the line it names is a data line
      of the file, the token is that line's, it is a bad-format report
      exactly when the codec rejected the token, and otherwise the insert
      into the trie built from the lines before it failed. */
  predicate ReportsLine<T>(lib: Lpm<T>, lines: seq<string>, s: Skip) {
    && 1 <= s.line <= |lines|
    && !IsComment(lines[s.line - 1])
    && s.token == Token(lines[s.line - 1])
    && (s.BadFormat? <==> lib.strtobin(s.token).None?)
    && (s.InsertFailed? ==> !InsertLine(lib, LoadLines(lib, lines[..s.line - 1]).trie, lines[s.line - 1]).1)
  }

  predicate ReportsAccurate<T>(lib: Lpm<T>, lines: seq<string>, sk: seq<Skip>) {
    && (forall k :: 0 <= k < |sk| ==> ReportsLine(lib, lines, sk[k]))
    && (forall i, j :: 0 <= i < j < |sk| ==> sk[i].line < sk[j].line)
  }

  /** Every reported line is reported under its own 1-based number and token,
      and reports come in increasing line order (so no line is reported
      twice). */
  lemma {:induction false} SkipsAccurate<T>(lib: Lpm<T>, lines: seq<string>)
    ensures ReportsAccurate(lib, lines, LoadLines(lib, lines).skipped)
  {
    if lines != [] {
      var n := |lines|;
      var init := lines[..n - 1];
      var st := LoadLines(lib, init);
      SkipsAccurate(lib, init);
      ReportsExtend(lib, lines, st.skipped);
      NewReport(lib, st, n, lines[n - 1]);
      var sk := ProcessLine(lib, st, n, lines[n - 1]).skipped;
      assert sk == LoadLines(lib, lines).skipped;
      if |sk| > |st.skipped| {
        var x := sk[|st.skipped|];
        assert sk == st.skipped + [x];
        assert ReportsLine(lib, lines, x);
        ReportsAppend(lib, lines, st.skipped, x);
      }
    }
  }

  /** Accurate reports about earlier lines, followed by an accurate report
      about the last line, are accurate. */
  lemma ReportsAppend<T>(lib: Lpm<T>, lines: seq<string>, sk: seq<Skip>, x: Skip)
    requires forall k :: 0 <= k < |sk| ==> ReportsLine(lib, lines, sk[k]) && sk[k].line < |lines|
    requires forall i, j :: 0 <= i < j < |sk| ==> sk[i].line < sk[j].line
    requires ReportsLine(lib, lines, x) && x.line == |lines|
    ensures ReportsAccurate(lib, lines, sk + [x])
  {
  }

  /** Reports about the first lines of a file stay accurate about the whole
      file, and name lines before its last one. */
  lemma ReportsExtend<T>(lib: Lpm<T>, lines: seq<string>, sk: seq<Skip>)
    requires |lines| > 0 && ReportsAccurate(lib, lines[..|lines| - 1], sk)
    ensures forall k :: 0 <= k < |sk| ==> ReportsLine(lib, lines, sk[k]) && sk[k].line < |lines|
  {
    var init := lines[..|lines| - 1];
    forall k | 0 <= k < |sk|
      ensures ReportsLine(lib, lines, sk[k]) && sk[k].line < |lines|
    {
      assert ReportsLine(lib, init, sk[k]);
      assert lines[sk[k].line - 1] == init[sk[k].line - 1];
      assert lines[..sk[k].line - 1] == init[..sk[k].line - 1];
    }
  }

  /** The report an iteration adds, if any, is accurate about its line. */
  lemma NewReport<T>(lib: Lpm<T>, st: LoadState<T>, cline: nat, line: string)
    ensures var r := ProcessLine(lib, st, cline, line);
      |r.skipped| > |st.skipped| ==>
        && !IsComment(line)
        && r.skipped[|st.skipped|].line == cline
        && r.skipped[|st.skipped|].token == Token(line)
        && (r.skipped[|st.skipped|].BadFormat? <==> lib.strtobin(Token(line)).None?)
        && (r.skipped[|st.skipped|].InsertFailed? ==> !InsertLine(lib, st.trie, line).1)
  {
  }

  /** An iteration keeps every report made before it. */
  lemma ReportsKept<T>(lib: Lpm<T>, st: LoadState<T>, cline: nat, line: string, s: Skip)
    requires s in st.skipped
    ensures s in ProcessLine(lib, st, cline, line).skipped
  {
    var k :| 0 <= k < |st.skipped| && st.skipped[k] == s;
    assert ProcessLine(lib, st, cline, line).skipped[k] == s;
  }

  /** A report made while loading the first `k` lines is still there after
      the whole file. */
  lemma {:induction false} ReportsStay<T>(lib: Lpm<T>, lines: seq<string>, k: nat, s: Skip)
    requires k <= |lines| && s in LoadLines(lib, lines[..k]).skipped
    ensures s in LoadLines(lib, lines).skipped
    decreases |lines| - k
  {
    if k < |lines| {
      var st := LoadLines(lib, lines[..k]);
      LoadStep(lib, lines, k + 1, st, ProcessLine(lib, st, k + 1, lines[k]));
      ReportsKept(lib, st, k + 1, lines[k], s);
      ReportsStay(lib, lines, k + 1, s);
    } else {
      assert lines[..k] == lines;
    }
  }

  /** Conversely, every data line whose token the codec rejects is reported
      as a bad-format line under its number. */
  lemma BadFormatReported<T>(lib: Lpm<T>, lines: seq<string>, n: nat)
    requires 1 <= n <= |lines| && !IsComment(lines[n - 1])
    requires lib.strtobin(Token(lines[n - 1])).None?
    ensures BadFormat(n, Token(lines[n - 1])) in LoadLines(lib, lines).skipped
  {
    var st := LoadLines(lib, lines[..n - 1]);
    var r := ProcessLine(lib, st, n, lines[n - 1]);
    LoadStep(lib, lines, n, st, r);
    assert r.skipped[|st.skipped|] == BadFormat(n, Token(lines[n - 1]));
    ReportsStay(lib, lines, n, BadFormat(n, Token(lines[n - 1])));
  }

  /** Conversely, every data line whose token parses but whose insert into
      the trie built from the lines before it fails is reported as a failed
      insert under its number. */
  lemma InsertFailedReported<T>(lib: Lpm<T>, lines: seq<string>, n: nat)
    requires 1 <= n <= |lines| && !IsComment(lines[n - 1])
    requires lib.strtobin(Token(lines[n - 1])).Some?
    requires !InsertLine(lib, LoadLines(lib, lines[..n - 1]).trie, lines[n - 1]).1
    ensures InsertFailed(n, Token(lines[n - 1])) in LoadLines(lib, lines).skipped
  {
    var st := LoadLines(lib, lines[..n - 1]);
    var r := ProcessLine(lib, st, n, lines[n - 1]);
    LoadStep(lib, lines, n, st, r);
    ProcessInsert(lib, st, n, lines[n - 1]);
    assert r.skipped[|st.skipped|] == InsertFailed(n, Token(lines[n - 1]));
    ReportsStay(lib, lines, n, InsertFailed(n, Token(lines[n - 1])));
  }

  /** The file with its comment lines removed. */
  function DataLines(lines: seq<string>): (d: seq<string>)
    ensures forall i :: 0 <= i < |d| ==> !IsComment(d[i])
    ensures |d| + Comments(lines) == |lines|
  {
    if lines == [] then []
    else if IsComment(lines[|lines| - 1]) then DataLines(lines[..|lines| - 1])
    else DataLines(lines[..|lines| - 1]) + [lines[|lines| - 1]]
  }

  /** Comment lines never add entries, whatever they contain: the file loads
      into the same trie, with the same count and the same number of
      reports, as the file without them. */
  lemma {:induction false} CommentsIgnored<T>(lib: Lpm<T>, lines: seq<string>)
    ensures var a := LoadLines(lib, lines);
      var b := LoadLines(lib, DataLines(lines));
      a.trie == b.trie && a.loaded == b.loaded && |a.skipped| == |b.skipped|
  {
    if lines != [] {
      var n := |lines|;
      var init := lines[..n - 1];
      var line := lines[n - 1];
      CommentsIgnored(lib, init);
      if !IsComment(line) {
        var d := DataLines(init) + [line];
        assert d[..|d| - 1] == DataLines(init);
        var a := LoadLines(lib, init);
        var b := LoadLines(lib, DataLines(init));
        ProcessLineFrame(lib, a, b, n, |d|, line);
      }
    }
  }

  /** An iteration's effect on the trie, the count and the number of reports
      depends only on those, not on the line number or earlier reports. */
  lemma ProcessLineFrame<T>(lib: Lpm<T>, a: LoadState<T>, b: LoadState<T>, ca: nat, cb: nat, line: string)
    requires a.trie == b.trie && a.loaded == b.loaded && |a.skipped| == |b.skipped|
    ensures var a' := ProcessLine(lib, a, ca, line);
      var b' := ProcessLine(lib, b, cb, line);
      a'.trie == b'.trie && a'.loaded == b'.loaded && |a'.skipped| == |b'.skipped|
  {
  }

  /** A data line split into `address` and `tag`, whose C-string address
      parses and whose insert of the C-string tag succeeds, inserts exactly
      that entry and adds one to the count. */
  lemma LoadsLine<T>(lib: Lpm<T>, st: LoadState<T>, cline: nat, line: string, address: string, tag: string, key: PrefixKey)
    requires SplitLine(line) == LineParts(address, tag) && !IsComment(line)
    requires lib.strtobin(CString(address)) == Some(key) && lib.insert(st.trie, key, CString(tag)).1
    ensures ProcessLine(lib, st, cline, line) == st.(trie := lib.insert(st.trie, key, CString(tag)).0, loaded := st.loaded + 1)
  {
  }

  /** A data line written as `address <separators> tag <separators>`, whose
      address parses and whose insert succeeds, inserts exactly (key, tag). */
  lemma LoadsJoinedLine<T>(lib: Lpm<T>, st: LoadState<T>, cline: nat, line: string,
                           address: string, sep: string, tag: string, trail: string, key: PrefixKey)
    requires line == address + sep + tag + trail
    requires |address| > 0 && address[0] != '#'
    requires forall i :: 0 <= i < |address| ==> !IsSpace(address[i])
    requires |sep| > 0 && AllSpace(sep) && AllSpace(trail) && IsTrimmed(tag)
    requires '\0' !in address && '\0' !in tag
    requires lib.strtobin(address) == Some(key) && lib.insert(st.trie, key, tag).1
    ensures ProcessLine(lib, st, cline, line) == st.(trie := lib.insert(st.trie, key, tag).0, loaded := st.loaded + 1)
  {
    SplitJoin(address, sep, tag, trail);
    assert line[0] == address[0];
    CStringNoNul(address);
    CStringNoNul(tag);
    LoadsLine(lib, st, cline, line, address, tag, key);
  }

  /** The three data lines of the example file below, one iteration each. */
  lemma ExampleLine2<T>(lib: Lpm<T>, st: LoadState<T>, line: string, k1: PrefixKey)
    requires line == "10.0.0.0/8 bad"
    requires lib.strtobin("10.0.0.0/8") == Some(k1) && lib.insert(st.trie, k1, "bad").1
    ensures ProcessLine(lib, st, 2, line) == st.(trie := lib.insert(st.trie, k1, "bad").0, loaded := st.loaded + 1)
  {
    var address, sep, tag, trail := "10.0.0.0/8", " ", "bad", "";
    assert forall i :: 0 <= i < |address| ==> !IsSpace(address[i]);
    LoadsJoinedLine(lib, st, 2, line, address, sep, tag, trail, k1);
  }

  lemma ExampleLine3<T>(lib: Lpm<T>, st: LoadState<T>, line: string, k2: PrefixKey)
    requires line == "10.1.2.3\tgood\r"
    requires lib.strtobin("10.1.2.3") == Some(k2) && lib.insert(st.trie, k2, "good").1
    ensures ProcessLine(lib, st, 3, line) == st.(trie := lib.insert(st.trie, k2, "good").0, loaded := st.loaded + 1)
  {
    var address, sep, tag, trail := "10.1.2.3", "\t", "good", "\r";
    assert forall i :: 0 <= i < |address| ==> !IsSpace(address[i]);
    LoadsJoinedLine(lib, st, 3, line, address, sep, tag, trail, k2);
  }

  lemma ExampleLine4<T>(lib: Lpm<T>, st: LoadState<T>, line: string, k3: PrefixKey)
    requires line == "172.16.0.0/12"
    requires lib.strtobin(line) == Some(k3) && lib.insert(st.trie, k3, "").1
    ensures ProcessLine(lib, st, 4, line) == st.(trie := lib.insert(st.trie, k3, "").0, loaded := st.loaded + 1)
  {
    assert forall i :: 0 <= i < |line| ==> !IsSpace(line[i]);
    SplitBareToken(line);
    CStringNoNul(line);
    CStringNoNul("");
    LoadsLine(lib, st, 4, line, line, "", k3);
  }

  /** One more step of the loop, on the first `k` lines. */
  lemma LoadStep<T>(lib: Lpm<T>, lines: seq<string>, k: nat, before: LoadState<T>, after: LoadState<T>)
    requires 0 < k <= |lines|
    requires LoadLines(lib, lines[..k - 1]) == before
    requires ProcessLine(lib, before, k, lines[k - 1]) == after
    ensures LoadLines(lib, lines[..k]) == after
  {
    assert lines[..k][..k - 1] == lines[..k - 1];
  }

  /** A file of a comment line and three data lines loads as the three data lines do, in order. */
  lemma LoadCommentThenThree<T>(lib: Lpm<T>, lines: seq<string>, s1: LoadState<T>, s2: LoadState<T>, s3: LoadState<T>)
    requires |lines| == 4 && IsComment(lines[0])
    requires ProcessLine(lib, Initial(lib), 2, lines[1]) == s1
    requires ProcessLine(lib, s1, 3, lines[2]) == s2
    requires ProcessLine(lib, s2, 4, lines[3]) == s3
    ensures LoadLines(lib, lines) == s3
  {
    assert lines[..0] == [];
    LoadStep(lib, lines, 1, Initial(lib), Initial(lib));
    LoadStep(lib, lines, 2, Initial(lib), s1);
    LoadStep(lib, lines, 3, s1, s2);
    LoadStep(lib, lines, 4, s2, s3);
    assert lines[..4] == lines;
  }

  /** The example of a list file with a comment, two tagged networks and an
      untagged one: when the codec accepts the three tokens and the inserts
      succeed, the trie is built by exactly these three inserts, in file
      order, with tags "bad", "good" and "". */
  lemma ExampleFile<T>(lib: Lpm<T>, lines: seq<string>, k1: PrefixKey, k2: PrefixKey, k3: PrefixKey)
    requires |lines| == 4 && lines[0] == "# deny list" && lines[1] == "10.0.0.0/8 bad"
    requires lines[2] == "10.1.2.3\tgood\r" && lines[3] == "172.16.0.0/12"
    requires lib.strtobin("10.0.0.0/8") == Some(k1)
    requires lib.strtobin("10.1.2.3") == Some(k2)
    requires lib.strtobin("172.16.0.0/12") == Some(k3)
    requires lib.insert(lib.create, k1, "bad").1
    requires lib.insert(lib.insert(lib.create, k1, "bad").0, k2, "good").1
    requires lib.insert(lib.insert(lib.insert(lib.create, k1, "bad").0, k2, "good").0, k3, "").1
    ensures LoadLines(lib, lines).loaded == 3 && LoadLines(lib, lines).skipped == []
    ensures LoadLines(lib, lines).trie == lib.insert(lib.insert(lib.insert(lib.create, k1, "bad").0, k2, "good").0, k3, "").0
  {
    var t1 := lib.insert(lib.create, k1, "bad").0;
    var t2 := lib.insert(t1, k2, "good").0;
    var t3 := lib.insert(t2, k3, "").0;
    var s1, s2, s3 := LoadState(t1, 1, []), LoadState(t2, 2, []), LoadState(t3, 3, []);
    ExampleLine2(lib, Initial(lib), lines[1], k1);
    ExampleLine3(lib, s1, lines[2], k2);
    ExampleLine4(lib, s2, lines[3], k3);
    LoadCommentThenThree(lib, lines, s1, s2, s3);
  }
}
