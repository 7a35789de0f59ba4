/** Tokenising one line of a list file (ip-list.cpp, lpm_load): comment
    detection, the split into address token and tag, and the C-string
    truncation that c_str() and strdup() apply. */
module ListFile {
  import opened Base

  /** The separator set " \t\r\n" passed to find_first_of and friends. */
  predicate IsSpace(c: char) {
    c == ' ' || c == '\t' || c == '\r' || c == '\n'
  }

  /** `address[0] == '#'`. On an empty std::string, operator[] yields the
      terminating '\0', so an empty line is not a comment. */
  predicate IsComment(line: string) {
    |line| > 0 && line[0] == '#'
  }

  /** What a C function sees of a string handed over through c_str():
      everything before the first NUL. */
  function CString(s: string): (r: string)
    ensures r <= s
    ensures '\0' !in r
    ensures |r| < |s| ==> s[|r|] == '\0'
  {
    if s == [] || s[0] == '\0' then [] else [s[0]] + CString(s[1..])
  }

  /** find_first_of(" \t\r\n", from) when `space` holds, and
      find_first_not_of(" \t\r\n", from) when it does not. */
  function FindFrom(s: string, from: nat, space: bool): (r: Option<nat>)
    requires from <= |s|
    ensures r.Some? ==> from <= r.value < |s| && IsSpace(s[r.value]) == space
    ensures forall i :: from <= i < (if r.Some? then r.value else |s|) ==> IsSpace(s[i]) != space
    decreases |s| - from
  {
    if from == |s| then None
    else if IsSpace(s[from]) == space then Some(from)
    else FindFrom(s, from + 1, space)
  }

  /** find_last_not_of(" \t\r\n"). */
  function FindLastNonSpace(s: string): (r: Option<nat>)
    ensures r.Some? ==> r.value < |s| && !IsSpace(s[r.value])
    ensures forall i :: (if r.Some? then r.value + 1 else 0) <= i < |s| ==> IsSpace(s[i])
  {
    if s == [] then None
    else if !IsSpace(s[|s| - 1]) then Some(|s| - 1)
    else FindLastNonSpace(s[..|s| - 1])
  }

  /** Reference definitions of trimming: drop separators at the front, at the
      back, and at both ends. */
  function TrimStart(s: string): string {
    if s != [] && IsSpace(s[0]) then TrimStart(s[1..]) else s
  }

  function TrimEnd(s: string): string {
    if s != [] && IsSpace(s[|s| - 1]) then TrimEnd(s[..|s| - 1]) else s
  }

  function Trim(s: string): string {
    TrimEnd(TrimStart(s))
  }

  /** A line of a list file, split as lpm_load splits it. */
  datatype LineParts = LineParts(address: string, tag: string)

  /** The token is everything before the first separator (the whole line if
      there is none); the tag runs from the first non-separator after that
      point to the last non-separator of the line, or is "" when there is no
      such character. */
  function SplitLine(line: string): (r: LineParts)
    ensures r.address <= line
    ensures forall i :: 0 <= i < |r.address| ==> !IsSpace(r.address[i])
    ensures |r.address| < |line| ==> IsSpace(line[|r.address|])
    ensures r.tag == Trim(line[|r.address|..])
  {
    match FindFrom(line, 0, true)
    case None =>
      assert line[|line|..] == [];
      TrimEmpty();
      LineParts(line, "")
    case Some(ws) =>
      match FindFrom(line, ws, false)
      case None =>
        TrimAllSpace(line[ws..]);
        LineParts(line[..ws], "")
      case Some(ts) =>
        var te := FindLastNonSpace(line).value;
        TrimSlice(line, ws, ts, te);
        LineParts(line[..ws], line[ts..te + 1])
  }

  lemma TrimEmpty()
    ensures Trim([]) == []
  {
  }

  lemma {:induction false} TrimStartAllSpace(s: string)
    requires forall i :: 0 <= i < |s| ==> IsSpace(s[i])
    ensures TrimStart(s) == []
  {
    if s != [] {
      TrimStartAllSpace(s[1..]);
    }
  }

  lemma TrimAllSpace(s: string)
    requires forall i :: 0 <= i < |s| ==> IsSpace(s[i])
    ensures Trim(s) == []
  {
    TrimStartAllSpace(s);
  }

  /** Dropping a run of separators from the front of `s[k..]` up to the
      first non-separator at `ts`. */
  lemma {:induction false} TrimStartFrom(s: string, k: nat, ts: nat)
    requires k <= ts < |s| && !IsSpace(s[ts])
    requires forall i :: k <= i < ts ==> IsSpace(s[i])
    ensures TrimStart(s[k..]) == s[ts..]
    decreases ts - k
  {
    if k < ts {
      assert s[k..][1..] == s[k + 1..];
      TrimStartFrom(s, k + 1, ts);
    }
  }

  /** Dropping a run of separators from the back of `s[..e]` down to the
      last non-separator at `te`. */
  lemma {:induction false} TrimEndTo(s: string, e: nat, te: nat)
    requires te < e <= |s| && !IsSpace(s[te])
    requires forall i :: te < i < e ==> IsSpace(s[i])
    ensures TrimEnd(s[..e]) == s[..te + 1]
    decreases e - te
  {
    if e > te + 1 {
      assert s[..e][..e - 1] == s[..e - 1];
      TrimEndTo(s, e - 1, te);
    }
  }

  lemma TrimSlice(line: string, ws: nat, ts: nat, te: nat)
    requires ws <= ts <= te < |line| && !IsSpace(line[ts]) && !IsSpace(line[te])
    requires forall i :: ws <= i < ts ==> IsSpace(line[i])
    requires forall i :: te < i < |line| ==> IsSpace(line[i])
    ensures Trim(line[ws..]) == line[ts..te + 1]
  {
    TrimStartFrom(line, ws, ts);
    var rest := line[ts..];
    TrimEndTo(rest, |rest|, te - ts);
    assert rest[..|rest|] == rest;
    assert rest[..te - ts + 1] == line[ts..te + 1];
  }

  /** A string with no separator at either end: what a tag looks like. */
  predicate IsTrimmed(s: string) {
    s == [] || (!IsSpace(s[0]) && !IsSpace(s[|s| - 1]))
  }

  predicate AllSpace(s: string) {
    forall i :: 0 <= i < |s| ==> IsSpace(s[i])
  }

  /** Writing a data line as `address <separators> tag <separators>` and
      splitting it gives back the address and the tag: the split inverts the
      file format. */
  lemma SplitJoin(address: string, sep: string, tag: string, trail: string)
    requires forall i :: 0 <= i < |address| ==> !IsSpace(address[i])
    requires |sep| > 0 && AllSpace(sep) && AllSpace(trail) && IsTrimmed(tag)
    ensures SplitLine(address + sep + tag + trail) == LineParts(address, tag)
  {
    var rest := sep + tag + trail;
    var line := address + rest;
    assert line == address + sep + tag + trail;
    SplitAt(address, rest);
    TrimJoin(sep, tag, trail);
  }

  /** The token ends where the first separator is. */
  lemma SplitAt(address: string, rest: string)
    requires forall i :: 0 <= i < |address| ==> !IsSpace(address[i])
    requires |rest| > 0 && IsSpace(rest[0])
    ensures SplitLine(address + rest).address == address
    ensures (address + rest)[|address|..] == rest
  {
  }

  lemma TrimJoin(sep: string, tag: string, trail: string)
    requires |sep| > 0 && AllSpace(sep) && AllSpace(trail) && IsTrimmed(tag)
    ensures Trim(sep + tag + trail) == tag
  {
    var rest := sep + tag + trail;
    if tag == [] {
      assert AllSpace(rest) by {
        forall i | 0 <= i < |rest| ensures IsSpace(rest[i]) {
          if i < |sep| { assert rest[i] == sep[i]; } else { assert rest[i] == trail[i - |sep|]; }
        }
      }
      TrimAllSpace(rest);
    } else {
      assert rest[|sep|] == tag[0];
      forall i | 0 <= i < |sep| ensures IsSpace(rest[i]) {
        assert rest[i] == sep[i];
      }
      TrimStartFrom(rest, 0, |sep|);
      var t := rest[|sep|..];
      assert t == tag + trail;
      assert t[|tag| - 1] == tag[|tag| - 1];
      forall i | |tag| - 1 < i < |t| ensures IsSpace(t[i]) {
        assert t[i] == trail[i - |tag|];
      }
      TrimEndTo(t, |t|, |tag| - 1);
      assert t[..|t|] == t;
      assert t[..|tag|] == tag;
    }
  }

  /** A line without any separator is an address token with an empty tag. */
  lemma SplitBareToken(line: string)
    requires forall i :: 0 <= i < |line| ==> !IsSpace(line[i])
    ensures SplitLine(line) == LineParts(line, "")
  {
    var r := SplitLine(line);
    assert line[|r.address|..] == [];
    TrimEmpty();
  }

  /** Leading separators are not skipped: a line that starts with one has an
      empty address token, whatever follows. */
  lemma SplitLeadingSpace(line: string)
    requires |line| > 0 && IsSpace(line[0])
    ensures SplitLine(line).address == ""
  {
  }

  /** A blank line is not a comment and splits into two empty strings. */
  lemma BlankLine()
    ensures !IsComment("") && SplitLine("") == LineParts("", "")
  {
  }

  /** c_str() changes nothing in a string without NUL characters. */
  lemma CStringNoNul(s: string)
    requires '\0' !in s
    ensures CString(s) == s
  {
  }
}
