/**
 What the reply parsers compute, as functions of the reply text: the declarative split of a
 location line, the frames of an address reply and the record of a data reply.
 */
module Grammar {
  import opened Bytes

  /* ---------- location lines: <file>:<line>[:<column>] ---------- */

  predicate IsGroup(g: string) {
    |g| >= 2 && g[0] == ':' && AllDigits(g[1..])
  }

  ghost predicate EndsInGroup(s: string) {
    exists k :: 0 <= k < |s| && IsGroup(s[k..])
  }

  /** `line` is `file` followed by as many groups as possible, up to two. */
  ghost predicate IsSplit(line: string, file: string, groups: seq<string>) {
    && |groups| <= 2
    && (forall i :: 0 <= i < |groups| ==> IsGroup(groups[i]))
    && line == file + Flatten(groups)
    && (|groups| == 2 || !EndsInGroup(file))
  }

  function DigitStart(s: string): (d: nat)
    ensures d <= |s| && AllDigits(s[d..])
    ensures d > 0 ==> !IsDigit(s[d - 1])
  {
    if s == [] || !IsDigit(s[|s| - 1]) then |s|
    else
      var d := DigitStart(s[..|s| - 1]);
      assert s[d..] == s[..|s| - 1][d..] + [s[|s| - 1]];
      d
  }

  lemma {:induction false} DigitStartOf(s: string, d: nat)
    requires 0 < d <= |s| && AllDigits(s[d..]) && !IsDigit(s[d - 1])
    ensures DigitStart(s) == d
  {
  }

  /** A trailing group begins right before the trailing digits. */
  lemma {:induction false} GroupBeforeDigits(s: string)
    ensures var d := DigitStart(s);
            EndsInGroup(s) ==> 0 < d < |s| && s[d - 1] == ':'
  {
    if k :| 0 <= k < |s| && IsGroup(s[k..]) {
      assert s[k..][1..] == s[k + 1..] && s[k..][0] == s[k];
      DigitStartOf(s, k + 1);
    }
  }

  /** Where the trailing group of s begins, -1 when there is none. */
  function GroupStart(s: string): (k: int)
    ensures -1 <= k < |s|
    ensures k >= 0 ==> IsGroup(s[k..])
    ensures k >= 0 <==> EndsInGroup(s)
  {
    var d := DigitStart(s);
    if 0 < d < |s| && s[d - 1] == ':' then
      assert s[d - 1..][1..] == s[d..];
      d - 1
    else
      GroupBeforeDigits(s);
      -1
  }

  lemma OneGroup(line: string, k: nat)
    requires k < |line| && IsGroup(line[k..]) && !EndsInGroup(line[..k])
    ensures IsSplit(line, line[..k], [line[k..]])
  {
    hide EndsInGroup, IsGroup, Flatten;
    FlattenFew(line[k..], []);
    assert line == line[..k] + line[k..];
  }

  lemma TwoGroups(line: string, k: nat, k2: nat)
    requires k2 < k < |line| && IsGroup(line[k..]) && IsGroup(line[..k][k2..])
    ensures IsSplit(line, line[..k2], [line[k2..k], line[k..]])
  {
    hide EndsInGroup, IsGroup, Flatten;
    FlattenFew(line[k2..k], line[k..]);
    assert line == line[..k2] + (line[k2..k] + line[k..]);
    assert line[..k][k2..] == line[k2..k];
  }

  function SplitLine(line: string): (r: (string, seq<string>))
    ensures IsSplit(line, r.0, r.1)
  {
    var k := GroupStart(line);
    if k < 0 then
      assert line == line + Flatten([]);
      (line, [])
    else
      var k2 := GroupStart(line[..k]);
      if k2 < 0 then
        OneGroup(line, k);
        (line[..k], [line[k..]])
      else
        TwoGroups(line, k, k2);
        (line[..k2], [line[k2..k], line[k..]])
  }

  lemma GroupStartOf(file: string, g: string)
    requires IsGroup(g)
    ensures GroupStart(file + g) == |file|
  {
    assert (file + g)[|file| + 1..] == g[1..];
    DigitStartOf(file + g, |file| + 1);
  }

  /** The split is unique, so SplitLine is the only function that satisfies IsSplit. */
  lemma SplitUnique(line: string, file: string, groups: seq<string>)
    requires IsSplit(line, file, groups)
    ensures SplitLine(line) == (file, groups)
  {
    if |groups| == 0 {
      assert groups == [] && line == file;
    } else if |groups| == 1 {
      FlattenFew(groups[0], []);
      assert groups == [groups[0]] && line == file + groups[0];
      GroupStartOf(file, groups[0]);
      assert line[..|file|] == file && line[|file|..] == groups[0];
    } else {
      var head := file + groups[0];
      FlattenFew(groups[0], groups[1]);
      assert groups == [groups[0], groups[1]] && line == head + groups[1];
      GroupStartOf(head, groups[1]);
      assert line[..|head|] == head && line[|head|..] == groups[1];
      GroupStartOf(file, groups[0]);
      assert head[..|file|] == file && line[|file|..|head|] == groups[0];
    }
  }

  /* ---------- where the scan leaves the line ---------- */

  /** Where walking back over digits stops: at the last character that is none, or at the first character. */
  function WalkEnd(s: string): (stop: nat)
    requires s != []
    ensures stop < |s| && AllDigits(s[stop + 1..]) && (stop == 0 || !IsDigit(s[stop]))
  {
    var d := DigitStart(s);
    if d == 0 then
      assert s[1..] == s[0..][1..];
      0
    else d - 1
  }

  /** The lowest index that `rounds` rounds of the scan read: |s| when they read none, -1 before the first character. */
  function LowestRead(s: string, rounds: nat): (i: int)
    ensures -1 <= i <= |s|
    decreases rounds
  {
    if rounds == 0 then |s|
    else if s == [] then -1
    else
      var stop := WalkEnd(s);
      if s[stop] == ':' && stop + 1 < |s| && IsDigit(s[stop + 1]) then LowestRead(s[..stop], rounds - 1) else stop
  }

  /** How reading ends: as intended, with a read before the line, or with the file of a frame never set. */
  datatype ParseOutcome = Parsed | OutOfLine | FileUnset

  function LineOutcome(line: string): ParseOutcome {
    if line == [] then FileUnset else if LowestRead(line, 2) < 0 then OutOfLine else Parsed
  }

  /**
   How far left the scan reads, by the declarative split: to the colon of a second group, else from the file to
   its last character that is no digit, or before the line when nothing is left of the file. The last happens
   exactly on a bare group.
   */
  lemma {:induction false} LineFaults(line: string)
    ensures line != [] ==>
              var (file, groups) := SplitLine(line);
              LowestRead(line, 2) == if |groups| == 2 then |file| else if file == [] then -1 else WalkEnd(file)
    ensures LineOutcome(line) == OutOfLine <==> IsGroup(line)
    ensures LineOutcome(line) == FileUnset <==> line == []
  {
    if line != [] {
      RoundIsGroupStart(line, 2);
      var k := GroupStart(line);
      if k > 0 {
        RoundIsGroupStart(line[..k], 1);
      }
    }
  }

  /** One round of the scan: it goes on before the trailing group, if there is one. */
  lemma RoundIsGroupStart(s: string, rounds: nat)
    requires s != [] && rounds > 0
    ensures var k := GroupStart(s);
            LowestRead(s, rounds) == if k >= 0 then LowestRead(s[..k], rounds - 1) else WalkEnd(s)
    ensures GroupStart(s) == 0 <==> IsGroup(s)
  {
    var stop := WalkEnd(s);
    assert forall i :: stop < i < |s| ==> s[stop + 1..][i - stop - 1] == s[i];
    assert forall i :: 1 <= i < |s| ==> s[1..][i - 1] == s[i];
  }

  /* ---------- frames ---------- */

  datatype Frame = Frame(func: Option<string>, file: Option<string>, lin: nat, col: nat)

  function Known(name: string): Option<string> {
    if name == "??" then None else Some(name)
  }

  function GroupValue(groups: seq<string>, i: nat): (v: nat)
    requires forall j :: 0 <= j < |groups| ==> IsGroup(groups[j])
  {
    if i < |groups| then assert IsGroup(groups[i]); AtollNonNegative(groups[i][1..]); Atoll(groups[i][1..]) else 0
  }

  /** addr2line writes `:?` for an unknown line; it is dropped from texts longer than three. */
  function DropUnknownLine(file: string, lin: nat): string {
    if lin == 0 && |file| > 3 && EndsWith(file, ":?") then file[..|file| - 2] else file
  }

  function FrameOf(func: string, line: string): Frame {
    var (file, groups) := SplitLine(line);
    var lin := GroupValue(groups, 0);
    Frame(Known(func), Known(DropUnknownLine(file, lin)), lin, GroupValue(groups, 1))
  }

  /**
   What a frame shows, for every function line and every location line: null for "??" only, the file without
   its mark, and the numbers of the groups.
   */
  lemma {:induction false} FrameShows(func: string, line: string, file: string, groups: seq<string>)
    requires IsSplit(line, file, groups)
    ensures var f := FrameOf(func, line);
            var marked := f.lin == 0 && |file| >= 4 && file[|file| - 2..] == ":?";
            var name := if marked then file[..|file| - 2] else file;
            && f.func == (if func == "??" then None else Some(func))
            && f.file == (if name == "??" then None else Some(name))
            && f.lin == (if |groups| > 0 then Atoll(groups[0][1..]) else 0)
            && f.col == (if |groups| > 1 then Atoll(groups[1][1..]) else 0)
  {
    hide SplitLine, IsSplit, Atoll, IsGroup;
    SplitUnique(line, file, groups);
  }

  /* ---------- replies ---------- */

  /** ExtractToken: the text before the first delimiter, and what follows that delimiter. */
  function Token(s: string, delims: string): string {
    s[..Span(s, delims)]
  }

  function Rest(s: string, delims: string): (r: string)
    ensures |r| <= |s| - |Token(s, delims)|
    ensures s != [] ==> |r| < |s|
  {
    var n := Span(s, delims);
    if n < |s| then s[n + 1..] else []
  }

  lemma TokenOf(token: string, d: char, rest: string, delims: string)
    requires Without(token, d) && delims == [d]
    ensures Token(token + [d] + rest, delims) == token && Rest(token + [d] + rest, delims) == rest
  {
    var s := token + [d] + rest;
    SpanIs(s, delims, |token|);
    assert s[..|token|] == token && s[|token| + 1..] == rest;
  }

  /** Replies on which the parser neither leaves a file unset nor scans out of its line. */
  predicate Readable(s: string)
    decreases |s|
  {
    Token(s, "\n") != [] ==>
      var t := Rest(s, "\n");
      var line := Token(t, "\n");
      line != [] && !IsGroup(line) && Readable(Rest(t, "\n"))
  }

  /** How parsing a reply ends: like its first frame whose location line is at fault. */
  function ReplyOutcome(s: string): ParseOutcome
    decreases |s|
  {
    if Token(s, "\n") == [] then Parsed
    else
      var t := Rest(s, "\n");
      var outcome := LineOutcome(Token(t, "\n"));
      if outcome.Parsed? then ReplyOutcome(Rest(t, "\n")) else outcome
  }

  /** Parsing ends as intended exactly on the readable replies. */
  lemma {:induction false} ReplyFaults(s: string)
    ensures ReplyOutcome(s) == Parsed <==> Readable(s)
    decreases |s|
  {
    if Token(s, "\n") != [] {
      var t := Rest(s, "\n");
      LineFaults(Token(t, "\n"));
      ReplyFaults(Rest(t, "\n"));
    }
  }

  lemma {:induction false} FaultAt(func: string, line: string, rest: string)
    requires func != [] && Without(func, '\n') && Without(line, '\n') && !LineOutcome(line).Parsed?
    ensures ReplyOutcome(func + "\n" + (line + "\n" + rest)) == LineOutcome(line)
  {
    hide LineOutcome;
    TokenOf(func, '\n', line + "\n" + rest, "\n");
    TokenOf(line, '\n', rest, "\n");
  }

  lemma ShortestGroup()
    ensures LowestRead(":1", 2) == -1 && LineOutcome(":1") == OutOfLine && LineOutcome("") == FileUnset
  {
    hide SplitLine, WalkEnd;
    LineFaults(":1");
    LineFaults("");
  }

  /** Either fault occurs: on a line that is a bare group, and on an empty line. */
  lemma {:induction false} FaultyReplies()
    ensures LowestRead(":1", 2) == -1
    ensures ReplyOutcome("f\n:1\n\n") == OutOfLine
    ensures ReplyOutcome("f\n\n") == FileUnset
  {
    hide ReplyOutcome, LineOutcome, LowestRead;
    ShortestGroup();
    FaultAt("f", ":1", "\n");
    assert "f" + "\n" + (":1" + "\n" + "\n") == "f\n:1\n\n";
    FaultAt("f", "", "");
    assert "f" + "\n" + ("" + "\n" + "") == "f\n\n";
  }

  function ParseFrames(s: string): seq<Frame>
    decreases |s|
  {
    if Token(s, "\n") == [] then []
    else
      var t := Rest(s, "\n");
      [FrameOf(Token(s, "\n"), Token(t, "\n"))] + ParseFrames(Rest(t, "\n"))
  }

  /** The conversion of ExtractUptr: atoll, then the cast to an unsigned 64-bit value. */
  function Uptr(s: string): (v: nat)
    ensures v < UPTR_RANGE
  {
    Atoll(s) % UPTR_RANGE
  }

  /** ExtractUptr reads every decimal as its number, a negative one modulo 2^64, if 64 bits with a sign hold it. */
  lemma {:induction false} UptrReads(w: Written)
    requires w.Valid()
    ensures Uptr(w.Text()) ==
            if w.sign != "-" then if w.n < 0x8000_0000_0000_0000 then w.n else 0x7fff_ffff_ffff_ffff
            else if w.n == 0 then 0
            else if w.n <= 0x8000_0000_0000_0000 then 0x1_0000_0000_0000_0000 - w.n
            else 0x8000_0000_0000_0000
  {
    hide Atoll;
    AtollReads(w);
    CastToUptr(Atoll(w.Text()));
  }

  lemma CastToUptr(v: int)
    requires -0x8000_0000_0000_0000 <= v < 0x8000_0000_0000_0000
    ensures v % 0x1_0000_0000_0000_0000 == if v < 0 then v + 0x1_0000_0000_0000_0000 else v
  {
  }

  datatype DataRecord = DataRecord(name: string, start: nat, size: nat, file: string, line: nat)

  function ParseData(s: string): DataRecord {
    var s1 := Rest(s, "\n");
    var s2 := Rest(s1, " ");
    var s3 := Rest(s2, "\n");
    var s4 := Rest(s3, ":");
    DataRecord(Token(s, "\n"), Uptr(Token(s1, " ")), Uptr(Token(s2, "\n")), Token(s3, ":"), Uptr(Token(s4, "\n")))
  }
}
