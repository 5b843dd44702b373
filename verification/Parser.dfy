/**
 The reply parsers as the source writes them: tokens are copied into malloc'd blocks, location
 lines are scanned from the right and truncated in place, frames are appended to the result.
 */
module Parser {
  import opened Bytes
  import opened Grammar
  import opened Memory

  /** Block p is the C string s. */
  ghost predicate Holds(p: array<char>, s: string)
    reads p
  {
    Without(s, NUL) && |s| < p.Length && p[..|s|] == s && p[|s|] == NUL
  }

  function Text(p: array<char>): string
    reads p
  {
    CStr(p[..])
  }

  lemma HoldsText(p: array<char>, s: string)
    requires Holds(p, s)
    ensures Text(p) == s
  {
  }

  /* ---------- tokens ---------- */

  method ExtractToken(heap: Heap, str: string, delims: string) returns (rest: string, result: array<char>)
    requires Without(str, NUL)
    modifies heap
    ensures rest == Rest(str, delims) && Without(rest, NUL)
    ensures Holds(result, Token(str, delims)) && result.Length == |Token(str, delims)| + 1
    ensures fresh(result) && result !in old(heap.live) && heap.live == old(heap.live) + {result}
  {
    var prefixLen := Span(str, delims);
    result := heap.Malloc(prefixLen + 1);
    forall i | 0 <= i < prefixLen {
      result[i] := str[i];
    }
    result[prefixLen] := NUL;
    assert result[..prefixLen] == str[..prefixLen];
    rest := str[prefixLen..];
    if rest != [] {
      rest := rest[1..];
    }
  }

  method ExtractUptr(heap: Heap, str: string, delims: string) returns (rest: string, result: nat)
    requires Without(str, NUL)
    modifies heap
    ensures rest == Rest(str, delims) && Without(rest, NUL) && result == Uptr(Token(str, delims))
    ensures heap.live == old(heap.live)
  {
    var buff;
    rest, buff := ExtractToken(heap, str, delims);
    HoldsText(buff, Token(str, delims));
    result := Uptr(Text(buff));
    heap.Free(buff);
  }

  /* ---------- location lines ---------- */

  /** The inner loop of ParseFileLineInfo: back to the last non-digit, or to the first character. */
  method WalkDigits(line: array<char>, from: nat, ghost text: string) returns (back: nat)
    requires Holds(line, text) && from + 1 == |text|
    ensures back < |text| && AllDigits(text[back + 1..]) && (back == 0 || !IsDigit(text[back]))
    ensures line[back] == text[back]
    ensures IsDigit(line[back + 1]) <==> back + 1 < |text|
    ensures back == WalkEnd(text)
  {
    back := from;
    assert forall i :: 0 <= i < |text| ==> line[i] == text[i];
    while back > 0 && IsDigit(line[back])
      invariant back < |text| && AllDigits(text[back + 1..])
    {
      assert text[back..] == [text[back]] + text[back + 1..];
      back := back - 1;
    }
    assert back + 1 < |text| ==> text[back + 1] == text[back + 1..][0];
  }

  /**
   Strips up to two trailing groups off the C string in `line`, right to left, writing a NUL over
   each colon. What stays is the file name of the declarative split, and lin and col are the
   values of its groups from the left. Every access is inside the block, unless a round starts
   before it: that is where the source reads out of its line, and `inside` is false.
   */
  method ScanFileLineInfo(line: array<char>, ghost text: string) returns (inside: bool, lin: nat, col: nat)
    requires Holds(line, text) && text != []
    modifies line
    ensures inside <==> LowestRead(text, 2) >= 0
    ensures inside ==> Holds(line, SplitLine(text).0)
    ensures inside ==> lin == GroupValue(SplitLine(text).1, 0) && col == GroupValue(SplitLine(text).1, 1)
  {
    hide SplitLine, EndsInGroup, Atoll, CStr, WalkEnd, LowestRead;
    HoldsText(line, text);
    var size := |Text(line)|;
    lin, col := 0, 0;
    var back := size - 1;
    var i := 0;
    ghost var file, groups: seq<string> := text, [];
    while i < 2
      invariant i == |groups| <= 2
      invariant AreGroups(text, file, groups) && LowestRead(text, 2) == LowestRead(file, 2 - i)
      invariant Holds(line, file) && back == |file| - 1
      invariant lin == GroupValue(groups, 0) && col == GroupValue(groups, 1)
    {
      if back < 0 {
        NoRound(file, 2 - i);
        return false, lin, col;
      }
      back := WalkDigits(line, back, file);
      ReadRound(file, 2 - i);
      if line[back] != ':' || !IsDigit(line[back + 1]) {
        NoGroupAt(file, back);
        break;
      }
      PeelGroup(text, file, groups, back);
      TailText(line, file, back + 1);
      col := lin;
      lin := Atoll(CStr(line[back + 1..]));
      // Truncate at the colon to keep only what precedes it.
      line[back] := NUL;
      assert line[..back] == file[..back];
      file, groups := file[..back], [file[back..]] + groups;
      back := back - 1;
      i := i + 1;
    }
    NoRound(file, 0);
    SplitUnique(text, file, groups);
    inside := true;
  }

  lemma ReadRound(s: string, rounds: nat)
    requires s != [] && rounds > 0
    ensures var stop := WalkEnd(s);
            LowestRead(s, rounds) == if s[stop] == ':' && stop + 1 < |s| && IsDigit(s[stop + 1])
                                     then LowestRead(s[..stop], rounds - 1) else stop
  {
  }

  lemma NoRound(s: string, rounds: nat)
    ensures LowestRead(s, 0) == |s|
    ensures rounds > 0 ==> LowestRead([], rounds) == -1
  {
  }

  ghost predicate AreGroups(text: string, file: string, groups: seq<string>) {
    text == file + Flatten(groups) && forall j :: 0 <= j < |groups| ==> IsGroup(groups[j])
  }

  lemma PeelGroup(text: string, file: string, groups: seq<string>, back: nat)
    requires AreGroups(text, file, groups) && |groups| < 2
    requires back + 1 < |file| && file[back] == ':' && AllDigits(file[back + 1..])
    ensures AreGroups(text, file[..back], [file[back..]] + groups)
    ensures file[back..][1..] == file[back + 1..] && Atoll(file[back + 1..]) >= 0
    ensures forall j :: 0 < j <= |groups| ==> ([file[back..]] + groups)[j] == groups[j - 1]
  {
  }

  lemma TailText(line: array<char>, text: string, from: nat)
    requires Holds(line, text) && from <= |text|
    ensures CStr(line[from..]) == text[from..]
  {
  }

  /** After the digits are walked back to `back`, no group ends s unless a colon stands there before a digit. */
  lemma NoGroupAt(s: string, back: nat)
    requires back < |s| && AllDigits(s[back + 1..])
    requires back == 0 || !IsDigit(s[back])
    requires s[back] != ':' || back + 1 == |s|
    ensures !EndsInGroup(s)
  {
  }

  /* ---------- frames ---------- */

  datatype FrameDat = FrameDat(func: array?<char>, file: array?<char>, lin: nat, col: nat)

  class AddrInfo {
    var frames: seq<FrameDat>

    constructor ()
      ensures frames == []
    {
      frames := [];
    }
  }

  function BlocksOf(f: FrameDat): set<array<char>> {
    (if f.func == null then {} else {f.func}) + (if f.file == null then {} else {f.file})
  }

  /** The blocks the frames own. */
  function Blocks(fs: seq<FrameDat>): set<array<char>> {
    if fs == [] then {} else Blocks(fs[..|fs| - 1]) + BlocksOf(fs[|fs| - 1])
  }

  /** No block is owned twice. */
  ghost predicate Distinct(fs: seq<FrameDat>) {
    fs == [] ||
    var f := fs[|fs| - 1];
    && Distinct(fs[..|fs| - 1])
    && Blocks(fs[..|fs| - 1]) !! BlocksOf(f)
    && (f.func != null ==> f.func != f.file)
  }

  lemma BlocksSnoc(fs: seq<FrameDat>, f: FrameDat)
    ensures Blocks(fs + [f]) == Blocks(fs) + BlocksOf(f)
    ensures Distinct(fs + [f]) <==> Distinct(fs) && Blocks(fs) !! BlocksOf(f) && (f.func != null ==> f.func != f.file)
  {
  }

  lemma {:induction false} BlocksAppend(fs: seq<FrameDat>, gs: seq<FrameDat>)
    ensures Blocks(fs + gs) == Blocks(fs) + Blocks(gs)
    ensures Distinct(fs + gs) <==> Distinct(fs) && Distinct(gs) && Blocks(fs) !! Blocks(gs)
  {
    if gs == [] {
      assert fs + gs == fs;
    } else {
      var init, g := gs[..|gs| - 1], gs[|gs| - 1];
      assert fs + gs == (fs + init) + [g];
      BlocksSnoc(fs + init, g);
      BlocksAppend(fs, init);
    }
  }

  lemma {:induction false} BlocksMember(fs: seq<FrameDat>, i: nat)
    requires i < |fs|
    ensures BlocksOf(fs[i]) <= Blocks(fs)
  {
    if i < |fs| - 1 { BlocksMember(fs[..|fs| - 1], i); }
  }

  /** A null pointer marks an unknown name. */
  function TextOf(p: array?<char>): Option<string>
    reads p
  {
    if p == null then None else Some(Text(p))
  }

  /** The abstract value of a frame. */
  ghost function View(f: FrameDat): Frame
    reads BlocksOf(f)
  {
    Frame(TextOf(f.func), TextOf(f.file), f.lin, f.col)
  }

  ghost function Views(fs: seq<FrameDat>): (r: seq<Frame>)
    reads Blocks(fs)
    ensures |r| == |fs|
  {
    if fs == [] then [] else Views(fs[..|fs| - 1]) + [View(fs[|fs| - 1])]
  }

  lemma NoFrames()
    ensures Views([]) == [] && Blocks([]) == {} && Distinct([])
  {
  }

  lemma ViewsSnoc(fs: seq<FrameDat>, f: FrameDat)
    ensures Views(fs + [f]) == Views(fs) + [View(f)]
  {
  }

  lemma {:induction false} ViewsAppend(fs: seq<FrameDat>, gs: seq<FrameDat>)
    ensures Views(fs + gs) == Views(fs) + Views(gs)
  {
    if gs == [] {
      assert fs + gs == fs;
    } else {
      assert fs + gs == (fs + gs[..|gs| - 1]) + [gs[|gs| - 1]];
      ViewsSnoc(fs + gs[..|gs| - 1], gs[|gs| - 1]);
      ViewsAppend(fs, gs[..|gs| - 1]);
    }
  }

  /** Views go by position. */
  lemma {:induction false} ViewsAt(fs: seq<FrameDat>, i: nat)
    requires i < |fs|
    ensures Views(fs)[i] == View(fs[i])
  {
    if i < |fs| - 1 { ViewsAt(fs[..|fs| - 1], i); }
  }

  /**
   Fills in the file, line and column of a frame whose line and column start at 0. An empty line leaves
   the frame as it was, its file unset. After a scan that leaves its line nothing is promised.
   */
  method ParseFileLineInfo(heap: Heap, info: FrameDat, str: string)
    returns (outcome: ParseOutcome, rest: string, r: FrameDat)
    requires Without(str, NUL)
    modifies heap
    ensures outcome == LineOutcome(Token(str, "\n"))
    ensures outcome != OutOfLine ==> rest == Rest(str, "\n")
    ensures outcome == FileUnset ==> r == info && heap.live == old(heap.live)
    ensures outcome == Parsed ==>
              && r.func == info.func && r.file != null
              && (var (file, groups) := SplitLine(Token(str, "\n"));
                  Holds(r.file, file) && r.lin == GroupValue(groups, 0) && r.col == GroupValue(groups, 1))
              && fresh(r.file) && r.file !in old(heap.live) && heap.live == old(heap.live) + {r.file}
  {
    hide SplitLine, Atoll, CStr, LowestRead;
    var fileLineInfo;
    rest, fileLineInfo := ExtractToken(heap, str, "\n");
    ghost var line := Token(str, "\n");
    outcome, r := FileUnset, info;
    HoldsText(fileLineInfo, line);
    var size := |Text(fileLineInfo)|;
    if size > 0 {
      var inside, lin, col := ScanFileLineInfo(fileLineInfo, line);
      if !inside {
        return OutOfLine, rest, r;
      }
      ghost var file := SplitLine(line).0;
      HoldsText(fileLineInfo, file);
      var _, copy := ExtractToken(heap, Text(fileLineInfo), "");
      assert Token(file, "") == file;
      outcome, r := Parsed, info.(lin := lin, col := col, file := copy);
    }
    heap.Free(fileLineInfo);
  }

  /**
   Frees a name that reads "??", leaving null. The test `what` names the block's text.
   */
  method NullIfUnknown(heap: Heap, p: array<char>, ghost what: string) returns (r: array?<char>)
    requires Holds(p, what) && p in heap.live
    modifies heap
    ensures what == "??" ==> r == null && heap.live == old(heap.live) - {p}
    ensures what != "??" ==> r == p && heap.live == old(heap.live)
  {
    HoldsText(p, what);
    r := p;
    if Text(p) == "??" {
      heap.Free(p);
      r := null;
    }
  }

  /** Cuts `:?` off in place when no line was found and the text is longer than three. */
  method CutUnknownLine(file: array<char>, lin: nat, ghost text: string)
    requires Holds(file, text)
    modifies file
    ensures Holds(file, DropUnknownLine(text, lin))
  {
    HoldsText(file, text);
    if lin == 0 {
      var size := |Text(file)|;
      assert forall i :: 0 <= i < |text| ==> file[i] == text[i];
      if size > 3 && file[size - 2] == ':' && file[size - 1] == '?' {
        assert text[size - 2..] == ":?";
        file[size - 2] := NUL;
        assert file[..size - 2] == text[..size - 2];
      } else if size > 3 {
        assert text[size - 2..][0] == text[size - 2] && text[size - 2..][1] == text[size - 1];
      }
    }
  }

  /** The body of the frame loop once the function name is known to be nonempty. */
  method ParseFrame(heap: Heap, functionName: array<char>, str: string, ghost func: string)
    returns (outcome: ParseOutcome, rest: string, frame: FrameDat, ghost mine: set<array<char>>)
    requires Holds(functionName, func) && functionName in heap.live
    requires Without(str, NUL)
    modifies heap
    ensures outcome == LineOutcome(Token(str, "\n"))
    ensures outcome == Parsed ==>
              && rest == Rest(str, "\n")
              && mine == BlocksOf(frame) && (frame.func != null ==> frame.func != frame.file)
              && View(frame) == FrameOf(func, Token(str, "\n"))
              && fresh(mine - {functionName}) && (mine - {functionName}) !! old(heap.live)
              && heap.live == old(heap.live) - {functionName} + mine
  {
    hide Token, Rest, SplitLine, Text, LineOutcome;
    mine := {};
    outcome, rest, frame := ParseFileLineInfo(heap, FrameDat(functionName, null, 0, 0), str);
    if outcome != Parsed {
      return;
    }
    ghost var file := SplitLine(Token(str, "\n")).0;
    var f := NullIfUnknown(heap, functionName, func);
    CutUnknownLine(frame.file, frame.lin, file);
    ghost var cut := DropUnknownLine(file, frame.lin);
    var g := NullIfUnknown(heap, frame.file, cut);
    if f != null { HoldsText(f, func); }
    if g != null { HoldsText(g, cut); }
    frame := frame.(func := f, file := g);
    mine := BlocksOf(frame);
  }

  /**
   One round of the frame loop: an empty line means there are no more frames, anything else is the
   name of one more frame.
   */
  method NextFrame(heap: Heap, str: string)
    returns (outcome: ParseOutcome, more: bool, rest: string, frame: FrameDat, ghost mine: set<array<char>>)
    requires Without(str, NUL)
    modifies heap
    ensures more <==> Token(str, "\n") != []
    ensures outcome == if more then LineOutcome(Token(Rest(str, "\n"), "\n")) else Parsed
    ensures outcome == Parsed ==>
              && mine == BlocksOf(frame) && (frame.func != null ==> frame.func != frame.file)
              && fresh(mine) && mine !! old(heap.live) && heap.live == old(heap.live) + mine
    ensures outcome == Parsed && more ==>
              && rest == Rest(Rest(str, "\n"), "\n")
              && View(frame) == FrameOf(Token(str, "\n"), Token(Rest(str, "\n"), "\n"))
    ensures !more ==> mine == {}
  {
    hide FrameOf, LineOutcome;
    outcome := Parsed;
    var functionName;
    rest, functionName := ExtractToken(heap, str, "\n");
    more := functionName[0] != NUL;
    frame, mine := FrameDat(null, null, 0, 0), {};
    if !more {
      heap.Free(functionName);
    } else {
      outcome, rest, frame, mine := ParseFrame(heap, functionName, rest, Token(str, "\n"));
    }
  }

  lemma ParseStep(s: string)
    requires Without(s, NUL) && Token(s, "\n") != []
    ensures var t := Rest(s, "\n");
            var outcome := LineOutcome(Token(t, "\n"));
            && ReplyOutcome(s) == (if outcome.Parsed? then ReplyOutcome(Rest(t, "\n")) else outcome)
            && Without(Rest(t, "\n"), NUL)
            && ParseFrames(s) == [FrameOf(Token(s, "\n"), Token(t, "\n"))] + ParseFrames(Rest(t, "\n"))
            && |Rest(t, "\n")| < |s|
  {
  }

  /** The frames own exactly these blocks, each once, and show these values. */
  ghost predicate Owns(fs: seq<FrameDat>, owned: set<array<char>>, seen: seq<Frame>)
    reads owned
  {
    Blocks(fs) == owned && Distinct(fs) && Views(fs) == seen
  }

  lemma OwnsNone()
    ensures Owns([], {}, [])
  {
  }

  lemma OwnsSnoc(fs: seq<FrameDat>, owned: set<array<char>>, seen: seq<Frame>, f: FrameDat,
      mine: set<array<char>>, v: Frame)
    requires Owns(fs, owned, seen)
    requires mine == BlocksOf(f) && owned !! mine && (f.func != null ==> f.func != f.file) && View(f) == v
    ensures Owns(fs + [f], owned + mine, seen + [v])
  {
    ViewsSnoc(fs, f);
    BlocksSnoc(fs, f);
  }

  lemma Shift<T>(a: seq<T>, b: seq<T>)
    requires b != []
    ensures a + b == a + [b[0]] + b[1..]
  {
  }

  lemma Regroup<T>(a: seq<T>, b: seq<T>, x: T)
    ensures a + b + [x] == a + (b + [x])
  {
  }

  lemma ParseEnd(s: string)
    requires Token(s, "\n") == []
    ensures ReplyOutcome(s) == Parsed && ParseFrames(s) == []
  {
  }

  /**
   Appends the frames of an address reply. Each block allocated on the way is freed again or owned
   by exactly one field of one appended frame. A location line that is empty or a bare group makes
   the source read outside the line or leave a file unset; the outcome says so, and then nothing else is promised.
   */
  method ParseSymbolizeAddrOutput(heap: Heap, text: string, res: AddrInfo)
    returns (outcome: ParseOutcome, ghost added: seq<FrameDat>, ghost owned: set<array<char>>)
    requires Without(text, NUL)
    modifies heap, res`frames
    ensures outcome == ReplyOutcome(text)
    ensures outcome == Parsed ==>
              && res.frames == old(res.frames) + added
              && fresh(owned) && owned !! old(heap.live) && heap.live == old(heap.live) + owned
              && Owns(added, owned, ParseFrames(text))
  {
    hide FrameOf, Token, Rest, Owns, ReplyOutcome, LineOutcome;
    OwnsNone();
    var str := text;
    ghost var seen: seq<Frame>, left := [], ParseFrames(text);
    outcome, added, owned := Parsed, [], {};
    assert seen + left == left && res.frames + added == res.frames;
    while true
      invariant Without(str, NUL) && ReplyOutcome(text) == ReplyOutcome(str)
      invariant left == ParseFrames(str) && seen + left == ParseFrames(text)
      invariant res.frames == old(res.frames) + added
      invariant Owns(added, owned, seen)
      invariant fresh(owned) && owned !! old(heap.live) && heap.live == old(heap.live) + owned
      decreases |str|
    {
      var more, rest, frame; ghost var mine;
      outcome, more, rest, frame, mine := NextFrame(heap, str);
      if !more {
        ParseEnd(str);
        assert seen + [] == seen;
        break;
      }
      ParseStep(str);
      if outcome != Parsed {
        return;
      }
      res.frames := res.frames + [frame];
      OwnsSnoc(added, owned, seen, frame, mine, left[0]);
      Regroup(old(res.frames), added, frame);
      Shift(seen, left);
      added, owned, seen, left, str := added + [frame], owned + mine, seen + [left[0]], left[1..], rest;
    }
  }

  /* ---------- data replies ---------- */

  class DataInfo {
    var file: array?<char>
    var line: nat
    var name: array?<char>
    var start: nat
    var size: nat

    constructor ()
      ensures file == null && name == null && line == start == size == 0
    {
      file, name, line, start, size := null, null, 0, 0, 0;
    }
  }

  /** The blocks a data result owns. */
  ghost function DataBlocks(info: DataInfo): set<array<char>>
    reads info`name, info`file
  {
    (if info.file == null then {} else {info.file}) + (if info.name == null then {} else {info.name})
  }

  /**
   Fills in a data result. The two new blocks replace the previous pointers without freeing them:
   whatever info owned before stays allocated.
   */
  method ParseSymbolizeDataOutput(heap: Heap, text: string, info: DataInfo)
    requires Without(text, NUL)
    modifies heap, info`file, info`line, info`name, info`start, info`size
    ensures var d := ParseData(text);
            && info.name != null && Holds(info.name, d.name) && info.file != null && Holds(info.file, d.file)
            && info.start == d.start && info.size == d.size && info.line == d.line
    ensures info.name != info.file && fresh(info.name) && fresh(info.file) && DataBlocks(info) !! old(heap.live)
    ensures heap.live == old(heap.live) + DataBlocks(info)
  {
    hide Token, Rest, Uptr;
    var str, name := ExtractToken(heap, text, "\n");
    info.name := name;
    var start;
    str, start := ExtractUptr(heap, str, " ");
    info.start := start;
    var size;
    str, size := ExtractUptr(heap, str, "\n");
    info.size := size;
    var file;
    str, file := ExtractToken(heap, str, ":");
    info.file := file;
    var line;
    str, line := ExtractUptr(heap, str, "\n");
    info.line := line;
  }
}
