/**
 The replies the two symbolizers print, and proofs that reading, cutting and parsing undo the
 printing. Conditions under which a form is not undone are exact.
 */
module Replies {
  import opened Bytes
  import opened Framing
  import opened Grammar

  /** file:line, file:line:column, or file:? when addr2line knows no line. */
  datatype Position = Line(lin: nat) | LineCol(lin: nat, col: nat) | UnknownLine

  datatype Entry = Entry(func: string, file: string, at: Position)

  function PrintLocation(file: string, at: Position): string {
    match at
    case Line(n) => file + (":" + Numeral(n, 10))
    case LineCol(n, c) => file + (":" + Numeral(n, 10)) + (":" + Numeral(c, 10))
    case UnknownLine => file + ":?"
  }

  function Lines(es: seq<Entry>): seq<string> {
    if es == [] then [] else [es[0].func, PrintLocation(es[0].file, es[0].at)] + Lines(es[1..])
  }

  function Print(es: seq<Entry>): string {
    Join(Lines(es))
  }

  /** The frame a printed entry stands for. */
  function Meaning(e: Entry): Frame {
    Frame(if e.func == "??" then None else Some(e.func), if e.file == "??" then None else Some(e.file),
          match e.at case Line(n) => n case LineCol(n, _) => n case UnknownLine => 0,
          match e.at case LineCol(_, c) => c case _ => 0)
  }

  function Meanings(es: seq<Entry>): seq<Frame> {
    if es == [] then [] else [Meaning(es[0])] + Meanings(es[1..])
  }

  predicate IsText(s: string) {
    s != [] && Without(s, '\n') && Without(s, NUL)
  }

  predicate FitsLongLong(at: Position) {
    match at
    case Line(n) => n <= 0x7fff_ffff_ffff_ffff
    case LineCol(n, c) => n <= 0x7fff_ffff_ffff_ffff && c <= 0x7fff_ffff_ffff_ffff
    case UnknownLine => true
  }

  predicate IsEntry(e: Entry) {
    IsText(e.func) && IsText(e.file) && FitsLongLong(e.at)
  }

  /* ---------- one location line ---------- */

  /** Which location lines the parser reads back as printed. */
  ghost predicate Recoverable(file: string, at: Position) {
    match at
    case Line(n) => !EndsInGroup(file) && !(n == 0 && |file| > 3 && EndsWith(file, ":?"))
    case LineCol(n, _) => !(n == 0 && |file| > 3 && EndsWith(file, ":?"))
    case UnknownLine => |file| != 1
  }

  function LineGroup(n: nat): (g: string)
    ensures IsGroup(g)
  {
    var g := ":" + Numeral(n, 10);
    assert g[1..] == Numeral(n, 10);
    g
  }

  lemma LineGroupValue(n: nat)
    requires n <= 0x7fff_ffff_ffff_ffff
    ensures Atoll(LineGroup(n)[1..]) == n
  {
    assert LineGroup(n)[1..] == Numeral(n, 10);
    AtollNumeral(n);
  }

  lemma {:induction false} SplitPrinted(file: string, at: Position)
    ensures at.LineCol? ==> SplitLine(PrintLocation(file, at)) == (file, [LineGroup(at.lin), LineGroup(at.col)])
    ensures at.Line? && !EndsInGroup(file) ==> SplitLine(PrintLocation(file, at)) == (file, [LineGroup(at.lin)])
    ensures at.Line? && EndsInGroup(file) ==> |SplitLine(PrintLocation(file, at)).0| < |file|
    ensures at.UnknownLine? ==> SplitLine(PrintLocation(file, at)) == (file + ":?", [])
  {
    var line := PrintLocation(file, at);
    match at {
      case LineCol(n, c) =>
        FlattenFew(LineGroup(n), LineGroup(c));
        assert line == file + (LineGroup(n) + LineGroup(c));
        SplitUnique(line, file, [LineGroup(n), LineGroup(c)]);
      case Line(n) =>
        var g := LineGroup(n);
        if EndsInGroup(file) {
          var k := GroupStart(file);
          FlattenFew(file[k..], g);
          assert line == file[..k] + (file[k..] + g);
          SplitUnique(line, file[..k], [file[k..], g]);
        } else {
          FlattenFew(g, []);
          SplitUnique(line, file, [g]);
        }
      case UnknownLine =>
        assert !IsDigit(line[|line| - 1]);
    }
  }

  /** The frame of a line split into a file and groups with the values n and c. */
  lemma FrameOfSplit(func: string, line: string, file: string, groups: seq<string>, n: nat, c: nat)
    requires forall i :: 0 <= i < |groups| ==> IsGroup(groups[i])
    requires SplitLine(line) == (file, groups) && GroupValue(groups, 0) == n && GroupValue(groups, 1) == c
    ensures FrameOf(func, line) == Frame(Known(func), Known(DropUnknownLine(file, n)), n, c)
  {
  }

  lemma DropChanges(file: string, lin: nat)
    ensures Known(DropUnknownLine(file, lin)) == Known(file) <==> !(lin == 0 && |file| > 3 && EndsWith(file, ":?"))
  {
  }

  /** One printed frame is read back exactly when its location is recoverable. */
  lemma {:induction false} FrameRoundTrip(e: Entry)
    requires IsEntry(e)
    ensures FrameOf(e.func, PrintLocation(e.file, e.at)) == Meaning(e) <==> Recoverable(e.file, e.at)
  {
    match e.at {
      case LineCol(n, c) => LineColRoundTrip(e, n, c);
      case Line(n) => LineRoundTrip(e, n);
      case UnknownLine =>
        var line := PrintLocation(e.file, e.at);
        SplitPrinted(e.file, e.at);
        FrameOfSplit(e.func, line, line, [], 0, 0);
        assert line[|line| - 2..] == ":?" && line[..|line| - 2] == e.file;
    }
  }

  lemma {:induction false} LineColRoundTrip(e: Entry, n: nat, c: nat)
    requires IsEntry(e) && e.at == LineCol(n, c)
    ensures FrameOf(e.func, PrintLocation(e.file, e.at)) == Meaning(e) <==> Recoverable(e.file, e.at)
  {
    hide SplitLine, Atoll, Numeral, EndsInGroup;
    SplitPrinted(e.file, e.at);
    LineGroupValue(n);
    LineGroupValue(c);
    FrameOfSplit(e.func, PrintLocation(e.file, e.at), e.file, [LineGroup(n), LineGroup(c)], n, c);
    DropChanges(e.file, n);
  }

  lemma {:induction false} LineRoundTrip(e: Entry, n: nat)
    requires IsEntry(e) && e.at == Line(n)
    ensures FrameOf(e.func, PrintLocation(e.file, e.at)) == Meaning(e) <==> Recoverable(e.file, e.at)
  {
    hide SplitLine, Atoll, Numeral, EndsInGroup, GroupValue, EndsWith;
    var line := PrintLocation(e.file, e.at);
    SplitPrinted(e.file, e.at);
    if EndsInGroup(e.file) {
      ShorterFile(e.func, line, e.file);
    } else {
      LineGroupValue(n);
      LineGroupOnly(n);
      FrameOfSplit(e.func, line, e.file, [LineGroup(n)], n, 0);
      DropChanges(e.file, n);
    }
  }

  lemma LineGroupOnly(n: nat)
    requires n <= 0x7fff_ffff_ffff_ffff
    ensures GroupValue([LineGroup(n)], 0) == n && GroupValue([LineGroup(n)], 1) == 0
  {
    LineGroupValue(n);
  }

  /** A name that is cut does not come back. */
  lemma ShorterFile(func: string, line: string, file: string)
    requires |SplitLine(line).0| < |file|
    ensures FrameOf(func, line).file != if file == "??" then None else Some(file)
  {
    hide SplitLine, GroupValue;
  }

  /** A form of addr2line that comes back wrong: an unknown line in a file with a one-letter name. */
  lemma OneLetterFileKeepsMark()
    ensures FrameOf("f", PrintLocation("a", UnknownLine)) == Frame(Some("f"), Some("a:?"), 0, 0)
    ensures Meaning(Entry("f", "a", UnknownLine)) == Frame(Some("f"), Some("a"), 0, 0)
  {
    SplitPrinted("a", UnknownLine);
    assert "a" + ":?" == "a:?";
    FrameOfSplit("f", "a:?", "a:?", [], 0, 0);
  }

  /* ---------- whole address replies ---------- */

  predicate AreEntries(es: seq<Entry>) {
    forall i :: 0 <= i < |es| ==> IsEntry(es[i])
  }

  ghost predicate WellFormed(es: seq<Entry>) {
    forall i :: 0 <= i < |es| ==> Recoverable(es[i].file, es[i].at)
  }

  lemma LocationIsText(e: Entry)
    requires IsEntry(e)
    ensures var line := PrintLocation(e.file, e.at); IsText(line) && !IsGroup(line) && !EndsWith(line, "??")
  {
    var line := PrintLocation(e.file, e.at);
    assert line[|e.file|] == ':' && line[1..][|e.file| - 1] == ':';
    if e.at.UnknownLine? {
      assert line[|line| - 2..][0] == ':';
    } else {
      var tail := if e.at.Line? then e.at.lin else e.at.col;
      var num := Numeral(tail, 10);
      assert line[|line| - 1] == num[|num| - 1];
      assert |line| >= 2 && line[|line| - 2..][1] == line[|line| - 1];
    }
  }

  lemma JoinCons(l: string, ls: seq<string>)
    ensures Join([l] + ls) == l + "\n" + Join(ls)
  {
  }

  lemma PrintCons(es: seq<Entry>)
    requires es != []
    ensures Print(es) == es[0].func + "\n" + (PrintLocation(es[0].file, es[0].at) + "\n" + Print(es[1..]))
  {
    var l := PrintLocation(es[0].file, es[0].at);
    assert Lines(es) == [es[0].func] + ([l] + Lines(es[1..]));
    JoinCons(es[0].func, [l] + Lines(es[1..]));
    JoinCons(l, Lines(es[1..]));
  }

  lemma {:induction false} ParseEntry(func: string, line: string, rest: string)
    requires IsText(func) && IsText(line) && !IsGroup(line)
    ensures var s := func + "\n" + (line + "\n" + rest);
            (Readable(s) <==> Readable(rest)) && ParseFrames(s) == [FrameOf(func, line)] + ParseFrames(rest)
  {
    TokenOf(func, '\n', line + "\n" + rest, "\n");
    TokenOf(line, '\n', rest, "\n");
  }

  lemma ParseTail(tail: string)
    requires Token(tail, "\n") == []
    ensures Readable(Print([]) + tail) && ParseFrames(Print([]) + tail) == []
  {
    assert Print([]) + tail == tail;
  }

  /**
   Parsing undoes printing exactly when every location is recoverable. `tail` is empty for
   addr2line and an empty line for llvm-symbolizer.
   */
  lemma {:induction false} ParsePrinted(es: seq<Entry>, tail: string)
    requires AreEntries(es) && Token(tail, "\n") == []
    ensures Readable(Print(es) + tail)
    ensures ParseFrames(Print(es) + tail) == Meanings(es) <==> WellFormed(es)
    ensures |ParseFrames(Print(es) + tail)| == |es|
  {
    hide FrameOf, PrintLocation, Recoverable, Token, Rest, Readable, ParseFrames, Print, IsText;
    if es == [] {
      ParseTail(tail);
    } else {
      var e := es[0];
      var line := PrintLocation(e.file, e.at);
      var rest := Print(es[1..]) + tail;
      PrintCons(es);
      assert Print(es) + tail == e.func + "\n" + (line + "\n" + rest);
      LocationIsText(e);
      ParseEntry(e.func, line, rest);
      FrameRoundTrip(e);
      ParsePrinted(es[1..], tail);
      ConsEqual(FrameOf(e.func, line), ParseFrames(rest), Meaning(e), Meanings(es[1..]));
      assert WellFormed(es) <==> Recoverable(e.file, e.at) && WellFormed(es[1..]);
    }
  }

  lemma ConsEqual<T>(a: T, x: seq<T>, b: T, y: seq<T>)
    ensures [a] + x == [b] + y <==> a == b && x == y
  {
    if [a] + x == [b] + y {
      assert ([a] + x)[0] == ([b] + y)[0] && ([a] + x)[1..] == ([b] + y)[1..];
    }
  }

  /* ---------- llvm-symbolizer, from the pipe to the frames ---------- */

  lemma {:induction false} LinesAreText(es: seq<Entry>)
    requires AreEntries(es)
    ensures |Lines(es)| == 2 * |es|
    ensures forall i :: 0 <= i < |Lines(es)| ==> IsText(Lines(es)[i])
  {
    if es != [] {
      LocationIsText(es[0]);
      LinesAreText(es[1..]);
    }
  }

  /**
   An llvm reply read in any pieces reaches the parser whole, and yields exactly the printed frames if and only
   if each location is recoverable.
   */
  lemma LlvmEndToEnd(es: seq<Entry>, chunks: seq<string>)
    requires es != [] && AreEntries(es)
    requires IsSplitOf(chunks, Print(es) + "\n")
    ensures var text := ReadLoop(Llvm, [], chunks);
            text == Print(es) + "\n" && Readable(text) && (ParseFrames(text) == Meanings(es) <==> WellFormed(es))
  {
    LinesAreText(es);
    LlvmFraming(Lines(es));
    ChunkingIrrelevant(Llvm, Print(es) + "\n", chunks);
    assert Token("\n", "\n") == [];
    ParsePrinted(es, "\n");
  }

  /* ---------- addr2line, from the pipe to the frames ---------- */

  /** An entry whose text closes with the terminator. */
  predicate LooksFinal(e: Entry) {
    EndsWith(e.func, "??") && PrintLocation(e.file, e.at) == "??:0"
  }

  /** Some entry looks final, other than a leading unknown one. */
  ghost predicate Clash(es: seq<Entry>) {
    exists k :: 0 <= k < |es| && LooksFinal(es[k]) && !(k == 0 && es[k].func == "??")
  }

  lemma TerminatorChars(s: string, i: nat)
    requires OccursAt(s, TERMINATOR, i)
    ensures i + 8 <= |s|
    ensures s[i] == '?' && s[i + 1] == '?' && s[i + 2] == '\n'
    ensures s[i + 3] == '?' && s[i + 4] == '?' && s[i + 5] == ':' && s[i + 6] == '0' && s[i + 7] == '\n'
  {
    assert |TERMINATOR| == 8;
    assert forall k :: 0 <= k < 8 ==> s[i..i + 8][k] == s[i + k] == TERMINATOR[k];
  }

  lemma TerminatorInEntry(func: string, line: string, rest: string, i: nat)
    requires Without(func, '\n') && Without(line, '\n') && !EndsWith(line, "??")
    requires i < |func| + |line| + 2
    requires OccursAt(func + "\n" + (line + "\n" + rest), TERMINATOR, i)
    ensures i + 2 == |func| && EndsWith(func, "??") && line == "??:0"
  {
    var s := func + "\n" + (line + "\n" + rest);
    TerminatorChars(s, i);
    NewlinesOfEntry(func, line, rest, i);
    NewlinesOfEntry(func, line, rest, i + 1);
    NewlinesOfEntry(func, line, rest, i + 2);
    if i + 2 != |func| + 1 + |line| {
      assert func[|func| - 2] == s[i] && func[|func| - 1] == s[i + 1];
      assert func[|func| - 2..] == "??";
      NewlinesOfEntry(func, line, rest, i + 7);
      NewlinesOfEntry(func, line, rest, |func| + 1 + |line|);
    }
  }

  lemma NewlinesOfEntry(func: string, line: string, rest: string, j: nat)
    requires Without(func, '\n') && Without(line, '\n')
    requires j < |func| + |line| + 2
    ensures (func + "\n" + (line + "\n" + rest))[j] == '\n' <==> j == |func| || j == |func| + 1 + |line|
    ensures j < |func| ==> (func + "\n" + (line + "\n" + rest))[j] == func[j]
    ensures |func| < j <= |func| + |line| ==> (func + "\n" + (line + "\n" + rest))[j] == line[j - |func| - 1]
  {
  }

  lemma TerminatorAtEntry(func: string, rest: string)
    requires EndsWith(func, "??")
    ensures OccursAt(func + "\n" + ("??:0" + "\n" + rest), TERMINATOR, |func| - 2)
  {
  }

  lemma OccursShift(head: string, s: string, i: nat)
    requires i >= |head|
    ensures OccursAt(head + s, TERMINATOR, i) <==> OccursAt(s, TERMINATOR, i - |head|)
  {
  }

  /** Where an entry starts the terminator: nowhere, or two characters before the end of its function name. */
  lemma TerminatorOfEntry(e: Entry, rest: string, i: nat)
    requires IsEntry(e)
    ensures var line := PrintLocation(e.file, e.at);
            var s := e.func + "\n" + (line + "\n" + rest);
            && (i < |e.func| + |line| + 2 ==> (OccursAt(s, TERMINATOR, i) <==> i + 2 == |e.func| && LooksFinal(e)))
            && (i >= |e.func| + |line| + 2 ==>
                  (OccursAt(s, TERMINATOR, i) <==> OccursAt(rest, TERMINATOR, i - |e.func| - |line| - 2)))
  {
    hide PrintLocation, OccursAt;
    var line := PrintLocation(e.file, e.at);
    var s := e.func + "\n" + (line + "\n" + rest);
    LocationIsText(e);
    if i >= |e.func| + |line| + 2 {
      var head := e.func + "\n" + line + "\n";
      assert s == head + rest;
      OccursShift(head, rest, i);
    } else if OccursAt(s, TERMINATOR, i) {
      TerminatorInEntry(e.func, line, rest, i);
    } else if LooksFinal(e) {
      TerminatorAtEntry(e.func, rest);
    }
  }

  ghost predicate Found(s: string, from: nat) {
    exists i :: from <= i && OccursAt(s, TERMINATOR, i)
  }

  ghost predicate SomeFinal(es: seq<Entry>, from: nat) {
    exists k :: 0 <= k < |es| && LooksFinal(es[k]) && !(from == 1 && k == 0 && es[k].func == "??")
  }

  lemma FoundInEntry(e: Entry, rest: string, from: nat)
    requires IsEntry(e) && from <= 1
    ensures Found(e.func + "\n" + (PrintLocation(e.file, e.at) + "\n" + rest), from)
       <==> (LooksFinal(e) && !(from == 1 && e.func == "??")) || Found(rest, 0)
  {
    hide PrintLocation, OccursAt, LooksFinal;
    var line := PrintLocation(e.file, e.at);
    var s := e.func + "\n" + (line + "\n" + rest);
    if i: nat :| from <= i && OccursAt(s, TERMINATOR, i) {
      TerminatorOfEntry(e, rest, i);
    }
    if LooksFinal(e) {
      FinalName(e);
      TerminatorOfEntry(e, rest, |e.func| - 2);
    }
    if j: nat :| OccursAt(rest, TERMINATOR, j) {
      TerminatorOfEntry(e, rest, |e.func| + |line| + 2 + j);
      assert from <= |e.func| + |line| + 2 + j;
    }
  }

  lemma FinalName(e: Entry)
    requires LooksFinal(e)
    ensures |e.func| >= 2 && (|e.func| == 2 <==> e.func == "??")
  {
    assert |e.func| == 2 ==> e.func == e.func[|e.func| - 2..];
  }

  lemma FinalCons(es: seq<Entry>, from: nat)
    requires es != []
    ensures SomeFinal(es, from)
       <==> (LooksFinal(es[0]) && !(from == 1 && es[0].func == "??")) || SomeFinal(es[1..], 0)
  {
    hide LooksFinal;
    assert forall k :: 1 <= k < |es| ==> es[k] == es[1..][k - 1];
    if k :| 0 <= k < |es[1..]| && LooksFinal(es[1..][k]) {
      assert LooksFinal(es[k + 1]);
    }
  }

  /** The terminator begins in a print, at `from` or later, exactly when some entry that looks final puts it there. */
  lemma {:induction false} TerminatorsOfPrint(es: seq<Entry>, from: nat)
    requires AreEntries(es) && from <= 1
    ensures Found(Print(es), from) <==> SomeFinal(es, from)
  {
    hide PrintLocation, LooksFinal, Found, SomeFinal, Print;
    if es == [] {
      NothingFound(from);
    } else {
      PrintCons(es);
      FoundInEntry(es[0], Print(es[1..]), from);
      FinalCons(es, from);
      TerminatorsOfPrint(es[1..], 0);
    }
  }

  lemma NothingFound(from: nat)
    ensures !Found(Print([]), from) && !SomeFinal([], from)
  {
  }

  lemma InteriorTerminator(es: seq<Entry>)
    requires AreEntries(es)
    ensures OccursInside(Print(es)) <==> Clash(es)
  {
    hide Print, LooksFinal, OccursAt;
    TerminatorsOfPrint(es, 1);
    assert Found(Print(es), 1) <==> OccursInside(Print(es));
    assert SomeFinal(es, 1) <==> Clash(es);
  }

  lemma PrintIsClean(es: seq<Entry>)
    requires es != [] && AreEntries(es)
    ensures Print(es) != []
  {
  }

  /**
   The reply is cut where addr2line's real answer ends exactly when no entry but a leading unknown one looks
   final.
   */
  lemma Addr2LineCut(es: seq<Entry>)
    requires es != [] && AreEntries(es)
    ensures Trim(Print(es) + TERMINATOR) == Print(es) <==> !Clash(es)
    ensures StopsOnlyAtEnd(Addr2Line, Print(es) + TERMINATOR) <==> !Clash(es)
  {
    PrintIsClean(es);
    InteriorTerminator(es);
    Addr2LineFraming(Print(es));
  }

  lemma TrimAtFirst(a: string, rest: string)
    requires a != [] && !OccursInside(a)
    ensures Trim(a + TERMINATOR + rest) == a
  {
    var s := a + TERMINATOR + rest;
    forall i: nat | 1 <= i < |a| ensures !OccursAt(s, TERMINATOR, i) {
      OccursInsideOnly(a, i);
      assert s[i..i + |TERMINATOR|] == (a + TERMINATOR)[i..i + |TERMINATOR|];
    }
    assert OccursAt(s, TERMINATOR, |a|);
    assert s[..|a|] == a;
  }

  lemma PrintLine(func: string, file: string, n: nat, rest: seq<Entry>)
    requires n < 10
    ensures Print([Entry(func, file, Line(n))] + rest)
         == func + "\n" + (file + (":" + [DigitChar(n)]) + "\n" + Print(rest))
  {
    hide Print;
    PrintCons([Entry(func, file, Line(n))] + rest);
  }

  /** A reply that is cut: an unknown frame after a known one is taken for the terminator, and lost. */
  lemma {:induction false} UnknownFrameIsLost()
    ensures var es := [Entry("f", "a", Line(1)), Entry("??", "??", Line(0))];
            && AreEntries(es) && WellFormed(es) && Clash(es)
            && Trim(Print(es) + TERMINATOR) == Print(es[..1])
  {
    hide Print, Trim, EndsInGroup;
    var known, unknown := Entry("f", "a", Line(1)), Entry("??", "??", Line(0));
    var es := [known, unknown];
    assert LooksFinal(es[1]);
    NoEntries();
    PrintLine("f", "a", 1, [unknown]);
    PrintLine("f", "a", 1, []);
    PrintLine("??", "??", 0, []);
    assert es == [known] + [unknown] && es[..1] == [known] + [] && [unknown] == [unknown] + [];
    var kept := "f\na:1\n";
    assert Print(es[..1]) == kept && Print(es) == kept + TERMINATOR;
    TrimAtFirst(kept, TERMINATOR);
    assert !EndsInGroup("a") && !EndsInGroup("??") by {
      assert GroupStart("a") < 0 && GroupStart("??") < 0;
    }
  }

  lemma NoEntries()
    ensures Print([]) == ""
  {
  }

  /**
   An addr2line reply without a clash, read in any pieces, is cut to its answer, and yields exactly the printed
   frames if and only if each location is recoverable.
   */
  lemma Addr2LineEndToEnd(es: seq<Entry>, chunks: seq<string>)
    requires es != [] && AreEntries(es) && !Clash(es)
    requires IsSplitOf(chunks, Print(es) + TERMINATOR)
    ensures var text := Trim(ReadLoop(Addr2Line, [], chunks));
            text == Print(es) && Readable(text) && (ParseFrames(text) == Meanings(es) <==> WellFormed(es))
  {
    Addr2LineCut(es);
    ChunkingIrrelevant(Addr2Line, Print(es) + TERMINATOR, chunks);
    assert Token("", "\n") == [] && Print(es) + "" == Print(es);
    ParsePrinted(es, "");
  }

  lemma {:induction false} JoinWithoutNul(ls: seq<string>)
    requires forall i :: 0 <= i < |ls| ==> IsText(ls[i])
    ensures Without(Join(ls), NUL)
  {
    if ls != [] { JoinWithoutNul(ls[1..]); }
  }

  /** Printed replies are what SymbolizerProcess needs to stay in step with its child. */
  lemma PrintedRepliesWellFormed(es: seq<Entry>)
    requires es != [] && AreEntries(es)
    ensures WellFormedReply(Llvm, Print(es) + "\n")
    ensures !Clash(es) ==> WellFormedReply(Addr2Line, Print(es) + TERMINATOR)
  {
    LinesAreText(es);
    JoinWithoutNul(Lines(es));
    LlvmFraming(Lines(es));
    PrintIsClean(es);
    InteriorTerminator(es);
    assert Without(TERMINATOR, NUL);
  }

  /* ---------- data replies ---------- */

  function DataLines(d: DataRecord, withFile: bool): seq<string> {
    [d.name, Numeral(d.start, 10) + " " + Numeral(d.size, 10)]
    + if withFile then [d.file + ":" + Numeral(d.line, 10)] else []
  }

  predicate FitsData(d: DataRecord) {
    && Without(d.name, '\n')
    && d.start <= 0x7fff_ffff_ffff_ffff && d.size <= 0x7fff_ffff_ffff_ffff && d.line <= 0x7fff_ffff_ffff_ffff
  }

  lemma UptrNumeral(n: nat)
    requires n <= 0x7fff_ffff_ffff_ffff
    ensures Uptr(Numeral(n, 10)) == n && Without(Numeral(n, 10), ' ') && Without(Numeral(n, 10), '\n')
  {
    AtollNumeral(n);
  }

  function DataHead(d: DataRecord, rest: string): string {
    d.name + "\n" + (Numeral(d.start, 10) + " " + (Numeral(d.size, 10) + "\n" + rest))
  }

  /** The first two lines, whatever follows them. */
  lemma {:induction false} ParseDataHead(d: DataRecord, rest: string)
    requires FitsData(d)
    ensures ParseData(DataHead(d, rest))
         == DataRecord(d.name, d.start, d.size, Token(rest, ":"), Uptr(Token(Rest(rest, ":"), "\n")))
  {
    var size := Numeral(d.size, 10) + "\n" + rest;
    UptrNumeral(d.start);
    UptrNumeral(d.size);
    TokenOf(d.name, '\n', Numeral(d.start, 10) + " " + size, "\n");
    TokenOf(Numeral(d.start, 10), ' ', size, " ");
    TokenOf(Numeral(d.size, 10), '\n', rest, "\n");
  }

  lemma JoinData(d: DataRecord, third: seq<string>, rest: string)
    requires rest == Join(third) + "\n"
    ensures Join([d.name, Numeral(d.start, 10) + " " + Numeral(d.size, 10)] + third) + "\n" == DataHead(d, rest)
  {
  }

  lemma ThirdLine(file: string, line: nat)
    requires line <= 0x7fff_ffff_ffff_ffff
    ensures var rest := file + ":" + (Numeral(line, 10) + "\n" + "\n");
            if Without(file, ':') then Token(rest, ":") == file && Uptr(Token(Rest(rest, ":"), "\n")) == line
            else |Token(rest, ":")| < |file|
  {
    var num := Numeral(line, 10) + "\n" + "\n";
    var rest := file + ":" + num;
    if Without(file, ':') {
      TokenOf(file, ':', num, ":");
      UptrNumeral(line);
      TokenOf(Numeral(line, 10), '\n', "\n", "\n");
    } else {
      var i :| 0 <= i < |file| && file[i] == ':';
      assert rest[i] == ':';
      assert Span(rest, ":") <= i;
    }
  }

  /** The three-line data reply comes back whole exactly when the file name has no colon. */
  lemma {:induction false} DataRoundTrip(d: DataRecord)
    requires FitsData(d)
    ensures ParseData(Join(DataLines(d, true)) + "\n") == d <==> Without(d.file, ':')
  {
    var third := d.file + ":" + Numeral(d.line, 10);
    var rest := d.file + ":" + (Numeral(d.line, 10) + "\n" + "\n");
    JoinCons(third, []);
    assert [third] == [third] + [];
    JoinData(d, [third], rest);
    ParseDataHead(d, rest);
    ThirdLine(d.file, d.line);
  }

  lemma NoThirdLine()
    ensures Token("\n", ":") == "\n" && Uptr(Token(Rest("\n", ":"), "\n")) == 0
  {
  }

  /** Without the third line the file reads "\n" and the line 0, as the public header documents. */
  lemma {:induction false} DataWithoutFile(d: DataRecord)
    requires FitsData(d)
    ensures ParseData(Join(DataLines(d, false)) + "\n") == d.(file := "\n", line := 0)
  {
    JoinData(d, [], "\n");
    ParseDataHead(d, "\n");
    NoThirdLine();
  }

  /** Either data reply, read in any pieces, reaches the parser whole. */
  lemma DataFraming(d: DataRecord, withFile: bool, chunks: seq<string>)
    requires FitsData(d) && Without(d.file, '\n')
    requires IsSplitOf(chunks, Join(DataLines(d, withFile)) + "\n")
    ensures ReadLoop(Llvm, [], chunks) == Join(DataLines(d, withFile)) + "\n"
  {
    var ls := DataLines(d, withFile);
    LlvmFraming(ls);
    ChunkingIrrelevant(Llvm, Join(ls) + "\n", chunks);
  }
}
