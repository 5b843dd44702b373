/**
 The public interface as an abstract state machine: what init, send, read, free and fini do to
 the frames and the data record a caller can see, and how many strings they leave unreachable.
 The reply of the symbolizer to a send is a parameter of the call.
 */
module Session {
  import opened Bytes
  import opened Grammar

  datatype ToolCode = RunLlvmSymbolizer | RunAddr2Line

  datatype RetCode =
    | YesInitDone | YesSendDone | YesReadDone
    | ErrPathNotExecutable | ErrPathCorrupted | ErrUnsupportedTool
    | ErrSymbolizeFailed | ErrHasNullptr | ErrOutOfBound

  datatype Data = Data(name: Option<string>, file: Option<string>, start: nat, size: nat, line: nat)

  const NO_DATA := Data(None, None, 0, 0, 0)

  datatype Globals = Down | Up(tool: ToolCode, frames: seq<Frame>, data: Data)

  /** The globals and the number of strings allocated while parsing that nothing points to any more. */
  datatype World = World(globals: Globals, leaked: nat)

  datatype Call =
    | Init(path: string, executable: bool)
    | Fini
    | AddrSend(reply: Option<string>)
    | AddrRead(idx: nat)
    | AddrFree
    | DataSend(reply: Option<string>)
    | DataRead
    | DataFree

  datatype Response =
    | Void
    | Done(code: RetCode)
    | Sent(code: RetCode, nFrames: Option<nat>)
    | FrameRead(code: RetCode, frame: Option<Frame>)
    | DataReadBack(code: RetCode, data: Option<Data>)

  /* ---------- init ---------- */

  function NameStart(path: string): (n: nat)
    ensures n <= |path| && forall i :: n <= i < |path| ==> path[i] != '/'
    ensures n > 0 ==> path[n - 1] == '/'
  {
    if path == [] || path[|path| - 1] == '/' then |path| else NameStart(path[..|path| - 1])
  }

  /** The text after the last slash. */
  function StripModuleName(path: string): (name: string)
    ensures Without(name, '/')
  {
    path[NameStart(path)..]
  }

  const LLVM_PREFIX: string := "llvm-symbolizer"

  /** The tool a path selects, or the error it gives. */
  function SelectTool(path: string, executable: bool): (r: (RetCode, Option<ToolCode>))
    ensures r.0 == YesInitDone <==> r.1.Some?
    ensures r.1.Some? ==> executable && path != []
  {
    var name := StripModuleName(path);
    if !executable then (ErrPathNotExecutable, None)
    else if path == [] then (ErrPathCorrupted, None)
    else if LLVM_PREFIX <= name then (YesInitDone, Some(RunLlvmSymbolizer))
    else if name == "addr2line" then (YesInitDone, Some(RunAddr2Line))
    else (ErrUnsupportedTool, None)
  }

  lemma {:induction false} NameStartOf(dir: string, name: string)
    requires Without(name, '/') && (dir == [] || dir[|dir| - 1] == '/')
    ensures NameStart(dir + name) == |dir|
  {
    if name == [] {
      assert dir + name == dir;
    } else {
      assert (dir + name)[..|dir + name| - 1] == dir + name[..|name| - 1];
      NameStartOf(dir, name[..|name| - 1]);
    }
  }

  /** A path that cannot be executed, or is empty, selects nothing, whatever its name. */
  lemma SelectsNothing(path: string)
    ensures SelectTool(path, false) == (ErrPathNotExecutable, None)
    ensures SelectTool("", true) == (ErrPathCorrupted, None)
  {
  }

  /**
   Init goes by the last component of an executable path: any name that begins with llvm-symbolizer, or addr2line
   and nothing else.
   */
  lemma {:induction false} SelectByBaseName(dir: string, name: string)
    requires Without(name, '/') && (dir == [] || dir[|dir| - 1] == '/') && dir + name != []
    ensures var r := SelectTool(dir + name, true);
            && (r.1 == Some(RunLlvmSymbolizer) <==> |name| >= 15 && name[..15] == "llvm-symbolizer")
            && (r.1 == Some(RunAddr2Line) <==> name == "addr2line")
            && r.0 == (if r.1 == None then ErrUnsupportedTool else YesInitDone)
  {
    NameStartOf(dir, name);
    assert (dir + name)[|dir|..] == name;
    assert "addr2line"[0] == 'a' && LLVM_PREFIX[0] == 'l';
  }

  /* ---------- strings held ---------- */

  function Present(s: Option<string>): nat {
    if s.Some? then 1 else 0
  }

  /** Each known name of a frame is one allocated string. */
  function StringCount(frames: seq<Frame>): nat {
    if frames == [] then 0
    else
      var f := frames[|frames| - 1];
      StringCount(frames[..|frames| - 1]) + Present(f.func) + Present(f.file)
  }

  function HeldStrings(g: Globals): nat {
    match g
    case Down => 0
    case Up(_, frames, data) => StringCount(frames) + Present(data.name) + Present(data.file)
  }

  /* ---------- one call ---------- */

  function RecordOf(text: string): (r: Data)
    ensures r.name.Some? && r.file.Some?
  {
    var d := ParseData(text);
    Data(Some(d.name), Some(d.file), d.start, d.size, d.line)
  }

  /** A new session; what the old one held is out of reach. */
  function Fresh(w: World, tool: ToolCode): World {
    World(Up(tool, [], NO_DATA), w.leaked + HeldStrings(w.globals))
  }

  function WithFrames(w: World, frames: seq<Frame>): World {
    match w.globals
    case Down => w
    case Up(tool, _, data) => World(Up(tool, frames, data), w.leaked)
  }

  /** Freeing a data result nulls its strings and leaves its numbers. */
  function WithoutStrings(w: World): World {
    match w.globals
    case Down => w
    case Up(tool, frames, d) => World(Up(tool, frames, Data(None, None, d.start, d.size, d.line)), w.leaked)
  }

  /** A new data record takes the place of the old one, whose strings are out of reach. */
  function WithData(w: World, data: Data): World {
    match w.globals
    case Down => w
    case Up(tool, frames, d) => World(Up(tool, frames, data), w.leaked + Present(d.name) + Present(d.file))
  }

  function AddrSendCode(w: World, reply: Option<string>): RetCode {
    if w.globals.Down? then ErrHasNullptr else if reply == None then ErrSymbolizeFailed else YesSendDone
  }

  /** Only llvm-symbolizer answers data requests. */
  function DataSendCode(w: World, reply: Option<string>): RetCode {
    if w.globals.Down? then ErrHasNullptr
    else if w.globals.tool.RunAddr2Line? || reply == None then ErrSymbolizeFailed
    else YesSendDone
  }

  function FramesOf(g: Globals): seq<Frame> {
    if g.Down? then [] else g.frames
  }

  function Step(w: World, c: Call): (World, Response) {
    match c
    case Init(path, executable) =>
      var (code, tool) := SelectTool(path, executable);
      (if tool == None then w else Fresh(w, tool.value), Done(code))
    case Fini => (World(Down, w.leaked), Void)
    case AddrSend(reply) =>
      var code := AddrSendCode(w, reply);
      if code != YesSendDone then (w, Sent(code, None))
      else
        var frames := FramesOf(w.globals) + ParseFrames(reply.value);
        (WithFrames(w, frames), Sent(code, Some(|frames|)))
    case AddrRead(idx) =>
      (w, if w.globals.Down? then FrameRead(ErrHasNullptr, None)
          else if idx >= |w.globals.frames| then FrameRead(ErrOutOfBound, None)
          else FrameRead(YesReadDone, Some(w.globals.frames[idx])))
    case AddrFree => (WithFrames(w, []), Void)
    case DataSend(reply) =>
      var code := DataSendCode(w, reply);
      (if code == YesSendDone then WithData(w, RecordOf(reply.value)) else w, Done(code))
    case DataRead =>
      (w, if w.globals.Down? then DataReadBack(ErrHasNullptr, None)
          else DataReadBack(YesReadDone, Some(w.globals.data)))
    case DataFree => (WithoutStrings(w), Void)
  }

  /** How a call ends: a reply with a faulty location line takes the parser outside its input. */
  function CallOutcome(w: World, c: Call): ParseOutcome {
    if c.AddrSend? && AddrSendCode(w, c.reply) == YesSendDone then ReplyOutcome(c.reply.value) else Parsed
  }

  const START := World(Down, 0)

  function Exec(calls: seq<Call>): World {
    if calls == [] then START else Step(Exec(calls[..|calls| - 1]), calls[|calls| - 1]).0
  }

  /** How a sequence of calls ends: like the first call that does not end as intended. */
  function Outcome(calls: seq<Call>): ParseOutcome {
    if calls == [] then Parsed
    else
      var init, c := calls[..|calls| - 1], calls[|calls| - 1];
      if Outcome(init).Parsed? then CallOutcome(Exec(init), c) else Outcome(init)
  }

  lemma {:induction false} FaultStays(calls: seq<Call>, n: nat)
    requires n <= |calls| && Outcome(calls[..n]) != Parsed
    ensures Outcome(calls) == Outcome(calls[..n])
  {
    if n == |calls| {
      assert calls[..n] == calls;
    } else {
      var init := calls[..|calls| - 1];
      assert calls[..n] == init[..n];
      FaultStays(init, n);
    }
  }

  /* ---------- the frames a caller sees ---------- */

  predicate InitSucceeds(c: Call) {
    c.Init? && SelectTool(c.path, c.executable).1.Some?
  }

  predicate Clears(c: Call) {
    c.AddrFree? || c.Fini? || InitSucceeds(c)
  }

  /** The calls since the last one that empties the frames. */
  function SinceClear(calls: seq<Call>): seq<Call> {
    if calls == [] || Clears(calls[|calls| - 1]) then []
    else SinceClear(calls[..|calls| - 1]) + [calls[|calls| - 1]]
  }

  /** The frames of all answered sends, in order. */
  function SentFrames(calls: seq<Call>): seq<Frame> {
    if calls == [] then []
    else
      var c := calls[|calls| - 1];
      SentFrames(calls[..|calls| - 1]) + if c.AddrSend? && c.reply.Some? then ParseFrames(c.reply.value) else []
  }

  predicate IsUp(calls: seq<Call>) {
    calls != [] &&
    var c := calls[|calls| - 1];
    InitSucceeds(c) || (!c.Fini? && IsUp(calls[..|calls| - 1]))
  }

  /** What one call does to the frames. */
  lemma StepFrames(w: World, c: Call)
    ensures var g := Step(w, c).0.globals;
            && (g.Up? <==> InitSucceeds(c) || (w.globals.Up? && !c.Fini?))
            && (Clears(c) ==> FramesOf(g) == [])
            && (g.Up? && !Clears(c) ==>
                  g.frames == w.globals.frames
                              + if c.AddrSend? && c.reply.Some? then ParseFrames(c.reply.value) else [])
  {
    hide ParseFrames, RecordOf, SelectTool, HeldStrings;
  }

  /** What one call does to the tool, the data record and the leak count. */
  lemma StepData(w: World, c: Call)
    ensures var w' := Step(w, c).0;
            var answered := c.DataSend? && DataSendCode(w, c.reply) == YesSendDone;
            && (InitSucceeds(c) ==>
                  && w'.globals == Up(SelectTool(c.path, c.executable).1.value, [], NO_DATA)
                  && w'.leaked == w.leaked + HeldStrings(w.globals))
            && (!InitSucceeds(c) && w'.globals.Up? ==>
                  && w'.globals.tool == w.globals.tool
                  && w'.globals.data == (if answered then RecordOf(c.reply.value)
                                         else if c.DataFree? then w.globals.data.(name := None, file := None)
                                         else w.globals.data))
            && (!InitSucceeds(c) ==>
                  w'.leaked == w.leaked
                               + if answered then Present(w.globals.data.name) + Present(w.globals.data.file) else 0)
  {
    hide ParseFrames, RecordOf, SelectTool, HeldStrings;
    StepFrames(w, c);
  }

  lemma NothingYet()
    ensures Exec([]) == START && !IsUp([]) && Outcome([]) == Parsed
  {
  }

  lemma ExecStep(calls: seq<Call>)
    requires calls != []
    ensures var init, c := calls[..|calls| - 1], calls[|calls| - 1];
            && Exec(calls) == Step(Exec(init), c).0
            && (IsUp(calls) <==> InitSucceeds(c) || (!c.Fini? && IsUp(init)))
  {
  }

  /**
   The globals are up exactly after an init that succeeded and no fini since; the frames then are those of all
   answered sends since they were last emptied.
   */
  lemma {:induction false} VisibleFrames(calls: seq<Call>)
    ensures Exec(calls).globals.Up? <==> IsUp(calls)
    ensures IsUp(calls) ==> Exec(calls).globals.frames == SentFrames(SinceClear(calls))
  {
    hide ParseFrames, SelectTool, Exec, IsUp, Step, SentFrames, SinceClear;
    if calls == [] {
      NothingYet();
    } else {
      var init, c := calls[..|calls| - 1], calls[|calls| - 1];
      VisibleFrames(init);
      ExecStep(calls);
      StepFrames(Exec(init), c);
      SentStep(calls);
    }
  }

  lemma SentStep(calls: seq<Call>)
    requires calls != []
    ensures var init, c := calls[..|calls| - 1], calls[|calls| - 1];
            && (Clears(c) ==> SentFrames(SinceClear(calls)) == [])
            && (!Clears(c) ==>
                  SentFrames(SinceClear(calls)) == SentFrames(SinceClear(init))
                  + if c.AddrSend? && c.reply.Some? then ParseFrames(c.reply.value) else [])
  {
    hide ParseFrames, Clears;
    var s := SinceClear(calls);
    assert s != [] ==> s[..|s| - 1] == SinceClear(calls[..|calls| - 1]);
  }

  predicate IsError(r: Response) {
    !r.Void? && r.code !in {YesInitDone, YesSendDone, YesReadDone}
  }

  lemma ErrorsChangeNothing(w: World, c: Call)
    requires IsError(Step(w, c).1)
    ensures Step(w, c).0 == w
  {
  }

  /** The code of every response, by the state the session is in. */
  function CodeOf(r: Response): Option<RetCode> {
    if r.Void? then None else Some(r.code)
  }

  /**
   Which code a call returns: all errors of a session that is down, and of one that is up. `calls` are the
   calls before it.
   */
  lemma {:induction false} Codes(calls: seq<Call>, c: Call)
    ensures var code := CodeOf(Step(Exec(calls), c).1);
            match c
            case Init(path, executable) =>
              code == Some(if !executable then ErrPathNotExecutable
                           else if path == "" then ErrPathCorrupted
                           else if InitSucceeds(c) then YesInitDone
                           else ErrUnsupportedTool)
            case AddrSend(reply) =>
              code == Some(if !IsUp(calls) then ErrHasNullptr
                           else if reply.Some? then YesSendDone
                           else ErrSymbolizeFailed)
            case AddrRead(idx) =>
              code == Some(if !IsUp(calls) then ErrHasNullptr
                           else if idx < |SentFrames(SinceClear(calls))| then YesReadDone
                           else ErrOutOfBound)
            case DataSend(reply) =>
              code == Some(if !IsUp(calls) then ErrHasNullptr
                           else if UsesLlvm(calls) && reply.Some? then YesSendDone
                           else ErrSymbolizeFailed)
            case DataRead => code == Some(if IsUp(calls) then YesReadDone else ErrHasNullptr)
            case Fini => code == None
            case AddrFree => code == None
            case DataFree => code == None
  {
    hide ParseFrames, RecordOf, StripModuleName, Exec, IsUp, UsesLlvm, SentFrames, SinceClear, HeldStrings, VisibleData;
    VisibleFrames(calls);
    DataAccount(calls);
  }

  /** What a new session shows: no frame, and a record of null pointers and zeros. */
  lemma NewSession(calls: seq<Call>, path: string)
    requires InitSucceeds(Init(path, true))
    ensures var w := Exec(calls + [Init(path, true)]);
            && Step(w, AddrRead(0)).1 == FrameRead(ErrOutOfBound, None)
            && Step(w, DataRead).1 == DataReadBack(YesReadDone, Some(Data(None, None, 0, 0, 0)))
  {
    hide SelectTool, HeldStrings;
    assert (calls + [Init(path, true)])[..|calls|] == calls;
  }

  /**
   What a caller is told: a send that is answered reports the number of visible frames, and reads
   return them one by one. A failed send reports no number and leaves the frames as they are.
   */
  lemma {:induction false} SendAndRead(calls: seq<Call>, reply: string, idx: nat)
    requires IsUp(calls)
    ensures var all := SentFrames(SinceClear(calls)) + ParseFrames(reply);
            && Step(Exec(calls), AddrSend(Some(reply))).1 == Sent(YesSendDone, Some(|all|))
            && Step(Exec(calls + [AddrSend(Some(reply))]), AddrRead(idx)).1
               == if idx < |all| then FrameRead(YesReadDone, Some(all[idx])) else FrameRead(ErrOutOfBound, None)
    ensures Step(Exec(calls), AddrSend(None)) == (Exec(calls), Sent(ErrSymbolizeFailed, None))
  {
    hide ParseFrames, RecordOf, SelectTool, StringCount;
    var next := calls + [AddrSend(Some(reply))];
    assert next[..|calls|] == calls;
    VisibleFrames(calls);
    ErrorsChangeNothing(Exec(calls), AddrSend(None));
  }

  /**
   The public header says that after an init that fails all global pointers are null. They are
   exactly when they were before: a second init with a bad path leaves the first session up.
   */
  lemma {:induction false} FailedInit(calls: seq<Call>, path: string, executable: bool)
    requires !InitSucceeds(Init(path, executable))
    ensures Exec(calls + [Init(path, executable)]).globals.Down? <==> !IsUp(calls)
  {
    hide StripModuleName, IsUp;
    assert (calls + [Init(path, executable)])[..|calls|] == calls;
    ErrorsChangeNothing(Exec(calls), Init(path, executable));
    VisibleFrames(calls);
  }

  lemma OnlyTwoTools(tool: Option<ToolCode>)
    requires tool != Some(RunLlvmSymbolizer) && tool != Some(RunAddr2Line)
    ensures tool == None
  {
    match tool {
      case None =>
      case Some(RunLlvmSymbolizer) =>
      case Some(RunAddr2Line) =>
    }
  }

  /** Such a session: the second of two inits fails, and the globals stay. */
  lemma SecondInitFails()
    ensures !InitSucceeds(Init("x", true))
    ensures Exec([Init("addr2line", true), Init("x", true)]).globals == Up(RunAddr2Line, [], NO_DATA)
  {
    hide Exec, SelectTool, ParseFrames;
    var calls := [Init("addr2line", true), Init("x", true)];
    SelectByBaseName("", "addr2line");
    SelectByBaseName("", "x");
    assert "" + "addr2line" == "addr2line" && "" + "x" == "x";
    assert calls[..1] == [Init("addr2line", true)] && calls[..1][..0] == [];
    OnlyTwoTools(SelectTool("x", true).1);
    NothingYet();
    ExecStep(calls);
    ExecStep(calls[..1]);
  }

  /* ---------- strings left unreachable ---------- */

  /** A data reply was parsed and its strings neither freed nor abandoned with the session. */
  predicate DataHeld(calls: seq<Call>) {
    calls != [] &&
    var init, c := calls[..|calls| - 1], calls[|calls| - 1];
    DataSucceeds(init, c) || (!c.DataFree? && !c.Fini? && !InitSucceeds(c) && DataHeld(init))
  }

  /** The data send c is answered when made after `calls`. */
  predicate DataSucceeds(calls: seq<Call>, c: Call) {
    c.DataSend? && c.reply.Some? && IsUp(calls) && UsesLlvm(calls)
  }

  predicate UsesLlvm(calls: seq<Call>) {
    calls != [] &&
    var c := calls[|calls| - 1];
    if InitSucceeds(c) then SelectTool(c.path, c.executable).1 == Some(RunLlvmSymbolizer)
    else UsesLlvm(calls[..|calls| - 1])
  }

  /** The documented discipline: init only when down, and a data_free between two answered data sends. */
  predicate Disciplined(calls: seq<Call>) {
    calls == [] ||
    var init, c := calls[..|calls| - 1], calls[|calls| - 1];
    && Disciplined(init)
    && (InitSucceeds(c) ==> !IsUp(init))
    && (DataSucceeds(init, c) ==> !DataHeld(init))
  }

  /** The reply to the last answered data send of the current session. */
  function LastReply(calls: seq<Call>): Option<string> {
    if calls == [] then None
    else
      var init, c := calls[..|calls| - 1], calls[|calls| - 1];
      if InitSucceeds(c) then None
      else if DataSucceeds(init, c) then Some(c.reply.value)
      else LastReply(init)
  }

  /** What data_read shows: the last record of the session, its two strings gone once they are freed. */
  function VisibleData(calls: seq<Call>): Data {
    match LastReply(calls)
    case None => NO_DATA
    case Some(text) => if DataHeld(calls) then RecordOf(text) else RecordOf(text).(name := None, file := None)
  }

  lemma {:induction false} DataAccount(calls: seq<Call>)
    ensures Exec(calls).globals.Up? <==> IsUp(calls)
    ensures IsUp(calls) ==>
              && (Exec(calls).globals.tool == RunLlvmSymbolizer <==> UsesLlvm(calls))
              && Exec(calls).globals.data == VisibleData(calls)
              && (DataHeld(calls) ==> LastReply(calls).Some?)
  {
    hide RecordOf, SelectTool, HeldStrings, Exec, IsUp, Step;
    VisibleFrames(calls);
    if calls == [] {
      NothingYet();
    } else {
      var init, c := calls[..|calls| - 1], calls[|calls| - 1];
      DataAccount(init);
      ExecStep(calls);
      StepData(Exec(init), c);
    }
  }

  /** The strings that a call made after `calls` puts out of reach. */
  function Abandoned(calls: seq<Call>, c: Call): nat {
    if InitSucceeds(c) then
      if IsUp(calls) then StringCount(SentFrames(SinceClear(calls))) + (if DataHeld(calls) then 2 else 0) else 0
    else if DataSucceeds(calls, c) && DataHeld(calls) then 2
    else 0
  }

  lemma HeldByCaller(calls: seq<Call>)
    ensures HeldStrings(Exec(calls).globals)
         == if IsUp(calls) then StringCount(SentFrames(SinceClear(calls))) + (if DataHeld(calls) then 2 else 0) else 0
  {
    hide ParseFrames, ParseData, Exec, IsUp, StringCount, SentFrames, SinceClear, DataHeld, LastReply;
    VisibleFrames(calls);
    DataAccount(calls);
  }

  /**
   What one call leaks: all strings of the session that a successful init replaces, and the two strings of an
   earlier record at an answered data send.
   */
  lemma {:induction false} LeakOfCall(calls: seq<Call>, c: Call)
    ensures Exec(calls + [c]).leaked == Exec(calls).leaked + Abandoned(calls, c)
  {
    hide RecordOf, SelectTool, Exec, IsUp, Step, DataHeld, LastReply, HeldStrings, StringCount, SentFrames, SinceClear;
    assert (calls + [c])[..|calls|] == calls;
    ExecStep(calls + [c]);
    StepData(Exec(calls), c);
    DataAccount(calls);
    HeldByCaller(calls);
  }

  /** No init replaces a session that holds strings, and no answered data send a record that does. */
  predicate Careful(calls: seq<Call>) {
    calls == [] ||
    var init, c := calls[..|calls| - 1], calls[|calls| - 1];
    && Careful(init)
    && (InitSucceeds(c) && IsUp(init) ==> StringCount(SentFrames(SinceClear(init))) == 0 && !DataHeld(init))
    && (DataSucceeds(init, c) ==> !DataHeld(init))
  }

  /** Strings leak exactly when some call is made without that care. */
  lemma {:induction false} LeaksExactly(calls: seq<Call>)
    ensures Exec(calls).leaked == 0 <==> Careful(calls)
  {
    hide Exec, IsUp, DataHeld, InitSucceeds, StringCount, SentFrames, SinceClear;
    if calls == [] {
      NothingYet();
    } else {
      var init, c := calls[..|calls| - 1], calls[|calls| - 1];
      assert calls == init + [c];
      LeaksExactly(init);
      LeakOfCall(init, c);
      DataIsNoInit(c);
    }
  }

  lemma DataIsNoInit(c: Call)
    ensures c.DataSend? ==> !InitSucceeds(c)
  {
  }

  /** So a disciplined caller leaks no string. */
  lemma {:induction false} DisciplineLeaksNothing(calls: seq<Call>)
    requires Disciplined(calls)
    ensures Exec(calls).leaked == 0
  {
    DisciplineIsCareful(calls);
    LeaksExactly(calls);
  }

  lemma {:induction false} DisciplineIsCareful(calls: seq<Call>)
    requires Disciplined(calls)
    ensures Careful(calls)
  {
    if calls != [] { DisciplineIsCareful(calls[..|calls| - 1]); }
  }
}
