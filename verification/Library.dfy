/**
 The public interface together with the tool behind it: each send asks the children of the tool
 that init selected, and the text they return goes to the parser.
 */
module Library {
  import opened Bytes
  import opened Framing
  import opened Grammar
  import opened Commands
  import opened Process
  import opened Pool
  import opened Session
  import opened Interface
  import Descriptors

  /** The public calls, as a caller makes them. */
  datatype PublicCall =
    | CallInit(path: string, executable: bool)
    | CallFini
    | CallAddrSend(name: string, offset: nat)
    | CallAddrRead(idx: nat)
    | CallAddrFree
    | CallDataSend(name: string, offset: nat)
    | CallDataRead
    | CallDataFree

  /** What the children of either tool answer. */
  datatype Programs = Programs(llvm: Responder, addr2line: Children)

  ghost predicate ProgramsAnswer(programs: Programs) {
    && RepliesAreWellFormed(Kind.Llvm, programs.llvm)
    && forall name: string :: RepliesAreWellFormed(Kind.Addr2Line, programs.addr2line(name))
  }

  /** The tool that init created, with the state of its processes. */
  datatype Backend = NoTool | LlvmTool(proc: Snap) | PoolTool(pool: PoolState)

  function NewTool(tool: ToolCode): Backend {
    match tool
    case RunLlvmSymbolizer => LlvmTool(FRESH)
    case RunAddr2Line => PoolTool(EMPTY)
  }

  /* ---------- requests ---------- */

  /** A request to llvm-symbolizer: its process is not asked when the command was found too long. */
  ghost predicate LlvmStep(reply: Responder, s: Snap, text: string, result: Option<string>, t: Snap) {
    match LlvmCommand(text)
    case None => result == None && t == s
    case Some(command) => CallStep(Kind.Llvm, reply, s, command, result, t)
  }

  /** One request to whatever tool there is. */
  ghost predicate Asks(programs: Programs, b: Backend, prefix: string, name: string, offset: nat,
      reply: Option<string>, b': Backend)
  {
    match b
    case NoTool => reply == None && b' == b
    case LlvmTool(s) => b'.LlvmTool? && LlvmStep(programs.llvm, s, LlvmText(prefix, name, offset), reply, b'.proc)
    case PoolTool(s) => b'.PoolTool? && PoolStep(programs.addr2line, s, name, offset, reply, b'.pool)
  }

  /** What a public call is to the session, and what it does to the tool. */
  ghost predicate CallMade(programs: Programs, b: Backend, call: PublicCall, c: Call, b': Backend) {
    match call
    case CallInit(path, executable) =>
      var tool := SelectTool(path, executable).1;
      c == Init(path, executable) && b' == if tool == None then b else NewTool(tool.value)
    case CallFini => c == Fini && b' == NoTool
    case CallAddrSend(name, offset) => c.AddrSend? && Asks(programs, b, "CODE", name, offset, c.reply, b')
    case CallAddrRead(idx) => c == AddrRead(idx) && b' == b
    case CallAddrFree => c == AddrFree && b' == b
    case CallDataSend(name, offset) =>
      && c.DataSend?
      && if b.PoolTool? then c.reply == None && b' == b else Asks(programs, b, "DATA", name, offset, c.reply, b')
    case CallDataRead => c == DataRead && b' == b
    case CallDataFree => c == DataFree && b' == b
  }

  lemma InitMade(programs: Programs, b: Backend, path: string, executable: bool)
    ensures var tool := SelectTool(path, executable).1;
            CallMade(programs, b, CallInit(path, executable), Init(path, executable),
                if tool == None then b else NewTool(tool.value))
  {
  }

  /** backends[i] and backends[i + 1] surround calls[i], which is made[i] to the session. */
  datatype Trace = Trace(backends: seq<Backend>, calls: seq<PublicCall>, made: seq<Call>) {
    function Last(): Backend
      requires backends != []
    {
      backends[|backends| - 1]
    }
  }

  ghost predicate IsTrace(programs: Programs, t: Trace) {
    && |t.backends| == |t.calls| + 1 == |t.made| + 1
    && t.backends[0] == NoTool
    && forall i :: 0 <= i < |t.calls| ==> CallMade(programs, t.backends[i], t.calls[i], t.made[i], t.backends[i + 1])
  }

  /** LLVMSymbolizer::FormatAndSendCommand: a command longer than the buffer is not sent. */
  method FormatAndSendCommand(p: SymbolizerProcess, prefix: string, name: string, offset: nat)
    returns (res: Option<string>)
    requires p.Valid() && p.ChildAnswers() && p.kind == Kind.Llvm
    modifies p, p.sys
    ensures p.Valid() && (res.Some? ==> Without(res.value, NUL))
    ensures LlvmStep(p.sys.reply, old(p.Snapshot()), LlvmText(prefix, name, offset), res, p.Snapshot())
    ensures var text := LlvmText(prefix, name, offset);
            && (|text| < 16384 ==> CallStep(Kind.Llvm, p.sys.reply, old(p.Snapshot()), text, res, p.Snapshot()))
            && (16384 <= |text| <= 0x7fff_ffff ==> res == None && p.Snapshot() == old(p.Snapshot()))
            && ((prefix == "CODE" || prefix == "DATA") && |name| <= 4096 && offset < 0x1_0000_0000_0000_0000 ==>
                  |text| < 16384)
  {
    hide CallStep, RepliesAreWellFormed, LlvmText, LlvmCommand;
    var text := LlvmText(prefix, name, offset);
    LlvmCommandWhole(text);
    if (prefix == "CODE" || prefix == "DATA") && |name| <= 4096 && offset < 0x1_0000_0000_0000_0000 {
      PathFits(prefix, name, offset);
    }
    var command := LlvmCommand(text);
    if command == None {
      return None;
    }
    var exited;
    res, exited := p.SendCommand(command.value);
  }

  /* ---------- the class ---------- */

  /** How the program fares: it goes on, a failed CHECK ends it, or a reply takes the parser outside its input. */
  datatype Ending = Returned | CheckFailed | Faulty(outcome: ParseOutcome)

  class Library {
    const session: SanSymTool
    const programs: Programs
    var process: SymbolizerProcess?
    var pool: Addr2LinePool?
    // The objects behind the tool.
    ghost var tools: set<object>

    ghost predicate ToolValid()
      reads this, tools
    {
      && (process == null || pool == null)
      && (process == null && pool == null ==> tools == {})
      && (process != null ==>
            && tools == {process, process.sys}
            && process.Valid() && process.kind == Kind.Llvm && process.sys.reply == programs.llvm)
      && (pool != null ==>
            && pool in tools && tools == {pool} + pool.Objects()
            && pool.Valid() && pool.replies == programs.addr2line)
    }

    ghost function State(): Backend
      reads this, pool, process, if process == null then {} else {process.sys}
    {
      if process != null then LlvmTool(process.Snapshot()) else if pool != null then PoolTool(pool.state) else NoTool
    }

    /** The session knows which tool there is. */
    ghost predicate Matches()
      reads this, session`pSanSymTool
    {
      session.pSanSymTool ==
      if process != null then Some(RunLlvmSymbolizer) else if pool != null then Some(RunAddr2Line) else None
    }

    constructor (programs: Programs)
      ensures this.programs == programs && session.Valid() && session.Abs() == START
      ensures ToolValid() && Matches() && State() == NoTool
      ensures fresh(session) && fresh(session.heap) && tools == {}
      ensures session.pDataInfoBuf == null && session.pAddrInfoBuf == null
    {
      session := new SanSymTool();
      this.programs, process, pool, tools := programs, null, null, {};
    }

    /* ---------- the tool ---------- */

    method CreateTool(tool: ToolCode)
      modifies `process, `pool, `tools
      ensures ToolValid() && State() == NewTool(tool) && fresh(tools)
      ensures if tool.RunLlvmSymbolizer? then process != null else process == null && pool != null
    {
      if tool.RunLlvmSymbolizer? {
        var others: set<int> := *;
        var sys := new Descriptors.System(others - {Descriptors.INVALID_FD}, programs.llvm);
        process := new SymbolizerProcess(Kind.Llvm, sys);
        pool := null;
        tools := {process, sys};
      } else {
        pool := new Addr2LinePool(programs.addr2line);
        process := null;
        tools := {pool};
      }
    }

    /** StopTheWorld, which kills every process once as far as it can, and the tool is deleted. */
    method StopTheWorld()
      requires ToolValid()
      modifies `process, `pool, `tools, tools
      ensures process == null && pool == null && tools == {}
      ensures old(process) != null ==> old(process).Forsaken()
      ensures old(pool) != null ==> forall i :: 0 <= i < |old(pool.pool)| ==> old(pool.pool)[i].proc.Forsaken()
    {
      if process != null {
        var _ := process.Kill();
      }
      if pool != null {
        pool.FlushPool();
      }
      process, pool, tools := null, null, {};
    }

    /** Asks the tool, if there is one. */
    method Ask(prefix: string, name: string, offset: nat) returns (reply: Option<string>, exited: bool)
      requires ToolValid() && ProgramsAnswer(programs)
      modifies `tools, tools
      ensures exited <==> pool != null && pool.Starved(name)
      ensures !exited ==>
                && ToolValid() && fresh(tools - old(tools))
                && Asks(programs, old(State()), prefix, name, offset, reply, State())
                && (reply.Some? ==> Without(reply.value, NUL))
    {
      hide PoolStep, LlvmStep, CallStep, LlvmText, RepliesAreWellFormed;
      reply, exited := None, false;
      if process != null {
        reply := FormatAndSendCommand(process, prefix, name, offset);
      } else if pool != null {
        reply, exited := pool.SendCommand(name, offset);
        if !exited {
          tools := {pool} + pool.Objects();
        }
      }
    }

    /** While there is a tool each of its processes holds at most two descriptors. */
    lemma TwoForEachProcess()
      requires ToolValid()
      ensures process != null ==> |process.sys.open - process.others| <= 2
      ensures pool != null ==>
                && |pool.pool| <= 16
                && forall i :: 0 <= i < |pool.pool| ==> |pool.pool[i].proc.sys.open - pool.pool[i].proc.others| <= 2
    {
      if process != null {
        process.HoldsAtMostTwo();
      }
      if pool != null {
        forall i | 0 <= i < |pool.pool|
          ensures |pool.pool[i].proc.sys.open - pool.pool[i].proc.others| <= 2
        {
          assert pool.Represents(i);
          pool.pool[i].proc.HoldsAtMostTwo();
        }
      }
    }

    /* ---------- one call ---------- */

    ghost predicate Valid()
      reads this, tools, session, session.heap, session.pDataInfoBuf, session.pAddrInfoBuf, session.Owned()
    {
      ToolValid() && Matches() && session.Valid()
    }

    /** There is at most one tool, and it has no object in common with the session. */
    lemma Apart()
      requires ToolValid() && session.Valid()
      ensures process == null || pool == null
      ensures this !in tools && session !in tools && session.heap !in tools
      ensures session.pDataInfoBuf != null ==> session.pDataInfoBuf !in tools
      ensures session.pAddrInfoBuf != null ==> session.pAddrInfoBuf !in tools
      ensures session.Owned() <= session.heap.live
      ensures forall a :: a in session.heap.live ==> a !in tools
    {
    }

    /** The part of Init that concerns the buffers. */
    method InitSession(path: string, executable: bool) returns (ghost r: Response)
      requires ToolValid() && session.Valid()
      modifies session
      ensures ToolValid() && session.Valid() && State() == old(State())
      ensures var tool := SelectTool(path, executable).1;
              session.pSanSymTool == if tool.Some? then tool else old(session.pSanSymTool)
      ensures (session.Abs(), r) == Step(old(session.Abs()), Init(path, executable))
      ensures session.pDataInfoBuf == old(session.pDataInfoBuf) || fresh(session.pDataInfoBuf)
      ensures session.pAddrInfoBuf == old(session.pAddrInfoBuf) || fresh(session.pAddrInfoBuf)
    {
      hide SelectTool, HeldStrings, SanSymTool.Valid, SanSymTool.Owned, ToolValid;
      Apart();
      var code := session.Init(path, executable);
      r := Done(code);
    }

    /** Init: a new tool takes the place of the old one, whose children go on unattended. */
    method Start(path: string, executable: bool) returns (ghost r: Response)
      requires Valid()
      modifies `process, `pool, `tools, session
      ensures Valid() && fresh(tools - old(tools))
      ensures (session.Abs(), r) == Step(old(session.Abs()), Init(path, executable))
      ensures CallMade(programs, old(State()), CallInit(path, executable), Init(path, executable), State())
      ensures session.pDataInfoBuf == old(session.pDataInfoBuf) || fresh(session.pDataInfoBuf)
      ensures session.pAddrInfoBuf == old(session.pAddrInfoBuf) || fresh(session.pAddrInfoBuf)
    {
      hide SelectTool, SanSymTool.Valid, SanSymTool.Owned, SanSymTool.Abs, ToolValid, State, NewTool, CallMade, Step;
      InitMade(programs, State(), path, executable);
      r := InitSession(path, executable);
      var tool := SelectTool(path, executable).1;
      if tool.Some? {
        Apart();
        CreateTool(tool.value);
      }
    }

    /** Fini: the tool is stopped and deleted, and everything freed. */
    method Stop()
      requires Valid()
      modifies `process, `pool, `tools, tools, session, session.heap, session.pDataInfoBuf, session.pAddrInfoBuf
      ensures Valid() && State() == NoTool && tools == {}
      ensures old(process) != null ==> old(process).Forsaken()
      ensures old(pool) != null ==> forall i :: 0 <= i < |old(pool.pool)| ==> old(pool.pool)[i].proc.Forsaken()
      ensures session.Abs() == Step(old(session.Abs()), Fini).0
      ensures session.heap.live == session.leaked && session.pDataInfoBuf == null && session.pAddrInfoBuf == null
    {
      hide SanSymTool.Valid, SanSymTool.Owned, ToolValid;
      Apart();
      StopTheWorld();
      session.Fini();
      NoToolIsValid();
    }

    lemma NoToolIsValid()
      requires process == null && pool == null && tools == {}
      ensures ToolValid()
    {
    }

    /** One address request, from the tool's children to the frames. */
    method SendAddr(name: string, offset: nat)
      returns (ending: Ending, ghost c: Call, ghost r: Response)
      requires Valid() && ProgramsAnswer(programs)
      modifies `tools, tools, session`frames, session.heap, session.pAddrInfoBuf
      ensures ending == CheckFailed <==> pool != null && pool.Starved(name)
      ensures ending == CheckFailed ==> old(State()).PoolTool?
      ensures ending != CheckFailed ==>
                && CallMade(programs, old(State()), CallAddrSend(name, offset), c, State())
                && ending == Ended(CallOutcome(old(session.Abs()), c))
      ensures ending == Returned ==>
                && Valid() && fresh(tools - old(tools))
                && (session.Abs(), r) == Step(old(session.Abs()), c)
                && unchanged(session`pDataInfoBuf, session`pAddrInfoBuf)
    {
      hide SanSymTool.Valid, SanSymTool.Owned, ToolValid, Asks, ProgramsAnswer, ReplyOutcome, ParseFrames;
      Apart();
      var reply, exited := Ask("CODE", name, offset);
      c, r := AddrSend(reply), Void;
      if exited {
        return CheckFailed, c, r;
      }
      Apart();
      var outcome, code, n := session.SendAddrDat(reply, 0);
      r := Sent(code, if code == YesSendDone then Some(n) else None);
      ending := Ended(outcome);
    }

    /** One data request. addr2line is never asked. */
    method SendData(name: string, offset: nat) returns (ghost c: Call, ghost r: Response)
      requires Valid() && ProgramsAnswer(programs)
      modifies `tools, tools, session`leaked, session`data, session.heap, session.pDataInfoBuf
      ensures Valid() && fresh(tools - old(tools))
      ensures CallMade(programs, old(State()), CallDataSend(name, offset), c, State())
      ensures (session.Abs(), r) == Step(old(session.Abs()), c)
      ensures unchanged(session`pDataInfoBuf, session`pAddrInfoBuf)
    {
      hide SanSymTool.Valid, SanSymTool.Owned, ToolValid, Asks, ProgramsAnswer, RecordOf, WithData;
      Apart();
      var reply, exited := None, false;
      if pool == null {
        reply, exited := Ask("DATA", name, offset);
      }
      c := DataSend(reply);
      Apart();
      var code := session.SendDataDat(reply);
      r := Done(code);
    }

    /** A call that does not concern the tool. */
    method PerformAlone(c: Call) returns (ghost r: Response)
      requires Valid() && (c.AddrRead? || c.AddrFree? || c.DataRead? || c.DataFree?)
      modifies session, session.heap, session.pDataInfoBuf, session.pAddrInfoBuf
      ensures Valid() && (session.Abs(), r) == Step(old(session.Abs()), c)
      ensures session.pDataInfoBuf == null || session.pDataInfoBuf == old(session.pDataInfoBuf)
           || fresh(session.pDataInfoBuf)
      ensures session.pAddrInfoBuf == null || session.pAddrInfoBuf == old(session.pAddrInfoBuf)
           || fresh(session.pAddrInfoBuf)
    {
      hide SanSymTool.Valid, SanSymTool.Owned, ToolValid;
      Apart();
      var outcome;
      outcome, r := session.Perform(c);
    }

    /** One public call, with the tool behind it. */
    method Perform(call: PublicCall) returns (ending: Ending, ghost c: Call, ghost r: Response)
      requires Valid() && ProgramsAnswer(programs)
      modifies this, tools, session, session.heap, session.pDataInfoBuf, session.pAddrInfoBuf
      ensures ending == CheckFailed <==> call.CallAddrSend? && pool != null && pool.Starved(call.name)
      ensures ending == CheckFailed ==> old(State()).PoolTool?
      ensures ending != CheckFailed ==>
                && CallMade(programs, old(State()), call, c, State())
                && ending == Ended(CallOutcome(old(session.Abs()), c))
      ensures ending == Returned ==>
                && Valid() && fresh(tools - old(tools))
                && (session.Abs(), r) == Step(old(session.Abs()), c)
                && (session.pDataInfoBuf == null || session.pDataInfoBuf == old(session.pDataInfoBuf)
                    || fresh(session.pDataInfoBuf))
                && (session.pAddrInfoBuf == null || session.pAddrInfoBuf == old(session.pAddrInfoBuf)
                    || fresh(session.pAddrInfoBuf))
                && (c.Fini? ==> session.heap.live == session.leaked)
    {
      hide Valid, Asks, ProgramsAnswer, SelectTool, ReplyOutcome, ParseFrames;
      ending := Returned;
      match call {
        case CallInit(path, executable) =>
          c := Init(path, executable);
          r := Start(path, executable);
        case CallFini =>
          c, r := Fini, Void;
          Stop();
        case CallAddrSend(name, offset) =>
          ending, c, r := SendAddr(name, offset);
        case CallDataSend(name, offset) =>
          c, r := SendData(name, offset);
        case CallAddrRead(idx) =>
          c := AddrRead(idx);
          r := PerformAlone(AddrRead(idx));
        case CallAddrFree =>
          c := AddrFree;
          r := PerformAlone(AddrFree);
        case CallDataRead =>
          c := DataRead;
          r := PerformAlone(DataRead);
        case CallDataFree =>
          c := DataFree;
          r := PerformAlone(DataFree);
      }
    }

    /**
     Any sequence of public calls on a new library follows the session and the tool. It ends early when
     a CHECK fails in an address request to addr2line, or when a reply takes the parser outside its input.
     */
    method Run(calls: seq<PublicCall>) returns (ending: Ending, ghost t: Trace)
      requires Valid() && ProgramsAnswer(programs) && State() == NoTool && session.Abs() == START
      modifies this, tools, session, session.heap, session.pDataInfoBuf, session.pAddrInfoBuf
      ensures IsTrace(programs, t) && t.calls <= calls
      ensures ending == CheckFailed ==>
                && |t.calls| < |calls| && t.Last().PoolTool? && calls[|t.calls|].CallAddrSend?
                && pool != null && pool.Starved(calls[|t.calls|].name) && Outcome(t.made) == Parsed
      ensures ending != CheckFailed ==> ending == Ended(Outcome(t.made))
      ensures ending == Returned ==>
                && Valid() && t.calls == calls && State() == t.Last() && session.Abs() == Exec(t.made)
                && (calls != [] && calls[|calls| - 1].CallFini? ==>
                      |session.heap.live| == Exec(t.made).leaked
                      && (session.heap.live == {} <==> Careful(t.made)))
    {
      hide Valid, CallMade, Step, ProgramsAnswer, CallOutcome, Careful, State, Exec, Outcome;
      ending, t := Returned, Trace([NoTool], [], []);
      NothingYet();
      for i := 0 to |calls|
        invariant Valid() && fresh(tools - old(tools))
        invariant IsTrace(programs, t) && t.calls == calls[..i] && t.Last() == State()
        invariant session.Abs() == Exec(t.made) && Outcome(t.made) == Parsed && ending == Returned
        invariant session.pDataInfoBuf == null || session.pDataInfoBuf == old(session.pDataInfoBuf)
               || fresh(session.pDataInfoBuf)
        invariant session.pAddrInfoBuf == null || session.pAddrInfoBuf == old(session.pAddrInfoBuf)
               || fresh(session.pAddrInfoBuf)
        invariant i > 0 && calls[i - 1].CallFini? ==> session.heap.live == session.leaked
      {
        ghost var c, r;
        ending, c, r := Perform(calls[i]);
        if ending == CheckFailed {
          return;
        }
        TraceExtended(programs, t, calls[i], c, State());
        t := Extend(t, calls[i], c, State());
        if ending != Returned {
          return;
        }
      }
      LeaksExactly(t.made);
    }
  }

  /** One more call. */
  function Extend(t: Trace, call: PublicCall, c: Call, b: Backend): Trace {
    Trace(t.backends + [b], t.calls + [call], t.made + [c])
  }

  lemma TraceExtended(programs: Programs, t: Trace, call: PublicCall, c: Call, b: Backend)
    requires IsTrace(programs, t) && CallMade(programs, t.Last(), call, c, b)
    ensures var t' := Extend(t, call, c, b);
            && IsTrace(programs, t') && t'.Last() == b
            && Exec(t'.made) == Step(Exec(t.made), c).0
            && (Outcome(t.made) == Parsed ==> Outcome(t'.made) == CallOutcome(Exec(t.made), c))
    ensures call.CallFini? <==> c.Fini?
  {
    hide Asks, SelectTool, Step, CallOutcome;
    assert (t.made + [c])[..|t.made|] == t.made;
  }

  function Ended(outcome: ParseOutcome): Ending {
    if outcome == Parsed then Returned else Faulty(outcome)
  }
}
