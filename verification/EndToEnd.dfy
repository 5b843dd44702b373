/**
 What a caller of the public interface reads, in terms of the entries that the children print.
 */
module EndToEnd {
  import opened Bytes
  import opened Framing
  import opened Grammar
  import opened Commands
  import opened Replies
  import opened Process
  import opened Pool
  import opened Session
  import opened Library
  import PoolRuns
  import Runs

  /** Entries that the parser reads back. */
  ghost predicate Printable(es: seq<Entry>) {
    es != [] && AreEntries(es) && WellFormed(es)
  }

  predicate IsAnswered(call: PublicCall, c: Call) {
    call.CallAddrSend? && c.AddrSend? && c.reply.Some?
  }

  /** The child that answers the request prints these entries. */
  ghost predicate Prints(programs: Programs, b: Backend, name: string, offset: nat, es: seq<Entry>) {
    Printable(es) &&
    match b
    case NoTool => false
    case LlvmTool(s) => programs.llvm(s.answered, LlvmText("CODE", name, offset)) == Print(es) + "\n"
    case PoolTool(s) =>
      && !Clash(es)
      && programs.addr2line(name)(History(s, name), Addr2LineCommand(offset)) == Print(es) + TERMINATOR
  }

  /** Nothing of a reply is left in any pipe. */
  ghost predicate AllRead(b: Backend) {
    match b
    case NoTool => true
    case LlvmTool(s) => s.unread == []
    case PoolTool(s) => PoolRuns.AllRead(s.members)
  }

  /** No read from llvm-symbolizer has come back empty. */
  predicate NoEmptyRead(b: Backend) {
    b.LlvmTool? ==> b.proc.emptyReads == 0
  }

  /** An int counts the length of the command. */
  predicate Countable(call: PublicCall) {
    match call
    case CallAddrSend(name, offset) => |LlvmText("CODE", name, offset)| <= 0x7fff_ffff
    case CallDataSend(name, offset) => |LlvmText("DATA", name, offset)| <= 0x7fff_ffff
    case _ => true
  }

  /* ---------- one request ---------- */

  lemma LlvmAnswer(reply: Responder, s: Snap, text: string, result: string, t: Snap)
    requires RepliesAreWellFormed(Kind.Llvm, reply) && s.unread == []
    requires LlvmStep(reply, s, text, Some(result), t) && text != [] && |text| <= 0x7fff_ffff
    requires t.emptyReads == s.emptyReads
    ensures result == reply(s.answered, text) && t.unread == []
  {
    hide CallStep, RepliesAreWellFormed, Answer, LlvmCommand;
    LlvmCommandWhole(text);
    Runs.CleanCall(Kind.Llvm, reply, s, text, result, t);
    AnswerOfLlvm(reply(s.answered, text));
  }

  lemma AnswerOfLlvm(reply: string)
    ensures Answer(Kind.Llvm, reply) == reply
  {
  }

  /** A request to llvm-symbolizer leaves nothing behind unless a read came back empty. */
  lemma LlvmKeepsRead(reply: Responder, s: Snap, text: string, result: Option<string>, t: Snap)
    requires RepliesAreWellFormed(Kind.Llvm, reply) && s.unread == []
    requires LlvmStep(reply, s, text, result, t)
    requires t.emptyReads == s.emptyReads
    ensures t.unread == []
  {
    hide RepliesAreWellFormed, Answer, LlvmCommand, Delivered;
    if LlvmCommand(text).Some? {
      var command := LlvmCommand(text).value;
      if result.Some? {
        Runs.CleanCall(Kind.Llvm, reply, s, command, result.value, t);
      } else {
        assert CallStep(Kind.Llvm, reply, s, command, None, t);
      }
    }
  }

  lemma PoolKeepsRead(replies: Children, s: PoolState, name: string, offset: nat, result: Option<string>, t: PoolState)
    requires PoolRuns.AllRead(s.members) && PoolStep(replies, s, name, offset, result, t)
    ensures PoolRuns.AllRead(t.members)
  {
    hide TotalStarts, Addr2LineCommand;
  }

  lemma AsksKeepsRead(programs: Programs, b: Backend, prefix: string, name: string, offset: nat,
      reply: Option<string>, b': Backend)
    requires ProgramsAnswer(programs) && AllRead(b) && Asks(programs, b, prefix, name, offset, reply, b')
    requires NoEmptyRead(b) && NoEmptyRead(b')
    ensures AllRead(b')
  {
    hide RepliesAreWellFormed, LlvmStep, PoolStep, LlvmText, PoolRuns.AllRead;
    match b {
      case NoTool =>
      case LlvmTool(s) => LlvmKeepsRead(programs.llvm, s, LlvmText(prefix, name, offset), reply, b'.proc);
      case PoolTool(s) => PoolKeepsRead(programs.addr2line, s, name, offset, reply, b'.pool);
    }
  }

  lemma CallKeepsRead(programs: Programs, b: Backend, call: PublicCall, c: Call, b': Backend)
    requires ProgramsAnswer(programs) && AllRead(b) && CallMade(programs, b, call, c, b')
    requires NoEmptyRead(b) && NoEmptyRead(b')
    ensures AllRead(b')
  {
    hide ProgramsAnswer, Asks, SelectTool, NoEmptyRead;
    match call {
      case CallAddrSend(name, offset) => AsksKeepsRead(programs, b, "CODE", name, offset, c.reply, b');
      case CallDataSend(name, offset) =>
        if !b.PoolTool? { AsksKeepsRead(programs, b, "DATA", name, offset, c.reply, b'); }
      case _ =>
    }
  }

  lemma ParseLlvm(es: seq<Entry>)
    requires Printable(es)
    ensures ReplyOutcome(Print(es) + "\n") == Parsed && ParseFrames(Print(es) + "\n") == Meanings(es)
  {
    assert Token("\n", "\n") == [];
    ParsePrinted(es, "\n");
    ReplyFaults(Print(es) + "\n");
  }

  lemma ParseAddr2Line(es: seq<Entry>)
    requires Printable(es)
    ensures Answer(Kind.Addr2Line, Print(es) + TERMINATOR) == Print(es)
    ensures ReplyOutcome(Print(es)) == Parsed && ParseFrames(Print(es)) == Meanings(es)
  {
    assert Token("", "\n") == [] && Print(es) + "" == Print(es);
    ParsePrinted(es, "");
    ReplyFaults(Print(es));
    AnswerOfClosed(Print(es));
  }

  /** The text that answers an address request parses to the frames of the entries printed for it. */
  lemma AnswerParses(programs: Programs, b: Backend, name: string, offset: nat, text: string, b': Backend,
      es: seq<Entry>)
    requires ProgramsAnswer(programs) && Prints(programs, b, name, offset, es) && AllRead(b)
    requires Asks(programs, b, "CODE", name, offset, Some(text), b')
    requires NoEmptyRead(b) && NoEmptyRead(b') && |LlvmText("CODE", name, offset)| <= 0x7fff_ffff
    ensures ReplyOutcome(text) == Parsed && ParseFrames(text) == Meanings(es)
  {
    hide RepliesAreWellFormed, LlvmStep, PoolStep, LlvmText, PoolRuns.AllRead, Printable, Answer,
        Print, Meanings, History, Addr2LineCommand, ReplyOutcome, ParseFrames, Clash;
    match b {
      case NoTool =>
      case LlvmTool(s) =>
        LlvmTextLength("CODE", name, offset);
        LlvmAnswer(programs.llvm, s, LlvmText("CODE", name, offset), text, b'.proc);
        ParseLlvm(es);
      case PoolTool(s) =>
        PoolRuns.StepAnswers(programs.addr2line, s, PoolRuns.Request(name, offset), Some(text), b'.pool);
        ParseAddr2Line(es);
    }
  }

  /* ---------- whole sequences of calls ---------- */

  /**
   What the first n calls leave to be read: the frames of the entries printed for each answered request since
   they were emptied.
   */
  function Expected(t: Trace, printed: seq<seq<Entry>>, n: nat): seq<Frame>
    requires n <= |t.calls| == |t.made| == |printed|
  {
    if n == 0 || Clears(t.made[n - 1]) then []
    else
      Expected(t, printed, n - 1)
      + if IsAnswered(t.calls[n - 1], t.made[n - 1]) then Meanings(printed[n - 1]) else []
  }

  lemma OneMoreCall(programs: Programs, b: Backend, call: PublicCall, c: Call, b': Backend, es: seq<Entry>,
      w: World, before: seq<Frame>)
    requires CallMade(programs, b, call, c, b') && ProgramsAnswer(programs)
    requires AllRead(b) && NoEmptyRead(b) && NoEmptyRead(b') && Countable(call)
    requires IsAnswered(call, c) ==> Prints(programs, b, call.name, call.offset, es)
    requires w.globals.Up? ==> w.globals.frames == before
    ensures CallOutcome(w, c) == Parsed
    ensures var g := Step(w, c).0.globals;
            g.Up? ==> g.frames == if Clears(c) then [] else before + if IsAnswered(call, c) then Meanings(es) else []
  {
    hide ProgramsAnswer, Prints, AllRead, Asks, ReplyOutcome, ParseFrames, Clears, Step, SelectTool, InitSucceeds,
        LlvmText, Meanings, NoEmptyRead;
    StepFrames(w, c);
    ClearsWithInit(c);
    if IsAnswered(call, c) {
      AnswerParses(programs, b, call.name, call.offset, c.reply.value, b', es);
    }
  }

  lemma ClearsWithInit(c: Call)
    ensures InitSucceeds(c) ==> Clears(c)
    ensures !c.AddrSend? || !Clears(c)
  {
  }

  /** The system served every read, and every command can be counted. */
  ghost predicate Served(t: Trace) {
    && (forall i :: 0 <= i < |t.backends| ==> NoEmptyRead(t.backends[i]))
    && (forall i :: 0 <= i < |t.calls| ==> Countable(t.calls[i]))
  }

  lemma {:induction false} NothingLeft(programs: Programs, t: Trace, n: nat)
    requires IsTrace(programs, t) && ProgramsAnswer(programs) && Served(t) && n <= |t.calls|
    ensures AllRead(t.backends[n])
  {
    hide CallMade, ProgramsAnswer, AllRead, NoEmptyRead, Countable;
    if n == 0 {
      NoToolIsRead();
    } else {
      NothingLeft(programs, t, n - 1);
      CallKeepsRead(programs, t.backends[n - 1], t.calls[n - 1], t.made[n - 1], t.backends[n]);
    }
  }

  lemma NoToolIsRead()
    ensures AllRead(NoTool)
  {
  }

  lemma {:induction false} FramesArePrinted(programs: Programs, t: Trace, printed: seq<seq<Entry>>, n: nat)
    requires IsTrace(programs, t) && ProgramsAnswer(programs) && Served(t) && n <= |t.calls| == |printed|
    requires forall i :: 0 <= i < |t.calls| && IsAnswered(t.calls[i], t.made[i]) ==>
               Prints(programs, t.backends[i], t.calls[i].name, t.calls[i].offset, printed[i])
    ensures Outcome(t.made[..n]) == Parsed
    ensures Exec(t.made[..n]).globals.Up? ==> Exec(t.made[..n]).globals.frames == Expected(t, printed, n)
  {
    hide CallMade, ProgramsAnswer, Prints, AllRead, NoEmptyRead, Countable, CallOutcome, Step, Clears, Meanings;
    if n == 0 {
      NothingYet();
    } else {
      FramesArePrinted(programs, t, printed, n - 1);
      NothingLeft(programs, t, n - 1);
      assert t.made[..n][..n - 1] == t.made[..n - 1];
      OneMoreCall(programs, t.backends[n - 1], t.calls[n - 1], t.made[n - 1], t.backends[n], printed[n - 1],
          Exec(t.made[..n - 1]), Expected(t, printed, n - 1));
    }
  }

  /**
   Whatever calls are made, whatever fails and restarts on the way: no reply takes the parser outside its
   input, and addr_read on a session that is up gives exactly the frames of the entries that the requested
   modules' own children printed, in the order of the requests, since the frames were last emptied. This
   holds as long as no read from llvm-symbolizer comes back empty.
   */
  lemma CallerReadsWhatChildrenPrint(programs: Programs, t: Trace, printed: seq<seq<Entry>>, idx: nat)
    requires IsTrace(programs, t) && ProgramsAnswer(programs) && Served(t) && |t.calls| == |printed|
    requires forall i :: 0 <= i < |t.calls| && IsAnswered(t.calls[i], t.made[i]) ==>
               Prints(programs, t.backends[i], t.calls[i].name, t.calls[i].offset, printed[i])
    ensures Outcome(t.made) == Parsed
    ensures IsUp(t.made) ==>
              var frames := Expected(t, printed, |t.calls|);
              Step(Exec(t.made), AddrRead(idx)).1
              == if idx < |frames| then FrameRead(YesReadDone, Some(frames[idx])) else FrameRead(ErrOutOfBound, None)
  {
    hide CallMade, ProgramsAnswer, Prints, Served, Exec, Expected, Outcome, IsUp;
    var n := |t.calls|;
    assert t.made[..n] == t.made;
    FramesArePrinted(programs, t, printed, n);
    VisibleFrames(t.made);
  }

  /* ---------- data requests ---------- */

  /** A record as llvm-symbolizer prints it, with the third line or in the older form without. */
  datatype Record = Record(data: DataRecord, withFile: bool)

  function AsRead(r: Record): DataRecord {
    if r.withFile then r.data else r.data.(file := "\n", line := 0)
  }

  predicate IsDataAnswered(call: PublicCall, c: Call) {
    call.CallDataSend? && c.DataSend? && c.reply.Some?
  }

  /** The child that answers the data request prints this record. */
  ghost predicate PrintsRecord(programs: Programs, b: Backend, name: string, offset: nat, r: Record) {
    && b.LlvmTool? && FitsData(r.data) && (r.withFile ==> Without(r.data.file, ':'))
    && programs.llvm(b.proc.answered, LlvmText("DATA", name, offset)) == Join(DataLines(r.data, r.withFile)) + "\n"
  }

  /** The session and the tool agree on whether there is one, and which. */
  ghost predicate Agrees(calls: seq<Call>, b: Backend) {
    && (IsUp(calls) <==> !b.NoTool?)
    && (IsUp(calls) ==> (UsesLlvm(calls) <==> b.LlvmTool?))
  }

  lemma AgreesStep(programs: Programs, calls: seq<Call>, b: Backend, call: PublicCall, c: Call, b': Backend)
    requires calls != [] && c == calls[|calls| - 1] && CallMade(programs, b, call, c, b')
    requires Agrees(calls[..|calls| - 1], b)
    ensures Agrees(calls, b')
  {
    hide LlvmStep, PoolStep, LlvmText, StripModuleName;
  }

  lemma {:induction false} ToolAgrees(programs: Programs, t: Trace, n: nat)
    requires IsTrace(programs, t) && n <= |t.calls|
    ensures Agrees(t.made[..n], t.backends[n])
  {
    hide CallMade, Agrees;
    if n == 0 {
      NothingUp();
    } else {
      ToolAgrees(programs, t, n - 1);
      assert t.made[..n][..n - 1] == t.made[..n - 1];
      AgreesStep(programs, t.made[..n], t.backends[n - 1], t.calls[n - 1], t.made[n - 1], t.backends[n]);
    }
  }

  lemma NothingUp()
    ensures Agrees([], NoTool)
  {
  }

  /** The text that answers a data request is read as the record printed for it. */
  lemma DataParses(programs: Programs, b: Backend, name: string, offset: nat, text: string, b': Backend, r: Record)
    requires ProgramsAnswer(programs) && PrintsRecord(programs, b, name, offset, r) && AllRead(b)
    requires Asks(programs, b, "DATA", name, offset, Some(text), b')
    requires NoEmptyRead(b) && NoEmptyRead(b') && |LlvmText("DATA", name, offset)| <= 0x7fff_ffff
    ensures ParseData(text) == AsRead(r)
  {
    hide RepliesAreWellFormed, LlvmStep, LlvmText, ParseData, DataLines;
    LlvmTextLength("DATA", name, offset);
    LlvmAnswer(programs.llvm, b.proc, LlvmText("DATA", name, offset), text, b'.proc);
    DataRoundTrip(r.data);
    DataWithoutFile(r.data);
  }

  /** The record printed for the last answered data request of the session. */
  function LastPrinted(t: Trace, printed: seq<Record>, n: nat): Option<DataRecord>
    requires n <= |t.calls| == |t.made| == |printed|
  {
    if n == 0 || InitSucceeds(t.made[n - 1]) then None
    else if IsDataAnswered(t.calls[n - 1], t.made[n - 1]) then Some(AsRead(printed[n - 1]))
    else LastPrinted(t, printed, n - 1)
  }

  lemma {:induction false} LastReplyIsPrinted(programs: Programs, t: Trace, printed: seq<Record>, n: nat)
    requires IsTrace(programs, t) && ProgramsAnswer(programs) && Served(t) && n <= |t.calls| == |printed|
    requires forall i :: 0 <= i < |t.calls| && IsDataAnswered(t.calls[i], t.made[i]) ==>
               PrintsRecord(programs, t.backends[i], t.calls[i].name, t.calls[i].offset, printed[i])
    ensures var reply := LastReply(t.made[..n]);
            LastPrinted(t, printed, n) == if reply.Some? then Some(ParseData(reply.value)) else None
  {
    hide ProgramsAnswer, PrintsRecord, AllRead, NoEmptyRead, ParseData, InitSucceeds, Asks, IsUp, UsesLlvm, LlvmText;
    if n > 0 {
      LastReplyIsPrinted(programs, t, printed, n - 1);
      NothingLeft(programs, t, n - 1);
      ToolAgrees(programs, t, n - 1);
      assert t.made[..n][..n - 1] == t.made[..n - 1];
      var b, call, c := t.backends[n - 1], t.calls[n - 1], t.made[n - 1];
      assert CallMade(programs, b, call, c, t.backends[n]);
      if IsDataAnswered(call, c) {
        LlvmAnswers(programs, b, call, c, t.backends[n]);
        DataParses(programs, b, call.name, call.offset, c.reply.value, t.backends[n], printed[n - 1]);
      }
    }
  }

  /** Only llvm-symbolizer answers data requests. */
  lemma LlvmAnswers(programs: Programs, b: Backend, call: PublicCall, c: Call, b': Backend)
    requires CallMade(programs, b, call, c, b') && IsDataAnswered(call, c)
    ensures b.LlvmTool? && Asks(programs, b, "DATA", call.name, call.offset, c.reply, b')
  {
    hide LlvmStep, PoolStep;
  }

  /**
   And data_read gives the record that the llvm-symbolizer of the session printed last, its two names gone
   once they were freed.
   */
  lemma CallerReadsTheRecordPrinted(programs: Programs, t: Trace, printed: seq<Record>)
    requires IsTrace(programs, t) && ProgramsAnswer(programs) && Served(t) && |t.calls| == |printed|
    requires forall i :: 0 <= i < |t.calls| && IsDataAnswered(t.calls[i], t.made[i]) ==>
               PrintsRecord(programs, t.backends[i], t.calls[i].name, t.calls[i].offset, printed[i])
    ensures IsUp(t.made) ==>
              Step(Exec(t.made), DataRead).1 == DataReadBack(YesReadDone, Some(
                match LastPrinted(t, printed, |t.calls|)
                case None => NO_DATA
                case Some(d) =>
                  if DataHeld(t.made) then Data(Some(d.name), Some(d.file), d.start, d.size, d.line)
                  else Data(None, None, d.start, d.size, d.line)))
  {
    hide CallMade, ProgramsAnswer, PrintsRecord, Served, Exec, LastPrinted, IsUp, ParseData, DataHeld, LastReply;
    assert t.made[..|t.calls|] == t.made;
    LastReplyIsPrinted(programs, t, printed, |t.calls|);
    DataAccount(t.made);
  }

  /* ---------- which requests are answered ---------- */

  /** How the processes of the tool stand with their budget. */
  ghost predicate SoundTool(b: Backend) {
    match b
    case NoTool => true
    case LlvmTool(s) => Runs.LatchedAtLimit(s) && s.restarts + Disconnected(s) == 1 + s.faults
    case PoolTool(s) => PoolRuns.AllSound(s.members)
  }

  /** The system calls that have failed for the process a request goes to. */
  function FaultsOf(b: Backend, name: string): nat {
    match b
    case NoTool => 0
    case LlvmTool(s) => s.faults
    case PoolTool(s) => PoolRuns.FaultsOf(s, name)
  }

  lemma LlvmFails(reply: Responder, s: Snap, text: string, result: Option<string>, t: Snap)
    requires LlvmStep(reply, s, text, result, t) && SoundTool(LlvmTool(s))
    ensures SoundTool(LlvmTool(t))
    ensures |text| < 16384 && result == None ==> t.faults >= 4
  {
    hide Delivered, CutShort;
    LlvmCommandWhole(text);
  }

  lemma AsksFails(programs: Programs, b: Backend, prefix: string, name: string, offset: nat, reply: Option<string>,
      b': Backend)
    requires Asks(programs, b, prefix, name, offset, reply, b') && SoundTool(b)
    ensures SoundTool(b')
    ensures !b.NoTool? && reply == None && (b.LlvmTool? ==> |LlvmText(prefix, name, offset)| < 16384) ==>
              FaultsOf(b', name) >= 4
  {
    hide LlvmStep, PoolStep, LlvmText, PoolRuns.FaultsOf, PoolRuns.AllSound;
    match b {
      case NoTool =>
      case LlvmTool(s) => LlvmFails(programs.llvm, s, LlvmText(prefix, name, offset), reply, b'.proc);
      case PoolTool(s) =>
        var r := PoolRuns.Request(name, offset);
        PoolRuns.StepKeepsSound(programs.addr2line, s, r, reply, b'.pool);
        PoolRuns.StepFails(programs.addr2line, s, r, reply, b'.pool);
    }
  }

  lemma CallKeepsSound(programs: Programs, b: Backend, call: PublicCall, c: Call, b': Backend)
    requires CallMade(programs, b, call, c, b') && SoundTool(b)
    ensures SoundTool(b')
  {
    hide Asks, SelectTool;
    match call {
      case CallAddrSend(name, offset) => AsksFails(programs, b, "CODE", name, offset, c.reply, b');
      case CallDataSend(name, offset) =>
        if !b.PoolTool? { AsksFails(programs, b, "DATA", name, offset, c.reply, b'); }
      case _ =>
    }
  }

  lemma {:induction false} ToolIsSound(programs: Programs, t: Trace, n: nat)
    requires IsTrace(programs, t) && n <= |t.calls|
    ensures SoundTool(t.backends[n])
  {
    hide CallMade;
    if n > 0 {
      ToolIsSound(programs, t, n - 1);
      CallKeepsSound(programs, t.backends[n - 1], t.calls[n - 1], t.made[n - 1], t.backends[n]);
    }
  }

  /**
   An address request on a session that is up is answered unless its command is too long for
   llvm-symbolizer, or four system calls have failed for the process it goes to.
   */
  lemma AnswersUnlessSystemFails(programs: Programs, t: Trace, i: nat)
    requires IsTrace(programs, t) && i < |t.calls| && t.calls[i].CallAddrSend? && IsUp(t.made[..i])
    requires t.backends[i].LlvmTool? ==> |LlvmText("CODE", t.calls[i].name, t.calls[i].offset)| < 16384
    requires FaultsOf(t.backends[i + 1], t.calls[i].name) < 4
    ensures t.made[i].AddrSend? && t.made[i].reply.Some?
  {
    hide Asks, SoundTool, FaultsOf, LlvmText, IsUp, UsesLlvm;
    ToolAgrees(programs, t, i);
    ToolIsSound(programs, t, i);
    assert CallMade(programs, t.backends[i], t.calls[i], t.made[i], t.backends[i + 1]);
    AsksFails(programs, t.backends[i], "CODE", t.calls[i].name, t.calls[i].offset, t.made[i].reply, t.backends[i + 1]);
  }

  /** So no request for a module with a path of ordinary length fails but for the system. */
  lemma PathsAreAnswered(programs: Programs, t: Trace, i: nat)
    requires IsTrace(programs, t) && i < |t.calls| && t.calls[i].CallAddrSend? && IsUp(t.made[..i])
    requires |t.calls[i].name| <= 4096 && t.calls[i].offset < 0x1_0000_0000
    requires FaultsOf(t.backends[i + 1], t.calls[i].name) < 4
    ensures t.made[i].AddrSend? && t.made[i].reply.Some?
  {
    hide IsTrace, FaultsOf, IsUp;
    PathFits("CODE", t.calls[i].name, t.calls[i].offset);
    AnswersUnlessSystemFails(programs, t, i);
  }
}
