/**
 Whole runs of one process object: any mix of SendCommand, Restart and Kill, for any outcome of
 every system call.
 */
module Runs {
  import opened Bytes
  import opened Framing
  import opened Descriptors
  import opened Process

  datatype Operation = Send(command: string) | Restart | Kill

  /** `check` is what the start-up check of a public restart said, if it came to that. */
  datatype Event =
    | Sent(command: string, result: Option<string>)
    | Restarted(ok: bool, check: Option<bool>)
    | Killed(ok: bool)

  /** states[i] and states[i + 1] surround events[i]. */
  datatype Run = Run(states: seq<Snap>, events: seq<Event>) {
    function Last(): Snap
      requires states != []
    {
      states[|states| - 1]
    }
  }

  /**
   What each event does. The public Restart is not counted against the budget, and works even after the
   latch; it connects unless a system call fails, and reports what the start-up check says. Kill takes a pid,
   and cuts the connection if it succeeds.
   */
  ghost predicate EventStep(kind: Kind, reply: Responder, s: Snap, e: Event, t: Snap) {
    match e
    case Sent(command, result) => CallStep(kind, reply, s, command, result, t)
    case Restarted(ok, check) =>
      && t == s.(starts := s.starts + 1, unread := [], connected := t.connected, hasPid := t.hasPid,
                 faults := s.faults + Disconnected(t))
      && (t.connected <==> check.Some?) && (ok <==> check == Some(true)) && (ok ==> t.hasPid)
      && (!ok && !s.hasPid ==> !t.hasPid)
    case Killed(ok) =>
      && (ok ==> s.hasPid)
      && t == if ok then s.(connected := false, hasPid := false, unread := []) else s
  }

  ghost predicate IsRun(kind: Kind, reply: Responder, run: Run) {
    && |run.states| == |run.events| + 1
    && forall i :: 0 <= i < |run.events| ==> EventStep(kind, reply, run.states[i], run.events[i], run.states[i + 1])
  }

  predicate Records(operations: seq<Operation>, events: seq<Event>) {
    |events| <= |operations| &&
    forall i :: 0 <= i < |events| ==>
      match operations[i]
      case Send(command) => events[i].Sent? && events[i].command == command
      case Restart => events[i].Restarted?
      case Kill => events[i].Killed?
  }

  method Perform(p: SymbolizerProcess, operation: Operation) returns (ghost event: Event, exited: bool)
    requires p.Valid() && p.ChildAnswers()
    modifies p, p.sys
    ensures exited <==> p.kind == Addr2Line && p.sys.emptyReads != old(p.sys.emptyReads)
    ensures (exited ==> operation.Send?) && p.OwnPids()
    ensures !exited ==>
              && p.Valid() && Records([operation], [event])
              && EventStep(p.kind, p.sys.reply, old(p.Snapshot()), event, p.Snapshot())
  {
    hide CallStep, SymbolizerProcess.Valid, SymbolizerProcess.Snapshot, SymbolizerProcess.OwnPids;
    exited := false;
    match operation {
      case Send(command) =>
        var result;
        result, exited := p.SendCommand(command);
        event := Sent(command, result);
      case Restart =>
        event := PerformRestart(p);
      case Kill =>
        event := PerformKill(p);
    }
  }

  method PerformRestart(p: SymbolizerProcess) returns (ghost event: Event)
    requires p.Valid()
    modifies p, p.sys
    ensures p.Valid() && p.OwnPids() && event.Restarted? && p.sys.emptyReads == old(p.sys.emptyReads)
    ensures EventStep(p.kind, p.sys.reply, old(p.Snapshot()), event, p.Snapshot())
  {
    hide SymbolizerProcess.Channel, SymbolizerProcess.OwnPids, SymbolizerProcess.Unread;
    var ok := p.Restart();
    event := Restarted(ok, if p.sys.open == p.others then None else Some(p.sys.waits[|p.sys.waits| - 1].yes));
  }

  method PerformKill(p: SymbolizerProcess) returns (ghost event: Event)
    requires p.Valid()
    modifies p, p.sys
    ensures p.Valid() && p.OwnPids() && event.Killed? && p.sys.emptyReads == old(p.sys.emptyReads)
    ensures EventStep(p.kind, p.sys.reply, old(p.Snapshot()), event, p.Snapshot())
  {
    hide SymbolizerProcess.Channel, SymbolizerProcess.Unread;
    var ok := p.Kill();
    event := Killed(ok);
  }

  /**
   Any sequence of operations on a process object is a run, to its end unless a read for addr2line
   comes back empty, when the program ends. Descriptors are conserved: those the object opened and has
   not closed are among the two in its fields.
   */
  method Operate(p: SymbolizerProcess, operations: seq<Operation>) returns (ghost run: Run, exited: bool)
    requires p.Valid() && p.ChildAnswers()
    modifies p, p.sys
    ensures IsRun(p.kind, p.sys.reply, run) && Records(operations, run.events) && p.OwnPids()
    ensures run.states[0] == old(p.Snapshot())
    ensures exited <==> p.kind == Addr2Line && p.sys.emptyReads != old(p.sys.emptyReads)
    ensures !exited ==>
              && p.Valid() && run.Last() == p.Snapshot() && |run.events| == |operations|
              && p.others <= p.sys.open && p.sys.open - p.others <= {p.inputFd, p.outputFd}
              && |p.sys.open - p.others| <= 2
  {
    hide EventStep;
    run, exited := Run([p.Snapshot()], []), false;
    for i := 0 to |operations|
      invariant p.Valid() && IsRun(p.kind, p.sys.reply, run) && Records(operations, run.events)
      invariant run.states[0] == old(p.Snapshot()) && run.Last() == p.Snapshot() && |run.events| == i
      invariant !exited && (p.kind == Addr2Line ==> p.sys.emptyReads == old(p.sys.emptyReads))
    {
      ghost var event;
      event, exited := Perform(p, operations[i]);
      if exited {
        return;
      }
      assert Records([operations[i]], [event]);
      run := Run(run.states + [p.Snapshot()], run.events + [event]);
    }
    p.HoldsAtMostTwo();
  }

  lemma DropLast(kind: Kind, reply: Responder, run: Run) returns (init: Run)
    requires IsRun(kind, reply, run) && run.events != []
    ensures IsRun(kind, reply, init)
    ensures init.states == run.states[..|run.states| - 1] && init.events == run.events[..|run.events| - 1]
    ensures init.states != [] && run.states != [] && init.states[0] == run.states[0]
    ensures EventStep(kind, reply, init.Last(), run.events[|run.events| - 1], run.Last())
  {
    var n := |run.events| - 1;
    init := Run(run.states[..n + 1], run.events[..n]);
  }

  /* ---------- restarts and the latch ---------- */

  function Restarts(events: seq<Event>): nat {
    if events == [] then 0 else Restarts(events[..|events| - 1]) + if events[|events| - 1].Restarted? then 1 else 0
  }

  function Successes(events: seq<Event>): nat {
    if events == [] then 0
    else
      var e := events[|events| - 1];
      Successes(events[..|events| - 1]) + if e.Sent? && e.result.Some? then 1 else 0
  }

  /**
   Over a whole run the calls make at most five restarts of their own; the latch is set exactly when
   they are used up; each attempt succeeds or costs one of them.
   */
  lemma {:induction false} RestartBudget(kind: Kind, reply: Responder, run: Run)
    requires IsRun(kind, reply, run) && run.states[0] == FRESH
    ensures var t := run.Last();
            && t.starts - Restarts(run.events) == t.restarts <= 5
            && (t.latched <==> t.restarts == 5)
            && t.attempts == Successes(run.events) + t.restarts
    decreases |run.events|
  {
    hide Delivered;
    if run.events != [] {
      var init := DropLast(kind, reply, run);
      RestartBudget(kind, reply, init);
    }
  }

  /** The public restarts among the first n events that met an object with no connection. */
  function Mended(run: Run, n: nat): nat
    requires n <= |run.events| && n <= |run.states|
  {
    if n == 0 then 0
    else Mended(run, n - 1) + if run.events[n - 1].Restarted? && !run.states[n - 1].connected then 1 else 0
  }

  /** The kills among the first n events that cut a connection. */
  function CutOff(run: Run, n: nat): nat
    requires n <= |run.events| && n <= |run.states|
  {
    if n == 0 then 0
    else CutOff(run, n - 1) + if run.events[n - 1] == Killed(true) && run.states[n - 1].connected then 1 else 0
  }

  /**
   What the restarts are spent on, exactly: the first start, a system call that failed, or a connection
   that was cut; less the public restarts that mended a connection, and one more while there is none.
   */
  lemma {:induction false} FaultAccount(kind: Kind, reply: Responder, run: Run, n: nat)
    requires IsRun(kind, reply, run) && run.states[0] == FRESH && n <= |run.events|
    ensures var t := run.states[n];
            t.restarts + Disconnected(t) + Mended(run, n) == 1 + t.faults + CutOff(run, n)
  {
    hide Delivered, ReachedEndOfOutput;
    if n > 0 {
      FaultAccount(kind, reply, run, n - 1);
      assert EventStep(kind, reply, run.states[n - 1], run.events[n - 1], run.states[n]);
    }
  }

  /** Unless four system calls fail or connections are cut, every call of a run returns text. */
  lemma {:induction false} AnswersUnlessSystemFails(kind: Kind, reply: Responder, run: Run, i: nat)
    requires IsRun(kind, reply, run) && run.states[0] == FRESH && i < |run.events| && run.events[i].Sent?
    requires run.Last().faults + CutOff(run, |run.events|) < 4
    ensures run.events[i].result.Some?
  {
    hide Delivered;
    var n := |run.events|;
    FaultAccount(kind, reply, run, n);
    RestartBudget(kind, reply, run);
    if run.events[i].result == None {
      assert EventStep(kind, reply, run.states[i], run.events[i], run.states[i + 1]);
      assert run.states[i + 1].latched;
      LatchIsFinal(kind, reply, run, i + 1, n);
    }
  }

  /** Four are enough: the first four restarts fail, and the fifth comes too late. */
  lemma FourFaultsLatch(kind: Kind, reply: Responder)
    ensures var t := FRESH.(restarts := 5, latched := true, attempts := 5, starts := 5, connected := true,
                            hasPid := true, faults := 4);
            IsRun(kind, reply, Run([FRESH, t], [Sent("c", None)]))
  {
    hide EventStep;
    FourFaults(kind, reply, "c");
  }

  lemma FourFaults(kind: Kind, reply: Responder, command: string)
    ensures var t := FRESH.(restarts := 5, latched := true, attempts := 5, starts := 5, connected := true,
                            hasPid := true, faults := 4);
            EventStep(kind, reply, FRESH, Sent(command, None), t)
  {
    hide Delivered, CutShort, Due;
  }

  lemma LatchedEvent(kind: Kind, reply: Responder, s: Snap, e: Event, t: Snap)
    requires EventStep(kind, reply, s, e, t) && s.latched
    ensures t.latched && t.attempts == s.attempts && t.answered == s.answered && t.restarts == s.restarts
    ensures t.starts == s.starts + if e.Restarted? then 1 else 0
    ensures e.Sent? ==> e.result == None
  {
  }

  /** Once latched, a process is never written to nor started by a call again, and every call returns null. */
  lemma {:induction false} LatchIsFinal(kind: Kind, reply: Responder, run: Run, i: nat, j: nat)
    requires IsRun(kind, reply, run) && i <= j < |run.states| && run.states[i].latched
    ensures var s, t := run.states[i], run.states[j];
            && t.latched && t.attempts == s.attempts && t.answered == s.answered && t.restarts == s.restarts
            && t.starts == s.starts + Restarts(run.events[i..j])
    ensures j > i && run.events[j - 1].Sent? ==> run.events[j - 1].result == None
    decreases j - i
  {
    hide EventStep;
    if j > i {
      LatchIsFinal(kind, reply, run, i, j - 1);
      LatchedEvent(kind, reply, run.states[j - 1], run.events[j - 1], run.states[j]);
      assert run.events[i..j][..j - i - 1] == run.events[i..j - 1];
    }
  }

  /* ---------- descriptors left open ---------- */

  /**
   A process whose first start-up check fails has no pid, so that Kill does not even ask the system and
   leaves its two descriptors open.
   */
  method Strand(kind: Kind, sys: System) returns (p: SymbolizerProcess, ok: bool)
    requires INVALID_FD !in sys.open && sys.answered == [] && sys.faults == sys.emptyReads == 0
    requires sys.waits == [] && sys.strikes == []
    modifies sys
    ensures !ok && sys.faults == 0 ==>
              && p.sys == sys && sys.strikes == old(sys.strikes)
              && |sys.open - p.others| == 2 && p.others == old(sys.open) && p.Snapshot().connected
  {
    p := new SymbolizerProcess(kind, sys);
    ok := p.Restart();
    var killed := p.Kill();
    if !ok && sys.faults == 0 {
      assert sys.open - p.others == {p.inputFd, p.outputFd};
    }
  }

  /**
   Such a state, and one with the pid of a child that is gone: the child started well and died, and its
   successor failed the start-up check.
   */
  lemma StrandedProcesses(kind: Kind, reply: Responder)
    ensures var s := FRESH.(starts := 1, connected := true);
            && IsRun(kind, reply, Run([FRESH, s, s], [Restarted(false, Some(false)), Killed(false)]))
            && forall t :: !EventStep(kind, reply, s, Killed(true), t)
    ensures var s := FRESH.(starts := 1, connected := true, hasPid := true);
            var t := s.(starts := 2);
            IsRun(kind, reply, Run([FRESH, s, t], [Restarted(true, Some(true)), Restarted(false, Some(false))]))
  {
    hide CallStep;
  }

  /* ---------- request and reply ---------- */

  predicate Answered(e: Event) {
    e.Sent? && e.result.Some? && e.command != []
  }

  /** The commands of the calls that returned something, in order. */
  function Served(events: seq<Event>): seq<string> {
    if events == [] then []
    else
      var e := events[|events| - 1];
      Served(events[..|events| - 1]) + if Answered(e) then [e.command] else []
  }

  /** The k-th text returned is the answer to the k-th command received, given those before it. */
  ghost predicate InStep(kind: Kind, reply: Responder, events: seq<Event>) {
    events == [] ||
    var init, e := events[..|events| - 1], events[|events| - 1];
    && InStep(kind, reply, init)
    && (e.Sent? && e.result.Some? ==>
          Answered(e) && e.result.value == Answer(kind, reply(Served(init), e.command)))
  }

  /** With nothing left over, a call returns its answer exactly when none of its reads came back empty. */
  lemma {:induction false} CleanCall(kind: Kind, reply: Responder, s: Snap, command: string, text: string, t: Snap)
    requires RepliesAreWellFormed(kind, reply) && s.unread == []
    requires CallStep(kind, reply, s, command, Some(text), t)
    ensures t.emptyReads == s.emptyReads <==> command != [] && text == Answer(kind, reply(s.answered, command))
    ensures t.emptyReads == s.emptyReads ==> t.unread == []
    ensures t.emptyReads >= s.emptyReads
  {
    hide WellFormedReply, StopsOnlyAtEnd, Answer;
    var due := Due(reply, s.answered, command);
    assert text + Closing(kind) + t.unread == due == [] + due;
    if command == [] {
      assert |text + Closing(kind) + t.unread| == 0;
    } else {
      AnswerOf(kind, due);
      if kind == Llvm {
        WellFormedFraming(kind, due);
        assert text + "" == text && Answer(kind, due) + "" == Answer(kind, due);
        StopsExactly(kind, due, text, t.unread);
      } else {
        assert (text + TERMINATOR)[..|text|] == text;
        assert (Answer(kind, due) + TERMINATOR)[..|due| - |TERMINATOR|] == Answer(kind, due);
      }
    }
  }

  /** The children received exactly the commands of the calls that returned something. */
  lemma {:induction false} ServedCommands(kind: Kind, reply: Responder, run: Run)
    requires IsRun(kind, reply, run)
    ensures run.Last().answered == run.states[0].answered + Served(run.events)
    decreases |run.events|
  {
    hide Delivered;
    if run.events != [] {
      var init := DropLast(kind, reply, run);
      ServedCommands(kind, reply, init);
    }
  }

  /** One more event, after a run that is in step and has left nothing unread. */
  lemma {:induction false} NextInStep(kind: Kind, reply: Responder, s: Snap, e: Event, t: Snap)
    requires RepliesAreWellFormed(kind, reply) && EventStep(kind, reply, s, e, t)
    ensures t.emptyReads >= s.emptyReads
    ensures s.unread == [] ==>
              (t.emptyReads == s.emptyReads
          <==> (e.Sent? && e.result.Some? ==>
                  Answered(e) && e.result.value == Answer(kind, reply(s.answered, e.command))))
    ensures s.unread == [] && t.emptyReads == s.emptyReads ==> t.unread == []
  {
    hide RepliesAreWellFormed, Answer, Delivered, ReachedEndOfOutput;
    if s.unread == [] && e.Sent? && e.result.Some? {
      CleanCall(kind, reply, s, e.command, e.result.value, t);
    }
  }

  /**
   Request and reply over any run: every text returned answers its own command if and only if no read
   came back empty. While that holds nothing of a reply is left in the pipe.
   */
  lemma {:induction false} Synchrony(kind: Kind, reply: Responder, run: Run)
    requires IsRun(kind, reply, run) && run.states[0] == FRESH && RepliesAreWellFormed(kind, reply)
    ensures InStep(kind, reply, run.events) <==> run.Last().emptyReads == 0
    ensures run.Last().emptyReads == 0 ==> run.Last().unread == []
    decreases |run.events|
  {
    hide IsRun, EventStep, RepliesAreWellFormed, Answer, Answered, Served;
    if run.events != [] {
      var init := DropLast(kind, reply, run);
      var e := run.events[|run.events| - 1];
      Synchrony(kind, reply, init);
      ServedCommands(kind, reply, init);
      assert run.events == init.events + [e];
      assert init.Last().answered == Served(init.events);
      NextInStep(kind, reply, init.Last(), e, run.Last());
    } else {
      RunsStartFresh(kind, reply, run);
    }
  }

  lemma RunsStartFresh(kind: Kind, reply: Responder, run: Run)
    requires IsRun(kind, reply, run) && run.events == []
    ensures run.Last() == run.states[0]
  {
  }

  /** addr2line is always in step: a read that comes back empty ends the program. */
  lemma {:induction false} Addr2LineInStep(reply: Responder, run: Run)
    requires IsRun(Addr2Line, reply, run) && run.states[0] == FRESH && RepliesAreWellFormed(Addr2Line, reply)
    ensures InStep(Addr2Line, reply, run.events) && run.Last().emptyReads == 0
    decreases |run.events|
  {
    hide RepliesAreWellFormed, InStep, Delivered;
    Synchrony(Addr2Line, reply, run);
    if run.events != [] {
      var init := DropLast(Addr2Line, reply, run);
      Addr2LineInStep(reply, init);
    }
  }

  /* ---------- when reads come back empty ---------- */

  /** All text returned, each with the mark that was cut off it. */
  function Received(kind: Kind, events: seq<Event>): string {
    if events == [] then []
    else
      var e := events[|events| - 1];
      Received(kind, events[..|events| - 1]) + if e.Sent? && e.result.Some? then e.result.value + Closing(kind) else []
  }

  /** All the children wrote for the commands they received, the first of them after `before`. */
  function Owed(reply: Responder, before: seq<string>, events: seq<Event>): string {
    if events == [] then []
    else
      var init, e := events[..|events| - 1], events[|events| - 1];
      Owed(reply, before, init) + if Answered(e) then reply(before + Served(init), e.command) else []
  }

  /**
   While the same child is kept, no character of its replies is lost, repeated or moved: a reply cut
   short continues in the text of the next call.
   */
  lemma {:induction false} Conservation(kind: Kind, reply: Responder, run: Run)
    requires IsRun(kind, reply, run)
    requires LatchedAtLimit(run.states[0]) && forall i :: 0 <= i < |run.events| ==> run.events[i] != Killed(true)
    ensures LatchedAtLimit(run.Last()) && run.states[0].starts <= run.Last().starts
    ensures var s, t := run.states[0], run.Last();
            s.starts == t.starts ==>
              Received(kind, run.events) + t.unread == s.unread + Owed(reply, s.answered, run.events)
    decreases |run.events|
  {
    hide Delivered, CutShort, RepliesAreWellFormed;
    if run.events != [] {
      var init := DropLast(kind, reply, run);
      var n := |run.events| - 1;
      assert forall i :: 0 <= i < n ==> run.events[i] == init.events[i];
      Conservation(kind, reply, init);
      ServedCommands(kind, reply, init);
      if run.states[0].starts == run.Last().starts {
        CallConserves(kind, reply, init.Last(), run.events[n], run.Last(), Received(kind, init.events),
            run.states[0].unread, Owed(reply, run.states[0].answered, init.events));
      }
    }
  }

  /** Every process object is in such a state between calls. */
  predicate LatchedAtLimit(s: Snap) {
    s.latched <==> s.restarts == MAX_TIMES_RESTARTED
  }

  lemma CallConserves(kind: Kind, reply: Responder, s: Snap, e: Event, t: Snap, received: string, unread: string,
      owed: string)
    requires EventStep(kind, reply, s, e, t) && e != Killed(true) && t.starts == s.starts && LatchedAtLimit(s)
    requires received + s.unread == unread + owed
    ensures received + (if e.Sent? && e.result.Some? then e.result.value + Closing(kind) else []) + t.unread
         == unread + (owed + if Answered(e) then reply(s.answered, e.command) else [])
  {
    if e.Killed? || e.result == None {
      assert t == s && received + [] == received && owed + [] == owed;
    } else {
      var due := Due(reply, s.answered, e.command);
      calc {
        received + (e.result.value + Closing(kind)) + t.unread;
        received + (e.result.value + Closing(kind) + t.unread);
        received + (s.unread + due);
        (received + s.unread) + due;
        unread + (owed + due);
      }
    }
  }

  /** What a child writes that answers every command with one frame named after it. */
  function Echo(command: string): string {
    command + "\na.c:1:1\n\n"
  }

  lemma EchoParts()
    ensures Delivered(Llvm, [], Echo("f"), "f\n", "a.c:1:1\n\n")
    ensures Delivered(Llvm, "a.c:1:1\n\n", Echo("g"), "a.c:1:1\n\n", Echo("g"))
    ensures CutShort(Llvm, "f\n") && !CutShort(Llvm, "a.c:1:1\n\n")
    ensures Echo("g") != "a.c:1:1\n\n"
  {
    assert Echo("g")[0] == 'g';
  }

  /** Two calls of llvm-symbolizer out of step: a reply cut short by an empty read is finished by the next call. */
  lemma {:induction false} ShiftedReplies()
    ensures var reply: Responder := (h, c) => Echo(c);
            var s := FRESH.(restarts := 1, attempts := 2, starts := 1, connected := true, hasPid := true,
                            emptyReads := 1, unread := "a.c:1:1\n\n", answered := ["f"]);
            var t := s.(attempts := 3, unread := Echo("g"), answered := ["f", "g"]);
            && IsRun(Llvm, reply, Run([FRESH, s, t], [Sent("f", Some("f\n")), Sent("g", Some("a.c:1:1\n\n"))]))
            && "a.c:1:1\n\n" != Answer(Llvm, reply(["f"], "g"))
  {
    hide CutShort, Echo, Delivered;
    EchoParts();
  }
}
