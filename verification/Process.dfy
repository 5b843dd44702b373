/**
 SymbolizerProcess and its two subclasses, told apart by `kind`: the restart state machine, the
 descriptors it holds and the request/reply protocol over its pipes. One object in isolation.
 */
module Process {
  import opened Bytes
  import opened Framing
  import opened Descriptors
  import Sets

  const MAX_TIMES_RESTARTED: nat := 5
  const READ_ROOM: nat := 1024

  /**
   A process between two calls. `connected`: it holds the two ends of open pipes; `hasPid`: it takes a
   child for its own. `faults` and `emptyReads` count what went wrong in the system. `unread` is what its
   child has written into the open pipe and nobody has read, `answered` the commands its children have
   received in full.
   */
  datatype Snap = Snap(restarts: nat, latched: bool, attempts: nat, starts: nat, connected: bool, hasPid: bool,
                       faults: nat, emptyReads: nat, unread: string, answered: seq<string>)

  const FRESH := Snap(0, false, 0, 0, false, false, 0, 0, [], [])

  function Disconnected(s: Snap): nat {
    if s.connected then 0 else 1
  }

  /** What a child writes for each command, given the commands before it. */
  type Responder = (seq<string>, string) -> string

  /** The child answers each command it gets in full with one well-formed reply. */
  ghost predicate RepliesAreWellFormed(kind: Kind, reply: Responder) {
    forall h: seq<string>, c: string {:trigger reply(h, c)} :: c != [] ==> WellFormedReply(kind, reply(h, c))
  }

  /** What the child writes because of this command. */
  function Due(reply: Responder, answered: seq<string>, command: string): string {
    if command == [] then [] else reply(answered, command)
  }

  /** Nothing is lost on the way: the text returned and what is left are what was unread and what was due. */
  predicate Delivered(kind: Kind, unread: string, due: string, text: string, left: string) {
    text + Closing(kind) + left == unread + due && (kind == Addr2Line ==> left == [])
  }

  /** Text that does not reach the end of output, which only llvm-symbolizer lets pass. */
  predicate CutShort(kind: Kind, text: string) {
    kind == Llvm && !ReachedEndOfOutput(Llvm, text)
  }

  /**
   The contract of one SendCommand. A latched process does nothing and returns null. Otherwise the
   call spends attempts and restarts, one restart for each failed attempt, returns null exactly
   when the budget is used up and the latch set, and else text from the child that got the command.
   Every restart has its cause: it was down, or a system call failed. The text is cut short exactly
   when a read returned nothing.
   */
  ghost predicate CallStep(kind: Kind, reply: Responder, s: Snap, command: string, result: Option<string>, t: Snap) {
    if s.latched then t == s && result == None
    else
      && s.restarts <= t.restarts <= MAX_TIMES_RESTARTED
      && t.starts - s.starts == t.restarts - s.restarts
      && t.attempts - s.attempts == t.restarts - s.restarts + (if result.Some? then 1 else 0)
      && (t.latched <==> t.restarts == MAX_TIMES_RESTARTED)
      && (result == None <==> t.latched)
      && Disconnected(s) + (t.faults - s.faults) == (t.restarts - s.restarts) + Disconnected(t)
      && (t.restarts == s.restarts ==> t.connected == s.connected && t.hasPid == s.hasPid)
      && t.emptyReads == s.emptyReads + (if result.Some? && CutShort(kind, result.value) then 1 else 0)
      && t.answered == s.answered + (if result.Some? && command != [] then [command] else [])
      && (result == None ==> t.unread == [])
      && (result.Some? ==>
            && (command != [] ==> t.connected)
            && Delivered(kind, if t.restarts > s.restarts then [] else s.unread, Due(reply, s.answered, command),
                  result.value, t.unread))
  }

  class SymbolizerProcess {
    const kind: Kind
    const sys: System
    var activePid: int
    var inputFd: int
    var outputFd: int
    var buffer: string
    var timesRestarted: nat
    var failedToStart: bool
    var reportedInvalidPath: bool

    // The descriptors open for other purposes.
    ghost const others: set<int>
    // Calls of SendCommandImpl and of Restart, and what the reads of the last reply returned.
    ghost var attempts: nat
    ghost var starts: nat
    ghost var pieces: seq<string>

    /**
     The descriptors this object opened and has not closed are none, or its two. The numbers in the
     fields may be stale, but then they name nothing that is open.
     */
    ghost predicate Channel()
      reads `inputFd, `outputFd, sys`open, sys`ends, sys`childStdin, sys`childStdout
    {
      && INVALID_FD !in others && inputFd !in others && outputFd !in others
      && (inputFd == INVALID_FD <==> outputFd == INVALID_FD)
      && (sys.open == others || (inputFd != INVALID_FD && sys.open == others + {inputFd, outputFd}))
      && (sys.open != others ==> sys.ReadsFromChild(inputFd) && sys.WritesToChild(outputFd))
    }

    /** Of what is open the object has at most two descriptors to answer for. */
    lemma HoldsAtMostTwo()
      requires Channel()
      ensures others <= sys.open && sys.open - others <= {inputFd, outputFd} && |sys.open - others| <= 2
    {
      Sets.SubsetSize(sys.open - others, {inputFd, outputFd});
    }

    /** What is left of earlier replies in an open pipe. */
    ghost function Unread(): string
      reads sys`open, sys`pending
    {
      if sys.open == others then [] else sys.pending
    }

    /** Only llvm-symbolizer may leave something behind, and no NUL. */
    ghost predicate Quiet()
      reads sys`open, sys`pending
    {
      Without(Unread(), NUL) && (kind == Addr2Line ==> Unread() == [])
    }

    ghost predicate ChildAnswers() {
      RepliesAreWellFormed(kind, sys.reply)
    }

    /** The object takes no process for its own, and asks about none or kills any, that it did not fork. */
    ghost predicate OwnPids()
      reads `activePid, sys`forked, sys`waits, sys`strikes
    {
      && (activePid == -1 || (activePid > 0 && activePid in sys.forked))
      && (forall i :: 0 <= i < |sys.waits| ==> sys.waits[i].pid in sys.forked)
      && (forall i :: 0 <= i < |sys.strikes| ==> sys.strikes[i].pid in sys.forked)
    }

    ghost predicate Valid()
      reads this, sys
    {
      && Channel() && Quiet() && OwnPids()
      && timesRestarted <= MAX_TIMES_RESTARTED
      && (failedToStart <==> timesRestarted == MAX_TIMES_RESTARTED)
    }

    ghost function Snapshot(): Snap
      reads this, sys
    {
      Snap(timesRestarted, failedToStart, attempts, starts, sys.open != others, activePid != -1, sys.faults,
           sys.emptyReads, Unread(), sys.answered)
    }

    constructor (kind: Kind, sys: System)
      requires INVALID_FD !in sys.open && sys.answered == [] && sys.faults == sys.emptyReads == 0
      requires sys.waits == [] && sys.strikes == []
      ensures Valid() && this.kind == kind && this.sys == sys && others == sys.open
      ensures Snapshot() == FRESH
    {
      this.kind, this.sys, others := kind, sys, sys.open;
      activePid, inputFd, outputFd, buffer := -1, INVALID_FD, INVALID_FD, [];
      timesRestarted, failedToStart, reportedInvalidPath := 0, false, false;
      attempts, starts, pieces := 0, 0, [];
    }

    /* ---------- the reply ---------- */

    /**
     SymbolizerProcess::ReadFromSymbolizer. The result is true even when a read returned nothing,
     which is exactly when the text does not reach the end of output.
     */
    method ReadUntilEnd() returns (ret: bool)
      modifies `buffer, `pieces, sys`pending, sys`rooms, sys`emptyReads
      ensures ret
      ensures old(sys.rooms) <= sys.rooms && forall i :: |old(sys.rooms)| <= i < |sys.rooms| ==> sys.rooms[i] >= 1024
      ensures old(sys.pending) == Flatten(pieces) + sys.pending
      ensures buffer == ReadLoop(kind, [], pieces) + [NUL] && ReadLoop(kind, [], pieces) == Flatten(pieces)
      ensures sys.emptyReads == old(sys.emptyReads) + if ReachedEndOfOutput(kind, Flatten(pieces)) then 0 else 1
      ensures StopsOnlyAtEnd(kind, old(sys.pending)) ==>
                (sys.pending == [] <==> sys.emptyReads == old(sys.emptyReads))
      ensures !sys.ReadsFromChild(inputFd) ==> pieces == []
    {
      hide ReadLoop, Unfinished, ReachedEndOfOutput, StopsOnlyAtEnd, Flatten;
      NothingRead(kind);
      ghost var all := sys.pending;
      buffer, pieces := [], [];
      ret := true;
      while true
        invariant Unfinished(kind, [], pieces) && buffer == Flatten(pieces)
        invariant all == buffer + sys.pending && sys.emptyReads == old(sys.emptyReads)
        invariant old(sys.rooms) <= sys.rooms
        invariant forall i :: |old(sys.rooms)| <= i < |sys.rooms| ==> sys.rooms[i] >= 1024
        invariant !sys.ReadsFromChild(inputFd) ==> pieces == []
        decreases |sys.pending|
      {
        var capacity: nat := *;
        var room := if capacity > READ_ROOM then capacity else READ_ROOM;
        var chunk := sys.Read(inputFd, room);
        ReadMore(kind, pieces, chunk);
        buffer := buffer + chunk;
        if chunk == [] {
          // The assignment ret = false of the source goes to an inner variable.
          break;
        }
        pieces := pieces + [chunk];
        if ReachedEndOfOutput(kind, buffer) {
          break;
        }
      }
      assert buffer == Flatten(pieces);
      if StopsOnlyAtEnd(kind, all) {
        StopsExactly(kind, all, buffer, sys.pending);
      }
      buffer := buffer + [NUL];
    }

    /**
     ReadFromSymbolizer with the override of Addr2LineProcess, which cuts the terminator off. A read
     that returned nothing goes unnoticed by llvm-symbolizer; for addr2line the CHECK then ends the program.
     */
    method ReadFromSymbolizer() returns (ret: bool, exited: bool)
      requires Channel() && Without(Unread(), NUL)
      requires kind == Addr2Line ==> Unread() == [] || WellFormedReply(kind, Unread())
      modifies `buffer, `pieces, sys`pending, sys`rooms, sys`emptyReads
      ensures ret
      ensures exited <==> kind == Addr2Line && sys.emptyReads != old(sys.emptyReads)
      ensures !exited ==>
                && buffer != [] && buffer[|buffer| - 1] == NUL
                && Without(buffer[..|buffer| - 1], NUL)
                && buffer[..|buffer| - 1] + Closing(kind) + Unread() == old(Unread())
                && (kind == Addr2Line ==> Unread() == [])
                && sys.emptyReads
                   == old(sys.emptyReads) + if CutShort(kind, buffer[..|buffer| - 1]) then 1 else 0
    {
      hide WellFormedReply, StopsOnlyAtEnd, FindFrom, CStr, Flatten, ReadLoop, ReachedEndOfOutput;
      ghost var reply := Unread();
      exited := false;
      ret := ReadUntilEnd();
      NothingRead(kind);
      ghost var text := Flatten(pieces);
      assert reply == text + Unread();
      WithoutParts(text, Unread(), NUL);
      if kind == Addr2Line {
        if !ret {
          return;
        }
        CStrOf(buffer, text, []);
        assert buffer == text + [NUL] + [];
        var garbage := FindFrom(CStr(buffer), TERMINATOR, 1);
        CutExactly(reply, text, Unread());
        if garbage > |CStr(buffer)| {
          // The CHECK of the source fails here.
          exited := true;
          return;
        }
        buffer := buffer[..garbage];
        assert buffer == text[..garbage];
        buffer := buffer + [NUL];
        assert buffer[..|buffer| - 1] == text[..garbage];
      } else {
        assert buffer[..|buffer| - 1] == text == text + "";
      }
    }

    /* ---------- the request ---------- */

    method WriteToSymbolizer(command: string) returns (ok: bool)
      modifies sys`pending, sys`answered, sys`faults
      ensures command != [] ==> (ok <==> sys.WritesToChild(outputFd) && sys.faults == old(sys.faults))
      ensures sys.faults == old(sys.faults) + if !ok && sys.WritesToChild(outputFd) then 1 else 0
      ensures ok && command != [] ==>
                && sys.WritesToChild(outputFd) && sys.answered == old(sys.answered) + [command]
                && sys.pending == old(sys.pending) + sys.reply(old(sys.answered), command)
      ensures !ok || command == [] ==> sys.answered == old(sys.answered)
      ensures command == [] ==> ok && sys.pending == old(sys.pending)
    {
      if |command| == 0 {
        return true;
      }
      var n := sys.Write(outputFd, command);
      ok := n == |command|;
    }

    lemma DueIsReply(answered: seq<string>, command: string)
      requires ChildAnswers()
      ensures var due := Due(sys.reply, answered, command);
              && Without(due, NUL) && (due == [] || WellFormedReply(kind, due))
              && due == if command == [] then [] else sys.reply(answered, command)
    {
    }

    lemma ConnectedOrNot()
      requires Channel()
      ensures sys.open != others <==> sys.WritesToChild(outputFd)
      ensures inputFd == INVALID_FD || outputFd == INVALID_FD ==> sys.open == others
      ensures inputFd == INVALID_FD <==> outputFd == INVALID_FD
    {
    }

    method SendCommandImpl(command: string) returns (res: Option<string>, exited: bool)
      requires Channel() && Quiet() && ChildAnswers()
      modifies `buffer, `pieces, `attempts, sys`pending, sys`answered, sys`faults, sys`rooms, sys`emptyReads
      ensures exited <==> kind == Addr2Line && sys.emptyReads != old(sys.emptyReads)
      ensures sys.faults == old(sys.faults) + if !exited && res == None && sys.open != others then 1 else 0
      ensures (exited || res.Some?) && command != [] ==> sys.open != others
      ensures !exited && command == [] ==> (res == None <==> inputFd == INVALID_FD)
      ensures !exited ==>
                sys.emptyReads == old(sys.emptyReads) + if res.Some? && CutShort(kind, res.value) then 1 else 0
      ensures Channel() && attempts == old(attempts) + 1
      ensures !exited && res == None ==> sys.answered == old(sys.answered)
      ensures !exited && res.Some? ==>
                && Quiet() && sys.answered == old(sys.answered) + (if command == [] then [] else [command])
                && Without(res.value, NUL)
                && Delivered(kind, old(Unread()), Due(sys.reply, old(sys.answered), command), res.value, Unread())
    {
      hide WellFormedReply, Flatten, CStr, Due, CutShort, RepliesAreWellFormed, Channel, System.WritesToChild;
      ConnectedOrNot();
      attempts, exited := attempts + 1, false;
      if inputFd == INVALID_FD || outputFd == INVALID_FD {
        return None, false;
      }
      var ok := WriteToSymbolizer(command);
      if !ok {
        return None, false;
      }
      ghost var due := Due(sys.reply, old(sys.answered), command);
      DueIsReply(old(sys.answered), command);
      ghost var waiting := Unread();
      assert waiting == old(Unread()) + due && (kind == Addr2Line ==> waiting == due);
      WithoutParts(old(Unread()), due, NUL);
      ok, exited := ReadFromSymbolizer();
      if exited {
        return None, true;
      }
      if !ok {
        return None, false;
      }
      ghost var text := buffer[..|buffer| - 1];
      CStrOf(buffer, text, []);
      res := Some(CStr(buffer));
      WithoutParts(text + Closing(kind), Unread(), NUL);
    }

    /* ---------- starting and stopping the child ---------- */

    method IsRunning() returns (running: bool)
      modifies sys`waits
      ensures if activePid == -1 then !running && sys.waits == old(sys.waits)
              else sys.waits == old(sys.waits) + [Asked(activePid, running)]
    {
      if activePid == -1 {
        return false;
      }
      running := sys.IsProcessRunning(activePid);
    }

    /**
     What Kill does. Without a pid nothing happens; else the system is asked once to kill that process, and
     if it does the descriptors are closed.
     */
    twostate predicate Struck(ok: bool)
      reads this, sys
    {
      && (ok ==> old(activePid) != -1)
      && sys.strikes == old(sys.strikes) + (if old(activePid) == -1 then [] else [Asked(old(activePid), ok)])
      && activePid == (if ok then -1 else old(activePid))
      && sys.open == if ok then others else old(sys.open)
    }

    /**
     What is left of a process once Kill was called and its result ignored. Nothing stays open exactly if
     nothing was, or there was a pid and the system killed it.
     */
    twostate predicate Forsaken()
      reads this, sys
    {
      var asked := old(activePid) != -1;
      && old(sys.strikes) <= sys.strikes && |sys.strikes| == |old(sys.strikes)| + (if asked then 1 else 0)
      && (asked ==> sys.strikes[|old(sys.strikes)|].pid == old(activePid))
      && (sys.open == others <==> old(sys.open) == others || (asked && sys.strikes[|old(sys.strikes)|].yes))
      && (sys.open != others ==> sys.open == old(sys.open))
    }

    method Kill() returns (ok: bool)
      requires Channel()
      modifies `activePid, sys`open, sys`ends, sys`strikes
      ensures Channel() && Struck(ok) && Unread() == if ok then [] else old(Unread())
    {
      if activePid == -1 {
        return false;
      }
      ok := sys.KillChildProcess(activePid);
      if ok {
        activePid := -1;
        CloseBoth();
      }
    }

    method CloseBoth()
      requires Channel()
      modifies sys`open, sys`ends
      ensures sys.open == others && Channel()
    {
      if inputFd != INVALID_FD {
        sys.Close(inputFd);
      }
      if outputFd != INVALID_FD {
        sys.Close(outputFd);
      }
    }

    /** The parent's side of StartSubprocess: both given descriptors are closed, even on failure. */
    method StartSubprocess(stdinFd: int, stdoutFd: int) returns (pid: int)
      modifies sys`open, sys`ends, sys`pending, sys`childStdin, sys`childStdout, sys`forked, sys`faults
      ensures sys.forked == old(sys.forked) + if pid > 0 then [pid] else []
      ensures sys.faults == old(sys.faults) + if pid < 0 then 1 else 0
      ensures sys.ends == old(sys.ends) - ({stdinFd, stdoutFd} - {INVALID_FD})
      ensures pid > 0 && stdinFd in old(sys.ends) && old(sys.ends[stdinFd]).ReadEnd? ==>
                sys.childStdin == Some(old(sys.ends[stdinFd]).pipe)
      ensures pid > 0 && stdoutFd in old(sys.ends) && old(sys.ends[stdoutFd]).WriteEnd? ==>
                sys.childStdout == Some(old(sys.ends[stdoutFd]).pipe)
      ensures pid != 0 && sys.open == old(sys.open) - ({stdinFd, stdoutFd} - {INVALID_FD})
      ensures pid > 0 ==> sys.pending == []
    {
      pid := sys.Fork(stdinFd, stdoutFd);
      if stdinFd != INVALID_FD {
        sys.Close(stdinFd);
      }
      if stdoutFd != INVALID_FD {
        sys.Close(stdoutFd);
      }
    }

    /** Where the process forked last stands in the record of the system. */
    ghost function LastForked(): int
      reads sys`forked
    {
      if sys.forked == [] then -1 else sys.forked[|sys.forked| - 1]
    }

    /**
     The object holds two new descriptors exactly if none of the file check, pipe and fork failed; then
     the start-up check of the process forked decides the result, and whether its pid is taken. A path is
     reported as invalid exactly if no pipe was asked for.
     */
    method StartSymbolizerSubprocess() returns (ok: bool)
      requires Channel() && sys.open == others
      modifies `activePid, `inputFd, `outputFd, `reportedInvalidPath, sys`open, sys`ends, sys`pending,
          sys`childStdin, sys`childStdout, sys`pipes, sys`forked, sys`waits, sys`faults
      ensures Channel() && Unread() == []
      ensures sys.faults == old(sys.faults) + if sys.open == others then 1 else 0
      ensures if sys.open == others then !ok && sys.forked == old(sys.forked) && sys.waits == old(sys.waits)
              else && sys.forked == old(sys.forked) + [LastForked()] && LastForked() > 0
                   && sys.waits == old(sys.waits) + [Asked(LastForked(), ok)]
      ensures activePid == if ok then LastForked() else old(activePid)
      ensures sys.open == others ==> inputFd == old(inputFd) && outputFd == old(outputFd)
      ensures reportedInvalidPath <==> old(reportedInvalidPath) || sys.pipes == old(sys.pipes)
      ensures sys.open == others || (sys.open == others + {inputFd, outputFd} && inputFd > 2 && outputFd > 2
                                     && inputFd != outputFd)
    {
      var found := sys.FileExists();
      if !found {
        reportedInvalidPath := true;
        return false;
      }
      var made, infd, outfd := CreateTwoHighNumberedPipes(sys);
      if !made {
        return false;
      }
      var pid := StartSubprocess(outfd.0, infd.1);
      if pid < 0 {
        sys.Close(infd.0);
        sys.Close(outfd.1);
        assert sys.open == others;
        return false;
      }
      inputFd := infd.0;
      outputFd := outfd.1;
      // CHECK_GT(pid, 0)
      assert pid > 0;
      assert sys.open == others + {inputFd, outputFd};
      var running := sys.IsProcessRunning(pid);
      if !running {
        return false;
      }
      activePid := pid;
      ok := true;
    }

    /** Kills the child that is reported as running, closes what is held and starts another child. */
    method Restart() returns (ok: bool)
      requires Channel()
      modifies `activePid, `inputFd, `outputFd, `reportedInvalidPath, `starts, sys`open, sys`ends, sys`pending,
          sys`childStdin, sys`childStdout, sys`pipes, sys`forked, sys`waits, sys`strikes, sys`faults
      ensures Channel() && Unread() == [] && starts == old(starts) + 1
      ensures sys.faults == old(sys.faults) + if sys.open == others then 1 else 0
      ensures Restarted(ok)
      ensures sys.open == others ==> inputFd == old(inputFd) && outputFd == old(outputFd)
      ensures sys.open == others || (sys.open == others + {inputFd, outputFd} && inputFd != outputFd)
      ensures old(OwnPids()) ==> OwnPids()
    {
      hide Channel, Unread;
      starts := starts + 1;
      var running := IsRunning();
      if running {
        var _ := Kill();
      }
      CloseBoth();
      ok := StartSymbolizerSubprocess();
    }

    /**
     Which processes a restart is about. The one the object had, if any, is asked about, and killed if it
     runs; the one it forks, if it comes to that, is asked about too, and taken if it runs.
     */
    twostate predicate Restarted(ok: bool)
      reads this, sys
    {
      var had, connected := old(activePid) != -1, sys.open != others;
      && old(sys.waits) <= sys.waits && old(sys.strikes) <= sys.strikes
      && sys.forked == old(sys.forked) + (if connected then [LastForked()] else [])
      && (connected ==> LastForked() > 0)
      && var waits, strikes := sys.waits[|old(sys.waits)|..], sys.strikes[|old(sys.strikes)|..];
         && |waits| == (if had then 1 else 0) + (if connected then 1 else 0)
         && (had ==> waits[0].pid == old(activePid))
         && (if connected then waits[|waits| - 1] == Asked(LastForked(), ok) else !ok)
         && |strikes| == (if had && waits[0].yes then 1 else 0)
         && (strikes != [] ==> strikes[0].pid == old(activePid))
         && activePid == if ok then LastForked() else if strikes != [] && strikes[0].yes then -1 else old(activePid)
    }

    /* ---------- the whole call ---------- */

    /** `exited`: a read returned nothing before an addr2line reply was complete, and the program ended. */
    method SendCommand(command: string) returns (res: Option<string>, exited: bool)
      requires Valid() && ChildAnswers()
      modifies this, sys
      ensures exited <==> kind == Addr2Line && sys.emptyReads != old(sys.emptyReads)
      ensures OwnPids()
      ensures !exited ==> Valid() && CallStep(kind, sys.reply, old(Snapshot()), command, res, Snapshot())
      ensures !exited && res.Some? ==> Without(res.value, NUL)
      ensures old(failedToStart) ==> !exited && unchanged(this) && unchanged(sys)
    {
      hide WellFormedReply, Flatten, Channel, Unread, Due, Delivered, OwnPids, Restarted;
      exited := false;
      if failedToStart {
        return None, false;
      }
      while timesRestarted < MAX_TIMES_RESTARTED
        invariant Channel() && Quiet() && OwnPids() && !failedToStart && !exited
        invariant old(timesRestarted) <= timesRestarted <= MAX_TIMES_RESTARTED
        invariant starts - old(starts) == timesRestarted - old(timesRestarted) == attempts - old(attempts)
        invariant sys.answered == old(sys.answered) && sys.emptyReads == old(sys.emptyReads)
        invariant old(Disconnected(Snapshot())) + sys.faults - old(sys.faults)
               == timesRestarted - old(timesRestarted) + (if sys.open == others then 1 else 0)
        invariant timesRestarted == old(timesRestarted) ==> sys.open == old(sys.open) && activePid == old(activePid)
        invariant Unread() == if timesRestarted > old(timesRestarted) then [] else old(Unread())
      {
        res, exited := SendCommandImpl(command);
        if exited || res.Some? {
          return;
        }
        var _ := Restart();
        timesRestarted := timesRestarted + 1;
      }
      failedToStart := true;
      res := None;
    }
  }
}
