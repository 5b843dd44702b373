/**
 The operating system as one symbolizer process object sees it, and the allocation of its pipes.
 Every outcome the system may produce is possible at every call.
 */
module Descriptors {
  import opened Bytes
  import Sets

  const INVALID_FD: int := -1

  /** What a descriptor is to the pipe it belongs to. */
  datatype End = ReadEnd(pipe: nat) | WriteEnd(pipe: nat)

  /** A question to the system about a process, or a kill of it, and whether the answer was yes. */
  datatype Asked = Asked(pid: int, yes: bool)

  class System {
    // The descriptors that are open in this process, and the pipe ends among them.
    var open: set<int>
    var ends: map<int, End>
    // The pipes the current child has as its standard input and output.
    var childStdin: Option<nat>
    var childStdout: Option<nat>
    // What the current child has written and nobody has read.
    var pending: string
    // The commands the children have received in full, in order.
    var answered: seq<string>
    // The outcomes of all calls of pipe, the processes forked, all waits that tell whether a process runs, and
    // all kills.
    var pipes: seq<bool>
    ghost var forked: seq<int>
    ghost var waits: seq<Asked>
    ghost var strikes: seq<Asked>
    // How many characters each read asked for.
    ghost var rooms: seq<nat>
    // How often the file check, pipe or fork failed, or a write to the child was cut; and how often
    // a read that asked for characters returned none.
    ghost var faults: nat
    ghost var emptyReads: nat
    // What a child writes for a command received in full, after those received before it.
    const reply: (seq<string>, string) -> string

    constructor (open: set<int>, reply: (seq<string>, string) -> string)
      ensures this.open == open && this.reply == reply && answered == [] && faults == emptyReads == 0
      ensures forked == [] && waits == [] && strikes == []
    {
      this.open, this.reply, pending, answered, pipes := open, reply, [], [], [];
      forked, waits, strikes, rooms := [], [], [], [];
      faults, emptyReads := 0, 0;
      ends, childStdin, childStdout := map[], None, None;
    }

    ghost predicate WritesToChild(fd: int)
      reads `open, `ends, `childStdin
    {
      fd in open && fd in ends && ends[fd].WriteEnd? && childStdin == Some(ends[fd].pipe)
    }

    ghost predicate ReadsFromChild(fd: int)
      reads `open, `ends, `childStdout
    {
      fd in open && fd in ends && ends[fd].ReadEnd? && childStdout == Some(ends[fd].pipe)
    }

    /** pipe: two new descriptors, the read end first, or failure. */
    method Pipe() returns (ok: bool, r: int, w: int)
      modifies `open, `ends, `pipes, `faults
      ensures pipes == old(pipes) + [ok] && faults == old(faults) + if ok then 0 else 1
      ensures ok ==> r >= 0 && w >= 0 && r != w && r !in old(open) && w !in old(open) && open == old(open) + {r, w}
      ensures ok ==> ends == old(ends)[r := ReadEnd(|old(pipes)|)][w := WriteEnd(|old(pipes)|)]
      ensures !ok ==> open == old(open) && ends == old(ends)
    {
      ok, r, w := *, *, *;
      ok := ok && r >= 0 && w >= 0 && r != w && r !in open && w !in open;
      if ok {
        open := open + {r, w};
        ends := ends[r := ReadEnd(|pipes|)][w := WriteEnd(|pipes|)];
      }
      pipes, faults := pipes + [ok], faults + if ok then 0 else 1;
    }

    /** close: a number that is not open changes nothing. */
    method Close(fd: int)
      modifies `open, `ends
      ensures open == old(open) - {fd} && ends == old(ends) - {fd}
    {
      open, ends := open - {fd}, ends - {fd};
    }

    /** fork, in the parent. The child takes the two descriptors for its standard streams and has written nothing. */
    method Fork(stdinFd: int, stdoutFd: int) returns (pid: int)
      modifies `pending, `childStdin, `childStdout, `forked, `faults
      ensures pid != 0 && faults == old(faults) + if pid < 0 then 1 else 0
      ensures forked == old(forked) + if pid > 0 then [pid] else []
      ensures pid < 0 ==> unchanged(`pending, `childStdin, `childStdout)
      ensures pid > 0 ==>
                && pending == []
                && childStdin ==
                   (if stdinFd in ends && ends[stdinFd].ReadEnd? then Some(ends[stdinFd].pipe) else None)
                && childStdout ==
                   (if stdoutFd in ends && ends[stdoutFd].WriteEnd? then Some(ends[stdoutFd].pipe) else None)
    {
      pid := *;
      if pid == 0 {
        pid := -1;
      }
      faults := faults + if pid < 0 then 1 else 0;
      forked := forked + if pid > 0 then [pid] else [];
      if pid > 0 {
        pending := [];
        childStdin := if stdinFd in ends && ends[stdinFd].ReadEnd? then Some(ends[stdinFd].pipe) else None;
        childStdout := if stdoutFd in ends && ends[stdoutFd].WriteEnd? then Some(ends[stdoutFd].pipe) else None;
      }
    }

    /** waitpid without blocking: whether the process is reported as still running. */
    method IsProcessRunning(pid: int) returns (running: bool)
      modifies `waits
      ensures waits == old(waits) + [Asked(pid, running)]
    {
      running := *;
      waits := waits + [Asked(pid, running)];
    }

    method KillChildProcess(pid: int) returns (ok: bool)
      modifies `strikes
      ensures strikes == old(strikes) + [Asked(pid, ok)]
    {
      ok := *;
      strikes := strikes + [Asked(pid, ok)];
    }

    method FileExists() returns (found: bool)
      modifies `faults
      ensures faults == old(faults) + if found then 0 else 1
    {
      found := *;
      faults := faults + if found then 0 else 1;
    }

    /**
     write: the number of characters taken, negative on error. Only a command the child takes
     whole is answered; after any other outcome it may have written anything.
     */
    method Write(fd: int, command: string) returns (n: int)
      modifies `pending, `answered, `faults
      ensures n <= |command|
      ensures faults == old(faults) + if n < |command| && WritesToChild(fd) then 1 else 0
      ensures n == |command| ==>
                && WritesToChild(fd) && answered == old(answered) + [command]
                && pending == old(pending) + reply(old(answered), command)
      ensures n < |command| ==> answered == old(answered)
    {
      n := *;
      if n > |command| || !(fd in open && fd in ends && ends[fd].WriteEnd? && childStdin == Some(ends[fd].pipe)) {
        n := -1;
      }
      if n == |command| {
        answered, pending := answered + [command], pending + reply(answered, command);
      } else {
        var garbage: string := *;
        pending := pending + garbage;
        faults := faults + if WritesToChild(fd) then 1 else 0;
      }
    }

    /** read: the next characters, at most `room` of them. It may fail at any time and then returns none. */
    method Read(fd: int, room: nat) returns (chunk: string)
      modifies `pending, `rooms, `emptyReads
      ensures rooms == old(rooms) + [room]
      ensures old(pending) == chunk + pending && |chunk| <= room
      ensures chunk != [] ==> ReadsFromChild(fd)
      ensures emptyReads == old(emptyReads) + if chunk == [] && room > 0 then 1 else 0
    {
      var n: int := *;
      if n < 0 || n > room || n > |pending|
         || !(fd in open && fd in ends && ends[fd].ReadEnd? && childStdout == Some(ends[fd].pipe)) {
        n := 0;
      }
      chunk, pending, rooms := pending[..n], pending[n..], rooms + [room];
      emptyReads := emptyReads + if chunk == [] && room > 0 then 1 else 0;
    }
  }

  /* ---------- two pipes above the standard streams ---------- */

  type Pair = (int, int)

  function FdsOf(p: Pair): set<int> {
    {p.0, p.1}
  }

  /** The descriptors of all pairs but the one at index `keep`. */
  function FdsBut(ps: seq<Pair>, keep: int): set<int> {
    if ps == [] then {}
    else FdsBut(ps[..|ps| - 1], keep) + if |ps| - 1 == keep then {} else FdsOf(ps[|ps| - 1])
  }

  function Fds(ps: seq<Pair>): set<int> {
    FdsBut(ps, -1)
  }

  ghost predicate DisjointPairs(ps: seq<Pair>) {
    ps == [] || (
      var p := ps[|ps| - 1];
      && DisjointPairs(ps[..|ps| - 1])
      && p.0 >= 0 && p.1 >= 0 && p.0 != p.1
      && Fds(ps[..|ps| - 1]) !! FdsOf(p))
  }

  predicate IsHigh(p: Pair) {
    p.0 > 2 && p.1 > 2
  }

  /** The pair holds both ends of one pipe, the read end first. */
  ghost predicate IsPipe(ends: map<int, End>, p: Pair) {
    p.0 in ends && p.1 in ends && ends[p.0].ReadEnd? && ends[p.1] == WriteEnd(ends[p.0].pipe)
  }

  function LowPairs(ps: seq<Pair>): nat {
    if ps == [] then 0 else LowPairs(ps[..|ps| - 1]) + if IsHigh(ps[|ps| - 1]) then 0 else 1
  }

  lemma NoPairs()
    ensures Fds([]) == {} && DisjointPairs([]) && LowPairs([]) == 0
  {
  }

  lemma PairsSnoc(ps: seq<Pair>, p: Pair)
    ensures Fds(ps + [p]) == Fds(ps) + FdsOf(p)
    ensures LowPairs(ps + [p]) == LowPairs(ps) + if IsHigh(p) then 0 else 1
    ensures DisjointPairs(ps + [p]) <==> DisjointPairs(ps) && p.0 >= 0 && p.1 >= 0 && p.0 != p.1 && Fds(ps) !! FdsOf(p)
  {
  }

  lemma {:induction false} LowPairsUseLowFds(ps: seq<Pair>)
    requires DisjointPairs(ps)
    ensures LowPairs(ps) <= |Fds(ps) * {0, 1, 2}|
  {
    if ps != [] {
      var init, p := ps[..|ps| - 1], ps[|ps| - 1];
      LowPairsUseLowFds(init);
      var low := FdsOf(p) * {0, 1, 2};
      assert Fds(ps) * {0, 1, 2} == Fds(init) * {0, 1, 2} + low;
      assert |Fds(ps) * {0, 1, 2}| == |Fds(init) * {0, 1, 2}| + |low|;
      if !IsHigh(p) {
        var fd := if p.0 <= 2 then p.0 else p.1;
        assert fd in low;
      }
    }
  }

  /** Pigeonhole: of any number of disjoint pairs, at most three touch a standard stream. */
  lemma AtMostThreeLowPairs(ps: seq<Pair>)
    requires DisjointPairs(ps)
    ensures LowPairs(ps) <= 3
  {
    LowPairsUseLowFds(ps);
    Sets.SubsetSize(Fds(ps) * {0, 1, 2}, {0, 1, 2});
  }

  lemma {:induction false} FdsSplit(ps: seq<Pair>, keep: nat)
    requires DisjointPairs(ps) && keep < |ps|
    ensures Fds(ps) == FdsBut(ps, keep) + FdsOf(ps[keep]) && FdsBut(ps, keep) !! FdsOf(ps[keep])
    ensures ps[keep].0 != ps[keep].1
  {
    var init := ps[..|ps| - 1];
    if keep < |init| {
      FdsSplit(init, keep);
    } else {
      FdsButBeyond(init, keep);
    }
  }

  lemma {:induction false} FdsMember(ps: seq<Pair>, j: nat)
    requires j < |ps|
    ensures FdsOf(ps[j]) <= Fds(ps)
  {
    if j < |ps| - 1 { FdsMember(ps[..|ps| - 1], j); }
  }

  lemma {:induction false} FdsButBeyond(ps: seq<Pair>, keep: nat)
    requires keep >= |ps|
    ensures FdsBut(ps, keep) == Fds(ps)
  {
    if ps != [] { FdsButBeyond(ps[..|ps| - 1], keep); }
  }

  /** Closes the first n pairs, all but the one at index `keep`. */
  method ClosePairs(sys: System, pairs: array<Pair>, n: nat, keep: int)
    requires n <= pairs.Length
    modifies sys`open, sys`ends
    ensures sys.open == old(sys.open) - FdsBut(pairs[..n], keep)
    ensures sys.ends == old(sys.ends) - FdsBut(pairs[..n], keep)
  {
    for j := 0 to n
      invariant sys.open == old(sys.open) - FdsBut(pairs[..j], keep)
      invariant sys.ends == old(sys.ends) - FdsBut(pairs[..j], keep)
    {
      assert pairs[..j + 1][..j] == pairs[..j];
      if j != keep {
        sys.Close(pairs[j].0);
        sys.Close(pairs[j].1);
      }
    }
  }

  /**
   Two pairs of descriptors, all above 2. Unless pipe itself fails they are found within five
   tries, whatever descriptors the system hands out. Success opens exactly the four returned
   descriptors, failure none.
   */
  method CreateTwoHighNumberedPipes(sys: System) returns (ok: bool, infd: Pair, outfd: Pair)
    modifies sys`open, sys`ends, sys`pipes, sys`faults
    ensures sys.faults == old(sys.faults) + if ok then 0 else 1
    ensures old(sys.pipes) <= sys.pipes && |old(sys.pipes)| < |sys.pipes| <= |old(sys.pipes)| + 5
    ensures ok <==> false !in sys.pipes[|old(sys.pipes)|..]
    ensures !ok ==> sys.open == old(sys.open)
    ensures ok ==>
              && infd.0 > 2 && infd.1 > 2 && outfd.0 > 2 && outfd.1 > 2
              && infd.0 != infd.1 && outfd.0 != outfd.1 && FdsOf(infd) !! FdsOf(outfd)
              && FdsOf(infd) + FdsOf(outfd) !! old(sys.open)
              && sys.open == old(sys.open) + FdsOf(infd) + FdsOf(outfd)
              && IsPipe(sys.ends, infd) && IsPipe(sys.ends, outfd)
  {
    hide FdsBut, LowPairs, DisjointPairs;
    NoPairs();
    var sockPair := new Pair[5](_ => (0, 0));
    var first, second := -1, -1;  // indices standing for the pointers infd and outfd, -1 for NULL
    var i := 0;
    infd, outfd := (-1, -1), (-1, -1);
    while i < 5
      invariant 0 <= i <= 5 && -1 <= first < i
      invariant DisjointPairs(sockPair[..i]) && Fds(sockPair[..i]) !! old(sys.open)
      invariant sys.open == old(sys.open) + Fds(sockPair[..i])
      invariant first >= 0 ==> IsHigh(sockPair[first])
      invariant i == LowPairs(sockPair[..i]) + if first == -1 then 0 else 1
      invariant forall j :: 0 <= j < i ==> IsPipe(sys.ends, sockPair[j])
      invariant second == -1 && sys.faults == old(sys.faults)
      invariant |sys.pipes| == |old(sys.pipes)| + i && old(sys.pipes) <= sys.pipes
      invariant false !in sys.pipes[|old(sys.pipes)|..]
    {
      forall j | 0 <= j < i ensures FdsOf(sockPair[j]) <= sys.open {
        FdsMember(sockPair[..i], j);
      }
      var made, r, w := sys.Pipe();
      assert sys.pipes[|old(sys.pipes)| + i] == made == sys.pipes[|old(sys.pipes)|..][i];
      if !made {
        ClosePairs(sys, sockPair, i, -1);
        return false, infd, outfd;
      }
      PairsSnoc(sockPair[..i], (r, w));
      sockPair[i] := (r, w);
      assert sockPair[..i + 1] == sockPair[..i] + [(r, w)];
      if r > 2 && w > 2 {
        if first == -1 {
          first := i;
        } else {
          second := i;
          FdsSplit(sockPair[..i], first);
          ClosePairs(sys, sockPair, i, first);
          break;
        }
      }
      i := i + 1;
    }
    if second == -1 {
      AtMostThreeLowPairs(sockPair[..i]);
    }
    // The two CHECKs of the source.
    assert first != -1;
    assert second != -1;
    infd, outfd := sockPair[first], sockPair[second];
    ok := true;
  }
}
