/**
 Whole runs of Addr2LinePool, for any outcome of every system call.
 */
module PoolRuns {
  import opened Bytes
  import opened Framing
  import opened Process
  import opened PoolTrace
  import opened Pool
  import Commands
  import Competitive

  datatype Request = Request(name: string, offset: nat)

  /** states[i] and states[i + 1] surround the request requests[i] with results[i]. */
  datatype PoolRun = PoolRun(states: seq<PoolState>, requests: seq<Request>, results: seq<Option<string>>) {
    function Last(): PoolState
      requires states != []
    {
      states[|states| - 1]
    }
  }

  function ModulesOf(requests: seq<Request>): seq<string> {
    if requests == [] then [] else ModulesOf(requests[..|requests| - 1]) + [requests[|requests| - 1].name]
  }

  ghost predicate IsPoolRun(replies: Children, run: PoolRun) {
    && |run.states| == |run.requests| + 1 == |run.results| + 1
    && run.states[0] == EMPTY
    && forall i :: 0 <= i < |run.requests| ==>
         PoolStep(replies, run.states[i], run.requests[i].name, run.requests[i].offset, run.results[i],
             run.states[i + 1])
  }

  /**
   Any sequence of requests to a new pool is a run, to its end unless a read for the process of a requested
   module comes back empty, when the program ends.
   */
  method ServePool(p: Addr2LinePool, requests: seq<Request>) returns (ghost run: PoolRun, exited: bool)
    requires p.Valid() && p.ChildrenAnswer() && p.state == EMPTY
    modifies p, p.Objects()
    ensures IsPoolRun(p.replies, run) && run.requests <= requests
    ensures exited ==> |run.requests| < |requests| && p.Starved(requests[|run.requests|].name)
    ensures !exited ==> p.Valid() && run.requests == requests && run.Last() == p.state
  {
    hide PoolStep;
    run, exited := PoolRun([p.state], [], []), false;
    for i := 0 to |requests|
      invariant p.Valid() && fresh(p.Objects() - old(p.Objects()))
      invariant IsPoolRun(p.replies, run) && run.requests == requests[..i] && run.Last() == p.state
    {
      var result;
      result, exited := p.SendCommand(requests[i].name, requests[i].offset);
      if exited {
        return;
      }
      run := PoolRun(run.states + [p.state], run.requests + [requests[i]], run.results + [result]);
    }
  }

  /** The run up to its n-th request. */
  function Prefix(run: PoolRun, n: nat): PoolRun
    requires n < |run.states| && n <= |run.requests| && n <= |run.results|
  {
    PoolRun(run.states[..n + 1], run.requests[..n], run.results[..n])
  }

  lemma PrefixIsRun(replies: Children, run: PoolRun, n: nat)
    requires IsPoolRun(replies, run) && n <= |run.requests|
    ensures IsPoolRun(replies, Prefix(run, n)) && Prefix(run, n).Last() == run.states[n]
  {
  }

  /* ---------- which modules the pool holds ---------- */

  lemma NamesOfPrepared(s: PoolState, name: string)
    ensures NamesOf(Prepared(s, name)) == Visit(NamesOf(s.members), name)
  {
    HitByName(s, name);
    NamesOfAt(s.members);
    var ready := Prepared(s, name);
    if !Hit(s, name) {
      assert ready[..|ready| - 1] == if FlushesOn(s, name) then [] else s.members;
    }
  }

  lemma NamesOfUpdate(members: seq<Member>, i: nat, m: Member)
    requires i < |members| && m.name == members[i].name
    ensures NamesOf(members[i := m]) == NamesOf(members)
  {
    NamesOfAt(members);
    NamesOfAt(members[i := m]);
  }

  lemma StepNames(replies: Children, s: PoolState, r: Request, result: Option<string>, t: PoolState)
    requires PoolStep(replies, s, r.name, r.offset, result, t)
    ensures NamesOf(t.members) == Visit(NamesOf(s.members), r.name)
    ensures t.created == s.created + if r.name in NamesOf(s.members) then 0 else 1
  {
    hide CallStep, NamesOf, Prepared, TotalStarts, Hit;
    var i := IndexOf(Prepared(s, r.name), r.name);
    HitByName(s, r.name);
    NamesOfPrepared(s, r.name);
    NamesOfUpdate(Prepared(s, r.name), i, t.members[i]);
  }

  /** The pool's names are those of the pure trace, which PoolContents describes, and so is its count of creations. */
  lemma {:induction false} PoolFollowsTrace(replies: Children, run: PoolRun)
    requires IsPoolRun(replies, run)
    ensures NamesOf(run.Last().members) == Names(ModulesOf(run.requests))
    ensures run.Last().created == Created(ModulesOf(run.requests))
    decreases |run.requests|
  {
    hide PoolStep;
    if run.requests != [] {
      var n := |run.requests| - 1;
      PrefixIsRun(replies, run, n);
      PoolFollowsTrace(replies, Prefix(run, n));
      StepNames(replies, run.states[n], run.requests[n], run.results[n], run.states[n + 1]);
      TraceSnoc(ModulesOf(run.requests[..n]), run.requests[n].name);
    }
  }

  /** The pool creates at most 16 times as many processes as any policy with room for 16 modules loads. */
  lemma PoolCreatesCompetitively(replies: Children, run: PoolRun, residents: seq<set<string>>)
    requires IsPoolRun(replies, run)
    requires Competitive.IsPolicy(ModulesOf(run.requests), residents, POOL_MAX)
    ensures run.Last().created <= 16 * Competitive.Loads(residents)
  {
    PoolFollowsTrace(replies, run);
    Competitive.SixteenCompetitive(ModulesOf(run.requests), residents);
  }

  /** No two members are for one module. */
  lemma OnePlacePerModule(replies: Children, run: PoolRun, m: nat)
    requires IsPoolRun(replies, run) && m < |run.states|
    ensures var members := run.states[m].members;
            forall a, b :: 0 <= a < b < |members| ==> members[a].name != members[b].name
  {
    hide PoolStep;
    var s := run.states[m];
    PrefixIsRun(replies, run, m);
    PoolFollowsTrace(replies, Prefix(run, m));
    PoolContents(ModulesOf(run.requests[..m]));
    NamesOfAt(s.members);
    assert forall b :: 0 <= b < |s.members| ==> NamesOf(s.members)[b] == s.members[b].name;
  }

  /* ---------- restarts ---------- */

  /**
   A process in the pool was started once for each restart its calls counted, five times at most: to begin
   with, and for each system call that failed.
   */
  ghost predicate Sound(s: Snap) {
    && s.starts == s.restarts <= 5 && s.unread == []
    && s.restarts + Disconnected(s) == 1 + s.faults && s.emptyReads == 0
    && (s.latched <==> s.restarts == 5)
  }

  lemma CallKeepsSound(reply: Responder, s: Snap, command: string, result: Option<string>, t: Snap)
    requires CallStep(Addr2Line, reply, s, command, result, t) && Sound(s)
    ensures Sound(t)
  {
  }

  ghost predicate AllSound(members: seq<Member>) {
    forall i :: 0 <= i < |members| ==> Sound(members[i].proc)
  }

  lemma StepKeepsSound(replies: Children, s: PoolState, r: Request, result: Option<string>, t: PoolState)
    requires PoolStep(replies, s, r.name, r.offset, result, t) && AllSound(s.members)
    ensures AllSound(t.members)
  {
    hide CallStep, TotalStarts;
    var ready := Prepared(s, r.name);
    var i := IndexOf(ready, r.name);
    CallKeepsSound(replies(r.name), ready[i].proc, Commands.Addr2LineCommand(r.offset), result, t.members[i].proc);
  }

  lemma {:induction false} TotalWithinBudget(members: seq<Member>)
    requires AllSound(members)
    ensures TotalStarts(members) <= 5 * |members|
  {
    if members != [] {
      TotalWithinBudget(members[..|members| - 1]);
    }
  }

  /** Over any run at most five processes are started for each process object created, those flushed included. */
  lemma {:induction false} StartsPerProcess(replies: Children, run: PoolRun)
    requires IsPoolRun(replies, run)
    ensures var t := run.Last();
            && AllSound(t.members)
            && t.retired + 5 * |t.members| <= 5 * t.created
            && t.retired + TotalStarts(t.members) <= 5 * t.created
    decreases |run.requests|
  {
    hide CallStep;
    if run.requests != [] {
      var n := |run.requests| - 1;
      var s, t, r := run.states[n], run.states[n + 1], run.requests[n];
      PrefixIsRun(replies, run, n);
      StartsPerProcess(replies, Prefix(run, n));
      TotalWithinBudget(s.members);
      StepKeepsSound(replies, s, r, run.results[n], t);
    }
    TotalWithinBudget(run.Last().members);
  }

  /* ---------- answers ---------- */

  /** No process of the pool has left anything unread. */
  ghost predicate AllRead(members: seq<Member>) {
    forall i :: 0 <= i < |members| ==> members[i].proc.unread == []
  }

  /** The requests for a module answered since the last flush, as the commands its process got. */
  function Asked(run: PoolRun, name: string, n: nat): seq<string>
    requires n < |run.states| && n <= |run.requests| && n <= |run.results|
  {
    if n == 0 then []
    else
      var r := run.requests[n - 1];
      (if FlushesOn(run.states[n - 1], r.name) then [] else Asked(run, name, n - 1))
      + if r.name == name && run.results[n - 1].Some? then [Commands.Addr2LineCommand(r.offset)] else []
  }

  lemma CallAnswers(reply: Responder, s: Snap, offset: nat, result: Option<string>, t: Snap)
    requires CallStep(Addr2Line, reply, s, Commands.Addr2LineCommand(offset), result, t) && s.unread == []
    ensures t.answered == s.answered + if result.Some? then [Commands.Addr2LineCommand(offset)] else []
    ensures result.Some? ==> result.value == Answer(Addr2Line, reply(s.answered, Commands.Addr2LineCommand(offset)))
  {
    hide Commands.Addr2LineText;
    var c := Commands.Addr2LineCommand(offset);
    Commands.Addr2LineCommandNotEmpty(offset);
    if result.Some? {
      assert result.value + TERMINATOR + [] == [] + reply(s.answered, c) == reply(s.answered, c);
      assert result.value + TERMINATOR + [] == result.value + TERMINATOR;
      AnswerOfClosed(result.value);
    }
  }

  lemma {:induction false} IndexOfUpdate(members: seq<Member>, i: nat, m: Member, name: string)
    requires i < |members| && m.name == members[i].name
    ensures IndexOf(members[i := m], name) == IndexOf(members, name)
  {
    var k := IndexOf(members, name);
    if k < |members| {
      IndexIs(members[i := m], name, k);
    }
  }

  lemma {:induction false} IndexOfSnoc(members: seq<Member>, m: Member, name: string)
    ensures IndexOf(members + [m], name)
         == if IndexOf(members, name) < |members| then IndexOf(members, name)
            else if m.name == name then |members| else |members| + 1
  {
    var k := IndexOf(members, name);
    if k < |members| || m.name == name {
      IndexIs(members + [m], name, k);
    }
  }

  /** What a request adds to the history of the processes of the pool. */
  lemma StepHistory(replies: Children, s: PoolState, r: Request, result: Option<string>, t: PoolState, name: string)
    requires PoolStep(replies, s, r.name, r.offset, result, t) && AllRead(s.members)
    ensures History(t, name) == (if FlushesOn(s, r.name) then [] else History(s, name))
                              + if r.name == name && result.Some? then [Commands.Addr2LineCommand(r.offset)] else []
  {
    hide CallStep, TotalStarts, IndexOf, Commands.Addr2LineCommand;
    var ready := Prepared(s, r.name);
    var i := IndexOf(ready, r.name);
    PreparedIndex(s, r.name);
    CallAnswers(replies(r.name), ready[i].proc, r.offset, result, t.members[i].proc);
    IndexOfUpdate(ready, i, t.members[i], name);
    if !Hit(s, r.name) {
      var base := if FlushesOn(s, r.name) then [] else s.members;
      IndexOfSnoc(base, Member(r.name, FRESH), name);
    }
  }

  /** Each process in the pool has answered exactly the requests for its module since the last flush. */
  lemma {:induction false} HistoryIsAsked(replies: Children, run: PoolRun, n: nat, name: string)
    requires IsPoolRun(replies, run) && n < |run.states|
    ensures History(run.states[n], name) == Asked(run, name, n)
  {
    hide CallStep, PoolStep;
    if n == 0 {
      assert run.states[0] == EMPTY;
    } else {
      var s, t, r := run.states[n - 1], run.states[n], run.requests[n - 1];
      HistoryIsAsked(replies, run, n - 1, name);
      PrefixIsRun(replies, run, n - 1);
      StartsPerProcess(replies, Prefix(run, n - 1));
      StepHistory(replies, s, r, run.results[n - 1], t, name);
    }
  }

  /**
   A non-null result is the answer of the requested module's own process to this request, given the
   requests it answered since the last flush.
   */
  lemma {:induction false} AnswersAreOfTheModule(replies: Children, run: PoolRun, k: nat)
    requires IsPoolRun(replies, run) && k < |run.requests| && run.results[k].Some?
    ensures var r := run.requests[k];
            var reply := replies(r.name)(Asked(run, r.name, k), Commands.Addr2LineCommand(r.offset));
            run.results[k] == Some(Answer(Addr2Line, reply))
  {
    hide CallStep, Answer, Asked;
    var s, t, r := run.states[k], run.states[k + 1], run.requests[k];
    assert PoolStep(replies, s, r.name, r.offset, run.results[k], t);
    HistoryIsAsked(replies, run, k, r.name);
    PrefixIsRun(replies, run, k);
    StartsPerProcess(replies, Prefix(run, k));
    StepAnswers(replies, s, r, run.results[k], t);
  }

  lemma StepAnswers(replies: Children, s: PoolState, r: Request, result: Option<string>, t: PoolState)
    requires PoolStep(replies, s, r.name, r.offset, result, t) && AllRead(s.members) && result.Some?
    ensures result.value
         == Answer(Addr2Line, replies(r.name)(History(s, r.name), Commands.Addr2LineCommand(r.offset)))
  {
    hide CallStep, TotalStarts, IndexOf, Commands.Addr2LineCommand, Answer;
    var ready := Prepared(s, r.name);
    var i := IndexOf(ready, r.name);
    PreparedIndex(s, r.name);
    CallAnswers(replies(r.name), ready[i].proc, r.offset, result, t.members[i].proc);
  }

  /** The system calls that have failed for the process of a module. */
  function FaultsOf(s: PoolState, name: string): nat {
    var i := IndexOf(s.members, name);
    if i < |s.members| then s.members[i].proc.faults else 0
  }

  lemma StepFails(replies: Children, s: PoolState, r: Request, result: Option<string>, t: PoolState)
    requires PoolStep(replies, s, r.name, r.offset, result, t) && AllSound(s.members)
    ensures result == None ==> FaultsOf(t, r.name) >= 4
  {
    hide CallStep, TotalStarts, IndexOf;
    var ready := Prepared(s, r.name);
    var i := IndexOf(ready, r.name);
    var command := Commands.Addr2LineCommand(r.offset);
    PreparedIndex(s, r.name);
    IndexOfUpdate(ready, i, t.members[i], r.name);
    CallKeepsSound(replies(r.name), ready[i].proc, command, result, t.members[i].proc);
    NullIsLatched(replies(r.name), ready[i].proc, command, result, t.members[i].proc);
  }

  /** A request fails only when four system calls have failed for the process of its module. */
  lemma AnswersUnlessSystemFails(replies: Children, run: PoolRun, k: nat)
    requires IsPoolRun(replies, run) && k < |run.requests|
    requires FaultsOf(run.states[k + 1], run.requests[k].name) < 4
    ensures run.results[k].Some?
  {
    hide PoolStep, FaultsOf;
    PrefixIsRun(replies, run, k);
    StartsPerProcess(replies, Prefix(run, k));
    StepFails(replies, run.states[k], run.requests[k], run.results[k], run.states[k + 1]);
  }

  lemma NullIsLatched(reply: Responder, s: Snap, command: string, result: Option<string>, t: Snap)
    requires CallStep(Addr2Line, reply, s, command, result, t)
    ensures result == None ==> t.latched
  {
  }

  /* ---------- the latch ---------- */

  lemma LatchedStep(replies: Children, s: PoolState, r: Request, result: Option<string>, t: PoolState, a: nat)
    requires PoolStep(replies, s, r.name, r.offset, result, t) && !FlushesOn(s, r.name)
    requires a < |s.members| && s.members[a].proc.latched
    requires forall i, j :: 0 <= i < j < |s.members| ==> s.members[i].name != s.members[j].name
    ensures a < |t.members| && t.members[a] == s.members[a]
    ensures r.name == s.members[a].name ==> result == None
  {
    PreparedIndex(s, r.name);
    if r.name == s.members[a].name {
      IndexIs(s.members, r.name, a);
    }
  }

  /**
   A latched process stays in its place, untouched, and every request for its module fails, until
   a request flushes the pool.
   */
  lemma {:induction false} LatchedUntilFlush(replies: Children, run: PoolRun, a: nat, i: nat, j: nat)
    requires IsPoolRun(replies, run) && i <= j <= |run.requests|
    requires a < |run.states[i].members| && run.states[i].members[a].proc.latched
    requires forall k :: i <= k < j ==> !FlushesOn(run.states[k], run.requests[k].name)
    ensures a < |run.states[j].members| && run.states[j].members[a] == run.states[i].members[a]
    ensures forall k :: i <= k < j && run.requests[k].name == run.states[i].members[a].name ==> run.results[k] == None
    decreases j - i
  {
    hide PoolStep, FlushesOn;
    if i < j {
      var m := j - 1;
      LatchedUntilFlush(replies, run, a, i, m);
      OnePlacePerModule(replies, run, m);
      LatchedStep(replies, run.states[m], run.requests[m], run.results[m], run.states[j], a);
    }
  }
}
