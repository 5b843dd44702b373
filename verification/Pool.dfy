/**
 Addr2LinePool: one addr2line process for each module, at most 16 at a time, all killed when
 another one is needed.
 */
module Pool {
  import opened Bytes
  import opened Framing
  import opened Descriptors
  import opened Process
  import opened PoolTrace
  import Commands

  /* ---------- the pool as a transition system ---------- */

  datatype Member = Member(name: string, proc: Snap)

  /** The members, how many processes were created, and the starts of those already flushed. */
  datatype PoolState = PoolState(members: seq<Member>, created: nat, retired: nat)

  /** What the process of a module answers. */
  type Children = string -> Responder

  const EMPTY := PoolState([], 0, 0)

  function NamesOf(members: seq<Member>): seq<string> {
    if members == [] then [] else NamesOf(members[..|members| - 1]) + [members[|members| - 1].name]
  }

  function TotalStarts(members: seq<Member>): nat {
    if members == [] then 0 else TotalStarts(members[..|members| - 1]) + members[|members| - 1].proc.starts
  }

  /** The first member for the module, the number of members when there is none. */
  function IndexOf(members: seq<Member>, name: string): (i: nat)
    ensures i <= |members| && (i < |members| ==> members[i].name == name)
    ensures forall j :: 0 <= j < i ==> members[j].name != name
  {
    if members == [] || members[0].name == name then 0 else 1 + IndexOf(members[1..], name)
  }

  predicate Hit(s: PoolState, name: string) {
    IndexOf(s.members, name) < |s.members|
  }

  predicate FlushesOn(s: PoolState, name: string) {
    !Hit(s, name) && |s.members| >= POOL_MAX
  }

  /** The members once the requested one is present, before it is sent the command. */
  function Prepared(s: PoolState, name: string): seq<Member> {
    if Hit(s, name) then s.members
    else (if FlushesOn(s, name) then [] else s.members) + [Member(name, FRESH)]
  }

  /** The commands the process that a request is sent to has answered before. */
  function History(s: PoolState, name: string): seq<string> {
    if Hit(s, name) then s.members[IndexOf(s.members, name)].proc.answered else []
  }

  /** One request: only the member started for this module takes part in it. */
  ghost predicate PoolStep(replies: Children, s: PoolState, name: string, offset: nat, result: Option<string>,
      t: PoolState)
  {
    var ready := Prepared(s, name);
    var i := IndexOf(ready, name);
    && i < |ready| == |t.members| && t.members == ready[i := Member(name, t.members[i].proc)]
    && CallStep(Addr2Line, replies(name), ready[i].proc, Commands.Addr2LineCommand(offset), result, t.members[i].proc)
    && t.created == s.created + (if Hit(s, name) then 0 else 1)
    && t.retired == s.retired + (if FlushesOn(s, name) then TotalStarts(s.members) else 0)
  }

  lemma {:induction false} NamesOfAt(members: seq<Member>)
    ensures |NamesOf(members)| == |members|
    ensures forall i :: 0 <= i < |members| ==> NamesOf(members)[i] == members[i].name
  {
    if members != [] {
      NamesOfAt(members[..|members| - 1]);
    }
  }

  lemma HitByName(s: PoolState, name: string)
    ensures Hit(s, name) <==> name in NamesOf(s.members)
  {
    NamesOfAt(s.members);
    if name in NamesOf(s.members) {
      var j :| 0 <= j < |s.members| && NamesOf(s.members)[j] == name;
      assert s.members[j].name == name;
    }
  }

  lemma {:induction false} IndexIs(members: seq<Member>, name: string, i: nat)
    requires i < |members| && members[i].name == name
    requires forall j :: 0 <= j < i ==> members[j].name != name
    ensures IndexOf(members, name) == i
  {
  }

  /** Where the requested member is once it is present. */
  lemma PreparedIndex(s: PoolState, name: string)
    ensures var ready := Prepared(s, name);
            var i := IndexOf(ready, name);
            && i < |ready| && ready[i].proc.answered == History(s, name)
            && (Hit(s, name) ==> ready == s.members && !FlushesOn(s, name))
            && (!Hit(s, name) ==> i == |ready| - 1 && ready[i] == Member(name, FRESH))
  {
    if !Hit(s, name) {
      var ready := Prepared(s, name);
      IndexIs(ready, name, |ready| - 1);
    }
  }

  /* ---------- the class ---------- */

  class Addr2LineProcess {
    const moduleName: string
    const proc: SymbolizerProcess

    constructor (name: string, reply: Responder)
      ensures moduleName == name && proc.Valid() && proc.Snapshot() == FRESH
      ensures proc.kind == Addr2Line && proc.sys.reply == reply
      ensures fresh(proc) && fresh(proc.sys)
    {
      var others: set<int> := *;
      var sys := new System(others - {INVALID_FD}, reply);
      moduleName := name;
      proc := new SymbolizerProcess(Addr2Line, sys);
    }
  }

  class Addr2LinePool {
    var pool: seq<Addr2LineProcess>
    ghost var state: PoolState
    // What a process started for a module answers to a command.
    const replies: Children

    ghost predicate ChildrenAnswer() {
      forall name: string :: RepliesAreWellFormed(Addr2Line, replies(name))
    }

    ghost function Objects(): set<object>
      reads this
    {
      (set e | e in pool :: e.proc) + (set e | e in pool :: e.proc.sys)
    }

    ghost predicate Separate()
      reads this
    {
      forall i, j :: 0 <= i < j < |pool| ==> pool[i].proc != pool[j].proc && pool[i].proc.sys != pool[j].proc.sys
    }

    ghost predicate Represents(i: nat)
      requires i < |pool|
      reads this, Objects()
    {
      && i < |state.members|
      && pool[i].proc.Valid() && pool[i].proc.kind == Addr2Line && pool[i].proc.sys.reply == replies(pool[i].moduleName)
      && state.members[i] == Member(pool[i].moduleName, pool[i].proc.Snapshot())
      && pool[i].proc.sys.emptyReads == 0
    }

    /** A read for the process of this module came back empty. */
    ghost predicate Starved(name: string)
      reads this, Objects()
    {
      exists i :: 0 <= i < |pool| && pool[i].moduleName == name && pool[i].proc.sys.emptyReads > 0
    }

    lemma Starves(i: nat)
      requires i < |pool| && pool[i].proc.sys.emptyReads > 0
      ensures Starved(pool[i].moduleName)
    {
    }

    /** While the program goes on no read has. */
    lemma NobodyStarves(name: string)
      requires Valid()
      ensures !Starved(name)
    {
      forall i | 0 <= i < |pool| ensures pool[i].proc.sys.emptyReads == 0 {
        assert Represents(i);
      }
    }

    ghost predicate Valid()
      reads this, Objects()
    {
      && |pool| == |state.members| <= POOL_MAX
      && Separate()
      && forall i :: 0 <= i < |pool| ==> Represents(i)
    }

    constructor (replies: Children)
      ensures Valid() && state == EMPTY && this.replies == replies
    {
      pool, state := [], EMPTY;
      this.replies := replies;
    }

    /**
     Kills every process once and empties the pool. A member leaves nothing open exactly when it held
     nothing, or has a pid and the system kills it. One whose first start-up check failed has no pid.
     */
    method FlushPool()
      requires Valid()
      modifies this, Objects()
      ensures Valid() && pool == []
      ensures forall i :: 0 <= i < |old(pool)| ==> old(pool)[i].proc.Forsaken()
      ensures state == PoolState([], old(state.created), old(state.retired) + TotalStarts(old(state.members)))
    {
      hide Represents, SymbolizerProcess.Valid, SymbolizerProcess.Snapshot, SymbolizerProcess.Channel, TotalStarts,
          SymbolizerProcess.Unread;
      Channels();
      for i := 0 to |pool|
        invariant pool == old(pool) && state == old(state)
        invariant forall j :: 0 <= j < |pool| ==> pool[j].proc.Channel()
        invariant forall j :: i <= j < |pool| ==> Untouched(pool[j].proc)
        invariant forall j :: 0 <= j < i ==> pool[j].proc.Forsaken()
      {
        assert Untouched(pool[i].proc);
        var _ := pool[i].proc.Kill();
      }
      pool := [];
      state := PoolState([], state.created, state.retired + TotalStarts(state.members));
    }

    lemma Channels()
      requires Valid()
      ensures forall j :: 0 <= j < |pool| ==> pool[j].proc.Channel()
    {
      forall j | 0 <= j < |pool| ensures pool[j].proc.Channel() {
        assert Represents(j);
      }
    }

    twostate predicate Untouched(p: SymbolizerProcess)
      reads p, p.sys
    {
      unchanged(p) && unchanged(p.sys)
    }

    /** The search loop: the first process for this module, -1 when there is none. */
    method Find(name: string) returns (index: int)
      requires Valid()
      ensures |pool| == |state.members|
      ensures index == if Hit(state, name) then IndexOf(state.members, name) else -1
      ensures index >= 0 ==> pool[index].moduleName == name
    {
      forall j | 0 <= j < |pool| ensures state.members[j].name == pool[j].moduleName {
        assert Represents(j);
      }
      for i := 0 to |pool|
        invariant forall j :: 0 <= j < i ==> pool[j].moduleName != name
      {
        if pool[i].moduleName == name {
          IndexIs(state.members, name, i);
          return i;
        }
      }
      index := -1;
    }

    /** Makes room if there is none and starts an object for the module; its process starts with its first command. */
    method Add(name: string)
      requires Valid() && !Hit(state, name)
      modifies this, Objects()
      ensures Valid() && |pool| == |state.members| > 0 && pool[|pool| - 1].moduleName == name
      ensures fresh(Objects() - old(Objects()))
      ensures state == PoolState(Prepared(old(state), name), old(state.created) + 1,
                                 old(state.retired)
                                 + if FlushesOn(old(state), name) then TotalStarts(old(state.members)) else 0)
    {
      if |pool| >= POOL_MAX {
        FlushPool();
      }
      ghost var kept, members := pool, state.members;
      label Kept:
      var addr2line := new Addr2LineProcess(name, replies(name));
      pool := pool + [addr2line];
      state := PoolState(state.members + [Member(name, FRESH)], state.created + 1, state.retired);
      forall j | 0 <= j < |pool| ensures Represents(j) {
        if j < |kept| {
          assert pool[j] == kept[j] && state.members[j] == members[j];
          assert old@Kept(Represents(j));
          assert kept[j].proc.Valid() && Member(kept[j].moduleName, kept[j].proc.Snapshot()) == members[j];
        }
      }
    }

    /**
     Sends the request to the process of its module, started if need be. The program ends (`exited`)
     exactly in a read for that process that returned nothing.
     */
    method SendCommand(name: string, offset: nat) returns (res: Option<string>, exited: bool)
      requires Valid() && ChildrenAnswer()
      modifies this, Objects()
      ensures exited <==> Starved(name)
      ensures !exited ==>
                && Valid() && fresh(Objects() - old(Objects()))
                && PoolStep(replies, old(state), name, offset, res, state)
                && (res.Some? ==> Without(res.value, NUL))
    {
      hide CallStep, Valid, Represents, Separate, Commands.Addr2LineCommand, NamesOf, Prepared, Hit, FlushesOn,
          TotalStarts, IndexOf, Starved;
      ghost var before := state;
      var i := Find(name);
      PreparedIndex(state, name);
      if i < 0 {
        Add(name);
        i := |pool| - 1;
      }
      // The CHECK of the source.
      assert name == pool[i].moduleName;
      assert state.members == Prepared(before, name) && i == IndexOf(state.members, name);
      res, exited := SendTo(i, Commands.Addr2LineCommand(offset));
      if exited {
        Starves(i);
      } else {
        NobodyStarves(name);
      }
    }

    /** The last line of SendCommand: only the chosen process takes part. */
    method SendTo(i: nat, command: string) returns (res: Option<string>, exited: bool)
      requires Valid() && ChildrenAnswer() && i < |pool| == |state.members|
      modifies `state, pool[i].proc, pool[i].proc.sys
      ensures exited <==> pool[i].proc.sys.emptyReads > 0
      ensures !exited ==>
                && Valid() && |state.members| == |old(state.members)|
                && state.members == old(state.members)[i := Member(pool[i].moduleName, state.members[i].proc)]
                && state.created == old(state.created) && state.retired == old(state.retired)
                && CallStep(Addr2Line, replies(pool[i].moduleName), old(state.members[i].proc), command, res,
                       state.members[i].proc)
                && (res.Some? ==> Without(res.value, NUL))
    {
      hide CallStep, RepliesAreWellFormed;
      assert forall j :: 0 <= j < |pool| ==> Represents(j);
      assert Represents(i);
      var p := pool[i].proc;
      assert p.ChildAnswers();
      res, exited := p.SendCommand(command);
      if exited {
        return;
      }
      state := state.(members := state.members[i := Member(pool[i].moduleName, p.Snapshot())]);
      forall j | 0 <= j < |pool| ensures Represents(j) {
        if j != i {
          assert old(Represents(j));
          assert pool[j].proc != p && pool[j].proc.sys != p.sys;
          assert state.members[j] == old(state.members[j]);
        }
      }
    }
  }
}
