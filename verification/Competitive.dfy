/**
 How many processes the flush-when-full pool creates, against any other way of keeping modules
 resident, one that knows all requests in advance included.
 */
module Competitive {
  import opened PoolTrace
  import Sets

  /**
   residents[i] is what a policy keeps before request i: nothing at first, never more than
   `capacity` modules, and always the one just requested.
   */
  ghost predicate IsPolicy(trace: seq<string>, residents: seq<set<string>>, capacity: nat) {
    && |residents| == |trace| + 1
    && residents[0] == {}
    && forall i :: 0 <= i < |trace| ==> trace[i] in residents[i + 1] && |residents[i + 1]| <= capacity
  }

  /** Every module that becomes resident is one load. */
  function Loads(residents: seq<set<string>>): nat {
    if |residents| <= 1 then 0
    else
      var n := |residents| - 1;
      Loads(residents[..n]) + |residents[n] - residents[n - 1]|
  }

  /** The modules resident at some time of the current phase. */
  ghost function SeenInPhase(trace: seq<string>, residents: seq<set<string>>): set<string>
    requires |residents| == |trace| + 1
  {
    if trace == [] then residents[0]
    else
      var n := |trace| - 1;
      if Flushes(Names(trace[..n]), trace[n]) then residents[n + 1]
      else SeenInPhase(trace[..n], residents[..n + 1]) + residents[n + 1]
  }

  function ToSet(s: seq<string>): set<string> {
    set x | x in s
  }

  lemma {:induction false} SizeOfDistinct(s: seq<string>)
    requires NoDuplicates(s)
    ensures |ToSet(s)| == |s|
  {
    if s != [] {
      var init, last := s[..|s| - 1], s[|s| - 1];
      SizeOfDistinct(init);
      assert ToSet(s) == ToSet(init) + {last};
    } else {
      assert ToSet(s) == {};
    }
  }

  /** What a policy has seen grows by no more than it loads. */
  lemma SeenGrowth(seen: set<string>, before: set<string>, after: set<string>)
    requires before <= seen
    ensures |seen + after| <= |seen| + |after - before|
  {
    assert seen + after == seen + (after - seen);
    Sets.SubsetSize(after - seen, after - before);
  }

  /** pay * phases, by addition. */
  function Owed(pay: nat, phases: nat): nat {
    if phases == 0 then 0 else Owed(pay, phases - 1) + pay
  }

  lemma {:induction false} OwedIsProduct(pay: nat, phases: nat)
    ensures Owed(pay, phases) == pay * phases
  {
    if phases > 0 { OwedIsProduct(pay, phases - 1); }
  }

  /** A flush follows 16 seen modules by another one, which leaves `pay` loads for the finished phase. */
  lemma FlushPays(pay: nat, flushes: nat, loads: nat, seen: set<string>, names: set<string>, m: string,
      before: set<string>, after: set<string>)
    requires loads >= Owed(pay, flushes) + |seen|
    requires before <= seen && names <= seen && |names| == POOL_MAX
    requires m !in names && m in after && |after| + pay <= POOL_MAX + 1
    ensures loads + |after - before| >= Owed(pay, flushes + 1) + |after|
  {
    SeenGrowth(seen, before, after);
    assert |names + {m}| == POOL_MAX + 1;
    Sets.SubsetSize(names + {m}, seen + after);
  }

  /** Loads pay `pay` for every finished phase and one for every module seen in the current one. */
  ghost predicate Paid(trace: seq<string>, residents: seq<set<string>>, pay: nat)
    requires |residents| == |trace| + 1
  {
    && Loads(residents) >= Owed(pay, FlushCount(trace)) + |SeenInPhase(trace, residents)|
    && ToSet(Names(trace)) <= SeenInPhase(trace, residents)
    && residents[|trace|] <= SeenInPhase(trace, residents)
  }

  lemma {:induction false} PhasePayments(trace: seq<string>, residents: seq<set<string>>, capacity: nat)
    requires IsPolicy(trace, residents, capacity) && 1 <= capacity <= POOL_MAX
    ensures Paid(trace, residents, POOL_MAX + 1 - capacity)
    decreases |trace|
  {
    if trace != [] {
      var n := |trace| - 1;
      PhasePayments(trace[..n], residents[..n + 1], capacity);
      if Flushes(Names(trace[..n]), trace[n]) {
        PaidAtFlush(trace, residents, capacity, POOL_MAX + 1 - capacity);
      } else {
        PaidWithinPhase(trace, residents, capacity, POOL_MAX + 1 - capacity);
      }
    }
  }

  lemma {:induction false} PaidAtFlush(trace: seq<string>, residents: seq<set<string>>, capacity: nat, pay: nat)
    requires IsPolicy(trace, residents, capacity) && trace != [] && pay + capacity == POOL_MAX + 1
    requires Paid(trace[..|trace| - 1], residents[..|trace|], pay)
    requires Flushes(Names(trace[..|trace| - 1]), trace[|trace| - 1])
    ensures Paid(trace, residents, pay)
  {
    hide Names, FlushCount, SeenInPhase, Loads, Owed, ToSet;
    var n := |trace| - 1;
    var init, m, rs := trace[..n], trace[n], residents[..n + 1];
    FullPool(init, m);
    AtFlush(trace, residents);
    FlushPays(pay, FlushCount(init), Loads(rs), SeenInPhase(init, rs), ToSet(Names(init)), m, residents[n],
        residents[n + 1]);
  }

  lemma FullPool(trace: seq<string>, m: string)
    requires Flushes(Names(trace), m)
    ensures |ToSet(Names(trace))| == POOL_MAX && m !in ToSet(Names(trace))
  {
    PoolContents(trace);
    SizeOfDistinct(Names(trace));
  }

  /** What a flush does to every account. */
  lemma AtFlush(trace: seq<string>, residents: seq<set<string>>)
    requires |residents| == |trace| + 1 && trace != []
    requires Flushes(Names(trace[..|trace| - 1]), trace[|trace| - 1])
    ensures ToSet(Names(trace)) == {trace[|trace| - 1]}
    ensures FlushCount(trace) == FlushCount(trace[..|trace| - 1]) + 1
    ensures SeenInPhase(trace, residents) == residents[|trace|]
    ensures Loads(residents) == Loads(residents[..|trace|]) + |residents[|trace|] - residents[|trace| - 1]|
  {
  }

  lemma {:induction false} PaidWithinPhase(trace: seq<string>, residents: seq<set<string>>, capacity: nat, pay: nat)
    requires IsPolicy(trace, residents, capacity) && trace != []
    requires Paid(trace[..|trace| - 1], residents[..|trace|], pay)
    requires !Flushes(Names(trace[..|trace| - 1]), trace[|trace| - 1])
    ensures Paid(trace, residents, pay)
  {
    var n := |trace| - 1;
    var init, m, rs := trace[..n], trace[n], residents[..n + 1];
    assert rs[n] == residents[n];
    SeenGrowth(SeenInPhase(init, rs), residents[n], residents[n + 1]);
    assert ToSet(Names(trace)) <= ToSet(Names(init)) + {m};
  }

  /**
   The competitive bound. Against any policy of capacity h the pool creates at most 16 / (17 - h)
   times as many processes as the policy loads modules.
   */
  lemma {:induction false} PoolIsCompetitive(trace: seq<string>, residents: seq<set<string>>, capacity: nat)
    requires IsPolicy(trace, residents, capacity) && 1 <= capacity <= 16
    ensures (17 - capacity) * Created(trace) <= 16 * Loads(residents)
  {
    hide Names, FlushCount, SeenInPhase, Loads, Owed, ToSet, Created, NoDuplicates;
    var pay, phases, seen := POOL_MAX + 1 - capacity, FlushCount(trace), SeenInPhase(trace, residents);
    PhasePayments(trace, residents, capacity);
    OwedIsProduct(pay, phases);
    CreatedByPhase(trace);
    PoolContents(trace);
    SizeOfDistinct(Names(trace));
    Sets.SubsetSize(ToSet(Names(trace)), seen);
    Payoff(pay, phases, |Names(trace)|, |seen|, Loads(residents), Created(trace));
  }

  lemma Payoff(pay: nat, phases: nat, names: nat, seen: nat, loads: nat, created: nat)
    requires 1 <= pay <= POOL_MAX && names <= seen && loads >= pay * phases + seen
    requires created == POOL_MAX * phases + names
    ensures pay * created <= POOL_MAX * loads
  {
    var owed := pay * phases;
    assert pay * created == POOL_MAX * owed + pay * names;
    assert pay * names <= POOL_MAX * names;
  }

  /** With the same capacity as the pool, no policy loads fewer than a sixteenth of what the pool creates. */
  lemma SixteenCompetitive(trace: seq<string>, residents: seq<set<string>>)
    requires IsPolicy(trace, residents, POOL_MAX)
    ensures Created(trace) <= 16 * Loads(residents)
  {
    PoolIsCompetitive(trace, residents, POOL_MAX);
  }
}
