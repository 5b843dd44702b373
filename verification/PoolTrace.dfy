/**
 Which modules Addr2LinePool holds, as a function of the requests so far.
 */
module PoolTrace {
  const POOL_MAX: nat := 16

  predicate Flushes(names: seq<string>, name: string) {
    name !in names && |names| >= POOL_MAX
  }

  /** The pool after one more request: a hit leaves it, a miss appends, a miss on a full pool flushes first. */
  function Visit(names: seq<string>, name: string): seq<string> {
    if name in names then names else (if |names| >= POOL_MAX then [] else names) + [name]
  }

  function Names(trace: seq<string>): seq<string> {
    if trace == [] then [] else Visit(Names(trace[..|trace| - 1]), trace[|trace| - 1])
  }

  /** Where the current phase began: the last request that flushed the pool, or the start. */
  function PhaseStart(trace: seq<string>): (p: nat)
    ensures p <= |trace| && (trace != [] ==> p < |trace|)
  {
    if trace == [] then 0
    else
      var init := trace[..|trace| - 1];
      if Flushes(Names(init), trace[|trace| - 1]) then |init| else PhaseStart(init)
  }

  function Created(trace: seq<string>): nat {
    if trace == [] then 0
    else
      var init := trace[..|trace| - 1];
      Created(init) + if trace[|trace| - 1] in Names(init) then 0 else 1
  }

  function FlushCount(trace: seq<string>): nat {
    if trace == [] then 0
    else
      var init := trace[..|trace| - 1];
      FlushCount(init) + if Flushes(Names(init), trace[|trace| - 1]) then 1 else 0
  }

  /** The distinct elements in the order of their first occurrence. */
  function Distinct(s: seq<string>): seq<string> {
    if s == [] then []
    else
      var d, last := Distinct(s[..|s| - 1]), s[|s| - 1];
      if last in d then d else d + [last]
  }

  ghost predicate NoDuplicates(s: seq<string>) {
    forall i, j :: 0 <= i < j < |s| ==> s[i] != s[j]
  }

  lemma {:induction false} DistinctIsDistinct(s: seq<string>)
    ensures NoDuplicates(Distinct(s))
    ensures forall x :: x in Distinct(s) <==> x in s
  {
    if s != [] {
      var init := s[..|s| - 1];
      DistinctIsDistinct(init);
      assert forall x :: x in s <==> x in init || x == s[|s| - 1];
    }
  }

  lemma DistinctSnoc(s: seq<string>, m: string)
    ensures Distinct(s + [m]) == if m in Distinct(s) then Distinct(s) else Distinct(s) + [m]
    ensures Distinct([m]) == [m]
  {
    assert (s + [m])[..|s|] == s && [m][..0] == [];
    assert Distinct([]) == [];
  }

  lemma {:induction false} NamesInPhase(trace: seq<string>)
    ensures Names(trace) == Distinct(trace[PhaseStart(trace)..]) && |Names(trace)| <= POOL_MAX
    ensures trace != [] ==> trace[|trace| - 1] in Names(trace)
  {
    if trace != [] {
      hide Distinct;
      var init, m := trace[..|trace| - 1], trace[|trace| - 1];
      NamesInPhase(init);
      var p := PhaseStart(trace);
      if Flushes(Names(init), m) {
        assert trace[p..] == [m];
        DistinctSnoc([], m);
      } else {
        assert trace[p..] == init[p..] + [m];
        DistinctSnoc(init[p..], m);
      }
    }
  }

  /**
   The pool holds the distinct modules requested since its last flush, in the order of their first
   request: at most 16, no two alike, the latest among them.
   */
  lemma {:induction false} PoolContents(trace: seq<string>)
    ensures Names(trace) == Distinct(trace[PhaseStart(trace)..])
    ensures |Names(trace)| <= 16 && NoDuplicates(Names(trace))
    ensures trace != [] ==> trace[|trace| - 1] in Names(trace)
  {
    NamesInPhase(trace);
    DistinctIsDistinct(trace[PhaseStart(trace)..]);
  }

  /** A request flushes exactly when 16 modules were requested since the last flush and it is for another one. */
  lemma {:induction false} FlushCondition(trace: seq<string>, name: string)
    ensures var phase := trace[PhaseStart(trace)..];
            Flushes(Names(trace), name) <==> name !in phase && |Distinct(phase)| == 16
  {
    PoolContents(trace);
    DistinctIsDistinct(trace[PhaseStart(trace)..]);
  }

  /** Every phase but the current one created exactly 16 processes. */
  lemma {:induction false} CreatedByPhase(trace: seq<string>)
    ensures Created(trace) == 16 * FlushCount(trace) + |Names(trace)|
  {
    if trace != [] {
      var init := trace[..|trace| - 1];
      CreatedByPhase(init);
      PoolContents(init);
    }
  }

  /** Pools evolve request by request. */
  lemma TraceSnoc(trace: seq<string>, name: string)
    ensures Names(trace + [name]) == Visit(Names(trace), name)
    ensures Created(trace + [name]) == Created(trace) + if name in Names(trace) then 0 else 1
  {
  }
}
