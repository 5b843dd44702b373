/**
 The competitive bound cannot be improved: request traces of any length on which a policy of a given
 capacity falls short of it by a constant only.
 */
module LowerBound {
  import opened PoolTrace
  import opened Competitive

  /** Modules told apart by the lengths of their names. */
  function Name(n: nat): (s: string)
    ensures |s| == n
  {
    seq(n, _ => 'm')
  }

  /**
   Request r of phase p. The first 17 - h of its 16 requests are for modules never seen before, the others always
   for the same h - 1 modules.
   */
  function Asked(h: nat, p: nat, r: nat): (s: string)
    ensures |s| == if r + h < 17 then 16 * p + 16 + r else r
  {
    if r + h < 17 then Name(16 * p + 16 + r) else Name(r)
  }

  /** The requests of p whole phases and r more. */
  function Trace(h: nat, p: nat, r: nat): (t: seq<string>)
    ensures |t| == 16 * p + r
    decreases p, r
  {
    if r > 0 then Trace(h, p, r - 1) + [Asked(h, p, r - 1)]
    else if p > 0 then Trace(h, p - 1, 16)
    else []
  }

  /* ---------- the pool misses every time ---------- */

  function Part(h: nat, p: nat, r: nat): (names: seq<string>)
    ensures |names| == r && forall k :: 0 <= k < r ==> names[k] == Asked(h, p, k)
  {
    if r == 0 then [] else Part(h, p, r - 1) + [Asked(h, p, r - 1)]
  }

  /** What the pool holds then: all modules of the current phase, or of the last one before a new one begins. */
  function Pool(h: nat, p: nat, r: nat): seq<string> {
    if r > 0 || p == 0 then Part(h, p, r) else Part(h, p - 1, 16)
  }

  lemma AlwaysMisses(h: nat, p: nat, r: nat)
    requires h <= 16 && r < 16
    ensures Asked(h, p, r) !in Pool(h, p, r)
  {
    assert forall k :: 0 <= k < |Pool(h, p, r)| ==> |Pool(h, p, r)[k]| != |Asked(h, p, r)|;
  }

  lemma {:induction false} PoolOnTrace(h: nat, p: nat, r: nat)
    requires h <= 16 && r <= 16
    ensures Names(Trace(h, p, r)) == Pool(h, p, r) && Created(Trace(h, p, r)) == 16 * p + r
    decreases p, r
  {
    hide Asked, Part, Pool, Trace, Names, Created;
    if r > 0 {
      PoolOnTrace(h, p, r - 1);
      AlwaysMisses(h, p, r - 1);
      TraceSnoc(Trace(h, p, r - 1), Asked(h, p, r - 1));
      OneMore(h, p, r);
    } else if p > 0 {
      PoolOnTrace(h, p - 1, 16);
      OnePhaseMore(h, p);
    } else {
      NoneYet(h);
    }
  }

  lemma OneMore(h: nat, p: nat, r: nat)
    requires 0 < r <= 16
    ensures var before := Pool(h, p, r - 1);
            Pool(h, p, r) == (if |before| >= POOL_MAX then [] else before) + [Asked(h, p, r - 1)]
    ensures Trace(h, p, r) == Trace(h, p, r - 1) + [Asked(h, p, r - 1)]
  {
  }

  lemma OnePhaseMore(h: nat, p: nat)
    requires p > 0
    ensures Pool(h, p, 0) == Pool(h, p - 1, 16) && Trace(h, p, 0) == Trace(h, p - 1, 16)
  {
  }

  lemma NoneYet(h: nat)
    ensures Names(Trace(h, 0, 0)) == Pool(h, 0, 0) && Created(Trace(h, 0, 0)) == 0
  {
  }

  /* ---------- the policy loads only what is new ---------- */

  /** The modules that the policy never drops, of those among the first r requests of a phase. */
  function Kept(h: nat, r: nat): (kept: set<string>)
    requires 1 <= h <= 16 && r <= 16
    ensures forall x :: x in kept ==> |x| < r
    ensures forall k: nat :: 17 <= k + h && k < r ==> Name(k) in kept
    ensures |kept| == if r + h <= 17 then 0 else r + h - 17
  {
    if r == 0 then {} else Kept(h, r - 1) + if r + h >= 18 then {Name(r - 1)} else {}
  }

  /** The kept modules that were requested in p phases and r requests. */
  function KeptSoFar(h: nat, p: nat, r: nat): set<string>
    requires 1 <= h <= 16 && r <= 16
  {
    if p == 0 then Kept(h, r) else Kept(h, 16)
  }

  function Resident(h: nat, p: nat, r: nat): set<string>
    requires 1 <= h <= 16 && r <= 16
    decreases p, r
  {
    if r > 0 then KeptSoFar(h, p, r) + {Asked(h, p, r - 1)}
    else if p > 0 then Resident(h, p - 1, 16)
    else {}
  }

  function Policy(h: nat, p: nat, r: nat): (rs: seq<set<string>>)
    requires 1 <= h <= 16 && r <= 16
    ensures |rs| == 16 * p + r + 1 && rs[|rs| - 1] == Resident(h, p, r)
    decreases p, r
  {
    if r > 0 then Policy(h, p, r - 1) + [Resident(h, p, r)]
    else if p > 0 then Policy(h, p - 1, 16)
    else [{}]
  }

  lemma PolicySnoc(trace: seq<string>, residents: seq<set<string>>, h: nat, name: string, next: set<string>)
    requires IsPolicy(trace, residents, h) && name in next && |next| <= h
    ensures IsPolicy(trace + [name], residents + [next], h)
  {
    var t, rs := trace + [name], residents + [next];
    assert rs[0] == residents[0] && rs[|trace| + 1] == next && t[|trace|] == name;
    forall i | 0 <= i < |t| ensures t[i] in rs[i + 1] && |rs[i + 1]| <= h {
      if i < |trace| {
        assert t[i] == trace[i] && rs[i + 1] == residents[i + 1];
      }
    }
  }

  lemma LoadsSnoc(residents: seq<set<string>>, next: set<string>)
    requires residents != []
    ensures Loads(residents + [next]) == Loads(residents) + |next - residents[|residents| - 1]|
  {
    assert (residents + [next])[..|residents|] == residents;
  }

  /** Whether the request makes the policy load: it is for a new module, or the first for a kept one. */
  predicate IsLoad(h: nat, p: nat, r: nat) {
    r + h < 17 || p == 0
  }

  lemma OneLoad(h: nat, p: nat, r: nat)
    requires 1 <= h <= 16 && r < 16
    ensures var before, after := Resident(h, p, r), Resident(h, p, r + 1);
            |after| <= h && |after - before| == if IsLoad(h, p, r) then 1 else 0
  {
    var before, after, now := Resident(h, p, r), Resident(h, p, r + 1), Asked(h, p, r);
    ResidentBefore(h, p, r);
    assert after == KeptSoFar(h, p, r) + {now};
    if IsLoad(h, p, r) {
      assert after - before == {now};
    } else {
      assert after - before == {};
    }
  }

  /** A module that is loaded was not resident before; the kept ones were. */
  lemma ResidentBefore(h: nat, p: nat, r: nat)
    requires 1 <= h <= 16 && r < 16
    ensures KeptSoFar(h, p, r + 1) + {Asked(h, p, r)} == KeptSoFar(h, p, r) + {Asked(h, p, r)}
    ensures IsLoad(h, p, r) <==> Asked(h, p, r) !in Resident(h, p, r)
    ensures KeptSoFar(h, p, r) <= Resident(h, p, r)
  {
  }

  /** The loads of the policy: 16 in the first phase, 17 - h in every other. */
  function PolicyLoads(h: nat, p: nat, r: nat): int {
    if p == 0 then r else 16 + (17 - h) * (p - 1) + if r + h < 17 then r else 17 - h
  }

  lemma NextLoads(h: nat, p: nat, r: nat)
    requires 1 <= h <= 16 && r <= 16
    ensures r > 0 ==> PolicyLoads(h, p, r) == PolicyLoads(h, p, r - 1) + if IsLoad(h, p, r - 1) then 1 else 0
    ensures r == 0 && p > 0 ==> PolicyLoads(h, p, r) == PolicyLoads(h, p - 1, 16)
  {
    assert p > 1 ==> (17 - h) * (p - 2) + (17 - h) == (17 - h) * (p - 1);
  }

  lemma {:induction false} PolicyOnTrace(h: nat, p: nat, r: nat)
    requires 1 <= h <= 16 && r <= 16
    ensures IsPolicy(Trace(h, p, r), Policy(h, p, r), h)
    ensures Loads(Policy(h, p, r)) == PolicyLoads(h, p, r)
    decreases p, r
  {
    hide Asked, Resident, IsLoad;
    if p > 0 || r > 0 {
      hide IsPolicy, Loads, PolicyLoads;
      NextLoads(h, p, r);
      if r > 0 {
        PolicyOnTrace(h, p, r - 1);
        OneLoad(h, p, r - 1);
        AskedIsResident(h, p, r);
        PolicySnoc(Trace(h, p, r - 1), Policy(h, p, r - 1), h, Asked(h, p, r - 1), Resident(h, p, r));
        LoadsSnoc(Policy(h, p, r - 1), Resident(h, p, r));
      } else {
        PolicyOnTrace(h, p - 1, 16);
      }
    }
  }

  lemma AskedIsResident(h: nat, p: nat, r: nat)
    requires 1 <= h <= 16 && 0 < r <= 16
    ensures Asked(h, p, r - 1) in Resident(h, p, r)
  {
  }

  lemma Balance(pay: nat, n: nat, loads: nat, created: nat)
    requires n > 0 && loads == 16 + pay * (n - 1) && created == 16 * n
    ensures 16 * loads == pay * created + 16 * (16 - pay)
  {
    assert pay * n == pay * (n - 1) + pay;
    assert pay * created == 16 * (pay * n);
  }

  /**
   For every capacity h and every number n of phases there are requests of which the pool misses each one, while
   a policy of capacity h loads so little that the bound is met up to the constant 16 * (h - 1). So no
   factor below 16 / (17 - h) holds for all traces.
   */
  lemma BoundIsReached(h: nat, n: nat)
    requires 1 <= h <= 16 && n > 0
    ensures var trace, residents := Trace(h, n, 0), Policy(h, n, 0);
            && IsPolicy(trace, residents, h)
            && Created(trace) == |trace| == 16 * n
            && 16 * Loads(residents) == (17 - h) * Created(trace) + 16 * (h - 1)
  {
    hide Resident, Loads, Created, Trace, Policy, IsPolicy;
    PolicyOnTrace(h, n, 0);
    PoolOnTrace(h, n, 0);
    Balance(17 - h, n, Loads(Policy(h, n, 0)), Created(Trace(h, n, 0)));
  }

  lemma Times(a: nat, x: nat, y: nat, z: nat)
    requires x == y + z
    ensures a * x == a * y + a * z
  {
  }

  lemma Regroup(a: nat, x: nat, y: nat)
    ensures a * (x * y) == (a * x) * y
  {
  }

  lemma Larger(x: nat, y: nat, z: nat)
    requires x + 1 <= y
    ensures x * z + z <= y * z
  {
    var d: nat := y - x - 1;
    Distribute(x + 1, d, z);
    Distribute(x, 1, z);
    assert (x + 1) + d == y;
  }

  lemma Distribute(x: nat, y: nat, z: nat)
    ensures (x + y) * z == x * z + y * z && y * z >= 0
  {
  }

  lemma Conclude(al: nat, qc: nat, bc: nat, ak: nat, c: nat, created: nat)
    requires 16 * al == qc + 16 * ak && qc + created <= 16 * bc && created == 16 * (ak + c + 1)
    ensures al + c < bc
  {
  }

  lemma Exceeds(a: nat, b: nat, c: nat, pay: nat, k: nat, loads: nat, created: nat)
    requires a * pay < 16 * b && 16 * loads == pay * created + 16 * k && created == 16 * (a * k + c + 1)
    ensures a * loads + c < b * created
  {
    Times(a, 16 * loads, pay * created, 16 * k);
    Regroup(a, pay, created);
    Larger(a * pay, 16 * b, created);
    Regroup(16, b, created);
    Regroup(a, 16, loads);
    Regroup(16, a, loads);
    Regroup(a, 16, k);
    Regroup(16, a, k);
    Conclude(a * loads, (a * pay) * created, b * created, a * k, c, created);
  }

  lemma LongEnough(h: nat, a: nat, b: nat, c: nat, n: nat)
    requires 1 <= h <= 16 && a * (17 - h) < 16 * b && n == a * (h - 1) + c + 1
    ensures IsPolicy(Trace(h, n, 0), Policy(h, n, 0), h)
    ensures a * Loads(Policy(h, n, 0)) + c < b * Created(Trace(h, n, 0))
  {
    hide Loads, Created, Trace, Policy, IsPolicy;
    BoundIsReached(h, n);
    Exceeds(a, b, c, 17 - h, h - 1, Loads(Policy(h, n, 0)), Created(Trace(h, n, 0)));
  }

  /** No smaller factor a / b bounds the pool, not even with a constant c to spare. */
  lemma NoSmallerFactor(h: nat, a: nat, b: nat, c: nat)
    requires 1 <= h <= 16 && a * (17 - h) < 16 * b
    ensures exists trace: seq<string>, residents: seq<set<string>> ::
              IsPolicy(trace, residents, h) && a * Loads(residents) + c < b * Created(trace)
  {
    hide Loads, Created, Trace, Policy, IsPolicy;
    LongEnough(h, a, b, c, a * (h - 1) + c + 1);
  }
}
