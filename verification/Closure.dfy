// Uses of all overridden or overriding functions: getUsesForAllBases and
// getUsesForAllDerived (src/query.cc, src/query.hh).
module Closure {
  import opened Index

  datatype Definition = Definition(spelled: bool, bases: seq<Usr>)
  datatype Function<U> = Function(defs: seq<Definition>, derived: seq<Usr>, uses: seq<U>)

  type Functions<U> = map<Usr, Function<U>>

  // The first definition with a spelling, or the last one.
  function AnyDef(defs: seq<Definition>): Definition
    requires defs != []
  {
    if defs[0].spelled || |defs| == 1 then defs[0] else AnyDef(defs[1..])
  }

  // Definition i is the first with a spelling, or the last if none has one.
  lemma {:induction false} AnyDefIs(defs: seq<Definition>, i: nat)
    requires i < |defs| && forall k :: 0 <= k < i ==> !defs[k].spelled
    requires defs[i].spelled || i == |defs| - 1
    ensures AnyDef(defs) == defs[i]
  {
    if i > 0 { AnyDefIs(defs[1..], i - 1); }
  }

  // QueryEntity::anyDef
  method FindAnyDef(defs: seq<Definition>) returns (found: bool, d: Definition)
    ensures found <==> defs != []
    ensures found ==> d == AnyDef(defs)
  {
    found, d := false, Definition(false, []);
    for i := 0 to |defs|
      invariant found <==> i > 0
      invariant i > 0 ==> d == defs[i - 1] && !d.spelled
      invariant i < |defs| ==> AnyDef(defs) == AnyDef(defs[i..])
      invariant i == |defs| > 0 ==> d == AnyDef(defs)
    {
      found, d := true, defs[i];
      assert defs[i..][0] == d && defs[i..][1..] == defs[i + 1..];
      if d.spelled { break; }
    }
  }

  // The functions one step away: bases of the definition, or overriders.
  function Steps<U>(g: Functions<U>, u: Usr, bases: bool): seq<Usr>
    requires u in g
  {
    if !bases then g[u].derived else if g[u].defs == [] then [] else AnyDef(g[u].defs).bases
  }

  predicate Defined<U>(g: Functions<U>, u: Usr) { u in g && g[u].defs != [] }

  // Every usr mentioned is registered.
  ghost predicate Registered<U>(g: Functions<U>) {
    forall u, v, b :: u in g && v in Steps(g, u, b) ==> v in g
  }

  predicate IsStep<U>(g: Functions<U>, u: Usr, v: Usr, bases: bool) { u in g && v in Steps(g, u, bases) && Defined(g, v) }

  // One step up goes to the defined bases of the first spelled or else the last
  // definition, one step down to the defined overriders.
  lemma StepIff<U>(g: Functions<U>, u: Usr, v: Usr, i: nat)
    requires u in g && i < |g[u].defs| && (forall k :: 0 <= k < i ==> !g[u].defs[k].spelled) && (g[u].defs[i].spelled || i == |g[u].defs| - 1)
    ensures IsStep(g, u, v, true) <==> v in g && g[v].defs != [] && v in g[u].defs[i].bases
    ensures IsStep(g, u, v, false) <==> v in g && g[v].defs != [] && v in g[u].derived
  {
    AnyDefIs(g[u].defs, i);
  }

  predicate StepAt<U>(g: Functions<U>, path: seq<Usr>, k: nat, bases: bool) { 0 < k < |path| ==> IsStep(g, path[k - 1], path[k], bases) }

  // A chain of steps through defined functions.
  ghost predicate IsPath<U>(g: Functions<U>, root: Usr, path: seq<Usr>, u: Usr, bases: bool) {
    && path != [] && path[0] == root && path[|path| - 1] == u
    && forall k: nat :: StepAt(g, path, k, bases)
  }

  ghost predicate Reaches<U>(g: Functions<U>, root: Usr, u: Usr, bases: bool) { exists path :: IsPath(g, root, path, u, bases) }

  function AllUses<U>(g: Functions<U>, order: seq<Usr>): seq<U>
    requires forall u :: u in order ==> u in g
  {
    if order == [] then [] else AllUses(g, order[..|order| - 1]) + g[order[|order| - 1]].uses
  }

  lemma UsesSnoc<U>(g: Functions<U>, order: seq<Usr>, u: Usr)
    requires (forall v :: v in order ==> v in g) && u in g
    ensures AllUses(g, order + [u]) == AllUses(g, order) + g[u].uses
  {
    assert (order + [u])[..|order|] == order;
  }

  // The uses of one function after those of the other, in the order of the functions.
  lemma {:induction false} UsesConcat<U>(g: Functions<U>, a: seq<Usr>, b: seq<Usr>)
    requires (forall u :: u in a ==> u in g) && (forall u :: u in b ==> u in g)
    ensures AllUses(g, a + b) == AllUses(g, a) + AllUses(g, b)
    ensures |b| == 1 ==> AllUses(g, b) == g[b[0]].uses
  {
    if b == [] {
      assert a + b == a;
    } else {
      var front, last := b[..|b| - 1], b[|b| - 1];
      assert last in b && b == front + [last] && a + b == (a + front) + [last];
      UsesConcat(g, a, front);
      UsesSnoc(g, front, last);
      UsesSnoc(g, a + front, last);
      assert front == [] ==> AllUses(g, front) == [];
      hide AllUses;
    }
  }

  lemma {:induction false} UsesFrom<U>(g: Functions<U>, order: seq<Usr>, x: U)
    requires forall u :: u in order ==> u in g
    ensures x in AllUses(g, order) <==> exists u :: u in order && x in g[u].uses
  {
    if order != [] {
      var n := |order| - 1;
      assert order[n] in order;
      UsesFrom(g, order[..n], x);
      if u :| u in order && x in g[u].uses {
        assert u in order[..n] || u == order[n];
      }
    }
  }

  predicate Distinct(s: seq<Usr>) { forall i, j :: 0 <= i < j < |s| ==> s[i] != s[j] }

  lemma ReachesStep<U>(g: Functions<U>, root: Usr, u: Usr, v: Usr, bases: bool)
    requires Reaches(g, root, u, bases) && IsStep(g, u, v, bases)
    ensures Reaches(g, root, v, bases)
  {
    hide IsStep;
    var path :| IsPath(g, root, path, u, bases);
    forall k: nat
      ensures StepAt(g, path + [v], k, bases)
    {
      assert StepAt(g, path, k, bases);
    }
    assert IsPath(g, root, path + [v], v, bases);
  }

  ghost predicate ClosedUnderSteps<U>(g: Functions<U>, seen: set<Usr>, bases: bool) {
    forall w, v :: w in seen && IsStep(g, w, v, bases) ==> v in seen
  }

  // A set closed under steps holds everything reachable.
  lemma {:induction false} ClosedHoldsReachable<U>(g: Functions<U>, root: Usr, path: seq<Usr>, u: Usr, bases: bool, seen: set<Usr>)
    requires IsPath(g, root, path, u, bases) && root in seen && ClosedUnderSteps(g, seen, bases)
    ensures u in seen
    decreases |path|
  {
    hide IsStep;
    if |path| > 1 {
      var n := |path| - 1;
      forall k: nat
        ensures StepAt(g, path[..n], k, bases)
      {
        assert StepAt(g, path, k, bases);
      }
      ClosedHoldsReachable(g, root, path[..n], path[n - 1], bases, seen);
      assert StepAt(g, path, n, bases);
    }
  }

  // What has been collected: seen without the root, in the order met.
  ghost predicate Collected<U>(g: Functions<U>, root: Usr, seen: set<Usr>, order: seq<Usr>, ret: seq<U>, bases: bool) {
    && root in seen && seen <= g.Keys
    && (forall u :: u in seen ==> Reaches(g, root, u, bases))
    && Distinct(order) && (forall u :: u in order <==> u in seen && u != root)
    && (forall u :: u in order ==> u in g)
    && ret == AllUses(g, order)
  }

  lemma CollectOne<U>(g: Functions<U>, root: Usr, seen: set<Usr>, order: seq<Usr>, ret: seq<U>, bases: bool, u: Usr, v: Usr)
    requires Collected(g, root, seen, order, ret, bases) && u in seen && IsStep(g, u, v, bases) && v !in seen
    ensures Collected(g, root, seen + {v}, order + [v], ret + g[v].uses, bases)
  {
    ReachesStep(g, root, u, v, bases);
    assert Defined(g, v);
    hide Reaches, IsStep;
    assert (order + [v])[..|order|] == order;
  }

  // Every seen function either waits on the stack or has had its steps seen.
  ghost predicate Explored<U>(g: Functions<U>, seen: set<Usr>, stack: seq<Usr>, bases: bool) {
    && seen <= g.Keys && (forall u :: u in stack ==> u in seen)
    && forall w, v :: w in seen && w !in stack && IsStep(g, w, v, bases) ==> v in seen
  }

  // Both functions: the uses of exactly the reachable functions, the root
  // excluded, each function once; cyclic graphs included.
  method UsesForAll<U>(g: Functions<U>, root: Usr, bases: bool) returns (ret: seq<U>, ghost order: seq<Usr>)
    requires Registered(g) && root in g
    ensures Distinct(order) && forall u :: u in order <==> Reaches(g, root, u, bases) && u != root
    ensures (forall u :: u in order ==> u in g) && ret == AllUses(g, order)
  {
    ret, order := [], [];
    var stack, seen := [root], {root};
    assert IsPath(g, root, [root], root, bases) && Reaches(g, root, root, bases);
    while stack != []
      invariant Collected(g, root, seen, order, ret, bases) && Explored(g, seen, stack, bases)
      decreases |g.Keys - seen|, |stack|
    {
      ret, order, stack, seen := Visit(g, root, bases, ret, order, stack, seen);
    }
    assert ClosedUnderSteps(g, seen, bases);
    hide ClosedUnderSteps, IsPath;
    forall u
      ensures Reaches(g, root, u, bases) <==> u in seen
    {
      if Reaches(g, root, u, bases) {
        var path :| IsPath(g, root, path, u, bases);
        ClosedHoldsReachable(g, root, path, u, bases, seen);
      }
    }
  }

  // Pops a function and pushes what is new one step away.
  method Visit<U>(g: Functions<U>, root: Usr, bases: bool, ret0: seq<U>, ghost order0: seq<Usr>, stack0: seq<Usr>, seen0: set<Usr>)
    returns (ret: seq<U>, ghost order: seq<Usr>, stack: seq<Usr>, seen: set<Usr>)
    requires Registered(g) && stack0 != []
    requires Collected(g, root, seen0, order0, ret0, bases) && Explored(g, seen0, stack0, bases)
    ensures Collected(g, root, seen, order, ret, bases) && Explored(g, seen, stack, bases)
    ensures |g.Keys - seen| < |g.Keys - seen0| || (seen == seen0 && |stack| < |stack0|)
  {
    ret, order, seen := ret0, order0, seen0;
    var u := stack0[|stack0| - 1];
    assert u in stack0;
    stack := stack0[..|stack0| - 1];
    var steps: seq<Usr>;
    if bases {
      var found, d := FindAnyDef(g[u].defs);
      steps := if found then d.bases else [];
    } else {
      steps := g[u].derived;
    }
    assert steps == Steps(g, u, bases);
    ExploredWaits(g, seen, stack0, bases);
    hide Reaches, Collected, Waiting, Explored;
    for k := 0 to |steps|
      invariant Collected(g, root, seen, order, ret, bases) && u in seen && seen0 <= seen <= g.Keys
      invariant Waiting(g, seen, stack, u, bases)
      invariant forall i :: 0 <= i < k && Defined(g, steps[i]) ==> steps[i] in seen
      invariant seen == seen0 ==> |stack| < |stack0|
    {
      var v := steps[k];
      if Defined(g, v) && v !in seen {
        assert IsStep(g, u, v, bases);
        CollectOne(g, root, seen, order, ret, bases, u, v);
        WaitingPush(g, seen, stack, u, v, bases);
        stack, seen, order, ret := stack + [v], seen + {v}, order + [v], ret + g[v].uses;
      }
    }
    WaitingDone(g, seen, stack, u, bases);
    if seen != seen0 { Fewer(g.Keys, seen0, seen); }
  }

  lemma ExploredWaits<U>(g: Functions<U>, seen: set<Usr>, stack: seq<Usr>, bases: bool)
    requires Explored(g, seen, stack, bases) && stack != []
    ensures Waiting(g, seen, stack[..|stack| - 1], stack[|stack| - 1], bases)
  {
    hide IsStep;
    assert stack == stack[..|stack| - 1] + [stack[|stack| - 1]];
  }

  lemma WaitingPush<U>(g: Functions<U>, seen: set<Usr>, stack: seq<Usr>, u: Usr, v: Usr, bases: bool)
    requires Waiting(g, seen, stack, u, bases) && v in g
    ensures Waiting(g, seen + {v}, stack + [v], u, bases)
  {
    hide IsStep;
  }

  lemma WaitingDone<U>(g: Functions<U>, seen: set<Usr>, stack: seq<Usr>, u: Usr, bases: bool)
    requires Waiting(g, seen, stack, u, bases) && u in g
    requires forall i :: 0 <= i < |Steps(g, u, bases)| && Defined(g, Steps(g, u, bases)[i]) ==> Steps(g, u, bases)[i] in seen
    ensures Explored(g, seen, stack, bases)
  {
  }

  // As Explored, but for the function u being visited.
  ghost predicate Waiting<U>(g: Functions<U>, seen: set<Usr>, stack: seq<Usr>, u: Usr, bases: bool) {
    && seen <= g.Keys && (forall w :: w in stack ==> w in seen)
    && forall w, v :: w in seen && w !in stack && w != u && IsStep(g, w, v, bases) ==> v in seen
  }

  lemma Fewer(all: set<Usr>, a: set<Usr>, b: set<Usr>)
    requires a < b <= all
    ensures |all - b| < |all - a|
  {
    var x :| x in b && x !in a;
    assert all - b < all - a;
    StrictlyFewer(all - b, all - a);
  }

  lemma StrictlyFewer(a: set<Usr>, b: set<Usr>)
    requires a < b
    ensures |a| < |b|
  {
    assert b == a + (b - a);
  }
}
