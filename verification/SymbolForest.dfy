// The hierarchical reply of textDocument/documentSymbol
// (src/messages/textDocument_document.cc): a stack of open scopes turns the
// sorted symbols into a forest. Symbols are identified by their place in the
// sorted list; children is the arena of their child lists.
module SymbolForest {
  import opened Positions

  // An admitted symbol: the end of its range and the start of its selection.
  datatype Symbol = Symbol(end: Position, start: Position)

  // ---------- Which scopes are open ----------

  // Scopes that end at or before p are dropped from the top.
  function Popped(syms: seq<Symbol>, scopes: seq<nat>, p: Position): (r: seq<nat>)
    requires forall x :: x in scopes ==> x < |syms|
    ensures r <= scopes
    ensures r != [] ==> r[|r| - 1] < |syms| && !AtOrBefore(syms[r[|r| - 1]].end, p)
    decreases |scopes|
  {
    if scopes == [] then []
    else
      var n := |scopes| - 1;
      assert scopes[n] in scopes && forall x :: x in scopes[..n] ==> x in scopes;
      if AtOrBefore(syms[scopes[n]].end, p) then Popped(syms, scopes[..n], p) else scopes
  }

  // The scopes before symbol k.
  function Scopes(syms: seq<Symbol>, k: nat): (r: seq<nat>)
    requires k <= |syms|
    ensures forall x :: x in r ==> x < k
    decreases k, 0
  {
    if k == 0 then [] else OpenAt(syms, k - 1) + [k - 1]
  }

  // The scopes around symbol k: its ancestors, outermost first.
  function OpenAt(syms: seq<Symbol>, k: nat): (r: seq<nat>)
    requires k < |syms|
    ensures forall x :: x in r ==> x < k
    decreases k, 1
  {
    var before := Scopes(syms, k);
    var r := Popped(syms, before, syms[k].start);
    assert forall x :: x in r ==> x in before;
    r
  }

  // A scope no longer open was ended by a symbol starting at or after its end.
  lemma {:induction false} ClosedByLater(syms: seq<Symbol>, k: nat, j: nat)
    requires j < k <= |syms| && j !in Scopes(syms, k)
    ensures exists i :: j < i < k && AtOrBefore(syms[j].end, syms[i].start)
    decreases k
  {
    var before := Scopes(syms, k - 1);
    assert Scopes(syms, k) == OpenAt(syms, k - 1) + [k - 1];
    assert j != k - 1;
    if j !in before {
      ClosedByLater(syms, k - 1, j);
    } else {
      PoppedEnded(syms, before, syms[k - 1].start, j);
    }
  }

  lemma {:induction false} PoppedEnded(syms: seq<Symbol>, scopes: seq<nat>, p: Position, j: nat)
    requires (forall x :: x in scopes ==> x < |syms|) && j in scopes && j !in Popped(syms, scopes, p)
    ensures AtOrBefore(syms[j].end, p)
    decreases |scopes|
  {
    var n := |scopes| - 1;
    if j != scopes[n] {
      assert scopes == scopes[..n] + [scopes[n]];
      assert forall x :: x in scopes[..n] ==> x in scopes;
      PoppedEnded(syms, scopes[..n], p, j);
    }
  }

  predicate Ascending(s: seq<nat>) { forall i, j :: 0 <= i < j < |s| ==> s[i] < s[j] }

  lemma ScopesSnoc(syms: seq<Symbol>, k: nat)
    requires k < |syms|
    ensures Scopes(syms, k + 1) == OpenAt(syms, k) + [k]
    ensures OpenAt(syms, k) == Popped(syms, Scopes(syms, k), syms[k].start) && OpenAt(syms, k) <= Scopes(syms, k)
    ensures forall i :: 0 <= i < |OpenAt(syms, k)| ==> OpenAt(syms, k)[i] < k
  {
    assert forall i :: 0 <= i < |OpenAt(syms, k)| ==> OpenAt(syms, k)[i] in OpenAt(syms, k);
  }

  lemma {:induction false} ScopesAscend(syms: seq<Symbol>, k: nat)
    requires k <= |syms|
    ensures Ascending(Scopes(syms, k))
  {
    if k > 0 {
      ScopesAscend(syms, k - 1);
      ScopesSnoc(syms, k - 1);
      hide Scopes, OpenAt;
    }
  }

  // Scope l of the stack has not ended at p.
  predicate Lasts(syms: seq<Symbol>, scopes: seq<nat>, l: nat, p: Position) {
    l < |scopes| && scopes[l] < |syms| && !AtOrBefore(syms[scopes[l]].end, p)
  }

  // Dropping from the top keeps exactly what lies at or below a scope that has not
  // ended.
  lemma {:induction false} PoppedIff(syms: seq<Symbol>, scopes: seq<nat>, p: Position, i: nat)
    requires (forall x :: x in scopes ==> x < |syms|) && i < |scopes|
    ensures i < |Popped(syms, scopes, p)| <==> exists l :: i <= l && Lasts(syms, scopes, l, p)
    decreases |scopes|
  {
    var n := |scopes| - 1;
    assert scopes[n] in scopes && forall x :: x in scopes[..n] ==> x in scopes;
    assert Lasts(syms, scopes, n, p) <==> !AtOrBefore(syms[scopes[n]].end, p);
    if AtOrBefore(syms[scopes[n]].end, p) {
      if i < n { PoppedIff(syms, scopes[..n], p, i); }
      assert forall l: nat :: l < n ==> (Lasts(syms, scopes, l, p) <==> Lasts(syms, scopes[..n], l, p));
    }
    hide AtOrBefore;
  }

  // Some scope from j on that is open before symbol k ends after k starts.
  ghost predicate SomeLasts(syms: seq<Symbol>, k: nat, j: nat)
    requires k < |syms|
  {
    exists s :: j <= s < k && s in Scopes(syms, k) && !AtOrBefore(syms[s].end, syms[k].start)
  }

  // A scope stays open around symbol k exactly when it or a later one still open
  // ends after k starts.
  lemma OpenIff(syms: seq<Symbol>, k: nat, j: nat)
    requires j < k < |syms|
    ensures j in OpenAt(syms, k) <==> j in Scopes(syms, k) && SomeLasts(syms, k, j)
  {
    hide Scopes, OpenAt, Popped, AtOrBefore, SomeLasts;
    var before, p := Scopes(syms, k), syms[k].start;
    ScopesAscend(syms, k);
    ScopesSnoc(syms, k);
    if j in before {
      var i :| 0 <= i < |before| && before[i] == j;
      PoppedIff(syms, before, p, i);
      PrefixMember(before, OpenAt(syms, k), i);
      SomeLastsIff(syms, k, i);
    }
  }

  lemma PrefixMember(s: seq<nat>, r: seq<nat>, i: nat)
    requires Ascending(s) && r <= s && i < |s|
    ensures s[i] in r <==> i < |r|
  {
    if i < |r| { assert r[i] == s[i]; }
  }

  lemma SomeLastsIff(syms: seq<Symbol>, k: nat, i: nat)
    requires k < |syms| && i < |Scopes(syms, k)| && Ascending(Scopes(syms, k))
    ensures SomeLasts(syms, k, Scopes(syms, k)[i]) <==> exists l :: i <= l && Lasts(syms, Scopes(syms, k), l, syms[k].start)
  {
    hide Scopes, AtOrBefore;
    var before := Scopes(syms, k);
    if l :| i <= l && Lasts(syms, before, l, syms[k].start) {
      assert before[l] in before && before[i] <= before[l];
    }
    if s :| before[i] <= s < k && s in before && !AtOrBefore(syms[s].end, syms[k].start) {
      var l :| 0 <= l < |before| && before[l] == s;
      assert i <= l && Lasts(syms, before, l, syms[k].start);
    }
  }

  // Once dropped, a scope is not opened again.
  lemma {:induction false} OpenBefore(syms: seq<Symbol>, k: nat, j: nat, s: nat)
    requires j < s < k <= |syms| && j in Scopes(syms, k)
    ensures j in OpenAt(syms, s)
    decreases k
  {
    ScopesSnoc(syms, k - 1);
    hide Scopes, OpenAt;
    assert j in OpenAt(syms, k - 1);
    if s < k - 1 { OpenBefore(syms, k - 1, j, s); }
  }

  // Symbols are sorted by their starts, and each ends before a later one starts or
  // not before it ends.
  predicate Nested(syms: seq<Symbol>) {
    forall i, j :: 0 <= i < j < |syms| ==>
      AtOrBefore(syms[i].start, syms[j].start) && (AtOrBefore(syms[i].end, syms[j].start) || AtOrBefore(syms[j].end, syms[i].end))
  }

  // A scope that ends after symbol k starts is open around it.
  lemma {:induction false} StaysOpen(syms: seq<Symbol>, k: nat, j: nat)
    requires Nested(syms) && j < k < |syms| && !AtOrBefore(syms[j].end, syms[k].start)
    ensures j in OpenAt(syms, k)
    decreases k
  {
    ScopesSnoc(syms, k - 1);
    OpenIff(syms, k, j);
    hide Scopes, OpenAt;
    if j < k - 1 { StaysOpen(syms, k - 1, j); }
    assert SomeLasts(syms, k, j);
  }

  lemma {:induction false} ClosesInTime(syms: seq<Symbol>, k: nat, j: nat)
    requires Nested(syms) && j < k < |syms| && AtOrBefore(syms[j].end, syms[k].start)
    ensures j !in OpenAt(syms, k)
    decreases k
  {
    OpenIff(syms, k, j);
    hide Scopes, OpenAt;
    if j in OpenAt(syms, k) {
      var s :| j <= s < k && s in Scopes(syms, k) && !AtOrBefore(syms[s].end, syms[k].start);
      OpenBefore(syms, k, j, s);
      assert AtOrBefore(syms[j].end, syms[s].start);
      ClosesInTime(syms, s, j);
    }
  }

  // The scopes around a nested symbol are exactly the earlier ones that end after it
  // starts.
  lemma NestedOpen(syms: seq<Symbol>, k: nat, j: nat)
    requires Nested(syms) && j < k < |syms|
    ensures j in OpenAt(syms, k) <==> !AtOrBefore(syms[j].end, syms[k].start)
  {
    if AtOrBefore(syms[j].end, syms[k].start) { ClosesInTime(syms, k, j); } else { StaysOpen(syms, k, j); }
  }

  // ---------- Preorder ----------

  type Arena = seq<seq<nat>>

  // Children come after their parents, in ascending order.
  predicate Forward(ch: Arena) {
    forall x, i :: 0 <= x < |ch| && 0 <= i < |ch[x]| ==> x < ch[x][i] < |ch| && (i > 0 ==> ch[x][i - 1] < ch[x][i])
  }

  ghost function Pre(ch: Arena, x: nat): seq<nat>
    requires Forward(ch) && x < |ch|
    decreases |ch| - x, 1, 0
  {
    [x] + PreList(ch, ch[x], x)
  }

  // The preorders of the nodes cs, all after x, one after the other.
  ghost function PreList(ch: Arena, cs: seq<nat>, x: int): seq<nat>
    requires Forward(ch) && x < |ch| && forall i :: 0 <= i < |cs| ==> x < cs[i] < |ch|
    decreases |ch| - x, 0, |cs|
  {
    if cs == [] then [] else PreList(ch, cs[..|cs| - 1], x) + Pre(ch, cs[|cs| - 1])
  }

  function Span(a: nat, b: nat): seq<nat> { if a >= b then [] else Span(a, b - 1) + [b - 1] }

  lemma {:induction false} SpanMember(a: nat, b: nat, y: nat)
    ensures y in Span(a, b) <==> a <= y < b
  {
    if a < b { SpanMember(a, b - 1, y); }
  }

  predicate Agree(ch: Arena, ch': Arena, s: seq<nat>) {
    |ch| == |ch'| && forall y :: y in s ==> y < |ch| && ch[y] == ch'[y]
  }

  // Preorders only depend on the child lists of the nodes in them.
  lemma {:induction false} PreFrame(ch: Arena, ch': Arena, x: nat)
    requires Forward(ch) && Forward(ch') && x < |ch| && Agree(ch, ch', Pre(ch, x))
    ensures Pre(ch, x) == Pre(ch', x)
    decreases |ch| - x, 1, 0
  {
    var rest := PreList(ch, ch[x], x);
    assert Pre(ch, x) == [x] + rest && x in Pre(ch, x);
    assert forall y :: y in rest ==> y in Pre(ch, x);
    PreListFrame(ch, ch', ch[x], x);
  }

  lemma {:induction false} PreListFrame(ch: Arena, ch': Arena, cs: seq<nat>, x: int)
    requires Forward(ch) && Forward(ch') && x < |ch| && forall i :: 0 <= i < |cs| ==> x < cs[i] < |ch|
    requires |ch| == |ch'| && Agree(ch, ch', PreList(ch, cs, x))
    ensures PreList(ch, cs, x) == PreList(ch', cs, x)
    decreases |ch| - x, 0, |cs|
  {
    if cs != [] {
      var front, last := PreList(ch, cs[..|cs| - 1], x), Pre(ch, cs[|cs| - 1]);
      assert PreList(ch, cs, x) == front + last;
      assert forall y :: y in front || y in last ==> y in PreList(ch, cs, x);
      PreListFrame(ch, ch', cs[..|cs| - 1], x);
      PreFrame(ch, ch', cs[|cs| - 1]);
    }
  }

  lemma PreListSnoc(ch: Arena, cs: seq<nat>, c: nat, x: int)
    requires Forward(ch) && x < c < |ch| && forall i :: 0 <= i < |cs| ==> x < cs[i] < |ch|
    ensures PreList(ch, cs + [c], x) == PreList(ch, cs, x) + Pre(ch, c)
  {
    assert (cs + [c])[..|cs|] == cs;
  }

  // ---------- The forest under construction ----------

  // Child lists and roots among the first k symbols.
  predicate Built(ch: Arena, res: seq<nat>, k: nat) {
    && Forward(ch) && k <= |ch|
    && (forall x :: k <= x < |ch| ==> ch[x] == [])
    && (forall x, i :: 0 <= x < k && 0 <= i < |ch[x]| ==> ch[x][i] < k)
    && (forall i :: 0 <= i < |res| ==> res[i] < k && (i > 0 ==> res[i - 1] < res[i]))
  }

  // The preorder of x covers the symbols from x up to to[x]; open scopes reach
  // to the end, and no other node's span holds one.
  ghost predicate Spans(ch: Arena, stack: seq<nat>, to: seq<nat>, k: nat)
    requires Forward(ch)
  {
    && k <= |ch| == |to|
    && (forall x :: 0 <= x < k ==> x < to[x] <= k && Pre(ch, x) == Span(x, to[x]))
    && (forall i :: 0 <= i < |stack| ==> stack[i] < k && to[stack[i]] == k)
    && (forall i, j :: 0 <= i < j < |stack| ==> stack[i] < stack[j])
    && (forall x, i :: 0 <= x < k && x !in stack && 0 <= i < |stack| ==> stack[i] < x || to[x] <= stack[i])
  }

  predicate LastOf(s: seq<nat>, x: nat) { s != [] && s[|s| - 1] == x }

  // The open scopes are the chain of last children from the last root.
  predicate Spine(ch: Arena, res: seq<nat>, stack: seq<nat>) {
    && (forall i :: 0 <= i < |stack| ==> stack[i] < |ch|)
    && (stack != [] ==> LastOf(res, stack[0]))
    && (forall i :: 0 <= i < |stack| - 1 ==> LastOf(ch[stack[i]], stack[i + 1]))
  }

  lemma {:induction false} AllBelow(stack: seq<nat>, i: nat, k: nat)
    requires i < |stack| && forall i, j :: 0 <= i < j < |stack| ==> stack[i] < stack[j]
    ensures forall j :: 0 <= j < |stack| && stack[j] < stack[i] ==> j < i
    ensures forall x :: stack[i] < x && (i + 1 < |stack| ==> x < stack[i + 1]) ==> x !in stack
  {
    forall j | 0 <= j < |stack|
      ensures stack[j] < stack[i] ==> j < i
      ensures stack[i] < stack[j] ==> i < j && (i + 1 < |stack| && stack[i + 1] <= stack[j])
    {
      if j > i + 1 { assert stack[i + 1] < stack[j]; }
    }
  }

  // Adding symbol k as the last child of the innermost open scope, or as a root.
  function Added(ch: Arena, stack: seq<nat>, k: nat): Arena
    requires forall i :: 0 <= i < |stack| ==> stack[i] < |ch|
  {
    if stack == [] then ch
    else
      var p := stack[|stack| - 1];
      ch[p := ch[p] + [k]]
  }

  // Nodes that are not open keep their preorder.
  lemma OthersKept(ch: Arena, res: seq<nat>, stack: seq<nat>, to: seq<nat>, k: nat, x: nat)
    requires Built(ch, res, k) && Spans(ch, stack, to, k) && k < |ch| && x < k && x !in stack
    requires Forward(Added(ch, stack, k))
    ensures Pre(Added(ch, stack, k), x) == Span(x, to[x])
  {
    var ch' := Added(ch, stack, k);
    forall y | y in Pre(ch, x)
      ensures y < |ch| && ch[y] == ch'[y]
    {
      SpanMember(x, to[x], y);
    }
    PreFrame(ch, ch', x);
  }

  lemma AddedForward(ch: Arena, res: seq<nat>, stack: seq<nat>, k: nat)
    requires Built(ch, res, k) && k < |ch| && forall i :: 0 <= i < |stack| ==> stack[i] < k
    ensures Forward(Added(ch, stack, k))
    ensures Built(Added(ch, stack, k), if stack == [] then res + [k] else res, k + 1)
  {
  }

  // A list of earlier children is traversed as before.
  lemma {:induction false} ListKept(ch: Arena, res: seq<nat>, stack: seq<nat>, to: seq<nat>, k: nat, cs: seq<nat>, x: int)
    requires Built(ch, res, k) && Spans(ch, stack, to, k) && k < |ch| && x < |ch| && Forward(Added(ch, stack, k))
    requires forall i :: 0 <= i < |cs| ==> x < cs[i] < k && cs[i] !in stack
    ensures PreList(Added(ch, stack, k), cs, x) == PreList(ch, cs, x)
  {
    hide Spans;
    if cs != [] {
      var last := cs[|cs| - 1];
      ListKept(ch, res, stack, to, k, cs[..|cs| - 1], x);
      OthersKept(ch, res, stack, to, k, last);
      SpanOf(ch, stack, to, k, last);
    }
  }

  lemma SpanOf(ch: Arena, stack: seq<nat>, to: seq<nat>, k: nat, x: nat)
    requires Forward(ch) && Spans(ch, stack, to, k) && x < k
    ensures k <= |ch| == |to| && x < to[x] <= k && Pre(ch, x) == Span(x, to[x])
  {
  }

  lemma Alone(ch: Arena, k: nat)
    requires Forward(ch) && k < |ch| && ch[k] == []
    ensures Pre(ch, k) == [k] == Span(k, k + 1)
  {
    assert Span(k, k) == [];
  }

  // Earlier members of an ascending list are not open scopes from its last on.
  predicate BelowStack(cs: seq<nat>, stack: seq<nat>) {
    forall i :: 0 <= i < |cs| ==> cs[i] !in stack
  }

  lemma FrontNotOpen(ch: Arena, res: seq<nat>, stack: seq<nat>, to: seq<nat>, k: nat, i: nat)
    requires Built(ch, res, k) && Spans(ch, stack, to, k) && Spine(ch, res, stack) && i < |stack|
    ensures i == |stack| - 1 ==> BelowStack(ch[stack[i]], stack)
    ensures i < |stack| - 1 ==> ch[stack[i]] != [] && BelowStack(ch[stack[i]][..|ch[stack[i]]| - 1], stack)
  {
    var cs := ch[stack[i]];
    AllBelow(stack, i, k);
    if i < |stack| - 1 { assert LastOf(cs, stack[i + 1]); }
    forall j | 0 <= j < |cs| && (i < |stack| - 1 ==> j < |cs| - 1)
      ensures cs[j] !in stack
    {
      Climbs(ch, stack[i], j, |cs| - 1);
    }
  }

  lemma {:induction false} Climbs(ch: Arena, x: nat, j: nat, l: nat)
    requires Forward(ch) && x < |ch| && j <= l < |ch[x]|
    ensures ch[x][j] <= ch[x][l] && (j < l ==> ch[x][j] < ch[x][l])
  {
    if j < l { Climbs(ch, x, j, l - 1); }
  }

  lemma {:induction false} RootsClimb(ch: Arena, res: seq<nat>, k: nat, j: nat, l: nat)
    requires Built(ch, res, k) && j < l < |res|
    ensures res[j] < res[l]
  {
    if j < l - 1 { RootsClimb(ch, res, k, j, l - 1); }
  }

  // The spans of open scopes grow by the new symbol.
  lemma {:induction false} OpenGrow(ch: Arena, res: seq<nat>, stack: seq<nat>, to: seq<nat>, k: nat, i: nat)
    requires Built(ch, res, k) && Spans(ch, stack, to, k) && Spine(ch, res, stack) && k < |ch| && i < |stack|
    requires Forward(Added(ch, stack, k))
    ensures Pre(Added(ch, stack, k), stack[i]) == Span(stack[i], k + 1)
    decreases |stack| - i
  {
    hide Pre, PreList, Span, Spans, Spine, Built, Added, Forward;
    if i == |stack| - 1 {
      OpenLast(ch, res, stack, to, k);
    } else {
      OpenGrow(ch, res, stack, to, k, i + 1);
      OpenChild(ch, res, stack, to, k, i);
    }
  }

  lemma PreOf(ch: Arena, x: nat)
    requires Forward(ch) && x < |ch|
    ensures Pre(ch, x) == [x] + PreList(ch, ch[x], x)
  {
  }

  // The innermost open scope gets the new symbol as its last child.
  lemma OpenLast(ch: Arena, res: seq<nat>, stack: seq<nat>, to: seq<nat>, k: nat)
    requires Built(ch, res, k) && Spans(ch, stack, to, k) && Spine(ch, res, stack) && k < |ch| && stack != []
    requires Forward(Added(ch, stack, k))
    ensures Pre(Added(ch, stack, k), stack[|stack| - 1]) == Span(stack[|stack| - 1], k + 1)
  {
    hide Pre, PreList, Span;
    var ch', x := Added(ch, stack, k), stack[|stack| - 1];
    FrontNotOpen(ch, res, stack, to, k, |stack| - 1);
    SpanOf(ch, stack, to, k, x);
    assert to[x] == k && ch'[x] == ch[x] + [k] && ch'[k] == [];
    ChildrenBelow(ch, res, k, x);
    ListKept(ch, res, stack, to, k, ch[x], x);
    hide Spans, Spine, Built, Added;
    PreOf(ch, x);
    PreUnfold(ch', x, ch[x], k);
    Alone(ch', k);
    SpanSnoc(x, k);
    assert [x] + (PreList(ch, ch[x], x) + [k]) == ([x] + PreList(ch, ch[x], x)) + [k];
  }

  lemma PreUnfold(ch: Arena, x: nat, front: seq<nat>, last: nat)
    requires Forward(ch) && x < |ch| && ch[x] == front + [last]
    ensures (forall i :: 0 <= i < |front| ==> x < front[i] < |ch|) && x < last < |ch|
    ensures Pre(ch, x) == [x] + (PreList(ch, front, x) + Pre(ch, last))
  {
    assert ch[x][|front|] == last;
    assert forall i :: 0 <= i < |front| ==> ch[x][i] == front[i];
    PreListSnoc(ch, front, last, x);
  }

  lemma Regroup(x: nat, f: seq<nat>, s: seq<nat>, k: nat)
    ensures [x] + (f + (s + [k])) == ([x] + (f + s)) + [k]
  {
  }

  lemma SpanSnoc(a: nat, b: nat)
    requires a <= b
    ensures Span(a, b + 1) == Span(a, b) + [b]
  {
  }

  lemma OpenFacts(ch: Arena, res: seq<nat>, stack: seq<nat>, to: seq<nat>, k: nat, i: nat)
    requires Built(ch, res, k) && Spans(ch, stack, to, k) && Spine(ch, res, stack) && k < |ch| && i < |stack| - 1
    ensures var x, last := stack[i], stack[i + 1];
      && x < last < k && ch[x] != [] && ch[x] == ch[x][..|ch[x]| - 1] + [last] && Added(ch, stack, k)[x] == ch[x]
      && Pre(ch, x) == Span(x, k) && Pre(ch, last) == Span(last, k)
  {
    var x, last := stack[i], stack[i + 1];
    assert LastOf(ch[x], last) && to[x] == k && to[last] == k;
    SpanOf(ch, stack, to, k, x);
    SpanOf(ch, stack, to, k, last);
    hide Pre, PreList, Span;
  }

  lemma OpenChild(ch: Arena, res: seq<nat>, stack: seq<nat>, to: seq<nat>, k: nat, i: nat)
    requires Built(ch, res, k) && Spans(ch, stack, to, k) && Spine(ch, res, stack) && k < |ch| && i < |stack| - 1
    requires Forward(Added(ch, stack, k))
    requires Pre(Added(ch, stack, k), stack[i + 1]) == Span(stack[i + 1], k + 1)
    ensures Pre(Added(ch, stack, k), stack[i]) == Span(stack[i], k + 1)
  {
    var ch', x, last := Added(ch, stack, k), stack[i], stack[i + 1];
    OpenFacts(ch, res, stack, to, k, i);
    FrontNotOpen(ch, res, stack, to, k, i);
    ChildrenBelow(ch, res, k, x);
    hide Pre, PreList, Span, Spans, Spine, Built, Added;
    var front := ch[x][..|ch[x]| - 1];
    PreUnfold(ch, x, front, last);
    PreUnfold(ch', x, front, last);
    ListKept(ch, res, stack, to, k, front, x);
    SpanSnoc(last, k);
    SpanSnoc(x, k);
    Regroup(x, PreList(ch, front, x), Span(last, k), k);
  }

  lemma ChildrenBelow(ch: Arena, res: seq<nat>, k: nat, x: nat)
    requires Built(ch, res, k) && x < k
    ensures forall i :: 0 <= i < |ch[x]| ==> x < ch[x][i] < k
  {
  }

  // The forest as a whole.
  lemma RootsGrow(ch: Arena, res: seq<nat>, stack: seq<nat>, to: seq<nat>, k: nat)
    requires Built(ch, res, k) && Spans(ch, stack, to, k) && Spine(ch, res, stack) && k < |ch|
    requires Forward(Added(ch, stack, k)) && PreList(ch, res, -1) == Span(0, k)
    ensures var res' := if stack == [] then res + [k] else res;
      (forall i :: 0 <= i < |res'| ==> res'[i] < |ch|) && PreList(Added(ch, stack, k), res', -1) == Span(0, k + 1)
  {
    hide Pre, PreList, Span, Spans;
    if stack == [] {
      PreListSnoc(ch, res, k, -1);
      Alone(ch, k);
      SpanSnoc(0, k);
    } else {
      LastRoot(ch, res, stack, to, k);
      var front := res[..|res| - 1];
      ListKept(ch, res, stack, to, k, front, -1);
      OpenGrow(ch, res, stack, to, k, 0);
      hide Spine, Built;
      LastRootGrows(ch, Added(ch, stack, k), front, stack[0], k);
    }
  }

  // The outermost open scope is the last root, and the others are not open.
  lemma LastRoot(ch: Arena, res: seq<nat>, stack: seq<nat>, to: seq<nat>, k: nat)
    requires Built(ch, res, k) && Spans(ch, stack, to, k) && Spine(ch, res, stack) && k < |ch| && stack != []
    ensures res != [] && res == res[..|res| - 1] + [stack[0]] && stack[0] < k && Pre(ch, stack[0]) == Span(stack[0], k)
    ensures var front := res[..|res| - 1]; forall j :: 0 <= j < |front| ==> front[j] < k && front[j] !in stack
  {
    hide Pre, Span;
    var n := |res| - 1;
    AllBelow(stack, 0, k);
    forall j | 0 <= j < n
      ensures res[..n][j] !in stack
    {
      RootsClimb(ch, res, k, j, n);
    }
    SpanOf(ch, stack, to, k, stack[0]);
  }

  // Only the preorder of the last root grows.
  lemma LastRootGrows(ch: Arena, ch': Arena, front: seq<nat>, x: nat, k: nat)
    requires Forward(ch) && Forward(ch') && x <= k < |ch| == |ch'| && forall i :: 0 <= i < |front| ==> front[i] < |ch|
    requires PreList(ch', front, -1) == PreList(ch, front, -1)
    requires Pre(ch, x) == Span(x, k) && Pre(ch', x) == Span(x, k + 1) && PreList(ch, front + [x], -1) == Span(0, k)
    ensures PreList(ch', front + [x], -1) == Span(0, k + 1)
  {
    hide Pre, PreList, Span;
    PreListSnoc(ch, front, x, -1);
    PreListSnoc(ch', front, x, -1);
    SpanSnoc(0, k);
    SpanSnoc(x, k);
    assert PreList(ch, front, -1) + (Span(x, k) + [k]) == (PreList(ch, front, -1) + Span(x, k)) + [k];
  }

  // Dropping scopes from the top.
  lemma PopSpans(ch: Arena, res: seq<nat>, stack: seq<nat>, to: seq<nat>, k: nat, r: seq<nat>)
    requires Built(ch, res, k) && Spans(ch, stack, to, k) && Spine(ch, res, stack) && r <= stack
    ensures Spans(ch, r, to, k) && Spine(ch, res, r)
  {
    forall x, i | 0 <= x < k && x !in r && 0 <= i < |r|
      ensures r[i] < x || to[x] <= r[i]
    {
      if x in stack {
        var j :| 0 <= j < |stack| && stack[j] == x;
        assert j >= |r|;
      }
    }
  }

  function Reaching(to: seq<nat>, stack: seq<nat>, k: nat): seq<nat> {
    seq(|to|, x requires 0 <= x < |to| => if x in stack || x == k then k + 1 else to[x])
  }

  lemma AddSpans(ch: Arena, res: seq<nat>, stack: seq<nat>, to: seq<nat>, k: nat)
    requires Built(ch, res, k) && Spans(ch, stack, to, k) && Spine(ch, res, stack) && k < |ch|
    requires Forward(Added(ch, stack, k))
    ensures Spans(Added(ch, stack, k), stack + [k], Reaching(to, stack, k), k + 1)
  {
    var ch', to' := Added(ch, stack, k), Reaching(to, stack, k);
    forall x | 0 <= x < k + 1
      ensures x < to'[x] <= k + 1 && Pre(ch', x) == Span(x, to'[x])
    {
      if x == k {
        Alone(ch', k);
      } else if x in stack {
        var i :| 0 <= i < |stack| && stack[i] == x;
        OpenGrow(ch, res, stack, to, k, i);
      } else {
        SpanOf(ch, stack, to, k, x);
        OthersKept(ch, res, stack, to, k, x);
      }
    }
    hide Pre, Span;
  }

  lemma AddSpine(ch: Arena, res: seq<nat>, stack: seq<nat>, to: seq<nat>, k: nat)
    requires Built(ch, res, k) && Spans(ch, stack, to, k) && Spine(ch, res, stack) && k < |ch|
    ensures Spine(Added(ch, stack, k), if stack == [] then res + [k] else res, stack + [k])
  {
    hide Pre, Span;
    var ch', stack' := Added(ch, stack, k), stack + [k];
    forall i | 0 <= i < |stack'| - 1
      ensures LastOf(ch'[stack'[i]], stack'[i + 1])
    {
      if i < |stack| - 1 { assert LastOf(ch[stack[i]], stack[i + 1]); }
    }
  }

  // ---------- The algorithm ----------

  // Symbol k hangs where it should: under the innermost scope open at its start.
  predicate Placed(syms: seq<Symbol>, ch: Arena, res: seq<nat>, k: nat)
    requires k < |syms| == |ch|
  {
    var open := OpenAt(syms, k);
    if open == [] then k in res else open[|open| - 1] < |ch| && k in ch[open[|open| - 1]]
  }

  predicate AllPlaced(syms: seq<Symbol>, ch: Arena, res: seq<nat>, k: nat) {
    k <= |syms| == |ch| && forall l :: 0 <= l < k ==> Placed(syms, ch, res, l)
  }

  // With nested symbols every symbol hangs under the last one before it that ends
  // after it starts, or is a root.
  lemma NestedParent(syms: seq<Symbol>, ch: Arena, res: seq<nat>, k: nat)
    requires Nested(syms) && k < |syms| == |ch| && Placed(syms, ch, res, k)
    ensures (forall j :: 0 <= j < k ==> AtOrBefore(syms[j].end, syms[k].start)) ==> k in res
    ensures forall p :: 0 <= p < k && !AtOrBefore(syms[p].end, syms[k].start) && (forall j :: p < j < k ==> AtOrBefore(syms[j].end, syms[k].start)) ==> k in ch[p]
  {
    var open := OpenAt(syms, k);
    ScopesAscend(syms, k);
    ScopesSnoc(syms, k);
    forall j | 0 <= j < k
      ensures j in open <==> !AtOrBefore(syms[j].end, syms[k].start)
    {
      NestedOpen(syms, k, j);
    }
    hide Scopes, OpenAt, Nested, AtOrBefore;
    LastIsGreatest(open, k);
  }

  lemma LastIsGreatest(s: seq<nat>, k: nat)
    requires Ascending(s) && forall i :: 0 <= i < |s| ==> s[i] < k
    ensures s != [] ==> s[|s| - 1] in s && s[|s| - 1] < k
    ensures forall p: nat :: p in s && (forall j :: p < j < k ==> j !in s) ==> p == s[|s| - 1]
  {
    forall p: nat | p in s && (forall j :: p < j < k ==> j !in s)
      ensures p == s[|s| - 1]
    {
      assert s[|s| - 1] in s;
    }
  }

  // Drops the scopes that ended.
  method PopScopes(syms: seq<Symbol>, scopes0: seq<nat>, start: Position) returns (scopes: seq<nat>)
    requires forall x :: x in scopes0 ==> x < |syms|
    ensures scopes == Popped(syms, scopes0, start)
  {
    scopes := scopes0;
    assert forall i :: 0 <= i < |scopes| ==> scopes[i] in scopes;
    while scopes != [] && AtOrBefore(syms[scopes[|scopes| - 1]].end, start)
      invariant forall x :: x in scopes ==> x < |syms|
      invariant forall i :: 0 <= i < |scopes| ==> scopes[i] < |syms|
      invariant Popped(syms, scopes, start) == Popped(syms, scopes0, start)
      decreases |scopes|
    {
      assert forall x :: x in scopes[..|scopes| - 1] ==> x in scopes;
      scopes := scopes[..|scopes| - 1];
    }
  }

  // One symbol: pop, hang, push.
  method AddSymbol(syms: seq<Symbol>, k: nat, children: array<seq<nat>>, res0: seq<nat>, scopes0: seq<nat>, ghost to: seq<nat>)
    returns (res: seq<nat>, scopes: seq<nat>)
    requires k < |syms| && scopes0 == Scopes(syms, k)
    requires Grown(children[..], res0, scopes0, to, k) && AllPlaced(syms, children[..], res0, k)
    modifies children
    ensures scopes == Scopes(syms, k + 1)
    ensures Grown(children[..], res, scopes, Reaching(to, OpenAt(syms, k), k), k + 1) && AllPlaced(syms, children[..], res, k + 1)
  {
    ghost var ch := children[..];
    ghost var open := OpenAt(syms, k);
    Step(syms, ch, res0, scopes0, to, k);
    PlacedStep(syms, ch, res0, open, k);
    scopes := PopScopes(syms, scopes0, syms[k].start);
    res := res0;
    hide Grown, AllPlaced;
    if scopes == [] {
      res := res + [k];
    } else {
      var p := scopes[|scopes| - 1];
      children[p] := children[p] + [k];
    }
    assert children[..] == Added(ch, open, k);
    scopes := scopes + [k];
  }

  // The forest has the sorted symbols as its preorder, each once, and every
  // symbol hangs under the innermost scope still open where it starts.
  method BuildForest(syms: seq<Symbol>) returns (children: array<seq<nat>>, res: seq<nat>)
    ensures children.Length == |syms| && Built(children[..], res, |syms|)
    ensures PreList(children[..], res, -1) == Span(0, |syms|)
    ensures forall k :: 0 <= k < |syms| ==> Placed(syms, children[..], res, k)
  {
    children := new seq<nat>[|syms|](_ => []);
    res := [];
    var scopes: seq<nat> := [];
    ghost var to: seq<nat> := seq(|syms|, _ => 0);
    NothingBuilt(syms, children[..], to);
    hide Grown, AllPlaced;
    for k := 0 to |syms|
      invariant scopes == Scopes(syms, k) && Grown(children[..], res, scopes, to, k) && AllPlaced(syms, children[..], res, k)
    {
      res, scopes := AddSymbol(syms, k, children, res, scopes, to);
      to := Reaching(to, OpenAt(syms, k), k);
    }
    Finished(syms, children[..], res, scopes, to);
  }

  lemma Finished(syms: seq<Symbol>, ch: Arena, res: seq<nat>, stack: seq<nat>, to: seq<nat>)
    requires Grown(ch, res, stack, to, |syms|) && AllPlaced(syms, ch, res, |syms|)
    ensures Built(ch, res, |syms|) && PreList(ch, res, -1) == Span(0, |syms|)
    ensures |ch| == |syms| && forall k :: 0 <= k < |syms| ==> Placed(syms, ch, res, k)
  {
  }

  ghost predicate Grown(ch: Arena, res: seq<nat>, stack: seq<nat>, to: seq<nat>, k: nat) {
    && Built(ch, res, k) && Spans(ch, stack, to, k) && Spine(ch, res, stack) && PreList(ch, res, -1) == Span(0, k)
  }

  lemma NothingBuilt(syms: seq<Symbol>, ch: Arena, to: seq<nat>)
    requires |to| == |ch| == |syms| && forall x :: 0 <= x < |ch| ==> ch[x] == []
    ensures Grown(ch, [], [], to, 0) && AllPlaced(syms, ch, [], 0)
  {
  }

  lemma Step(syms: seq<Symbol>, ch: Arena, res: seq<nat>, stack: seq<nat>, to: seq<nat>, k: nat)
    requires k < |syms| == |ch| && stack == Scopes(syms, k) && Grown(ch, res, stack, to, k)
    ensures var open := OpenAt(syms, k);
      && (forall i :: 0 <= i < |open| ==> open[i] < k)
      && Grown(Added(ch, open, k), if open == [] then res + [k] else res, open + [k], Reaching(to, open, k), k + 1)
  {
    var open := OpenAt(syms, k);
    assert forall i :: 0 <= i < |open| ==> open[i] in open;
    hide Pre, Span;
    PopSpans(ch, res, stack, to, k, open);
    hide Spans, Spine;
    AddedForward(ch, res, open, k);
    AddSpans(ch, res, open, to, k);
    AddSpine(ch, res, open, to, k);
    RootsGrow(ch, res, open, to, k);
  }

  lemma PlacedStep(syms: seq<Symbol>, ch: Arena, res: seq<nat>, open: seq<nat>, k: nat)
    requires k < |syms| == |ch| && open == OpenAt(syms, k) && forall i :: 0 <= i < |open| ==> open[i] < k
    requires AllPlaced(syms, ch, res, k)
    ensures AllPlaced(syms, Added(ch, open, k), if open == [] then res + [k] else res, k + 1)
  {
    var ch', res' := Added(ch, open, k), if open == [] then res + [k] else res;
    forall l | 0 <= l < k + 1
      ensures Placed(syms, ch', res', l)
    {
      if l < k { assert Placed(syms, ch, res, l); }
    }
  }
}
