/**
  Kahn's algorithm over the prompt catalog (prompt_engine/dependency_graph.py).

  An edge (d, p) stands for one entry d in the dependency list of prompt p; a
  dependency listed twice is two edges.  The loop keeps, for every prompt, the
  number of its edges whose source has not been emitted yet.
*/
module DependencyGraphs {
  import opened Wrappers
  import opened PromptTypes
  import opened PyOrder

  type Edge = (string, string)

  datatype GraphError = MissingDependencies(missing: seq<Edge>) | CircularDependency

  // ----- The dependency relation of a catalog -----

  function EdgesOf(p: Prompt): seq<Edge> {
    seq(|p.dependencies|, i requires 0 <= i < |p.dependencies| => (p.dependencies[i], p.promptId))
  }

  function Edges(prompts: seq<Prompt>): seq<Edge> {
    if prompts == [] then [] else Edges(prompts[..|prompts| - 1]) + EdgesOf(prompts[|prompts| - 1])
  }

  function IdSet(prompts: seq<Prompt>): set<string> {
    set i | 0 <= i < |prompts| :: prompts[i].promptId
  }

  predicate DependsOn(prompts: seq<Prompt>, p: string, d: string) {
    exists i :: 0 <= i < |prompts| && prompts[i].promptId == p && d in prompts[i].dependencies
  }

  predicate NoMissing(prompts: seq<Prompt>) {
    forall i, d :: 0 <= i < |prompts| && d in prompts[i].dependencies ==> d in IdSet(prompts)
  }

  /** Every element depends on the next one. */
  predicate IsWalk(prompts: seq<Prompt>, w: seq<string>) {
    forall i, j :: 0 <= i < |w| && 0 <= j < |w| && j == i + 1 ==> DependsOn(prompts, w[i], w[j])
  }

  /** A closed walk: every element depends on the next one and the last is the first. */
  predicate IsCycle(prompts: seq<Prompt>, c: seq<string>) {
    && |c| >= 2
    && c[0] == c[|c| - 1]
    && IsWalk(prompts, c)
  }

  predicate DependsInto(prompts: seq<Prompt>, p: string, s: set<string>) {
    exists d :: d in s && DependsOn(prompts, p, d)
  }

  ghost predicate Cyclic(prompts: seq<Prompt>) {
    exists c :: IsCycle(prompts, c)
  }

  /** Every dependency of order[i] is the ID of some order[j] with j < i. */
  predicate DependenciesFirst(order: seq<Prompt>) {
    forall i, d :: 0 <= i < |order| && d in order[i].dependencies ==> d in Ids(order[..i])
  }

  predicate IsTopologicalOrder(prompts: seq<Prompt>, order: seq<Prompt>) {
    && multiset(order) == multiset(prompts)
    && UniqueIds(order)
    && DependenciesFirst(order)
  }

  lemma {:induction false} EdgesAreDependencies(prompts: seq<Prompt>, d: string, p: string)
    ensures (d, p) in Edges(prompts) <==> DependsOn(prompts, p, d)
  {
    if prompts != [] {
      var front, last := prompts[..|prompts| - 1], prompts[|prompts| - 1];
      EdgesAreDependencies(front, d, p);
      assert prompts == front + [last];
      if d in last.dependencies {
        var k :| 0 <= k < |last.dependencies| && last.dependencies[k] == d;
        assert EdgesOf(last)[k] == (d, last.promptId);
      }
      assert (d, p) in EdgesOf(last) <==> last.promptId == p && d in last.dependencies;
      DependsOnLast(front, last, p, d);
    }
  }

  lemma DependsOnLast(front: seq<Prompt>, last: Prompt, p: string, d: string)
    ensures DependsOn(front + [last], p, d)
       <==> DependsOn(front, p, d) || (last.promptId == p && d in last.dependencies)
  {
    var all := front + [last];
    if i :| 0 <= i < |front| && front[i].promptId == p && d in front[i].dependencies {
      assert all[i] == front[i];
    }
    assert all[|front|] == last;
  }

  // ----- What the indegree table and the children lists mean -----

  /** The edges into p whose source is not in done, counted with repetition. */
  function Waiting(es: seq<Edge>, p: string, done: set<string>): nat {
    if es == [] then 0
    else
      var e := es[|es| - 1];
      Waiting(es[..|es| - 1], p, done) + (if e.1 == p && e.0 !in done then 1 else 0)
  }

  /** The targets of d's edges in edge order: the children list of d. */
  function Targets(es: seq<Edge>, d: string): seq<string> {
    if es == [] then []
    else
      var e := es[|es| - 1];
      Targets(es[..|es| - 1], d) + (if e.0 == d then [e.1] else [])
  }

  lemma TablesSnoc(es: seq<Edge>, e: Edge)
    ensures forall p, done ::
      Waiting(es + [e], p, done) == Waiting(es, p, done) + (if e.1 == p && e.0 !in done then 1 else 0)
    ensures forall d :: Targets(es + [e], d) == Targets(es, d) + (if e.0 == d then [e.1] else [])
  {
    assert (es + [e])[..|es|] == es;
  }

  lemma {:induction false} WaitingAfter(es: seq<Edge>, p: string, done: set<string>, d: string)
    requires d !in done
    ensures Waiting(es, p, done) == Waiting(es, p, done + {d}) + multiset(Targets(es, d))[p]
  {
    if es != [] {
      WaitingAfter(es[..|es| - 1], p, done, d);
    }
  }

  lemma {:induction false} WaitingZero(es: seq<Edge>, p: string, done: set<string>)
    ensures Waiting(es, p, done) == 0 <==> forall e :: e in es && e.1 == p ==> e.0 in done
  {
    if es != [] {
      var front, last := es[..|es| - 1], es[|es| - 1];
      WaitingZero(front, p, done);
      assert forall e :: e in es <==> e in front || e == last;
    }
  }

  lemma {:induction false} TargetsAreTargets(es: seq<Edge>, d: string, p: string)
    ensures p in Targets(es, d) <==> (d, p) in es
  {
    if es != [] {
      TargetsAreTargets(es[..|es| - 1], d, p);
    }
  }

  lemma OccursInSlice(s: seq<string>, i: nat)
    requires i < |s|
    ensures multiset(s[..i + 1]) == multiset(s[..i])[s[i] := multiset(s[..i])[s[i]] + 1]
    ensures multiset(s[..i + 1])[s[i]] <= multiset(s)[s[i]]
  {
    assert s[..i + 1] == s[..i] + [s[i]];
    assert s == s[..i + 1] + s[i + 1..];
    assert multiset(s) == multiset(s[..i + 1]) + multiset(s[i + 1..]);
  }

  // ----- Cycles -----

  lemma {:induction false} Pigeonhole(walk: seq<string>, s: set<string>) returns (i: nat, j: nat)
    requires forall k :: 0 <= k < |walk| ==> walk[k] in s
    requires |walk| > |s|
    ensures i < j < |walk| && walk[i] == walk[j]
  {
    var n := |walk| - 1;
    if k :| 0 <= k < n && walk[k] == walk[n] {
      i, j := k, n;
    } else {
      i, j := Pigeonhole(walk[..n], s - {walk[n]});
    }
  }

  /** In a nonempty set whose members all depend on a member, there are walks of any length. */
  lemma {:induction false} Walk(prompts: seq<Prompt>, s: set<string>, n: nat) returns (walk: seq<string>)
    requires s != {} && n >= 1
    requires forall p {:trigger DependsInto(prompts, p, s)} :: p in s ==> DependsInto(prompts, p, s)
    ensures |walk| == n && forall k :: 0 <= k < n ==> walk[k] in s
    ensures IsWalk(prompts, walk)
  {
    if n == 1 {
      var p :| p in s;
      walk := [p];
    } else {
      var front := Walk(prompts, s, n - 1);
      assert DependsInto(prompts, front[n - 2], s);
      var d :| d in s && DependsOn(prompts, front[n - 2], d);
      walk := front + [d];
    }
  }

  lemma StuckMeansCyclic(prompts: seq<Prompt>, s: set<string>)
    requires s != {}
    requires forall p {:trigger DependsInto(prompts, p, s)} :: p in s ==> DependsInto(prompts, p, s)
    ensures Cyclic(prompts)
  {
    var walk := Walk(prompts, s, |s| + 1);
    var i, j := Pigeonhole(walk, s);
    var c := walk[i..j + 1];
    forall k, m | 0 <= k < |c| && 0 <= m < |c| && m == k + 1
      ensures DependsOn(prompts, c[k], c[m])
    {
      assert c[k] == walk[i + k] && c[m] == walk[i + m];
    }
    assert IsCycle(prompts, c);
  }

  /** In a topological order, following dependencies along a walk moves strictly left. */
  lemma {:induction false} WalkMovesLeft(prompts: seq<Prompt>, order: seq<Prompt>, c: seq<string>, k: nat, start: nat)
    returns (at: nat)
    requires IsTopologicalOrder(prompts, order)
    requires |c| >= 2 && k < |c|
    requires IsWalk(prompts, c)
    requires start < |order| && order[start].promptId == c[0]
    ensures at + k <= start && order[at].promptId == c[k]
  {
    if k == 0 {
      at := start;
    } else {
      var prev := WalkMovesLeft(prompts, order, c, k - 1, start);
      assert DependsOn(prompts, c[k - 1], c[k]);
      var i :| 0 <= i < |prompts| && prompts[i].promptId == c[k - 1] && c[k] in prompts[i].dependencies;
      assert prompts[i] in multiset(prompts);
      assert prompts[i] in order;
      var m :| 0 <= m < |order| && order[m] == prompts[i];
      assert m == prev;
      assert c[k] in Ids(order[..prev]);
      at :| 0 <= at < prev && Ids(order[..prev])[at] == c[k];
    }
  }

  lemma OrderedMeansAcyclic(prompts: seq<Prompt>, order: seq<Prompt>)
    requires IsTopologicalOrder(prompts, order)
    ensures !Cyclic(prompts)
  {
    if c :| IsCycle(prompts, c) {
      assert DependsOn(prompts, c[0], c[1]);
      var i :| 0 <= i < |prompts| && prompts[i].promptId == c[0];
      assert prompts[i] in multiset(prompts);
      assert prompts[i] in order;
      var start :| 0 <= start < |order| && order[start] == prompts[i];
      var at := WalkMovesLeft(prompts, order, c, |c| - 1, start);
      assert false;
    }
  }

  // ----- Distinct sequences and the sets they enumerate -----

  predicate Distinct(s: seq<string>) {
    forall i, j :: 0 <= i < j < |s| ==> s[i] != s[j]
  }

  function Elements(s: seq<string>): set<string> {
    set x | x in s
  }

  lemma {:induction false} DistinctLength(s: seq<string>)
    requires Distinct(s)
    ensures |Elements(s)| == |s|
  {
    if s != [] {
      var front, last := s[..|s| - 1], s[|s| - 1];
      DistinctLength(front);
      assert Elements(s) == Elements(front) + {last};
    }
  }

  lemma DistinctWithin(s: seq<string>, all: set<string>)
    requires Distinct(s) && Elements(s) <= all
    ensures |s| <= |all|
    ensures |s| == |all| ==> Elements(s) == all
  {
    DistinctLength(s);
    SubsetSize(Elements(s), all);
  }

  lemma {:induction false} SubsetSize(a: set<string>, b: set<string>)
    requires a <= b
    ensures |a| <= |b|
    ensures |a| == |b| ==> a == b
  {
    if x :| x in a {
      SubsetSize(a - {x}, b - {x});
      assert a == (a - {x}) + {x} && b == (b - {x}) + {x};
    }
  }

  lemma {:induction false} IdSetSize(prompts: seq<Prompt>)
    ensures |IdSet(prompts)| <= |prompts|
    ensures |IdSet(prompts)| == |prompts| <==> UniqueIds(prompts)
  {
    if prompts != [] {
      hide IdSet, UniqueIds;
      var front, last := prompts[..|prompts| - 1], prompts[|prompts| - 1];
      IdSetSize(front);
      assert prompts == front + [last];
      IdSetSnoc(front, last);
    } else {
      assert IdSet(prompts) == {};
    }
  }

  lemma IdSetSnoc(front: seq<Prompt>, last: Prompt)
    ensures IdSet(front + [last]) == IdSet(front) + {last.promptId}
    ensures UniqueIds(front + [last]) <==> UniqueIds(front) && last.promptId !in IdSet(front)
  {
    var prompts, n := front + [last], |front|;
    assert prompts[n] == last && forall i :: 0 <= i < n ==> prompts[i] == front[i];
    assert IdSet(prompts) == IdSet(front) + {last.promptId};
    if UniqueIds(prompts) {
      forall i | 0 <= i < n ensures front[i].promptId != last.promptId {
        assert prompts[i].promptId != prompts[n].promptId;
      }
      forall i, j | 0 <= i < j < n ensures front[i].promptId != front[j].promptId {
        assert prompts[i].promptId != prompts[j].promptId;
      }
    }
    if UniqueIds(front) && last.promptId !in IdSet(front) {
      forall i, j | 0 <= i < j <= n ensures prompts[i].promptId != prompts[j].promptId {
        assert front[i].promptId in IdSet(front);
      }
    }
  }

  // ----- The mapping from IDs back to prompts -----

  /** The dictionary {prompt.prompt_id: prompt}; a later prompt replaces an earlier one. */
  function PromptMap(prompts: seq<Prompt>): (m: map<string, Prompt>)
    ensures m.Keys == IdSet(prompts)
    ensures forall p :: p in m ==> m[p] in prompts && m[p].promptId == p
  {
    if prompts == [] then map[]
    else
      var front, last := prompts[..|prompts| - 1], prompts[|prompts| - 1];
      assert prompts == front + [last];
      PromptMap(front)[last.promptId := last]
  }

  lemma AllEdgesOf(p: Prompt)
    ensures |EdgesOf(p)| == |p.dependencies| && EdgesOf(p)[..|p.dependencies|] == EdgesOf(p)
  {
  }

  lemma NextEdge(es: seq<Edge>, p: Prompt, j: nat)
    requires j < |p.dependencies|
    ensures |EdgesOf(p)| == |p.dependencies|
    ensures es + EdgesOf(p)[..j + 1] == es + EdgesOf(p)[..j] + [(p.dependencies[j], p.promptId)]
  {
  }

  lemma AddEdge(es: seq<Edge>, e: Edge, indegree: map<string, int>, children: map<string, seq<string>>)
    requires TablesFor(es, indegree, children) && e.1 in indegree
    ensures TablesFor(es + [e], indegree[e.1 := indegree[e.1] + 1], children[e.0 := Lookup(children, e.0) + [e.1]])
  {
    TablesSnoc(es, e);
  }

  /** The dictionary's keys in insertion order. */
  function Keys(prompts: seq<Prompt>): (ks: seq<string>)
    ensures Distinct(ks) && Elements(ks) == IdSet(prompts)
  {
    if prompts == [] then []
    else
      var front, last := prompts[..|prompts| - 1], prompts[|prompts| - 1];
      assert prompts == front + [last];
      var ks := Keys(front);
      assert IdSet(prompts) == IdSet(front) + {last.promptId};
      if last.promptId in ks then ks else ks + [last.promptId]
  }

  function Lookup(children: map<string, seq<string>>, d: string): seq<string> {
    if d in children then children[d] else []
  }

  /** The IDs whose indegree is zero, in dictionary order. */
  function Roots(ks: seq<string>, indegree: map<string, int>): (r: seq<string>)
    requires Elements(ks) <= indegree.Keys
    ensures forall x :: x in r <==> x in ks && indegree[x] == 0
    ensures Distinct(ks) ==> Distinct(r)
  {
    if ks == [] then []
    else
      var front, last := ks[..|ks| - 1], ks[|ks| - 1];
      assert ks == front + [last];
      Roots(front, indegree) + (if indegree[last] == 0 then [last] else [])
  }

  lemma DistinctByMultiset(s: seq<string>, t: seq<string>)
    requires Distinct(s) && multiset(s) == multiset(t)
    ensures Distinct(t) && Elements(s) == Elements(t)
    ensures forall x :: x in t <==> x in s
  {
    forall x ensures x in s <==> x in t {
      assert x in multiset(s) <==> x in multiset(t);
    }
    forall i, j | 0 <= i < j < |t| ensures t[i] != t[j] {
      if t[i] == t[j] {
        assert t == t[..i] + [t[i]] + t[i + 1..j] + [t[j]] + t[j + 1..];
        assert multiset(t)[t[i]] >= 2;
        OnceInDistinct(s, t[i]);
        assert false;
      }
    }
  }

  lemma {:induction false} OnceInDistinct(s: seq<string>, x: string)
    requires Distinct(s)
    ensures multiset(s)[x] <= 1
  {
    if s != [] {
      assert s == s[..|s| - 1] + [s[|s| - 1]];
      OnceInDistinct(s[..|s| - 1], x);
    }
  }

  // ----- The loop invariant of the queue -----

  /** The tables after the edges es: indegrees count edges, children lists hold targets. */
  ghost predicate TablesFor(es: seq<Edge>, indegree: map<string, int>, children: map<string, seq<string>>) {
    && (forall p :: p in indegree ==> indegree[p] == Waiting(es, p, {}))
    && (forall d :: Lookup(children, d) == Targets(es, d))
  }

  /** What the queue loop keeps: `ordered` has been emitted, `queue` is ready. */
  ghost predicate QueueInvariant(es: seq<Edge>, ids: set<string>, ordered: seq<string>, queue: seq<string>,
                                 indegree: map<string, int>)
  {
    && Distinct(ordered + queue)
    && Elements(ordered + queue) <= ids == indegree.Keys
    && (forall p :: p in indegree ==> indegree[p] == Waiting(es, p, Elements(ordered)))
    && (forall p :: p in indegree ==> (indegree[p] == 0 <==> p in ordered + queue))
    && EmittedInOrder(es, ordered)
  }

  predicate EmittedInOrder(es: seq<Edge>, ordered: seq<string>) {
    forall j, e :: 0 <= j < |ordered| && e in es && e.1 == ordered[j] ==> e.0 in ordered[..j]
  }

  lemma HeadNotEmitted(ordered: seq<string>, queue: seq<string>)
    requires Distinct(ordered + queue) && queue != []
    ensures queue[0] !in ordered && queue[0] in ordered + queue
    ensures Elements(ordered + [queue[0]]) == Elements(ordered) + {queue[0]}
  {
    assert (ordered + queue)[|ordered|] == queue[0];
    assert forall i :: 0 <= i < |ordered| ==> (ordered + queue)[i] == ordered[i];
  }

  lemma EmitHead(es: seq<Edge>, ordered: seq<string>, current: string)
    requires EmittedInOrder(es, ordered)
    requires Waiting(es, current, Elements(ordered)) == 0
    ensures EmittedInOrder(es, ordered + [current])
  {
    WaitingZero(es, current, Elements(ordered));
    var ordered' := ordered + [current];
    forall j, e | 0 <= j < |ordered'| && e in es && e.1 == ordered'[j]
      ensures e.0 in ordered'[..j]
    {
      assert ordered'[..j] == ordered[..j];
    }
  }

  lemma DistinctAppend(s: seq<string>, t: seq<string>)
    requires Distinct(s) && Distinct(t) && forall x :: x in t ==> x !in s
    ensures Distinct(s + t)
  {
    forall i, j | 0 <= i < j < |s + t| ensures (s + t)[i] != (s + t)[j] {
      if i < |s| && |s| <= j {
        assert (s + t)[j] == t[j - |s|] && (s + t)[i] in s;
      }
    }
  }

  lemma SortedRootsReady(es: seq<Edge>, ids: set<string>, roots: seq<string>, indegree: map<string, int>)
    requires Distinct(roots) && indegree.Keys == ids
    requires forall p :: p in roots <==> p in indegree && indegree[p] == 0
    requires forall p :: p in indegree ==> indegree[p] == Waiting(es, p, {})
    ensures QueueInvariant(es, ids, [], Sorted(roots), indegree)
    ensures IsSorted(Sorted(roots))
    ensures forall p :: p in Sorted(roots) <==> p in ids && Waiting(es, p, {}) == 0
  {
    SortedIsSorted(roots);
    DistinctByMultiset(roots, Sorted(roots));
    InitialQueue(es, ids, Sorted(roots), indegree);
  }

  lemma InitialQueue(es: seq<Edge>, ids: set<string>, queue: seq<string>, indegree: map<string, int>)
    requires Distinct(queue) && indegree.Keys == ids
    requires forall p :: p in queue <==> p in indegree && indegree[p] == 0
    requires forall p :: p in indegree ==> indegree[p] == Waiting(es, p, {})
    ensures QueueInvariant(es, ids, [], queue, indegree)
  {
    assert [] + queue == queue;
    assert Elements([]) == {};
  }

  lemma MoveHead(ordered: seq<string>, queue: seq<string>, released: seq<string>)
    requires queue != []
    ensures (ordered + [queue[0]]) + (queue[1..] + released) == (ordered + queue) + released
  {
    assert queue == [queue[0]] + queue[1..];
  }

  /** Emitting the queue's first ID and releasing its children keeps the invariant. */
  lemma QueueStep(es: seq<Edge>, ids: set<string>, ordered: seq<string>, queue: seq<string>, kids: seq<string>,
                  indegree: map<string, int>, indegree': map<string, int>, released: seq<string>)
    requires QueueInvariant(es, ids, ordered, queue, indegree) && queue != []
    requires kids == Targets(es, queue[0])
    requires indegree'.Keys == indegree.Keys
    requires forall p :: p in indegree ==> indegree'[p] == indegree[p] - multiset(kids)[p]
    requires Distinct(released)
    requires forall x :: x in released <==> x in kids && x in indegree && indegree'[x] == 0
    ensures QueueInvariant(es, ids, ordered + [queue[0]], queue[1..] + released, indegree')
  {
    var current := queue[0];
    var ordered', queue' := ordered + [current], queue[1..] + released;
    HeadNotEmitted(ordered, queue);
    forall p | p in indegree
      ensures indegree'[p] == Waiting(es, p, Elements(ordered'))
    {
      WaitingAfter(es, p, Elements(ordered), current);
    }
    assert forall x :: x in kids <==> multiset(kids)[x] > 0;
    assert forall x :: x in released ==> x !in ordered + queue;
    DistinctAppend(ordered + queue, released);
    MoveHead(ordered, queue, released);
    EmitHead(es, ordered, current);
    ZeroMeansReady(ordered + queue, released, kids, indegree, indegree');
  }

  lemma ZeroMeansReady(known: seq<string>, released: seq<string>, kids: seq<string>,
                       indegree: map<string, int>, indegree': map<string, int>)
    requires indegree'.Keys == indegree.Keys
    requires forall p :: p in indegree ==> indegree'[p] == indegree[p] - multiset(kids)[p] >= 0
    requires forall p :: p in indegree ==> (indegree[p] == 0 <==> p in known)
    requires forall x :: x in released <==> x in kids && x in indegree && indegree'[x] == 0
    ensures forall p :: p in indegree' ==> (indegree'[p] == 0 <==> p in known + released)
  {
    forall p | p in indegree'
      ensures indegree'[p] == 0 <==> p in known + released
    {
      assert p in kids <==> multiset(kids)[p] > 0;
    }
  }

  /** If the queue runs dry before every ID is emitted, the catalog has a cycle. */
  lemma DryQueueMeansCyclic(prompts: seq<Prompt>, ordered: seq<string>, indegree: map<string, int>)
    requires QueueInvariant(Edges(prompts), IdSet(prompts), ordered, [], indegree)
    requires NoMissing(prompts) && !(IdSet(prompts) <= Elements(ordered))
    ensures Cyclic(prompts)
  {
    assert ordered + [] == ordered;
    var s := IdSet(prompts) - Elements(ordered);
    var q :| q in IdSet(prompts) && q !in Elements(ordered);
    assert q in s;
    forall p {:trigger DependsInto(prompts, p, s)} | p in s
      ensures DependsInto(prompts, p, s)
    {
      WaitingZero(Edges(prompts), p, Elements(ordered));
      var e :| e in Edges(prompts) && e.1 == p && e.0 !in Elements(ordered);
      EdgesAreDependencies(prompts, e.0, p);
      assert (e.0, p) == e;
      assert e.0 in s;
    }
    StuckMeansCyclic(prompts, s);
  }

  /** Once every prompt is emitted, mapping the IDs back gives a topological order. */
  lemma FullOrderIsTopological(prompts: seq<Prompt>, ordered: seq<string>, order: seq<Prompt>)
    requires Distinct(ordered) && Elements(ordered) <= IdSet(prompts)
    requires EmittedInOrder(Edges(prompts), ordered)
    requires |ordered| == |prompts| == |order|
    requires forall i :: 0 <= i < |order| ==> order[i] in prompts && order[i].promptId == ordered[i]
    ensures IsTopologicalOrder(prompts, order)
    ensures UniqueIds(prompts)
  {
    hide Cyclic, EmittedInOrder, Edges, IdSet, Distinct;
    DistinctWithin(ordered, IdSet(prompts));
    IdSetSize(prompts);
    SamePrompts(prompts, ordered, order);
    DependenciesEmitted(prompts, ordered, order);
  }

  lemma DependenciesEmitted(prompts: seq<Prompt>, ordered: seq<string>, order: seq<Prompt>)
    requires EmittedInOrder(Edges(prompts), ordered) && |ordered| == |order|
    requires forall i :: 0 <= i < |order| ==> order[i] in prompts && order[i].promptId == ordered[i]
    ensures DependenciesFirst(order)
  {
    hide EmittedInOrder, Edges;
    forall i, d | 0 <= i < |order| && d in order[i].dependencies
      ensures d in Ids(order[..i])
    {
      DependencyEmitted(prompts, ordered, order[i], i, d);
      var m :| 0 <= m < i && ordered[..i][m] == d;
      assert Ids(order[..i])[m] == d;
    }
  }

  lemma DependencyEmitted(prompts: seq<Prompt>, ordered: seq<string>, p: Prompt, i: nat, d: string)
    requires EmittedInOrder(Edges(prompts), ordered)
    requires i < |ordered| && p in prompts && p.promptId == ordered[i] && d in p.dependencies
    ensures d in ordered[..i]
  {
    assert DependsOn(prompts, ordered[i], d);
    EdgesAreDependencies(prompts, d, ordered[i]);
    var e: Edge := (d, ordered[i]);
    assert e in Edges(prompts) && e.1 == ordered[i];
  }

  lemma SamePrompts(prompts: seq<Prompt>, ordered: seq<string>, order: seq<Prompt>)
    requires UniqueIds(prompts) && Distinct(ordered) && Elements(ordered) == IdSet(prompts)
    requires |order| == |ordered|
    requires forall i :: 0 <= i < |order| ==> order[i] in prompts && order[i].promptId == ordered[i]
    ensures multiset(order) == multiset(prompts) && UniqueIds(order)
  {
    forall p ensures multiset(order)[p] == multiset(prompts)[p] {
      if p in prompts {
        var k :| 0 <= k < |prompts| && prompts[k] == p;
        assert p.promptId in Elements(ordered);
        var i :| 0 <= i < |ordered| && ordered[i] == p.promptId;
        assert order[i] == p;
      }
      OnceByUniqueIds(prompts, p);
      OnceByUniqueIds(order, p);
    }
  }

  lemma {:induction false} OnceByUniqueIds(s: seq<Prompt>, p: Prompt)
    requires UniqueIds(s)
    ensures multiset(s)[p] == if p in s then 1 else 0
  {
    if s != [] {
      assert s == s[..|s| - 1] + [s[|s| - 1]];
      OnceByUniqueIds(s[..|s| - 1], p);
    }
  }

  lemma ReleasePossible(prompts: seq<Prompt>, queue: seq<string>, ordered: seq<string>, indegree: map<string, int>)
    requires QueueInvariant(Edges(prompts), IdSet(prompts), ordered, queue, indegree) && queue != []
    ensures forall k :: k in Targets(Edges(prompts), queue[0]) ==> k in indegree
    ensures forall p :: p in indegree ==> indegree[p] >= multiset(Targets(Edges(prompts), queue[0]))[p]
  {
    var es, current := Edges(prompts), queue[0];
    assert forall i :: 0 <= i < |ordered| ==> (ordered + queue)[i] == ordered[i];
    assert (ordered + queue)[|ordered|] == current;
    forall k | k in Targets(es, current) ensures k in indegree {
      TargetsAreTargets(es, current, k);
      EdgesAreDependencies(prompts, current, k);
    }
    forall p | p in indegree ensures indegree[p] >= multiset(Targets(es, current))[p] {
      WaitingAfter(es, p, Elements(ordered), current);
    }
  }

  lemma MissingEdgeMeansMissing(prompts: seq<Prompt>)
    ensures NoMissing(prompts) <==> forall e :: e in Edges(prompts) ==> e.0 in IdSet(prompts)
  {
    if NoMissing(prompts) {
      forall e | e in Edges(prompts) ensures e.0 in IdSet(prompts) {
        EdgesAreDependencies(prompts, e.0, e.1);
        assert (e.0, e.1) == e;
      }
    }
    if forall e :: e in Edges(prompts) ==> e.0 in IdSet(prompts) {
      forall i, d | 0 <= i < |prompts| && d in prompts[i].dependencies ensures d in IdSet(prompts) {
        assert DependsOn(prompts, prompts[i].promptId, d);
        EdgesAreDependencies(prompts, d, prompts[i].promptId);
        assert (d, prompts[i].promptId) in Edges(prompts);
      }
    }
  }

  /** Prompts without dependencies come before all others, in alphabetical order of their IDs. */
  predicate IndependentFirst(order: seq<Prompt>) {
    forall i, j :: 0 <= i < j < |order| && order[j].dependencies == [] ==>
      order[i].dependencies == [] && StrLeq(order[i].promptId, order[j].promptId)
  }

  lemma NoEdgesIntoRoot(prompts: seq<Prompt>, order: seq<Prompt>, i: nat)
    requires multiset(order) == multiset(prompts) && UniqueIds(order)
    requires i < |order| && order[i].dependencies == []
    ensures forall e :: e in Edges(prompts) ==> e.1 != order[i].promptId
  {
    forall e | e in Edges(prompts) ensures e.1 != order[i].promptId {
      EdgesAreDependencies(prompts, e.0, e.1);
      assert (e.0, e.1) == e;
      var k :| 0 <= k < |prompts| && prompts[k].promptId == e.1 && e.0 in prompts[k].dependencies;
      assert prompts[k] in multiset(order);
      var m :| 0 <= m < |order| && order[m] == prompts[k];
      assert order[m].dependencies != order[i].dependencies;
    }
  }

  lemma RootsComeFirst(prompts: seq<Prompt>, roots: seq<string>, ordered: seq<string>, order: seq<Prompt>)
    requires IsTopologicalOrder(prompts, order) && |order| == |ordered|
    requires forall i :: 0 <= i < |order| ==> order[i].promptId == ordered[i]
    requires IsSorted(roots) && roots <= ordered
    requires forall p :: p in roots <==> p in IdSet(prompts) && Waiting(Edges(prompts), p, {}) == 0
    ensures IndependentFirst(order)
  {
    forall i | 0 <= i < |order|
      ensures order[i].dependencies == [] <==> i < |roots|
    {
      var p := order[i];
      assert p in multiset(order);
      assert p in prompts;
      WaitingZero(Edges(prompts), p.promptId, {});
      if p.dependencies != [] {
        assert DependsOn(prompts, p.promptId, p.dependencies[0]);
        EdgesAreDependencies(prompts, p.dependencies[0], p.promptId);
        assert (p.dependencies[0], p.promptId).1 == p.promptId;
        assert p.promptId !in roots;
        assert i < |roots| ==> p.promptId in roots;
      } else {
        NoEdgesIntoRoot(prompts, order, i);
        assert p.promptId in roots;
        var m :| 0 <= m < |roots| && roots[m] == p.promptId;
        assert order[m].promptId == p.promptId;
      }
    }
    forall i, j | 0 <= i < j < |order| && order[j].dependencies == []
      ensures order[i].dependencies == [] && StrLeq(order[i].promptId, order[j].promptId)
    {
      assert roots[i] == ordered[i] && roots[j] == ordered[j];
    }
  }

  // ----- First in, first out -----

  /** One more than the place of the last emitted ID with an edge into x, zero if there is none: when x got ready. */
  function ReadyAt(es: seq<Edge>, ordered: seq<string>, x: string): (n: nat)
    ensures n <= |ordered|
  {
    if ordered == [] then 0
    else if (ordered[|ordered| - 1], x) in es then |ordered|
    else ReadyAt(es, ordered[..|ordered| - 1], x)
  }

  /** Two prompts with these IDs stand in the catalog in this order. */
  predicate CatalogOrder(prompts: seq<Prompt>, x: string, y: string) {
    exists a, b :: 0 <= a < b < |prompts| && prompts[a].promptId == x && prompts[b].promptId == y
  }

  /** What was ready earlier stands earlier; what got ready at the same emission stands in catalog order. */
  predicate FirstInFirstOut(prompts: seq<Prompt>, ordered: seq<string>, all: seq<string>) {
    forall i, j :: 0 <= i < j < |all| ==> NotLater(prompts, ordered, all[i], all[j])
  }

  predicate NotLater(prompts: seq<Prompt>, ordered: seq<string>, x: string, y: string) {
    var m, n := ReadyAt(Edges(prompts), ordered, x), ReadyAt(Edges(prompts), ordered, y);
    m < n || (m == n && (m > 0 ==> CatalogOrder(prompts, x, y)))
  }

  lemma ReadyAtSnoc(es: seq<Edge>, ordered: seq<string>, current: string, x: string)
    ensures ReadyAt(es, ordered + [current], x) == if (current, x) in es then |ordered| + 1 else ReadyAt(es, ordered, x)
  {
    assert (ordered + [current])[..|ordered|] == ordered;
  }

  lemma {:induction false} TargetsConcat(a: seq<Edge>, b: seq<Edge>, d: string)
    ensures Targets(a + b, d) == Targets(a, d) + Targets(b, d)
  {
    if b == [] {
      assert a + b == a;
    } else {
      TargetsConcat(a, b[..|b| - 1], d);
      assert (a + b)[..|a + b| - 1] == a + b[..|b| - 1];
    }
  }

  lemma {:induction false} TargetsOfOne(p: Prompt, es: seq<Edge>, d: string)
    requires forall e :: e in es ==> e.1 == p.promptId
    ensures forall t :: t in Targets(es, d) ==> t == p.promptId
  {
    if es != [] {
      assert es[|es| - 1] in es;
      TargetsOfOne(p, es[..|es| - 1], d);
    }
  }

  /** A children list follows the catalog. */
  lemma {:induction false} TargetsFollowCatalog(prompts: seq<Prompt>, d: string, i: nat, j: nat) returns (a: nat,
                                                b: nat)
    requires i <= j < |Targets(Edges(prompts), d)|
    ensures a <= b < |prompts|
    ensures prompts[a].promptId == Targets(Edges(prompts), d)[i] && prompts[b].promptId == Targets(Edges(prompts), d)[j]
  {
    var n := |prompts| - 1;
    var front, last := prompts[..n], prompts[n];
    var before, own := Targets(Edges(front), d), Targets(EdgesOf(last), d);
    TargetsConcat(Edges(front), EdgesOf(last), d);
    TargetsOfOne(last, EdgesOf(last), d);
    assert Targets(Edges(prompts), d) == before + own;
    if j < |before| {
      a, b := TargetsFollowCatalog(front, d, i, j);
    } else {
      b := n;
      assert (before + own)[j] == own[j - |before|] && own[j - |before|] in own;
      if i < |before| {
        a, b := TargetsFollowCatalog(front, d, i, i);
        b := n;
      } else {
        assert (before + own)[i] == own[i - |before|] && own[i - |before|] in own;
        a := n;
      }
    }
  }

  /** The places in the children list at which the released IDs were released. */
  predicate ReleasedAt(kids: seq<string>, released: seq<string>, places: seq<nat>) {
    && |places| == |released|
    && (forall k :: 0 <= k < |places| ==> places[k] < |kids| && kids[places[k]] == released[k])
    && forall k, l :: 0 <= k < l < |places| ==> places[k] < places[l]
  }

  lemma ReleasedInCatalogOrder(prompts: seq<Prompt>, d: string, released: seq<string>, places: seq<nat>, k: nat, l: nat)
    requires ReleasedAt(Targets(Edges(prompts), d), released, places) && Distinct(released)
    requires k < l < |released|
    ensures CatalogOrder(prompts, released[k], released[l])
  {
    var a, b := TargetsFollowCatalog(prompts, d, places[k], places[l]);
    assert released[k] != released[l];
  }

  /** Emitting the queue's first ID and appending what it releases keeps first in, first out. */
  lemma FifoStep(prompts: seq<Prompt>, ordered: seq<string>, queue: seq<string>, indegree: map<string, int>,
                 released: seq<string>, places: seq<nat>)
    requires QueueInvariant(Edges(prompts), IdSet(prompts), ordered, queue, indegree) && queue != []
    requires FirstInFirstOut(prompts, ordered, ordered + queue)
    requires Distinct(released) && ReleasedAt(Targets(Edges(prompts), queue[0]), released, places)
    ensures FirstInFirstOut(prompts, ordered + [queue[0]], (ordered + queue) + released)
  {
    hide NotLater, QueueInvariant, Distinct, ReleasedAt, CatalogOrder;
    var all := (ordered + queue) + released;
    forall i, j | 0 <= i < j < |all| ensures NotLater(prompts, ordered + [queue[0]], all[i], all[j]) {
      if j < |ordered + queue| {
        assert NotLater(prompts, ordered, (ordered + queue)[i], (ordered + queue)[j]);
        OldStillReady(prompts, ordered, queue, indegree, i);
        OldStillReady(prompts, ordered, queue, indegree, j);
        SameReadiness(prompts, ordered, ordered + [queue[0]], all[i], all[j]);
      } else {
        var l := j - |ordered + queue|;
        NewReady(prompts, ordered, queue, released, places, l);
        if i < |ordered + queue| {
          OldStillReady(prompts, ordered, queue, indegree, i);
          EarlierReady(prompts, ordered + [queue[0]], all[i], all[j]);
        } else {
          NewReady(prompts, ordered, queue, released, places, i - |ordered + queue|);
          ReleasedInCatalogOrder(prompts, queue[0], released, places, i - |ordered + queue|, l);
          TogetherReady(prompts, ordered + [queue[0]], all[i], all[j]);
        }
      }
    }
  }

  lemma SameReadiness(prompts: seq<Prompt>, a: seq<string>, b: seq<string>, x: string, y: string)
    requires NotLater(prompts, a, x, y)
    requires ReadyAt(Edges(prompts), a, x) == ReadyAt(Edges(prompts), b, x)
    requires ReadyAt(Edges(prompts), a, y) == ReadyAt(Edges(prompts), b, y)
    ensures NotLater(prompts, b, x, y)
  {
  }

  lemma EarlierReady(prompts: seq<Prompt>, ordered: seq<string>, x: string, y: string)
    requires ReadyAt(Edges(prompts), ordered, x) < ReadyAt(Edges(prompts), ordered, y)
    ensures NotLater(prompts, ordered, x, y)
  {
  }

  lemma TogetherReady(prompts: seq<Prompt>, ordered: seq<string>, x: string, y: string)
    requires ReadyAt(Edges(prompts), ordered, x) == ReadyAt(Edges(prompts), ordered, y) && CatalogOrder(prompts, x, y)
    ensures NotLater(prompts, ordered, x, y)
  {
  }

  /** The head of the queue has no edge into what is ready already. */
  lemma OldStillReady(prompts: seq<Prompt>, ordered: seq<string>, queue: seq<string>, indegree: map<string, int>,
                      i: nat)
    requires QueueInvariant(Edges(prompts), IdSet(prompts), ordered, queue, indegree) && queue != []
    requires i < |ordered + queue|
    ensures var x := (ordered + queue)[i];
      ReadyAt(Edges(prompts), ordered + [queue[0]], x) == ReadyAt(Edges(prompts), ordered, x) <= |ordered|
  {
    var es, x := Edges(prompts), (ordered + queue)[i];
    HeadNotEmitted(ordered, queue);
    assert x in Elements(ordered + queue);
    assert indegree[x] == 0;
    WaitingZero(es, x, Elements(ordered));
    ReadyAtSnoc(es, ordered, queue[0], x);
    assert queue[0] !in Elements(ordered);
    assert (queue[0], x) !in es;
  }

  lemma NewReady(prompts: seq<Prompt>, ordered: seq<string>, queue: seq<string>, released: seq<string>,
                 places: seq<nat>,
                 l: nat)
    requires queue != [] && l < |released| && ReleasedAt(Targets(Edges(prompts), queue[0]), released, places)
    ensures ReadyAt(Edges(prompts), ordered + [queue[0]], released[l]) == |ordered| + 1
  {
    var kids := Targets(Edges(prompts), queue[0]);
    assert kids[places[l]] == released[l] && released[l] in kids;
    TargetsAreTargets(Edges(prompts), queue[0], released[l]);
    ReadyAtSnoc(Edges(prompts), ordered, queue[0], released[l]);
  }

  /** One more than the place of the prompt's last dependency, zero if it has none. */
  function ReadyAfter(order: seq<Prompt>, p: Prompt): nat {
    if order == [] then 0
    else if order[|order| - 1].promptId in p.dependencies then |order|
    else ReadyAfter(order[..|order| - 1], p)
  }

  /**
    The order is the queue's: a prompt whose last dependency comes earlier comes earlier, and prompts with the
    same last dependency come in catalog order.
  */
  predicate QueueOrder(prompts: seq<Prompt>, order: seq<Prompt>) {
    forall i, j :: 0 <= i < j < |order| ==>
      var m, n := ReadyAfter(order, order[i]), ReadyAfter(order, order[j]);
      m < n || (m == n && (m > 0 ==> CatalogOrder(prompts, order[i].promptId, order[j].promptId)))
  }

  lemma {:induction false} SameReady(prompts: seq<Prompt>, ordered: seq<string>, order: seq<Prompt>, p: Prompt)
    requires UniqueIds(prompts) && p in prompts && |order| == |ordered|
    requires forall i :: 0 <= i < |order| ==> order[i].promptId == ordered[i]
    ensures ReadyAfter(order, p) == ReadyAt(Edges(prompts), ordered, p.promptId)
  {
    if order != [] {
      var n := |order| - 1;
      SameReady(prompts, ordered[..n], order[..n], p);
      EdgesAreDependencies(prompts, ordered[n], p.promptId);
      OwnDependencies(prompts, p, ordered[n]);
    }
  }

  lemma OwnDependencies(prompts: seq<Prompt>, p: Prompt, d: string)
    requires UniqueIds(prompts) && p in prompts
    ensures DependsOn(prompts, p.promptId, d) <==> d in p.dependencies
  {
    var k :| 0 <= k < |prompts| && prompts[k] == p;
    if i :| 0 <= i < |prompts| && prompts[i].promptId == p.promptId && d in prompts[i].dependencies {
      assert i == k;
    }
  }

  lemma QueueOrderKept(prompts: seq<Prompt>, ordered: seq<string>, order: seq<Prompt>)
    requires UniqueIds(prompts) && |order| == |ordered| && FirstInFirstOut(prompts, ordered, ordered)
    requires forall i :: 0 <= i < |order| ==> order[i] in prompts && order[i].promptId == ordered[i]
    ensures QueueOrder(prompts, order)
  {
    hide CatalogOrder, UniqueIds;
    forall i, j | 0 <= i < j < |order|
      ensures var m, n := ReadyAfter(order, order[i]), ReadyAfter(order, order[j]);
        m < n || (m == n && (m > 0 ==> CatalogOrder(prompts, order[i].promptId, order[j].promptId)))
    {
      SameReady(prompts, ordered, order, order[i]);
      SameReady(prompts, ordered, order, order[j]);
      assert NotLater(prompts, ordered, ordered[i], ordered[j]);
    }
  }

  /** The prompts of a complete emission order. */
  function PromptsOf(ghost prompts: seq<Prompt>, promptMap: map<string, Prompt>, ghost roots: seq<string>,
                     ordered: seq<string>): (order: seq<Prompt>)
    requires promptMap == PromptMap(prompts)
    requires Distinct(ordered) && Elements(ordered) <= IdSet(prompts) && |ordered| == |prompts|
    requires EmittedInOrder(Edges(prompts), ordered)
    requires IsSorted(roots) && roots <= ordered
    requires forall p :: p in roots <==> p in IdSet(prompts) && Waiting(Edges(prompts), p, {}) == 0
    requires FirstInFirstOut(prompts, ordered, ordered)
    ensures IsTopologicalOrder(prompts, order) && IndependentFirst(order) && QueueOrder(prompts, order)
    ensures UniqueIds(prompts) && !Cyclic(prompts)
  {
    assert forall i :: 0 <= i < |ordered| ==> ordered[i] in Elements(ordered);
    var order := seq(|ordered|, i requires 0 <= i < |ordered| => promptMap[ordered[i]]);
    FullOrderIsTopological(prompts, ordered, order);
    OrderedMeansAcyclic(prompts, order);
    RootsComeFirst(prompts, roots, ordered, order);
    QueueOrderKept(prompts, ordered, order);
    order
  }

  /** The inner loop after i children: one edge of each was removed, and those without any left were released. */
  ghost predicate Releasing(kids: seq<string>, i: nat, indegree0: map<string, int>, indegree: map<string, int>,
                            released: seq<string>, places: seq<nat>)
  {
    && i <= |kids|
    && indegree.Keys == indegree0.Keys
    && (forall k :: k in kids ==> k in indegree0)
    && (forall p :: p in indegree0 ==> indegree0[p] >= multiset(kids)[p])
    && (forall p :: p in indegree0 ==> indegree[p] == indegree0[p] - multiset(kids[..i])[p])
    && Distinct(released)
    && (forall x :: x in released <==> x in kids[..i] && indegree[x] == 0)
    && ReleasedAt(kids[..i], released, places)
  }

  lemma NothingReleased(kids: seq<string>, indegree0: map<string, int>)
    requires forall k :: k in kids ==> k in indegree0
    requires forall p :: p in indegree0 ==> indegree0[p] >= multiset(kids)[p]
    ensures Releasing(kids, 0, indegree0, indegree0, [], [])
  {
    assert kids[..0] == [];
  }

  lemma ReleaseChild(kids: seq<string>, i: nat, indegree0: map<string, int>, indegree: map<string, int>,
                     released: seq<string>, places: seq<nat>)
    requires i < |kids| && Releasing(kids, i, indegree0, indegree, released, places)
    ensures kids[i] in indegree
    ensures var child := kids[i];
      var after := indegree[child := indegree[child] - 1];
      if after[child] == 0 then Releasing(kids, i + 1, indegree0, after, released + [child], places + [i])
      else Releasing(kids, i + 1, indegree0, after, released, places)
  {
    var child := kids[i];
    assert child in kids;
    OccursInSlice(kids, i);
    var after := indegree[child := indegree[child] - 1];
    assert kids[..i + 1] == kids[..i] + [child];
    forall p | p in indegree0 ensures after[p] == indegree0[p] - multiset(kids[..i + 1])[p] {
    }
    assert child !in released;
    PlacesGrow(kids, i, released, places);
  }

  lemma PlacesGrow(kids: seq<string>, i: nat, released: seq<string>, places: seq<nat>)
    requires i < |kids| && ReleasedAt(kids[..i], released, places)
    ensures ReleasedAt(kids[..i + 1], released, places)
    ensures ReleasedAt(kids[..i + 1], released + [kids[i]], places + [i])
  {
    forall k | 0 <= k < |places| ensures kids[..i + 1][places[k]] == released[k] {
      assert kids[..i][places[k]] == released[k];
    }
  }

  lemma AllReleased(kids: seq<string>, indegree0: map<string, int>, indegree: map<string, int>, released: seq<string>,
                    places: seq<nat>)
    requires Releasing(kids, |kids|, indegree0, indegree, released, places)
    ensures indegree.Keys == indegree0.Keys && Distinct(released) && ReleasedAt(kids, released, places)
    ensures forall p :: p in indegree0 ==> indegree[p] == indegree0[p] - multiset(kids)[p]
    ensures forall x :: x in released <==> x in kids && indegree[x] == 0
  {
    assert kids[..|kids|] == kids;
  }

  class DependencyGraph {
    const prompts: seq<Prompt>
    const promptMap: map<string, Prompt>

    constructor (prompts: seq<Prompt>)
      ensures this.prompts == prompts && promptMap == PromptMap(prompts)
    {
      this.prompts := prompts;
      this.promptMap := PromptMap(prompts);
    }

    /**
      Succeeds exactly when the IDs are unique, every dependency is in the catalog and the
      dependency relation has no cycle; the result is then a topological order whose first
      elements are the dependency-free prompts in alphabetical order, and in which the others
      come first in, first out.
    */
    method TopologicalOrder() returns (r: Result<seq<Prompt>, GraphError>)
      requires promptMap == PromptMap(prompts)
      ensures r.Success? <==> NoMissing(prompts) && UniqueIds(prompts) && !Cyclic(prompts)
      ensures r.Success? ==> IsTopologicalOrder(prompts, r.value)
      ensures r.Success? ==> IndependentFirst(r.value) && QueueOrder(prompts, r.value)
      ensures r.Failure? && r.error.MissingDependencies? <==> !NoMissing(prompts)
    {
      var missing := MissingEdges();
      if missing != [] {
        return Failure(MissingDependencies(missing));
      }
      var indegree, children := BuildTables();
      var roots := Roots(Keys(prompts), indegree);
      var queue := Sorted(roots);
      SortedRootsReady(Edges(prompts), IdSet(prompts), roots, indegree);
      var ordered := Emit(indegree, children, queue);
      DistinctWithin(ordered, IdSet(prompts));
      IdSetSize(prompts);
      if |ordered| != |prompts| {
        DistinctLength(ordered);
        assert Elements(ordered) == IdSet(prompts) ==> !UniqueIds(prompts);
        return Failure(CircularDependency);
      }
      return Success(PromptsOf(prompts, promptMap, queue, ordered));
    }

    /** The queue loop: emits every ID whose dependencies have all been emitted. */
    method Emit(indegree0: map<string, int>, children: map<string, seq<string>>, roots: seq<string>)
      returns (ordered: seq<string>)
      requires NoMissing(prompts)
      requires QueueInvariant(Edges(prompts), IdSet(prompts), [], roots, indegree0)
      requires TablesFor(Edges(prompts), indegree0, children)
      ensures Distinct(ordered) && Elements(ordered) <= IdSet(prompts)
      ensures EmittedInOrder(Edges(prompts), ordered)
      ensures roots <= ordered
      ensures FirstInFirstOut(prompts, ordered, ordered)
      ensures Elements(ordered) != IdSet(prompts) ==> Cyclic(prompts)
    {
      ghost var es, ids := Edges(prompts), IdSet(prompts);
      var indegree, queue := indegree0, roots;
      ordered := [];
      assert ordered + queue == queue;
      while queue != []
        invariant QueueInvariant(es, ids, ordered, queue, indegree)
        invariant FirstInFirstOut(prompts, ordered, ordered + queue)
        invariant roots <= ordered + queue
        decreases |ids| - |ordered|
      {
        DistinctWithin(ordered + queue, ids);
        var current := queue[0];
        var kids := Lookup(children, current);
        ReleasePossible(prompts, queue, ordered, indegree);
        var indegree', released, places := Release(kids, indegree);
        FifoStep(prompts, ordered, queue, indegree, released, places);
        QueueStep(es, ids, ordered, queue, kids, indegree, indegree', released);
        MoveHead(ordered, queue, released);
        ordered, queue, indegree := ordered + [current], queue[1..] + released, indegree';
      }
      assert ordered + [] == ordered;
      if !(IdSet(prompts) <= Elements(ordered)) {
        DryQueueMeansCyclic(prompts, ordered, indegree);
      }
    }

    /** The (dependency, prompt) pairs whose dependency is not in the catalog. */
    method MissingEdges() returns (missing: seq<Edge>)
      requires promptMap == PromptMap(prompts)
      ensures missing == [] <==> NoMissing(prompts)
      ensures forall e :: e in missing <==> e in Edges(prompts) && e.0 !in IdSet(prompts)
    {
      missing := [];
      for i := 0 to |prompts|
        invariant forall e :: e in missing <==> e in Edges(prompts[..i]) && e.0 !in IdSet(prompts)
      {
        var p := prompts[i];
        assert prompts[..i + 1][..i] == prompts[..i];
        for j := 0 to |p.dependencies|
          invariant forall e :: e in missing <==>
            e in Edges(prompts[..i]) + EdgesOf(p)[..j] && e.0 !in IdSet(prompts)
        {
          assert EdgesOf(p)[..j + 1] == EdgesOf(p)[..j] + [(p.dependencies[j], p.promptId)];
          if p.dependencies[j] !in promptMap {
            missing := missing + [(p.dependencies[j], p.promptId)];
          }
        }
        assert EdgesOf(p)[..|p.dependencies|] == EdgesOf(p);
      }
      assert prompts[..|prompts|] == prompts;
      MissingEdgeMeansMissing(prompts);
      if missing != [] {
        assert missing[0] in missing;
      }
    }

    /** The indegree of every ID and the children list of every dependency. */
    method BuildTables() returns (indegree: map<string, int>, children: map<string, seq<string>>)
      ensures indegree.Keys == IdSet(prompts)
      ensures TablesFor(Edges(prompts), indegree, children)
    {
      indegree := map p | p in IdSet(prompts) :: 0;
      children := map[];
      for i := 0 to |prompts|
        invariant indegree.Keys == IdSet(prompts)
        invariant TablesFor(Edges(prompts[..i]), indegree, children)
      {
        var p := prompts[i];
        indegree, children := AddEdges(p, indegree, children, Edges(prompts[..i]));
        assert prompts[..i + 1][..i] == prompts[..i];
      }
      assert prompts[..|prompts|] == prompts;
    }

    method AddEdges(p: Prompt, indegree0: map<string, int>, children0: map<string, seq<string>>, ghost es: seq<Edge>)
      returns (indegree: map<string, int>, children: map<string, seq<string>>)
      requires p.promptId in indegree0
      requires TablesFor(es, indegree0, children0)
      ensures indegree.Keys == indegree0.Keys
      ensures TablesFor(es + EdgesOf(p), indegree, children)
    {
      hide TablesFor, EdgesOf;
      indegree, children := indegree0, children0;
      AllEdgesOf(p);
      assert es + EdgesOf(p)[..0] == es;
      for j := 0 to |p.dependencies|
        invariant indegree.Keys == indegree0.Keys
        invariant TablesFor(es + EdgesOf(p)[..j], indegree, children)
      {
        var dep := p.dependencies[j];
        AddEdge(es + EdgesOf(p)[..j], (dep, p.promptId), indegree, children);
        NextEdge(es, p, j);
        children := children[dep := Lookup(children, dep) + [p.promptId]];
        indegree := indegree[p.promptId := indegree[p.promptId] + 1];
      }
    }

    /** The inner loop: one edge of the emitted prompt is removed per child. */
    method Release(kids: seq<string>, indegree0: map<string, int>)
      returns (indegree: map<string, int>, released: seq<string>, ghost places: seq<nat>)
      requires forall k :: k in kids ==> k in indegree0
      requires forall p :: p in indegree0 ==> indegree0[p] >= multiset(kids)[p]
      ensures indegree.Keys == indegree0.Keys
      ensures forall p :: p in indegree0 ==> indegree[p] == indegree0[p] - multiset(kids)[p]
      ensures Distinct(released)
      ensures forall x :: x in released <==> x in kids && indegree[x] == 0
      ensures ReleasedAt(kids, released, places)
    {
      hide Releasing;
      indegree, released, places := indegree0, [], [];
      NothingReleased(kids, indegree0);
      for i := 0 to |kids|
        invariant Releasing(kids, i, indegree0, indegree, released, places)
      {
        var child := kids[i];
        ReleaseChild(kids, i, indegree0, indegree, released, places);
        indegree := indegree[child := indegree[child] - 1];
        if indegree[child] == 0 {
          released, places := released + [child], places + [i];
        }
      }
      AllReleased(kids, indegree0, indegree, released, places);
    }
  }
}
