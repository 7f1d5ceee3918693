/**
  The audit trail: appending entries under the tenant's lock, and rebuilding the chain from
  rows the database returns in any order (services/audit_service.py).
*/
module AuditChain {
  import opened Wrappers
  import opened ChainHash

  /** The hashed fields of an audit entry. */
  datatype AuditData = AuditData(tenantId: string, userId: Option<string>, action: string, resourceType: string,
                                 resourceId: Option<string>, resourceName: Option<string>,
                                 oldValueHash: Option<string>, newValueHash: Option<string>, ipAddress: Option<string>)

  type Row = Rec<AuditData>

  // ----- What a correct reconstruction is -----

  predicate DistinctHashes(rows: seq<Row>) {
    forall i, j :: 0 <= i < j < |rows| ==> rows[i].chainHash != rows[j].chainHash
  }

  predicate DistinctPrevs(rows: seq<Row>) {
    forall i, j :: 0 <= i < j < |rows| ==> rows[i].previousHash != rows[j].previousHash
  }

  /** The rows link up from genesis. */
  predicate LinkedUp(rows: seq<Row>) {
    forall i {:trigger PrevAt(rows, i)} :: 0 <= i < |rows| ==> rows[i].previousHash == PrevAt(rows, i)
  }

  /** A linear order of all the rows: linked from genesis, without forks, gaps or repeated hashes. */
  predicate LinearOrder(rows: seq<Row>, order: seq<Row>) {
    multiset(order) == multiset(rows) && LinkedUp(order) && DistinctPrevs(order) && DistinctHashes(order)
  }

  // ----- The index by previous hash -----

  function WithPrev(rows: seq<Row>, h: string): seq<Row> {
    if rows == [] then []
    else
      var last := rows[|rows| - 1];
      WithPrev(rows[..|rows| - 1], h) + (if last.previousHash == h then [last] else [])
  }

  function Lookup(index: map<string, seq<Row>>, h: string): seq<Row> {
    if h in index then index[h] else []
  }

  lemma {:induction false} WithPrevFacts(rows: seq<Row>, h: string)
    ensures forall r :: r in WithPrev(rows, h) <==> r in rows && r.previousHash == h
    ensures forall r: Row :: r.previousHash == h ==> multiset(WithPrev(rows, h))[r] == multiset(rows)[r]
  {
    if rows != [] {
      var front, last := rows[..|rows| - 1], rows[|rows| - 1];
      WithPrevFacts(front, h);
      assert rows == front + [last];
    }
  }

  lemma {:induction false} AllSame(s: seq<Row>, x: Row)
    requires forall r :: r in s ==> r == x
    ensures multiset(s)[x] == |s|
  {
    if s != [] {
      var front, last := s[..|s| - 1], s[|s| - 1];
      assert s == front + [last];
      assert last in s && forall r :: r in front ==> r in s;
      AllSame(front, x);
    }
  }

  lemma {:induction false} OnceWhenDistinct(s: seq<Row>, x: Row)
    requires DistinctPrevs(s)
    ensures multiset(s)[x] == if x in s then 1 else 0
  {
    if s != [] {
      assert s == s[..|s| - 1] + [s[|s| - 1]];
      OnceWhenDistinct(s[..|s| - 1], x);
    }
  }

  /** In a linear order, position k is found by looking up the hash it must continue, and nothing else is. */
  lemma NextIsUnique(rows: seq<Row>, order: seq<Row>, k: nat)
    requires LinearOrder(rows, order) && k < |order|
    ensures WithPrev(rows, PrevAt(order, k)) == [order[k]]
  {
    var h, x := PrevAt(order, k), order[k];
    var found := WithPrev(rows, h);
    WithPrevFacts(rows, h);
    assert x.previousHash == h;
    forall r | r in found ensures r == x {
      assert r in multiset(rows);
      assert r in order;
      var j :| 0 <= j < |order| && order[j] == r;
      assert j == k;
    }
    AllSame(found, x);
    OnceWhenDistinct(order, x);
    assert |found| == 1;
  }

  /** There is at most one linear order. */
  lemma {:induction false} LinearOrderUnique(rows: seq<Row>, a: seq<Row>, b: seq<Row>)
    requires LinearOrder(rows, a) && LinearOrder(rows, b)
    ensures a == b
  {
    assert |a| == |multiset(a)| == |multiset(b)| == |b|;
    SamePrefix(rows, a, b, |a|);
    assert a[..|a|] == a && b[..|b|] == b;
  }

  lemma {:induction false} SamePrefix(rows: seq<Row>, a: seq<Row>, b: seq<Row>, k: nat)
    requires LinearOrder(rows, a) && LinearOrder(rows, b) && k <= |a| == |b|
    ensures a[..k] == b[..k]
  {
    if k > 0 {
      SamePrefix(rows, a, b, k - 1);
      NextIsUnique(rows, a, k - 1);
      NextIsUnique(rows, b, k - 1);
      if k > 1 {
        assert a[..k - 1][k - 2] == b[..k - 1][k - 2];
      }
      assert PrevAt(a, k - 1) == PrevAt(b, k - 1);
      assert [a[k - 1]][0] == [b[k - 1]][0];
      assert a[..k] == a[..k - 1] + [a[k - 1]] && b[..k] == b[..k - 1] + [b[k - 1]];
    }
  }

  // ----- The reconstruction loop -----

  function Hashes(rows: seq<Row>): set<string> {
    set r | r in rows :: r.chainHash
  }

  lemma HashesSnoc(rows: seq<Row>, row: Row)
    ensures Hashes(rows + [row]) == Hashes(rows) + {row.chainHash}
  {
    assert forall r :: r in rows + [row] <==> r in rows || r == row;
  }

  /** What the loop keeps: a linked prefix each of whose rows was the only one to continue its predecessor. */
  predicate Reconstructed(rows: seq<Row>, ordered: seq<Row>) {
    && LinkedUp(ordered) && DistinctPrevs(ordered) && DistinctHashes(ordered)
    && forall i {:trigger PrevAt(ordered, i)} :: 0 <= i < |ordered| ==>
         WithPrev(rows, PrevAt(ordered, i)) == [ordered[i]]
  }

  lemma ReconstructStep(rows: seq<Row>, ordered: seq<Row>, node: Row)
    requires Reconstructed(rows, ordered)
    requires WithPrev(rows, PrevAt(ordered, |ordered|)) == [node]
    requires forall i :: 0 <= i < |ordered| ==> ordered[i].chainHash != node.chainHash
    ensures Reconstructed(rows, ordered + [node])
  {
    var n, all := |ordered|, ordered + [node];
    WithPrevFacts(rows, PrevAt(ordered, n));
    assert node in WithPrev(rows, PrevAt(ordered, n));
    NewPrev(rows, ordered, node);
    forall i {:trigger PrevAt(all, i)} | 0 <= i < |all|
      ensures all[i].previousHash == PrevAt(all, i) && WithPrev(rows, PrevAt(all, i)) == [all[i]]
    {
      LinkAt(rows, ordered, node, i);
    }
  }

  lemma LinkAt(rows: seq<Row>, ordered: seq<Row>, node: Row, i: nat)
    requires Reconstructed(rows, ordered) && i <= |ordered|
    requires WithPrev(rows, PrevAt(ordered, |ordered|)) == [node] && node.previousHash == PrevAt(ordered, |ordered|)
    ensures var all := ordered + [node];
      all[i].previousHash == PrevAt(all, i) && WithPrev(rows, PrevAt(all, i)) == [all[i]]
  {
    assert PrevAt(ordered + [node], i) == PrevAt(ordered, i);
  }

  lemma NewPrev(rows: seq<Row>, ordered: seq<Row>, node: Row)
    requires Reconstructed(rows, ordered)
    requires WithPrev(rows, node.previousHash) == [node]
    requires forall i :: 0 <= i < |ordered| ==> ordered[i].chainHash != node.chainHash
    ensures DistinctPrevs(ordered + [node])
  {
    forall i | 0 <= i < |ordered| ensures ordered[i].previousHash != node.previousHash {
      assert ordered[i].previousHash == PrevAt(ordered, i);
      assert WithPrev(rows, PrevAt(ordered, i)) == [ordered[i]];
      assert [ordered[i]][0] != [node][0];
    }
  }

  lemma CompleteIsLinear(rows: seq<Row>, ordered: seq<Row>)
    requires Reconstructed(rows, ordered) && |ordered| == |rows|
    ensures LinearOrder(rows, ordered)
  {
    forall x ensures multiset(ordered)[x] <= multiset(rows)[x] {
      OnceWhenDistinct(ordered, x);
      if x in ordered {
        var i :| 0 <= i < |ordered| && ordered[i] == x;
        WithPrevFacts(rows, PrevAt(ordered, i));
        assert x in WithPrev(rows, PrevAt(ordered, i));
        assert x in rows && x in multiset(rows);
      }
    }
    var extra := multiset(rows) - multiset(ordered);
    assert multiset(rows) == multiset(ordered) + extra;
    assert |extra| == 0;
  }

  /** The row after this prefix is missing, ambiguous, or has a hash that occurred before. */
  predicate Stuck(rows: seq<Row>, ordered: seq<Row>) {
    var next := WithPrev(rows, PrevAt(ordered, |ordered|));
    |next| == 1 ==> exists i :: 0 <= i < |ordered| && ordered[i].chainHash == next[0].chainHash
  }

  /** When the loop gives up, no linear order exists. */
  lemma StuckMeansNoOrder(rows: seq<Row>, ordered: seq<Row>, order: seq<Row>)
    requires Reconstructed(rows, ordered) && |ordered| < |rows|
    requires Stuck(rows, ordered)
    ensures !LinearOrder(rows, order)
  {
    if LinearOrder(rows, order) {
      assert |order| == |multiset(order)| == |rows|;
      var n := |ordered|;
      PrefixOfOrder(rows, ordered, order, n);
      assert forall i :: 0 <= i < n ==> ordered[i] == ordered[..n][i] == order[..n][i] == order[i];
      assert PrevAt(ordered, n) == PrevAt(order, n);
      NextIsUnique(rows, order, n);
    }
  }

  lemma {:induction false} PrefixOfOrder(rows: seq<Row>, ordered: seq<Row>, order: seq<Row>, k: nat)
    requires Reconstructed(rows, ordered) && LinearOrder(rows, order) && k <= |ordered| <= |order|
    ensures ordered[..k] == order[..k]
  {
    if k > 0 {
      PrefixOfOrder(rows, ordered, order, k - 1);
      if k > 1 {
        assert ordered[..k - 1][k - 2] == order[..k - 1][k - 2];
      }
      assert PrevAt(ordered, k - 1) == PrevAt(order, k - 1);
      NextIsUnique(rows, order, k - 1);
      assert [ordered[k - 1]][0] == [order[k - 1]][0];
      assert ordered[..k] == ordered[..k - 1] + [ordered[k - 1]] && order[..k] == order[..k - 1] + [order[k - 1]];
    }
  }

  /** Two reconstructions agree as far as the shorter goes. */
  lemma {:induction false} SameReconstruction(rows: seq<Row>, a: seq<Row>, b: seq<Row>, k: nat)
    requires Reconstructed(rows, a) && Reconstructed(rows, b) && k <= |a| && k <= |b|
    ensures a[..k] == b[..k]
  {
    if k > 0 {
      SameReconstruction(rows, a, b, k - 1);
      if k > 1 {
        assert a[..k - 1][k - 2] == b[..k - 1][k - 2];
      }
      assert PrevAt(a, k - 1) == PrevAt(b, k - 1);
      assert [a[k - 1]][0] == [b[k - 1]][0];
      assert a[..k] == a[..k - 1] + [a[k - 1]] && b[..k] == b[..k - 1] + [b[k - 1]];
    }
  }

  /** The longest prefix that can be rebuilt from genesis without a choice has k rows. */
  ghost predicate LongestReconstruction(rows: seq<Row>, k: nat) {
    && (exists ordered :: Reconstructed(rows, ordered) && |ordered| == k)
    && (forall ordered :: Reconstructed(rows, ordered) ==> |ordered| <= k)
  }

  lemma LongerIsNotStuck(rows: seq<Row>, ordered: seq<Row>, longer: seq<Row>)
    requires Reconstructed(rows, longer) && |ordered| < |longer| && longer[..|ordered|] == ordered
    ensures !Stuck(rows, ordered)
  {
    var n := |ordered|;
    assert forall i :: 0 <= i < n ==> ordered[i] == longer[i];
    assert PrevAt(ordered, n) == PrevAt(longer, n);
    assert WithPrev(rows, PrevAt(longer, n)) == [longer[n]];
  }

  lemma StuckIsLongest(rows: seq<Row>, ordered: seq<Row>)
    requires Reconstructed(rows, ordered) && Stuck(rows, ordered)
    ensures LongestReconstruction(rows, |ordered|)
  {
    forall other | Reconstructed(rows, other) ensures |other| <= |ordered| {
      if |other| > |ordered| {
        SameReconstruction(rows, ordered, other, |ordered|);
        assert ordered[..|ordered|] == ordered;
        LongerIsNotStuck(rows, ordered, other);
      }
    }
  }

  /** The chain in this order breaks at row k and not before. */
  predicate BreaksAt(sha: string -> string, canon: AuditData -> string, order: seq<Row>, k: nat) {
    && k < |order|
    && ChainValid(sha, canon, order[..k])
    && !RowOk(sha, canon, order[k], PrevAt(order, k))
  }

  ghost predicate HasOrder(rows: seq<Row>) { exists order :: LinearOrder(rows, order) }

  /**
    Accepts a tenant's rows, in whatever order they are returned, exactly when some linear order of all
    of them is a valid hash chain. Otherwise it reports where the one linear order breaks or, when there
    is none, how many rows can be rebuilt from genesis.
  */
  method VerifyTenantChain(sha: string -> string, canon: AuditData -> string, rows: seq<Row>)
    returns (r: VerificationResult)
    ensures r.isValid <==> exists order :: LinearOrder(rows, order) && ChainValid(sha, canon, order)
    ensures r.totalRecords == |rows|
    ensures r.isValid <==> r.firstBrokenAt.None?
    ensures !r.isValid && !HasOrder(rows) ==> LongestReconstruction(rows, r.firstBrokenAt.value)
    ensures !r.isValid ==> forall order :: LinearOrder(rows, order) ==>
      BreaksAt(sha, canon, order, r.firstBrokenAt.value)
  {
    if rows == [] {
      assert LinearOrder(rows, []) && ChainValid(sha, canon, []);
      return VerificationResult(true, 0, None);
    }
    var byPrevious := IndexRows(rows);
    var ordered := FollowLinks(rows, byPrevious);
    if |ordered| < |rows| {
      return VerificationResult(false, |rows|, Some(|ordered|));
    }
    r := VerifyChain(sha, canon, ordered);
    if !r.isValid {
      assert BreaksAt(sha, canon, ordered, r.firstBrokenAt.value);
      forall order | LinearOrder(rows, order) ensures order == ordered && !ChainValid(sha, canon, order) {
        LinearOrderUnique(rows, ordered, order);
      }
    }
  }

  method IndexRows(rows: seq<Row>) returns (byPrevious: map<string, seq<Row>>)
    ensures forall h :: Lookup(byPrevious, h) == WithPrev(rows, h)
  {
    byPrevious := map[];
    for i := 0 to |rows|
      invariant forall h :: Lookup(byPrevious, h) == WithPrev(rows[..i], h)
    {
      assert rows[..i + 1][..i] == rows[..i];
      var row := rows[i];
      byPrevious := byPrevious[row.previousHash := Lookup(byPrevious, row.previousHash) + [row]];
    }
    assert rows[..|rows|] == rows;
  }

  /** Follows the links from genesis; falls short of all the rows exactly when they have no linear order. */
  method FollowLinks(rows: seq<Row>, byPrevious: map<string, seq<Row>>) returns (ordered: seq<Row>)
    requires forall h :: Lookup(byPrevious, h) == WithPrev(rows, h)
    ensures |ordered| <= |rows|
    ensures |ordered| == |rows| ==> LinearOrder(rows, ordered)
    ensures |ordered| < |rows| ==> LongestReconstruction(rows, |ordered|) && forall order :: !LinearOrder(rows, order)
  {
    ordered := [];
    var current, visited: set<string> := GENESIS, {};
    while |ordered| < |rows|
      invariant |ordered| <= |rows| && Reconstructed(rows, ordered)
      invariant current == PrevAt(ordered, |ordered|)
      invariant visited == Hashes(ordered)
    {
      var next := Lookup(byPrevious, current);
      if |next| != 1 || next[0].chainHash in visited {
        forall order ensures !LinearOrder(rows, order) {
          StuckMeansNoOrder(rows, ordered, order);
        }
        StuckIsLongest(rows, ordered);
        return;
      }
      var node := next[0];
      assert forall i :: 0 <= i < |ordered| ==> ordered[i].chainHash in Hashes(ordered);
      ReconstructStep(rows, ordered, node);
      HashesSnoc(ordered, node);
      visited := visited + {node.chainHash};
      ordered := ordered + [node];
      current := node.chainHash;
    }
    CompleteIsLinear(rows, ordered);
  }

  // ----- Writing the trail -----

  /** A chain as the writer builds it: valid, in linear order, and no hash equals the genesis marker. */
  predicate WrittenChain(sha: string -> string, canon: AuditData -> string, order: seq<Row>) {
    && ChainValid(sha, canon, order) && LinearOrder(order, order)
    && GENESIS !in Hashes(order)
  }

  lemma TailIsLast(table: seq<Row>, order: seq<Row>, r: Row)
    requires LinearOrder(table, order) && GENESIS !in Hashes(order) && r in order
    ensures HasChild(table, r) <==> r != order[|order| - 1]
  {
    hide DistinctPrevs;
    var n := |order|;
    assert forall x :: x in table <==> x in multiset(table);
    assert forall x :: x in order <==> x in multiset(order);
    var i :| 0 <= i < n && order[i] == r;
    if i < n - 1 {
      var c := order[i + 1];
      assert c.previousHash == PrevAt(order, i + 1) == r.chainHash;
      assert c in order && c in multiset(order) && c in table;
      assert order[i].chainHash != order[n - 1].chainHash;
    } else {
      forall c | c in table ensures c.previousHash != r.chainHash {
        assert c in multiset(table) && c in multiset(order) && c in order;
        var j :| 0 <= j < n && order[j] == c;
        assert c.previousHash == PrevAt(order, j);
        assert r.chainHash in Hashes(order);
      }
    }
  }

  /** In whatever order the table stores a written chain, the lock query finds the chain's last hash. */
  lemma PreviousHashIsLast(table: seq<Row>, order: seq<Row>)
    requires LinearOrder(table, order) && GENESIS !in Hashes(order)
    ensures PreviousHash(table) == PrevAt(order, |order|)
  {
    var tails := Tails(table, table);
    assert forall x :: x in table <==> x in multiset(table);
    assert forall x :: x in order <==> x in multiset(order);
    assert |order| == |multiset(order)| == |table|;
    forall t | t in tails ensures t == order[|order| - 1] {
      TailIsLast(table, order, t);
    }
    if order != [] {
      var last := order[|order| - 1];
      TailIsLast(table, order, last);
      assert last in multiset(table) && last in table && last in tails;
    }
  }

  ghost predicate Digests64(sha: string -> string) {
    forall x :: |sha(x)| == 64
  }

  function PayloadOf(canon: AuditData -> string, r: Row): string {
    Payload(canon, r.data, r.previousHash)
  }

  /** No two of the rows' payloads collide and none hashes to the genesis marker. */
  ghost predicate CollisionFree(sha: string -> string, canon: AuditData -> string, rows: seq<Row>) {
    && (forall a, b :: a in rows && b in rows && sha(PayloadOf(canon, a)) == sha(PayloadOf(canon, b)) ==>
          PayloadOf(canon, a) == PayloadOf(canon, b))
    && (forall a :: a in rows ==> sha(PayloadOf(canon, a)) != GENESIS)
  }

  lemma PayloadSuffix(canon: AuditData -> string, a: Row, b: Row)
    requires |a.previousHash| == |b.previousHash| && PayloadOf(canon, a) == PayloadOf(canon, b)
    ensures a.previousHash == b.previousHash
  {
    var p, n := PayloadOf(canon, a), |a.previousHash|;
    assert p[|p| - n..] == a.previousHash && p[|p| - n..] == b.previousHash;
  }

  lemma PrevLength(sha: string -> string, canon: AuditData -> string, order: seq<Row>, i: nat)
    requires Digests64(sha) && ChainValid(sha, canon, order) && i <= |order|
    ensures |PrevAt(order, i)| == 64
  {
    if i > 0 {
      assert RowOk(sha, canon, order[i - 1], PrevAt(order, i - 1));
    }
  }

  function NewRow(sha: string -> string, canon: AuditData -> string, table: seq<Row>, data: AuditData, at: int): Row {
    var prev := PreviousHash(table);
    Rec(data, at, prev, ComputeChainHash(sha, canon, data, prev))
  }

  /** Appending under the lock extends a written chain. */
  lemma AppendExtendsChain(sha: string -> string, canon: AuditData -> string, order: seq<Row>, data: AuditData, at: int)
    requires Digests64(sha) && WrittenChain(sha, canon, order)
    requires CollisionFree(sha, canon, order + [NewRow(sha, canon, order, data, at)])
    ensures WrittenChain(sha, canon, order + [NewRow(sha, canon, order, data, at)])
  {
    var row, n := NewRow(sha, canon, order, data, at), |order|;
    var all := order + [row];
    PreviousHashIsLast(order, order);
    assert row in all && all[n] == row;
    assert forall i :: 0 <= i <= n ==> PrevAt(all, i) == PrevAt(order, i);
    forall i | 0 <= i < n
      ensures order[i].previousHash != row.previousHash && order[i].chainHash != row.chainHash
    {
      EarlierDiffers(sha, canon, order, row, i);
    }
    HashesSnoc(order, row);
    NewRowLinks(sha, canon, order, row);
  }

  lemma NewRowLinks(sha: string -> string, canon: AuditData -> string, order: seq<Row>, row: Row)
    requires ChainValid(sha, canon, order) && RowOk(sha, canon, row, PrevAt(order, |order|))
    ensures ChainValid(sha, canon, order + [row]) && LinkedUp(order + [row])
  {
    var all := order + [row];
    forall i {:trigger PrevAt(all, i)} | 0 <= i < |all| ensures RowOk(sha, canon, all[i], PrevAt(all, i)) {
      assert PrevAt(all, i) == PrevAt(order, i);
    }
  }

  lemma EarlierDiffers(sha: string -> string, canon: AuditData -> string, order: seq<Row>, row: Row, i: nat)
    requires Digests64(sha) && WrittenChain(sha, canon, order) && i < |order|
    requires RowOk(sha, canon, row, PrevAt(order, |order|))
    requires CollisionFree(sha, canon, order + [row])
    ensures order[i].previousHash != row.previousHash && order[i].chainHash != row.chainHash
  {
    var n := |order|;
    assert order[i].previousHash == PrevAt(order, i);
    assert order[n - 1].chainHash in Hashes(order);
    PrevLength(sha, canon, order, i);
    PrevLength(sha, canon, order, n);
    assert RowOk(sha, canon, order[i], PrevAt(order, i));
    assert order[i] in order + [row] && row in order + [row];
    if order[i].chainHash == row.chainHash {
      PayloadSuffix(canon, order[i], row);
    }
  }

  // ----- Whole histories over many tenants -----

  datatype Action = Action(data: AuditData, at: int)

  function ForTenant(rows: seq<Row>, tenant: string): seq<Row> {
    if rows == [] then []
    else
      var last := rows[|rows| - 1];
      ForTenant(rows[..|rows| - 1], tenant) + (if last.data.tenantId == tenant then [last] else [])
  }

  lemma ForTenantSnoc(rows: seq<Row>, row: Row, tenant: string)
    ensures row.data.tenantId == tenant ==> ForTenant(rows + [row], tenant) == ForTenant(rows, tenant) + [row]
    ensures row.data.tenantId != tenant ==> ForTenant(rows + [row], tenant) == ForTenant(rows, tenant)
  {
    assert (rows + [row])[..|rows|] == rows;
  }

  lemma {:induction false} ForTenantRows(rows: seq<Row>, tenant: string)
    ensures forall r :: r in ForTenant(rows, tenant) ==> r in rows
  {
    if rows != [] {
      ForTenantRows(rows[..|rows| - 1], tenant);
    }
  }

  /** The table after one logged action. */
  function Logged(sha: string -> string, canon: AuditData -> string, rows: seq<Row>, a: Action): seq<Row> {
    rows + [NewRow(sha, canon, ForTenant(rows, a.data.tenantId), a.data, a.at)]
  }

  function History(sha: string -> string, canon: AuditData -> string, actions: seq<Action>): seq<Row> {
    if actions == [] then []
    else Logged(sha, canon, History(sha, canon, actions[..|actions| - 1]), actions[|actions| - 1])
  }

  lemma FewerRows(sha: string -> string, canon: AuditData -> string, all: seq<Row>, some: seq<Row>)
    requires CollisionFree(sha, canon, all) && forall r :: r in some ==> r in all
    ensures CollisionFree(sha, canon, some)
  {
  }

  /** After any history of logged actions, every tenant's rows form a written chain. */
  lemma {:induction false} HistoryIsWritten(sha: string -> string, canon: AuditData -> string, actions: seq<Action>,
                                            tenant: string)
    requires Digests64(sha) && CollisionFree(sha, canon, History(sha, canon, actions))
    ensures WrittenChain(sha, canon, ForTenant(History(sha, canon, actions), tenant))
  {
    if actions != [] {
      var front, a := actions[..|actions| - 1], actions[|actions| - 1];
      var rows := History(sha, canon, front);
      var mine := ForTenant(rows, a.data.tenantId);
      var row := NewRow(sha, canon, mine, a.data, a.at);
      assert History(sha, canon, actions) == rows + [row];
      FewerRows(sha, canon, rows + [row], rows);
      HistoryIsWritten(sha, canon, front, tenant);
      ForTenantSnoc(rows, row, tenant);
      if tenant == a.data.tenantId {
        ForTenantRows(rows, tenant);
        FewerRows(sha, canon, rows + [row], mine + [row]);
        AppendExtendsChain(sha, canon, mine, a.data, a.at);
      }
    }
  }

  /**
    Whatever order the database returns a tenant's rows in, and whatever other tenants logged in
    between, a trail written by the logger has a linear order that is a valid chain: it is accepted.
  */
  lemma WrittenHistoryAccepted(sha: string -> string, canon: AuditData -> string, actions: seq<Action>,
                               tenant: string, returned: seq<Row>)
    requires Digests64(sha) && CollisionFree(sha, canon, History(sha, canon, actions))
    requires multiset(returned) == multiset(ForTenant(History(sha, canon, actions), tenant))
    ensures exists order :: LinearOrder(returned, order) && ChainValid(sha, canon, order)
  {
    HistoryIsWritten(sha, canon, actions, tenant);
    var order := ForTenant(History(sha, canon, actions), tenant);
    assert LinearOrder(returned, order) && ChainValid(sha, canon, order);
  }

  /** The audit table of the database. */
  class AuditTrail {
    const sha: string -> string
    const canon: AuditData -> string
    var rows: seq<Row>

    constructor (sha: string -> string, canon: AuditData -> string)
      ensures this.sha == sha && this.canon == canon && rows == []
    {
      this.sha := sha;
      this.canon := canon;
      rows := [];
    }

    /** Inserts one entry linked to the newest unlinked row of the same tenant; no other row changes. */
    method LogAction(a: Action) returns (entry: Row)
      modifies this
      ensures rows == Logged(sha, canon, old(rows), a)
      ensures rows == old(rows) + [entry]
      ensures entry.data == a.data && entry.createdAt == a.at
      ensures RowOk(sha, canon, entry, PreviousHash(ForTenant(old(rows), a.data.tenantId)))
      ensures forall t :: t != a.data.tenantId ==> ForTenant(rows, t) == ForTenant(old(rows), t)
    {
      var previous := PreviousHash(ForTenant(rows, a.data.tenantId));
      entry := Rec(a.data, a.at, previous, ComputeChainHash(sha, canon, a.data, previous));
      forall t | t != a.data.tenantId ensures ForTenant(rows + [entry], t) == ForTenant(rows, t) {
        ForTenantSnoc(rows, entry, t);
      }
      rows := rows + [entry];
    }
  }
}
