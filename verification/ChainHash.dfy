/**
  Hash-chained tables (utils/chain_hash.py): records in which each row carries the
  previous row's hash and the hash of its own data and that previous hash.
*/
module ChainHash {
  import opened Wrappers
  import opened PyOrder

  /** A stored row; createdAt is the database's timestamp. */
  datatype Rec<D> = Rec(data: D, createdAt: int, previousHash: string, chainHash: string)

  const SIXTEEN_ZEROS := "0000000000000000"
  const GENESIS := SIXTEEN_ZEROS + SIXTEEN_ZEROS + SIXTEEN_ZEROS + SIXTEEN_ZEROS

  /** canonical_json(record_data) + previous_hash */
  function Payload<D>(canon: D -> string, data: D, prev: string): string {
    canon(data) + prev
  }

  function ComputeChainHash<D>(sha: string -> string, canon: D -> string, data: D, prev: string): string {
    sha(Payload(canon, data, prev))
  }

  /** The previous hash the i-th row of a chain must carry. */
  function PrevAt<D>(rows: seq<Rec<D>>, i: nat): string
    requires i <= |rows|
  {
    if i == 0 then GENESIS else rows[i - 1].chainHash
  }

  predicate RowOk<D>(sha: string -> string, canon: D -> string, row: Rec<D>, prev: string) {
    row.previousHash == prev && row.chainHash == ComputeChainHash(sha, canon, row.data, prev)
  }

  /** A correctly linked and correctly hashed chain from genesis. */
  predicate ChainValid<D>(sha: string -> string, canon: D -> string, rows: seq<Rec<D>>) {
    forall i {:trigger PrevAt(rows, i)} :: 0 <= i < |rows| ==> RowOk(sha, canon, rows[i], PrevAt(rows, i))
  }

  datatype VerificationResult = VerificationResult(isValid: bool, totalRecords: nat, firstBrokenAt: Option<nat>)

  /** Accepts exactly the valid chains; otherwise reports the first index at which the chain breaks. */
  method VerifyChain<D>(sha: string -> string, canon: D -> string, records: seq<Rec<D>>)
    returns (r: VerificationResult)
    ensures r.totalRecords == |records|
    ensures r.isValid <==> ChainValid(sha, canon, records)
    ensures r.isValid <==> r.firstBrokenAt.None?
    ensures !r.isValid ==>
      && r.firstBrokenAt.value < |records|
      && ChainValid(sha, canon, records[..r.firstBrokenAt.value])
      && !RowOk(sha, canon, records[r.firstBrokenAt.value], PrevAt(records, r.firstBrokenAt.value))
  {
    for i := 0 to |records|
      invariant ChainValid(sha, canon, records[..i])
    {
      var record := records[i];
      assert forall k :: 0 <= k <= i ==> PrevAt(records[..i], k) == PrevAt(records, k);
      if i == 0 {
        if record.previousHash != GENESIS {
          assert !RowOk(sha, canon, records[i], PrevAt(records, i));
          return VerificationResult(false, |records|, Some(0));
        }
      } else {
        if record.previousHash != records[i - 1].chainHash {
          assert !RowOk(sha, canon, records[i], PrevAt(records, i));
          return VerificationResult(false, |records|, Some(i));
        }
      }
      if ComputeChainHash(sha, canon, record.data, record.previousHash) != record.chainHash {
        assert !RowOk(sha, canon, records[i], PrevAt(records, i));
        return VerificationResult(false, |records|, Some(i));
      }
      assert forall k :: 0 <= k <= i ==> PrevAt(records[..i + 1], k) == PrevAt(records, k);
      forall k {:trigger PrevAt(records[..i + 1], k)} | 0 <= k < i + 1
        ensures RowOk(sha, canon, records[..i + 1][k], PrevAt(records[..i + 1], k))
      {
        if k < i {
          assert RowOk(sha, canon, records[..i][k], PrevAt(records[..i], k));
        }
      }
    }
    assert records[..|records|] == records;
    return VerificationResult(true, |records|, None);
  }

  // ----- The tail of a table -----

  predicate HasChild<D(==)>(rows: seq<Rec<D>>, row: Rec<D>) {
    exists c :: c in rows && c.previousHash == row.chainHash
  }

  /** The rows of `some` that no row of `rows` continues. */
  function Tails<D(==, !new)>(rows: seq<Rec<D>>, some: seq<Rec<D>>): (ts: seq<Rec<D>>)
    ensures forall t :: t in ts <==> t in some && !HasChild(rows, t)
    ensures |ts| <= |some|
  {
    if some == [] then []
    else
      var front, last := some[..|some| - 1], some[|some| - 1];
      Tails(rows, front) + (if HasChild(rows, last) then [] else [last])
  }

  /** ORDER BY created_at DESC, chain_hash DESC LIMIT 1 */
  function Newest<D>(rows: seq<Rec<D>>): (n: Rec<D>)
    requires rows != []
    ensures n in rows
  {
    if |rows| == 1 then rows[0]
    else
      var best, last := Newest(rows[..|rows| - 1]), rows[|rows| - 1];
      if last.createdAt > best.createdAt
         || (last.createdAt == best.createdAt && StrLeq(best.chainHash, last.chainHash))
      then last else best
  }

  /** Of two rows the second comes first in that order, or they tie. */
  predicate NotNewer<D>(a: Rec<D>, b: Rec<D>) {
    a.createdAt < b.createdAt || (a.createdAt == b.createdAt && StrLeq(a.chainHash, b.chainHash))
  }

  lemma NotNewerTransitive<D>(a: Rec<D>, b: Rec<D>, c: Rec<D>)
    requires NotNewer(a, b) && NotNewer(b, c)
    ensures NotNewer(a, c)
  {
    if a.createdAt == b.createdAt == c.createdAt {
      StrLeqTransitive(a.chainHash, b.chainHash, c.chainHash);
    }
  }

  /** Also when the chain has forked: no row is later, and among the latest none has a greater hash. */
  lemma {:induction false} NewestIsLatest<D>(rows: seq<Rec<D>>)
    requires rows != []
    ensures Newest(rows) in rows && forall r :: r in rows ==> NotNewer(r, Newest(rows))
  {
    var front, last := rows[..|rows| - 1], rows[|rows| - 1];
    assert rows == front + [last];
    StrLeqTotal(last.chainHash, last.chainHash);
    if front != [] {
      NewestIsLatest(front);
      var best := Newest(front);
      StrLeqTotal(best.chainHash, last.chainHash);
      forall r | r in rows ensures NotNewer(r, Newest(rows)) {
        if r in front && Newest(rows) == last {
          NotNewerTransitive(r, best, last);
        }
      }
    }
  }

  /** get_previous_hash_locked: the newest row that no row continues, or genesis. */
  function PreviousHash<D(==, !new)>(rows: seq<Rec<D>>): string {
    var tails := Tails(rows, rows);
    if tails == [] then GENESIS else Newest(tails).chainHash
  }
}
