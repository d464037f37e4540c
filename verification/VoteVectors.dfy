/** Vote vectors, kept sorted by referendum index. */
module VoteVectors {
  import opened Wrappers
  import opened Voting

  predicate Sorted(votes: seq<Entry>) {
    forall i, j :: 0 <= i < j < |votes| ==> votes[i].index < votes[j].index
  }

  lemma {:induction false} PositionSplits(votes: seq<Entry>, r: nat)
    requires Sorted(votes)
    ensures forall i :: 0 <= i < Position(votes, r) ==> votes[i].index < r
    ensures forall i :: Position(votes, r) <= i < |votes| ==> votes[i].index >= r
  {
    if votes != [] && votes[0].index < r {
      var rest := votes[1..];
      PositionSplits(rest, r);
      forall i | 0 <= i < |votes|
        ensures if i < Position(votes, r) then votes[i].index < r else votes[i].index >= r
      {
        if i > 0 { assert votes[i] == rest[i - 1]; }
      }
    }
  }

  /** In a sorted vector the search finds every entry, and only entries. */
  lemma FindsEntries(votes: seq<Entry>, r: nat)
    requires Sorted(votes)
    ensures forall i :: 0 <= i < |votes| && votes[i].index == r ==> Find(votes, r) == Some(votes[i].vote)
    ensures Find(votes, r).Some? ==> exists i :: 0 <= i < |votes| && votes[i] == Entry(r, Find(votes, r).value)
  {
    PositionSplits(votes, r);
    var p := Position(votes, r);
    forall i | 0 <= i < |votes| && votes[i].index == r ensures i == p {
      assert p <= i;
      var e := votes[p];
      assert e.index >= r;
    }
    if Find(votes, r).Some? { assert votes[p] == Entry(r, Find(votes, r).value); }
  }

  lemma PutSorted(votes: seq<Entry>, r: nat, v: AccountVote)
    requires Sorted(votes)
    ensures Sorted(Put(votes, r, v))
    ensures forall e :: e in Put(votes, r, v) ==> e in votes || e == Entry(r, v)
    ensures forall e :: e in votes && e.index != r ==> e in Put(votes, r, v)
    ensures Entry(r, v) in Put(votes, r, v)
  {
    PositionSplits(votes, r);
    var i, after := Position(votes, r), Put(votes, r, v);
    assert after[i] == Entry(r, v);
    forall e | e in votes && e.index != r ensures e in after {
      var k :| 0 <= k < |votes| && votes[k] == e;
      assert after[if k < i || |after| == |votes| then k else k + 1] == e;
    }
  }

  /** Removing position `i` keeps the order and exactly the entries with another index. */
  lemma WithoutOne(votes: seq<Entry>, i: nat)
    requires Sorted(votes) && i < |votes|
    ensures Sorted(votes[..i] + votes[i + 1..])
    ensures forall e :: e in votes[..i] + votes[i + 1..] <==> e in votes && e.index != votes[i].index
  {
    var after := votes[..i] + votes[i + 1..];
    assert forall k :: 0 <= k < |after| ==> after[k] == votes[if k < i then k else k + 1];
    forall e | e in votes && e.index != votes[i].index ensures e in after {
      var k :| 0 <= k < |votes| && votes[k] == e;
      assert after[if k < i then k else k - 1] == e;
    }
  }

  lemma DropSorted(votes: seq<Entry>, r: nat)
    requires Sorted(votes)
    ensures Sorted(Drop(votes, r))
    ensures forall e :: e in Drop(votes, r) <==> e in votes && e.index != r
  {
    PositionSplits(votes, r);
    var i := Position(votes, r);
    if i < |votes| && votes[i].index == r {
      WithoutOne(votes, i);
    } else {
      FindsEntries(votes, r);
    }
  }

  lemma FindFromMembership(votes: seq<Entry>, r: nat)
    requires Sorted(votes)
    ensures forall v :: Find(votes, r) == Some(v) <==> Entry(r, v) in votes
  {
    FindsEntries(votes, r);
    forall v ensures Find(votes, r) == Some(v) <==> Entry(r, v) in votes {
      if Entry(r, v) in votes { var i :| 0 <= i < |votes| && votes[i] == Entry(r, v); }
    }
  }

  lemma FindPut(votes: seq<Entry>, r: nat, v: AccountVote, q: nat)
    requires Sorted(votes)
    ensures Find(Put(votes, r, v), q) == if q == r then Some(v) else Find(votes, q)
  {
    PutSorted(votes, r, v);
    FindFromMembership(votes, q);
    FindFromMembership(Put(votes, r, v), q);
    var x, y := Find(votes, q), Find(Put(votes, r, v), q);
    if q != r {
      if x.Some? { assert Entry(q, x.value) in votes; }
      if y.Some? { assert Entry(q, y.value) in Put(votes, r, v); }
    }
  }

  lemma FindDrop(votes: seq<Entry>, r: nat, q: nat)
    requires Sorted(votes)
    ensures Find(Drop(votes, r), q) == if q == r then None else Find(votes, q)
  {
    DropSorted(votes, r);
    FindFromMembership(votes, q);
    FindFromMembership(Drop(votes, r), q);
    var x, y := Find(votes, q), Find(Drop(votes, r), q);
    if x.Some? { assert Entry(q, x.value) in votes; }
    if y.Some? { assert Entry(q, y.value) in Drop(votes, r); }
  }
}
