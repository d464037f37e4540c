/** Conviction locks: the lock on an account always covers what its ballot requires, and what a
    winning vote requires is not forgotten before its time. */
module Locks {
  import opened Numbers
  import opened Wrappers
  import opened Voting
  import opened VoteVectors

  ghost predicate Covered(s: State) {
    forall a :: LockOf(s, a) >= LockedBalance(BallotOf(s, a))
  }

  lemma {:induction false} LargestBounds(votes: seq<Entry>)
    ensures forall e :: e in votes ==> VoteBalance(e.vote) <= Largest(votes)
    ensures Largest(votes) == 0 || exists e :: e in votes && VoteBalance(e.vote) == Largest(votes)
  {
    if votes != [] {
      LargestBounds(votes[1..]);
      assert forall e :: e in votes <==> e == votes[0] || e in votes[1..];
      if Largest(votes) == VoteBalance(votes[0].vote) { assert votes[0] in votes; }
    }
  }

  lemma LargestOfSubset(votes: seq<Entry>, more: seq<Entry>, bound: nat)
    requires forall e :: e in votes ==> e in more || VoteBalance(e.vote) <= bound
    ensures Largest(votes) <= Max(Largest(more), bound)
  {
    LargestBounds(votes);
    LargestBounds(more);
  }

  // ----- the lock covers the ballot -----

  lemma VoteLockedBalance(votes: seq<Entry>, r: nat, v: AccountVote)
    requires Sorted(votes)
    ensures Largest(Put(votes, r, v)) <= Max(Largest(votes), VoteBalance(v))
  {
    PutSorted(votes, r, v);
    LargestOfSubset(Put(votes, r, v), votes, VoteBalance(v));
  }

  lemma VoteKeepsCovered(cfg: Config, s: State, who: AccountId, r: nat, v: AccountVote, free: nat)
    requires Covered(s) && Sorted(if BallotOf(s, who).Direct? then BallotOf(s, who).votes else [])
    requires TryVote(cfg, s, who, r, v, free).Ok?
    ensures Covered(TryVote(cfg, s, who, r, v, free).value)
  {
    hide Find, Put, Largest, Sorted, Uncount, Recount;
    var t, b := TryVote(cfg, s, who, r, v, free).value, BallotOf(s, who);
    VoteLockedBalance(b.votes, r, v);
    forall a ensures LockOf(t, a) >= LockedBalance(BallotOf(t, a)) {
      assert LockOf(s, a) >= LockedBalance(BallotOf(s, a));
    }
  }

  lemma RemovedVoteIsCovered(b: Ballot, r: nat, lock: nat)
    requires b.Direct? && Sorted(b.votes) && lock >= LockedBalance(b)
    ensures lock >= Max(Largest(Drop(b.votes, r)), b.prior.amount)
    ensures forall v :: Find(b.votes, r) == Some(v) ==> lock >= VoteBalance(v)
  {
    DropSorted(b.votes, r);
    LargestOfSubset(Drop(b.votes, r), b.votes, 0);
    LargestBounds(b.votes);
    FindFromMembership(b.votes, r);
  }

  lemma RemoveKeepsCovered(cfg: Config, s: State, who: AccountId, r: nat, scope: Scope)
    requires Covered(s) && Sorted(if BallotOf(s, who).Direct? then BallotOf(s, who).votes else [])
    requires TryRemoveVote(cfg, s, who, r, scope).Ok?
    ensures Covered(TryRemoveVote(cfg, s, who, r, scope).value)
  {
    hide Find, Drop, Largest, Sorted, Uncount;
    var t, b := TryRemoveVote(cfg, s, who, r, scope).value, BallotOf(s, who);
    assert LockOf(s, who) >= LockedBalance(b);
    if b.Direct? { RemovedVoteIsCovered(b, r, LockOf(s, who)); }
    forall a ensures LockOf(t, a) >= LockedBalance(BallotOf(t, a)) {
      assert LockOf(s, a) >= LockedBalance(BallotOf(s, a));
    }
  }

  lemma UpstreamKeepsLocked(s: State, target: AccountId, d: Delegations, up: bool)
    ensures var t := Upstream(s, target, d, up);
            t.locks == s.locks && forall a :: LockedBalance(BallotOf(t, a)) == LockedBalance(BallotOf(s, a))
  {}

  lemma DelegateKeepsCovered(cfg: Config, s: State, who: AccountId, target: AccountId, c: Conviction, balance: nat,
                             free: nat)
    requires Covered(s) && TryDelegate(cfg, s, who, target, c, balance, free).Ok?
    ensures Covered(TryDelegate(cfg, s, who, target, c, balance, free).value)
  {
    var t, b := TryDelegate(cfg, s, who, target, c, balance, free).value, BallotOf(s, who);
    var released := if b.Delegating? then Upstream(s, b.target, cfg.votesOf(b.conviction, b.balance), false) else s;
    if b.Delegating? { UpstreamKeepsLocked(s, b.target, cfg.votesOf(b.conviction, b.balance), false); }
    UpstreamKeepsLocked(released, target, cfg.votesOf(c, balance), true);
    hide Upstream;
    assert LockOf(s, who) >= LockedBalance(b);
    forall a ensures LockOf(t, a) >= LockedBalance(BallotOf(t, a)) {
      assert LockOf(s, a) >= LockedBalance(BallotOf(s, a));
    }
  }

  lemma UndelegateKeepsCovered(cfg: Config, s: State, who: AccountId)
    requires Covered(s) && TryUndelegate(cfg, s, who).Ok?
    ensures Covered(TryUndelegate(cfg, s, who).value)
  {
    var t, b := TryUndelegate(cfg, s, who).value, BallotOf(s, who);
    UpstreamKeepsLocked(s, b.target, cfg.votesOf(b.conviction, b.balance), false);
    hide Upstream;
    assert LockOf(s, who) >= LockedBalance(b);
    forall a ensures LockOf(t, a) >= LockedBalance(BallotOf(t, a)) {
      assert LockOf(s, a) >= LockedBalance(BallotOf(s, a));
    }
  }

  /** Re-evaluating a lock never makes it more stringent, and leaves it exactly as required. */
  lemma UpdateLockOnlyLoosens(s: State, who: AccountId)
    requires Covered(s)
    ensures var t := UpdateLock(s, who);
            && Covered(t) && LockOf(t, who) == LockedBalance(BallotOf(t, who))
            && forall a :: LockOf(t, a) <= LockOf(s, a)
  {
    var t := UpdateLock(s, who);
    forall a ensures LockOf(t, a) >= LockedBalance(BallotOf(t, a)) && LockOf(t, a) <= LockOf(s, a) {
      assert LockOf(s, a) >= LockedBalance(BallotOf(s, a));
    }
  }

  // ----- a winning vote stays locked -----

  /** `amount` is to be held until block `until` on account of referendum `r`: either the winning
      vote is still recorded, or its lock has been merged into the prior lock. */
  ghost predicate Secured(cfg: Config, s: State, who: AccountId, r: nat, until: nat, amount: nat) {
    var b := BallotOf(s, who);
    || (b.prior.until >= until && b.prior.amount >= amount)
    || (b.Direct? && r in s.referenda && s.referenda[r].Finished?
        && exists v :: Entry(r, v) in b.votes && LockEnd(cfg, s.referenda[r], v) == Some((until, amount)))
  }

  /** Once the referendum is over, a vote for the winning side is secured. */
  lemma WinningVoteIsSecured(cfg: Config, s: State, who: AccountId, r: nat, v: AccountVote)
    requires BallotOf(s, who).Direct? && Entry(r, v) in BallotOf(s, who).votes
    requires r in s.referenda && s.referenda[r].Finished? && v.Standard? && v.aye == s.referenda[r].approved
    ensures Secured(cfg, s, who, r, s.referenda[r].end + cfg.enactmentPeriod * cfg.lockPeriods(v.conviction), v.balance)
  {
    assert LockEnd(cfg, s.referenda[r], v).Some?;
  }

  /** What is secured is locked. */
  lemma SecuredIsLocked(cfg: Config, s: State, who: AccountId, r: nat, until: nat, amount: nat)
    requires Covered(s) && Secured(cfg, s, who, r, until, amount)
    ensures LockOf(s, who) >= amount
  {
    var b := BallotOf(s, who);
    assert LockOf(s, who) >= LockedBalance(b);
    if b.Direct? { LargestBounds(b.votes); }
  }

  lemma VoteKeepsSecured(cfg: Config, s: State, who: AccountId, r: nat, v: AccountVote, free: nat,
                         a: AccountId, q: nat, until: nat, amount: nat)
    requires Sorted(if BallotOf(s, who).Direct? then BallotOf(s, who).votes else [])
    requires TryVote(cfg, s, who, r, v, free).Ok? && Secured(cfg, s, a, q, until, amount)
    ensures Secured(cfg, TryVote(cfg, s, who, r, v, free).value, a, q, until, amount)
  {
    hide Find, Put, Uncount, Recount;
    var t, b := TryVote(cfg, s, who, r, v, free).value, BallotOf(s, who);
    PutSorted(b.votes, r, v);
  }

  lemma RemoveKeepsSecured(cfg: Config, s: State, who: AccountId, r: nat, scope: Scope,
                           a: AccountId, q: nat, until: nat, amount: nat)
    requires Sorted(if BallotOf(s, who).Direct? then BallotOf(s, who).votes else [])
    requires TryRemoveVote(cfg, s, who, r, scope).Ok? && Secured(cfg, s, a, q, until, amount) && s.now < until
    ensures Secured(cfg, TryRemoveVote(cfg, s, who, r, scope).value, a, q, until, amount)
  {
    hide Find, Drop, Uncount;
    var t, b := TryRemoveVote(cfg, s, who, r, scope).value, BallotOf(s, who);
    if b.Direct? && a == who {
      DropSorted(b.votes, r);
      FindFromMembership(b.votes, r);
    }
  }

  lemma UpstreamKeepsSecured(cfg: Config, s: State, target: AccountId, d: Delegations, up: bool,
                             a: AccountId, q: nat, until: nat, amount: nat)
    requires Secured(cfg, s, a, q, until, amount)
    ensures Secured(cfg, Upstream(s, target, d, up), a, q, until, amount)
    ensures forall w :: BallotOf(Upstream(s, target, d, up), w).prior == BallotOf(s, w).prior
    ensures forall w :: BallotOf(Upstream(s, target, d, up), w).Direct? ==>
              BallotOf(s, w).Direct? && BallotOf(Upstream(s, target, d, up), w).votes == BallotOf(s, w).votes
  {
    hide Find;
  }

  /** Delegating needs an idle ballot, so a secured vote was already merged; the merged lock is
      carried over. */
  lemma DelegateKeepsSecured(cfg: Config, s: State, who: AccountId, target: AccountId, c: Conviction, balance: nat,
                             free: nat,
                             a: AccountId, q: nat, until: nat, amount: nat)
    requires TryDelegate(cfg, s, who, target, c, balance, free).Ok? && Secured(cfg, s, a, q, until, amount)
    ensures Secured(cfg, TryDelegate(cfg, s, who, target, c, balance, free).value, a, q, until, amount)
  {
    var t, b := TryDelegate(cfg, s, who, target, c, balance, free).value, BallotOf(s, who);
    var released := if b.Delegating? then Upstream(s, b.target, cfg.votesOf(b.conviction, b.balance), false) else s;
    if b.Delegating? {
      UpstreamKeepsSecured(cfg, s, b.target, cfg.votesOf(b.conviction, b.balance), false, a, q, until, amount);
    }
    UpstreamKeepsSecured(cfg, released, target, cfg.votesOf(c, balance), true, a, q, until, amount);
    hide Upstream;
  }

  lemma UndelegateKeepsSecured(cfg: Config, s: State, who: AccountId, a: AccountId, q: nat, until: nat, amount: nat)
    requires TryUndelegate(cfg, s, who).Ok? && Secured(cfg, s, a, q, until, amount)
    ensures Secured(cfg, TryUndelegate(cfg, s, who).value, a, q, until, amount)
  {
    var b := BallotOf(s, who);
    UpstreamKeepsSecured(cfg, s, b.target, cfg.votesOf(b.conviction, b.balance), false, a, q, until, amount);
    hide Upstream;
  }

  /** Re-evaluating clears a merged lock only when it has expired. */
  lemma UpdateLockKeepsSecured(cfg: Config, s: State, who: AccountId, a: AccountId, q: nat, until: nat, amount: nat)
    requires Secured(cfg, s, a, q, until, amount) && s.now < until
    ensures Secured(cfg, UpdateLock(s, who), a, q, until, amount)
  {}

  /** Ending a delegation secures its balance for the lock period of its conviction. */
  lemma UndelegatedBalanceIsSecured(cfg: Config, s: State, who: AccountId, r: nat)
    requires TryUndelegate(cfg, s, who).Ok?
    ensures var b := BallotOf(s, who);
            Secured(cfg, TryUndelegate(cfg, s, who).value, who, r,
                    s.now + cfg.enactmentPeriod * cfg.lockPeriods(b.conviction), b.balance)
  {
    hide Upstream;
  }

  /** Re-delegating does not: after the next re-evaluation the old balance is still locked exactly
      when the new delegation, or an unexpired merged lock, happens to be as large. */
  lemma RedelegatedBalanceIsForgotten(cfg: Config, s: State, who: AccountId, target: AccountId, c: Conviction,
                                      balance: nat, free: nat)
    requires BallotOf(s, who).Delegating? && TryDelegate(cfg, s, who, target, c, balance, free).Ok?
    ensures var b, t := BallotOf(s, who), UpdateLock(TryDelegate(cfg, s, who, target, c, balance, free).value, who);
            LockOf(t, who) >= b.balance
            <==> balance >= b.balance || (s.now < b.prior.until && b.prior.amount >= b.balance)
  {
    hide Following;
  }

  /** Changes to other referenda, and the passing of time, do not touch it. */
  lemma OtherReferendaKeepSecured(cfg: Config, s: State, t: State, a: AccountId, q: nat, until: nat, amount: nat)
    requires Secured(cfg, s, a, q, until, amount) && t.ballots == s.ballots
    requires q in s.referenda && s.referenda[q].Finished? ==> q in t.referenda && t.referenda[q] == s.referenda[q]
    ensures Secured(cfg, t, a, q, until, amount)
  {}
}
