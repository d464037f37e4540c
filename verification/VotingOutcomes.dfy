/** When the voting calls are accepted, and what an accepted call leaves in the ballots and locks. How
    it moves the tallies and the delegations is the subject of the module on tallies. */
module VotingOutcomes {
  import opened Numbers
  import opened Wrappers
  import opened Voting
  import opened VoteVectors
  import opened Tallies
  import opened Locks

  /** The vote that `who` has recorded in referendum `r`. */
  function VoteIn(s: State, who: AccountId, r: nat): Option<AccountVote> {
    if BallotOf(s, who).Direct? then Find(BallotOf(s, who).votes, r) else None
  }

  /** Everything that a vote puts at stake, on either side. */
  function AtStake(v: AccountVote): nat { if v.Standard? then v.balance else v.ayeBalance + v.nayBalance }

  ghost predicate OtherBallotsStay(s: State, t: State, who: AccountId) {
    forall a :: a != who ==> BallotOf(t, a) == BallotOf(s, a) && LockOf(t, a) == LockOf(s, a)
  }

  /** No referendum but `r` changes, and of `r` only the tally. */
  ghost predicate OnlyTallyOf(s: State, t: State, r: nat) {
    && t.count == s.count && t.now == s.now && t.referenda.Keys == s.referenda.Keys
    && forall q :: q in s.referenda ==>
         t.referenda[q] == s.referenda[q]
         || (q == r && s.referenda[q].Ongoing? && t.referenda[q].Ongoing?
             && t.referenda[q].status == s.referenda[q].status.(tally := t.referenda[q].status.tally))
  }

  // ----- voting -----

  /** The tally of `r` without what `who` has contributed to it so far. */
  ghost function Others(cfg: Config, s: State, who: AccountId, r: nat): Tally {
    ExactTally(cfg, s.ballots[who := DEFAULT_BALLOT], r)
  }

  lemma OthersAreTheRest(cfg: Config, s: State, who: AccountId, r: nat)
    requires Inv(cfg, s) && OngoingStatus(s, r).Some? && BallotOf(s, who).Direct?
    ensures WithoutPrevious(cfg, s, who, r) == Some(Others(cfg, s, who, r))
  {
    hide Total;
    TallyUpdate(cfg, s, who, DEFAULT_BALLOT, r);
    assert WorthIn(cfg, DEFAULT_BALLOT, r) == Tally(0, 0, 0);
    assert OngoingStatus(s, r).value.tally == ExactTally(cfg, s.ballots, r);
    if Find(BallotOf(s, who).votes, r).Some? { NoUnderflow(cfg, s, who, r); }
  }

  /** A vote is accepted exactly when the referendum is ongoing, the account has as much as it votes
      with and does not delegate, there is room for one more vote or it replaces one, and its power
      fits on top of what the others have voted. */
  lemma VoteAcceptedExactlyWhen(cfg: Config, s: State, who: AccountId, r: nat, v: AccountVote, free: nat)
    requires Inv(cfg, s)
    ensures TryVote(cfg, s, who, r, v, free).Ok?
            <==> && r in s.referenda && s.referenda[r].Ongoing?
                 && AtStake(v) <= free
                 && BallotOf(s, who).Direct?
                 && (VoteIn(s, who, r).Some? || |BallotOf(s, who).votes| <= cfg.maxVotes)
                 && AtMost(PlusTally(Others(cfg, s, who, r), Power(cfg, v)), LARGEST_TALLY)
    ensures OngoingStatus(s, r).None? ==> TryVote(cfg, s, who, r, v, free) == Err(ReferendumInvalid)
    ensures OngoingStatus(s, r).Some? && AtStake(v) > free ==> TryVote(cfg, s, who, r, v, free) == Err(InsufficientFunds)
    ensures OngoingStatus(s, r).Some? && AtStake(v) <= free && BallotOf(s, who).Delegating? ==>
              TryVote(cfg, s, who, r, v, free) == Err(AlreadyDelegating)
  {
    hide Find, Put, Inv, ExactTally, Power, Reduce, Increase, RemoveChecked;
    if OngoingStatus(s, r).Some? && BallotOf(s, who).Direct? { OthersAreTheRest(cfg, s, who, r); }
  }

  /** It records the vote, keeps all others, and locks at least what it votes with. */
  lemma VoteIsRecorded(cfg: Config, s: State, who: AccountId, r: nat, v: AccountVote, free: nat)
    requires WellFormed(s) && TryVote(cfg, s, who, r, v, free).Ok?
    ensures var t := TryVote(cfg, s, who, r, v, free).value;
            && OtherBallotsStay(s, t, who) && OnlyTallyOf(s, t, r)
            && (forall q :: VoteIn(t, who, q) == if q == r then Some(v) else VoteIn(s, who, q))
            && BallotOf(t, who).delegations == BallotOf(s, who).delegations
            && BallotOf(t, who).prior == BallotOf(s, who).prior
            && LockOf(t, who) == Max(LockOf(s, who), AtStake(v))
  {
    hide Find, Put, Uncount, Recount;
    var t, b := TryVote(cfg, s, who, r, v, free).value, BallotOf(s, who);
    IndicesBelow(s, who);
    forall q ensures VoteIn(t, who, q) == if q == r then Some(v) else VoteIn(s, who, q) { FindPut(b.votes, r, v, q); }
  }

  // ----- taking votes back -----

  /** Is the vote free to be removed by anybody: its referendum was cancelled or lost, or the lock of
      its conviction is over? */
  predicate Expired(cfg: Config, s: State, r: nat, v: AccountVote) {
    || r !in s.referenda
    || (s.referenda[r].Finished?
        && (|| v.Split? || v.aye != s.referenda[r].approved
            || s.now >= s.referenda[r].end + cfg.enactmentPeriod * cfg.lockPeriods(v.conviction)))
  }

  /** A removal is accepted exactly when the vote is there and either the voter asks for it or it has
      expired; otherwise nobody is permitted to. An account that delegates has nothing to remove. */
  lemma RemovalAcceptedExactlyWhen(cfg: Config, s: State, who: AccountId, r: nat, scope: Scope)
    requires Inv(cfg, s)
    ensures var x, v := TryRemoveVote(cfg, s, who, r, scope), VoteIn(s, who, r);
            if BallotOf(s, who).Delegating? then x == Ok(s)
            else && (x.Ok? <==> v.Some? && (scope == AnyVote || Expired(cfg, s, r, v.value)))
                 && (v.None? <==> x == Err(NotVoter))
                 && (x == Err(NoPermission) <==> v.Some? && scope != AnyVote && !Expired(cfg, s, r, v.value))
  {
    hide Find, Drop, Inv;
    VotingNeverUnderflows(cfg, s, who, r, Split(0, 0), 0, scope);
  }

  /** Hence nobody takes a vote away from its voter before it has expired. */
  lemma OnlyVoterRemovesEarly(cfg: Config, s: State, signer: AccountId, target: AccountId, r: nat)
    requires Inv(cfg, s) && BallotOf(s, target).Direct?
    ensures TryRemoveOtherVote(cfg, s, signer, target, r).Ok?
            <==> VoteIn(s, target, r).Some? && (signer == target || Expired(cfg, s, r, VoteIn(s, target, r).value))
  {
    hide TryRemoveVote, Inv, Expired, Find;
    RemovalAcceptedExactlyWhen(cfg, s, target, r, AnyVote);
    RemovalAcceptedExactlyWhen(cfg, s, target, r, OnlyExpired);
  }

  /** It removes that vote and no other. A winning vote whose lock is not over leaves the lock behind;
      any other leaves nothing behind. */
  lemma RemovalEffect(cfg: Config, s: State, who: AccountId, r: nat, scope: Scope)
    requires WellFormed(s) && TryRemoveVote(cfg, s, who, r, scope).Ok? && BallotOf(s, who).Direct?
    ensures VoteIn(s, who, r).Some?
    ensures var t, v := TryRemoveVote(cfg, s, who, r, scope).value, VoteIn(s, who, r).value;
            var was, now := BallotOf(s, who).prior, BallotOf(t, who).prior;
            && OtherBallotsStay(s, t, who) && OnlyTallyOf(s, t, r)
            && BallotOf(t, who).Direct? && LockOf(t, who) == LockOf(s, who)
            && (forall q :: VoteIn(t, who, q) == if q == r then None else VoteIn(s, who, q))
            && BallotOf(t, who).delegations == BallotOf(s, who).delegations
            && (Expired(cfg, s, r, v) || s.referenda[r].Ongoing? ==> now == was)
            && (!Expired(cfg, s, r, v) && s.referenda[r].Finished? ==>
                  && now.until == Max(was.until, s.referenda[r].end + cfg.enactmentPeriod * cfg.lockPeriods(v.conviction))
                  && now.amount == Max(was.amount, v.balance))
  {
    hide Find, Drop, Uncount;
    var t, b := TryRemoveVote(cfg, s, who, r, scope).value, BallotOf(s, who);
    IndicesBelow(s, who);
    forall q ensures VoteIn(t, who, q) == if q == r then None else VoteIn(s, who, q) { FindDrop(b.votes, r, q); }
  }

  // ----- delegating -----

  /** A delegation is accepted exactly when it is to somebody else, of no more than the account has,
      and the account has no votes of its own. */
  lemma DelegationAcceptedExactlyWhen(cfg: Config, s: State, who: AccountId, target: AccountId, c: Conviction,
                                      balance: nat, free: nat)
    ensures var x := TryDelegate(cfg, s, who, target, c, balance, free);
            && (x.Ok? <==> who != target && balance <= free && (BallotOf(s, who).Delegating? || BallotOf(s, who).votes == []))
            && (who == target <==> x == Err(Nonsense))
            && (who != target && balance > free ==> x == Err(InsufficientFunds))
  {
    hide Upstream;
  }

  /** Everybody keeps votes, prior lock and delegation; only delegations held may differ. */
  ghost predicate SameButHeld(s: State, t: State, a: AccountId) {
    BallotOf(t, a) == BallotOf(s, a).(delegations := BallotOf(t, a).delegations)
  }

  lemma UpstreamChangesHeld(s: State, target: AccountId, d: Delegations, up: bool)
    ensures var t := Upstream(s, target, d, up);
            && (forall a :: SameButHeld(s, t, a))
            && (forall a :: a != target ==> BallotOf(t, a) == BallotOf(s, a))
            && t.locks == s.locks && t.now == s.now
  {
    hide Following;
  }

  lemma DelegationEffect(cfg: Config, s: State, who: AccountId, target: AccountId, c: Conviction, balance: nat,
                         free: nat)
    requires WellFormed(s) && TryDelegate(cfg, s, who, target, c, balance, free).Ok?
    ensures var t, b := TryDelegate(cfg, s, who, target, c, balance, free).value, BallotOf(s, who);
            && BallotOf(t, who) == Delegating(balance, target, c, b.delegations, b.prior)
            && (forall a :: a != who ==> SameButHeld(s, t, a) && LockOf(t, a) == LockOf(s, a))
            && LockOf(t, who) == Max(LockOf(s, who), balance) && t.now == s.now
  {
    hide Upstream;
    var b := BallotOf(s, who);
    assert BallotOk(s, who);
    var released := if b.Delegating? then Upstream(s, b.target, cfg.votesOf(b.conviction, b.balance), false) else s;
    if b.Delegating? { UpstreamChangesHeld(s, b.target, cfg.votesOf(b.conviction, b.balance), false); }
    var raised := Upstream(released, target, cfg.votesOf(c, balance), true);
    UpstreamChangesHeld(released, target, cfg.votesOf(c, balance), true);
    var t := TryDelegate(cfg, s, who, target, c, balance, free).value;
    forall a | a != who ensures SameButHeld(s, t, a) {
      assert SameButHeld(released, raised, a) && BallotOf(t, a) == BallotOf(raised, a);
      if b.Delegating? { assert SameButHeld(s, released, a); }
    }
  }

  /** A delegation can be ended exactly when there is one; its balance joins the prior lock until its
      conviction is over. */
  lemma UndelegationEffect(cfg: Config, s: State, who: AccountId)
    requires WellFormed(s)
    ensures TryUndelegate(cfg, s, who).Ok? <==> BallotOf(s, who).Delegating?
    ensures TryUndelegate(cfg, s, who).Err? ==> TryUndelegate(cfg, s, who) == Err(NotDelegating)
    ensures TryUndelegate(cfg, s, who).Ok? ==>
              var t, b := TryUndelegate(cfg, s, who).value, BallotOf(s, who);
              && BallotOf(t, who) == Direct([], b.delegations, BallotOf(t, who).prior)
              && BallotOf(t, who).prior.until == Max(b.prior.until, s.now + cfg.enactmentPeriod * cfg.lockPeriods(b.conviction))
              && BallotOf(t, who).prior.amount == Max(b.prior.amount, b.balance)
              && (forall a :: a != who ==> SameButHeld(s, t, a))
              && t.locks == s.locks && t.now == s.now
  {
    hide Upstream;
    var b := BallotOf(s, who);
    assert BallotOk(s, who);
    if b.Delegating? {
      var d := cfg.votesOf(b.conviction, b.balance);
      var released, t := Upstream(s, b.target, d, false), TryUndelegate(cfg, s, who).value;
      UpstreamChangesHeld(s, b.target, d, false);
      forall a | a != who ensures SameButHeld(s, t, a) { assert SameButHeld(s, released, a) && BallotOf(t, a) == BallotOf(released, a); }
    }
  }

  // ----- unlocking -----

  /** Is `amount` still needed: by a recorded vote, by the delegation, or by an unexpired prior lock? */
  ghost predicate Needed(s: State, who: AccountId, amount: nat) {
    var b := BallotOf(s, who);
    || (b.Direct? && exists e :: e in b.votes && AtStake(e.vote) == amount)
    || (b.Delegating? && b.balance == amount)
    || (s.now < b.prior.until && b.prior.amount == amount)
  }

  /** Unlocking leaves the largest amount that is still needed, and nothing when nothing is. */
  lemma UnlockLeavesWhatIsNeeded(s: State, who: AccountId)
    ensures var t := UpdateLock(s, who);
            && (LockOf(t, who) == 0 || Needed(s, who, LockOf(t, who)))
            && (forall amount: nat :: Needed(s, who, amount) ==> amount <= LockOf(t, who))
            && (forall a :: a != who ==> BallotOf(t, a) == BallotOf(s, a) && LockOf(t, a) == LockOf(s, a))
            && t == s.(ballots := t.ballots, locks := t.locks)
            && BallotOf(t, who) == BallotOf(s, who).(prior := BallotOf(t, who).prior)
            && (s.now < BallotOf(s, who).prior.until ==> BallotOf(t, who).prior == BallotOf(s, who).prior)
  {
    var b := BallotOf(s, who);
    if b.Direct? { LargestBounds(b.votes); }
  }
}
