/** What one voting operation adds, another takes away: first votes counted in full, votes taken
    back, votes changed, delegations ended. */
module VotingRoundTrips {
  import opened Numbers
  import opened Wrappers
  import opened Voting
  import opened VoteVectors
  import opened Tallies

  // ----- vectors -----

  lemma {:induction false} PositionIsUnique(votes: seq<Entry>, r: nat, i: nat)
    requires i <= |votes| && (forall k :: 0 <= k < i ==> votes[k].index < r) && (i < |votes| ==> votes[i].index >= r)
    ensures Position(votes, r) == i
    decreases i
  {
    if i > 0 { PositionIsUnique(votes[1..], r, i - 1); }
  }

  lemma PutPosition(votes: seq<Entry>, r: nat, v: AccountVote)
    requires Sorted(votes)
    ensures Position(Put(votes, r, v), r) == Position(votes, r) < |Put(votes, r, v)|
    ensures Put(votes, r, v)[Position(votes, r)] == Entry(r, v)
  {
    PositionSplits(votes, r);
    PositionIsUnique(Put(votes, r, v), r, Position(votes, r));
  }

  lemma PutTwice(votes: seq<Entry>, r: nat, v: AccountVote, w: AccountVote)
    requires Sorted(votes)
    ensures Put(Put(votes, r, v), r, w) == Put(votes, r, w)
  {
    PutPosition(votes, r, v);
  }

  lemma PutThenDrop(votes: seq<Entry>, r: nat, v: AccountVote)
    requires Sorted(votes) && Find(votes, r).None?
    ensures Drop(Put(votes, r, v), r) == votes
  {
    PutPosition(votes, r, v);
    var i, p := Position(votes, r), Put(votes, r, v);
    assert p == votes[..i] + [Entry(r, v)] + votes[i..];
    hide Sorted, Position, Put;
    assert p[..i] == votes[..i] && p[i + 1..] == votes[i..];
    assert votes == votes[..i] + votes[i..];
  }

  // ----- votes -----

  /** An accepted vote is counted on top of the tally without the account's previous vote, in full. */
  lemma CountedInFull(cfg: Config, s: State, who: AccountId, r: nat, v: AccountVote, free: nat)
    returns (base: Tally, u: Tally)
    requires Inv(cfg, s) && TryVote(cfg, s, who, r, v, free).Ok? && Fits(cfg, TryVote(cfg, s, who, r, v, free).value)
    ensures OngoingStatus(s, r).Some? && BallotOf(s, who).Direct? && WithoutPrevious(cfg, s, who, r) == Some(base)
    ensures Recount(cfg, base, v, BallotOf(s, who).delegations) == Some(u)
    ensures u == PlusTally(base, Worth(cfg, v, BallotOf(s, who).delegations))
    ensures var b, t := BallotOf(s, who), TryVote(cfg, s, who, r, v, free).value;
            && t.ballots == s.ballots[who := Direct(Put(b.votes, r, v), b.delegations, b.prior)]
            && t.referenda == s.referenda[r := WithTally(OngoingStatus(s, r).value, u)]
  {
    hide ExactTally, Find;
    u := VoteShape(cfg, s, who, r, v, free);
    base := WithoutPrevious(cfg, s, who, r).value;
    var t, b := TryVote(cfg, s, who, r, v, free).value, BallotOf(s, who);
    IndicesBelow(s, who);
    FindPut(b.votes, r, v, r);
    FittingTally(cfg, t, r);
    VoteTally(cfg, s, who, r, v, t.ballots[who], u);
    BaseWithPrevious(cfg, s, who, r);
  }

  lemma BaseWithPrevious(cfg: Config, s: State, who: AccountId, r: nat)
    requires TalliesExact(cfg, s) && OngoingStatus(s, r).Some? && BallotOf(s, who).Direct?
    ensures var base := WithoutPrevious(cfg, s, who, r);
            base.Some? && PlusTally(base.value, WorthIn(cfg, BallotOf(s, who), r)) == OngoingStatus(s, r).value.tally
  {
    if Find(BallotOf(s, who).votes, r).Some? { NoUnderflow(cfg, s, who, r); }
  }

  /** A first standard vote moves only its own side, by its own power and the delegations the
      account holds, and the turnout by their capital. */
  lemma FirstStandardVote(cfg: Config, s: State, who: AccountId, r: nat, v: AccountVote, free: nat)
    requires Inv(cfg, s) && TryVote(cfg, s, who, r, v, free).Ok? && Fits(cfg, TryVote(cfg, s, who, r, v, free).value)
    requires v.Standard? && Find(BallotOf(s, who).votes, r).None?
    ensures var t := TryVote(cfg, s, who, r, v, free).value;
            var was, now := OngoingStatus(s, r).value.tally, OngoingStatus(t, r).value.tally;
            var own, held := cfg.votesOf(v.conviction, v.balance), BallotOf(s, who).delegations;
            && now.turnout == was.turnout + own.capital + held.capital
            && (v.aye ==> now.ayes == was.ayes + own.votes + held.votes && now.nays == was.nays)
            && (!v.aye ==> now.nays == was.nays + own.votes + held.votes && now.ayes == was.ayes)
  {
    var _, _ := CountedInFull(cfg, s, who, r, v, free);
  }

  /** A first split vote moves both sides without conviction, and no delegations with them. */
  lemma FirstSplitVote(cfg: Config, s: State, who: AccountId, r: nat, v: AccountVote, free: nat)
    requires Inv(cfg, s) && TryVote(cfg, s, who, r, v, free).Ok? && Fits(cfg, TryVote(cfg, s, who, r, v, free).value)
    requires v.Split? && Find(BallotOf(s, who).votes, r).None?
    ensures var t := TryVote(cfg, s, who, r, v, free).value;
            var was, now := OngoingStatus(s, r).value.tally, OngoingStatus(t, r).value.tally;
            var ayes, nays := cfg.votesOf(NoConviction, v.ayeBalance), cfg.votesOf(NoConviction, v.nayBalance);
            && now.ayes == was.ayes + ayes.votes
            && now.nays == was.nays + nays.votes
            && now.turnout == was.turnout + ayes.capital + nays.capital
  {
    var _, _ := CountedInFull(cfg, s, who, r, v, free);
  }

  lemma RemoveOngoing(cfg: Config, s: State, who: AccountId, r: nat, v: AccountVote, base: Tally)
    requires OngoingStatus(s, r).Some? && BallotOf(s, who).Direct? && Find(BallotOf(s, who).votes, r) == Some(v)
    requires Uncount(cfg, OngoingStatus(s, r).value.tally, v, BallotOf(s, who).delegations) == Some(base)
    ensures var b := BallotOf(s, who);
            TryRemoveVote(cfg, s, who, r, AnyVote)
            == Ok(s.(ballots := s.ballots[who := b.(votes := Drop(b.votes, r))],
                     referenda := s.referenda[r := WithTally(OngoingStatus(s, r).value, base)]))
  {
    hide Uncount, Find, Drop;
  }

  /** A vote can be taken back while the referendum is ongoing, and every tally and every ballot is
      then as if it had never been cast. */
  lemma VoteThenRemove(cfg: Config, s: State, who: AccountId, r: nat, v: AccountVote, free: nat)
    requires Inv(cfg, s) && TryVote(cfg, s, who, r, v, free).Ok? && Fits(cfg, TryVote(cfg, s, who, r, v, free).value)
    requires Find(BallotOf(s, who).votes, r).None?
    ensures var u := TryRemoveVote(cfg, TryVote(cfg, s, who, r, v, free).value, who, r, AnyVote);
            u.Ok? && u.value.referenda == s.referenda && forall a :: BallotOf(u.value, a) == BallotOf(s, a)
  {
    hide Worth, Uncount, Recount, Position, Find, Inv, Fits, TryVote, TryRemoveVote, WithoutPrevious, Put, Drop, Sorted;
    var t, b := TryVote(cfg, s, who, r, v, free).value, BallotOf(s, who);
    var base, u := CountedInFull(cfg, s, who, r, v, free);
    SortedBallot(cfg, s, who);
    FindPut(b.votes, r, v, r);
    PutThenDrop(b.votes, r, v);
    NoPrevious(cfg, s, who, r);
    CountedOut(cfg, base, u, v, b.delegations);
    RemoveOngoing(cfg, t, who, r, v, base);
    assert t.referenda[r := WithTally(OngoingStatus(s, r).value.(tally := u), base)] == s.referenda;
  }

  lemma NoPrevious(cfg: Config, s: State, who: AccountId, r: nat)
    requires OngoingStatus(s, r).Some? && BallotOf(s, who).Direct? && Find(BallotOf(s, who).votes, r).None?
    ensures WithoutPrevious(cfg, s, who, r) == Some(OngoingStatus(s, r).value.tally)
  {}

  lemma CountedOut(cfg: Config, base: Tally, u: Tally, v: AccountVote, d: Delegations)
    requires u == PlusTally(base, Worth(cfg, v, d))
    ensures Uncount(cfg, u, v, d) == Some(base)
  {
    hide Worth, Uncount;
    UncountExact(cfg, u, v, d);
  }

  lemma SortedBallot(cfg: Config, s: State, who: AccountId)
    requires Inv(cfg, s) && BallotOf(s, who).Direct?
    ensures Sorted(BallotOf(s, who).votes)
  {
    IndicesBelow(s, who);
  }

  /** The outcome of a vote, put together from its parts. */
  lemma VoteOutcome(cfg: Config, s: State, who: AccountId, r: nat, v: AccountVote, free: nat, base: Tally, u: Tally)
    requires OngoingStatus(s, r).Some? && VoteBalance(v) <= free && BallotOf(s, who).Direct?
    requires WithoutPrevious(cfg, s, who, r) == Some(base) && Find(BallotOf(s, who).votes, r).Some?
    requires Recount(cfg, base, v, BallotOf(s, who).delegations) == Some(u)
    ensures var y, b := TryVote(cfg, s, who, r, v, free), BallotOf(s, who);
            && y.Ok?
            && y.value.ballots == s.ballots[who := Direct(Put(b.votes, r, v), b.delegations, b.prior)]
            && y.value.referenda == s.referenda[r := WithTally(OngoingStatus(s, r).value, u)]
  {}

  lemma AcceptedIsCovered(cfg: Config, s: State, who: AccountId, r: nat, v: AccountVote, free: nat)
    requires TryVote(cfg, s, who, r, v, free).Ok?
    ensures VoteBalance(v) <= free
  {}

  lemma SameBase(cfg: Config, s: State, t: State, who: AccountId, r: nat, v: AccountVote, base: Tally, u: Tally)
    requires OngoingStatus(s, r).Some? && BallotOf(s, who).Direct? && Sorted(BallotOf(s, who).votes)
    requires u == PlusTally(base, Worth(cfg, v, BallotOf(s, who).delegations))
    requires var b := BallotOf(s, who);
             && t.ballots == s.ballots[who := Direct(Put(b.votes, r, v), b.delegations, b.prior)]
             && t.referenda == s.referenda[r := WithTally(OngoingStatus(s, r).value, u)]
    ensures OngoingStatus(t, r) == Some(OngoingStatus(s, r).value.(tally := u)) && BallotOf(t, who).Direct?
    ensures Find(BallotOf(t, who).votes, r) == Some(v) && WithoutPrevious(cfg, t, who, r) == Some(base)
  {
    var b := BallotOf(s, who);
    FindPut(b.votes, r, v, r);
    UncountExact(cfg, u, v, b.delegations);
    hide Worth, Uncount, Find, Put;
    assert Uncount(cfg, u, v, b.delegations).value == base;
  }

  /** Changing a vote is the same as having cast the second one in the first place. */
  lemma VoteTwice(cfg: Config, s: State, who: AccountId, r: nat, v: AccountVote, w: AccountVote, free: nat)
    requires Inv(cfg, s) && TryVote(cfg, s, who, r, v, free).Ok? && Fits(cfg, TryVote(cfg, s, who, r, v, free).value)
    requires TryVote(cfg, s, who, r, w, free).Ok?
    ensures var u, x := TryVote(cfg, TryVote(cfg, s, who, r, v, free).value, who, r, w, free), TryVote(cfg, s, who, r, w, free).value;
            u.Ok? && u.value.referenda == x.referenda && u.value.ballots == x.ballots
  {
    hide TryVote, Inv, Fits, Recount, Uncount, Worth, Find, Put, WithoutPrevious;
    var t, b := TryVote(cfg, s, who, r, v, free).value, BallotOf(s, who);
    AcceptedIsCovered(cfg, s, who, r, w, free);
    var base, u := CountedInFull(cfg, s, who, r, v, free);
    var direct := VoteShape(cfg, s, who, r, w, free);
    InvIsWellFormed(cfg, s);
    IndicesBelow(s, who);
    PutTwice(b.votes, r, v, w);
    SameBase(cfg, s, t, who, r, v, base, u);
    VoteOutcome(cfg, t, who, r, w, free, base, direct);
  }

  lemma InvIsWellFormed(cfg: Config, s: State)
    requires Inv(cfg, s)
    ensures WellFormed(s) && TalliesExact(cfg, s)
  {}

  // ----- delegations -----

  /** Two states with exact tallies agree on the tally of a referendum when every account's vote in
      it is worth the same. */
  lemma SameWorthSameTally(cfg: Config, s: State, t: State, who: AccountId, r: nat)
    requires who in t.ballots && t.ballots == s.ballots[who := t.ballots[who]]
    requires WorthIn(cfg, t.ballots[who], r) == WorthIn(cfg, BallotOf(s, who), r)
    ensures ExactTally(cfg, t.ballots, r) == ExactTally(cfg, s.ballots, r)
  {
    hide Total, WorthIn;
    TallyUpdate(cfg, s, who, t.ballots[who], r);
  }

  /** What the target holds rises by exactly what is lent and falls by it again. */
  lemma HeldThroughout(cfg: Config, s: State, who: AccountId, target: AccountId, c: Conviction, balance: nat, free: nat)
    requires Inv(cfg, s) && BallotOf(s, who).Direct? && TryDelegate(cfg, s, who, target, c, balance, free).Ok?
    requires Fits(cfg, TryDelegate(cfg, s, who, target, c, balance, free).value)
    ensures var d, x := cfg.votesOf(c, balance), BallotOf(s, target).delegations;
            SubDelegations(AddDelegations(x, d), d) == x
  {
    hide Total;
    var b := BallotOf(s, who);
    LendingFits(cfg, s, s, who, Delegating(balance, target, c, b.delegations, b.prior),
                TryDelegate(cfg, s, who, target, c, balance, free).value);
  }

  /** Raising an account's delegations and reducing them by the same again leaves all ballots, and
      all of every referendum but its tally. */
  lemma ThereAndBack(s: State, target: AccountId, d: Delegations, t: State)
    requires var x := BallotOf(s, target).delegations; SubDelegations(AddDelegations(x, d), d) == x
    requires var up := Upstream(s, target, d, true);
             t.referenda == up.referenda && BallotOf(t, target) == BallotOf(up, target)
    ensures var u := Upstream(t, target, d, false);
            && u.ballots == t.ballots[target := BallotOf(s, target)]
            && u.referenda.Keys == s.referenda.Keys
            && forall r :: r in s.referenda ==> SameButTally(s.referenda[r], u.referenda[r])
  {
    hide Find, Increase, Reduce, AddDelegations, SubDelegations;
  }

  predicate SameButTally(x: Referendum, y: Referendum) {
    if x.Ongoing? then y.Ongoing? && y.status == x.status.(tally := y.status.tally) else x == y
  }

  /** Exact tallies of the same ballots, up to silent ones, are the same. */
  lemma ExactlyAsBefore(cfg: Config, s: State, u: State, who: AccountId, target: AccountId, r: nat)
    requires TalliesExact(cfg, s) && TalliesExact(cfg, u) && r in s.referenda && r in u.referenda
    requires SameButTally(s.referenda[r], u.referenda[r])
    requires who in u.ballots && Silent(BallotOf(s, who)) && Silent(u.ballots[who])
    requires u.ballots == s.ballots[target := BallotOf(s, target)][who := u.ballots[who]] && who != target
    ensures u.referenda[r] == s.referenda[r]
  {
    hide Total, Find;
    var mid := s.(ballots := s.ballots[target := BallotOf(s, target)]);
    SameWorthSameTally(cfg, s, mid, target, r);
    SilentIsWorthless(cfg, u.ballots[who], r);
    SilentIsWorthless(cfg, BallotOf(s, who), r);
    SameWorthSameTally(cfg, mid, u, who, r);
  }

  /** Delegating and then undelegating leaves every referendum, and every other account's ballot, as
      it was; the account itself only keeps the lock of the delegation. */
  lemma DelegateThenUndelegate(cfg: Config, s: State, who: AccountId, target: AccountId, c: Conviction, balance: nat,
                               free: nat)
    requires Inv(cfg, s) && BallotOf(s, who).Direct? && TryDelegate(cfg, s, who, target, c, balance, free).Ok?
    requires Fits(cfg, TryDelegate(cfg, s, who, target, c, balance, free).value)
    ensures var t := TryDelegate(cfg, s, who, target, c, balance, free).value;
            var u, b := TryUndelegate(cfg, t, who), BallotOf(s, who);
            && u.Ok?
            && (forall a :: a != who ==> BallotOf(u.value, a) == BallotOf(s, a))
            && BallotOf(u.value, who)
               == Direct(b.votes, b.delegations, Accumulate(b.prior, s.now + cfg.enactmentPeriod * cfg.lockPeriods(c), balance))
            && u.value.referenda == s.referenda
  {
    hide TryDelegate, TryUndelegate, Upstream, Inv, Fits, AddDelegations, SubDelegations, SameButTally;
    var t, d := TryDelegate(cfg, s, who, target, c, balance, free).value, cfg.votesOf(c, balance);
    DelegateKeepsInv(cfg, s, who, target, c, balance, free);
    HeldThroughout(cfg, s, who, target, c, balance, free);
    DelegateShape(cfg, s, who, target, c, balance, free);
    ThereAndBack(s, target, d, t);
    UndelegateShape(cfg, t, who);
    UndelegateKeepsInv(cfg, t, who);
    var u := TryUndelegate(cfg, t, who).value;
    InvIsWellFormed(cfg, s);
    InvIsWellFormed(cfg, u);
    assert u.ballots == s.ballots[target := BallotOf(s, target)][who := u.ballots[who]];
    forall r | r in s.referenda ensures u.referenda[r] == s.referenda[r] { ExactlyAsBefore(cfg, s, u, who, target, r); }
  }

  lemma DelegateShape(cfg: Config, s: State, who: AccountId, target: AccountId, c: Conviction, balance: nat, free: nat)
    requires BallotOf(s, who).Direct? && TryDelegate(cfg, s, who, target, c, balance, free).Ok?
    ensures var t, b := TryDelegate(cfg, s, who, target, c, balance, free).value, BallotOf(s, who);
            var up := Upstream(s, target, cfg.votesOf(c, balance), true);
            && who != target && b.votes == [] && t.now == s.now
            && t.ballots == up.ballots[who := Delegating(balance, target, c, b.delegations, b.prior)]
            && t.referenda == up.referenda && BallotOf(t, target) == BallotOf(up, target)
            && up.ballots == s.ballots[target := up.ballots[target]]
  {}

  lemma UndelegateShape(cfg: Config, t: State, who: AccountId)
    requires BallotOf(t, who).Delegating?
    ensures var b := BallotOf(t, who);
            var down := Upstream(t, b.target, cfg.votesOf(b.conviction, b.balance), false);
            TryUndelegate(cfg, t, who)
            == Ok(down.(ballots := down.ballots[who :=
                 Direct([], b.delegations, Accumulate(b.prior, t.now + cfg.enactmentPeriod * cfg.lockPeriods(b.conviction), b.balance))]))
  {}
}
