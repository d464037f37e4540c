/** Tallies are kept incrementally; here they are shown to equal, in every reachable state, the
    sum over all voters of their own power and, for standard votes, of the delegations they hold. */
module Tallies {
  import opened Numbers
  import opened Wrappers
  import opened MapSums
  import opened Voting
  import opened VoteVectors

  /** Everything that is a sum over all ballots. */
  datatype Slot = AyesOf(r: nat) | NaysOf(r: nat) | TurnoutOf(r: nat) | VotesTo(a: AccountId) | CapitalTo(a: AccountId)

  function PlusTally(t: Tally, u: Tally): Tally { Tally(t.ayes + u.ayes, t.nays + u.nays, t.turnout + u.turnout) }

  /** What one recorded vote stands for, delegations included. */
  function Worth(cfg: Config, v: AccountVote, d: Delegations): Tally {
    if v.Standard? then PlusTally(Power(cfg, v), Directed(v.aye, d)) else Power(cfg, v)
  }

  function WorthIn(cfg: Config, b: Ballot, r: nat): Tally {
    if b.Direct? && Find(b.votes, r).Some? then Worth(cfg, Find(b.votes, r).value, b.delegations) else Tally(0, 0, 0)
  }

  function LentTo(cfg: Config, b: Ballot, a: AccountId): Delegations {
    if b.Delegating? && b.target == a then cfg.votesOf(b.conviction, b.balance) else NOTHING
  }

  function Share(cfg: Config, b: Ballot, slot: Slot): nat {
    match slot
    case AyesOf(r) => WorthIn(cfg, b, r).ayes
    case NaysOf(r) => WorthIn(cfg, b, r).nays
    case TurnoutOf(r) => WorthIn(cfg, b, r).turnout
    case VotesTo(a) => LentTo(cfg, b, a).votes
    case CapitalTo(a) => LentTo(cfg, b, a).capital
  }

  function Shares(cfg: Config, ballots: map<AccountId, Ballot>, slot: Slot): map<AccountId, nat> {
    map a | a in ballots :: Share(cfg, ballots[a], slot)
  }

  ghost function Total(cfg: Config, ballots: map<AccountId, Ballot>, slot: Slot): nat {
    Sum(Shares(cfg, ballots, slot))
  }

  /** The tally of `r` as a sum over all voters. */
  ghost function ExactTally(cfg: Config, ballots: map<AccountId, Ballot>, r: nat): Tally {
    Tally(Total(cfg, ballots, AyesOf(r)), Total(cfg, ballots, NaysOf(r)), Total(cfg, ballots, TurnoutOf(r)))
  }

  /** The delegations of `a` as a sum over all accounts delegating to it. */
  ghost function ExactDelegations(cfg: Config, ballots: map<AccountId, Ballot>, a: AccountId): Delegations {
    Delegations(Total(cfg, ballots, VotesTo(a)), Total(cfg, ballots, CapitalTo(a)))
  }

  ghost predicate TalliesExact(cfg: Config, s: State) {
    forall r :: r in s.referenda && s.referenda[r].Ongoing? ==>
      s.referenda[r].status.tally == ExactTally(cfg, s.ballots, r)
  }

  ghost predicate DelegationsExact(cfg: Config, s: State) {
    forall a :: BallotOf(s, a).delegations == ExactDelegations(cfg, s.ballots, a)
  }

  /** Votes are sorted and concern referenda that exist or existed; nobody delegates to itself. */
  ghost predicate BallotOk(s: State, a: AccountId) {
    match BallotOf(s, a)
    case Direct(votes, _, _) => Sorted(votes) && forall i :: 0 <= i < |votes| ==> votes[i].index < s.count
    case Delegating(_, target, _, _, _) => target != a
  }

  ghost predicate WellFormed(s: State) {
    && (forall a :: BallotOk(s, a))
    && (forall r :: r in s.referenda ==> r < s.count)
  }

  ghost predicate Inv(cfg: Config, s: State) {
    WellFormed(s) && TalliesExact(cfg, s) && DelegationsExact(cfg, s)
  }

  /** All exact sums are 128-bit numbers, so that counting never saturates. */
  ghost predicate Fits(cfg: Config, s: State) {
    forall slot :: Total(cfg, s.ballots, slot) <= U128_MAX
  }

  // ----- sums -----

  lemma DefaultShare(cfg: Config, slot: Slot)
    ensures Share(cfg, DEFAULT_BALLOT, slot) == 0
  {}

  lemma TotalUpdate(cfg: Config, s: State, a: AccountId, b: Ballot, slot: Slot)
    ensures Total(cfg, s.ballots[a := b], slot) + Share(cfg, BallotOf(s, a), slot)
            == Total(cfg, s.ballots, slot) + Share(cfg, b, slot)
  {
    hide Sum, WorthIn, LentTo;
    DefaultShare(cfg, slot);
    SumUpdate(Shares(cfg, s.ballots, slot), a, Share(cfg, b, slot));
    assert Shares(cfg, s.ballots[a := b], slot) == Shares(cfg, s.ballots, slot)[a := Share(cfg, b, slot)];
  }

  lemma TallyUpdate(cfg: Config, s: State, a: AccountId, b: Ballot, r: nat)
    ensures PlusTally(ExactTally(cfg, s.ballots[a := b], r), WorthIn(cfg, BallotOf(s, a), r))
            == PlusTally(ExactTally(cfg, s.ballots, r), WorthIn(cfg, b, r))
  {
    hide Total, WorthIn;
    TotalUpdate(cfg, s, a, b, AyesOf(r));
    TotalUpdate(cfg, s, a, b, NaysOf(r));
    TotalUpdate(cfg, s, a, b, TurnoutOf(r));
  }

  lemma DelegationsUpdate(cfg: Config, s: State, a: AccountId, b: Ballot, x: AccountId)
    ensures var sum, was := ExactDelegations(cfg, s.ballots[a := b], x), ExactDelegations(cfg, s.ballots, x);
            && sum.votes + LentTo(cfg, BallotOf(s, a), x).votes == was.votes + LentTo(cfg, b, x).votes
            && sum.capital + LentTo(cfg, BallotOf(s, a), x).capital == was.capital + LentTo(cfg, b, x).capital
  {
    hide Total, LentTo;
    TotalUpdate(cfg, s, a, b, VotesTo(x));
    TotalUpdate(cfg, s, a, b, CapitalTo(x));
  }

  lemma WorthIsCounted(cfg: Config, s: State, a: AccountId, r: nat)
    ensures var t, w := ExactTally(cfg, s.ballots, r), WorthIn(cfg, BallotOf(s, a), r);
            t.ayes >= w.ayes && t.nays >= w.nays && t.turnout >= w.turnout
  {
    hide Total;
    TallyUpdate(cfg, s, a, DEFAULT_BALLOT, r);
  }

  predicate AtMost(t: Tally, u: Tally) { t.ayes <= u.ayes && t.nays <= u.nays && t.turnout <= u.turnout }

  const LARGEST_TALLY := Tally(U128_MAX, U128_MAX, U128_MAX)

  lemma FittingTally(cfg: Config, t: State, r: nat)
    requires Fits(cfg, t)
    ensures AtMost(ExactTally(cfg, t.ballots, r), LARGEST_TALLY)
  {
    hide Total;
    assert Total(cfg, t.ballots, AyesOf(r)) <= U128_MAX && Total(cfg, t.ballots, NaysOf(r)) <= U128_MAX
           && Total(cfg, t.ballots, TurnoutOf(r)) <= U128_MAX;
  }

  /** If each tally changed by what the replaced ballot's worth changed, all tallies stay exact. */
  lemma BallotReplaced(cfg: Config, s: State, who: AccountId, b: Ballot, t: State)
    requires TalliesExact(cfg, s) && t.ballots == s.ballots[who := b]
    requires forall q :: q in t.referenda && t.referenda[q].Ongoing? ==>
               && q in s.referenda && s.referenda[q].Ongoing?
               && PlusTally(t.referenda[q].status.tally, WorthIn(cfg, BallotOf(s, who), q))
                  == PlusTally(s.referenda[q].status.tally, WorthIn(cfg, b, q))
    ensures TalliesExact(cfg, t)
  {
    hide ExactTally, WorthIn;
    forall q | q in t.referenda && t.referenda[q].Ongoing?
      ensures t.referenda[q].status.tally == ExactTally(cfg, t.ballots, q)
    {
      TallyUpdate(cfg, s, who, b, q);
    }
  }

  /** If nobody's lending changed either, the delegations stay exact. */
  lemma LendingUnchanged(cfg: Config, s: State, who: AccountId, b: Ballot, t: State)
    requires DelegationsExact(cfg, s) && t.ballots == s.ballots[who := b]
    requires b.delegations == BallotOf(s, who).delegations
    requires forall a :: LentTo(cfg, b, a) == LentTo(cfg, BallotOf(s, who), a)
    ensures DelegationsExact(cfg, t)
  {
    hide Total, LentTo;
    forall a ensures BallotOf(t, a).delegations == ExactDelegations(cfg, t.ballots, a) {
      DelegationsUpdate(cfg, s, who, b, a);
      assert BallotOf(s, a).delegations == ExactDelegations(cfg, s.ballots, a);
    }
  }

  // ----- counting one vote -----

  function WorthOf(cfg: Config, v: Option<AccountVote>, d: Delegations): Tally {
    if v.Some? then Worth(cfg, v.value, d) else Tally(0, 0, 0)
  }

  /** Counting the previous vote out never underflows. */
  lemma UncountExact(cfg: Config, t: Tally, v: AccountVote, d: Delegations)
    requires AtMost(Worth(cfg, v, d), t)
    ensures Uncount(cfg, t, v, d).Some? && PlusTally(Uncount(cfg, t, v, d).value, Worth(cfg, v, d)) == t
  {}

  /** Counting a vote in adds exactly its worth when the sum fits. */
  lemma RecountExact(cfg: Config, t: Tally, v: AccountVote, d: Delegations)
    requires AtMost(PlusTally(t, Worth(cfg, v, d)), LARGEST_TALLY)
    ensures Recount(cfg, t, v, d) == Some(PlusTally(t, Worth(cfg, v, d)))
  {}

  // ----- voting and unvoting -----

  /** The tally with the previous vote, if any, taken out. */
  function WithoutPrevious(cfg: Config, s: State, who: AccountId, r: nat): Option<Tally>
    requires OngoingStatus(s, r).Some? && BallotOf(s, who).Direct?
  {
    var b, t := BallotOf(s, who), OngoingStatus(s, r).value.tally;
    var previous := Find(b.votes, r);
    if previous.Some? then Uncount(cfg, t, previous.value, b.delegations) else Some(t)
  }

  lemma VoteShape(cfg: Config, s: State, who: AccountId, r: nat, v: AccountVote, free: nat) returns (u: Tally)
    requires TryVote(cfg, s, who, r, v, free).Ok?
    ensures OngoingStatus(s, r).Some? && BallotOf(s, who).Direct? && WithoutPrevious(cfg, s, who, r).Some?
    ensures Recount(cfg, WithoutPrevious(cfg, s, who, r).value, v, BallotOf(s, who).delegations) == Some(u)
    ensures var b, t := BallotOf(s, who), TryVote(cfg, s, who, r, v, free).value;
            && t.ballots == s.ballots[who := Direct(Put(b.votes, r, v), b.delegations, b.prior)]
            && t.referenda == s.referenda[r := WithTally(OngoingStatus(s, r).value, u)]
            && t.count == s.count
  {
    u := Recount(cfg, WithoutPrevious(cfg, s, who, r).value, v, BallotOf(s, who).delegations).value;
  }

  lemma FindSame(cfg: Config, b: Ballot, c: Ballot, q: nat)
    requires b.Direct? && c.Direct? && b.delegations == c.delegations && Find(b.votes, q) == Find(c.votes, q)
    ensures WorthIn(cfg, b, q) == WorthIn(cfg, c, q)
  {}

  /** The new tally is the old one less the previous vote's worth plus the new vote's. */
  lemma VoteTally(cfg: Config, s: State, who: AccountId, r: nat, v: AccountVote, b: Ballot, u: Tally)
    requires TalliesExact(cfg, s) && OngoingStatus(s, r).Some? && BallotOf(s, who).Direct?
    requires WithoutPrevious(cfg, s, who, r).Some?
    requires Recount(cfg, WithoutPrevious(cfg, s, who, r).value, v, BallotOf(s, who).delegations) == Some(u)
    requires b.Direct? && b.delegations == BallotOf(s, who).delegations && Find(b.votes, r) == Some(v)
    requires AtMost(ExactTally(cfg, s.ballots[who := b], r), LARGEST_TALLY)
    ensures PlusTally(u, WorthIn(cfg, BallotOf(s, who), r))
            == PlusTally(OngoingStatus(s, r).value.tally, WorthIn(cfg, b, r))
  {
    hide Total;
    var d, t, previous := b.delegations, OngoingStatus(s, r).value.tally, Find(BallotOf(s, who).votes, r);
    TallyUpdate(cfg, s, who, b, r);
    WorthIsCounted(cfg, s, who, r);
    assert t == ExactTally(cfg, s.ballots, r);
    assert WorthIn(cfg, BallotOf(s, who), r) == WorthOf(cfg, previous, d);
    if previous.Some? { UncountExact(cfg, t, previous.value, d); }
    var without := WithoutPrevious(cfg, s, who, r).value;
    assert PlusTally(without, WorthOf(cfg, previous, d)) == t;
    assert PlusTally(without, Worth(cfg, v, d)) == ExactTally(cfg, s.ballots[who := b], r);
    RecountExact(cfg, without, v, d);
  }

  /** Well-formedness of the ballot vectors after one of them changed. */
  lemma VectorReplaced(s: State, who: AccountId, b: Ballot, t: State)
    requires WellFormed(s) && t.ballots == s.ballots[who := b] && t.count == s.count
    requires forall q :: q in t.referenda ==> q in s.referenda
    requires b.Direct? && Sorted(b.votes) && forall e :: e in b.votes ==> e.index < s.count
    ensures WellFormed(t)
  {
    forall a ensures BallotOk(t, a) {
      assert BallotOk(s, a);
      if a == who {
        forall i | 0 <= i < |b.votes| ensures b.votes[i].index < s.count { assert b.votes[i] in b.votes; }
      }
    }
  }

  lemma IndicesBelow(s: State, who: AccountId)
    requires WellFormed(s) && BallotOf(s, who).Direct?
    ensures Sorted(BallotOf(s, who).votes) && forall e :: e in BallotOf(s, who).votes ==> e.index < s.count
  {
    assert BallotOk(s, who);
  }

  /** An accepted vote keeps every tally exact, whether it is new or replaces an earlier one. */
  lemma VoteKeepsInv(cfg: Config, s: State, who: AccountId, r: nat, v: AccountVote, free: nat)
    requires Inv(cfg, s) && TryVote(cfg, s, who, r, v, free).Ok?
    requires Fits(cfg, TryVote(cfg, s, who, r, v, free).value)
    ensures Inv(cfg, TryVote(cfg, s, who, r, v, free).value)
  {
    var u := VoteShape(cfg, s, who, r, v, free);
    VoteKeepsInvFrom(cfg, s, who, r, v, u, TryVote(cfg, s, who, r, v, free).value);
  }

  lemma VoteKeepsInvFrom(cfg: Config, s: State, who: AccountId, r: nat, v: AccountVote, u: Tally, t: State)
    requires Inv(cfg, s) && Fits(cfg, t)
    requires OngoingStatus(s, r).Some? && BallotOf(s, who).Direct? && WithoutPrevious(cfg, s, who, r).Some?
    requires Recount(cfg, WithoutPrevious(cfg, s, who, r).value, v, BallotOf(s, who).delegations) == Some(u)
    requires var b := BallotOf(s, who);
             && t.ballots == s.ballots[who := Direct(Put(b.votes, r, v), b.delegations, b.prior)]
             && t.referenda == s.referenda[r := WithTally(OngoingStatus(s, r).value, u)]
             && t.count == s.count
    ensures Inv(cfg, t)
  {
    hide ExactTally, WorthIn, Find;
    var was, b := BallotOf(s, who), t.ballots[who];
    IndicesBelow(s, who);
    PutSorted(was.votes, r, v);
    FindPut(was.votes, r, v, r);
    FittingTally(cfg, t, r);
    VoteTally(cfg, s, who, r, v, b, u);
    forall q | q in t.referenda && t.referenda[q].Ongoing? && q != r
      ensures WorthIn(cfg, was, q) == WorthIn(cfg, b, q)
    {
      FindPut(was.votes, r, v, q);
      FindSame(cfg, was, b, q);
    }
    BallotReplaced(cfg, s, who, b, t);
    LendingUnchanged(cfg, s, who, b, t);
    VectorReplaced(s, who, b, t);
  }

  /** Counting a vote out never underflows. */
  lemma NoUnderflow(cfg: Config, s: State, who: AccountId, r: nat)
    requires TalliesExact(cfg, s) && OngoingStatus(s, r).Some? && BallotOf(s, who).Direct?
    requires Find(BallotOf(s, who).votes, r).Some?
    ensures var b, t := BallotOf(s, who), OngoingStatus(s, r).value.tally;
            var u := Uncount(cfg, t, Find(b.votes, r).value, b.delegations);
            u.Some? && PlusTally(u.value, WorthIn(cfg, b, r)) == t
  {
    hide ExactTally;
    var b := BallotOf(s, who);
    WorthIsCounted(cfg, s, who, r);
    assert OngoingStatus(s, r).value.tally == ExactTally(cfg, s.ballots, r);
    UncountExact(cfg, OngoingStatus(s, r).value.tally, Find(b.votes, r).value, b.delegations);
  }

  lemma VotingNeverUnderflows(cfg: Config, s: State, who: AccountId, r: nat, v: AccountVote, free: nat, scope: Scope)
    requires Inv(cfg, s)
    ensures TryVote(cfg, s, who, r, v, free) != Err(Underflow)
    ensures TryRemoveVote(cfg, s, who, r, scope) != Err(Underflow)
  {
    var b := BallotOf(s, who);
    if OngoingStatus(s, r).Some? && b.Direct? && Find(b.votes, r).Some? { NoUnderflow(cfg, s, who, r); }
  }

  lemma RemoveShape(cfg: Config, s: State, who: AccountId, r: nat, scope: Scope) returns (prior: PriorLock)
    requires TryRemoveVote(cfg, s, who, r, scope).Ok? && BallotOf(s, who).Direct?
    ensures Find(BallotOf(s, who).votes, r).Some?
    ensures var b, t := BallotOf(s, who), TryRemoveVote(cfg, s, who, r, scope).value;
            && t.ballots == s.ballots[who := Direct(Drop(b.votes, r), b.delegations, prior)]
            && t.count == s.count
            && if OngoingStatus(s, r).Some? then
                 var u := Uncount(cfg, OngoingStatus(s, r).value.tally, Find(b.votes, r).value, b.delegations);
                 u.Some? && t.referenda == s.referenda[r := WithTally(OngoingStatus(s, r).value, u.value)]
               else t.referenda == s.referenda
  {
    prior := TryRemoveVote(cfg, s, who, r, scope).value.ballots[who].prior;
  }

  /** Removing a vote keeps every tally exact. */
  lemma RemoveVoteKeepsInv(cfg: Config, s: State, who: AccountId, r: nat, scope: Scope)
    requires Inv(cfg, s) && TryRemoveVote(cfg, s, who, r, scope).Ok?
    ensures Inv(cfg, TryRemoveVote(cfg, s, who, r, scope).value)
  {
    if BallotOf(s, who).Direct? {
      var prior := RemoveShape(cfg, s, who, r, scope);
      RemoveKeepsInvFrom(cfg, s, who, r, prior, TryRemoveVote(cfg, s, who, r, scope).value);
    }
  }

  lemma RemoveKeepsInvFrom(cfg: Config, s: State, who: AccountId, r: nat, prior: PriorLock, t: State)
    requires Inv(cfg, s) && BallotOf(s, who).Direct? && Find(BallotOf(s, who).votes, r).Some?
    requires var b := BallotOf(s, who);
             && t.ballots == s.ballots[who := Direct(Drop(b.votes, r), b.delegations, prior)]
             && t.count == s.count
             && if OngoingStatus(s, r).Some? then
                  var u := Uncount(cfg, OngoingStatus(s, r).value.tally, Find(b.votes, r).value, b.delegations);
                  u.Some? && t.referenda == s.referenda[r := WithTally(OngoingStatus(s, r).value, u.value)]
                else t.referenda == s.referenda
    ensures Inv(cfg, t)
  {
    hide Total;
    var was, b := BallotOf(s, who), t.ballots[who];
    IndicesBelow(s, who);
    DropSorted(was.votes, r);
    if OngoingStatus(s, r).Some? {
      NoUnderflow(cfg, s, who, r);
      FindDrop(was.votes, r, r);
      assert WorthIn(cfg, b, r) == Tally(0, 0, 0);
    }
    forall q | q in t.referenda && t.referenda[q].Ongoing? && q != r
      ensures WorthIn(cfg, was, q) == WorthIn(cfg, b, q)
    {
      FindDrop(was.votes, r, q);
      FindSame(cfg, was, b, q);
    }
    BallotReplaced(cfg, s, who, b, t);
    LendingUnchanged(cfg, s, who, b, t);
    VectorReplaced(s, who, b, t);
  }

  // ----- delegating -----

  /** The delegations of an account after a change, when nothing saturates. */
  ghost predicate Changed(x: Delegations, d: Delegations, up: bool, y: Delegations) {
    if up then y == Delegations(x.votes + d.votes, x.capital + d.capital)
    else x == Delegations(y.votes + d.votes, y.capital + d.capital)
  }

  /** `d` can be added to (or taken from) the delegations of `target` without saturating. */
  ghost predicate Movable(cfg: Config, s: State, target: AccountId, d: Delegations, up: bool) {
    var t := Upstream(s, target, d, up);
    && Changed(BallotOf(s, target).delegations, d, up, BallotOf(t, target).delegations)
    && forall r :: up ==> AtMost(ExactTally(cfg, t.ballots, r), LARGEST_TALLY)
  }

  /** One tally follows a change of delegations exactly. */
  lemma FollowsExactly(t: Tally, aye: bool, own: Tally, x: Delegations, d: Delegations, up: bool, y: Delegations,
                       e: Tally)
    requires Changed(x, d, up, y)
    requires PlusTally(e, PlusTally(own, Directed(aye, x))) == PlusTally(t, PlusTally(own, Directed(aye, y)))
    requires AtMost(PlusTally(own, Directed(aye, x)), t) && (up ==> AtMost(e, LARGEST_TALLY))
    ensures (if up then Increase(t, aye, d) else Reduce(t, aye, d)) == e
  {}

  lemma UpstreamOneTally(cfg: Config, s: State, target: AccountId, d: Delegations, up: bool, r: nat)
    requires TalliesExact(cfg, s) && Movable(cfg, s, target, d, up) && BallotOf(s, target).Direct?
    requires r in s.referenda && s.referenda[r].Ongoing?
    ensures var b, t := BallotOf(s, target), Upstream(s, target, d, up);
            Followed(s.referenda[r], Find(b.votes, r), d, up) == WithTally(s.referenda[r].status, ExactTally(cfg, t.ballots, r))
  {
    hide Total;
    var b, c := BallotOf(s, target), BallotOf(Upstream(s, target, d, up), target);
    var t, e, v := s.referenda[r].status.tally, ExactTally(cfg, s.ballots[target := c], r), Find(b.votes, r);
    assert s.ballots[target := c] == Upstream(s, target, d, up).ballots;
    TallyUpdate(cfg, s, target, c, r);
    WorthIsCounted(cfg, s, target, r);
    assert t == ExactTally(cfg, s.ballots, r);
    if v.Some? && v.value.Standard? {
      assert WorthIn(cfg, b, r) == PlusTally(Power(cfg, v.value), Directed(v.value.aye, b.delegations));
      assert WorthIn(cfg, c, r) == PlusTally(Power(cfg, v.value), Directed(v.value.aye, c.delegations));
      FollowsExactly(t, v.value.aye, Power(cfg, v.value), b.delegations, d, up, c.delegations, e);
    } else {
      assert WorthIn(cfg, b, r) == WorthIn(cfg, c, r);
    }
  }

  /** A change of one account's delegations reaches every ongoing tally it has a standard vote in. */
  lemma UpstreamKeepsTallies(cfg: Config, s: State, target: AccountId, d: Delegations, up: bool)
    requires WellFormed(s) && TalliesExact(cfg, s) && Movable(cfg, s, target, d, up)
    ensures var t := Upstream(s, target, d, up);
            && WellFormed(t) && TalliesExact(cfg, t)
            && forall a :: ExactDelegations(cfg, t.ballots, a) == ExactDelegations(cfg, s.ballots, a)
  {
    hide Total, WorthIn, Find;
    var b, t := BallotOf(s, target), Upstream(s, target, d, up);
    forall r | r in t.referenda && t.referenda[r].Ongoing?
      ensures t.referenda[r].status.tally == ExactTally(cfg, t.ballots, r)
    {
      if b.Direct? {
        UpstreamOneTally(cfg, s, target, d, up, r);
      } else {
        TallyUpdate(cfg, s, target, t.ballots[target], r);
        SilentIsWorthless(cfg, b, r);
        SilentIsWorthless(cfg, t.ballots[target], r);
      }
    }
    forall a ensures ExactDelegations(cfg, t.ballots, a) == ExactDelegations(cfg, s.ballots, a) {
      DelegationsUpdate(cfg, s, target, t.ballots[target], a);
    }
    forall a ensures BallotOk(t, a) { assert BallotOk(s, a); }
  }

  /** A ballot that casts no votes counts in no tally. */
  predicate Silent(b: Ballot) { b.Delegating? || b.votes == [] }

  lemma SilentIsWorthless(cfg: Config, b: Ballot, r: nat)
    requires Silent(b)
    ensures WorthIn(cfg, b, r) == Tally(0, 0, 0)
  {}

  lemma ReplaceSilent(cfg: Config, s: State, who: AccountId, b: Ballot, t: State)
    requires WellFormed(s) && TalliesExact(cfg, s) && Silent(BallotOf(s, who)) && Silent(b)
    requires t.ballots == s.ballots[who := b] && t.referenda == s.referenda && t.count == s.count
    requires b.Delegating? ==> b.target != who
    ensures WellFormed(t) && TalliesExact(cfg, t)
    ensures forall r :: ExactTally(cfg, t.ballots, r) == ExactTally(cfg, s.ballots, r)
  {
    hide Total, WorthIn;
    forall r ensures ExactTally(cfg, t.ballots, r) == ExactTally(cfg, s.ballots, r) {
      TallyUpdate(cfg, s, who, b, r);
      SilentIsWorthless(cfg, b, r);
      SilentIsWorthless(cfg, BallotOf(s, who), r);
    }
    forall a ensures BallotOk(t, a) { assert BallotOk(s, a); }
  }

  /** The account `target` holds at least what `who` lends it. */
  lemma LentIsHeld(cfg: Config, s: State, who: AccountId)
    requires DelegationsExact(cfg, s) && BallotOf(s, who).Delegating?
    ensures var b := BallotOf(s, who);
            var x, d := BallotOf(s, b.target).delegations, cfg.votesOf(b.conviction, b.balance);
            x.votes >= d.votes && x.capital >= d.capital
  {
    hide Total;
    DelegationsUpdate(cfg, s, who, DEFAULT_BALLOT, BallotOf(s, who).target);
  }

  lemma LendingIsReleasable(cfg: Config, s: State, who: AccountId)
    requires DelegationsExact(cfg, s) && BallotOf(s, who).Delegating?
    ensures var b := BallotOf(s, who); Movable(cfg, s, b.target, cfg.votesOf(b.conviction, b.balance), false)
  {
    LentIsHeld(cfg, s, who);
  }

  /** The state of an undelegation or re-delegation after the old delegation was taken back. */
  function Released(cfg: Config, s: State, who: AccountId): State {
    var b := BallotOf(s, who);
    if b.Delegating? then Upstream(s, b.target, cfg.votesOf(b.conviction, b.balance), false) else s
  }

  /** After the release, every account's recorded delegations are what the others lend it. */
  ghost predicate LentByOthers(cfg: Config, s: State, mid: State, who: AccountId, a: AccountId) {
    var x, e, l := BallotOf(mid, a).delegations, ExactDelegations(cfg, s.ballots, a), LentTo(cfg, BallotOf(s, who), a);
    x.votes + l.votes == e.votes && x.capital + l.capital == e.capital
  }

  lemma ReleasedKeepsTallies(cfg: Config, s: State, who: AccountId)
    requires Inv(cfg, s)
    ensures var mid := Released(cfg, s, who);
            && WellFormed(mid) && TalliesExact(cfg, mid) && mid.count == s.count && BallotOf(mid, who) == BallotOf(s, who)
            && (forall a :: ExactDelegations(cfg, mid.ballots, a) == ExactDelegations(cfg, s.ballots, a))
            && (forall a :: LentByOthers(cfg, s, mid, who, a))
  {
    hide Total, WorthIn, Find;
    var b, mid := BallotOf(s, who), Released(cfg, s, who);
    assert BallotOk(s, who);
    if b.Delegating? {
      LendingIsReleasable(cfg, s, who);
      UpstreamKeepsTallies(cfg, s, b.target, cfg.votesOf(b.conviction, b.balance), false);
    }
    forall a ensures LentByOthers(cfg, s, mid, who, a) {
      assert BallotOf(s, a).delegations == ExactDelegations(cfg, s.ballots, a);
    }
  }

  /** Ending a delegation takes back exactly what was lent; no subtraction saturates. */
  lemma UndelegateKeepsInv(cfg: Config, s: State, who: AccountId)
    requires Inv(cfg, s) && TryUndelegate(cfg, s, who).Ok?
    ensures Inv(cfg, TryUndelegate(cfg, s, who).value)
  {
    hide Total, WorthIn, Find;
    var t, mid := TryUndelegate(cfg, s, who).value, Released(cfg, s, who);
    ReleasedKeepsTallies(cfg, s, who);
    ReplaceSilent(cfg, mid, who, t.ballots[who], t);
    forall a ensures BallotOf(t, a).delegations == ExactDelegations(cfg, t.ballots, a) {
      DelegationsUpdate(cfg, mid, who, t.ballots[who], a);
      assert LentByOthers(cfg, s, mid, who, a);
    }
  }

  /** What is lent to `target` can be added without saturating when the outcome fits. */
  lemma LendingFits(cfg: Config, s: State, mid: State, who: AccountId, lent: Ballot, t: State)
    requires Inv(cfg, s) && mid == Released(cfg, s, who) && Silent(BallotOf(s, who))
    requires lent.Delegating? && lent.target != who && Fits(cfg, t)
    requires var d := cfg.votesOf(lent.conviction, lent.balance);
             t.ballots == Upstream(mid, lent.target, d, true).ballots[who := lent]
    ensures Movable(cfg, mid, lent.target, cfg.votesOf(lent.conviction, lent.balance), true)
  {
    hide Total, WorthIn, Find;
    var d, a := cfg.votesOf(lent.conviction, lent.balance), lent.target;
    var raised := Upstream(mid, a, d, true);
    ReleasedKeepsTallies(cfg, s, who);
    DelegationsUpdate(cfg, raised, who, lent, a);
    DelegationsUpdate(cfg, mid, a, raised.ballots[a], a);
    assert LentByOthers(cfg, s, mid, who, a);
    assert Total(cfg, t.ballots, VotesTo(a)) <= U128_MAX && Total(cfg, t.ballots, CapitalTo(a)) <= U128_MAX;
    forall r ensures AtMost(ExactTally(cfg, raised.ballots, r), LARGEST_TALLY) {
      TallyUpdate(cfg, raised, who, lent, r);
      SilentIsWorthless(cfg, lent, r);
      SilentIsWorthless(cfg, BallotOf(s, who), r);
      FittingTally(cfg, t, r);
    }
  }

  /** Delegating, or re-delegating, keeps every tally and every account's delegations exact. */
  lemma DelegateKeepsInv(cfg: Config, s: State, who: AccountId, target: AccountId, c: Conviction, balance: nat,
                         free: nat)
    requires Inv(cfg, s) && TryDelegate(cfg, s, who, target, c, balance, free).Ok?
    requires Fits(cfg, TryDelegate(cfg, s, who, target, c, balance, free).value)
    ensures Inv(cfg, TryDelegate(cfg, s, who, target, c, balance, free).value)
  {
    var t, b, mid := TryDelegate(cfg, s, who, target, c, balance, free).value, BallotOf(s, who), Released(cfg, s, who);
    DelegateKeepsInvFrom(cfg, s, mid, who, Delegating(balance, target, c, b.delegations, b.prior), t);
  }

  lemma DelegateKeepsInvFrom(cfg: Config, s: State, mid: State, who: AccountId, lent: Ballot, t: State)
    requires Inv(cfg, s) && mid == Released(cfg, s, who) && Silent(BallotOf(s, who))
    requires lent.Delegating? && lent.target != who && lent.delegations == BallotOf(s, who).delegations && Fits(cfg, t)
    requires var raised := Upstream(mid, lent.target, cfg.votesOf(lent.conviction, lent.balance), true);
             t.ballots == raised.ballots[who := lent] && t.referenda == raised.referenda && t.count == raised.count
    ensures Inv(cfg, t)
  {
    hide Total, WorthIn, Find;
    var d := cfg.votesOf(lent.conviction, lent.balance);
    var raised := Upstream(mid, lent.target, d, true);
    ReleasedKeepsTallies(cfg, s, who);
    LendingFits(cfg, s, mid, who, lent, t);
    UpstreamKeepsTallies(cfg, mid, lent.target, d, true);
    ReplaceSilent(cfg, raised, who, lent, t);
    forall a ensures BallotOf(t, a).delegations == ExactDelegations(cfg, t.ballots, a) {
      DelegationsUpdate(cfg, raised, who, lent, a);
      assert LentByOthers(cfg, s, mid, who, a);
      assert ExactDelegations(cfg, raised.ballots, a) == ExactDelegations(cfg, s.ballots, a);
    }
  }

  // ----- the rest -----

  lemma UpdateLockKeepsInv(cfg: Config, s: State, who: AccountId)
    requires Inv(cfg, s)
    ensures Inv(cfg, UpdateLock(s, who))
  {
    hide Total;
    var t := UpdateLock(s, who);
    forall slot ensures Total(cfg, t.ballots, slot) == Total(cfg, s.ballots, slot) {
      TotalUpdate(cfg, s, who, t.ballots[who], slot);
    }
    forall a ensures BallotOk(t, a) && BallotOf(t, a).delegations == ExactDelegations(cfg, t.ballots, a) {
      assert BallotOk(s, a);
      assert BallotOf(s, a).delegations == ExactDelegations(cfg, s.ballots, a);
    }
  }

  /** No ballot mentions a referendum that does not exist yet, so its tally starts exact. */
  lemma {:induction false} NobodyVotedYet(cfg: Config, s: State, r: nat, slot: Slot, ballots: map<AccountId, Ballot>)
    requires slot in {AyesOf(r), NaysOf(r), TurnoutOf(r)}
    requires forall a :: a in ballots ==> WorthIn(cfg, ballots[a], r) == Tally(0, 0, 0)
    ensures Total(cfg, ballots, slot) == 0
    decreases |ballots|
  {
    hide Find;
    if ballots == map[] {
      assert Shares(cfg, ballots, slot) == map[];
    } else {
      var a :| a in ballots;
      SumSplit(Shares(cfg, ballots, slot), a);
      assert Shares(cfg, ballots, slot) - {a} == Shares(cfg, ballots - {a}, slot);
      NobodyVotedYet(cfg, s, r, slot, ballots - {a});
    }
  }

  lemma InjectKeepsInv(cfg: Config, s: State, end: nat, proposal: Hash, threshold: Threshold, delay: nat)
    requires Inv(cfg, s)
    ensures Inv(cfg, Inject(s, end, proposal, threshold, delay))
  {
    var t := Inject(s, end, proposal, threshold, delay);
    forall a | a in s.ballots ensures WorthIn(cfg, s.ballots[a], s.count) == Tally(0, 0, 0) {
      assert BallotOk(s, a);
      if s.ballots[a].Direct? { FindsEntries(s.ballots[a].votes, s.count); }
    }
    NobodyVotedYet(cfg, s, s.count, AyesOf(s.count), s.ballots);
    NobodyVotedYet(cfg, s, s.count, NaysOf(s.count), s.ballots);
    NobodyVotedYet(cfg, s, s.count, TurnoutOf(s.count), s.ballots);
    forall a ensures BallotOk(t, a) && BallotOf(t, a).delegations == ExactDelegations(cfg, t.ballots, a) {
      assert BallotOk(s, a);
      assert BallotOf(s, a).delegations == ExactDelegations(cfg, s.ballots, a);
    }
  }

  /** Cancelling, finishing and the passing of time leave all ballots alone. */
  lemma EndingKeepsInv(cfg: Config, s: State, t: State)
    requires Inv(cfg, s) && t.ballots == s.ballots && t.count == s.count
    requires forall r :: r in t.referenda ==> r in s.referenda && (t.referenda[r] == s.referenda[r] || t.referenda[r].Finished?)
    ensures Inv(cfg, t)
  {
    forall a ensures BallotOk(t, a) && BallotOf(t, a).delegations == ExactDelegations(cfg, t.ballots, a) {
      assert BallotOk(s, a);
      assert BallotOf(s, a).delegations == ExactDelegations(cfg, s.ballots, a);
    }
  }
}
