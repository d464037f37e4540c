/** Whole runs of the democracy module: any calls by anyone, accepted or refused, one block after
    the other, with other modules moving balances in between. */
module DemocracyRuns {
  import opened Numbers
  import opened Wrappers
  import opened Voting
  import opened VoteVectors
  import opened Tallies
  import opened Locks
  import opened Democracy
  import opened Deposits
  import opened Lifecycle
  import opened Tabling

  datatype Action =
    | CallVote(who: AccountId, r: nat, vote: AccountVote, free: nat)
    | CallRemoveVote(who: AccountId, r: nat, scope: Scope)
    | CallDelegate(who: AccountId, target: AccountId, conviction: Conviction, balance: nat, free: nat)
    | CallUndelegate(who: AccountId)
    | CallUnlock(who: AccountId)
    | CallPropose(who: AccountId, hash: Hash, currency: CurrencyId, value: nat)
    | CallSecond(who: AccountId, index: nat, currency: CurrencyId, bound: nat)
    | CallCancelProposal(index: nat)
    | CallBlacklist(hash: Hash, which: Option<nat>)
    | CallClearProposals
    | CallNotePreimage(who: AccountId, currency: CurrencyId, data: seq<nat>)
    | CallNoteImminent(who: AccountId, currency: CurrencyId, data: seq<nat>)
    | CallReap(who: AccountId, hash: Hash, bound: nat)
    | CallEnact(hash: Hash)
    | CallExternalPropose(hash: Hash)
    | CallExternalReplace(hash: Hash, threshold: Threshold)
    | CallFastTrack(hash: Hash, period: nat, delay: nat)
    | CallVeto(who: AccountId, hash: Hash)
    | CallCancelReferendum(r: nat)
    | CallEmergencyCancel(r: nat)
    | NextBlock(issuance: map<CurrencyId, nat>)
    | Elsewhere(balances: Bank)

  /** Other modules leave alone what this one has reserved. */
  ghost predicate Legal(w: World, x: Action) {
    x.Elsewhere? ==> forall c, a :: Reserved(x.balances, c, a) >= Backing(w, c, a)
  }

  function Voted(w: World, r: Result<State, Error>): World { if r.Ok? then w.(voting := r.value) else w }

  function Done(w: World, r: Result<World, Refusal>): World { if r.Ok? then r.value else w }

  /** The next block has started, its work is still to be done. */
  function Tick(w: World): World { w.(voting := w.voting.(now := w.voting.now + 1)) }

  function Step(cfg: Config, w: World, x: Action): World
    requires cfg.launchPeriod > 0
  {
    match x
    case CallVote(who, r, v, free) => Voted(w, TryVote(cfg, w.voting, who, r, v, free))
    case CallRemoveVote(who, r, scope) => Voted(w, TryRemoveVote(cfg, w.voting, who, r, scope))
    case CallDelegate(who, target, c, balance, free) => Voted(w, TryDelegate(cfg, w.voting, who, target, c, balance, free))
    case CallUndelegate(who) => Voted(w, TryUndelegate(cfg, w.voting, who))
    case CallUnlock(who) => w.(voting := UpdateLock(w.voting, who))
    case CallPropose(who, h, c, value) => Done(w, Propose(cfg, w, who, h, c, value))
    case CallSecond(who, i, c, bound) => Done(w, Second(cfg, w, who, i, c, bound))
    case CallCancelProposal(i) => CancelProposal(w, i)
    case CallBlacklist(h, which) => Blacklist(w, h, which)
    case CallClearProposals => w.(proposals := [])
    case CallNotePreimage(who, c, data) => Done(w, NotePreimage(cfg, w, who, c, data))
    case CallNoteImminent(who, c, data) => Done(w, NoteImminentPreimage(cfg, w, who, c, data))
    case CallReap(who, h, bound) => Done(w, ReapPreimage(cfg, w, who, h, bound))
    case CallEnact(h) => EnactProposal(cfg, w, h)
    case CallExternalPropose(h) => Done(w, ExternalPropose(w, h))
    case CallExternalReplace(h, t) => ExternalReplace(w, h, t)
    case CallFastTrack(h, period, delay) => Done(w, FastTrack(w, h, period, delay))
    case CallVeto(who, h) => Done(w, VetoExternal(cfg, w, who, h))
    case CallCancelReferendum(r) => w.(voting := Cancel(w.voting, r))
    case CallEmergencyCancel(r) => Done(w, EmergencyCancel(w, r))
    case NextBlock(issuance) => BeginBlock(cfg, Tick(w), issuance).0
    case Elsewhere(balances) => w.(bank := balances)
  }

  ghost predicate LegalRun(cfg: Config, w: World, run: seq<Action>)
    requires cfg.launchPeriod > 0
    decreases |run|
  {
    run == [] || (Legal(w, run[0]) && LegalRun(cfg, Step(cfg, w, run[0]), run[1..]))
  }

  function Run(cfg: Config, w: World, run: seq<Action>): World
    requires cfg.launchPeriod > 0
    decreases |run|
  {
    if run == [] then w else Run(cfg, Step(cfg, w, run[0]), run[1..])
  }

  /** A property of every state that a run passes through, the first and the last included. */
  ghost predicate FitsThroughout(cfg: Config, w: World, run: seq<Action>)
    requires cfg.launchPeriod > 0
    decreases |run|
  {
    Fits(cfg, w.voting) && (run != [] ==> FitsThroughout(cfg, Step(cfg, w, run[0]), run[1..]))
  }

  // ----- what a step does to the voting state -----

  /** No ballot, lock or existing referendum changes, except that some referenda are removed or
      finished and at most one is opened. */
  ghost predicate OnlyReferenda(s: State, t: State) {
    && t.ballots == s.ballots && t.locks == s.locks
    && (t.count == s.count
        || (t.count == s.count + 1
            && (s.count in t.referenda ==> (t.referenda[s.count].Ongoing? ==>
                                             t.referenda[s.count].status.tally == Tally(0, 0, 0)))))
    && (forall r :: r in t.referenda && r != s.count ==>
          r in s.referenda && (t.referenda[r] == s.referenda[r] || t.referenda[r].Finished?))
    && (s.count in t.referenda ==> t.count == s.count + 1)
  }

  lemma LaunchOnlyReferenda(cfg: Config, w: World)
    requires cfg.launchPeriod > 0 && Indexed(w.voting)
    ensures OnlyReferenda(w.voting, Launched(cfg, w).voting)
  {
    hide UnreserveAll, SwapRemove, Best;
  }

  lemma BlockOnlyReferenda(cfg: Config, w: World, issuance: map<CurrencyId, nat>)
    requires cfg.launchPeriod > 0 && Indexed(w.voting)
    ensures OnlyReferenda(w.voting, BeginBlock(cfg, w, issuance).0.voting)
  {
    hide Launched, BakeAll, Due;
    var v := Launched(cfg, w);
    LaunchOnlyReferenda(cfg, w);
    DueIsDistinct(v);
    BakeAllOutcome(cfg, v, Due(v), issuance);
    var u := BeginBlock(cfg, w, issuance).0;
    forall r | r in u.voting.referenda
      ensures r in v.voting.referenda && (u.voting.referenda[r] == v.voting.referenda[r] || u.voting.referenda[r].Finished?)
    {
      if InDue(Due(v), r) {}
    }
  }

  predicate IsBallotCall(x: Action) {
    x.CallVote? || x.CallRemoveVote? || x.CallDelegate? || x.CallUndelegate? || x.CallUnlock?
  }

  /** The referendum a call may cancel. */
  function CancelledBy(x: Action): Option<nat> {
    match x
    case CallCancelReferendum(r) => Some(r)
    case CallEmergencyCancel(r) => Some(r)
    case CallBlacklist(_, which) => which
    case _ => None
  }

  /** All that a call other than a ballot call can do to the voting state within a block. */
  ghost predicate PlainEffect(s: State, t: State, x: Action) {
    || t == s
    || (CancelledBy(x).Some? && t == Cancel(s, CancelledBy(x).value)
        && (x.CallCancelReferendum? || OngoingStatus(s, CancelledBy(x).value).Some?))
    || (x.CallFastTrack? && Opened(s, t, s.now + x.period) && t.referenda[s.count].status.tally == Tally(0, 0, 0))
  }

  lemma PlainCall(cfg: Config, w: World, x: Action)
    requires cfg.launchPeriod > 0 && !IsBallotCall(x) && !x.NextBlock?
    ensures PlainEffect(w.voting, Step(cfg, w, x).voting, x)
  {
    hide Blacklist, SlashAll, Retain, Insert, PositionOf, Reserve, Repatriate, Unreserve;
    if x.CallBlacklist? { BlacklistVoting(w, x.hash, x.which); }
  }

  lemma BlacklistVoting(w: World, h: Hash, which: Option<nat>)
    ensures var s, t := w.voting, Blacklist(w, h, which).voting;
            t == s || (which.Some? && OngoingStatus(s, which.value).Some? && t == Cancel(s, which.value))
  {}

  lemma NextBlockStep(cfg: Config, w: World, issuance: map<CurrencyId, nat>)
    requires cfg.launchPeriod > 0
    ensures Step(cfg, w, NextBlock(issuance)) == BeginBlock(cfg, Tick(w), issuance).0
  {}

  /** Every call that is not about ballots only opens, cancels or finishes referenda. */
  lemma OtherCallsOnlyReferenda(cfg: Config, w: World, x: Action)
    requires cfg.launchPeriod > 0 && Indexed(w.voting) && !IsBallotCall(x)
    ensures OnlyReferenda(w.voting, Step(cfg, w, x).voting)
  {
    hide BeginBlock, Step;
    if x.NextBlock? {
      NextBlockStep(cfg, w, x.issuance);
      BlockOnlyReferenda(cfg, Tick(w), x.issuance);
    } else {
      PlainCall(cfg, w, x);
    }
  }

  // ----- tallies -----

  lemma OnlyReferendaKeepsInv(cfg: Config, s: State, t: State)
    requires Inv(cfg, s) && OnlyReferenda(s, t)
    ensures Inv(cfg, t)
  {
    hide ExactTally, ExactDelegations;
    if t.count == s.count {
      EndingKeepsInv(cfg, s, t);
    } else {
      var begun := Inject(s, 0, 0, SimpleMajority, 0);
      InjectKeepsInv(cfg, s, 0, 0, SimpleMajority, 0);
      assert begun.referenda[s.count].status.tally == ExactTally(cfg, begun.ballots, s.count);
      forall r | r in t.referenda && t.referenda[r].Ongoing?
        ensures t.referenda[r].status.tally == ExactTally(cfg, t.ballots, r) {}
      forall a ensures BallotOk(t, a) { assert BallotOk(begun, a); }
      forall a ensures BallotOf(t, a).delegations == ExactDelegations(cfg, t.ballots, a) {
        assert BallotOf(s, a).delegations == ExactDelegations(cfg, s.ballots, a);
      }
    }
  }

  /** One step keeps every tally and all delegations exact. */
  lemma StepKeepsTallies(cfg: Config, w: World, x: Action)
    requires cfg.launchPeriod > 0 && Inv(cfg, w.voting) && Fits(cfg, Step(cfg, w, x).voting)
    ensures Inv(cfg, Step(cfg, w, x).voting)
  {
    hide TryVote, TryRemoveVote, TryDelegate, TryUndelegate, UpdateLock, Inv, Fits;
    var s := w.voting;
    if x.CallVote? && TryVote(cfg, s, x.who, x.r, x.vote, x.free).Ok? {
      VoteKeepsInv(cfg, s, x.who, x.r, x.vote, x.free);
    } else if x.CallRemoveVote? && TryRemoveVote(cfg, s, x.who, x.r, x.scope).Ok? {
      RemoveVoteKeepsInv(cfg, s, x.who, x.r, x.scope);
    } else if x.CallDelegate? && TryDelegate(cfg, s, x.who, x.target, x.conviction, x.balance, x.free).Ok? {
      DelegateKeepsInv(cfg, s, x.who, x.target, x.conviction, x.balance, x.free);
    } else if x.CallUndelegate? && TryUndelegate(cfg, s, x.who).Ok? {
      UndelegateKeepsInv(cfg, s, x.who);
    } else if x.CallUnlock? {
      UpdateLockKeepsInv(cfg, s, x.who);
    } else if !IsBallotCall(x) {
      InvIsIndexed(cfg, s);
      OtherCallsOnlyReferenda(cfg, w, x);
      hide Step;
      OnlyReferendaKeepsInv(cfg, s, Step(cfg, w, x).voting);
    }
  }

  lemma InvIsIndexed(cfg: Config, s: State)
    requires Inv(cfg, s)
    ensures Indexed(s)
  {}

  /** In every reachable state every ongoing tally is the sum over all direct voters, delegations
      included, and every account's delegations are the sum over those who delegate to it; the
      only assumption is that these sums are 128-bit numbers. */
  lemma {:induction false} TalliesOverRuns(cfg: Config, w: World, run: seq<Action>)
    requires cfg.launchPeriod > 0 && Inv(cfg, w.voting) && FitsThroughout(cfg, w, run)
    ensures Inv(cfg, Run(cfg, w, run).voting)
    decreases |run|
  {
    hide Inv, Fits, Step;
    if run != [] {
      StepKeepsTallies(cfg, w, run[0]);
      TalliesOverRuns(cfg, Step(cfg, w, run[0]), run[1..]);
    }
  }

  /** Nothing has happened yet: no ballots, locks, referenda, proposals, deposits or preimages. Other
      modules may have reserved what they like. */
  ghost predicate Genesis(w: World) {
    && w.voting.ballots == map[] && w.voting.referenda == map[] && w.voting.locks == map[]
    && w.proposals == [] && w.deposits == map[] && w.preimages == map[]
  }

  /** Everything the theorems about runs start from holds then. */
  lemma GenesisIsExact(cfg: Config, w: World)
    requires Genesis(w)
    ensures Inv(cfg, w.voting) && Fits(cfg, w.voting) && Covered(w.voting)
    ensures Backed(w) && QueueOk(w) && NoneOverdue(w)
  {
    forall slot ensures Total(cfg, w.voting.ballots, slot) == 0 {
      assert Shares(cfg, w.voting.ballots, slot) == map[];
    }
    forall c, a ensures Excess(w, c, a) >= 0 {
      assert DepositParts(w.deposits, c, a) == map[] && PreimageParts(w.preimages, c, a) == map[];
    }
  }

  // ----- well-formed ballots, whatever the sums -----

  lemma StepKeepsWellFormed(cfg: Config, w: World, x: Action)
    requires cfg.launchPeriod > 0 && WellFormed(w.voting)
    ensures WellFormed(Step(cfg, w, x).voting)
  {
    hide TryVote, TryRemoveVote, TryDelegate, TryUndelegate, UpdateLock, WellFormed;
    var s := w.voting;
    if x.CallVote? && TryVote(cfg, s, x.who, x.r, x.vote, x.free).Ok? {
      VoteKeepsWellFormed(cfg, s, x.who, x.r, x.vote, x.free);
    } else if x.CallRemoveVote? && TryRemoveVote(cfg, s, x.who, x.r, x.scope).Ok? {
      RemoveKeepsWellFormed(cfg, s, x.who, x.r, x.scope);
    } else if x.CallDelegate? && TryDelegate(cfg, s, x.who, x.target, x.conviction, x.balance, x.free).Ok? {
      DelegateKeepsWellFormed(cfg, s, x.who, x.target, x.conviction, x.balance, x.free);
    } else if x.CallUndelegate? && TryUndelegate(cfg, s, x.who).Ok? {
      UndelegateKeepsWellFormed(cfg, s, x.who);
    } else if x.CallUnlock? {
      UpdateLockKeepsWellFormed(s, x.who);
    } else if !IsBallotCall(x) {
      WellFormedIsIndexed(s);
      OtherCallsOnlyReferenda(cfg, w, x);
      hide Step;
      OnlyReferendaKeepsWellFormed(s, Step(cfg, w, x).voting);
    }
  }

  lemma WellFormedIsIndexed(s: State)
    requires WellFormed(s)
    ensures Indexed(s)
  {}

  lemma OnlyReferendaKeepsWellFormed(s: State, t: State)
    requires WellFormed(s) && OnlyReferenda(s, t)
    ensures WellFormed(t)
  {
    forall a ensures BallotOk(t, a) { assert BallotOk(s, a); }
  }

  lemma VoteKeepsWellFormed(cfg: Config, s: State, who: AccountId, r: nat, v: AccountVote, free: nat)
    requires WellFormed(s) && TryVote(cfg, s, who, r, v, free).Ok?
    ensures WellFormed(TryVote(cfg, s, who, r, v, free).value)
  {
    var u := VoteShape(cfg, s, who, r, v, free);
    hide TryVote, Put, Find, Recount, WithoutPrevious;
    var t := TryVote(cfg, s, who, r, v, free).value;
    IndicesBelow(s, who);
    PutSorted(BallotOf(s, who).votes, r, v);
    VectorReplaced(s, who, t.ballots[who], t);
  }

  lemma RemoveKeepsWellFormed(cfg: Config, s: State, who: AccountId, r: nat, scope: Scope)
    requires WellFormed(s) && TryRemoveVote(cfg, s, who, r, scope).Ok?
    ensures WellFormed(TryRemoveVote(cfg, s, who, r, scope).value)
  {
    var t := TryRemoveVote(cfg, s, who, r, scope).value;
    if BallotOf(s, who).Direct? {
      var prior := RemoveShape(cfg, s, who, r, scope);
      hide TryRemoveVote, Drop, Find, Uncount;
      IndicesBelow(s, who);
      DropSorted(BallotOf(s, who).votes, r);
      VectorReplaced(s, who, t.ballots[who], t);
    }
  }

  lemma UpstreamKeepsWellFormed(s: State, target: AccountId, d: Delegations, up: bool)
    requires WellFormed(s)
    ensures WellFormed(Upstream(s, target, d, up))
  {
    forall a ensures BallotOk(Upstream(s, target, d, up), a) { assert BallotOk(s, a); }
  }

  lemma SilentKeepsWellFormed(s: State, who: AccountId, b: Ballot, t: State)
    requires WellFormed(s) && t.ballots == s.ballots[who := b] && t.count == s.count && t.referenda == s.referenda
    requires Silent(b) && (b.Delegating? ==> b.target != who)
    ensures WellFormed(t)
  {
    forall a ensures BallotOk(t, a) { assert BallotOk(s, a); }
  }

  lemma DelegateKeepsWellFormed(cfg: Config, s: State, who: AccountId, target: AccountId, c: Conviction, balance: nat,
                                free: nat)
    requires WellFormed(s) && TryDelegate(cfg, s, who, target, c, balance, free).Ok?
    ensures WellFormed(TryDelegate(cfg, s, who, target, c, balance, free).value)
  {
    var t, b, mid := TryDelegate(cfg, s, who, target, c, balance, free).value, BallotOf(s, who), Released(cfg, s, who);
    var raised := Upstream(mid, target, cfg.votesOf(c, balance), true);
    if b.Delegating? { UpstreamKeepsWellFormed(s, b.target, cfg.votesOf(b.conviction, b.balance), false); }
    UpstreamKeepsWellFormed(mid, target, cfg.votesOf(c, balance), true);
    hide Upstream;
    SilentKeepsWellFormed(raised, who, t.ballots[who], t);
  }

  lemma UndelegateKeepsWellFormed(cfg: Config, s: State, who: AccountId)
    requires WellFormed(s) && TryUndelegate(cfg, s, who).Ok?
    ensures WellFormed(TryUndelegate(cfg, s, who).value)
  {
    var t, b := TryUndelegate(cfg, s, who).value, BallotOf(s, who);
    var released := Upstream(s, b.target, cfg.votesOf(b.conviction, b.balance), false);
    UpstreamKeepsWellFormed(s, b.target, cfg.votesOf(b.conviction, b.balance), false);
    hide Upstream;
    SilentKeepsWellFormed(released, who, t.ballots[who], t);
  }

  lemma UpdateLockKeepsWellFormed(s: State, who: AccountId)
    requires WellFormed(s)
    ensures WellFormed(UpdateLock(s, who))
  {
    hide LockedBalance;
    forall a ensures BallotOk(UpdateLock(s, who), a) { assert BallotOk(s, a); }
  }

  // ----- locks -----

  ghost predicate Locked(s: State) { WellFormed(s) && Covered(s) }

  lemma SortedBallot(s: State, who: AccountId)
    requires WellFormed(s)
    ensures Sorted(if BallotOf(s, who).Direct? then BallotOf(s, who).votes else [])
  {
    assert BallotOk(s, who);
  }

  lemma StepKeepsLocked(cfg: Config, w: World, x: Action)
    requires cfg.launchPeriod > 0 && Locked(w.voting)
    ensures Locked(Step(cfg, w, x).voting)
  {
    hide TryVote, TryRemoveVote, TryDelegate, TryUndelegate, UpdateLock, WellFormed, Covered, Sorted;
    var s := w.voting;
    StepKeepsWellFormed(cfg, w, x);
    if x.CallVote? && TryVote(cfg, s, x.who, x.r, x.vote, x.free).Ok? {
      SortedBallot(s, x.who);
      VoteKeepsCovered(cfg, s, x.who, x.r, x.vote, x.free);
    } else if x.CallRemoveVote? && TryRemoveVote(cfg, s, x.who, x.r, x.scope).Ok? {
      SortedBallot(s, x.who);
      RemoveKeepsCovered(cfg, s, x.who, x.r, x.scope);
    } else if x.CallDelegate? && TryDelegate(cfg, s, x.who, x.target, x.conviction, x.balance, x.free).Ok? {
      DelegateKeepsCovered(cfg, s, x.who, x.target, x.conviction, x.balance, x.free);
    } else if x.CallUndelegate? && TryUndelegate(cfg, s, x.who).Ok? {
      UndelegateKeepsCovered(cfg, s, x.who);
    } else if x.CallUnlock? {
      UpdateLockOnlyLoosens(s, x.who);
    } else if !IsBallotCall(x) {
      WellFormedIsIndexed(s);
      OtherCallsOnlyReferenda(cfg, w, x);
      hide Step;
      SameLocks(s, Step(cfg, w, x).voting);
    }
  }

  lemma SameLocks(s: State, t: State)
    requires Covered(s) && t.ballots == s.ballots && t.locks == s.locks
    ensures Covered(t)
  {
    hide LockedBalance;
    forall a ensures LockOf(t, a) >= LockedBalance(BallotOf(t, a)) { assert LockOf(s, a) >= LockedBalance(BallotOf(s, a)); }
  }

  lemma StepKeepsSecured(cfg: Config, w: World, x: Action, a: AccountId, r: nat, until: nat, amount: nat)
    requires cfg.launchPeriod > 0 && WellFormed(w.voting)
    requires Secured(cfg, w.voting, a, r, until, amount) && w.voting.now < until && x != CallCancelReferendum(r)
    ensures Secured(cfg, Step(cfg, w, x).voting, a, r, until, amount)
  {
    hide TryVote, TryRemoveVote, TryDelegate, TryUndelegate, UpdateLock, WellFormed, Secured, Sorted, OnlyReferenda,
         Later;
    var s := w.voting;
    if x.CallVote? && TryVote(cfg, s, x.who, x.r, x.vote, x.free).Ok? {
      SortedBallot(s, x.who);
      VoteKeepsSecured(cfg, s, x.who, x.r, x.vote, x.free, a, r, until, amount);
    } else if x.CallRemoveVote? && TryRemoveVote(cfg, s, x.who, x.r, x.scope).Ok? {
      SortedBallot(s, x.who);
      RemoveKeepsSecured(cfg, s, x.who, x.r, x.scope, a, r, until, amount);
    } else if x.CallDelegate? && TryDelegate(cfg, s, x.who, x.target, x.conviction, x.balance, x.free).Ok? {
      DelegateKeepsSecured(cfg, s, x.who, x.target, x.conviction, x.balance, x.free, a, r, until, amount);
    } else if x.CallUndelegate? && TryUndelegate(cfg, s, x.who).Ok? {
      UndelegateKeepsSecured(cfg, s, x.who, a, r, until, amount);
    } else if x.CallUnlock? {
      UpdateLockKeepsSecured(cfg, s, x.who, a, r, until, amount);
    } else if !IsBallotCall(x) {
      WellFormedIsIndexed(s);
      FinishedStays(cfg, w, x, r);
      hide Step;
      OtherReferendaKeepSecured(cfg, s, Step(cfg, w, x).voting, a, r, until, amount);
    }
  }

  /** A finished referendum stays as it is, unless it is cancelled by name. */
  lemma FinishedStays(cfg: Config, w: World, x: Action, r: nat)
    requires cfg.launchPeriod > 0 && Indexed(w.voting) && !IsBallotCall(x) && x != CallCancelReferendum(r)
    ensures Step(cfg, w, x).voting.ballots == w.voting.ballots
    ensures var s, t := w.voting, Step(cfg, w, x).voting;
            r in s.referenda && s.referenda[r].Finished? ==> r in t.referenda && t.referenda[r] == s.referenda[r]
  {
    hide BeginBlock, Step;
    OtherCallsOnlyReferenda(cfg, w, x);
    if x.NextBlock? {
      NextBlockStep(cfg, w, x.issuance);
      if r in w.voting.referenda { BlockKeepsFinished(cfg, Tick(w), x.issuance, r); }
    } else {
      PlainCall(cfg, w, x);
    }
  }

  lemma BlockKeepsFinished(cfg: Config, w: World, issuance: map<CurrencyId, nat>, r: nat)
    requires cfg.launchPeriod > 0 && Indexed(w.voting) && r in w.voting.referenda && r < w.voting.count
    ensures var t := BeginBlock(cfg, w, issuance).0.voting;
            r in t.referenda && (w.voting.referenda[r].Finished? ==> t.referenda[r] == w.voting.referenda[r])
  {
    hide Launched, BakeAll, Due;
    var v := Launched(cfg, w);
    LaunchKeepsReferendum(cfg, w, r);
    LaunchedReferenda(cfg, w);
    DueIsDistinct(v);
    BakeAllOutcome(cfg, v, Due(v), issuance);
    if w.voting.referenda[r].Finished? { assert !Matures(v, r); assert !InDue(Due(v), r); }
  }

  lemma LaunchKeepsReferendum(cfg: Config, w: World, r: nat)
    requires cfg.launchPeriod > 0 && r in w.voting.referenda && r < w.voting.count
    ensures var v := Launched(cfg, w); r in v.voting.referenda && v.voting.referenda[r] == w.voting.referenda[r]
  {
    hide LaunchNext;
    LaunchOpensOne(cfg, w);
  }

  /** On every run, what a winning vote secured stays locked until its conviction expires, whatever
      is voted, removed, delegated, undelegated or unlocked, unless that referendum is cancelled. */
  lemma {:induction false} WinningVoteStaysLocked(cfg: Config, w: World, run: seq<Action>, a: AccountId, r: nat,
                                                  until: nat, amount: nat)
    requires cfg.launchPeriod > 0 && Locked(w.voting) && Secured(cfg, w.voting, a, r, until, amount)
    requires forall i :: 0 <= i < |run| ==> run[i] != CallCancelReferendum(r)
    ensures var s := Run(cfg, w, run).voting; Locked(s) && (s.now < until ==> LockOf(s, a) >= amount)
    decreases |run|
  {
    hide Step, WellFormed, Secured, Covered, LockOf;
    if run == [] {
      SecuredIsLocked(cfg, w.voting, a, r, until, amount);
    } else {
      var v := Step(cfg, w, run[0]);
      StepKeepsLocked(cfg, w, run[0]);
      TimePasses(cfg, w, run[0]);
      if w.voting.now < until {
        StepKeepsSecured(cfg, w, run[0], a, r, until, amount);
        assert forall i :: 0 <= i < |run[1..]| ==> run[1..][i] == run[i + 1];
        WinningVoteStaysLocked(cfg, v, run[1..], a, r, until, amount);
      } else {
        RunKeepsLocked(cfg, v, run[1..]);
      }
    }
  }

  lemma TimePasses(cfg: Config, w: World, x: Action)
    requires cfg.launchPeriod > 0 && WellFormed(w.voting)
    ensures Step(cfg, w, x).voting.now == w.voting.now + if x.NextBlock? then 1 else 0
  {
    hide BeginBlock, Step;
    if IsBallotCall(x) {
      BallotCallsKeepReferenda(cfg, w, x);
    } else if x.NextBlock? {
      WellFormedIsIndexed(w.voting);
      NextBlockStep(cfg, w, x.issuance);
      OnTime(cfg, Tick(w), x.issuance);
    } else {
      PlainCall(cfg, w, x);
    }
  }

  lemma {:induction false} RunKeepsLocked(cfg: Config, w: World, run: seq<Action>)
    requires cfg.launchPeriod > 0 && Locked(w.voting)
    ensures Locked(Run(cfg, w, run).voting) && Run(cfg, w, run).voting.now >= w.voting.now
    decreases |run|
  {
    hide Step, WellFormed, Covered;
    if run != [] {
      StepKeepsLocked(cfg, w, run[0]);
      TimePasses(cfg, w, run[0]);
      RunKeepsLocked(cfg, Step(cfg, w, run[0]), run[1..]);
    }
  }

  // ----- deposits -----

  lemma SameDeposits(w: World, v: World)
    requires v.bank == w.bank && v.deposits == w.deposits && v.preimages == w.preimages
    ensures ExcessKept(w, v)
  {
    hide Excess;
    SameRecords(w, v);
  }

  lemma StepKeepsDeposits(cfg: Config, w: World, x: Action)
    requires cfg.launchPeriod > 0 && Legal(w, x) && Backed(w) && QueueOk(w)
    ensures Backed(Step(cfg, w, x)) && (!x.Elsewhere? ==> ExcessKept(w, Step(cfg, w, x)))
  {
    var v := Step(cfg, w, x);
    if x.Elsewhere? {
      ElsewhereKeepsBacked(w, v);
    } else {
      hide Step, Excess, QueueOk, Legal;
      if x.CallPropose? || x.CallSecond? || x.CallCancelProposal? || x.CallBlacklist? {
        ProposalCallKeepsDeposits(cfg, w, x);
      } else if x.CallNotePreimage? || x.CallNoteImminent? || x.CallReap? || x.CallEnact? {
        PreimageCallKeepsDeposits(cfg, w, x);
      } else if x.NextBlock? {
        NextBlockStep(cfg, w, x.issuance);
        SameDeposits(w, Tick(w));
        SameRecords(w, Tick(w));
        BeginBlockKeeps(cfg, Tick(w), x.issuance);
        KeptTwice(w, Tick(w), v);
      } else {
        OtherCallsLeaveDeposits(cfg, w, x);
        SameDeposits(w, v);
      }
      SameDeposits(w, w);
      KeptTwice(w, w, v);
    }
  }

  lemma ProposalCallKeepsDeposits(cfg: Config, w: World, x: Action)
    requires cfg.launchPeriod > 0 && Backed(w) && QueueOk(w)
    requires x.CallPropose? || x.CallSecond? || x.CallCancelProposal? || x.CallBlacklist?
    ensures ExcessKept(w, Step(cfg, w, x))
  {
    hide Propose, Second, CancelProposal, Blacklist, Excess, QueueOk;
    match x {
      case CallPropose(who, h, c, value) =>
        NextIndexIsFree(w);
        if Propose(cfg, w, who, h, c, value).Ok? { ProposeKeeps(cfg, w, who, h, c, value); } else { SameDeposits(w, w); }
      case CallSecond(who, i, c, bound) =>
        if Second(cfg, w, who, i, c, bound).Ok? { SecondKeeps(cfg, w, who, i, c, bound); } else { SameDeposits(w, w); }
      case CallCancelProposal(i) => CancelProposalKeeps(w, i);
      case CallBlacklist(h, which) => BlacklistKeeps(w, h, which);
    }
  }

  lemma PreimageCallKeepsDeposits(cfg: Config, w: World, x: Action)
    requires cfg.launchPeriod > 0 && Backed(w)
    requires x.CallNotePreimage? || x.CallNoteImminent? || x.CallReap? || x.CallEnact?
    ensures ExcessKept(w, Step(cfg, w, x))
  {
    hide NotePreimage, NoteImminentPreimage, ReapPreimage, EnactProposal, Excess;
    SameDeposits(w, w);
    match x {
      case CallNotePreimage(who, c, data) =>
        if NotePreimage(cfg, w, who, c, data).Ok? { NoteKeeps(cfg, w, who, c, data); }
      case CallNoteImminent(who, c, data) =>
        if NoteImminentPreimage(cfg, w, who, c, data).Ok? { NoteImminentKeeps(cfg, w, who, c, data); }
      case CallReap(who, h, bound) =>
        if ReapPreimage(cfg, w, who, h, bound).Ok? { ReapKeeps(cfg, w, who, h, bound); }
      case CallEnact(h) => EnactKeeps(cfg, w, h);
    }
  }

  lemma OtherCallsLeaveDeposits(cfg: Config, w: World, x: Action)
    requires cfg.launchPeriod > 0 && !x.Elsewhere? && !x.NextBlock?
    requires !x.CallPropose? && !x.CallSecond? && !x.CallCancelProposal? && !x.CallBlacklist?
    requires !x.CallNotePreimage? && !x.CallNoteImminent? && !x.CallReap? && !x.CallEnact?
    ensures var v := Step(cfg, w, x); v.bank == w.bank && v.deposits == w.deposits && v.preimages == w.preimages
  {
    if IsBallotCall(x) {
      BallotCallFrame(cfg, w, x);
    } else {
      hide Insert, Inject, Cancel;
    }
  }

  lemma NextIndexIsFree(w: World)
    requires QueueOk(w)
    ensures w.proposalCount !in w.deposits
  {}

  lemma ElsewhereKeepsBacked(w: World, v: World)
    requires v == w.(bank := v.bank) && forall c, a :: Reserved(v.bank, c, a) >= Backing(w, c, a)
    ensures Backed(v)
  {
    hide DepositParts, PreimageParts;
    forall c, a ensures Excess(v, c, a) >= 0 { assert Reserved(v.bank, c, a) >= Backing(w, c, a); }
  }

  /** Calls about ballots change nothing but the voting state. */
  lemma BallotCallFrame(cfg: Config, w: World, x: Action)
    requires cfg.launchPeriod > 0 && IsBallotCall(x)
    ensures Step(cfg, w, x) == w.(voting := Step(cfg, w, x).voting)
  {
    hide TryVote, TryRemoveVote, TryDelegate, TryUndelegate, UpdateLock;
  }

  lemma PlainCallKeepsQueue(cfg: Config, w: World, x: Action)
    requires cfg.launchPeriod > 0 && !x.CallPropose? && !x.CallCancelProposal? && !x.CallBlacklist? && !x.NextBlock?
    ensures var v := Step(cfg, w, x);
            && v.deposits.Keys == w.deposits.Keys && v.proposalCount == w.proposalCount
            && (v.proposals == w.proposals || v.proposals == [])
  {
    if IsBallotCall(x) {
      BallotCallFrame(cfg, w, x);
      hide Step;
    } else {
      hide Insert, Reserve, Unreserve, SlashReserved, Repatriate, Inject, Cancel;
    }
  }

  lemma StepKeepsQueue(cfg: Config, w: World, x: Action)
    requires cfg.launchPeriod > 0 && QueueOk(w)
    ensures QueueOk(Step(cfg, w, x))
  {
    hide QueueOk, LaunchNext, BakeAll, Due, CancelProposal, Blacklist, Propose;
    match x
    case CallPropose(who, h, c, value) =>
      if Propose(cfg, w, who, h, c, value).Ok? { ProposeKeepsQueue(cfg, w, who, h, c, value); }
    case CallCancelProposal(i) => CancelProposalKeepsQueue(w, i);
    case CallBlacklist(h, which) => BlacklistKeepsQueue(w, h, which);
    case NextBlock(issuance) =>
      var t := Tick(w);
      SameQueue(w, t);
      LaunchKeepsQueue(cfg, t);
      BakeAllKeepsQueue(cfg, Launched(cfg, t), Due(Launched(cfg, t)), issuance);
      SameQueue(Launched(cfg, t), Step(cfg, w, x));
    case _ =>
      PlainCallKeepsQueue(cfg, w, x);
      hide Step;
      SameQueue(w, Step(cfg, w, x));
  }

  /** On every run the reserves stay backed; without interference from other modules what is
      reserved moves exactly with what is recorded. */
  lemma {:induction false} DepositsOverRuns(cfg: Config, w: World, run: seq<Action>)
    requires cfg.launchPeriod > 0 && LegalRun(cfg, w, run) && Backed(w) && QueueOk(w)
    ensures Backed(Run(cfg, w, run)) && QueueOk(Run(cfg, w, run))
    ensures (forall i :: 0 <= i < |run| ==> !run[i].Elsewhere?) ==> ExcessKept(w, Run(cfg, w, run))
    decreases |run|
  {
    hide Step, Excess, QueueOk;
    if run == [] {
      SameDeposits(w, w);
    } else {
      var v := Step(cfg, w, run[0]);
      StepKeepsDeposits(cfg, w, run[0]);
      StepKeepsQueue(cfg, w, run[0]);
      DepositsOverRuns(cfg, v, run[1..]);
      if forall i :: 0 <= i < |run| ==> !run[i].Elsewhere? {
        assert forall i :: 0 <= i < |run[1..]| ==> run[1..][i] == run[i + 1];
        KeptTwice(w, v, Run(cfg, w, run));
      }
    }
  }

  // ----- referenda -----

  /** The same referenda at the same stage; only tallies may differ. */
  ghost predicate SameStages(s: State, t: State) {
    && t.count == s.count && t.now == s.now && t.referenda.Keys == s.referenda.Keys
    && forall r :: r in s.referenda ==>
         if s.referenda[r].Finished? then t.referenda[r] == s.referenda[r]
         else t.referenda[r].Ongoing?
              && t.referenda[r].status == s.referenda[r].status.(tally := t.referenda[r].status.tally)
  }

  lemma VoteKeepsStages(cfg: Config, s: State, who: AccountId, r: nat, v: AccountVote, free: nat, scope: Scope)
    ensures TryVote(cfg, s, who, r, v, free).Ok? ==> SameStages(s, TryVote(cfg, s, who, r, v, free).value)
    ensures TryRemoveVote(cfg, s, who, r, scope).Ok? ==> SameStages(s, TryRemoveVote(cfg, s, who, r, scope).value)
  {
    hide Find, Put, Drop, Uncount, Recount, LockEnd;
  }

  lemma UpstreamKeepsStages(s: State, target: AccountId, d: Delegations, up: bool)
    ensures SameStages(s, Upstream(s, target, d, up))
  {
    hide Find, Increase, Reduce;
  }

  lemma DelegateKeepsStages(cfg: Config, s: State, who: AccountId, target: AccountId, c: Conviction, balance: nat,
                            free: nat)
    ensures TryDelegate(cfg, s, who, target, c, balance, free).Ok? ==>
              SameStages(s, TryDelegate(cfg, s, who, target, c, balance, free).value)
    ensures TryUndelegate(cfg, s, who).Ok? ==> SameStages(s, TryUndelegate(cfg, s, who).value)
  {
    hide Upstream;
    var b, mid := BallotOf(s, who), Released(cfg, s, who);
    if b.Delegating? { UpstreamKeepsStages(s, b.target, cfg.votesOf(b.conviction, b.balance), false); }
    UpstreamKeepsStages(mid, target, cfg.votesOf(c, balance), true);
  }

  lemma BallotCallsKeepReferenda(cfg: Config, w: World, x: Action)
    requires cfg.launchPeriod > 0 && IsBallotCall(x)
    ensures SameStages(w.voting, Step(cfg, w, x).voting)
  {
    hide TryVote, TryRemoveVote, TryDelegate, TryUndelegate, LockedBalance;
    var s := w.voting;
    match x
    case CallVote(who, r, v, free) => VoteKeepsStages(cfg, s, who, r, v, free, AnyVote);
    case CallRemoveVote(who, r, scope) => VoteKeepsStages(cfg, s, who, r, Split(0, 0), 0, scope);
    case CallDelegate(who, target, c, balance, free) => DelegateKeepsStages(cfg, s, who, target, c, balance, free);
    case CallUndelegate(who) => DelegateKeepsStages(cfg, s, who, who, NoConviction, 0, 0);
    case CallUnlock(_) =>
  }

  lemma StepIsLater(cfg: Config, w: World, x: Action)
    requires cfg.launchPeriod > 0 && WellFormed(w.voting)
    ensures Later(w.voting, Step(cfg, w, x).voting)
  {
    hide Step, WellFormed;
    if IsBallotCall(x) { BallotCallsKeepReferenda(cfg, w, x); } else { OtherCallsAreLater(cfg, w, x); }
  }

  lemma OtherCallsAreLater(cfg: Config, w: World, x: Action)
    requires cfg.launchPeriod > 0 && WellFormed(w.voting) && !IsBallotCall(x)
    ensures Later(w.voting, Step(cfg, w, x).voting)
  {
    hide BeginBlock, Step;
    WellFormedIsIndexed(w.voting);
    if x.NextBlock? {
      NextBlockStep(cfg, w, x.issuance);
      OnTime(cfg, Tick(w), x.issuance);
    } else {
      PlainCall(cfg, w, x);
    }
  }

  /** Indices are never reused and nothing that has ended begins again, on any run. */
  lemma {:induction false} ReferendaOverRuns(cfg: Config, w: World, run: seq<Action>)
    requires cfg.launchPeriod > 0 && WellFormed(w.voting)
    ensures Later(w.voting, Run(cfg, w, run).voting) && WellFormed(Run(cfg, w, run).voting)
    decreases |run|
  {
    hide Step, WellFormed;
    if run != [] {
      var v := Step(cfg, w, run[0]);
      StepIsLater(cfg, w, run[0]);
      StepKeepsWellFormed(cfg, w, run[0]);
      ReferendaOverRuns(cfg, v, run[1..]);
      LaterTransitive(w.voting, v.voting, Run(cfg, w, run).voting);
    }
  }

  /** A fast-tracked referendum is open for at least one block, and when a block begins every due
      referendum has its preimage at hand. */
  ghost predicate Punctual(cfg: Config, w: World, x: Action)
    requires cfg.launchPeriod > 0
  {
    && (x.CallFastTrack? ==> x.period > 0)
    && (x.NextBlock? ==> var v := Launched(cfg, Tick(w)); AtHand(cfg, v, Due(v), x.issuance))
  }

  lemma StepStaysOnTime(cfg: Config, w: World, x: Action)
    requires cfg.launchPeriod > 0 && WellFormed(w.voting) && NoneOverdue(w) && Punctual(cfg, w, x)
    ensures NoneOverdue(Step(cfg, w, x))
  {
    if x.NextBlock? {
      NextBlockStep(cfg, w, x.issuance);
      hide Step;
      BlockStaysOnTime(cfg, w, x.issuance);
    } else if IsBallotCall(x) {
      BallotCallsKeepReferenda(cfg, w, x);
      TimePasses(cfg, w, x);
      hide Step, WellFormed, Later;
      var v := Step(cfg, w, x);
      forall r | OngoingStatus(v.voting, r).Some? ensures OngoingStatus(v.voting, r).value.end > v.voting.now {
        assert OngoingStatus(w.voting, r).Some?;
      }
    } else {
      OtherCallsStayOnTime(cfg, w, x);
    }
  }

  lemma BlockStaysOnTime(cfg: Config, w: World, issuance: map<CurrencyId, nat>)
    requires cfg.launchPeriod > 0 && WellFormed(w.voting) && NoneOverdue(w) && Punctual(cfg, w, NextBlock(issuance))
    ensures NoneOverdue(BeginBlock(cfg, Tick(w), issuance).0)
  {
    hide BakeAll, Launched, Due, AtHand;
    var t := Tick(w);
    WellFormedIsIndexed(w.voting);
    assert NoneMissed(t) by {
      forall r | OngoingStatus(t.voting, r).Some? ensures OngoingStatus(t.voting, r).value.end >= t.voting.now {
        assert OngoingStatus(w.voting, r) == OngoingStatus(t.voting, r);
      }
    }
    OnTime(cfg, t, issuance);
    var v := Launched(cfg, t);
    BakesExactlyWhenAtHand(cfg, v, Due(v), issuance);
  }

  lemma OtherCallsStayOnTime(cfg: Config, w: World, x: Action)
    requires cfg.launchPeriod > 0 && NoneOverdue(w) && Punctual(cfg, w, x)
    requires !x.NextBlock? && !IsBallotCall(x)
    ensures NoneOverdue(Step(cfg, w, x))
  {
    hide Step, AtHand;
    PlainCall(cfg, w, x);
    var v := Step(cfg, w, x);
    forall r | OngoingStatus(v.voting, r).Some? ensures OngoingStatus(v.voting, r).value.end > v.voting.now {
      assert OngoingStatus(w.voting, r).Some? ==> OngoingStatus(w.voting, r).value.end > w.voting.now;
    }
  }

  ghost predicate PunctualRun(cfg: Config, w: World, run: seq<Action>)
    requires cfg.launchPeriod > 0
    decreases |run|
  {
    run == [] || (Punctual(cfg, w, run[0]) && PunctualRun(cfg, Step(cfg, w, run[0]), run[1..]))
  }

  /** On every punctual run no referendum is ever ongoing past its end. */
  lemma {:induction false} OnTimeOverRuns(cfg: Config, w: World, run: seq<Action>)
    requires cfg.launchPeriod > 0 && WellFormed(w.voting) && NoneOverdue(w) && PunctualRun(cfg, w, run)
    ensures NoneOverdue(Run(cfg, w, run))
    decreases |run|
  {
    hide Step, WellFormed, Punctual, NoneOverdue;
    if run != [] {
      StepStaysOnTime(cfg, w, run[0]);
      StepKeepsWellFormed(cfg, w, run[0]);
      OnTimeOverRuns(cfg, Step(cfg, w, run[0]), run[1..]);
    }
  }

  /** `r` is ongoing although its end has passed. */
  predicate Overdue(s: State, r: nat) { OngoingStatus(s, r).Some? && OngoingStatus(s, r).value.end <= s.now }

  lemma StepKeepsOverdue(cfg: Config, w: World, x: Action, r: nat)
    requires cfg.launchPeriod > 0 && WellFormed(w.voting) && Overdue(w.voting, r) && CancelledBy(x) != Some(r)
    ensures Overdue(Step(cfg, w, x).voting, r)
  {
    hide BeginBlock, Step;
    TimePasses(cfg, w, x);
    if IsBallotCall(x) {
      BallotCallsKeepReferenda(cfg, w, x);
    } else if x.NextBlock? {
      WellFormedIsIndexed(w.voting);
      NextBlockStep(cfg, w, x.issuance);
      BlockSkipsOverdue(cfg, Tick(w), x.issuance, r);
    } else {
      PlainCall(cfg, w, x);
    }
  }

  lemma BlockSkipsOverdue(cfg: Config, w: World, issuance: map<CurrencyId, nat>, r: nat)
    requires cfg.launchPeriod > 0 && Indexed(w.voting)
    requires OngoingStatus(w.voting, r).Some? && OngoingStatus(w.voting, r).value.end < w.voting.now
    ensures OngoingStatus(BeginBlock(cfg, w, issuance).0.voting, r) == OngoingStatus(w.voting, r)
  {
    hide Launched, BakeAll, Due;
    var v := Launched(cfg, w);
    LaunchKeepsReferendum(cfg, w, r);
    LaunchedReferenda(cfg, w);
    DueIsDistinct(v);
    BakeAllOutcome(cfg, v, Due(v), issuance);
    assert !Matures(v, r);
    assert !InDue(Due(v), r);
  }

  /** A referendum that was missed once is never decided: it stays ongoing until it is cancelled. */
  lemma {:induction false} MissedIsNeverDecided(cfg: Config, w: World, run: seq<Action>, r: nat)
    requires cfg.launchPeriod > 0 && WellFormed(w.voting) && Overdue(w.voting, r)
    requires forall i :: 0 <= i < |run| ==> CancelledBy(run[i]) != Some(r)
    ensures Overdue(Run(cfg, w, run).voting, r)
    decreases |run|
  {
    hide Step, WellFormed, Overdue;
    if run != [] {
      StepKeepsOverdue(cfg, w, run[0], r);
      StepKeepsWellFormed(cfg, w, run[0]);
      assert forall i :: 0 <= i < |run[1..]| ==> run[1..][i] == run[i + 1];
      MissedIsNeverDecided(cfg, Step(cfg, w, run[0]), run[1..], r);
    }
  }

  // ----- whose turn it is -----

  /** A block in which something may be tabled. */
  predicate LaunchSlot(cfg: Config, w: World, x: Action)
    requires cfg.launchPeriod > 0
  {
    x.NextBlock? && IsLaunchSlot(cfg, w.voting.now + 1)
  }

  function TabledIn(cfg: Config, w: World): Tabled { LaunchNext(cfg, Tick(w)).1 }

  lemma StepKeepsTurn(cfg: Config, w: World, x: Action)
    requires cfg.launchPeriod > 0
    ensures Step(cfg, w, x).lastWasExternal == if LaunchSlot(cfg, w, x) then TabledIn(cfg, w) == External else w.lastWasExternal
  {
    hide Step, LaunchNext;
    if x.NextBlock? {
      NextBlockStep(cfg, w, x.issuance);
      BlockTurn(cfg, Tick(w), x.issuance);
      TurnTaken(cfg, Tick(w));
    } else {
      CallKeepsTurn(cfg, w, x);
    }
  }

  lemma BlockTurn(cfg: Config, w: World, issuance: map<CurrencyId, nat>)
    requires cfg.launchPeriod > 0
    ensures BeginBlock(cfg, w, issuance).0.lastWasExternal == Launched(cfg, w).lastWasExternal
  {
    hide Launched, Due, BakeAll;
    BakeAllKeepsQueue(cfg, Launched(cfg, w), Due(Launched(cfg, w)), issuance);
  }

  lemma CallKeepsTurn(cfg: Config, w: World, x: Action)
    requires cfg.launchPeriod > 0 && !x.NextBlock?
    ensures Step(cfg, w, x).lastWasExternal == w.lastWasExternal
  {
    if IsBallotCall(x) {
      BallotCallFrame(cfg, w, x);
    } else {
      hide SlashAll, Retain, Insert, PositionOf, Reserve, Unreserve, SlashReserved, Repatriate, Inject, Cancel;
    }
  }

  ghost predicate NoSlotIn(cfg: Config, w: World, run: seq<Action>)
    requires cfg.launchPeriod > 0
    decreases |run|
  {
    run == [] || (!LaunchSlot(cfg, w, run[0]) && NoSlotIn(cfg, Step(cfg, w, run[0]), run[1..]))
  }

  lemma {:induction false} TurnWaits(cfg: Config, w: World, run: seq<Action>)
    requires cfg.launchPeriod > 0 && NoSlotIn(cfg, w, run)
    ensures Run(cfg, w, run).lastWasExternal == w.lastWasExternal
    decreases |run|
  {
    hide Step, LaunchSlot;
    if run != [] {
      StepKeepsTurn(cfg, w, run[0]);
      TurnWaits(cfg, Step(cfg, w, run[0]), run[1..]);
    }
  }

  /** Two consecutive launch slots never both table an external proposal while a public one waits
      at the second, nor both a public one while an external one waits; when both wait, the queue
      that did not go last goes now. */
  lemma ConsecutiveSlotsAlternate(cfg: Config, w: World, x: Action, between: seq<Action>)
    requires cfg.launchPeriod > 0 && LaunchSlot(cfg, w, x) && NoSlotIn(cfg, Step(cfg, w, x), between)
    ensures var u := Run(cfg, Step(cfg, w, x), between);
            && (TabledIn(cfg, w) == External && TabledIn(cfg, u) == External ==> u.proposals == [])
            && (TabledIn(cfg, w).Public? && TabledIn(cfg, u).Public? ==> u.nextExternal.None?)
            && (u.proposals != [] && u.nextExternal.Some? ==>
                  (TabledIn(cfg, u) == External <==> TabledIn(cfg, w) != External))
  {
    hide Step, LaunchNext;
    var v := Step(cfg, w, x);
    var u := Run(cfg, v, between);
    StepKeepsTurn(cfg, w, x);
    TurnWaits(cfg, v, between);
    TurnTaken(cfg, Tick(w));
    TurnTaken(cfg, Tick(u));
  }

  /** Across an empty slot the alternation is lost: the flag is cleared although nothing was tabled,
      so the next slot serves the external queue whenever something waits there, whatever went
      before the empty slot and whether or not a public proposal waits too. */
  lemma EmptySlotForgetsTheTurn(cfg: Config, w: World, x: Action, between: seq<Action>)
    requires cfg.launchPeriod > 0 && LaunchSlot(cfg, w, x) && NoSlotIn(cfg, Step(cfg, w, x), between)
    requires TabledIn(cfg, w) == Nothing
    ensures var u := Run(cfg, Step(cfg, w, x), between);
            && (u.nextExternal.Some? <==> TabledIn(cfg, u) == External)
            && (u.nextExternal.None? && u.proposals != [] <==> TabledIn(cfg, u).Public?)
  {
    hide Step, LaunchNext;
    var v := Step(cfg, w, x);
    StepKeepsTurn(cfg, w, x);
    TurnWaits(cfg, v, between);
    TurnTaken(cfg, Tick(Run(cfg, v, between)));
  }

  /** What a slot tables from the public queue has the most backing and becomes a referendum; the
      rest of the queue is kept. */
  lemma PublicSlot(cfg: Config, w: World)
    requires QueueOk(w) && TabledIn(cfg, w).Public?
    ensures var p, v := TabledIn(cfg, w).proposal, LaunchNext(cfg, Tick(w)).0;
            && p in w.proposals
            && (forall q :: q in w.proposals ==> BackingFor(w, q.index) <= BackingFor(w, p.index))
            && multiset(v.proposals) == multiset(w.proposals) - multiset{p}
            && OngoingStatus(v.voting, w.voting.count).Some?
            && OngoingStatus(v.voting, w.voting.count).value.proposal == p.hash
  {
    hide LaunchPublic, BackingFor;
    var cleared := Tick(w).(lastWasExternal := false);
    TurnTaken(cfg, Tick(w));
    PublicTabling(cfg, cleared);
    forall i ensures BackingFor(cleared, i) == BackingFor(w, i) { SameBacking(cleared, w, i); }
  }

  lemma SameBacking(w: World, v: World, i: nat)
    requires v.deposits == w.deposits
    ensures BackingFor(v, i) == BackingFor(w, i)
  {}
}
