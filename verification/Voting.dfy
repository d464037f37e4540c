/** Referenda, votes, delegations and conviction locks of the democracy module: the storage and
    the effect of each voting operation on it. */
module Voting {
  import opened Numbers
  import opened Wrappers

  type AccountId = nat
  type Hash = nat
  type CurrencyId = nat

  /** How strongly a vote is held. The voting power and the lock periods of each grade come from
      the runtime's configuration; nothing here depends on their values. */
  datatype Conviction = NoConviction | Locked1x | Locked2x | Locked3x | Locked4x | Locked5x | Locked6x

  datatype Delegations = Delegations(votes: nat, capital: nat)

  datatype Config = Config(
    votesOf: (Conviction, nat) -> Delegations,
    lockPeriods: Conviction -> nat,
    enactmentPeriod: nat,
    votingPeriod: nat,
    launchPeriod: nat,
    cooloffPeriod: nat,
    maxVotes: nat,
    maxProposals: nat,
    minimumDeposit: CurrencyId -> nat,
    governanceCurrencies: set<CurrencyId>,
    byteDeposit: nat,
    approved: (Threshold, Tally, nat) -> bool,
    hashOf: seq<nat> -> Hash,
    decodes: seq<nat> -> bool)

  datatype AccountVote =
    | Standard(aye: bool, conviction: Conviction, balance: nat)
    | Split(ayeBalance: nat, nayBalance: nat)

  function VoteBalance(v: AccountVote): nat {
    match v
    case Standard(_, _, b) => b
    case Split(a, n) => a + n
  }

  /** What a vote locks once the outcome is known: only a standard vote on the winning side does. */
  function LockedIf(cfg: Config, v: AccountVote, approved: bool): Option<(nat, nat)> {
    match v
    case Standard(aye, c, b) => if aye == approved then Some((cfg.lockPeriods(c), b)) else None
    case Split(_, _) => None
  }

  datatype Tally = Tally(ayes: nat, nays: nat, turnout: nat)

  datatype Threshold = SuperMajorityApprove | SuperMajorityAgainst | SimpleMajority

  datatype Status = Status(end: nat, proposal: Hash, threshold: Threshold, delay: nat, tally: Tally)

  datatype Referendum = Ongoing(status: Status) | Finished(end: nat, approved: bool)

  datatype PriorLock = PriorLock(until: nat, amount: nat)

  datatype Entry = Entry(index: nat, vote: AccountVote)

  datatype Ballot =
    | Direct(votes: seq<Entry>, delegations: Delegations, prior: PriorLock)
    | Delegating(balance: nat, target: AccountId, conviction: Conviction, delegations: Delegations, prior: PriorLock)

  const NOTHING := Delegations(0, 0)
  const DEFAULT_BALLOT := Direct([], NOTHING, PriorLock(0, 0))

  datatype State = State(
    ballots: map<AccountId, Ballot>,
    referenda: map<nat, Referendum>,
    count: nat,
    locks: map<AccountId, nat>,
    now: nat)

  datatype Error =
    | ReferendumInvalid
    | InsufficientFunds
    | AlreadyDelegating
    | MaxVotesReached
    | NotVoter
    | NoPermission
    | VotesExist
    | NotDelegating
    | Nonsense
    | Underflow
    | Overflow

  function BallotOf(s: State, a: AccountId): Ballot {
    if a in s.ballots then s.ballots[a] else DEFAULT_BALLOT
  }

  function LockOf(s: State, a: AccountId): nat { if a in s.locks then s.locks[a] else 0 }

  // ----- tallies -----

  /** A vote's own power. */
  function Power(cfg: Config, v: AccountVote): Tally {
    match v
    case Standard(aye, c, b) => Directed(aye, cfg.votesOf(c, b))
    case Split(a, n) =>
      var ayes, nays := cfg.votesOf(NoConviction, a), cfg.votesOf(NoConviction, n);
      Tally(ayes.votes, nays.votes, ayes.capital + nays.capital)
  }

  function Directed(aye: bool, d: Delegations): Tally {
    if aye then Tally(d.votes, 0, d.capital) else Tally(0, d.votes, d.capital)
  }

  function AddChecked(t: Tally, p: Tally): Option<Tally> {
    if t.ayes + p.ayes <= U128_MAX && t.nays + p.nays <= U128_MAX && t.turnout + p.turnout <= U128_MAX then
      Some(Tally(t.ayes + p.ayes, t.nays + p.nays, t.turnout + p.turnout))
    else None
  }

  function RemoveChecked(t: Tally, p: Tally): Option<Tally> {
    if t.ayes >= p.ayes && t.nays >= p.nays && t.turnout >= p.turnout then
      Some(Tally(t.ayes - p.ayes, t.nays - p.nays, t.turnout - p.turnout))
    else None
  }

  function Plus(a: nat, b: nat): nat { Saturate(a + b) }

  function Increase(t: Tally, aye: bool, d: Delegations): Tally {
    if aye then Tally(Plus(t.ayes, d.votes), t.nays, Plus(t.turnout, d.capital))
    else Tally(t.ayes, Plus(t.nays, d.votes), Plus(t.turnout, d.capital))
  }

  function Reduce(t: Tally, aye: bool, d: Delegations): Tally {
    if aye then Tally(SatSub(t.ayes, d.votes), t.nays, SatSub(t.turnout, d.capital))
    else Tally(t.ayes, SatSub(t.nays, d.votes), SatSub(t.turnout, d.capital))
  }

  // ----- vote vectors -----

  /** Where a search for referendum `r` in a vector sorted by index ends up. */
  function Position(votes: seq<Entry>, r: nat): (i: nat)
    ensures i <= |votes|
  {
    if votes == [] || votes[0].index >= r then 0 else 1 + Position(votes[1..], r)
  }

  function Find(votes: seq<Entry>, r: nat): Option<AccountVote> {
    var i := Position(votes, r);
    if i < |votes| && votes[i].index == r then Some(votes[i].vote) else None
  }

  function Put(votes: seq<Entry>, r: nat, v: AccountVote): seq<Entry> {
    var i := Position(votes, r);
    if i < |votes| && votes[i].index == r then votes[i := Entry(r, v)]
    else votes[..i] + [Entry(r, v)] + votes[i..]
  }

  function Drop(votes: seq<Entry>, r: nat): seq<Entry> {
    var i := Position(votes, r);
    if i < |votes| && votes[i].index == r then votes[..i] + votes[i + 1..] else votes
  }

  // ----- voting -----

  function OngoingStatus(s: State, r: nat): Option<Status> {
    if r in s.referenda && s.referenda[r].Ongoing? then Some(s.referenda[r].status) else None
  }

  function WithTally(st: Status, t: Tally): Referendum { Ongoing(st.(tally := t)) }

  /** Takes a recorded vote, and the delegations it carries, out of a tally. */
  function Uncount(cfg: Config, t: Tally, v: AccountVote, d: Delegations): Option<Tally> {
    match RemoveChecked(t, Power(cfg, v))
    case None => None
    case Some(u) => Some(if v.Standard? then Reduce(u, v.aye, d) else u)
  }

  function Recount(cfg: Config, t: Tally, v: AccountVote, d: Delegations): Option<Tally> {
    match AddChecked(t, Power(cfg, v))
    case None => None
    case Some(u) => Some(if v.Standard? then Increase(u, v.aye, d) else u)
  }

  function TryVote(cfg: Config, s: State, who: AccountId, r: nat, v: AccountVote, free: nat): Result<State, Error> {
    var b := BallotOf(s, who);
    if OngoingStatus(s, r).None? then Err(ReferendumInvalid)
    else if VoteBalance(v) > free then Err(InsufficientFunds)
    else if b.Delegating? then Err(AlreadyDelegating)
    else
      var st, previous := OngoingStatus(s, r).value, Find(b.votes, r);
      var without := if previous.Some? then Uncount(cfg, st.tally, previous.value, b.delegations) else Some(st.tally);
      if without.None? then Err(Underflow)
      else if previous.None? && |b.votes| > cfg.maxVotes then Err(MaxVotesReached)
      else match Recount(cfg, without.value, v, b.delegations)
        case None => Err(Overflow)
        case Some(t) =>
          Ok(s.(ballots := s.ballots[who := b.(votes := Put(b.votes, r, v))],
                locks := s.locks[who := Max(LockOf(s, who), VoteBalance(v))],
                referenda := s.referenda[r := WithTally(st, t)]))
  }

  function Accumulate(p: PriorLock, until: nat, amount: nat): PriorLock {
    PriorLock(Max(p.until, until), Max(p.amount, amount))
  }

  function Rejig(p: PriorLock, now: nat): PriorLock {
    if now >= p.until then PriorLock(0, 0) else p
  }

  datatype Scope = AnyVote | OnlyExpired

  /** When the lock of a vote on a finished referendum ends, and how much it holds. */
  function LockEnd(cfg: Config, r: Referendum, v: AccountVote): Option<(nat, nat)>
    requires r.Finished?
  {
    match LockedIf(cfg, v, r.approved)
    case None => None
    case Some((periods, amount)) => Some((r.end + cfg.enactmentPeriod * periods, amount))
  }

  function TryRemoveVote(cfg: Config, s: State, who: AccountId, r: nat, scope: Scope): Result<State, Error> {
    var b := BallotOf(s, who);
    if b.Delegating? then Ok(s)
    else if Find(b.votes, r).None? then Err(NotVoter)
    else
      var v, without := Find(b.votes, r).value, b.(votes := Drop(b.votes, r));
      if r !in s.referenda then Ok(s.(ballots := s.ballots[who := without]))
      else match s.referenda[r]
        case Ongoing(st) =>
          if scope != AnyVote then Err(NoPermission)
          else
            var t := Uncount(cfg, st.tally, v, b.delegations);
            if t.None? then Err(Underflow)
            else Ok(s.(ballots := s.ballots[who := without],
                       referenda := s.referenda[r := WithTally(st, t.value)]))
        case Finished(_, _) =>
          match LockEnd(cfg, s.referenda[r], v)
          case None => Ok(s.(ballots := s.ballots[who := without]))
          case Some((until, amount)) =>
            if s.now >= until then Ok(s.(ballots := s.ballots[who := without]))
            else if scope != AnyVote then Err(NoPermission)
            else
              var locked := Direct(without.votes, b.delegations, Accumulate(b.prior, until, amount));
              Ok(s.(ballots := s.ballots[who := locked]))
  }

  /** Removing a vote for somebody else is limited to expired votes. */
  function TryRemoveOtherVote(cfg: Config, s: State, signer: AccountId, target: AccountId, r: nat): Result<State, Error> {
    TryRemoveVote(cfg, s, target, r, if target == signer then AnyVote else OnlyExpired)
  }

  // ----- delegating -----

  /** Every ongoing referendum the account has a standard vote on follows a change of its
      delegations. */
  function Following(referenda: map<nat, Referendum>, votes: seq<Entry>, d: Delegations, up: bool)
    : map<nat, Referendum>
  {
    map r | r in referenda :: Followed(referenda[r], Find(votes, r), d, up)
  }

  function Followed(ref: Referendum, v: Option<AccountVote>, d: Delegations, up: bool): Referendum {
    if ref.Ongoing? && v.Some? && v.value.Standard? then
      WithTally(ref.status, if up then Increase(ref.status.tally, v.value.aye, d)
                            else Reduce(ref.status.tally, v.value.aye, d))
    else ref
  }

  function AddDelegations(x: Delegations, d: Delegations): Delegations {
    Delegations(Plus(x.votes, d.votes), Plus(x.capital, d.capital))
  }

  function SubDelegations(x: Delegations, d: Delegations): Delegations {
    Delegations(SatSub(x.votes, d.votes), SatSub(x.capital, d.capital))
  }

  function Upstream(s: State, target: AccountId, d: Delegations, up: bool): State {
    var b := BallotOf(s, target);
    var changed := if up then AddDelegations(b.delegations, d) else SubDelegations(b.delegations, d);
    s.(ballots := s.ballots[target := b.(delegations := changed)],
       referenda := if b.Direct? then Following(s.referenda, b.votes, d, up) else s.referenda)
  }

  function TryDelegate(cfg: Config, s: State, who: AccountId, target: AccountId, c: Conviction, balance: nat, free: nat)
    : Result<State, Error>
  {
    var b := BallotOf(s, who);
    if who == target then Err(Nonsense)
    else if balance > free then Err(InsufficientFunds)
    else if b.Direct? && b.votes != [] then Err(VotesExist)
    else
      var released := if b.Delegating? then Upstream(s, b.target, cfg.votesOf(b.conviction, b.balance), false) else s;
      var raised := Upstream(released, target, cfg.votesOf(c, balance), true);
      Ok(raised.(ballots := raised.ballots[who := Delegating(balance, target, c, b.delegations, b.prior)],
                 locks := s.locks[who := Max(LockOf(s, who), balance)]))
  }

  function TryUndelegate(cfg: Config, s: State, who: AccountId): Result<State, Error> {
    var b := BallotOf(s, who);
    if b.Direct? then Err(NotDelegating)
    else
      var released := Upstream(s, b.target, cfg.votesOf(b.conviction, b.balance), false);
      var until := s.now + cfg.enactmentPeriod * cfg.lockPeriods(b.conviction);
      Ok(released.(ballots := released.ballots[who := Direct([], b.delegations, Accumulate(b.prior, until, b.balance))]))
  }

  // ----- locks -----

  function Largest(votes: seq<Entry>): nat {
    if votes == [] then 0 else Max(VoteBalance(votes[0].vote), Largest(votes[1..]))
  }

  function LockedBalance(b: Ballot): nat {
    match b
    case Direct(votes, _, prior) => Max(Largest(votes), prior.amount)
    case Delegating(balance, _, _, _, prior) => Max(balance, prior.amount)
  }

  function UpdateLock(s: State, who: AccountId): State {
    var b := BallotOf(s, who);
    var rejigged := b.(prior := Rejig(b.prior, s.now));
    var needed := LockedBalance(rejigged);
    s.(ballots := s.ballots[who := rejigged],
       locks := if needed == 0 then s.locks - {who} else s.locks[who := needed])
  }

  // ----- referenda -----

  function Inject(s: State, end: nat, proposal: Hash, threshold: Threshold, delay: nat): State {
    s.(referenda := s.referenda[s.count := Ongoing(Status(end, proposal, threshold, delay, Tally(0, 0, 0)))],
       count := s.count + 1)
  }

  function Cancel(s: State, r: nat): State { s.(referenda := s.referenda - {r}) }

  function Finish(s: State, r: nat, approved: bool): State {
    s.(referenda := s.referenda[r := Finished(s.now, approved)])
  }
}
