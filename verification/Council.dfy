/** The democracy module as the runtime executes it: storage items updated in place, loops over
    votes, depositors and maturing referenda. Every method is proved against the specification in
    `Voting` or `Democracy`. */
module Council {
  import opened Numbers
  import opened Wrappers
  import opened Voting
  import opened VoteVectors
  import opened Democracy
  import opened Lifecycle

  /** Walking one entry further along a sorted vector lets exactly one more referendum follow. */
  lemma FollowOneMore(referenda: map<nat, Referendum>, votes: seq<Entry>, i: nat, d: Delegations, up: bool)
    requires Sorted(votes) && i < |votes|
    ensures var before, after := Following(referenda, votes[..i], d, up), Following(referenda, votes[..i + 1], d, up);
            var r := votes[i].index;
            && before.Keys == referenda.Keys
            && (r in referenda ==> before[r] == referenda[r])
            && after == if r in referenda then before[r := Followed(before[r], Some(votes[i].vote), d, up)] else before
  {
    hide Find, Followed, Sorted;
    NotYetFound(votes, i);
    forall q ensures Find(votes[..i + 1], q) == if q == votes[i].index then Some(votes[i].vote) else Find(votes[..i], q) {
      FindOneMore(votes, i, q);
    }
    NotFollowed(referenda, d, up);
  }

  lemma NotFollowed(referenda: map<nat, Referendum>, d: Delegations, up: bool)
    ensures forall r :: r in referenda ==> Followed(referenda[r], None, d, up) == referenda[r]
  {}

  lemma NotYetFound(votes: seq<Entry>, i: nat)
    requires Sorted(votes) && i < |votes|
    ensures Find(votes[..i], votes[i].index).None?
  {
    hide Find;
    FindsEntries(votes[..i], votes[i].index);
  }

  lemma FindOneMore(votes: seq<Entry>, i: nat, q: nat)
    requires Sorted(votes) && i < |votes|
    ensures Find(votes[..i + 1], q) == if q == votes[i].index then Some(votes[i].vote) else Find(votes[..i], q)
  {
    hide Find;
    var less, more := votes[..i], votes[..i + 1];
    FindFromMembership(less, q);
    FindFromMembership(more, q);
    assert more[i] == votes[i];
    assert forall e :: e in more <==> e in less || e == votes[i];
    var x, y := Find(less, q), Find(more, q);
    if x.Some? { assert Entry(q, x.value) in less; }
    if y.Some? { assert Entry(q, y.value) in more; }
  }

  lemma FollowNone(referenda: map<nat, Referendum>, d: Delegations, up: bool)
    ensures Following(referenda, [], d, up) == referenda
  {}

  /** The vector and the tally after a vote. */
  function Counted(cfg: Config, b: Ballot, r: nat, v: AccountVote, t: Tally): Result<(seq<Entry>, Tally), Error>
    requires b.Direct?
  {
    var previous := Find(b.votes, r);
    var without := if previous.Some? then Uncount(cfg, t, previous.value, b.delegations) else Some(t);
    if without.None? then Err(Underflow)
    else if previous.None? && |b.votes| > cfg.maxVotes then Err(MaxVotesReached)
    else match Recount(cfg, without.value, v, b.delegations)
      case None => Err(Overflow)
      case Some(u) => Ok((Put(b.votes, r, v), u))
  }

  lemma VoteCounts(cfg: Config, s: State, who: AccountId, r: nat, v: AccountVote, free: nat)
    ensures TryVote(cfg, s, who, r, v, free)
            == var b := BallotOf(s, who);
               if OngoingStatus(s, r).None? then Err(ReferendumInvalid)
               else if VoteBalance(v) > free then Err(InsufficientFunds)
               else if b.Delegating? then Err(AlreadyDelegating)
               else
                 var st := OngoingStatus(s, r).value;
                 var c := Counted(cfg, b, r, v, st.tally);
                 if c.Err? then Err(c.error)
                 else Ok(s.(ballots := s.ballots[who := b.(votes := c.value.0)],
                            locks := s.locks[who := Max(LockOf(s, who), VoteBalance(v))],
                            referenda := s.referenda[r := WithTally(st, c.value.1)]))
  {
    hide Uncount, Recount, Put, Find;
  }

  lemma CountedIsSorted(cfg: Config, b: Ballot, r: nat, v: AccountVote, t: Tally)
    requires b.Direct? && Sorted(b.votes) && Counted(cfg, b, r, v, t).Ok?
    ensures Sorted(Counted(cfg, b, r, v, t).value.0)
  {
    PutSorted(b.votes, r, v);
    hide Put, Sorted, Uncount, Recount;
  }

  /** How many votes of an account its delegations reach, as reported to whoever lends to it. */
  function UpstreamVotes(s: State, a: AccountId): nat {
    var b := BallotOf(s, a);
    if b.Direct? then |b.votes| else 1
  }

  class Pallet {
    var votingOf: map<AccountId, Ballot>
    var referendumInfoOf: map<nat, Referendum>
    var referendumCount: nat
    var locks: map<AccountId, nat>
    var now: nat
    var publicProps: seq<Proposal>
    var publicPropCount: nat
    var depositOf: map<nat, Deposit>
    var preimages: map<Hash, Preimage>
    var nextExternal: Option<(Hash, Threshold)>
    var lastTabledWasExternal: bool
    var blacklist: map<Hash, (nat, seq<AccountId>)>
    var cancellations: set<Hash>
    var bank: Bank
    const cfg: Config

    /** The part of the storage that voting works on. */
    function Ballots(): State
      reads this
    {
      State(votingOf, referendumInfoOf, referendumCount, locks, now)
    }

    function Storage(): World
      reads this
    {
      World(Ballots(), publicProps, publicPropCount, depositOf, preimages, nextExternal, lastTabledWasExternal,
            blacklist, cancellations, bank)
    }

    /** Every vote vector is sorted by referendum. */
    ghost predicate Valid()
      reads this
    {
      forall a :: a in votingOf && votingOf[a].Direct? ==> Sorted(votingOf[a].votes)
    }

    constructor (cfg: Config, bank: Bank)
      ensures Valid() && this.cfg == cfg
      ensures Storage() == World(State(map[], map[], 0, map[], 0), [], 0, map[], map[], None, false, map[], {}, bank)
    {
      votingOf, referendumInfoOf, referendumCount, locks, now := map[], map[], 0, map[], 0;
      publicProps, publicPropCount, depositOf, preimages := [], 0, map[], map[];
      nextExternal, lastTabledWasExternal, blacklist, cancellations := None, false, map[], {};
      this.cfg, this.bank := cfg, bank;
    }

    // ----- voting -----

    method ExtendLock(who: AccountId, amount: nat)
      modifies this`locks
      ensures locks == old(locks)[who := Max(old(LockOf(Ballots(), who)), amount)]
    {
      locks := locks[who := Max(LockOf(Ballots(), who), amount)];
    }

    /** Records a vote in a vector and counts it in a tally, a previous vote being counted out. */
    method CountVote(ballot: Ballot, r: nat, v: AccountVote, start: Tally)
      returns (res: Result<(seq<Entry>, Tally), Error>)
      requires ballot.Direct?
      ensures res == Counted(cfg, ballot, r, v, start)
    {
      hide Power, AddChecked, RemoveChecked, Increase, Reduce;
      var votes, i, tally := ballot.votes, Position(ballot.votes, r), start;
      if i < |votes| && votes[i].index == r {
        var without := RemoveChecked(tally, Power(cfg, votes[i].vote));
        if without.None? { return Err(Underflow); }
        tally := without.value;
        if votes[i].vote.Standard? { tally := Reduce(tally, votes[i].vote.aye, ballot.delegations); }
        votes := votes[i := Entry(r, v)];
      } else {
        if |votes| > cfg.maxVotes { return Err(MaxVotesReached); }
        votes := votes[..i] + [Entry(r, v)] + votes[i..];
      }
      var counted := AddChecked(tally, Power(cfg, v));
      if counted.None? { return Err(Overflow); }
      tally := counted.value;
      if v.Standard? { tally := Increase(tally, v.aye, ballot.delegations); }
      res := Ok((votes, tally));
    }

    method Vote(who: AccountId, r: nat, v: AccountVote, free: nat) returns (outcome: Result<(), Error>)
      requires Valid()
      modifies this`votingOf, this`referendumInfoOf, this`locks
      ensures Valid()
      ensures match TryVote(cfg, old(Ballots()), who, r, v, free)
              case Err(e) => outcome == Err(e) && Ballots() == old(Ballots())
              case Ok(t) => outcome == Ok(()) && Ballots() == t
    {
      hide TryVote, Counted, VoteBalance;
      VoteCounts(cfg, Ballots(), who, r, v, free);
      if r !in referendumInfoOf || !referendumInfoOf[r].Ongoing? { return Err(ReferendumInvalid); }
      var status := referendumInfoOf[r].status;
      if VoteBalance(v) > free { return Err(InsufficientFunds); }
      var ballot := BallotOf(Ballots(), who);
      if ballot.Delegating? { return Err(AlreadyDelegating); }
      var counted := CountVote(ballot, r, v, status.tally);
      if counted.Err? { return Err(counted.error); }
      var (votes, tally) := counted.value;
      CountedIsSorted(cfg, ballot, r, v, status.tally);
      hide Sorted;
      votingOf := votingOf[who := ballot.(votes := votes)];
      ExtendLock(who, VoteBalance(v));
      referendumInfoOf := referendumInfoOf[r := Ongoing(status.(tally := tally))];
      outcome := Ok(());
    }

    method RemoveVote(who: AccountId, r: nat, scope: Scope) returns (outcome: Result<(), Error>)
      requires Valid()
      modifies this`votingOf, this`referendumInfoOf
      ensures Valid()
      ensures match TryRemoveVote(cfg, old(Ballots()), who, r, scope)
              case Err(e) => outcome == Err(e) && Ballots() == old(Ballots())
              case Ok(t) => outcome == Ok(()) && Ballots() == t
    {
      var ballot := BallotOf(Ballots(), who);
      if ballot.Delegating? { return Ok(()); }
      DropSorted(ballot.votes, r);
      hide Sorted, Power, RemoveChecked, Reduce, LockedIf, Accumulate;
      var votes, i, prior := ballot.votes, Position(ballot.votes, r), ballot.prior;
      if !(i < |votes| && votes[i].index == r) { return Err(NotVoter); }
      var vote := votes[i].vote;
      if r in referendumInfoOf {
        match referendumInfoOf[r]
        case Ongoing(status) =>
          if scope != AnyVote { return Err(NoPermission); }
          var without := RemoveChecked(status.tally, Power(cfg, vote));
          if without.None? { return Err(Underflow); }
          var tally := without.value;
          if vote.Standard? { tally := Reduce(tally, vote.aye, ballot.delegations); }
          referendumInfoOf := referendumInfoOf[r := Ongoing(status.(tally := tally))];
        case Finished(end, approved) =>
          var locked := LockedIf(cfg, vote, approved);
          if locked.Some? {
            var until := end + cfg.enactmentPeriod * locked.value.0;
            if now < until {
              if scope != AnyVote { return Err(NoPermission); }
              prior := Accumulate(prior, until, locked.value.1);
            }
          }
      }
      assert votes[..i] + votes[i + 1..] == Drop(votes, r);
      votingOf := votingOf[who := Direct(votes[..i] + votes[i + 1..], ballot.delegations, prior)];
      outcome := Ok(());
    }

    /** The `remove_other_vote` call. */
    method RemoveOtherVote(signer: AccountId, target: AccountId, r: nat) returns (outcome: Result<(), Error>)
      requires Valid()
      modifies this`votingOf, this`referendumInfoOf
      ensures Valid()
      ensures match TryRemoveOtherVote(cfg, old(Ballots()), signer, target, r)
              case Err(e) => outcome == Err(e) && Ballots() == old(Ballots())
              case Ok(t) => outcome == Ok(()) && Ballots() == t
    {
      hide TryRemoveVote;
      var scope := if target == signer then AnyVote else OnlyExpired;
      outcome := RemoveVote(target, r, scope);
    }

    // ----- delegating -----

    /** Passes a change of delegations on to the ongoing referenda with a standard vote. */
    method FollowVotes(votes: seq<Entry>, amount: Delegations, up: bool)
      requires Sorted(votes)
      modifies this`referendumInfoOf
      ensures referendumInfoOf == Following(old(referendumInfoOf), votes, amount, up)
    {
      hide Following, Increase, Reduce;
      var i := 0;
      FollowNone(referendumInfoOf, amount, up);
      assert votes[..0] == [];
      while i < |votes|
        invariant 0 <= i <= |votes|
        invariant referendumInfoOf == Following(old(referendumInfoOf), votes[..i], amount, up)
      {
        FollowOneMore(old(referendumInfoOf), votes, i, amount, up);
        var r, vote := votes[i].index, votes[i].vote;
        if vote.Standard? && r in referendumInfoOf && referendumInfoOf[r].Ongoing? {
          var status := referendumInfoOf[r].status;
          var tally := if up then Increase(status.tally, vote.aye, amount) else Reduce(status.tally, vote.aye, amount);
          referendumInfoOf := referendumInfoOf[r := Ongoing(status.(tally := tally))];
        } else if r in referendumInfoOf {
          assert referendumInfoOf == referendumInfoOf[r := referendumInfoOf[r]];
        }
        i := i + 1;
      }
      assert votes[..i] == votes;
    }

    /** Changes the delegations an account holds, and every ongoing tally they count in. */
    method ChangeUpstream(target: AccountId, amount: Delegations, up: bool) returns (n: nat)
      requires Valid()
      modifies this`votingOf, this`referendumInfoOf
      ensures Valid()
      ensures Ballots() == Upstream(old(Ballots()), target, amount, up)
      ensures n == UpstreamVotes(old(Ballots()), target)
      ensures forall a :: UpstreamVotes(Ballots(), a) == UpstreamVotes(old(Ballots()), a)
    {
      var ballot := BallotOf(Ballots(), target);
      var changed := if up then AddDelegations(ballot.delegations, amount) else SubDelegations(ballot.delegations, amount);
      votingOf := votingOf[target := ballot.(delegations := changed)];
      if ballot.Delegating? { return 1; }
      FollowVotes(ballot.votes, amount, up);
      n := |ballot.votes|;
    }

    method Delegate(who: AccountId, target: AccountId, conviction: Conviction, balance: nat, free: nat)
      returns (outcome: Result<nat, Error>)
      requires Valid()
      modifies this`votingOf, this`referendumInfoOf, this`locks
      ensures Valid()
      ensures match TryDelegate(cfg, old(Ballots()), who, target, conviction, balance, free)
              case Err(e) => outcome == Err(e) && Ballots() == old(Ballots())
              case Ok(t) => outcome == Ok(UpstreamVotes(old(Ballots()), target)) && Ballots() == t
    {
      if who == target { return Err(Nonsense); }
      if balance > free { return Err(InsufficientFunds); }
      var was := BallotOf(Ballots(), who);
      match was {
        case Delegating(b, t, c, _, _) =>
          var _ := ChangeUpstream(t, cfg.votesOf(c, b), false);
        case Direct(votes, _, _) =>
          if votes != [] { return Err(VotesExist); }
      }
      var n := ChangeUpstream(target, cfg.votesOf(conviction, balance), true);
      ExtendLock(who, balance);
      votingOf := votingOf[who := Delegating(balance, target, conviction, was.delegations, was.prior)];
      outcome := Ok(n);
    }

    method Undelegate(who: AccountId) returns (outcome: Result<nat, Error>)
      requires Valid()
      modifies this`votingOf, this`referendumInfoOf
      ensures Valid()
      ensures match TryUndelegate(cfg, old(Ballots()), who)
              case Err(e) => outcome == Err(e) && Ballots() == old(Ballots())
              case Ok(t) => outcome == Ok(UpstreamVotes(old(Ballots()), old(BallotOf(Ballots(), who)).target)) && Ballots() == t
    {
      var was := BallotOf(Ballots(), who);
      if was.Direct? { return Err(NotDelegating); }
      var n := ChangeUpstream(was.target, cfg.votesOf(was.conviction, was.balance), false);
      var until := now + cfg.enactmentPeriod * cfg.lockPeriods(was.conviction);
      votingOf := votingOf[who := Direct([], was.delegations, Accumulate(was.prior, until, was.balance))];
      outcome := Ok(n);
    }

    method Unlock(who: AccountId)
      requires Valid()
      modifies this`votingOf, this`locks
      ensures Valid()
      ensures Ballots() == UpdateLock(old(Ballots()), who)
    {
      var ballot := BallotOf(Ballots(), who);
      ballot := ballot.(prior := Rejig(ballot.prior, now));
      votingOf := votingOf[who := ballot];
      var needed := LockedBalance(ballot);
      if needed == 0 { locks := locks - {who}; } else { locks := locks[who := needed]; }
    }

    method InjectReferendum(end: nat, proposal: Hash, threshold: Threshold, delay: nat) returns (r: nat)
      modifies this`referendumInfoOf, this`referendumCount
      ensures r == old(referendumCount) && Ballots() == Inject(old(Ballots()), end, proposal, threshold, delay)
    {
      r := referendumCount;
      referendumCount := r + 1;
      referendumInfoOf := referendumInfoOf[r := Ongoing(Status(end, proposal, threshold, delay, Tally(0, 0, 0)))];
    }

    method CancelReferendum(r: nat)
      modifies this`referendumInfoOf
      ensures Ballots() == Cancel(old(Ballots()), r)
    {
      referendumInfoOf := referendumInfoOf - {r};
    }

    method CallEmergencyCancel(r: nat) returns (outcome: Result<(), Refusal>)
      modifies this`cancellations, this`referendumInfoOf
      ensures match EmergencyCancel(old(Storage()), r)
              case Err(e) => outcome == Err(e) && Storage() == old(Storage())
              case Ok(t) => outcome == Ok(()) && Storage() == t
    {
      var status := OngoingStatus(Ballots(), r);
      if status.None? { return Err(BadReferendum); }
      var h := status.value.proposal;
      if h in cancellations { return Err(AlreadyCanceled); }
      cancellations := cancellations + {h};
      CancelReferendum(r);
      outcome := Ok(());
    }

    // ----- proposing -----

    method CallPropose(who: AccountId, h: Hash, c: CurrencyId, value: nat) returns (outcome: Result<(), Refusal>)
      modifies this`publicProps, this`publicPropCount, this`depositOf, this`bank
      ensures match Propose(cfg, old(Storage()), who, h, c, value)
              case Err(e) => outcome == Err(e) && Storage() == old(Storage())
              case Ok(t) => outcome == Ok(()) && Storage() == t
    {
      hide Reserve;
      if c !in cfg.governanceCurrencies { return Err(InvalidCurrencyType); }
      if value < cfg.minimumDeposit(c) { return Err(ValueLow); }
      var index := publicPropCount;
      if |publicProps| >= cfg.maxProposals { return Err(TooManyProposals); }
      if h in blacklist && now < blacklist[h].0 { return Err(ProposalBlacklisted); }
      var reserved := Reserve(bank, c, who, value);
      if reserved.None? { return Err(InsufficientBalance); }
      bank := reserved.value;
      publicPropCount := index + 1;
      depositOf := depositOf[index := Deposit([who], c, value)];
      publicProps := publicProps + [Proposal(index, h, who)];
      outcome := Ok(());
    }

    method CallSecond(who: AccountId, index: nat, c: CurrencyId, bound: nat) returns (outcome: Result<(), Refusal>)
      modifies this`depositOf, this`bank
      ensures match Second(cfg, old(Storage()), who, index, c, bound)
              case Err(e) => outcome == Err(e) && Storage() == old(Storage())
              case Ok(t) => outcome == Ok(()) && Storage() == t
    {
      if c !in cfg.governanceCurrencies { return Err(InvalidCurrencyType); }
      if index !in depositOf { return Err(ProposalMissing); }
      var deposit := depositOf[index];
      if |deposit.depositors| > bound { return Err(WrongUpperBound); }
      var reserved := Reserve(bank, deposit.currency, who, deposit.amount);
      if reserved.None? { return Err(InsufficientBalance); }
      bank := reserved.value;
      depositOf := depositOf[index := deposit.(depositors := deposit.depositors + [who])];
      outcome := Ok(());
    }

    method SlashDepositors(d: Deposit)
      modifies this`bank
      ensures bank == SlashAll(old(bank), d.currency, d.depositors, d.amount)
    {
      var i := 0;
      assert d.depositors[0..] == d.depositors;
      while i < |d.depositors|
        invariant 0 <= i <= |d.depositors|
        invariant SlashAll(bank, d.currency, d.depositors[i..], d.amount)
                  == SlashAll(old(bank), d.currency, d.depositors, d.amount)
      {
        assert d.depositors[i..][1..] == d.depositors[i + 1..];
        bank := SlashReserved(bank, d.currency, d.depositors[i], d.amount);
        i := i + 1;
      }
    }

    method RefundDepositors(d: Deposit)
      modifies this`bank
      ensures bank == UnreserveAll(old(bank), d.currency, d.depositors, d.amount)
    {
      var i := 0;
      assert d.depositors[0..] == d.depositors;
      while i < |d.depositors|
        invariant 0 <= i <= |d.depositors|
        invariant UnreserveAll(bank, d.currency, d.depositors[i..], d.amount)
                  == UnreserveAll(old(bank), d.currency, d.depositors, d.amount)
      {
        assert d.depositors[i..][1..] == d.depositors[i + 1..];
        bank := Unreserve(bank, d.currency, d.depositors[i], d.amount);
        i := i + 1;
      }
    }

    /** Forgets a deposit and slashes its depositors. */
    method TakeAndSlash(index: nat)
      modifies this`depositOf, this`bank
      ensures Storage() == SlashDeposit(old(Storage()), index)
    {
      if index !in depositOf { return; }
      var d := depositOf[index];
      depositOf := depositOf - {index};
      SlashDepositors(d);
    }

    method CallCancelProposal(index: nat)
      modifies this`publicProps, this`depositOf, this`bank
      ensures Storage() == CancelProposal(old(Storage()), index)
    {
      publicProps := Retain(publicProps, index);
      TakeAndSlash(index);
    }

    method TakeOffQueue(h: Hash)
      modifies this`publicProps, this`depositOf, this`bank
      ensures Storage() == Unqueue(old(Storage()), h)
    {
      hide SlashDeposit, PositionOf;
      var i := PositionOf(publicProps, h);
      if i < |publicProps| {
        var index := publicProps[i].index;
        publicProps := publicProps[..i] + publicProps[i + 1..];
        TakeAndSlash(index);
      }
    }

    method CallBlacklist(h: Hash, which: Option<nat>)
      modifies this
      ensures Storage() == Blacklist(old(Storage()), h, which)
    {
      hide Unqueue, Cancel;
      blacklist := blacklist[h := (NEVER, [])];
      TakeOffQueue(h);
      if nextExternal.Some? && nextExternal.value.0 == h { nextExternal := None; }
      if which.Some? {
        var status := OngoingStatus(Ballots(), which.value);
        if status.Some? && status.value.proposal == h { CancelReferendum(which.value); }
      }
    }

    // ----- preimages -----

    method CallNotePreimage(who: AccountId, c: CurrencyId, data: seq<nat>) returns (outcome: Result<(), Refusal>)
      modifies this`preimages, this`bank
      ensures match NotePreimage(cfg, old(Storage()), who, c, data)
              case Err(e) => outcome == Err(e) && Storage() == old(Storage())
              case Ok(t) => outcome == Ok(()) && Storage() == t
    {
      var h := cfg.hashOf(data);
      if h in preimages { return Err(DuplicatePreimage); }
      if c !in cfg.governanceCurrencies { return Err(InvalidCurrencyType); }
      var deposit := |data| * cfg.byteDeposit;
      var reserved := Reserve(bank, c, who, deposit);
      if reserved.None? { return Err(InsufficientBalance); }
      bank := reserved.value;
      preimages := preimages[h := Available(data, who, c, deposit, now, None)];
      outcome := Ok(());
    }

    method CallNoteImminentPreimage(who: AccountId, c: CurrencyId, data: seq<nat>)
      returns (outcome: Result<(), Refusal>)
      modifies this`preimages
      ensures match NoteImminentPreimage(cfg, old(Storage()), who, c, data)
              case Err(e) => outcome == Err(e) && Storage() == old(Storage())
              case Ok(t) => outcome == Ok(()) && Storage() == t
    {
      var h := cfg.hashOf(data);
      if h !in preimages { return Err(NotImminent); }
      var status := preimages[h];
      if status.Available? { return Err(DuplicatePreimage); }
      if c !in cfg.governanceCurrencies { return Err(InvalidCurrencyType); }
      preimages := preimages[h := Available(data, who, c, 0, now, Some(status.due))];
      outcome := Ok(());
    }

    method CallReapPreimage(who: AccountId, h: Hash, bound: nat) returns (outcome: Result<(), Refusal>)
      modifies this`preimages, this`bank
      ensures match ReapPreimage(cfg, old(Storage()), who, h, bound)
              case Err(e) => outcome == Err(e) && Storage() == old(Storage())
              case Ok(t) => outcome == Ok(()) && Storage() == t
    {
      if h !in preimages || preimages[h].Missing? { return Err(PreimageMissing); }
      var p := preimages[h];
      if |p.data| > bound { return Err(WrongUpperBound); }
      var additional := if who == p.provider then 0 else cfg.enactmentPeriod;
      if now < p.since + cfg.votingPeriod + additional { return Err(TooEarly); }
      if p.expiry.Some? && now <= p.expiry.value { return Err(Imminent); }
      bank := Repatriate(bank, p.currency, p.provider, who, p.deposit);
      preimages := preimages - {h};
      outcome := Ok(());
    }

    method DoEnactProposal(h: Hash) returns (outcome: Result<(), Refusal>)
      modifies this`preimages, this`bank
      ensures Storage() == EnactProposal(cfg, old(Storage()), h)
      ensures outcome == if !HasPreimage(old(Storage()), h) then Err(PreimageMissing)
                         else if cfg.decodes(old(preimages)[h].data) then Ok(()) else Err(PreimageInvalid)
    {
      var taken := if h in preimages then Some(preimages[h]) else None;
      preimages := preimages - {h};
      if taken.None? || taken.value.Missing? { return Err(PreimageMissing); }
      var p := taken.value;
      if !cfg.decodes(p.data) {
        bank := SlashReserved(bank, p.currency, p.provider, p.deposit);
        return Err(PreimageInvalid);
      }
      bank := Unreserve(bank, p.currency, p.provider, p.deposit);
      outcome := Ok(());
    }

    // ----- external proposals -----

    method CallExternalPropose(h: Hash) returns (outcome: Result<(), Refusal>)
      modifies this`nextExternal
      ensures match ExternalPropose(old(Storage()), h)
              case Err(e) => outcome == Err(e) && Storage() == old(Storage())
              case Ok(t) => outcome == Ok(()) && Storage() == t
    {
      if nextExternal.Some? { return Err(DuplicateProposal); }
      if h in blacklist && now < blacklist[h].0 { return Err(ProposalBlacklisted); }
      nextExternal := Some((h, SuperMajorityApprove));
      outcome := Ok(());
    }

    /** The majority and default variants take the place of whatever is waiting. */
    method CallExternalReplace(h: Hash, t: Threshold)
      modifies this`nextExternal
      ensures Storage() == ExternalReplace(old(Storage()), h, t)
    {
      nextExternal := Some((h, t));
    }

    method CallFastTrack(h: Hash, period: nat, delay: nat) returns (outcome: Result<(), Refusal>)
      modifies this`nextExternal, this`referendumInfoOf, this`referendumCount
      ensures match FastTrack(old(Storage()), h, period, delay)
              case Err(e) => outcome == Err(e) && Storage() == old(Storage())
              case Ok(t) => outcome == Ok(()) && Storage() == t
    {
      if nextExternal.None? { return Err(ProposalMissing); }
      var (waiting, threshold) := nextExternal.value;
      if threshold == SuperMajorityApprove { return Err(NotSimpleMajority); }
      if h != waiting { return Err(InvalidHash); }
      nextExternal := None;
      var _ := InjectReferendum(now + period, h, threshold, delay);
      outcome := Ok(());
    }

    method CallVetoExternal(who: AccountId, h: Hash) returns (outcome: Result<(), Refusal>)
      modifies this`nextExternal, this`blacklist
      ensures match VetoExternal(cfg, old(Storage()), who, h)
              case Err(e) => outcome == Err(e) && Storage() == old(Storage())
              case Ok(t) => outcome == Ok(()) && Storage() == t
    {
      if nextExternal.None? { return Err(NoProposal); }
      if h != nextExternal.value.0 { return Err(ProposalMissing); }
      var vetoers := if h in blacklist then blacklist[h].1 else [];
      if who in vetoers { return Err(AlreadyVetoed); }
      blacklist := blacklist[h := (now + cfg.cooloffPeriod, Insert(vetoers, who))];
      nextExternal := None;
      outcome := Ok(());
    }

    // ----- tabling -----

    /** The proposal with the highest backing; of several, the last. */
    method FindWinner(props: seq<Proposal>) returns (winner: nat)
      requires props != []
      ensures winner == Best(Storage(), props)
    {
      winner := 0;
      var i := 1;
      assert props[..1] == [props[0]];
      while i < |props|
        invariant 1 <= i <= |props| && winner < i
        invariant winner == Best(Storage(), props[..i])
      {
        assert props[..i + 1][..i] == props[..i];
        if BackingFor(Storage(), props[i].index) >= BackingFor(Storage(), props[winner].index) { winner := i; }
        i := i + 1;
      }
      assert props[..i] == props;
    }

    method LaunchExternalProposal() returns (launched: bool)
      modifies this`nextExternal, this`lastTabledWasExternal, this`referendumInfoOf, this`referendumCount
      ensures var (w, t) := LaunchExternal(cfg, old(Storage())); Storage() == w && launched == (t != Nothing)
    {
      if nextExternal.None? { return false; }
      var (proposal, threshold) := nextExternal.value;
      nextExternal := None;
      lastTabledWasExternal := true;
      var _ := InjectReferendum(now + cfg.votingPeriod, proposal, threshold, cfg.enactmentPeriod);
      launched := true;
    }

    method LaunchPublicProposal() returns (launched: bool)
      modifies this`publicProps, this`depositOf, this`bank, this`referendumInfoOf, this`referendumCount
      ensures var (w, t) := LaunchPublic(cfg, old(Storage())); Storage() == w && launched == (t != Nothing)
    {
      hide UnreserveAll, Best, SwapRemove, BackingFor, Inject;
      if publicProps == [] { return false; }
      var winner := FindWinner(publicProps);
      var p := publicProps[winner];
      publicProps := SwapRemove(publicProps, winner);
      if p.index in depositOf { RefundAndTable(p); }
      launched := true;
    }

    method RefundAndTable(p: Proposal)
      requires p.index in depositOf
      modifies this`depositOf, this`bank, this`referendumInfoOf, this`referendumCount
      ensures depositOf == old(depositOf) - {p.index}
      ensures var d := old(depositOf)[p.index]; bank == UnreserveAll(old(bank), d.currency, d.depositors, d.amount)
      ensures Ballots() == Inject(old(Ballots()), now + cfg.votingPeriod, p.hash, SuperMajorityApprove, cfg.enactmentPeriod)
    {
      hide UnreserveAll, Inject;
      var d := depositOf[p.index];
      depositOf := depositOf - {p.index};
      RefundDepositors(d);
      var _ := InjectReferendum(now + cfg.votingPeriod, p.hash, SuperMajorityApprove, cfg.enactmentPeriod);
    }

    /** Takes the flag, tries the queue whose turn it is and then the other one. */
    method LaunchNextProposal() returns (launched: bool)
      modifies this
      ensures var (w, t) := LaunchNext(cfg, old(Storage())); Storage() == w && launched == (t != Nothing)
    {
      var wasExternal := lastTabledWasExternal;
      lastTabledWasExternal := false;
      if wasExternal {
        launched := LaunchPublicProposal();
        if !launched { launched := LaunchExternalProposal(); }
      } else {
        launched := LaunchExternalProposal();
        if !launched { launched := LaunchPublicProposal(); }
      }
    }

    // ----- the beginning of a block -----

    /** Collects the referenda that end in this block, in order. */
    method MaturingReferenda() returns (due: seq<(nat, Status)>)
      ensures due == Due(Storage())
    {
      due := [];
      ghost var found: seq<nat> := [];
      var r := 0;
      while r < referendumCount
        invariant 0 <= r <= referendumCount
        invariant found + Maturing(Storage(), r) == Maturing(Storage(), 0)
        invariant |due| == |found|
        invariant forall i :: 0 <= i < |due| ==> due[i] == (found[i], StatusOrDefault(Storage(), found[i]))
      {
        if Matures(Storage(), r) {
          assert found + ([r] + Maturing(Storage(), r + 1)) == found + [r] + Maturing(Storage(), r + 1);
          due, found := due + [(r, referendumInfoOf[r].status)], found + [r];
        }
        r := r + 1;
      }
      assert found == Maturing(Storage(), 0);
    }

    method BakeReferendum(r: nat, status: Status, issuance: map<CurrencyId, nat>)
      returns (outcome: Result<bool, Refusal>)
      modifies this`preimages, this`bank
      ensures match Bake(cfg, old(Storage()), r, status, issuance)
              case Err(e) => outcome == Err(e) && Storage() == old(Storage())
              case Ok((w, approved)) => outcome == Ok(approved) && Storage() == w
    {
      var h := status.proposal;
      if h !in preimages || preimages[h].Missing? { return Err(PreimageMissing); }
      var p := preimages[h];
      var approved := cfg.approved(status.threshold, status.tally, Electorate(issuance, p.currency));
      if approved {
        if status.delay == 0 {
          var _ := DoEnactProposal(h);
        } else {
          preimages := preimages[h := p.(expiry := Some(now + status.delay))];
        }
      }
      outcome := Ok(approved);
    }

    /** Tables a proposal if it is time, then bakes what matures; stops at the first failure. */
    method OnBeginBlock(issuance: map<CurrencyId, nat>) returns (done: bool)
      requires cfg.launchPeriod > 0
      modifies this
      ensures var (w, all) := BeginBlock(cfg, old(Storage()), issuance); Storage() == w && done == all
    {
      if now % cfg.launchPeriod == 0 { var _ := LaunchNextProposal(); }
      assert Storage() == Launched(cfg, old(Storage()));
      var due := MaturingReferenda();
      ghost var start := Storage();
      var i := 0;
      while i < |due|
        invariant 0 <= i <= |due|
        invariant BakeAll(cfg, Storage(), due[i..], issuance) == BakeAll(cfg, start, due, issuance)
      {
        assert due[i..][1..] == due[i + 1..];
        var baked := BakeReferendum(due[i].0, due[i].1, issuance);
        if baked.Err? { return false; }
        referendumInfoOf := referendumInfoOf[due[i].0 := Finished(now, baked.value)];
        i := i + 1;
      }
      done := true;
    }
  }
}
