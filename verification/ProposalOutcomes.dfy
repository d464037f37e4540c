/** When the calls about proposals and preimages are accepted, what an accepted call leaves behind, and
    how long a blacklisted or vetoed proposal stays out. */
module ProposalOutcomes {
  import opened Numbers
  import opened Wrappers
  import opened Voting
  import opened Democracy
  import opened Deposits
  import opened Tabling
  import opened DemocracyRuns

  /** `amount` moved from the free to the reserved balance of one account in one currency. */
  ghost predicate Reserving(b: Bank, n: Bank, c: CurrencyId, who: AccountId, amount: nat) {
    forall x, a ::
      if x == c && a == who then Free(n, x, a) + amount == Free(b, x, a) && Reserved(n, x, a) == Reserved(b, x, a) + amount
      else Free(n, x, a) == Free(b, x, a) && Reserved(n, x, a) == Reserved(b, x, a)
  }

  lemma ReserveOutcome(b: Bank, c: CurrencyId, who: AccountId, amount: nat)
    ensures Reserve(b, c, who, amount).Some? <==> Free(b, c, who) >= amount
    ensures Reserve(b, c, who, amount).Some? ==> Reserving(b, Reserve(b, c, who, amount).value, c, who, amount)
  {}

  /** Is the proposal kept out for now? */
  predicate KeptOut(w: World, h: Hash) { h in w.blacklist && w.voting.now < w.blacklist[h].0 }

  // ----- public proposals -----

  lemma ProposalOutcome(cfg: Config, w: World, who: AccountId, h: Hash, c: CurrencyId, value: nat)
    ensures var x := Propose(cfg, w, who, h, c, value);
            && (x.Ok? <==> c in cfg.governanceCurrencies && value >= cfg.minimumDeposit(c)
                           && |w.proposals| < cfg.maxProposals && !KeptOut(w, h) && Free(w.bank, c, who) >= value)
            && (x.Ok? ==>
                  && x.value.proposals == w.proposals + [Proposal(w.proposalCount, h, who)]
                  && BackingFor(x.value, w.proposalCount) == value
                  && (forall i :: i != w.proposalCount ==> BackingFor(x.value, i) == BackingFor(w, i))
                  && Reserving(w.bank, x.value.bank, c, who, value)
                  && x.value.proposalCount == w.proposalCount + 1
                  && x.value.voting == w.voting && x.value.preimages == w.preimages)
  {
    ReserveOutcome(w.bank, c, who, value);
    hide Reserve, Reserving;
  }

  /** Seconding appends the seconder and adds the recorded amount to the backing; it is accepted exactly
      when the account has that amount and the bound on the number of depositors is kept. */
  lemma SecondingOutcome(cfg: Config, w: World, who: AccountId, index: nat, c: CurrencyId, bound: nat)
    ensures var x := Second(cfg, w, who, index, c, bound);
            && (x.Ok? <==> c in cfg.governanceCurrencies && index in w.deposits
                           && |w.deposits[index].depositors| <= bound
                           && Free(w.bank, w.deposits[index].currency, who) >= w.deposits[index].amount)
            && (x.Ok? ==>
                  var d := w.deposits[index];
                  && index in x.value.deposits && x.value.deposits[index].depositors == d.depositors + [who]
                  && BackingFor(x.value, index) == BackingFor(w, index) + d.amount
                  && (forall i :: i != index ==> BackingFor(x.value, i) == BackingFor(w, i))
                  && Reserving(w.bank, x.value.bank, d.currency, who, d.amount)
                  && x.value == w.(bank := x.value.bank, deposits := x.value.deposits))
  {
    if index in w.deposits {
      var d := w.deposits[index];
      ReserveOutcome(w.bank, d.currency, who, d.amount);
      assert d.amount * (|d.depositors| + 1) == d.amount * |d.depositors| + d.amount;
    }
    hide Reserve, Reserving;
  }

  /** Cancelling takes out exactly the proposal with this index and slashes its whole deposit. */
  lemma CancellationOutcome(w: World, index: nat)
    requires Backed(w) && QueueOk(w)
    ensures var v := CancelProposal(w, index);
            && (forall p :: p in v.proposals <==> p in w.proposals && p.index != index)
            && index !in v.deposits
            && (forall i :: i != index ==> BackingFor(v, i) == BackingFor(w, i))
            && v.voting == w.voting && v.preimages == w.preimages
            && forall x, a ::
                 && Free(v.bank, x, a) == Free(w.bank, x, a)
                 && Reserved(v.bank, x, a) + (if index in w.deposits then DepositPart(w.deposits[index], x, a) else 0)
                    == Reserved(w.bank, x, a)
  {
    hide SlashAll, Excess;
    var v := w.(proposals := Retain(w.proposals, index));
    RetainKeepsOthers(w.proposals, index);
    SameRecords(w, v);
    SlashKeeps(v, index);
  }

  // ----- preimages -----

  lemma NotingOutcome(cfg: Config, w: World, who: AccountId, c: CurrencyId, data: seq<nat>)
    ensures var x, h, deposit := NotePreimage(cfg, w, who, c, data), cfg.hashOf(data), |data| * cfg.byteDeposit;
            && (x.Ok? <==> h !in w.preimages && c in cfg.governanceCurrencies && Free(w.bank, c, who) >= deposit)
            && (x.Ok? ==>
                  && x.value.preimages == w.preimages[h := Available(data, who, c, deposit, w.voting.now, None)]
                  && Reserving(w.bank, x.value.bank, c, who, deposit)
                  && x.value == w.(bank := x.value.bank, preimages := x.value.preimages))
  {
    ReserveOutcome(w.bank, c, who, |data| * cfg.byteDeposit);
    hide Reserve, Reserving;
  }

  /** An imminent preimage costs nothing and cannot be reaped before its proposal is due. */
  lemma ImminentOutcome(cfg: Config, w: World, who: AccountId, c: CurrencyId, data: seq<nat>)
    ensures var x, h := NoteImminentPreimage(cfg, w, who, c, data), cfg.hashOf(data);
            && (x.Ok? <==> h in w.preimages && w.preimages[h].Missing? && c in cfg.governanceCurrencies)
            && (x.Ok? ==>
                  && HasPreimage(x.value, h) && x.value.bank == w.bank && x.value.preimages[h].data == data
                  && x.value.preimages[h].deposit == 0
                  && forall v: World, reaper, bound ::
                       v.preimages == x.value.preimages && v.voting.now <= w.preimages[h].due ==>
                         ReapPreimage(cfg, v, reaper, h, bound).Err?)
  {}

  /** A preimage can be reaped exactly when it is there, fits the bound, is old enough (older for
      anybody but its provider), and its proposal is not about to be enacted. */
  lemma ReapingOutcome(cfg: Config, w: World, who: AccountId, h: Hash, bound: nat)
    ensures ReapPreimage(cfg, w, who, h, bound).Ok?
            <==> && HasPreimage(w, h) && |w.preimages[h].data| <= bound
                 && w.voting.now >= w.preimages[h].since + cfg.votingPeriod
                 && (who != w.preimages[h].provider ==>
                       w.voting.now >= w.preimages[h].since + cfg.votingPeriod + cfg.enactmentPeriod)
                 && (w.preimages[h].expiry.Some? ==> w.voting.now > w.preimages[h].expiry.value)
    ensures ReapPreimage(cfg, w, who, h, bound).Ok? ==>
              var v := ReapPreimage(cfg, w, who, h, bound).value;
              v == w.(bank := v.bank, preimages := w.preimages - {h})
  {
    hide Repatriate;
  }

  // ----- external proposals -----

  lemma ExternalOutcome(w: World, h: Hash)
    ensures var x := ExternalPropose(w, h);
            && (x.Ok? <==> w.nextExternal.None? && !KeptOut(w, h))
            && (x.Ok? ==> x.value == w.(nextExternal := Some((h, SuperMajorityApprove))))
  {}

  /** Fast tracking is for the waiting proposal, unless it was proposed to pass by super majority; it
      opens a referendum with the given period and delay at once. */
  lemma FastTrackOutcome(w: World, h: Hash, period: nat, delay: nat)
    ensures var x := FastTrack(w, h, period, delay);
            && (x.Ok? <==> w.nextExternal.Some? && w.nextExternal.value.0 == h
                           && w.nextExternal.value.1 != SuperMajorityApprove)
            && (x.Ok? ==>
                  && x.value.nextExternal.None? && x.value.voting.count == w.voting.count + 1
                  && OngoingStatus(x.value.voting, w.voting.count)
                     == Some(Status(w.voting.now + period, h, w.nextExternal.value.1, delay, Tally(0, 0, 0)))
                  && forall r :: r != w.voting.count ==> OngoingStatus(x.value.voting, r) == OngoingStatus(w.voting, r))
  {}

  /** In the slot that tables it, the waiting external proposal becomes a referendum under its own
      threshold. */
  lemma ExternalSlot(cfg: Config, w: World)
    requires TabledIn(cfg, w) == External
    ensures var v := LaunchNext(cfg, Tick(w)).0;
            && w.nextExternal.Some? && v.nextExternal.None?
            && v.proposals == w.proposals && v.deposits == w.deposits && v.bank == w.bank
            && OngoingStatus(v.voting, w.voting.count)
               == Some(Status(w.voting.now + 1 + cfg.votingPeriod, w.nextExternal.value.0, w.nextExternal.value.1,
                              cfg.enactmentPeriod, Tally(0, 0, 0)))
  {
    hide Best, SwapRemove, UnreserveAll;
  }

  predicate Ascending(whos: seq<AccountId>) { forall i, j :: 0 <= i < j < |whos| ==> whos[i] <= whos[j] }

  /** A block tables something only when its number is a multiple of the launch period. */
  lemma LaunchesEveryPeriod(cfg: Config, w: World, k: nat, into: nat)
    requires into < cfg.launchPeriod && w.voting.now == k * cfg.launchPeriod + into
    ensures Launched(cfg, w) == if into == 0 then LaunchNext(cfg, w).0 else w
  {
    hide LaunchNext;
    Remainder(cfg.launchPeriod, k, into);
  }

  lemma Remainder(d: nat, k: nat, r: nat)
    requires r < d
    ensures (k * d + r) % d == r
  {
    var q := (k * d + r) / d;
    assert k * d + r == q * d + (k * d + r) % d;
    QuotientAtLeast(k * d + r, d, k);
    QuotientAtMost(k * d + r, d, k);
  }

  lemma {:induction false} InsertAddsOne(whos: seq<AccountId>, who: AccountId)
    ensures multiset(Insert(whos, who)) == multiset(whos) + multiset{who}
  {
    if whos != [] && whos[0] < who {
      InsertAddsOne(whos[1..], who);
      assert whos == [whos[0]] + whos[1..];
    }
  }

  lemma {:induction false} InsertKeepsAscending(whos: seq<AccountId>, who: AccountId)
    requires Ascending(whos)
    ensures Ascending(Insert(whos, who))
    ensures forall a :: a in Insert(whos, who) ==> a == who || a in whos
  {
    if whos != [] && whos[0] < who {
      InsertKeepsAscending(whos[1..], who);
      var rest := Insert(whos[1..], who);
      forall i | 0 <= i < |rest| ensures whos[0] <= rest[i] {
        assert rest[i] in rest;
        if rest[i] != who { var k :| 0 <= k < |whos[1..]| && whos[1..][k] == rest[i]; assert whos[k + 1] == rest[i]; }
      }
    }
  }

  function Vetoers(w: World, h: Hash): seq<AccountId> { if h in w.blacklist then w.blacklist[h].1 else [] }

  /** A veto is for the waiting proposal, once per account since it was last blacklisted by name; the
      proposal stays out for the cool-off period. */
  lemma VetoOutcome(cfg: Config, w: World, who: AccountId, h: Hash)
    ensures var x := VetoExternal(cfg, w, who, h);
            && (x.Ok? <==> w.nextExternal.Some? && w.nextExternal.value.0 == h && who !in Vetoers(w, h))
            && (x.Ok? ==>
                  && x.value.nextExternal.None?
                  && h in x.value.blacklist && x.value.blacklist[h].0 == w.voting.now + cfg.cooloffPeriod
                  && multiset(Vetoers(x.value, h)) == multiset(Vetoers(w, h)) + multiset{who}
                  && (Ascending(Vetoers(w, h)) ==> Ascending(Vetoers(x.value, h)))
                  && (forall g :: g != h ==> Vetoers(x.value, g) == Vetoers(w, g) && (KeptOut(x.value, g) <==> KeptOut(w, g)))
                  && x.value.voting == w.voting)
  {
    InsertAddsOne(Vetoers(w, h), who);
    if Ascending(Vetoers(w, h)) { InsertKeepsAscending(Vetoers(w, h), who); }
    hide Insert, Ascending;
  }

  /** A referendum can be cancelled in an emergency once for each proposal. */
  lemma EmergencyOutcome(w: World, r: nat)
    ensures var x := EmergencyCancel(w, r);
            && (x.Ok? <==> OngoingStatus(w.voting, r).Some? && OngoingStatus(w.voting, r).value.proposal !in w.cancelled)
            && (x.Ok? ==>
                  && r !in x.value.voting.referenda
                  && (forall q :: q != r ==> (q in x.value.voting.referenda <==> q in w.voting.referenda)
                                             && OngoingStatus(x.value.voting, q) == OngoingStatus(w.voting, q))
                  && forall v: World, q ::
                       (&& v.cancelled >= x.value.cancelled && OngoingStatus(v.voting, q).Some?
                        && OngoingStatus(v.voting, q).value.proposal == OngoingStatus(w.voting, r).value.proposal) ==>
                         EmergencyCancel(v, q) == Err(AlreadyCanceled))
  {}

  // ----- staying out -----

  /** Blacklisting takes the proposal out of the external queue and the first of its kind out of the
      public one, cancels the named referendum exactly when it is about that proposal, and keeps the
      proposal out. */
  lemma BlacklistOutcome(w: World, h: Hash, which: Option<nat>)
    ensures var v := Blacklist(w, h, which);
            && h in v.blacklist && v.blacklist[h] == (NEVER, [])
            && (forall g :: g != h ==> (KeptOut(v, g) <==> KeptOut(w, g)))
            && v.nextExternal == (if w.nextExternal.Some? && w.nextExternal.value.0 == h then None else w.nextExternal)
            && v.voting == (if which.Some? && OngoingStatus(w.voting, which.value).Some?
                               && OngoingStatus(w.voting, which.value).value.proposal == h
                            then w.voting.(referenda := w.voting.referenda - {which.value}) else w.voting)
            && FirstTakenOut(w, v, h)
  {
    hide Unqueue, FirstTakenOut;
    var listed := w.(blacklist := w.blacklist[h := (NEVER, [])]);
    UnqueueOutcome(listed, h);
    SameQueueTakenOut(w, listed, Unqueue(listed, h), Blacklist(w, h, which), h);
  }

  lemma SameQueueTakenOut(w: World, listed: World, u: World, v: World, h: Hash)
    requires FirstTakenOut(listed, u, h)
    requires listed.proposals == w.proposals && listed.deposits == w.deposits
    requires v.proposals == u.proposals && v.deposits == u.deposits
    ensures FirstTakenOut(w, v, h)
  {}

  /** The first proposal with this hash, if there is one, has left the queue and its deposit is gone. */
  ghost predicate FirstTakenOut(w: World, v: World, h: Hash) {
    || ((forall p :: p in w.proposals ==> p.hash != h) && v.proposals == w.proposals && v.deposits == w.deposits)
    || (exists i :: 0 <= i < |w.proposals| && w.proposals[i].hash == h
          && (forall j :: 0 <= j < i ==> w.proposals[j].hash != h)
          && v.proposals == w.proposals[..i] + w.proposals[i + 1..]
          && v.deposits == w.deposits - {w.proposals[i].index})
  }

  lemma UnqueueOutcome(w: World, h: Hash)
    ensures var v := Unqueue(w, h);
            && FirstTakenOut(w, v, h)
            && v == w.(proposals := v.proposals, deposits := v.deposits, bank := v.bank)
  {
    hide SlashAll, PositionOf;
    FirstWithHash(w.proposals, h);
    var i := PositionOf(w.proposals, h);
    if i < |w.proposals| {
      assert w.proposals[i].hash == h;
      if w.proposals[i].index !in w.deposits { assert w.deposits - {w.proposals[i].index} == w.deposits; }
    }
  }

  lemma {:induction false} FirstWithHash(props: seq<Proposal>, h: Hash)
    ensures var i := PositionOf(props, h);
            && (forall j :: 0 <= j < i ==> props[j].hash != h)
            && (i == |props| <==> forall p :: p in props ==> p.hash != h)
  {
    if props != [] && props[0].hash != h {
      FirstWithHash(props[1..], h);
      assert forall p :: p in props <==> p == props[0] || p in props[1..];
    } else if props != [] {
      assert props[0] in props;
    }
  }

  /** The proposal `h` is out until `until`. */
  predicate OutUntil(w: World, h: Hash, until: nat) { h in w.blacklist && w.blacklist[h].0 >= until }

  lemma StepKeepsOut(cfg: Config, w: World, x: Action, h: Hash, until: nat)
    requires cfg.launchPeriod > 0 && OutUntil(w, h, until) && until <= NEVER
    requires x.CallVeto? && x.hash == h ==> w.voting.now + cfg.cooloffPeriod >= until
    ensures OutUntil(Step(cfg, w, x), h, until)
  {
    if IsBallotCall(x) {
      BallotCallFrame(cfg, w, x);
    } else if x.NextBlock? {
      NextBlockStep(cfg, w, x.issuance);
      BlockKeepsBlacklist(cfg, Tick(w), x.issuance);
    } else {
      CallKeepsOut(cfg, w, x, h, until);
    }
  }

  lemma CallKeepsOut(cfg: Config, w: World, x: Action, h: Hash, until: nat)
    requires cfg.launchPeriod > 0 && !IsBallotCall(x) && !x.NextBlock?
    requires OutUntil(w, h, until) && until <= NEVER
    requires x.CallVeto? && x.hash == h ==> w.voting.now + cfg.cooloffPeriod >= until
    ensures OutUntil(Step(cfg, w, x), h, until)
  {
    if x.CallVeto? {
      hide VetoExternal;
      VetoKeepsOthersOut(cfg, w, x.who, x.hash, h, until);
    } else if x.CallBlacklist? {
      hide Blacklist;
      BlacklistKeepsOut(w, x.hash, x.which, h, until);
    } else {
      hide Step;
      OtherCallsKeepBlacklist(cfg, w, x);
    }
  }

  lemma VetoKeepsOthersOut(cfg: Config, w: World, who: AccountId, g: Hash, h: Hash, until: nat)
    requires OutUntil(w, h, until) && (g == h ==> w.voting.now + cfg.cooloffPeriod >= until)
    ensures VetoExternal(cfg, w, who, g).Ok? ==> OutUntil(VetoExternal(cfg, w, who, g).value, h, until)
  {
    hide Insert;
  }

  lemma BlacklistKeepsOut(w: World, g: Hash, which: Option<nat>, h: Hash, until: nat)
    requires OutUntil(w, h, until) && until <= NEVER
    ensures OutUntil(Blacklist(w, g, which), h, until)
  {
    hide Unqueue, Cancel;
    UnqueueOutcome(w.(blacklist := w.blacklist[g := (NEVER, [])]), g);
  }

  lemma OtherCallsKeepBlacklist(cfg: Config, w: World, x: Action)
    requires cfg.launchPeriod > 0 && !IsBallotCall(x) && !x.NextBlock? && !x.CallVeto? && !x.CallBlacklist?
    ensures Step(cfg, w, x).blacklist == w.blacklist
  {
    hide SlashAll, Retain, Reserve, Unreserve, SlashReserved, Repatriate, Inject, Cancel;
  }

  lemma {:induction false} BakeAllKeepsBlacklist(cfg: Config, w: World, due: seq<(nat, Status)>,
                                                 issuance: map<CurrencyId, nat>)
    ensures BakeAll(cfg, w, due, issuance).0.blacklist == w.blacklist
    decreases |due|
  {
    hide Finish, Unreserve, SlashReserved;
    if due != [] {
      var b := Bake(cfg, w, due[0].0, due[0].1, issuance);
      if b.Ok? {
        BakeAllKeepsBlacklist(cfg, b.value.0.(voting := Finish(b.value.0.voting, due[0].0, b.value.1)), due[1..], issuance);
      }
    }
  }

  lemma BlockKeepsBlacklist(cfg: Config, w: World, issuance: map<CurrencyId, nat>)
    requires cfg.launchPeriod > 0
    ensures BeginBlock(cfg, w, issuance).0.blacklist == w.blacklist
  {
    hide Best, SwapRemove, UnreserveAll, Inject, BakeAll, Due;
    BakeAllKeepsBlacklist(cfg, Launched(cfg, w), Due(Launched(cfg, w)), issuance);
  }

  /** No veto of `h` on the way ends before `until`. */
  ghost predicate NoEarlyVeto(cfg: Config, w: World, run: seq<Action>, h: Hash, until: nat)
    requires cfg.launchPeriod > 0
    decreases |run|
  {
    run == [] || ((run[0].CallVeto? && run[0].hash == h ==> w.voting.now + cfg.cooloffPeriod >= until)
                  && NoEarlyVeto(cfg, Step(cfg, w, run[0]), run[1..], h, until))
  }

  /** On any run a proposal that is out until `until` is refused by both ways of proposing until then,
      unless a veto sets an earlier time. */
  lemma {:induction false} StaysOut(cfg: Config, w: World, run: seq<Action>, h: Hash, until: nat)
    requires cfg.launchPeriod > 0 && OutUntil(w, h, until) && until <= NEVER && NoEarlyVeto(cfg, w, run, h, until)
    ensures var v := Run(cfg, w, run);
            && OutUntil(v, h, until)
            && (v.voting.now < until ==>
                  && ExternalPropose(v, h).Err?
                  && forall who, c, value :: Propose(cfg, v, who, h, c, value).Err?)
    decreases |run|
  {
    if run != [] {
      StepKeepsOut(cfg, w, run[0], h, until);
      hide Step, OutUntil;
      StaysOut(cfg, Step(cfg, w, run[0]), run[1..], h, until);
    } else {
      hide Reserve;
    }
  }

  /** Blacklisting is meant to be for good, but a proposal that waits all the same, because it was
      proposed in a way that ignores the blacklist, can be vetoed, and then it is out exactly for the
      cool-off period. */
  lemma VetoLiftsBlacklisting(cfg: Config, w: World, h: Hash, t: Threshold, who: AccountId, later: World)
    requires h in w.blacklist && w.blacklist[h] == (NEVER, [])
    requires var v := VetoExternal(cfg, ExternalReplace(w, h, t), who, h);
             v.Ok? ==> later.blacklist == v.value.blacklist && later.nextExternal.None?
    ensures VetoExternal(cfg, ExternalReplace(w, h, t), who, h).Ok?
    ensures ExternalPropose(later, h).Ok? <==> later.voting.now >= w.voting.now + cfg.cooloffPeriod
  {
    hide Insert;
  }
}
