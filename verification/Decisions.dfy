/** What the end of a referendum decides: the approval rule applied to its tally and to the supply of
    the currency its preimage was paid in, and what becomes of the preimage. */
module Decisions {
  import opened Wrappers
  import opened Voting
  import opened Tallies
  import opened Democracy
  import opened Lifecycle
  import opened DemocracyRuns

  function SupplyOf(issuance: map<CurrencyId, nat>, c: CurrencyId): nat { if c in issuance then issuance[c] else 0 }

  /** Does the rule approve a referendum with this status, given the preimages in `w`? */
  predicate Approves(cfg: Config, w: World, st: Status, issuance: map<CurrencyId, nat>) {
    && st.proposal in w.preimages && w.preimages[st.proposal].Available?
    && cfg.approved(st.threshold, st.tally, SupplyOf(issuance, w.preimages[st.proposal].currency))
  }

  // ----- the outcome -----

  lemma BakeDecides(cfg: Config, w: World, r: nat, st: Status, issuance: map<CurrencyId, nat>)
    requires Bake(cfg, w, r, st, issuance).Ok?
    ensures HasPreimage(w, st.proposal)
    ensures Bake(cfg, w, r, st, issuance).value.1 <==> Approves(cfg, w, st, issuance)
  {}

  lemma SameApproval(cfg: Config, w: World, v: World, st: Status, issuance: map<CurrencyId, nat>)
    requires HasPreimage(v, st.proposal) && HasPreimage(w, st.proposal)
    requires v.preimages[st.proposal].currency == w.preimages[st.proposal].currency
    ensures Approves(cfg, v, st, issuance) <==> Approves(cfg, w, st, issuance)
  {}

  /** Every due referendum that is baked had a preimage and ends as the rule says. */
  lemma {:induction false} BakedAsApproved(cfg: Config, w: World, due: seq<(nat, Status)>,
                                           issuance: map<CurrencyId, nat>, i: nat)
    requires Distinct(due) && i < |due|
    requires forall j :: 0 <= j < |due| ==> OngoingStatus(w.voting, due[j].0) == Some(due[j].1)
    ensures var v, (r, st) := BakeAll(cfg, w, due, issuance).0, due[i];
            && r in v.voting.referenda && r in w.voting.referenda
            && (v.voting.referenda[r] != w.voting.referenda[r] ==>
                  && HasPreimage(w, st.proposal)
                  && v.voting.referenda[r] == Finished(w.voting.now, Approves(cfg, w, st, issuance)))
    decreases |due|
  {
    hide Bake, Approves;
    var (r0, st0) := due[0];
    var b := Bake(cfg, w, r0, st0, issuance);
    var rest := due[1..];
    BakeAllOutcome(cfg, w, due, issuance);
    assert InDue(due, due[i].0);
    if b.Ok? {
      BakeTouchesNoReferendum(cfg, w, r0, st0, issuance);
      BakeDecides(cfg, w, r0, st0, issuance);
      var next := b.value.0.(voting := Finish(w.voting, r0, b.value.1));
      forall j | 0 <= j < |rest| ensures OngoingStatus(next.voting, rest[j].0) == Some(rest[j].1) && rest[j].0 != r0 {
        assert rest[j] == due[j + 1];
      }
      if i == 0 {
        assert !InDue(rest, r0);
        BakeAllOutcome(cfg, next, rest, issuance);
      } else {
        BakedAsApproved(cfg, next, rest, issuance, i - 1);
        assert rest[i - 1] == due[i];
        BakeAndPreimages(cfg, w, r0, st0, issuance, due[i].1.proposal);
        if HasPreimage(next, due[i].1.proposal) { SameApproval(cfg, w, next, due[i].1, issuance); }
      }
    }
  }

  /** At the beginning of a block a referendum that ends now is left alone or decided by the rule, and
      decided for certain when all are. */
  lemma BlockDecides(cfg: Config, w: World, issuance: map<CurrencyId, nat>, r: nat)
    requires cfg.launchPeriod > 0 && Indexed(w.voting)
    requires OngoingStatus(w.voting, r).Some? && OngoingStatus(w.voting, r).value.end == w.voting.now
    ensures var (v, all), st := BeginBlock(cfg, w, issuance), OngoingStatus(w.voting, r).value;
            && r in v.voting.referenda
            && (v.voting.referenda[r] != w.voting.referenda[r] ==>
                  && HasPreimage(w, st.proposal)
                  && v.voting.referenda[r] == Finished(w.voting.now, Approves(cfg, w, st, issuance)))
            && (all ==> v.voting.referenda[r].Finished?)
  {
    hide LaunchNext, BakeAll, Due, Approves;
    var u := Launched(cfg, w);
    LaunchKeepsReferendum(cfg, w, r);
    LaunchedReferenda(cfg, w);
    LaunchedPreimages(cfg, w);
    DueIsDistinct(u);
    assert Matures(u, r) && InDue(Due(u), r);
    var i :| 0 <= i < |Due(u)| && Due(u)[i].0 == r;
    BakedAsApproved(cfg, u, Due(u), issuance, i);
    BakeAllOutcome(cfg, u, Due(u), issuance);
    if HasPreimage(u, OngoingStatus(w.voting, r).value.proposal) {
      SameApproval(cfg, w, u, OngoingStatus(w.voting, r).value, issuance);
    }
  }

  lemma LaunchedPreimages(cfg: Config, w: World)
    requires cfg.launchPeriod > 0
    ensures Launched(cfg, w).preimages == w.preimages && Launched(cfg, w).voting.now == w.voting.now
  {
    hide UnreserveAll, SwapRemove, Best, Inject;
    LaunchOpensOne(cfg, w);
  }

  // ----- over runs -----

  /** A referendum that a step decides ended in this block, and the outcome is the rule applied to the
      votes: to the sums, over all ballots, of own power and held delegations. */
  lemma StepDecides(cfg: Config, w: World, x: Action, r: nat)
    requires cfg.launchPeriod > 0 && Inv(cfg, w.voting) && OngoingStatus(w.voting, r).Some?
    requires var v := Step(cfg, w, x); r in v.voting.referenda && v.voting.referenda[r].Finished?
    ensures var v, st := Step(cfg, w, x), OngoingStatus(w.voting, r).value;
            && x.NextBlock? && st.end == w.voting.now + 1 && HasPreimage(w, st.proposal)
            && v.voting.referenda[r].end == st.end
            && (v.voting.referenda[r].approved
                <==> cfg.approved(st.threshold, ExactTally(cfg, w.voting.ballots, r),
                                  SupplyOf(x.issuance, w.preimages[st.proposal].currency)))
  {
    hide Step, BeginBlock, ExactTally;
    if IsBallotCall(x) {
      BallotCallsKeepReferenda(cfg, w, x);
    } else if x.NextBlock? {
      NextBlockStep(cfg, w, x.issuance);
      InvIsIndexed(cfg, w.voting);
      if OngoingStatus(w.voting, r).value.end == w.voting.now + 1 {
        BlockDecides(cfg, Tick(w), x.issuance, r);
        TallyIsExact(cfg, w.voting, r);
      } else {
        BlockSkips(cfg, Tick(w), x.issuance, r);
      }
    } else {
      PlainCall(cfg, w, x);
    }
  }

  lemma TallyIsExact(cfg: Config, s: State, r: nat)
    requires Inv(cfg, s) && OngoingStatus(s, r).Some?
    ensures OngoingStatus(s, r).value.tally == ExactTally(cfg, s.ballots, r)
  {}

  lemma BlockSkips(cfg: Config, w: World, issuance: map<CurrencyId, nat>, r: nat)
    requires cfg.launchPeriod > 0 && Indexed(w.voting)
    requires OngoingStatus(w.voting, r).Some? && OngoingStatus(w.voting, r).value.end != w.voting.now
    ensures OngoingStatus(BeginBlock(cfg, w, issuance).0.voting, r) == OngoingStatus(w.voting, r)
  {
    hide Launched, BakeAll, Due;
    var v := Launched(cfg, w);
    LaunchKeepsReferendum(cfg, w, r);
    LaunchedReferenda(cfg, w);
    DueIsDistinct(v);
    BakeAllOutcome(cfg, v, Due(v), issuance);
    assert !Matures(v, r);
    assert !InDue(Due(v), r);
  }

  // ----- the preimage -----

  lemma {:induction false} OtherPreimagesStay(cfg: Config, w: World, due: seq<(nat, Status)>,
                                              issuance: map<CurrencyId, nat>, h: Hash)
    requires forall j :: 0 <= j < |due| ==> due[j].1.proposal != h
    ensures var v := BakeAll(cfg, w, due, issuance).0;
            (h in v.preimages <==> h in w.preimages) && (h in w.preimages ==> v.preimages[h] == w.preimages[h])
    decreases |due|
  {
    hide Bake;
    if due != [] {
      var b := Bake(cfg, w, due[0].0, due[0].1, issuance);
      if b.Ok? {
        var next := b.value.0.(voting := Finish(b.value.0.voting, due[0].0, b.value.1));
        BakeOther(cfg, w, due[0].0, due[0].1, issuance, h);
        OtherPreimagesStay(cfg, next, due[1..], issuance, h);
      }
    }
  }

  ghost predicate OnlyOneFor(due: seq<(nat, Status)>, i: nat)
    requires i < |due|
  {
    forall j :: 0 <= j < |due| && j != i ==> due[j].1.proposal != due[i].1.proposal
  }

  lemma BakePreimage(cfg: Config, w: World, r: nat, st: Status, issuance: map<CurrencyId, nat>)
    requires Bake(cfg, w, r, st, issuance).Ok?
    ensures PreimageDecided(cfg, w, st, issuance, Bake(cfg, w, r, st, issuance).value.0)
  {}

  /** A rejected proposal keeps its preimage, an approved one with a delay keeps it until the delay is
      over, and one without has used it up. */
  predicate PreimageDecided(cfg: Config, w: World, st: Status, issuance: map<CurrencyId, nat>, v: World) {
    var h := st.proposal;
    && h in w.preimages && w.preimages[h].Available?
    && if Approves(cfg, w, st, issuance) then
         if st.delay == 0 then h !in v.preimages
         else h in v.preimages && v.preimages[h] == w.preimages[h].(expiry := Some(w.voting.now + st.delay))
       else h in v.preimages && v.preimages[h] == w.preimages[h]
  }

  /** What becomes of the preimage of a referendum that is baked, if no other due one is about the
      same proposal. */
  lemma {:induction false} BakedPreimage(cfg: Config, w: World, due: seq<(nat, Status)>,
                                         issuance: map<CurrencyId, nat>, i: nat)
    requires Distinct(due) && i < |due| && OnlyOneFor(due, i)
    requires forall j :: 0 <= j < |due| ==> OngoingStatus(w.voting, due[j].0) == Some(due[j].1)
    requires var v, r := BakeAll(cfg, w, due, issuance).0, due[i].0;
             r in w.voting.referenda && r in v.voting.referenda && v.voting.referenda[r] != w.voting.referenda[r]
    ensures PreimageDecided(cfg, w, due[i].1, issuance, BakeAll(cfg, w, due, issuance).0)
    decreases |due|
  {
    hide Bake, Approves;
    var (r0, st0) := due[0];
    var b := Bake(cfg, w, r0, st0, issuance);
    var rest := due[1..];
    if b.Ok? {
      BakeTouchesNoReferendum(cfg, w, r0, st0, issuance);
      var next := b.value.0.(voting := Finish(w.voting, r0, b.value.1));
      forall j | 0 <= j < |rest| ensures OngoingStatus(next.voting, rest[j].0) == Some(rest[j].1) && rest[j].0 != r0 {
        assert rest[j] == due[j + 1];
      }
      if i == 0 {
        BakePreimage(cfg, w, r0, st0, issuance);
        OtherPreimagesStay(cfg, next, rest, issuance, st0.proposal);
      } else {
        assert rest[i - 1] == due[i];
        BakedPreimage(cfg, next, rest, issuance, i - 1);
        BakeOther(cfg, w, r0, st0, issuance, due[i].1.proposal);
        if HasPreimage(w, due[i].1.proposal) { SameApproval(cfg, w, next, due[i].1, issuance); }
      }
    }
  }

  lemma BakeOther(cfg: Config, w: World, r: nat, st: Status, issuance: map<CurrencyId, nat>, h: Hash)
    requires Bake(cfg, w, r, st, issuance).Ok? && h != st.proposal
    ensures var v := Bake(cfg, w, r, st, issuance).value.0;
            (h in v.preimages <==> h in w.preimages) && (h in w.preimages ==> v.preimages[h] == w.preimages[h])
  {}
}
