/** Referenda begin once, end once, and end on time exactly when their preimages are at hand. */
module Lifecycle {
  import opened Wrappers
  import opened Voting
  import opened Democracy

  /** Indices are never reused, and a referendum that is over never becomes ongoing again. */
  ghost predicate Later(s: State, t: State) {
    && s.count <= t.count && s.now <= t.now
    && forall r :: r < s.count ==>
         && (r !in s.referenda ==> r !in t.referenda)
         && (r in s.referenda && s.referenda[r].Finished? && r in t.referenda ==> t.referenda[r] == s.referenda[r])
  }

  lemma LaterTransitive(s: State, t: State, u: State)
    requires Later(s, t) && Later(t, u)
    ensures Later(s, u)
  {}

  // ----- which referenda are due -----

  lemma {:induction false} MaturingExactly(w: World, from: nat)
    ensures var m := Maturing(w, from);
            && (forall r :: r in m <==> from <= r < w.voting.count && Matures(w, r))
            && (forall i, j :: 0 <= i < j < |m| ==> m[i] < m[j])
    decreases w.voting.count - from
  {
    if from < w.voting.count {
      MaturingExactly(w, from + 1);
      var rest := Maturing(w, from + 1);
      assert forall k :: 0 <= k < |rest| ==> rest[k] in rest;
    }
  }

  /** A worklist of distinct ongoing referenda. */
  ghost predicate Distinct(due: seq<(nat, Status)>) {
    forall i, j :: 0 <= i < j < |due| ==> due[i].0 != due[j].0
  }

  ghost predicate InDue(due: seq<(nat, Status)>, r: nat) { exists i :: 0 <= i < |due| && due[i].0 == r }

  lemma DueIsDistinct(w: World)
    ensures Distinct(Due(w))
    ensures forall r: nat :: InDue(Due(w), r) <==> r < w.voting.count && Matures(w, r)
    ensures forall i :: 0 <= i < |Due(w)| ==> OngoingStatus(w.voting, Due(w)[i].0) == Some(Due(w)[i].1)
  {
    MaturingExactly(w, 0);
    var m, due := Maturing(w, 0), Due(w);
    forall r: nat ensures InDue(due, r) <==> r < w.voting.count && Matures(w, r) {
      if r in m { var i :| 0 <= i < |m| && m[i] == r; assert due[i].0 == r; }
      if InDue(due, r) { var i :| 0 <= i < |due| && due[i].0 == r; assert m[i] in m; }
    }
    forall i | 0 <= i < |due| ensures OngoingStatus(w.voting, due[i].0) == Some(due[i].1) { assert m[i] in m; }
  }

  // ----- baking -----

  lemma BakeTouchesNoReferendum(cfg: Config, w: World, r: nat, st: Status, issuance: map<CurrencyId, nat>)
    requires Bake(cfg, w, r, st, issuance).Ok?
    ensures Bake(cfg, w, r, st, issuance).value.0.voting == w.voting
  {}

  lemma InDueSplit(due: seq<(nat, Status)>, r: nat)
    requires due != []
    ensures InDue(due, r) <==> due[0].0 == r || InDue(due[1..], r)
  {
    var rest := due[1..];
    if InDue(due, r) && due[0].0 != r {
      var i :| 0 <= i < |due| && due[i].0 == r;
      assert rest[i - 1].0 == r;
    }
    if InDue(rest, r) {
      var i :| 0 <= i < |rest| && rest[i].0 == r;
      assert due[i + 1].0 == r;
    }
  }

  /** Only due referenda change, and only to finished now; all of them do exactly when no preimage
      was missing. */
  lemma {:induction false} BakeAllOutcome(cfg: Config, w: World, due: seq<(nat, Status)>,
                                          issuance: map<CurrencyId, nat>)
    requires Distinct(due)
    requires forall i :: 0 <= i < |due| ==> OngoingStatus(w.voting, due[i].0).Some?
    ensures var (v, ok) := BakeAll(cfg, w, due, issuance);
            && v.voting == w.voting.(referenda := v.voting.referenda)
            && v.voting.referenda.Keys == w.voting.referenda.Keys
            && (forall r :: r in w.voting.referenda && !InDue(due, r) ==> v.voting.referenda[r] == w.voting.referenda[r])
            && (forall r :: InDue(due, r) ==>
                  (r in v.voting.referenda
                   && (v.voting.referenda[r] == w.voting.referenda[r]
                       || (v.voting.referenda[r].Finished? && v.voting.referenda[r].end == w.voting.now))))
            && (ok <==> forall r :: InDue(due, r) ==> v.voting.referenda[r].Finished?)
    decreases |due|
  {
    hide Bake;
    if due != [] {
      var (r0, st) := due[0];
      var b := Bake(cfg, w, r0, st, issuance);
      var rest := due[1..];
      forall r ensures InDue(due, r) <==> r0 == r || InDue(rest, r) { InDueSplit(due, r); }
      assert InDue(due, r0);
      if b.Ok? {
        BakeTouchesNoReferendum(cfg, w, r0, st, issuance);
        var next := b.value.0.(voting := Finish(w.voting, r0, b.value.1));
        forall i | 0 <= i < |rest| ensures OngoingStatus(next.voting, rest[i].0).Some? && rest[i].0 != r0 {
          assert rest[i] == due[i + 1];
        }
        assert !InDue(rest, r0);
        BakeAllOutcome(cfg, next, rest, issuance);
      }
    } else {
      assert forall r :: !InDue(due, r);
    }
  }

  // ----- on time -----

  ghost predicate NoneMissed(w: World) {
    forall r :: OngoingStatus(w.voting, r).Some? ==> OngoingStatus(w.voting, r).value.end >= w.voting.now
  }

  ghost predicate NoneOverdue(w: World) {
    forall r :: OngoingStatus(w.voting, r).Some? ==> OngoingStatus(w.voting, r).value.end > w.voting.now
  }

  ghost predicate Indexed(s: State) { forall r :: r in s.referenda ==> r < s.count }

  /** One referendum was opened, with the next free index. */
  ghost predicate Opened(s: State, t: State, end: nat) {
    && s.count in t.referenda && t.referenda[s.count].Ongoing? && t.referenda[s.count].status.end == end
    && t == s.(referenda := s.referenda[s.count := t.referenda[s.count]], count := s.count + 1)
  }

  /** Launching opens at most one referendum, ending a voting period from now. */
  lemma LaunchOpensOne(cfg: Config, w: World)
    ensures var v := LaunchNext(cfg, w).0;
            v.voting == w.voting || Opened(w.voting, v.voting, w.voting.now + cfg.votingPeriod)
  {
    hide UnreserveAll, SwapRemove, Best;
  }

  lemma LaunchedReferenda(cfg: Config, w: World)
    requires cfg.launchPeriod > 0 && Indexed(w.voting)
    ensures var v := Launched(cfg, w);
            && Indexed(v.voting) && v.voting.now == w.voting.now && Later(w.voting, v.voting)
            && (NoneMissed(v) <==> NoneMissed(w))
  {
    hide LaunchNext;
    var v := Launched(cfg, w);
    LaunchOpensOne(cfg, w);
    if v.voting != w.voting {
      forall r | r != w.voting.count ensures OngoingStatus(v.voting, r) == OngoingStatus(w.voting, r) {}
      assert OngoingStatus(w.voting, w.voting.count).None?;
    }
  }

  /** After the work at the beginning of a block no ongoing referendum is past its end, exactly
      when none had been missed before and every preimage needed in this block was at hand. */
  lemma OnTime(cfg: Config, w: World, issuance: map<CurrencyId, nat>)
    requires cfg.launchPeriod > 0 && Indexed(w.voting)
    ensures var (v, ok) := BeginBlock(cfg, w, issuance);
            && v.voting.now == w.voting.now && Indexed(v.voting) && Later(w.voting, v.voting)
            && (NoneOverdue(v) <==> NoneMissed(w) && ok)
  {
    hide Launched, Due, BakeAll;
    var u := Launched(cfg, w);
    LaunchedReferenda(cfg, w);
    DueIsDistinct(u);
    BakeAllOutcome(cfg, u, Due(u), issuance);
    var (v, ok) := BeginBlock(cfg, w, issuance);
    forall r | r in u.voting.referenda ensures InDue(Due(u), r) <==> Matures(u, r) {}
    if NoneMissed(u) && ok {
      forall r | OngoingStatus(v.voting, r).Some? ensures OngoingStatus(v.voting, r).value.end > v.voting.now {
        assert !InDue(Due(u), r);
        assert OngoingStatus(u.voting, r) == OngoingStatus(v.voting, r);
      }
    }
    if NoneOverdue(v) {
      forall r | InDue(Due(u), r) ensures v.voting.referenda[r].Finished? {
        assert OngoingStatus(v.voting, r).Some? ==> OngoingStatus(v.voting, r).value.end > v.voting.now;
        assert Matures(u, r);
      }
      forall r | OngoingStatus(u.voting, r).Some? ensures OngoingStatus(u.voting, r).value.end >= u.voting.now {
        if !InDue(Due(u), r) { assert OngoingStatus(v.voting, r) == OngoingStatus(u.voting, r); }
      }
    }
  }

  // ----- when every preimage is at hand -----

  /** Baking this referendum uses its preimage up: it is approved and to be enacted at once. */
  predicate UsesUp(cfg: Config, w: World, st: Status, issuance: map<CurrencyId, nat>) {
    && HasPreimage(w, st.proposal) && st.delay == 0
    && cfg.approved(st.threshold, st.tally, Electorate(issuance, w.preimages[st.proposal].currency))
  }

  /** Every due referendum has a preimage that no earlier one uses up. */
  ghost predicate AtHand(cfg: Config, w: World, due: seq<(nat, Status)>, issuance: map<CurrencyId, nat>) {
    && (forall i :: 0 <= i < |due| ==> HasPreimage(w, due[i].1.proposal))
    && (forall i, j :: 0 <= i < j < |due| && due[i].1.proposal == due[j].1.proposal ==> !UsesUp(cfg, w, due[i].1, issuance))
  }

  lemma BakeAndPreimages(cfg: Config, w: World, r: nat, st: Status, issuance: map<CurrencyId, nat>, h: Hash)
    requires Bake(cfg, w, r, st, issuance).Ok?
    ensures var v := Bake(cfg, w, r, st, issuance).value.0;
            && (HasPreimage(v, h) <==> HasPreimage(w, h) && !(h == st.proposal && UsesUp(cfg, w, st, issuance)))
            && (HasPreimage(v, h) ==> v.preimages[h].currency == w.preimages[h].currency)
  {}

  lemma AtHandStep(cfg: Config, w: World, due: seq<(nat, Status)>, issuance: map<CurrencyId, nat>, v: World)
    requires due != [] && Bake(cfg, w, due[0].0, due[0].1, issuance).Ok?
    requires v.preimages == Bake(cfg, w, due[0].0, due[0].1, issuance).value.0.preimages
    ensures AtHand(cfg, w, due, issuance) <==> AtHand(cfg, v, due[1..], issuance)
  {
    hide Bake;
    var rest, st := due[1..], due[0].1;
    assert HasPreimage(w, st.proposal) by { BakedHasPreimage(cfg, w, due[0].0, st, issuance); }
    forall h
      ensures HasPreimage(v, h) <==> HasPreimage(w, h) && !(h == st.proposal && UsesUp(cfg, w, st, issuance))
      ensures HasPreimage(v, h) ==> v.preimages[h].currency == w.preimages[h].currency
    {
      BakeAndPreimages(cfg, w, due[0].0, st, issuance, h);
    }
    assert forall i :: 0 <= i < |rest| ==> rest[i] == due[i + 1];
    if AtHand(cfg, w, due, issuance) {
      forall i | 0 <= i < |rest| ensures HasPreimage(v, rest[i].1.proposal) { assert HasPreimage(w, due[i + 1].1.proposal); }
      forall i, j | 0 <= i < j < |rest| && rest[i].1.proposal == rest[j].1.proposal
        ensures !UsesUp(cfg, v, rest[i].1, issuance)
      {
        assert !UsesUp(cfg, w, due[i + 1].1, issuance);
      }
    }
    if AtHand(cfg, v, rest, issuance) {
      forall i | 0 <= i < |due| ensures HasPreimage(w, due[i].1.proposal) {
        if i > 0 { assert HasPreimage(v, rest[i - 1].1.proposal); }
      }
      forall i, j | 0 <= i < j < |due| && due[i].1.proposal == due[j].1.proposal
        ensures !UsesUp(cfg, w, due[i].1, issuance)
      {
        assert HasPreimage(v, rest[j - 1].1.proposal);
        if i > 0 { assert !UsesUp(cfg, v, rest[i - 1].1, issuance); }
      }
    }
  }

  lemma BakedHasPreimage(cfg: Config, w: World, r: nat, st: Status, issuance: map<CurrencyId, nat>)
    requires Bake(cfg, w, r, st, issuance).Ok?
    ensures HasPreimage(w, st.proposal)
  {}

  /** All due referenda are baked exactly when that holds, whatever their number and order. */
  lemma {:induction false} BakesExactlyWhenAtHand(cfg: Config, w: World, due: seq<(nat, Status)>,
                                                  issuance: map<CurrencyId, nat>)
    ensures BakeAll(cfg, w, due, issuance).1 <==> AtHand(cfg, w, due, issuance)
    decreases |due|
  {
    hide UsesUp;
    if due != [] {
      var b := Bake(cfg, w, due[0].0, due[0].1, issuance);
      if b.Ok? {
        var next := b.value.0.(voting := Finish(b.value.0.voting, due[0].0, b.value.1));
        AtHandStep(cfg, w, due, issuance, next);
        BakesExactlyWhenAtHand(cfg, next, due[1..], issuance);
      } else {
        assert !HasPreimage(w, due[0].1.proposal);
      }
    }
  }
}
