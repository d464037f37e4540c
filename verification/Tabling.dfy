/** Tabling: whose turn it is, which public proposal wins, and what stays in the queue. */
module Tabling {
  import opened Wrappers
  import opened Voting
  import opened Democracy

  /** The queued proposals are distinct, were made before, and each has its deposit. */
  ghost predicate QueueOk(w: World) {
    && (forall i, j :: 0 <= i < j < |w.proposals| ==> w.proposals[i].index != w.proposals[j].index)
    && (forall p :: p in w.proposals ==> p.index in w.deposits)
    && (forall i :: i in w.deposits ==> i < w.proposalCount)
  }

  ghost predicate DistinctIndices(props: seq<Proposal>) {
    forall i, j :: 0 <= i < j < |props| ==> props[i].index != props[j].index
  }

  // ----- removing from the queue -----

  lemma {:induction false} RetainKeepsOthers(props: seq<Proposal>, index: nat)
    ensures forall p :: p in Retain(props, index) <==> p in props && p.index != index
    ensures DistinctIndices(props) ==> DistinctIndices(Retain(props, index))
  {
    if props != [] {
      var rest, kept := props[1..], Retain(props[1..], index);
      RetainKeepsOthers(rest, index);
      assert forall p :: p in props <==> p == props[0] || p in rest;
      if DistinctIndices(props) {
        forall i, j | 0 <= i < j < |rest| ensures rest[i].index != rest[j].index { assert props[i + 1].index != props[j + 1].index; }
        forall k | 0 <= k < |kept| ensures kept[k].index != props[0].index {
          assert kept[k] in rest;
          var m :| 0 <= m < |rest| && rest[m] == kept[k];
          assert props[m + 1].index != props[0].index;
        }
      }
    }
  }

  lemma RemoveAtKeepsOthers(props: seq<Proposal>, i: nat)
    requires i < |props| && DistinctIndices(props)
    ensures var rest := props[..i] + props[i + 1..];
            DistinctIndices(rest) && forall p :: p in rest <==> p in props && p.index != props[i].index
  {
    var rest := props[..i] + props[i + 1..];
    assert forall k :: 0 <= k < |rest| ==> rest[k] == props[if k < i then k else k + 1];
    forall p | p in props && p.index != props[i].index ensures p in rest {
      var k :| 0 <= k < |props| && props[k] == p;
      assert rest[if k < i then k else k - 1] == p;
    }
  }

  /** Taking the winner out keeps all the others, as often as they occur. */
  lemma SwapRemoveMultiset(props: seq<Proposal>, i: nat)
    requires i < |props|
    ensures multiset(SwapRemove(props, i)) == multiset(props) - multiset{props[i]}
  {
    var n := |props| - 1;
    assert props == props[..n] + [props[n]];
    if i < n { assert SwapRemove(props, i) == props[..n][i := props[n]]; } else { assert SwapRemove(props, i) == props[..n]; }
  }

  lemma SwapRemoveKeepsOthers(props: seq<Proposal>, i: nat)
    requires i < |props| && DistinctIndices(props)
    ensures var rest := SwapRemove(props, i);
            DistinctIndices(rest) && forall p :: p in rest <==> p in props && p.index != props[i].index
  {
    var n, rest := |props| - 1, SwapRemove(props, i);
    assert forall k :: 0 <= k < n ==> rest[k] == props[if k == i then n else k];
    forall p | p in props && p.index != props[i].index ensures p in rest {
      var k :| 0 <= k < |props| && props[k] == p;
      assert rest[if k == n then i else k] == p;
    }
  }

  // ----- the winner -----

  /** The tabled proposal has the highest backing in the queue, and is the last one with it. */
  lemma {:induction false} BestHasMostBacking(w: World, props: seq<Proposal>)
    requires props != []
    ensures var i := Best(w, props);
            && (forall j :: 0 <= j < |props| ==> BackingFor(w, props[j].index) <= BackingFor(w, props[i].index))
            && (forall j :: i < j < |props| ==> BackingFor(w, props[j].index) < BackingFor(w, props[i].index))
  {
    var n := |props| - 1;
    if n > 0 {
      BestHasMostBacking(w, props[..n]);
      forall j | 0 <= j < n ensures props[j] == props[..n][j] {}
    }
  }

  /** Tabling a public proposal: the best-backed one leaves the queue and becomes a referendum. */
  lemma PublicTabling(cfg: Config, w: World)
    requires QueueOk(w) && w.proposals != []
    ensures var (v, t) := LaunchPublic(cfg, w);
            && t.Public? && t.proposal in w.proposals
            && (forall p :: p in w.proposals ==> BackingFor(w, p.index) <= BackingFor(w, t.proposal.index))
            && multiset(v.proposals) == multiset(w.proposals) - multiset{t.proposal}
            && QueueOk(v)
            && OngoingStatus(v.voting, w.voting.count)
               == Some(Status(w.voting.now + cfg.votingPeriod, t.proposal.hash, SuperMajorityApprove,
                              cfg.enactmentPeriod, Tally(0, 0, 0)))
  {
    hide Best, SwapRemove, UnreserveAll, BackingFor;
    var i := Best(w, w.proposals);
    BestHasMostBacking(w, w.proposals);
    SwapRemoveMultiset(w.proposals, i);
    SwapRemoveKeepsOthers(w.proposals, i);
    assert w.proposals[i] in w.proposals;
  }

  // ----- whose turn it is -----

  /** Exactly what is tabled in a launch slot: the queue that did not go last time goes first. */
  lemma TurnTaken(cfg: Config, w: World)
    ensures var (v, t) := LaunchNext(cfg, w);
            && (t == External <==> w.nextExternal.Some? && (!w.lastWasExternal || w.proposals == []))
            && (t.Public? <==> w.proposals != [] && (w.lastWasExternal || w.nextExternal.None?))
            && (t == Nothing <==> w.nextExternal.None? && w.proposals == [])
            && (v.lastWasExternal <==> t == External)
  {
    hide Best, SwapRemove, UnreserveAll, Inject;
  }

  lemma LaunchKeepsQueue(cfg: Config, w: World)
    requires QueueOk(w)
    ensures QueueOk(LaunchNext(cfg, w).0)
  {
    hide LaunchPublic, Inject;
    var cleared := w.(lastWasExternal := false);
    if w.proposals != [] { PublicTabling(cfg, cleared); } else { NothingToTable(cfg, cleared); }
  }

  lemma NothingToTable(cfg: Config, w: World)
    requires w.proposals == []
    ensures LaunchPublic(cfg, w) == (w, Nothing)
  {}

  // ----- the other operations keep the queue -----

  lemma ProposeKeepsQueue(cfg: Config, w: World, who: AccountId, h: Hash, c: CurrencyId, value: nat)
    requires QueueOk(w) && Propose(cfg, w, who, h, c, value).Ok?
    ensures QueueOk(Propose(cfg, w, who, h, c, value).value)
  {
    var v := Propose(cfg, w, who, h, c, value).value;
    assert w.proposalCount !in w.deposits;
    forall i, j | 0 <= i < j < |v.proposals| ensures v.proposals[i].index != v.proposals[j].index {
      assert v.proposals[i] in w.proposals;
    }
  }

  lemma CancelProposalKeepsQueue(w: World, index: nat)
    requires QueueOk(w)
    ensures QueueOk(CancelProposal(w, index))
  {
    hide SlashAll;
    RetainKeepsOthers(w.proposals, index);
  }

  lemma BlacklistKeepsQueue(w: World, h: Hash, which: Option<nat>)
    requires QueueOk(w)
    ensures QueueOk(Blacklist(w, h, which))
  {
    hide Unqueue, QueueOk, Cancel;
    var listed := w.(blacklist := w.blacklist[h := (NEVER, [])]);
    SameQueue(w, listed);
    UnqueueKeepsQueue(listed, h);
    SameQueue(Unqueue(listed, h), Blacklist(w, h, which));
  }

  lemma SameQueue(w: World, v: World)
    requires QueueOk(w) && v.deposits.Keys == w.deposits.Keys && v.proposalCount == w.proposalCount
    requires v.proposals == w.proposals || v.proposals == []
    ensures QueueOk(v)
  {}

  lemma UnqueueKeepsQueue(w: World, h: Hash)
    requires QueueOk(w)
    ensures QueueOk(Unqueue(w, h))
  {
    hide SlashAll, PositionOf;
    var i := PositionOf(w.proposals, h);
    if i < |w.proposals| {
      RemoveAtKeepsOthers(w.proposals, i);
      assert w.proposals[i] in w.proposals;
    }
  }

  lemma {:induction false} BakeAllKeepsQueue(cfg: Config, w: World, due: seq<(nat, Status)>,
                                             issuance: map<CurrencyId, nat>)
    ensures var v := BakeAll(cfg, w, due, issuance).0;
            && v.proposals == w.proposals && v.deposits == w.deposits && v.proposalCount == w.proposalCount
            && v.lastWasExternal == w.lastWasExternal && v.nextExternal == w.nextExternal
    decreases |due|
  {
    hide Reserved, Finish;
    if due != [] {
      var b := Bake(cfg, w, due[0].0, due[0].1, issuance);
      if b.Ok? {
        var next := b.value.0.(voting := Finish(b.value.0.voting, due[0].0, b.value.1));
        BakeAllKeepsQueue(cfg, next, due[1..], issuance);
      }
    }
  }
}
