/** Deposit backing: what this module has reserved on an account is exactly what its recorded
    deposits say, so nothing it gives back, slashes or hands over is ever short. */
module Deposits {
  import opened Numbers
  import opened Wrappers
  import opened MapSums
  import opened Voting
  import opened Democracy

  function Count(whos: seq<AccountId>, a: AccountId): nat {
    if whos == [] then 0 else (if whos[0] == a then 1 else 0) + Count(whos[1..], a)
  }

  /** What one proposal's deposit holds of `a`; seconding twice counts twice. */
  function DepositPart(d: Deposit, c: CurrencyId, a: AccountId): nat {
    if d.currency == c then Count(d.depositors, a) * d.amount else 0
  }

  function PreimagePart(p: Preimage, c: CurrencyId, a: AccountId): nat {
    if p.Available? && p.currency == c && p.provider == a then p.deposit else 0
  }

  function DepositParts(deposits: map<nat, Deposit>, c: CurrencyId, a: AccountId): map<nat, nat> {
    map i | i in deposits :: DepositPart(deposits[i], c, a)
  }

  function PreimageParts(preimages: map<Hash, Preimage>, c: CurrencyId, a: AccountId): map<Hash, nat> {
    map h | h in preimages :: PreimagePart(preimages[h], c, a)
  }

  /** Everything recorded as deposited by `a` in `c`. */
  ghost function Backing(w: World, c: CurrencyId, a: AccountId): nat {
    Sum(DepositParts(w.deposits, c, a)) + Sum(PreimageParts(w.preimages, c, a))
  }

  /** What is reserved on `a` beyond that, on behalf of other modules. */
  ghost function Excess(w: World, c: CurrencyId, a: AccountId): int {
    Reserved(w.bank, c, a) - Backing(w, c, a)
  }

  ghost predicate Backed(w: World) { forall c, a :: Excess(w, c, a) >= 0 }

  ghost predicate ExcessKept(w: World, v: World) { forall c, a :: Excess(v, c, a) == Excess(w, c, a) }

  lemma DepositSet(w: World, i: nat, d: Deposit, c: CurrencyId, a: AccountId)
    ensures Sum(DepositParts(w.deposits[i := d], c, a)) + (if i in w.deposits then DepositPart(w.deposits[i], c, a) else 0)
            == Sum(DepositParts(w.deposits, c, a)) + DepositPart(d, c, a)
  {
    hide Sum;
    SumUpdate(DepositParts(w.deposits, c, a), i, DepositPart(d, c, a));
    assert DepositParts(w.deposits[i := d], c, a) == DepositParts(w.deposits, c, a)[i := DepositPart(d, c, a)];
  }

  lemma DepositTaken(w: World, i: nat, c: CurrencyId, a: AccountId)
    requires i in w.deposits
    ensures Sum(DepositParts(w.deposits - {i}, c, a)) + DepositPart(w.deposits[i], c, a) == Sum(DepositParts(w.deposits, c, a))
  {
    hide Sum;
    SumSplit(DepositParts(w.deposits, c, a), i);
    assert DepositParts(w.deposits - {i}, c, a) == DepositParts(w.deposits, c, a) - {i};
  }

  lemma PreimageSet(w: World, h: Hash, p: Preimage, c: CurrencyId, a: AccountId)
    ensures Sum(PreimageParts(w.preimages[h := p], c, a)) + (if h in w.preimages then PreimagePart(w.preimages[h], c, a) else 0)
            == Sum(PreimageParts(w.preimages, c, a)) + PreimagePart(p, c, a)
  {
    hide Sum;
    SumUpdate(PreimageParts(w.preimages, c, a), h, PreimagePart(p, c, a));
    assert PreimageParts(w.preimages[h := p], c, a) == PreimageParts(w.preimages, c, a)[h := PreimagePart(p, c, a)];
  }

  lemma PreimageTaken(w: World, h: Hash, c: CurrencyId, a: AccountId)
    ensures Sum(PreimageParts(w.preimages - {h}, c, a)) + (if h in w.preimages then PreimagePart(w.preimages[h], c, a) else 0)
            == Sum(PreimageParts(w.preimages, c, a))
  {
    hide Sum;
    assert PreimageParts(w.preimages - {h}, c, a) == PreimageParts(w.preimages, c, a) - {h};
    if h in w.preimages {
      SumSplit(PreimageParts(w.preimages, c, a), h);
    } else {
      assert w.preimages - {h} == w.preimages;
    }
  }

  // ----- paying back and slashing everyone in a deposit -----

  lemma CountScaled(whos: seq<AccountId>, a: AccountId, amount: nat)
    requires whos != []
    ensures Count(whos, a) * amount == Count(whos[1..], a) * amount + (if whos[0] == a then amount else 0)
  {}

  ghost predicate Holds(b: Bank, c: CurrencyId, whos: seq<AccountId>, amount: nat) {
    forall a :: Reserved(b, c, a) >= Count(whos, a) * amount
  }

  lemma HoldsFirst(b: Bank, c: CurrencyId, whos: seq<AccountId>, amount: nat)
    requires whos != [] && Holds(b, c, whos, amount)
    ensures Reserved(b, c, whos[0]) >= amount
    ensures Holds(Unreserve(b, c, whos[0], amount), c, whos[1..], amount)
    ensures Holds(SlashReserved(b, c, whos[0], amount), c, whos[1..], amount)
  {
    forall a ensures Reserved(b, c, a) >= Count(whos[1..], a) * amount + (if whos[0] == a then amount else 0) {
      CountScaled(whos, a, amount);
      assert Reserved(b, c, a) >= Count(whos, a) * amount;
    }
  }

  /** Every depositor gets back the amount once for every time it backed the proposal. */
  lemma {:induction false} UnreserveAllEffect(b: Bank, c: CurrencyId, whos: seq<AccountId>, amount: nat,
                                              x: CurrencyId, a: AccountId)
    requires Holds(b, c, whos, amount)
    ensures var n := UnreserveAll(b, c, whos, amount); var back := if x == c then Count(whos, a) * amount else 0;
            Free(n, x, a) == Free(b, x, a) + back && Reserved(n, x, a) + back == Reserved(b, x, a)
    decreases |whos|
  {
    if whos != [] {
      HoldsFirst(b, c, whos, amount);
      CountScaled(whos, a, amount);
      UnreserveAllEffect(Unreserve(b, c, whos[0], amount), c, whos[1..], amount, x, a);
    }
  }

  /** Every depositor loses the amount once for every time it backed the proposal, and nothing free. */
  lemma {:induction false} SlashAllEffect(b: Bank, c: CurrencyId, whos: seq<AccountId>, amount: nat,
                                          x: CurrencyId, a: AccountId)
    requires Holds(b, c, whos, amount)
    ensures var n := SlashAll(b, c, whos, amount); var gone := if x == c then Count(whos, a) * amount else 0;
            Free(n, x, a) == Free(b, x, a) && Reserved(n, x, a) + gone == Reserved(b, x, a)
    decreases |whos|
  {
    if whos != [] {
      HoldsFirst(b, c, whos, amount);
      CountScaled(whos, a, amount);
      SlashAllEffect(SlashReserved(b, c, whos[0], amount), c, whos[1..], amount, x, a);
    }
  }

  /** A recorded deposit is covered by the reserves of its depositors. */
  lemma DepositIsHeld(w: World, i: nat)
    requires Backed(w) && i in w.deposits
    ensures var d := w.deposits[i]; Holds(w.bank, d.currency, d.depositors, d.amount)
  {
    hide Sum;
    var d := w.deposits[i];
    forall a ensures Reserved(w.bank, d.currency, a) >= Count(d.depositors, a) * d.amount {
      DepositTaken(w, i, d.currency, a);
      assert Excess(w, d.currency, a) >= 0;
    }
  }

  lemma PreimageIsHeld(w: World, h: Hash)
    requires Backed(w) && h in w.preimages && w.preimages[h].Available?
    ensures var p := w.preimages[h]; Reserved(w.bank, p.currency, p.provider) >= p.deposit
  {
    hide Sum;
    var p := w.preimages[h];
    PreimageTaken(w, h, p.currency, p.provider);
    assert Excess(w, p.currency, p.provider) >= 0;
  }

  // ----- proposals -----

  lemma ProposeKeeps(cfg: Config, w: World, who: AccountId, h: Hash, c: CurrencyId, value: nat)
    requires w.proposalCount !in w.deposits && Propose(cfg, w, who, h, c, value).Ok?
    ensures ExcessKept(w, Propose(cfg, w, who, h, c, value).value)
  {
    hide Sum;
    var v := Propose(cfg, w, who, h, c, value).value;
    forall x, a ensures Excess(v, x, a) == Excess(w, x, a) {
      assert Count([who], a) == if who == a then 1 else 0;
      DepositSet(w, w.proposalCount, Deposit([who], c, value), x, a);
    }
  }

  lemma {:induction false} CountAppend(whos: seq<AccountId>, who: AccountId, a: AccountId)
    ensures Count(whos + [who], a) == Count(whos, a) + (if who == a then 1 else 0)
  {
    if whos == [] {
      assert Count([who], a) == if who == a then 1 else 0;
    } else {
      assert (whos + [who])[1..] == whos[1..] + [who];
      CountAppend(whos[1..], who, a);
    }
  }

  lemma SecondKeeps(cfg: Config, w: World, who: AccountId, i: nat, c: CurrencyId, bound: nat)
    requires Second(cfg, w, who, i, c, bound).Ok?
    ensures ExcessKept(w, Second(cfg, w, who, i, c, bound).value)
  {
    hide Sum, Count;
    var v, d := Second(cfg, w, who, i, c, bound).value, w.deposits[i];
    forall x, a ensures Excess(v, x, a) == Excess(w, x, a) {
      CountAppend(d.depositors, who, a);
      assert Count(d.depositors + [who], a) * d.amount == Count(d.depositors, a) * d.amount + (if who == a then d.amount else 0);
      DepositSet(w, i, v.deposits[i], x, a);
    }
  }

  /** Slashing a deposit takes from every depositor exactly what it put in. */
  lemma SlashKeeps(w: World, i: nat)
    requires Backed(w)
    ensures ExcessKept(w, SlashDeposit(w, i))
    ensures i in w.deposits ==> forall x, a ::
              && Free(SlashDeposit(w, i).bank, x, a) == Free(w.bank, x, a)
              && Reserved(SlashDeposit(w, i).bank, x, a) + DepositPart(w.deposits[i], x, a) == Reserved(w.bank, x, a)
  {
    hide Sum, SlashAll;
    if i in w.deposits {
      var v, d := SlashDeposit(w, i), w.deposits[i];
      DepositIsHeld(w, i);
      forall x, a
        ensures Excess(v, x, a) == Excess(w, x, a) && Free(v.bank, x, a) == Free(w.bank, x, a)
        ensures Reserved(v.bank, x, a) + DepositPart(d, x, a) == Reserved(w.bank, x, a)
      {
        SlashAllEffect(w.bank, d.currency, d.depositors, d.amount, x, a);
        DepositTaken(w, i, x, a);
      }
    }
  }

  lemma SameRecords(w: World, v: World)
    requires v.bank == w.bank && v.deposits == w.deposits && v.preimages == w.preimages
    ensures ExcessKept(w, v) && (Backed(w) ==> Backed(v))
  {
    hide Sum;
    assert forall c, a :: Excess(v, c, a) == Excess(w, c, a);
  }

  lemma KeptTwice(w: World, v: World, u: World)
    requires ExcessKept(w, v) && ExcessKept(v, u)
    ensures ExcessKept(w, u) && (Backed(w) ==> Backed(u))
  {
    hide Excess;
    forall c, a ensures Excess(u, c, a) == Excess(w, c, a) { assert Excess(v, c, a) == Excess(w, c, a); }
    if Backed(w) { forall c, a ensures Excess(u, c, a) >= 0 { assert Excess(w, c, a) >= 0; } }
  }

  lemma CancelProposalKeeps(w: World, i: nat)
    requires Backed(w)
    ensures ExcessKept(w, CancelProposal(w, i))
  {
    hide SlashDeposit;
    var v := w.(proposals := Retain(w.proposals, i));
    SameRecords(w, v);
    SlashKeeps(v, i);
    KeptTwice(w, v, SlashDeposit(v, i));
  }

  lemma BlacklistKeeps(w: World, h: Hash, which: Option<nat>)
    requires Backed(w)
    ensures ExcessKept(w, Blacklist(w, h, which))
  {
    hide Unqueue, Excess, Cancel, ExcessKept;
    var listed := w.(blacklist := w.blacklist[h := (NEVER, [])]);
    var unqueued, v := Unqueue(listed, h), Blacklist(w, h, which);
    SameRecords(w, listed);
    UnqueueKeeps(listed, h);
    KeptTwice(w, listed, unqueued);
    SameRecords(unqueued, v);
    KeptTwice(w, unqueued, v);
  }

  lemma UnqueueKeeps(w: World, h: Hash)
    requires Backed(w)
    ensures ExcessKept(w, Unqueue(w, h))
  {
    hide SlashDeposit, Excess, PositionOf;
    var i := PositionOf(w.proposals, h);
    if i < |w.proposals| {
      var v := w.(proposals := w.proposals[..i] + w.proposals[i + 1..]);
      SameRecords(w, v);
      SlashKeeps(v, w.proposals[i].index);
      KeptTwice(w, v, Unqueue(w, h));
    } else {
      SameRecords(w, w);
    }
  }

  // ----- preimages -----

  lemma NoteKeeps(cfg: Config, w: World, who: AccountId, c: CurrencyId, data: seq<nat>)
    requires NotePreimage(cfg, w, who, c, data).Ok?
    ensures ExcessKept(w, NotePreimage(cfg, w, who, c, data).value)
  {
    hide Sum;
    var v, h := NotePreimage(cfg, w, who, c, data).value, cfg.hashOf(data);
    forall x, a ensures Excess(v, x, a) == Excess(w, x, a) {
      PreimageSet(w, h, v.preimages[h], x, a);
    }
  }

  lemma NoteImminentKeeps(cfg: Config, w: World, who: AccountId, c: CurrencyId, data: seq<nat>)
    requires NoteImminentPreimage(cfg, w, who, c, data).Ok?
    ensures ExcessKept(w, NoteImminentPreimage(cfg, w, who, c, data).value)
  {
    hide Sum;
    var v, h := NoteImminentPreimage(cfg, w, who, c, data).value, cfg.hashOf(data);
    forall x, a ensures Excess(v, x, a) == Excess(w, x, a) {
      PreimageSet(w, h, v.preimages[h], x, a);
    }
  }

  /** Reaping hands the provider's whole deposit to the reaper. */
  lemma ReapKeeps(cfg: Config, w: World, who: AccountId, h: Hash, bound: nat)
    requires Backed(w) && ReapPreimage(cfg, w, who, h, bound).Ok?
    ensures var v := ReapPreimage(cfg, w, who, h, bound).value;
            && ExcessKept(w, v) && h !in v.preimages
            && var p := w.preimages[h]; Free(v.bank, p.currency, who) == Free(w.bank, p.currency, who) + p.deposit
  {
    hide Sum;
    var v := ReapPreimage(cfg, w, who, h, bound).value;
    PreimageIsHeld(w, h);
    forall x, a ensures Excess(v, x, a) == Excess(w, x, a) {
      PreimageTaken(w, h, x, a);
    }
  }

  /** Enacting uses the preimage up and settles its whole deposit, one way or the other. */
  lemma EnactKeeps(cfg: Config, w: World, h: Hash)
    requires Backed(w)
    ensures var v := EnactProposal(cfg, w, h);
            && ExcessKept(w, v) && Backed(v)
            && (HasPreimage(w, h) ==>
                  var p := w.preimages[h];
                  && Reserved(v.bank, p.currency, p.provider) + p.deposit == Reserved(w.bank, p.currency, p.provider)
                  && Free(v.bank, p.currency, p.provider)
                     == Free(w.bank, p.currency, p.provider) + if cfg.decodes(p.data) then p.deposit else 0)
  {
    hide Sum;
    var v := EnactProposal(cfg, w, h);
    if HasPreimage(w, h) { PreimageIsHeld(w, h); }
    forall x, a ensures Excess(v, x, a) == Excess(w, x, a) {
      PreimageTaken(w, h, x, a);
    }
    forall x, a ensures Excess(v, x, a) >= 0 { assert Excess(w, x, a) >= 0; }
  }

  // ----- tabling and baking -----

  /** Tabling a public proposal pays back every depositor in full. */
  lemma LaunchPublicKeeps(cfg: Config, w: World)
    requires Backed(w)
    ensures var (v, t) := LaunchPublic(cfg, w);
            && ExcessKept(w, v)
            && (t.Public? && t.proposal.index in w.deposits ==>
                  && t.proposal.index !in v.deposits
                  && forall x, a :: Free(v.bank, x, a) == Free(w.bank, x, a) + DepositPart(w.deposits[t.proposal.index], x, a))
  {
    hide Sum, UnreserveAll, Best;
    var (v, t) := LaunchPublic(cfg, w);
    if t.Public? && t.proposal.index in w.deposits {
      var i := t.proposal.index;
      var d := w.deposits[i];
      DepositIsHeld(w, i);
      forall x, a
        ensures Excess(v, x, a) == Excess(w, x, a)
        ensures Free(v.bank, x, a) == Free(w.bank, x, a) + DepositPart(d, x, a)
      {
        UnreserveAllEffect(w.bank, d.currency, d.depositors, d.amount, x, a);
        DepositTaken(w, i, x, a);
      }
    } else {
      SameRecords(w, v);
    }
  }

  lemma LaunchNextKeeps(cfg: Config, w: World)
    requires Backed(w)
    ensures ExcessKept(w, LaunchNext(cfg, w).0)
  {
    hide LaunchPublic, Excess;
    var cleared := w.(lastWasExternal := false);
    SameRecords(w, cleared);
    LaunchPublicKeeps(cfg, cleared);
    SameRecords(cleared, LaunchExternal(cfg, cleared).0);
    KeptTwice(w, cleared, LaunchPublic(cfg, cleared).0);
    KeptTwice(w, cleared, LaunchExternal(cfg, cleared).0);
  }

  lemma BakeKeeps(cfg: Config, w: World, r: nat, st: Status, issuance: map<CurrencyId, nat>)
    requires Backed(w) && Bake(cfg, w, r, st, issuance).Ok?
    ensures var v := Bake(cfg, w, r, st, issuance).value.0; ExcessKept(w, v) && Backed(v)
  {
    hide Sum, EnactProposal;
    var v := Bake(cfg, w, r, st, issuance).value.0;
    EnactKeeps(cfg, w, st.proposal);
    if v != w && v != EnactProposal(cfg, w, st.proposal) {
      forall x, a ensures Excess(v, x, a) == Excess(w, x, a) {
        PreimageSet(w, st.proposal, v.preimages[st.proposal], x, a);
      }
      forall x, a ensures Excess(v, x, a) >= 0 { assert Excess(w, x, a) >= 0; }
    } else if v == w {
      SameRecords(w, v);
    }
  }

  lemma {:induction false} BakeAllKeeps(cfg: Config, w: World, due: seq<(nat, Status)>, issuance: map<CurrencyId, nat>)
    requires Backed(w)
    ensures ExcessKept(w, BakeAll(cfg, w, due, issuance).0)
    decreases |due|
  {
    hide Bake, Excess;
    SameRecords(w, w);
    if due != [] {
      var r := Bake(cfg, w, due[0].0, due[0].1, issuance);
      if r.Ok? {
        var v := r.value.0;
        var next := v.(voting := Finish(v.voting, due[0].0, r.value.1));
        BakeKeeps(cfg, w, due[0].0, due[0].1, issuance);
        SameRecords(v, next);
        KeptTwice(w, v, next);
        BakeAllKeeps(cfg, next, due[1..], issuance);
        KeptTwice(w, next, BakeAll(cfg, w, due, issuance).0);
      }
    }
  }

  lemma BeginBlockKeeps(cfg: Config, w: World, issuance: map<CurrencyId, nat>)
    requires Backed(w) && cfg.launchPeriod > 0
    ensures ExcessKept(w, BeginBlock(cfg, w, issuance).0)
  {
    hide LaunchNext, BakeAll, Excess, Due;
    var v := Launched(cfg, w);
    SameRecords(w, w);
    LaunchNextKeeps(cfg, w);
    KeptTwice(w, w, v);
    BakeAllKeeps(cfg, v, Due(v), issuance);
    KeptTwice(w, v, BeginBlock(cfg, w, issuance).0);
  }
}
