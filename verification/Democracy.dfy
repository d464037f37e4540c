/** The rest of the democracy module: proposals and their deposits, preimages, tabling, and the
    work done at the beginning of a block. */
module Democracy {
  import opened Numbers
  import opened Wrappers
  import opened Voting

  // ----- the ledger -----

  type Holding = (CurrencyId, AccountId)

  datatype Bank = Bank(free: map<Holding, nat>, reserved: map<Holding, nat>)

  function At(m: map<Holding, nat>, c: CurrencyId, a: AccountId): nat { if (c, a) in m then m[(c, a)] else 0 }

  function Free(b: Bank, c: CurrencyId, a: AccountId): nat { At(b.free, c, a) }

  function Reserved(b: Bank, c: CurrencyId, a: AccountId): nat { At(b.reserved, c, a) }

  function Reserve(b: Bank, c: CurrencyId, a: AccountId, amount: nat): Option<Bank> {
    if Free(b, c, a) < amount then None
    else Some(Bank(b.free[(c, a) := Free(b, c, a) - amount], b.reserved[(c, a) := Reserved(b, c, a) + amount]))
  }

  /** Returns as much of `amount` as is reserved. */
  function Unreserve(b: Bank, c: CurrencyId, a: AccountId, amount: nat): Bank {
    var moved := Min(amount, Reserved(b, c, a));
    Bank(b.free[(c, a) := Free(b, c, a) + moved], b.reserved[(c, a) := Reserved(b, c, a) - moved])
  }

  /** Takes away as much of `amount` as is reserved. */
  function SlashReserved(b: Bank, c: CurrencyId, a: AccountId, amount: nat): Bank {
    b.(reserved := b.reserved[(c, a) := SatSub(Reserved(b, c, a), amount)])
  }

  /** Hands as much of `amount` as is reserved by `from` to the free balance of `to`. */
  function Repatriate(b: Bank, c: CurrencyId, from: AccountId, to: AccountId, amount: nat): Bank {
    var moved := Min(amount, Reserved(b, c, from));
    Bank(b.free[(c, to) := Free(b, c, to) + moved], b.reserved[(c, from) := Reserved(b, c, from) - moved])
  }

  function UnreserveAll(b: Bank, c: CurrencyId, whos: seq<AccountId>, amount: nat): Bank
    decreases |whos|
  {
    if whos == [] then b else UnreserveAll(Unreserve(b, c, whos[0], amount), c, whos[1..], amount)
  }

  function SlashAll(b: Bank, c: CurrencyId, whos: seq<AccountId>, amount: nat): Bank
    decreases |whos|
  {
    if whos == [] then b else SlashAll(SlashReserved(b, c, whos[0], amount), c, whos[1..], amount)
  }

  // ----- the storage -----

  datatype Proposal = Proposal(index: nat, hash: Hash, proposer: AccountId)

  datatype Deposit = Deposit(depositors: seq<AccountId>, currency: CurrencyId, amount: nat)

  datatype Preimage =
    | Missing(due: nat)
    | Available(data: seq<nat>, provider: AccountId, currency: CurrencyId, deposit: nat, since: nat, expiry: Option<nat>)

  datatype World = World(
    voting: State,
    proposals: seq<Proposal>,
    proposalCount: nat,
    deposits: map<nat, Deposit>,
    preimages: map<Hash, Preimage>,
    nextExternal: Option<(Hash, Threshold)>,
    lastWasExternal: bool,
    blacklist: map<Hash, (nat, seq<AccountId>)>,
    cancelled: set<Hash>,
    bank: Bank)

  datatype Refusal =
    | ValueLow
    | ProposalMissing
    | AlreadyCanceled
    | DuplicateProposal
    | ProposalBlacklisted
    | NotSimpleMajority
    | InvalidHash
    | NoProposal
    | AlreadyVetoed
    | DuplicatePreimage
    | NotImminent
    | TooEarly
    | Imminent
    | PreimageMissing
    | PreimageInvalid
    | NoneWaiting
    | WrongUpperBound
    | InvalidCurrencyType
    | TooManyProposals
    | InsufficientBalance
    | BadReferendum

  /** The permanent blacklist entry never expires; the largest block number of the runtime. */
  const NEVER: nat := 0xffff_ffff

  predicate StillBlacklisted(w: World, h: Hash) { h in w.blacklist && w.voting.now < w.blacklist[h].0 }

  // ----- proposing -----

  function Propose(cfg: Config, w: World, who: AccountId, h: Hash, c: CurrencyId, value: nat): Result<World, Refusal> {
    if c !in cfg.governanceCurrencies then Err(InvalidCurrencyType)
    else if value < cfg.minimumDeposit(c) then Err(ValueLow)
    else if |w.proposals| >= cfg.maxProposals then Err(TooManyProposals)
    else if StillBlacklisted(w, h) then Err(ProposalBlacklisted)
    else match Reserve(w.bank, c, who, value)
      case None => Err(InsufficientBalance)
      case Some(b) =>
        Ok(w.(bank := b,
              proposalCount := w.proposalCount + 1,
              deposits := w.deposits[w.proposalCount := Deposit([who], c, value)],
              proposals := w.proposals + [Proposal(w.proposalCount, h, who)]))
  }

  /** The seconder reserves the recorded amount in the recorded currency. */
  function Second(cfg: Config, w: World, who: AccountId, index: nat, c: CurrencyId,
                  bound: nat): Result<World, Refusal> {
    if c !in cfg.governanceCurrencies then Err(InvalidCurrencyType)
    else if index !in w.deposits then Err(ProposalMissing)
    else if |w.deposits[index].depositors| > bound then Err(WrongUpperBound)
    else
      var d := w.deposits[index];
      match Reserve(w.bank, d.currency, who, d.amount)
      case None => Err(InsufficientBalance)
      case Some(b) =>
        Ok(w.(bank := b, deposits := w.deposits[index := d.(depositors := d.depositors + [who])]))
  }

  /** Forgets a deposit and slashes everyone in it. */
  function SlashDeposit(w: World, index: nat): World {
    if index !in w.deposits then w
    else
      var d := w.deposits[index];
      w.(deposits := w.deposits - {index}, bank := SlashAll(w.bank, d.currency, d.depositors, d.amount))
  }

  function Retain(props: seq<Proposal>, index: nat): seq<Proposal> {
    if props == [] then []
    else if props[0].index == index then Retain(props[1..], index)
    else [props[0]] + Retain(props[1..], index)
  }

  function CancelProposal(w: World, index: nat): World {
    SlashDeposit(w.(proposals := Retain(w.proposals, index)), index)
  }

  /** The position of the first proposal with this hash, or the length. */
  function PositionOf(props: seq<Proposal>, h: Hash): (i: nat)
    ensures i <= |props|
    ensures i < |props| ==> props[i].hash == h
  {
    if props == [] || props[0].hash == h then 0 else 1 + PositionOf(props[1..], h)
  }

  /** Takes the first proposal with this hash out of the public queue and slashes its deposit. */
  function Unqueue(w: World, h: Hash): World {
    var i := PositionOf(w.proposals, h);
    if i < |w.proposals| then
      SlashDeposit(w.(proposals := w.proposals[..i] + w.proposals[i + 1..]), w.proposals[i].index)
    else w
  }

  function Blacklist(w: World, h: Hash, which: Option<nat>): World {
    var unqueued := Unqueue(w.(blacklist := w.blacklist[h := (NEVER, [])]), h);
    var internal :=
      if w.nextExternal.Some? && w.nextExternal.value.0 == h then unqueued.(nextExternal := None) else unqueued;
    if which.Some? && OngoingStatus(w.voting, which.value).Some? && OngoingStatus(w.voting, which.value).value.proposal == h then
      internal.(voting := Cancel(w.voting, which.value))
    else internal
  }

  // ----- preimages -----

  function NotePreimage(cfg: Config, w: World, who: AccountId, c: CurrencyId, data: seq<nat>): Result<World, Refusal> {
    var h, deposit := cfg.hashOf(data), |data| * cfg.byteDeposit;
    if h in w.preimages then Err(DuplicatePreimage)
    else if c !in cfg.governanceCurrencies then Err(InvalidCurrencyType)
    else match Reserve(w.bank, c, who, deposit)
      case None => Err(InsufficientBalance)
      case Some(b) =>
        Ok(w.(bank := b, preimages := w.preimages[h := Available(data, who, c, deposit, w.voting.now, None)]))
  }

  function NoteImminentPreimage(cfg: Config, w: World, who: AccountId, c: CurrencyId,
                                data: seq<nat>): Result<World, Refusal> {
    var h := cfg.hashOf(data);
    if h !in w.preimages then Err(NotImminent)
    else if w.preimages[h].Available? then Err(DuplicatePreimage)
    else if c !in cfg.governanceCurrencies then Err(InvalidCurrencyType)
    else Ok(w.(preimages := w.preimages[h := Available(data, who, c, 0, w.voting.now, Some(w.preimages[h].due))]))
  }

  function ReapPreimage(cfg: Config, w: World, who: AccountId, h: Hash, bound: nat): Result<World, Refusal> {
    if h !in w.preimages || w.preimages[h].Missing? then Err(PreimageMissing)
    else
      var p, now := w.preimages[h], w.voting.now;
      if |p.data| > bound then Err(WrongUpperBound)
      else if now < p.since + cfg.votingPeriod + (if who == p.provider then 0 else cfg.enactmentPeriod) then Err(TooEarly)
      else if p.expiry.Some? && now <= p.expiry.value then Err(Imminent)
      else Ok(w.(bank := Repatriate(w.bank, p.currency, p.provider, who, p.deposit), preimages := w.preimages - {h}))
  }

  /** Uses up the preimage; the deposit goes back when the data decodes and is slashed otherwise.
      The enacted call itself is not part of this model. */
  function EnactProposal(cfg: Config, w: World, h: Hash): World {
    var taken := w.(preimages := w.preimages - {h});
    if h !in w.preimages || w.preimages[h].Missing? then taken
    else
      var p := w.preimages[h];
      if cfg.decodes(p.data) then taken.(bank := Unreserve(w.bank, p.currency, p.provider, p.deposit))
      else taken.(bank := SlashReserved(w.bank, p.currency, p.provider, p.deposit))
  }

  // ----- external proposals -----

  function ExternalPropose(w: World, h: Hash): Result<World, Refusal> {
    if w.nextExternal.Some? then Err(DuplicateProposal)
    else if StillBlacklisted(w, h) then Err(ProposalBlacklisted)
    else Ok(w.(nextExternal := Some((h, SuperMajorityApprove))))
  }

  /** The majority and default variants replace whatever is waiting. */
  function ExternalReplace(w: World, h: Hash, t: Threshold): World { w.(nextExternal := Some((h, t))) }

  function FastTrack(w: World, h: Hash, period: nat, delay: nat): Result<World, Refusal> {
    match w.nextExternal
    case None => Err(ProposalMissing)
    case Some((e, t)) =>
      if t == SuperMajorityApprove then Err(NotSimpleMajority)
      else if h != e then Err(InvalidHash)
      else Ok(w.(nextExternal := None, voting := Inject(w.voting, w.voting.now + period, h, t, delay)))
  }

  /** Vetoers are kept sorted. */
  function Insert(whos: seq<AccountId>, who: AccountId): seq<AccountId> {
    if whos == [] || whos[0] >= who then [who] + whos else [whos[0]] + Insert(whos[1..], who)
  }

  function VetoExternal(cfg: Config, w: World, who: AccountId, h: Hash): Result<World, Refusal> {
    match w.nextExternal
    case None => Err(NoProposal)
    case Some((e, _)) =>
      var vetoers := if h in w.blacklist then w.blacklist[h].1 else [];
      if h != e then Err(ProposalMissing)
      else if who in vetoers then Err(AlreadyVetoed)
      else Ok(w.(blacklist := w.blacklist[h := (w.voting.now + cfg.cooloffPeriod, Insert(vetoers, who))],
                 nextExternal := None))
  }

  function EmergencyCancel(w: World, r: nat): Result<World, Refusal> {
    match OngoingStatus(w.voting, r)
    case None => Err(BadReferendum)
    case Some(st) =>
      if st.proposal in w.cancelled then Err(AlreadyCanceled)
      else Ok(w.(cancelled := w.cancelled + {st.proposal}, voting := Cancel(w.voting, r)))
  }

  // ----- tabling -----

  /** The amount locked in support of a proposal. */
  function BackingFor(w: World, index: nat): nat {
    if index in w.deposits then w.deposits[index].amount * |w.deposits[index].depositors| else 0
  }

  /** The last position among those with the highest backing. */
  function Best(w: World, props: seq<Proposal>): (i: nat)
    requires props != []
    ensures i < |props|
  {
    if |props| == 1 then 0
    else
      var n := |props| - 1;
      var i := Best(w, props[..n]);
      if BackingFor(w, props[n].index) >= BackingFor(w, props[i].index) then n else i
  }

  function SwapRemove(props: seq<Proposal>, i: nat): seq<Proposal>
    requires i < |props|
  {
    var n := |props| - 1;
    props[i := props[n]][..n]
  }

  datatype Tabled = External | Public(proposal: Proposal) | Nothing

  function LaunchExternal(cfg: Config, w: World): (World, Tabled) {
    match w.nextExternal
    case None => (w, Nothing)
    case Some((h, t)) =>
      (w.(nextExternal := None, lastWasExternal := true,
          voting := Inject(w.voting, w.voting.now + cfg.votingPeriod, h, t, cfg.enactmentPeriod)), External)
  }

  function LaunchPublic(cfg: Config, w: World): (World, Tabled) {
    if w.proposals == [] then (w, Nothing)
    else
      var i := Best(w, w.proposals);
      var p, rest := w.proposals[i], w.(proposals := SwapRemove(w.proposals, i));
      if p.index !in w.deposits then (rest, Public(p))
      else
        var d := w.deposits[p.index];
        (rest.(deposits := w.deposits - {p.index},
               bank := UnreserveAll(w.bank, d.currency, d.depositors, d.amount),
               voting := Inject(w.voting, w.voting.now + cfg.votingPeriod, p.hash, SuperMajorityApprove, cfg.enactmentPeriod)),
         Public(p))
  }

  /** The turn alternates between the two queues; the flag is cleared whatever happens. */
  function LaunchNext(cfg: Config, w: World): (World, Tabled) {
    var cleared := w.(lastWasExternal := false);
    if w.lastWasExternal then
      var (v, t) := LaunchPublic(cfg, cleared);
      if t != Nothing then (v, t) else LaunchExternal(cfg, cleared)
    else
      var (v, t) := LaunchExternal(cfg, cleared);
      if t != Nothing then (v, t) else LaunchPublic(cfg, cleared)
  }

  // ----- the beginning of a block -----

  predicate Matures(w: World, r: nat) {
    OngoingStatus(w.voting, r).Some? && OngoingStatus(w.voting, r).value.end == w.voting.now
  }

  /** The referenda from `from` on that mature in this block, in order. */
  function Maturing(w: World, from: nat): seq<nat>
    decreases w.voting.count - from
  {
    if from >= w.voting.count then []
    else (if Matures(w, from) then [from] else []) + Maturing(w, from + 1)
  }

  predicate HasPreimage(w: World, h: Hash) { h in w.preimages && w.preimages[h].Available? }

  function Electorate(issuance: map<CurrencyId, nat>, c: CurrencyId): nat { if c in issuance then issuance[c] else 0 }

  /** Decides one referendum and, if it is approved, enacts or schedules its proposal. */
  function Bake(cfg: Config, w: World, r: nat, st: Status,
                issuance: map<CurrencyId, nat>): Result<(World, bool), Refusal> {
    if !HasPreimage(w, st.proposal) then Err(PreimageMissing)
    else
      var p := w.preimages[st.proposal];
      var approved := cfg.approved(st.threshold, st.tally, Electorate(issuance, p.currency));
      if !approved then Ok((w, false))
      else if st.delay == 0 then Ok((EnactProposal(cfg, w, st.proposal), true))
      else Ok((w.(preimages := w.preimages[st.proposal := p.(expiry := Some(w.voting.now + st.delay))]), true))
  }

  /** Bakes in order and stops at the first referendum whose preimage is not available; what was
      done before stays done. */
  function BakeAll(cfg: Config, w: World, due: seq<(nat, Status)>, issuance: map<CurrencyId, nat>): (World, bool)
    decreases |due|
  {
    if due == [] then (w, true)
    else match Bake(cfg, w, due[0].0, due[0].1, issuance)
      case Err(_) => (w, false)
      case Ok((v, approved)) => BakeAll(cfg, v.(voting := Finish(v.voting, due[0].0, approved)), due[1..], issuance)
  }

  /** The maturing referenda with the status they have when the loop starts. */
  function Due(w: World): seq<(nat, Status)> {
    var m := Maturing(w, 0);
    seq(|m|, i requires 0 <= i < |m| => (m[i], StatusOrDefault(w, m[i])))
  }

  function StatusOrDefault(w: World, r: nat): Status {
    OngoingStatus(w.voting, r).GetOr(Status(0, 0, SimpleMajority, 0, Tally(0, 0, 0)))
  }

  predicate IsLaunchSlot(cfg: Config, now: nat)
    requires cfg.launchPeriod > 0
  {
    now % cfg.launchPeriod == 0
  }

  function Launched(cfg: Config, w: World): World
    requires cfg.launchPeriod > 0
  {
    if IsLaunchSlot(cfg, w.voting.now) then LaunchNext(cfg, w).0 else w
  }

  /** What happens at the beginning of the current block, and whether all due referenda were baked. */
  function BeginBlock(cfg: Config, w: World, issuance: map<CurrencyId, nat>): (World, bool)
    requires cfg.launchPeriod > 0
  {
    var v := Launched(cfg, w);
    BakeAll(cfg, v, Due(v), issuance)
  }
}
