/** What the operators paid, took and left behind. Events may come in any order and
    the gas table may be walked in any order.
 */
module Economics {
  import opened Orders
  import opened Events
  import opened Normalize

  // ----- amounts -----

  /** A native amount and its value in millionths of a dollar, each an `i128`. */
  datatype Money = Money(native: int, usd: int)

  const NOTHING: Money := Money(0, 0)

  function Add(a: Money, b: Money): Money { Money(SatAdd(a.native, b.native), SatAdd(a.usd, b.usd)) }

  function Clip(x: int): int { if x > I128_MAX then I128_MAX else x }

  // ----- what one run of the analysis is given -----

  datatype Context = Context(
    roles: map<string, AddressRole>,
    holders: seq<(NftKey, string)>,
    stuckWindow: Option<(int, int)>,
    candidateContract: Option<string>)
  {
    predicate IsOperator(address: Option<string>) {
      address.Some? && address.value in roles
      && (roles[address.value] == SuspectedOperator || roles[address.value] == SuspectedColluder)
    }

    /** A likely victim that still holds the token. */
    predicate IsHonestHolder(nft: NftKey, address: string) {
      address in roles && roles[address] == LikelyVictim && (nft, address) in holders
    }

    function RoleOf(address: Option<string>): Option<AddressRole> {
      if address.Some? && address.value in roles then Some(roles[address.value]) else None
    }
  }

  /** The address sets the routine collects before it reads the events. */
  datatype Parties = Parties(operators: set<string>, honest: set<(NftKey, string)>)
  {
    predicate Operates(address: Option<string>) { address.Some? && address.value in operators }
  }

  ghost predicate AreParties(ctx: Context, p: Parties) {
    && (forall a :: a in p.operators <==> ctx.IsOperator(Some(a)))
    && (forall nft, a :: (nft, a) in p.honest <==> ctx.IsHonestHolder(nft, a))
  }

  method CollectParties(ctx: Context) returns (p: Parties)
    ensures AreParties(ctx, p)
  {
    var operators := set a | a in ctx.roles && ctx.roles[a] in {SuspectedOperator, SuspectedColluder};
    var honestBuyers := set a | a in ctx.roles && ctx.roles[a] == LikelyVictim;
    var honest: set<(NftKey, string)> := {};
    for i := 0 to |ctx.holders|
      invariant forall h :: h in honest <==> h in ctx.holders[..i] && h.1 in honestBuyers
    {
      assert ctx.holders[..i + 1] == ctx.holders[..i] + [ctx.holders[i]];
      if ctx.holders[i].1 in honestBuyers {
        honest := honest + {ctx.holders[i]};
      }
    }
    assert ctx.holders[..|ctx.holders|] == ctx.holders;
    p := Parties(operators, honest);
  }

  lemma PartiesDecide(ctx: Context, p: Parties)
    requires AreParties(ctx, p)
    ensures forall a :: p.Operates(a) <==> ctx.IsOperator(a)
    ensures forall nft, a :: (nft, a) in p.honest <==> ctx.IsHonestHolder(nft, a)
  {
    forall a
      ensures p.Operates(a) <==> ctx.IsOperator(a)
    {
      if a.Some? {
        assert a.value in p.operators <==> ctx.IsOperator(Some(a.value));
      }
    }
  }

  function Else(a: Option<string>, b: Option<string>): Option<string> { if a.Some? then a else b }

  function PaymentRecipient(e: NormalizedEvent): Option<string> {
    Else(e.paymentRecipient,
         match e.Channel()
         case SalePayment => e.sender
         case MintPayment => e.sender
         case RoyaltyFee => None
         case _ => e.receiver)
  }

  function PaymentPayer(e: NormalizedEvent): Option<string> { Else(e.paymentPayer, e.receiver) }

  predicate IsPurchase(e: NormalizedEvent) { e.Channel() == MintPayment || e.Channel() == SalePayment }

  /** Purchases, royalties and exit payments by kind and named channel. */
  lemma ChannelsByKind(e: NormalizedEvent)
    ensures IsPurchase(e) <==> e.channel == Some(MintPayment) || e.channel == Some(SalePayment)
                               || (e.channel.None? && (e.kind == Mint || e.kind == Sale))
    ensures e.Channel() == SalePayment <==> e.channel == Some(SalePayment) || (e.channel.None? && e.kind == Sale)
    ensures e.Channel() == RoyaltyFee <==> e.channel == Some(RoyaltyFee)
    ensures e.Channel() == ExitPayment <==> e.channel == Some(ExitPayment)
  {
  }

  predicate IsOperatorReceipt(ctx: Context, e: NormalizedEvent) {
    var recipient := PaymentRecipient(e);
    ctx.IsOperator(recipient)
    || (recipient.Some? && e.Channel() == MintPayment && ctx.candidateContract == recipient)
  }

  /** An honest buyer paid for a token and still holds it. */
  predicate IsHonestLoss(ctx: Context, e: NormalizedEvent) {
    && e.nft.Some? && PaymentPayer(e).Some?
    && ctx.IsHonestHolder(e.nft.value, PaymentPayer(e).value)
    && IsPurchase(e)
  }

  // ----- what one event adds to each total -----

  datatype Measure =
    | GrossRevenue | MarketplaceFee | OperatorOutput | HonestLoss | PaidMintLoss | SecondarySaleLoss
    | Funds | Withdrawals | RevenueBackflow | StuckTime

  function Amount(e: NormalizedEvent): Money { Money(NonNegative(e.nativeAmount), NonNegative(e.usdMicros)) }

  /** Seconds held and seconds until the purchase, when neither is negative nor too
      wide for an `i64`. */
  function StuckSeconds(ctx: Context, e: NormalizedEvent): Money {
    match (ctx.stuckWindow, e.timestamp)
    case (Some(window), Some(purchase)) =>
      var held, lure := window.1 - purchase, purchase - window.0;
      if 0 <= held <= I64_MAX && 0 <= lure <= I64_MAX then Money(held, lure) else NOTHING
    case _ => NOTHING
  }

  predicate Counts(ctx: Context, m: Measure, e: NormalizedEvent) {
    match m
    case GrossRevenue => IsPurchase(e)
    case MarketplaceFee => IsPurchase(e)
    case OperatorOutput =>
      (IsOperatorReceipt(ctx, e) && (IsPurchase(e) || e.Channel() == RoyaltyFee))
      || (e.Channel() == ExitPayment && ctx.IsOperator(e.sender))
    case HonestLoss => IsHonestLoss(ctx, e)
    case PaidMintLoss => IsHonestLoss(ctx, e) && e.Channel() == MintPayment
    case SecondarySaleLoss => IsHonestLoss(ctx, e) && e.Channel() == SalePayment
    case Funds => e.kind == Funding && ctx.IsOperator(e.receiver)
    case Withdrawals => (e.kind == Withdrawal || e.kind == Cashout) && ctx.IsOperator(e.sender)
    case RevenueBackflow =>
      (e.kind == Withdrawal || e.kind == Cashout) && ctx.IsOperator(e.sender) && ctx.IsOperator(e.receiver)
    case StuckTime => IsHonestLoss(ctx, e) && e.Channel() == SalePayment
  }

  function Flow(ctx: Context, m: Measure, e: NormalizedEvent): Money {
    if !Counts(ctx, m, e) then NOTHING
    else match m
      case MarketplaceFee => Money(NonNegative(e.marketplaceFeeNative), NonNegative(e.marketplaceFeeUsdMicros))
      case StuckTime => StuckSeconds(ctx, e)
      case _ => Amount(e)
  }

  function NativeFlow(ctx: Context, m: Measure): NormalizedEvent -> int {
    (e: NormalizedEvent) => Flow(ctx, m, e).native
  }

  function UsdFlow(ctx: Context, m: Measure): NormalizedEvent -> int {
    (e: NormalizedEvent) => Flow(ctx, m, e).usd
  }

  /** The exact sums, cut off at the largest `i128`. */
  ghost function Total(ctx: Context, m: Measure, events: seq<NormalizedEvent>): Money {
    Money(Clip(SumBy(NativeFlow(ctx, m), events)), Clip(SumBy(UsdFlow(ctx, m), events)))
  }

  lemma {:induction false} SumNonNegative<T>(f: T -> int, s: seq<T>)
    requires forall x | x in s :: f(x) >= 0
    ensures SumBy(f, s) >= 0
  {
    if s != [] {
      SumNonNegative(f, s[1..]);
    }
  }

  lemma FlowsAreNonNegative(ctx: Context, m: Measure, e: NormalizedEvent)
    ensures Flow(ctx, m, e).native >= 0 && Flow(ctx, m, e).usd >= 0
  {}

  lemma SumAppend<T>(f: T -> int, s: seq<T>, x: T)
    ensures SumBy(f, s + [x]) == SumBy(f, s) + f(x)
  {
    SumByConcat(f, s, [x]);
    assert [x][1..] == [];
  }

  /** Adding with saturation, one event at a time, is clipping the exact sum. */
  lemma TotalAppend(ctx: Context, m: Measure, events: seq<NormalizedEvent>, e: NormalizedEvent)
    ensures Total(ctx, m, events + [e]) == Add(Total(ctx, m, events), Flow(ctx, m, e))
  {
    FlowsAreNonNegative(ctx, m, e);
    forall x | x in events
      ensures NativeFlow(ctx, m)(x) >= 0 && UsdFlow(ctx, m)(x) >= 0
    {
      FlowsAreNonNegative(ctx, m, x);
    }
    SumNonNegative(NativeFlow(ctx, m), events);
    SumNonNegative(UsdFlow(ctx, m), events);
    SumAppend(NativeFlow(ctx, m), events, e);
    SumAppend(UsdFlow(ctx, m), events, e);
  }

  // ----- gas -----

  datatype GasStage = Setup | Lure | Exit {
    function Rank(): nat {
      match this
      case Setup => 0
      case Lure => 1
      case Exit => 2
    }
  }

  function StageOf(kind: EventKind, channel: ValueChannel): GasStage {
    if channel == ExitPayment then Exit
    else match kind
      case Withdrawal => Exit
      case Cashout => Exit
      case Mint => Lure
      case Sale => Lure
      case Listing => Lure
      case Deploy => Setup
      case Funding => Setup
      case Transfer => Setup
  }

  function Stage(e: NormalizedEvent): GasStage { StageOf(e.kind, e.Channel()) }

  type TxKey = (ChainId, string)

  function Tx(e: NormalizedEvent): TxKey { (e.chain, e.txId) }

  /** The charge of one transaction while the events are read. */
  datatype TransactionGas = TransactionGas(
    stage: GasStage,
    channel: ValueChannel,
    eventIndex: nat,
    payer: string,
    fromRole: Option<AddressRole>,
    toRole: Option<AddressRole>,
    native: nat,
    usd: nat)

  /** An operator paid for the transaction `k`, and `e` is part of it. */
  predicate Paid(ctx: Context, k: TxKey, e: NormalizedEvent) { ctx.IsOperator(e.feePayer) && Tx(e) == k }

  ghost predicate IsPaid(ctx: Context, k: TxKey, events: seq<NormalizedEvent>) {
    exists e | e in events :: Paid(ctx, k, e)
  }

  predicate Before(a: NormalizedEvent, b: NormalizedEvent) {
    Stage(b).Rank() < Stage(a).Rank() || (Stage(a) == Stage(b) && a.eventIndex <= b.eventIndex)
  }

  predicate Describes(ctx: Context, g: TransactionGas, e: NormalizedEvent) {
    && g.stage == Stage(e) && g.channel == e.Channel() && g.eventIndex == e.eventIndex && Some(g.payer) == e.feePayer
    && g.fromRole == ctx.RoleOf(e.sender) && g.toRole == ctx.RoleOf(e.receiver)
  }

  /** `e` has the highest stage of its transaction and, in that stage, the lowest index. */
  ghost predicate Leads(ctx: Context, k: TxKey, events: seq<NormalizedEvent>, e: NormalizedEvent) {
    e in events && Paid(ctx, k, e) && forall x | x in events && Paid(ctx, k, x) :: Before(e, x)
  }

  function NativeGas(e: NormalizedEvent): nat { NonNegative(e.gasNative) }

  function UsdGas(e: NormalizedEvent): nat { NonNegative(e.gasUsdMicros) }

  ghost predicate IsLargest(ctx: Context, k: TxKey, events: seq<NormalizedEvent>, amount: NormalizedEvent -> nat,
                            g: nat) {
    && (exists e | e in events :: Paid(ctx, k, e) && amount(e) == g)
    && (forall e | e in events && Paid(ctx, k, e) :: amount(e) <= g)
  }

  /** The charge takes stage, channel, payer and roles from the leading event and the
      largest gas amount any event of the transaction reports. */
  ghost predicate IsCharge(ctx: Context, k: TxKey, events: seq<NormalizedEvent>, g: TransactionGas) {
    && (exists e :: Leads(ctx, k, events, e) && Describes(ctx, g, e))
    && IsLargest(ctx, k, events, NativeGas, g.native)
    && IsLargest(ctx, k, events, UsdGas, g.usd)
  }

  /** Every transaction an operator paid for is charged once, no other is. */
  ghost predicate AreCharges(ctx: Context, events: seq<NormalizedEvent>, gas: map<TxKey, TransactionGas>) {
    && (forall k :: k in gas <==> IsPaid(ctx, k, events))
    && (forall k | k in gas :: IsCharge(ctx, k, events, gas[k]))
  }

  /** The charge a transaction has after one more of its events. */
  ghost predicate IsNextCharge(ctx: Context, e: NormalizedEvent, charged: Option<TransactionGas>, g: TransactionGas) {
    && g.native == (if charged.Some? && charged.value.native > NativeGas(e) then charged.value.native else NativeGas(e))
    && g.usd == (if charged.Some? && charged.value.usd > UsdGas(e) then charged.value.usd else UsdGas(e))
    && var takesLead := charged.None? || Stage(e).Rank() > charged.value.stage.Rank()
                        || (Stage(e) == charged.value.stage && e.eventIndex < charged.value.eventIndex);
      if takesLead then Describes(ctx, g, e) else charged.value.(native := g.native, usd := g.usd) == g
  }

  method ChargeTransaction(ctx: Context, e: NormalizedEvent, charged: Option<TransactionGas>)
    returns (g: TransactionGas)
    requires ctx.IsOperator(e.feePayer)
    ensures IsNextCharge(ctx, e, charged, g)
  {
    var native := if charged.Some? then charged.value.native else 0;
    var usd := if charged.Some? then charged.value.usd else 0;
    native := if native < NonNegative(e.gasNative) then NonNegative(e.gasNative) else native;
    usd := if usd < NonNegative(e.gasUsdMicros) then NonNegative(e.gasUsdMicros) else usd;
    var stage := Stage(e);
    if charged.None? || stage.Rank() > charged.value.stage.Rank()
       || (stage == charged.value.stage && e.eventIndex < charged.value.eventIndex) {
      var roles := ctx.roles;
      var fromRole := if e.sender.Some? && e.sender.value in roles then Some(roles[e.sender.value]) else None;
      var toRole := if e.receiver.Some? && e.receiver.value in roles then Some(roles[e.receiver.value]) else None;
      g := TransactionGas(stage, e.Channel(), e.eventIndex, e.feePayer.value, fromRole, toRole, native, usd);
    } else {
      g := charged.value.(native := native, usd := usd);
    }
  }

  function Lookup(gas: map<TxKey, TransactionGas>, k: TxKey): Option<TransactionGas> {
    if k in gas then Some(gas[k]) else None
  }

  lemma LargestNext(ctx: Context, k: TxKey, events: seq<NormalizedEvent>, e: NormalizedEvent,
                    amount: NormalizedEvent -> nat, before: Option<nat>, after: nat)
    requires Paid(ctx, k, e)
    requires match before case Some(b) => IsLargest(ctx, k, events, amount, b) case None => !IsPaid(ctx, k, events)
    requires after == if before.Some? && before.value > amount(e) then before.value else amount(e)
    ensures IsLargest(ctx, k, events + [e], amount, after)
  {
    var longer := events + [e];
    assert e in longer;
    if before.Some? && before.value > amount(e) {
      var x :| x in events && Paid(ctx, k, x) && amount(x) == before.value;
      assert x in longer;
    }
  }

  lemma LeadsNext(ctx: Context, k: TxKey, events: seq<NormalizedEvent>, e: NormalizedEvent,
                  charged: Option<TransactionGas>, g: TransactionGas)
    requires Paid(ctx, k, e) && IsNextCharge(ctx, e, charged, g)
    requires match charged case Some(c) => IsCharge(ctx, k, events, c) case None => !IsPaid(ctx, k, events)
    ensures exists x :: Leads(ctx, k, events + [e], x) && Describes(ctx, g, x)
  {
    var longer := events + [e];
    assert e in longer;
    if charged.None? {
      assert Leads(ctx, k, longer, e);
    } else {
      var x :| Leads(ctx, k, events, x) && Describes(ctx, charged.value, x);
      var lead := if Before(x, e) then x else e;
      assert lead in longer && Paid(ctx, k, lead);
      forall y | y in longer && Paid(ctx, k, y)
        ensures Before(lead, y)
      {
        assert y == e || Before(x, y);
      }
      assert Leads(ctx, k, longer, lead);
    }
  }

  /** Events of other transactions, or paid by others, leave a charge as it is. */
  lemma ChargeKept(ctx: Context, k: TxKey, events: seq<NormalizedEvent>, e: NormalizedEvent, g: TransactionGas)
    requires IsCharge(ctx, k, events, g) && !Paid(ctx, k, e)
    ensures IsCharge(ctx, k, events + [e], g)
  {
    var longer := events + [e];
    assert forall y | y in longer && Paid(ctx, k, y) :: y in events;
    var x :| Leads(ctx, k, events, x) && Describes(ctx, g, x);
    assert x in longer && Leads(ctx, k, longer, x);
    var n :| n in events && Paid(ctx, k, n) && NativeGas(n) == g.native;
    var u :| u in events && Paid(ctx, k, u) && UsdGas(u) == g.usd;
    assert n in longer && u in longer;
  }

  lemma PaidNext(ctx: Context, k: TxKey, events: seq<NormalizedEvent>, e: NormalizedEvent)
    ensures IsPaid(ctx, k, events + [e]) <==> IsPaid(ctx, k, events) || Paid(ctx, k, e)
  {
    assert forall x :: x in events + [e] <==> x in events || x == e;
  }

  /** The gas table after one more event an operator paid for. */
  lemma ChargesNext(ctx: Context, events: seq<NormalizedEvent>, gas: map<TxKey, TransactionGas>, e: NormalizedEvent,
                    g: TransactionGas)
    requires AreCharges(ctx, events, gas)
    requires ctx.IsOperator(e.feePayer) && IsNextCharge(ctx, e, Lookup(gas, Tx(e)), g)
    ensures AreCharges(ctx, events + [e], gas[Tx(e) := g])
  {
    hide IsPaid, Leads, IsLargest, Describes;
    var after := gas[Tx(e) := g];
    forall k
      ensures k in after <==> IsPaid(ctx, k, events + [e])
      ensures k in after ==> IsCharge(ctx, k, events + [e], after[k])
    {
      PaidNext(ctx, k, events, e);
      if Paid(ctx, k, e) {
        var charged := Lookup(gas, k);
        LeadsNext(ctx, k, events, e, charged, g);
        LargestNext(ctx, k, events, e, NativeGas, if charged.Some? then Some(charged.value.native) else None, g.native);
        LargestNext(ctx, k, events, e, UsdGas, if charged.Some? then Some(charged.value.usd) else None, g.usd);
      } else if k in gas {
        ChargeKept(ctx, k, events, e, gas[k]);
      }
    }
  }

  lemma ChargesKept(ctx: Context, events: seq<NormalizedEvent>, gas: map<TxKey, TransactionGas>, e: NormalizedEvent)
    requires AreCharges(ctx, events, gas) && !ctx.IsOperator(e.feePayer)
    ensures AreCharges(ctx, events + [e], gas)
  {
    hide IsPaid, IsCharge;
    forall k
      ensures k in gas <==> IsPaid(ctx, k, events + [e])
      ensures k in gas ==> IsCharge(ctx, k, events + [e], gas[k])
    {
      PaidNext(ctx, k, events, e);
      if k in gas {
        ChargeKept(ctx, k, events, e, gas[k]);
      }
    }
  }

  // ----- the facts -----

  datatype EconomicFacts = EconomicFacts(
    grossRevenue: Money,
    marketplaceFee: Money,
    operatorOutput: Money,
    honestLoss: Money,
    paidMintLoss: Money,
    secondarySaleLoss: Money,
    funding: Money,
    withdrawal: Money,
    revenueBackflow: Money,
    stuckTime: Money,
    stuckNftCount: nat,
    setupGas: Money,
    lureGas: Money,
    exitGas: Money)
  {
    function Get(m: Measure): Money {
      match m
      case GrossRevenue => grossRevenue
      case MarketplaceFee => marketplaceFee
      case OperatorOutput => operatorOutput
      case HonestLoss => honestLoss
      case PaidMintLoss => paidMintLoss
      case SecondarySaleLoss => secondarySaleLoss
      case Funds => funding
      case Withdrawals => withdrawal
      case RevenueBackflow => revenueBackflow
      case StuckTime => stuckTime
    }

    function Gas(stage: GasStage): Money {
      match stage
      case Setup => setupGas
      case Lure => lureGas
      case Exit => exitGas
    }
  }

  const NO_FACTS: EconomicFacts :=
    EconomicFacts(NOTHING, NOTHING, NOTHING, NOTHING, NOTHING, NOTHING, NOTHING, NOTHING, NOTHING, NOTHING, 0,
                  NOTHING, NOTHING, NOTHING)

  predicate Fits(a: Money) { 0 <= a.native <= I128_MAX && 0 <= a.usd <= I128_MAX }

  /** An amount that counts nothing leaves a total as it is. */
  lemma AddNothing(a: Money)
    requires Fits(a)
    ensures Add(a, NOTHING) == a
  {}

  method AccountPurchase(ctx: Context, e: NormalizedEvent, before: EconomicFacts) returns (out: EconomicFacts)
    requires Fits(before.grossRevenue) && Fits(before.marketplaceFee)
    ensures out == before.(grossRevenue := Add(before.grossRevenue, Flow(ctx, GrossRevenue, e)),
                           marketplaceFee := Add(before.marketplaceFee, Flow(ctx, MarketplaceFee, e)))
  {
    AddNothing(before.grossRevenue);
    AddNothing(before.marketplaceFee);
    hide Add, NonNegative;
    out := before;
    var amount := Money(NonNegative(e.nativeAmount), NonNegative(e.usdMicros));
    var channel := e.Channel();
    if channel == MintPayment || channel == SalePayment {
      out := out.(grossRevenue := Add(out.grossRevenue, amount));
      var fee := Money(NonNegative(e.marketplaceFeeNative), NonNegative(e.marketplaceFeeUsdMicros));
      out := out.(marketplaceFee := Add(out.marketplaceFee, fee));
    }
  }

  method AccountReceipt(ctx: Context, p: Parties, e: NormalizedEvent,
                        before: EconomicFacts) returns (out: EconomicFacts)
    requires AreParties(ctx, p) && Fits(before.operatorOutput)
    ensures out == before.(operatorOutput := Add(before.operatorOutput, Flow(ctx, OperatorOutput, e)))
  {
    AddNothing(before.operatorOutput);
    PartiesDecide(ctx, p);
    hide Add, NonNegative, Context.IsOperator, AreParties;
    out := before;
    var amount := Money(NonNegative(e.nativeAmount), NonNegative(e.usdMicros));
    var channel := e.Channel();
    var recipient := e.paymentRecipient;
    if recipient.None? {
      recipient := match channel
        case SalePayment => e.sender
        case MintPayment => e.sender
        case RoyaltyFee => None
        case _ => e.receiver;
    }
    var receipt := recipient.Some? && (p.Operates(recipient)
                                       || (channel == MintPayment && ctx.candidateContract == recipient));
    if receipt && (channel == MintPayment || channel == SalePayment || channel == RoyaltyFee) {
      out := out.(operatorOutput := Add(out.operatorOutput, amount));
    }
    if channel == ExitPayment && p.Operates(e.sender) {
      out := out.(operatorOutput := Add(out.operatorOutput, amount));
    }
  }

  /** Whether an honest buyer paid for a token in this event and still holds it. */
  method LosesHonestly(ctx: Context, p: Parties, e: NormalizedEvent) returns (r: bool)
    requires AreParties(ctx, p)
    ensures r <==> IsHonestLoss(ctx, e)
  {
    PartiesDecide(ctx, p);
    hide Context.IsHonestHolder, AreParties;
    var channel := e.Channel();
    var payer := if e.paymentPayer.Some? then e.paymentPayer else e.receiver;
    r := e.nft.Some? && payer.Some? && (e.nft.value, payer.value) in p.honest
         && (channel == MintPayment || channel == SalePayment);
  }

  method AccountLoss(ctx: Context, p: Parties, e: NormalizedEvent, before: EconomicFacts) returns (out: EconomicFacts)
    requires AreParties(ctx, p)
    requires Fits(before.honestLoss) && Fits(before.paidMintLoss)
    requires Fits(before.secondarySaleLoss) && Fits(before.stuckTime)
    ensures out == before.(honestLoss := Add(before.honestLoss, Flow(ctx, HonestLoss, e)),
                           paidMintLoss := Add(before.paidMintLoss, Flow(ctx, PaidMintLoss, e)),
                           secondarySaleLoss := Add(before.secondarySaleLoss, Flow(ctx, SecondarySaleLoss, e)),
                           stuckTime := Add(before.stuckTime, Flow(ctx, StuckTime, e)))
  {
    AddNothing(before.honestLoss);
    AddNothing(before.paidMintLoss);
    AddNothing(before.secondarySaleLoss);
    AddNothing(before.stuckTime);
    out := before;
    var amount := Money(NonNegative(e.nativeAmount), NonNegative(e.usdMicros));
    var loss := LosesHonestly(ctx, p, e);
    var stuck := AccountStuck(ctx, e);
    if loss {
      hide Add, NonNegative, StuckSeconds, Context.IsHonestHolder, AreParties;
      var channel := e.Channel();
      out := out.(honestLoss := Add(out.honestLoss, amount));
      if channel == MintPayment {
        out := out.(paidMintLoss := Add(out.paidMintLoss, amount));
      } else {
        out := out.(secondarySaleLoss := Add(out.secondarySaleLoss, amount));
      }
      if channel == SalePayment {
        out := out.(stuckTime := Add(out.stuckTime, stuck));
      }
    }
  }

  /** The two subtractions, each checked against the width of an `i64` and for its sign. */
  method AccountStuck(ctx: Context, e: NormalizedEvent) returns (stuck: Money)
    ensures stuck == StuckSeconds(ctx, e)
  {
    stuck := NOTHING;
    if ctx.stuckWindow.Some? && e.timestamp.Some? {
      var held := CheckedDifference(ctx.stuckWindow.value.1, e.timestamp.value);
      var lure := CheckedDifference(e.timestamp.value, ctx.stuckWindow.value.0);
      if held.Some? && held.value >= 0 && lure.Some? && lure.value >= 0 {
        stuck := Money(held.value, lure.value);
      }
    }
  }

  /** `i64::checked_sub`. */
  function CheckedDifference(a: int, b: int): Option<int> {
    if I64_MIN <= a - b <= I64_MAX then Some(a - b) else None
  }

  method AccountMove(ctx: Context, p: Parties, e: NormalizedEvent, before: EconomicFacts) returns (out: EconomicFacts)
    requires AreParties(ctx, p)
    requires Fits(before.funding) && Fits(before.withdrawal) && Fits(before.revenueBackflow)
    ensures out == before.(funding := Add(before.funding, Flow(ctx, Funds, e)),
                           withdrawal := Add(before.withdrawal, Flow(ctx, Withdrawals, e)),
                           revenueBackflow := Add(before.revenueBackflow, Flow(ctx, RevenueBackflow, e)))
  {
    AddNothing(before.funding);
    AddNothing(before.withdrawal);
    AddNothing(before.revenueBackflow);
    PartiesDecide(ctx, p);
    hide Add, NonNegative, Context.IsOperator, AreParties;
    out := before;
    var amount := Money(NonNegative(e.nativeAmount), NonNegative(e.usdMicros));
    if e.kind == Funding && p.Operates(e.receiver) {
      out := out.(funding := Add(out.funding, amount));
    } else if (e.kind == Withdrawal || e.kind == Cashout) && p.Operates(e.sender) {
      out := out.(withdrawal := Add(out.withdrawal, amount));
      if p.Operates(e.receiver) {
        out := out.(revenueBackflow := Add(out.revenueBackflow, amount));
      }
    }
  }

  /** The totals after one more event. */
  ghost predicate IsAccounted(ctx: Context, e: NormalizedEvent, before: EconomicFacts, after: EconomicFacts) {
    && (forall m: Measure :: after.Get(m) == Add(before.Get(m), Flow(ctx, m, e)))
    && after.stuckNftCount == before.stuckNftCount
    && forall s: GasStage :: after.Gas(s) == before.Gas(s)
  }

  /** The body of the loop over the events, but for the gas. */
  method Account(ctx: Context, p: Parties, e: NormalizedEvent, before: EconomicFacts) returns (out: EconomicFacts)
    requires AreParties(ctx, p)
    requires forall m: Measure :: Fits(before.Get(m))
    ensures IsAccounted(ctx, e, before, out)
  {
    assert Fits(before.Get(GrossRevenue)) && Fits(before.Get(MarketplaceFee)) && Fits(before.Get(OperatorOutput));
    assert Fits(before.Get(HonestLoss)) && Fits(before.Get(PaidMintLoss)) && Fits(before.Get(SecondarySaleLoss));
    assert Fits(before.Get(Funds)) && Fits(before.Get(Withdrawals)) && Fits(before.Get(RevenueBackflow));
    assert Fits(before.Get(StuckTime));
    hide Flow, Fits, Add, IsAccounted, AreParties;
    out := AccountPurchase(ctx, e, before);
    out := AccountReceipt(ctx, p, e, out);
    out := AccountLoss(ctx, p, e, out);
    out := AccountMove(ctx, p, e, out);
    AccountedFields(ctx, e, before, out);
  }

  lemma AccountedFields(ctx: Context, e: NormalizedEvent, before: EconomicFacts, after: EconomicFacts)
    requires after == before.(grossRevenue := Add(before.grossRevenue, Flow(ctx, GrossRevenue, e)),
                              marketplaceFee := Add(before.marketplaceFee, Flow(ctx, MarketplaceFee, e)),
                              operatorOutput := Add(before.operatorOutput, Flow(ctx, OperatorOutput, e)),
                              honestLoss := Add(before.honestLoss, Flow(ctx, HonestLoss, e)),
                              paidMintLoss := Add(before.paidMintLoss, Flow(ctx, PaidMintLoss, e)),
                              secondarySaleLoss := Add(before.secondarySaleLoss, Flow(ctx, SecondarySaleLoss, e)),
                              stuckTime := Add(before.stuckTime, Flow(ctx, StuckTime, e)),
                              funding := Add(before.funding, Flow(ctx, Funds, e)),
                              withdrawal := Add(before.withdrawal, Flow(ctx, Withdrawals, e)),
                              revenueBackflow := Add(before.revenueBackflow, Flow(ctx, RevenueBackflow, e)))
    ensures IsAccounted(ctx, e, before, after)
  {
    hide Flow, Add;
  }

  // ----- gas records -----

  datatype GasRecord = GasRecord(
    chain: ChainId,
    stage: GasStage,
    channel: ValueChannel,
    transaction: string,
    payer: string,
    native: nat,
    usd: nat,
    fromRole: Option<AddressRole>,
    toRole: Option<AddressRole>)

  function RecordOf(k: TxKey, g: TransactionGas): GasRecord {
    GasRecord(k.0, g.stage, g.channel, k.1, g.payer, g.native, g.usd, g.fromRole, g.toRole)
  }

  /** r comes before s: it is dearer in dollars, then in the native amount; ties go by
      stage, chain and transaction. */
  predicate Precedes(r: GasRecord, s: GasRecord) {
    if r.usd != s.usd then r.usd > s.usd
    else if r.native != s.native then r.native > s.native
    else if r.stage != s.stage then r.stage.Rank() < s.stage.Rank()
    else if r.chain != s.chain then ChainRank(r.chain) < ChainRank(s.chain)
    else r.transaction != s.transaction && StrLe()(r.transaction, s.transaction)
  }

  lemma KeyPrecedes(r: GasRecord, s: GasRecord)
    requires RecordKeyLe()(RecordKey(r), RecordKey(s)) && RecordKey(r) != RecordKey(s)
    ensures Precedes(r, s)
  {
    hide StrLe;
  }

  /** The records go from the dearest down. */
  lemma DearestFirst(gas: map<TxKey, TransactionGas>, records: seq<GasRecord>, i: nat, j: nat)
    requires AreRecords(gas, records) && i < j < |records|
    ensures Precedes(records[i], records[j])
  {
    hide RecordKeyLe, RecordKey, Precedes, IsListed;
    KeyPrecedes(records[i], records[j]);
  }

  function Negative(x: int): int { -x }

  /** The order of the records: dearest first, ties by stage, chain and transaction. */
  function RecordKey(r: GasRecord): (int, (int, (nat, (nat, string)))) {
    (Negative(r.usd), (Negative(r.native), (r.stage.Rank(), (ChainRank(r.chain), r.transaction))))
  }

  function RecordKeyLe(): (((int, (int, (nat, (nat, string)))), (int, (int, (nat, (nat, string))))) -> bool) {
    PairLe(IntLe(), PairLe(IntLe(), PairLe(NatLe(), PairLe(NatLe(), StrLe()))))
  }

  lemma RecordKeyTotal()
    ensures TotalOrder(RecordKeyLe())
  {
    StrTotal();
    PairTotal(NatLe(), StrLe());
    PairTotal(NatLe(), PairLe(NatLe(), StrLe()));
    PairTotal(IntLe(), PairLe(NatLe(), PairLe(NatLe(), StrLe())));
    PairTotal(IntLe(), PairLe(IntLe(), PairLe(NatLe(), PairLe(NatLe(), StrLe()))));
  }

  ghost predicate IsListed(gas: map<TxKey, TransactionGas>, r: GasRecord) {
    exists k | k in gas :: r == RecordOf(k, gas[k])
  }

  /** One record for each charged transaction, in order. */
  ghost predicate AreRecords(gas: map<TxKey, TransactionGas>, records: seq<GasRecord>) {
    && StrictKeys(RecordKeyLe(), RecordKey, records)
    && (forall r :: r in records <==> IsListed(gas, r))
  }

  function NativeIn(stage: GasStage): GasRecord -> int { (r: GasRecord) => if r.stage == stage then r.native else 0 }

  function UsdIn(stage: GasStage): GasRecord -> int { (r: GasRecord) => if r.stage == stage then r.usd else 0 }

  ghost function GasTotal(stage: GasStage, records: seq<GasRecord>): Money {
    Money(Clip(SumBy(NativeIn(stage), records)), Clip(SumBy(UsdIn(stage), records)))
  }

  lemma GasTotalAppend(stage: GasStage, records: seq<GasRecord>, r: GasRecord)
    ensures GasTotal(stage, records + [r])
            == if r.stage == stage then Add(GasTotal(stage, records), Money(r.native, r.usd))
               else GasTotal(stage, records)
  {
    SumNonNegative(NativeIn(stage), records);
    SumNonNegative(UsdIn(stage), records);
    SumAppend(NativeIn(stage), records, r);
    SumAppend(UsdIn(stage), records, r);
  }

  /** Records listed in any order, each transaction at most once. */
  ghost predicate Lists(gas: map<TxKey, TransactionGas>, records: seq<GasRecord>) {
    && NoDuplicates(records)
    && (forall r | r in records :: IsListed(gas, r))
  }

  lemma RecordsSorted(gas: map<TxKey, TransactionGas>, records: seq<GasRecord>)
    requires Lists(gas, records) && forall k | k in gas :: RecordOf(k, gas[k]) in records
    ensures var sorted := Sort(ByKey(RecordKeyLe(), RecordKey), records);
      AreRecords(gas, sorted) && multiset(sorted) == multiset(records)
  {
    RecordKeyTotal();
    hide RecordKeyLe, RecordKey, RecordOf, Sort;
    var le := ByKey(RecordKeyLe(), RecordKey);
    var sorted := Sort(le, records);
    ByKeyPreorder(RecordKeyLe(), RecordKey);
    SortSorts(le, records);
    SameMultisetSameElements(sorted, records);
    PermutationNoDuplicates(records, sorted);
    forall i, j | 0 <= i < j < |sorted|
      ensures RecordKeyLe()(RecordKey(sorted[i]), RecordKey(sorted[j])) && RecordKey(sorted[i]) != RecordKey(sorted[j])
    {
      assert le(sorted[i], sorted[j]);
      assert sorted[i] in sorted && sorted[j] in sorted && sorted[i] != sorted[j];
      KeysDiffer(gas, sorted[i], sorted[j]);
    }
  }

  lemma GasTotalOrder(stage: GasStage, a: seq<GasRecord>, b: seq<GasRecord>)
    requires multiset(a) == multiset(b)
    ensures GasTotal(stage, a) == GasTotal(stage, b)
  {
    SumByPermutation(NativeIn(stage), a, b);
    SumByPermutation(UsdIn(stage), a, b);
  }

  lemma KeysDiffer(gas: map<TxKey, TransactionGas>, r: GasRecord, s: GasRecord)
    requires IsListed(gas, r) && IsListed(gas, s) && r != s
    ensures RecordKey(r) != RecordKey(s)
  {
    var k :| k in gas && r == RecordOf(k, gas[k]);
    var l :| l in gas && s == RecordOf(l, gas[l]);
    assert k != l;
  }

  function AddGas(f: EconomicFacts, r: GasRecord): EconomicFacts {
    match r.stage
    case Setup => f.(setupGas := Add(f.setupGas, Money(r.native, r.usd)))
    case Lure => f.(lureGas := Add(f.lureGas, Money(r.native, r.usd)))
    case Exit => f.(exitGas := Add(f.exitGas, Money(r.native, r.usd)))
  }

  /** Walks the gas table in whatever order it comes. */
  method ListGas(gas: map<TxKey, TransactionGas>, before: EconomicFacts)
    returns (out: EconomicFacts, records: seq<GasRecord>)
    requires forall s: GasStage :: before.Gas(s) == NOTHING
    ensures AreRecords(gas, records)
    ensures forall s: GasStage :: out.Gas(s) == GasTotal(s, records)
    ensures out.stuckNftCount == before.stuckNftCount && forall m: Measure :: out.Get(m) == before.Get(m)
  {
    hide RecordKeyLe, RecordKey;
    out := before;
    var unsorted := [];
    var left := gas.Keys;
    while left != {}
      invariant left <= gas.Keys && Lists(gas, unsorted)
      invariant forall k | k in gas :: k in left || RecordOf(k, gas[k]) in unsorted
      invariant forall r | r in unsorted :: (r.chain, r.transaction) !in left
      invariant forall s: GasStage :: out.Gas(s) == GasTotal(s, unsorted)
      invariant out.stuckNftCount == before.stuckNftCount && forall m: Measure :: out.Get(m) == before.Get(m)
    {
      var k :| k in left;
      left := left - {k};
      var r := RecordOf(k, gas[k]);
      assert IsListed(gas, r);
      forall s: GasStage
        ensures AddGas(out, r).Gas(s) == GasTotal(s, unsorted + [r])
      {
        GasTotalAppend(s, unsorted, r);
      }
      out := AddGas(out, r);
      unsorted := unsorted + [r];
    }
    RecordsSorted(gas, unsorted);
    records := Sort(ByKey(RecordKeyLe(), RecordKey), unsorted);
    forall s: GasStage
      ensures GasTotal(s, records) == GasTotal(s, unsorted)
    {
      GasTotalOrder(s, records, unsorted);
    }
  }

  // ----- the analysis -----

  function StuckNfts(ctx: Context, events: seq<NormalizedEvent>): set<NftKey> {
    set e | e in events && IsHonestLoss(ctx, e) :: e.nft.value
  }

  /** What the analysis of these events has to come to. */
  ghost predicate IsEconomics(ctx: Context, events: seq<NormalizedEvent>, facts: EconomicFacts,
                              records: seq<GasRecord>) {
    && (forall m: Measure :: facts.Get(m) == Total(ctx, m, events))
    && facts.stuckNftCount == |StuckNfts(ctx, events)|
    && (exists gas :: AreCharges(ctx, events, gas) && AreRecords(gas, records))
    && (forall s: GasStage :: facts.Gas(s) == GasTotal(s, records))
  }

  method ComputeEconomics(ctx: Context, events: seq<NormalizedEvent>)
    returns (facts: EconomicFacts, records: seq<GasRecord>)
    ensures IsEconomics(ctx, events, facts, records)
  {
    hide AreCharges, AreRecords, GasTotal, Flow, AreParties, IsHonestLoss, Context.IsOperator;
    var p := CollectParties(ctx);
    PartiesDecide(ctx, p);
    facts := NO_FACTS;
    var gas: map<TxKey, TransactionGas> := map[];
    var stuck: set<NftKey> := {};
    NothingCharged(ctx);
    for i := 0 to |events|
      invariant forall m: Measure :: facts.Get(m) == Total(ctx, m, events[..i])
      invariant stuck == StuckNfts(ctx, events[..i])
      invariant AreCharges(ctx, events[..i], gas)
      invariant facts.stuckNftCount == 0 && forall s: GasStage :: facts.Gas(s) == NOTHING
    {
      var e := events[i];
      assert events[..i + 1] == events[..i] + [e];
      if p.Operates(e.feePayer) {
        var charge := ChargeTransaction(ctx, e, Lookup(gas, Tx(e)));
        ChargesNext(ctx, events[..i], gas, e, charge);
        gas := gas[Tx(e) := charge];
      } else {
        ChargesKept(ctx, events[..i], gas, e);
      }
      forall m: Measure
        ensures Fits(facts.Get(m)) && Total(ctx, m, events[..i + 1]) == Add(facts.Get(m), Flow(ctx, m, e))
      {
        TotalFits(ctx, m, events[..i]);
        TotalAppend(ctx, m, events[..i], e);
      }
      facts := Account(ctx, p, e, facts);
      var loss := LosesHonestly(ctx, p, e);
      StuckAppend(ctx, events[..i], e);
      if loss {
        LossNamesToken(ctx, e);
        stuck := stuck + {e.nft.value};
      }
    }
    assert events[..|events|] == events;
    ghost var flows := facts;
    facts := facts.(stuckNftCount := |stuck|);
    assert forall s: GasStage :: facts.Gas(s) == flows.Gas(s);
    assert forall m: Measure :: facts.Get(m) == flows.Get(m);
    facts, records := ListGas(gas, facts);
  }

  lemma LossNamesToken(ctx: Context, e: NormalizedEvent)
    requires IsHonestLoss(ctx, e)
    ensures e.nft.Some?
  {}

  lemma NothingCharged(ctx: Context)
    ensures AreCharges(ctx, [], map[]) && forall m: Measure :: Total(ctx, m, []) == NOTHING
  {}

  lemma StuckAppend(ctx: Context, events: seq<NormalizedEvent>, e: NormalizedEvent)
    ensures StuckNfts(ctx, events + [e])
            == if IsHonestLoss(ctx, e) then StuckNfts(ctx, events) + {e.nft.value} else StuckNfts(ctx, events)
  {
    assert forall x :: x in events + [e] <==> x in events || x == e;
  }

  lemma TotalFits(ctx: Context, m: Measure, events: seq<NormalizedEvent>)
    ensures Fits(Total(ctx, m, events))
  {
    forall x | x in events
      ensures NativeFlow(ctx, m)(x) >= 0 && UsdFlow(ctx, m)(x) >= 0
    {
      FlowsAreNonNegative(ctx, m, x);
    }
    SumNonNegative(NativeFlow(ctx, m), events);
    SumNonNegative(UsdFlow(ctx, m), events);
  }

  // ----- no order matters -----

  lemma TotalOrderFree(ctx: Context, m: Measure, a: seq<NormalizedEvent>, b: seq<NormalizedEvent>)
    requires multiset(a) == multiset(b)
    ensures Total(ctx, m, a) == Total(ctx, m, b)
  {
    SumByPermutation(NativeFlow(ctx, m), a, b);
    SumByPermutation(UsdFlow(ctx, m), a, b);
  }

  lemma LargestUnique(ctx: Context, k: TxKey, a: seq<NormalizedEvent>, b: seq<NormalizedEvent>,
                      amount: NormalizedEvent -> nat, g: nat, h: nat)
    requires (forall e :: e in a <==> e in b) && IsLargest(ctx, k, a, amount, g) && IsLargest(ctx, k, b, amount, h)
    ensures g == h
  {
    var x :| x in a && Paid(ctx, k, x) && amount(x) == g;
    var y :| y in b && Paid(ctx, k, y) && amount(y) == h;
  }

  lemma ChargeUnique(ctx: Context, k: TxKey, a: seq<NormalizedEvent>, b: seq<NormalizedEvent>,
                     g: TransactionGas, h: TransactionGas)
    requires (forall e :: e in a <==> e in b) && !Conflicting(a)
    requires IsCharge(ctx, k, a, g) && IsCharge(ctx, k, b, h)
    ensures g == h
  {
    LargestUnique(ctx, k, a, b, NativeGas, g.native, h.native);
    LargestUnique(ctx, k, a, b, UsdGas, g.usd, h.usd);
    var x :| Leads(ctx, k, a, x) && Describes(ctx, g, x);
    var y :| Leads(ctx, k, b, y) && Describes(ctx, h, y);
    assert x in a && y in a && Before(x, y) && Before(y, x);
    assert Id(x) == Id(y);
  }

  lemma ChargesUnique(ctx: Context, a: seq<NormalizedEvent>, b: seq<NormalizedEvent>,
                      g: map<TxKey, TransactionGas>, h: map<TxKey, TransactionGas>)
    requires (forall e :: e in a <==> e in b) && !Conflicting(a)
    requires AreCharges(ctx, a, g) && AreCharges(ctx, b, h)
    ensures g == h
  {
    hide IsCharge, Conflicting;
    forall k
      ensures k in g <==> k in h
    {
      assert IsPaid(ctx, k, a) <==> IsPaid(ctx, k, b);
    }
    forall k | k in g
      ensures g[k] == h[k]
    {
      ChargeUnique(ctx, k, a, b, g[k], h[k]);
    }
  }

  /** One result for every order of the events and every walk through the gas table,
      as long as no two different events share chain, transaction and index. */
  lemma EconomicsOrderFree(ctx: Context, a: seq<NormalizedEvent>, b: seq<NormalizedEvent>,
                           f: EconomicFacts, r: seq<GasRecord>, g: EconomicFacts, s: seq<GasRecord>)
    requires multiset(a) == multiset(b) && !Conflicting(a)
    requires IsEconomics(ctx, a, f, r) && IsEconomics(ctx, b, g, s)
    ensures f == g && r == s
  {
    SameMultisetSameElements(a, b);
    assert StuckNfts(ctx, a) == StuckNfts(ctx, b);
    hide AreCharges, StuckNfts, RecordKeyLe, RecordKey, IsListed, Total, GasTotal, Conflicting;
    var gas :| AreCharges(ctx, a, gas) && AreRecords(gas, r);
    var has :| AreCharges(ctx, b, has) && AreRecords(has, s);
    ChargesUnique(ctx, a, b, gas, has);
    RecordKeyTotal();
    DistinctKeysUnique(RecordKeyLe(), RecordKey, r, s);
    forall m: Measure
      ensures f.Get(m) == g.Get(m)
    {
      TotalOrderFree(ctx, m, a, b);
    }
    FactsFromMeasures(f, g);
  }

  lemma FactsFromMeasures(f: EconomicFacts, g: EconomicFacts)
    requires forall m: Measure :: f.Get(m) == g.Get(m)
    requires (forall s: GasStage :: f.Gas(s) == g.Gas(s)) && f.stuckNftCount == g.stuckNftCount
    ensures f == g
  {
    assert f.Get(GrossRevenue) == g.Get(GrossRevenue) && f.Get(MarketplaceFee) == g.Get(MarketplaceFee);
    assert f.Get(OperatorOutput) == g.Get(OperatorOutput) && f.Get(HonestLoss) == g.Get(HonestLoss);
    assert f.Get(PaidMintLoss) == g.Get(PaidMintLoss) && f.Get(SecondarySaleLoss) == g.Get(SecondarySaleLoss);
    assert f.Get(Funds) == g.Get(Funds) && f.Get(Withdrawals) == g.Get(Withdrawals);
    assert f.Get(RevenueBackflow) == g.Get(RevenueBackflow) && f.Get(StuckTime) == g.Get(StuckTime);
    assert f.Gas(Setup) == g.Gas(Setup) && f.Gas(Lure) == g.Gas(Lure) && f.Gas(Exit) == g.Gas(Exit);
  }

  /** The events of a normal form meet the condition. */
  lemma NormalFormHasUniqueIdentities(events: seq<NormalizedEvent>)
    requires !Conflicting(Reconciled(events))
    ensures !Conflicting(NormalEvents(events))
  {
    NormalMember(events);
  }

  // ----- what the facts say to each other -----

  lemma {:induction false} SumSplits<T>(f: T -> int, g: T -> int, h: T -> int, s: seq<T>)
    requires forall x | x in s :: f(x) == g(x) + h(x)
    ensures SumBy(f, s) == SumBy(g, s) + SumBy(h, s)
  {
    if s != [] {
      SumSplits(f, g, h, s[1..]);
    }
  }

  lemma {:induction false} SumMonotone<T>(f: T -> int, g: T -> int, s: seq<T>)
    requires forall x | x in s :: f(x) <= g(x)
    ensures SumBy(f, s) <= SumBy(g, s)
  {
    if s != [] {
      SumMonotone(f, g, s[1..]);
    }
  }

  lemma {:induction false} AllNonNegative(ctx: Context, m: Measure, events: seq<NormalizedEvent>)
    ensures SumBy(NativeFlow(ctx, m), events) >= 0 && SumBy(UsdFlow(ctx, m), events) >= 0
  {
    forall x | x in events
      ensures NativeFlow(ctx, m)(x) >= 0 && UsdFlow(ctx, m)(x) >= 0
    {
      FlowsAreNonNegative(ctx, m, x);
    }
    SumNonNegative(NativeFlow(ctx, m), events);
    SumNonNegative(UsdFlow(ctx, m), events);
  }

  /** Honest loss is paid-mint loss and secondary-sale loss, also where they saturate. */
  lemma HonestLossSplits(ctx: Context, events: seq<NormalizedEvent>, f: EconomicFacts, r: seq<GasRecord>)
    requires IsEconomics(ctx, events, f, r)
    ensures f.honestLoss == Add(f.paidMintLoss, f.secondarySaleLoss)
  {
    AllNonNegative(ctx, PaidMintLoss, events);
    AllNonNegative(ctx, SecondarySaleLoss, events);
    SumSplits(NativeFlow(ctx, HonestLoss), NativeFlow(ctx, PaidMintLoss), NativeFlow(ctx, SecondarySaleLoss), events);
    SumSplits(UsdFlow(ctx, HonestLoss), UsdFlow(ctx, PaidMintLoss), UsdFlow(ctx, SecondarySaleLoss), events);
    assert f.Get(HonestLoss) == Total(ctx, HonestLoss, events);
    assert f.Get(PaidMintLoss) == Total(ctx, PaidMintLoss, events);
    assert f.Get(SecondarySaleLoss) == Total(ctx, SecondarySaleLoss, events);
  }

  ghost predicate AtMost(a: Money, b: Money) { a.native <= b.native && a.usd <= b.usd }

  lemma TotalMonotone(ctx: Context, small: Measure, large: Measure, events: seq<NormalizedEvent>)
    requires forall e | e in events :: AtMost(Flow(ctx, small, e), Flow(ctx, large, e))
    ensures AtMost(Total(ctx, small, events), Total(ctx, large, events))
  {
    forall e | e in events
      ensures NativeFlow(ctx, small)(e) <= NativeFlow(ctx, large)(e) && UsdFlow(ctx, small)(e) <= UsdFlow(ctx, large)(e)
    {
      assert AtMost(Flow(ctx, small, e), Flow(ctx, large, e));
    }
    SumMonotone(NativeFlow(ctx, small), NativeFlow(ctx, large), events);
    SumMonotone(UsdFlow(ctx, small), UsdFlow(ctx, large), events);
  }

  /** No more is lost than was taken, and no more flows back than was withdrawn. */
  lemma LossesWithinRevenue(ctx: Context, events: seq<NormalizedEvent>, f: EconomicFacts, r: seq<GasRecord>)
    requires IsEconomics(ctx, events, f, r)
    ensures AtMost(f.honestLoss, f.grossRevenue) && AtMost(f.revenueBackflow, f.withdrawal)
  {
    TotalMonotone(ctx, HonestLoss, GrossRevenue, events);
    TotalMonotone(ctx, RevenueBackflow, Withdrawals, events);
    assert f.Get(HonestLoss) == f.honestLoss && f.Get(GrossRevenue) == f.grossRevenue;
    assert f.Get(RevenueBackflow) == f.revenueBackflow && f.Get(Withdrawals) == f.withdrawal;
  }

  /** A transaction has one gas record if an operator paid for one of its events and
      none otherwise; the record's stage and amounts are the highest among those events,
      each attained by one of them. */
  lemma OneRecordPerTransaction(ctx: Context, events: seq<NormalizedEvent>, f: EconomicFacts, records: seq<GasRecord>,
                                k: TxKey)
    requires IsEconomics(ctx, events, f, records)
    ensures IsPaid(ctx, k, events) <==> exists r | r in records :: (r.chain, r.transaction) == k
    ensures forall r, s | r in records && s in records && (r.chain, r.transaction) == (s.chain, s.transaction) :: r == s
    ensures forall r, e | r in records && (r.chain, r.transaction) == k && e in events && Paid(ctx, k, e) ::
              Stage(e).Rank() <= r.stage.Rank() && NativeGas(e) <= r.native && UsdGas(e) <= r.usd
    ensures forall r | r in records && (r.chain, r.transaction) == k :: IsAttained(ctx, k, events, r)
  {
    var gas :| AreCharges(ctx, events, gas) && AreRecords(gas, records);
    RecordsOfGas(gas, records, k);
    hide IsEconomics, IsCharge, IsAttained, IsPaid, AreRecords, Paid, RecordOf;
    if k in gas {
      ChargeIsHighest(ctx, k, events, gas[k]);
      ChargeAttained(ctx, k, events, gas[k]);
    }
  }

  /** A listed record is that of its own transaction. */
  lemma RecordsOfGas(gas: map<TxKey, TransactionGas>, records: seq<GasRecord>, k: TxKey)
    requires AreRecords(gas, records)
    ensures k in gas <==> exists r | r in records :: (r.chain, r.transaction) == k
    ensures forall r | r in records && (r.chain, r.transaction) == k :: k in gas && r == RecordOf(k, gas[k])
    ensures forall r, s | r in records && s in records && (r.chain, r.transaction) == (s.chain, s.transaction) :: r == s
  {
    hide StrictKeys;
    forall r | r in records
      ensures (r.chain, r.transaction) in gas && r == RecordOf((r.chain, r.transaction), gas[(r.chain, r.transaction)])
    {
      assert IsListed(gas, r);
    }
    if k in gas {
      assert IsListed(gas, RecordOf(k, gas[k]));
    }
  }

  lemma ChargeIsHighest(ctx: Context, k: TxKey, events: seq<NormalizedEvent>, g: TransactionGas)
    requires IsCharge(ctx, k, events, g)
    ensures var r := RecordOf(k, g);
      forall e | e in events && Paid(ctx, k, e) ::
        Stage(e).Rank() <= r.stage.Rank() && NativeGas(e) <= r.native && UsdGas(e) <= r.usd
  {
    HighestStage(ctx, k, events, g);
  }

  /** Paid events of the transaction have the record's stage and amounts. */
  ghost predicate IsAttained(ctx: Context, k: TxKey, events: seq<NormalizedEvent>, r: GasRecord) {
    && (exists e | e in events :: Paid(ctx, k, e) && Stage(e) == r.stage && e.Channel() == r.channel
                                  && e.feePayer == Some(r.payer)
                                  && r.fromRole == ctx.RoleOf(e.sender) && r.toRole == ctx.RoleOf(e.receiver))
    && (exists e | e in events :: Paid(ctx, k, e) && NativeGas(e) == r.native)
    && (exists e | e in events :: Paid(ctx, k, e) && UsdGas(e) == r.usd)
  }

  /** An event that takes value out. */
  predicate TakesOut(e: NormalizedEvent) { e.Channel() == ExitPayment || e.kind == Withdrawal || e.kind == Cashout }

  /** An event that draws buyers in, and takes nothing out. */
  predicate DrawsIn(e: NormalizedEvent) {
    (e.kind == Mint || e.kind == Sale || e.kind == Listing) && e.Channel() != ExitPayment
  }

  lemma StageByKind(e: NormalizedEvent)
    ensures Stage(e) == Exit <==> TakesOut(e)
    ensures Stage(e) == Lure <==> DrawsIn(e)
  {
  }

  /** The stage of a record by the kinds and channels of the events an operator paid for in
      its transaction: exit if one takes value out, else lure if one draws buyers in, else
      setup. */
  lemma RecordStage(ctx: Context, events: seq<NormalizedEvent>, f: EconomicFacts, records: seq<GasRecord>, r: GasRecord)
    requires IsEconomics(ctx, events, f, records) && r in records
    ensures var k := (r.chain, r.transaction);
      && (r.stage == Exit <==> exists e :: e in events && Paid(ctx, k, e) && TakesOut(e))
      && (r.stage == Lure <==> !(exists e :: e in events && Paid(ctx, k, e) && TakesOut(e))
                               && exists e :: e in events && Paid(ctx, k, e) && DrawsIn(e))
  {
    var k := (r.chain, r.transaction);
    OneRecordPerTransaction(ctx, events, f, records, k);
    assert IsAttained(ctx, k, events, r);
    var lead :| lead in events && Paid(ctx, k, lead) && Stage(lead) == r.stage;
    StageByKind(lead);
    hide IsEconomics, IsAttained, IsPaid, Paid, TakesOut, DrawsIn, Stage;
    forall e | e in events && Paid(ctx, k, e)
      ensures Stage(e).Rank() <= r.stage.Rank()
      ensures (Stage(e) == Exit <==> TakesOut(e)) && (Stage(e) == Lure <==> DrawsIn(e))
    {
      StageByKind(e);
    }
  }

  lemma ChargeAttained(ctx: Context, k: TxKey, events: seq<NormalizedEvent>, g: TransactionGas)
    requires IsCharge(ctx, k, events, g)
    ensures IsAttained(ctx, k, events, RecordOf(k, g))
  {
    var x :| Leads(ctx, k, events, x) && Describes(ctx, g, x);
  }

  lemma HighestStage(ctx: Context, k: TxKey, events: seq<NormalizedEvent>, g: TransactionGas)
    requires IsCharge(ctx, k, events, g)
    ensures forall e | e in events && Paid(ctx, k, e) :: Stage(e).Rank() <= g.stage.Rank()
  {
    var x :| Leads(ctx, k, events, x) && Describes(ctx, g, x);
    assert forall e | e in events && Paid(ctx, k, e) :: Before(x, e);
  }
}
