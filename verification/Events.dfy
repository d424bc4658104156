/** Normalized evidence events and the tests the analysis puts to them. */
module Events {
  import opened Orders

  datatype ChainId = Base | Ethereum | Polygon | Solana {
    predicate IsEvm() { this != Solana }
  }

  datatype EventKind = Deploy | Mint | Transfer | Sale | Listing | Funding | Withdrawal | Cashout {
    function DefaultChannel(): ValueChannel {
      match this
      case Deploy => Deployment
      case Mint => MintPayment
      case Transfer => TransferChannel
      case Sale => SalePayment
      case Listing => ListingChannel
      case Funding => FundingChannel
      case Withdrawal => WithdrawalChannel
      case Cashout => CashoutHop
    }
  }

  datatype ValueChannel =
    | Deployment | MintPayment | TransferChannel | SalePayment | RoyaltyFee
    | ListingChannel | FundingChannel | WithdrawalChannel | CashoutHop | ExitPayment

  datatype NftKey = NftKey(chain: ChainId, contractAddress: string, tokenId: string)

  datatype NormalizedEvent = NormalizedEvent(
    chain: ChainId,
    txId: string,
    eventIndex: nat,
    timestamp: Option<int>,
    blockNumber: Option<nat>,
    kind: EventKind,
    channel: Option<ValueChannel>,
    sender: Option<string>,
    receiver: Option<string>,
    feePayer: Option<string>,
    paymentPayer: Option<string>,
    paymentRecipient: Option<string>,
    nft: Option<NftKey>,
    nativeAmount: Option<int>,
    usdMicros: Option<int>,
    gasNative: Option<int>,
    gasUsdMicros: Option<int>,
    marketplaceFeeNative: Option<int>,
    marketplaceFeeUsdMicros: Option<int>)
  {
    function Channel(): ValueChannel {
      match channel
      case Some(c) => c
      case None => kind.DefaultChannel()
    }

    predicate IsNftSale() { kind == Sale && Channel() == SalePayment }

    predicate IsNftPropagation() { kind == Mint || kind == Transfer || IsNftSale() }
  }

  /** A paid sale from a to b: no other channel than the sale payment is named. */
  predicate Sold(e: NormalizedEvent, a: string, b: string) {
    && e.kind == Sale && (e.channel.None? || e.channel == Some(SalePayment))
    && e.sender == Some(a) && e.receiver == Some(b)
  }

  /** An NFT goes from a to b. */
  predicate Moved(e: NormalizedEvent, a: string, b: string) {
    Sold(e, a, b) || ((e.kind == Mint || e.kind == Transfer) && e.sender == Some(a) && e.receiver == Some(b))
  }

  lemma SoldAndMoved(e: NormalizedEvent, a: string, b: string)
    ensures Sold(e, a, b) <==> e.IsNftSale() && e.sender == Some(a) && e.receiver == Some(b)
    ensures Moved(e, a, b) <==> e.IsNftPropagation() && e.sender == Some(a) && e.receiver == Some(b)
  {
  }

  /** What the analysis takes an address to be. */
  datatype AddressRole = SuspectedOperator | SuspectedColluder | LikelyVictim | CorruptedVictim | Neutral

  // ----- integer width -----

  const I64_MAX: int := 0x7fff_ffff_ffff_ffff
  const I64_MIN: int := -0x8000_0000_0000_0000

  const I128_MAX: int := 0x7fff_ffff_ffff_ffff_ffff_ffff_ffff_ffff
  const I128_MIN: int := -0x8000_0000_0000_0000_0000_0000_0000_0000

  /** `i128::saturating_add`. */
  function SatAdd(a: int, b: int): int {
    if a + b > I128_MAX then I128_MAX else if a + b < I128_MIN then I128_MIN else a + b
  }

  /** `amount.unwrap_or(0).max(0)`. */
  function NonNegative(amount: Option<int>): (r: nat)
    ensures amount.Some? && amount.value > 0 ==> Some(r as int) == amount
    ensures amount.None? || amount.value <= 0 ==> r == 0
  {
    match amount
    case Some(v) => if v < 0 then 0 else v
    case None => 0
  }
}
