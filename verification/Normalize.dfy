/** Evidence of several providers brought to one normal form: canonical spelling,
    one event per movement, everything sorted and without duplicates, one
    verification per seed.
 */
module Normalize {
  import opened Orders
  import opened Events
  import opened Spelling

  // ----- canonical events -----

  function CanonicalAddress(chain: ChainId, address: Option<string>): Option<string> {
    match address
    case Some(a) => Some(Canonical(chain, a, false))
    case None => None
  }

  function CanonicalNft(nft: NftKey): NftKey {
    NftKey(nft.chain, Canonical(nft.chain, nft.contractAddress, false), Canonical(nft.chain, nft.tokenId, true))
  }

  function CanonicalEvent(e: NormalizedEvent): NormalizedEvent {
    e.(txId := Canonical(e.chain, e.txId, false),
       sender := CanonicalAddress(e.chain, e.sender),
       receiver := CanonicalAddress(e.chain, e.receiver),
       feePayer := CanonicalAddress(e.chain, e.feePayer),
       paymentPayer := CanonicalAddress(e.chain, e.paymentPayer),
       paymentRecipient := CanonicalAddress(e.chain, e.paymentRecipient),
       nft := match e.nft case Some(n) => Some(CanonicalNft(n)) case None => None)
  }

  function CanonicalHolder(h: (NftKey, string)): (NftKey, string) {
    (CanonicalNft(h.0), Canonical(h.0.chain, h.1, false))
  }

  function Map<A, B>(f: A -> B, s: seq<A>): (r: seq<B>)
    ensures |r| == |s| && forall i | 0 <= i < |s| :: r[i] == f(s[i])
  {
    seq(|s|, i requires 0 <= i < |s| => f(s[i]))
  }

  lemma CanonicalAddressIdempotent(chain: ChainId, address: Option<string>)
    ensures CanonicalAddress(chain, CanonicalAddress(chain, address)) == CanonicalAddress(chain, address)
  {
    if address.Some? {
      CanonicalIdempotent(chain, address.value, false);
    }
  }

  lemma CanonicalNftIdempotent(nft: NftKey)
    ensures CanonicalNft(CanonicalNft(nft)) == CanonicalNft(nft)
  {
    CanonicalIdempotent(nft.chain, nft.contractAddress, false);
    CanonicalIdempotent(nft.chain, nft.tokenId, true);
  }

  lemma CanonicalEventIdempotent(e: NormalizedEvent)
    ensures CanonicalEvent(CanonicalEvent(e)) == CanonicalEvent(e)
  {
    hide Canonical;
    CanonicalIdempotent(e.chain, e.txId, false);
    CanonicalAddressIdempotent(e.chain, e.sender);
    CanonicalAddressIdempotent(e.chain, e.receiver);
    CanonicalAddressIdempotent(e.chain, e.feePayer);
    CanonicalAddressIdempotent(e.chain, e.paymentPayer);
    CanonicalAddressIdempotent(e.chain, e.paymentRecipient);
    if e.nft.Some? {
      CanonicalNftIdempotent(e.nft.value);
    }
  }

  // ----- what canonical means -----

  predicate IsSpelledAddress(chain: ChainId, address: Option<string>) {
    address.Some? ==> IsSpelled(chain, address.value)
  }

  predicate IsSpelledNft(nft: NftKey) {
    IsSpelled(nft.chain, nft.contractAddress) && IsSpelledToken(nft.chain, nft.tokenId)
  }

  /** Transaction id, all five addresses and the NFT are in their canonical spelling. */
  predicate IsSpelledEvent(e: NormalizedEvent) {
    && IsSpelled(e.chain, e.txId)
    && IsSpelledAddress(e.chain, e.sender) && IsSpelledAddress(e.chain, e.receiver)
    && IsSpelledAddress(e.chain, e.feePayer)
    && IsSpelledAddress(e.chain, e.paymentPayer) && IsSpelledAddress(e.chain, e.paymentRecipient)
    && (e.nft.Some? ==> IsSpelledNft(e.nft.value))
  }

  ghost predicate SameAddress(chain: ChainId, a: Option<string>, b: Option<string>) {
    if a.Some? && b.Some? then SameSpelling(chain, a.value, b.value) else a == b
  }

  ghost predicate SameNft(a: NftKey, b: NftKey) {
    && a.chain == b.chain
    && SameSpelling(a.chain, a.contractAddress, b.contractAddress) && SameToken(a.chain, a.tokenId, b.tokenId)
  }

  /** The events differ at most in the spelling of those fields. */
  ghost predicate SameEvent(a: NormalizedEvent, b: NormalizedEvent) {
    && b == a.(txId := b.txId, sender := b.sender, receiver := b.receiver, feePayer := b.feePayer,
               paymentPayer := b.paymentPayer, paymentRecipient := b.paymentRecipient, nft := b.nft)
    && SameSpelling(a.chain, a.txId, b.txId)
    && SameAddress(a.chain, a.sender, b.sender) && SameAddress(a.chain, a.receiver, b.receiver)
    && SameAddress(a.chain, a.feePayer, b.feePayer)
    && SameAddress(a.chain, a.paymentPayer, b.paymentPayer)
    && SameAddress(a.chain, a.paymentRecipient, b.paymentRecipient)
    && (if a.nft.Some? && b.nft.Some? then SameNft(a.nft.value, b.nft.value) else a.nft == b.nft)
  }

  lemma AddressSpelled(chain: ChainId, a: Option<string>)
    ensures IsSpelledAddress(chain, CanonicalAddress(chain, a)) && SameAddress(chain, a, CanonicalAddress(chain, a))
  {
    hide Canonical;
    if a.Some? {
      CanonicalIsSpelled(chain, a.value);
      CanonicalIsSame(chain, a.value);
    }
  }

  lemma NftSpelled(nft: NftKey)
    ensures IsSpelledNft(CanonicalNft(nft)) && SameNft(nft, CanonicalNft(nft))
  {
    hide Canonical, SameToken, SameSpelling, IsSpelled, IsSpelledToken;
    CanonicalIsSpelled(nft.chain, nft.contractAddress);
    CanonicalIsSame(nft.chain, nft.contractAddress);
    CanonicalTokenIsSpelled(nft.chain, nft.tokenId);
    CanonicalTokenIsSame(nft.chain, nft.tokenId);
  }

  /** The canonical event is in canonical spelling and still the same event. */
  lemma EventSpelled(e: NormalizedEvent)
    ensures IsSpelledEvent(CanonicalEvent(e)) && SameEvent(e, CanonicalEvent(e))
  {
    hide Canonical, IsSpelled, SameSpelling, IsSpelledAddress, SameAddress, CanonicalAddress;
    hide IsSpelledNft, SameNft, CanonicalNft;
    CanonicalIsSpelled(e.chain, e.txId);
    CanonicalIsSame(e.chain, e.txId);
    AddressSpelled(e.chain, e.sender);
    AddressSpelled(e.chain, e.receiver);
    AddressSpelled(e.chain, e.feePayer);
    AddressSpelled(e.chain, e.paymentPayer);
    AddressSpelled(e.chain, e.paymentRecipient);
    if e.nft.Some? {
      NftSpelled(e.nft.value);
    }
  }

  lemma SameAddressesAlike(chain: ChainId, a: Option<string>, b: Option<string>)
    requires SameAddress(chain, a, b)
    ensures CanonicalAddress(chain, a) == CanonicalAddress(chain, b)
  {
    if a.Some? && b.Some? {
      SpelledAlike(chain, a.value, b.value);
    }
  }

  lemma SameNftsAlike(a: NftKey, b: NftKey)
    requires SameNft(a, b)
    ensures CanonicalNft(a) == CanonicalNft(b)
  {
    SpelledAlike(a.chain, a.contractAddress, b.contractAddress);
    SameTokensAlike(a.chain, a.tokenId, b.tokenId);
  }

  /** Events that differ only in spelling have one canonical form. */
  lemma SameEventsAlike(a: NormalizedEvent, b: NormalizedEvent)
    requires SameEvent(a, b)
    ensures CanonicalEvent(a) == CanonicalEvent(b)
  {
    hide Canonical, SameSpelling, SameAddress, CanonicalAddress, SameNft, CanonicalNft;
    SpelledAlike(a.chain, a.txId, b.txId);
    SameAddressesAlike(a.chain, a.sender, b.sender);
    SameAddressesAlike(a.chain, a.receiver, b.receiver);
    SameAddressesAlike(a.chain, a.feePayer, b.feePayer);
    SameAddressesAlike(a.chain, a.paymentPayer, b.paymentPayer);
    SameAddressesAlike(a.chain, a.paymentRecipient, b.paymentRecipient);
    if a.nft.Some? && b.nft.Some? {
      SameNftsAlike(a.nft.value, b.nft.value);
    }
  }

  // ----- reconciling copies -----

  /** What is left of an event without its index: copies of one event share it. */
  function IdentityFree(e: NormalizedEvent): NormalizedEvent { e.(eventIndex := 0) }

  datatype Movement = Movement(chain: ChainId, txId: string, nft: NftKey, sender: string, receiver: string)

  function MovementKey(e: NormalizedEvent): Option<Movement> {
    if e.nft.None? || e.sender.None? || e.receiver.None? then None
    else Some(Movement(e.chain, e.txId, e.nft.value, e.sender.value, e.receiver.value))
  }

  /** The events are equal but for their index. */
  predicate AreCopies(a: NormalizedEvent, b: NormalizedEvent) { a == b.(eventIndex := a.eventIndex) }

  lemma CopiesShareTheRest(a: NormalizedEvent, b: NormalizedEvent)
    ensures IdentityFree(a) == IdentityFree(b) <==> AreCopies(a, b)
  {
    if IdentityFree(a) == IdentityFree(b) {
      assert a == IdentityFree(a).(eventIndex := a.eventIndex);
    }
  }

  /** The events move one NFT between the same two addresses in one transaction. */
  predicate SameMovement(a: NormalizedEvent, b: NormalizedEvent) {
    && a.chain == b.chain && a.txId == b.txId
    && a.nft.Some? && a.nft == b.nft
    && a.sender.Some? && a.sender == b.sender
    && a.receiver.Some? && a.receiver == b.receiver
  }

  lemma MovementsShareTheKey(a: NormalizedEvent, b: NormalizedEvent)
    ensures MovementKey(a).Some? && MovementKey(a) == MovementKey(b) <==> SameMovement(a, b)
  {
  }

  predicate HasCopy(events: seq<NormalizedEvent>, e: NormalizedEvent) {
    exists x | x in events :: IdentityFree(x) == IdentityFree(e)
  }

  /** The first copy of every event. */
  function KeepFirst(events: seq<NormalizedEvent>): (r: seq<NormalizedEvent>)
    ensures forall e | e in r :: e in events
  {
    if events == [] then []
    else
      var init, last := events[..|events| - 1], events[|events| - 1];
      if HasCopy(init, last) then KeepFirst(init) else KeepFirst(init) + [last]
  }

  function Sales(events: seq<NormalizedEvent>): set<Movement> {
    set e | e in events && e.IsNftSale() && MovementKey(e).Some? :: MovementKey(e).value
  }

  /** A transfer that a sale describes as well. */
  predicate Shadowed(e: NormalizedEvent, sales: set<Movement>) {
    e.kind == Transfer && MovementKey(e).Some? && MovementKey(e).value in sales
  }

  function DropShadowed(events: seq<NormalizedEvent>, sales: set<Movement>): (r: seq<NormalizedEvent>)
    ensures forall e :: e in r <==> e in events && !Shadowed(e, sales)
  {
    if events == [] then []
    else
      var init, last := events[..|events| - 1], events[|events| - 1];
      assert events == init + [last];
      if Shadowed(last, sales) then DropShadowed(init, sales) else DropShadowed(init, sales) + [last]
  }

  function Reconciled(events: seq<NormalizedEvent>): seq<NormalizedEvent> {
    DropShadowed(KeepFirst(events), Sales(events))
  }

  ghost predicate DistinctCopies(events: seq<NormalizedEvent>) {
    forall i, j | 0 <= i < j < |events| :: IdentityFree(events[i]) != IdentityFree(events[j])
  }

  /** Both passes of the reconciliation. */
  method ReconcileDuplicateEvents(events: seq<NormalizedEvent>) returns (kept: seq<NormalizedEvent>)
    ensures kept == Reconciled(events)
  {
    var exact, firsts := {}, [];
    for i := 0 to |events|
      invariant exact == set e | e in events[..i] :: IdentityFree(e)
      invariant firsts == KeepFirst(events[..i])
    {
      var event := events[i];
      var upTo := events[..i + 1];
      assert upTo[..|upTo| - 1] == events[..i] && upTo == events[..i] + [event];
      assert HasCopy(events[..i], event) <==> IdentityFree(event) in exact;
      if IdentityFree(event) !in exact {
        exact := exact + {IdentityFree(event)};
        firsts := firsts + [event];
      }
    }
    assert events[..|events|] == events;
    var sales := Sales(firsts);
    SalesOfFirsts(events);
    kept := [];
    for i := 0 to |firsts|
      invariant kept == DropShadowed(firsts[..i], sales)
    {
      var upTo := firsts[..i + 1];
      assert upTo[..|upTo| - 1] == firsts[..i];
      if !Shadowed(firsts[i], sales) {
        kept := kept + [firsts[i]];
      }
    }
    assert firsts[..|firsts|] == firsts;
  }

  lemma {:induction false} FirstCopy(events: seq<NormalizedEvent>, e: NormalizedEvent) returns (first: NormalizedEvent)
    requires e in events
    ensures first in KeepFirst(events) && IdentityFree(first) == IdentityFree(e)
  {
    var init, last := events[..|events| - 1], events[|events| - 1];
    assert events == init + [last];
    if e in init {
      first := FirstCopy(init, e);
    } else if HasCopy(init, last) {
      var x :| x in init && IdentityFree(x) == IdentityFree(last);
      first := FirstCopy(init, x);
    } else {
      first := last;
    }
  }

  lemma {:induction false} KeepFirstDistinct(events: seq<NormalizedEvent>)
    ensures DistinctCopies(KeepFirst(events))
  {
    if events != [] {
      KeepFirstDistinct(events[..|events| - 1]);
    }
  }

  lemma {:induction false} KeepFirstHead(events: seq<NormalizedEvent>)
    requires events != []
    ensures events[0] in KeepFirst(events)
  {
    if |events| > 1 {
      KeepFirstHead(events[..|events| - 1]);
    } else {
      assert events[..0] == [];
      assert !HasCopy([], events[0]);
    }
  }

  lemma {:induction false} KeepFirstFixed(events: seq<NormalizedEvent>)
    requires DistinctCopies(events)
    ensures KeepFirst(events) == events
  {
    if events != [] {
      var init, last := events[..|events| - 1], events[|events| - 1];
      KeepFirstFixed(init);
      forall x | x in init
        ensures IdentityFree(x) != IdentityFree(last)
      {
        var i :| 0 <= i < |init| && init[i] == x;
        assert IdentityFree(events[i]) != IdentityFree(events[|events| - 1]);
      }
      assert events == init + [last];
    }
  }

  lemma SalesOfFirsts(events: seq<NormalizedEvent>)
    ensures Sales(KeepFirst(events)) == Sales(events)
  {
    forall m | m in Sales(events)
      ensures m in Sales(KeepFirst(events))
    {
      var e :| e in events && e.IsNftSale() && MovementKey(e) == Some(m);
      var first := FirstCopy(events, e);
      CopiesAgree(first, e);
    }
  }

  /** Copies describe the same movement in the same way. */
  lemma CopiesAgree(a: NormalizedEvent, b: NormalizedEvent)
    requires IdentityFree(a) == IdentityFree(b)
    ensures MovementKey(a) == MovementKey(b) && a.IsNftSale() == b.IsNftSale() && a.kind == b.kind
    ensures a.chain == b.chain && a.txId == b.txId
    ensures a.eventIndex == b.eventIndex ==> a == b
  {
    assert IdentityFree(a).nft == a.nft && IdentityFree(b).nft == b.nft;
    assert IdentityFree(a).sender == a.sender && IdentityFree(b).sender == b.sender;
    assert IdentityFree(a).receiver == a.receiver && IdentityFree(b).receiver == b.receiver;
    assert IdentityFree(a).kind == a.kind && IdentityFree(b).kind == b.kind;
    assert IdentityFree(a).channel == a.channel && IdentityFree(b).channel == b.channel;
    assert IdentityFree(a).chain == a.chain && IdentityFree(b).chain == b.chain;
    assert IdentityFree(a).txId == a.txId && IdentityFree(b).txId == b.txId;
    assert a == IdentityFree(a).(eventIndex := a.eventIndex) && b == IdentityFree(b).(eventIndex := b.eventIndex);
  }

  lemma {:induction false} DropShadowedDistinct(events: seq<NormalizedEvent>, sales: set<Movement>)
    requires DistinctCopies(events)
    ensures DistinctCopies(DropShadowed(events, sales))
  {
    if events != [] {
      var init, last := events[..|events| - 1], events[|events| - 1];
      DropShadowedDistinct(init, sales);
      forall e | e in DropShadowed(init, sales)
        ensures IdentityFree(e) != IdentityFree(last)
      {
        var i :| 0 <= i < |init| && init[i] == e;
        assert IdentityFree(events[i]) != IdentityFree(events[|events| - 1]);
      }
    }
  }

  lemma {:induction false} DropShadowedFixed(events: seq<NormalizedEvent>, sales: set<Movement>)
    requires forall e | e in events :: !Shadowed(e, sales)
    ensures DropShadowed(events, sales) == events
  {
    if events != [] {
      DropShadowedFixed(events[..|events| - 1], sales);
      assert events == events[..|events| - 1] + [events[|events| - 1]];
    }
  }

  // ----- event identities -----

  datatype Identity = Identity(chain: ChainId, txId: string, index: nat)

  function Id(e: NormalizedEvent): Identity { Identity(e.chain, e.txId, e.eventIndex) }

  function ChainRank(chain: ChainId): nat {
    match chain
    case Base => 0
    case Ethereum => 1
    case Polygon => 2
    case Solana => 3
  }

  function IdentityFields(i: Identity): (nat, (string, nat)) { (ChainRank(i.chain), (i.txId, i.index)) }

  function IdentityLe(): ((Identity, Identity) -> bool) {
    ByKey(PairLe(NatLe(), PairLe(StrLe(), NatLe())), IdentityFields)
  }

  lemma IdentityTotal()
    ensures TotalOrder(IdentityLe())
  {
    StrTotal();
    PairTotal(StrLe(), NatLe());
    PairTotal(NatLe(), PairLe(StrLe(), NatLe()));
    ByKeyTotal(PairLe(NatLe(), PairLe(StrLe(), NatLe())), IdentityFields);
  }

  function Arranged(events: seq<NormalizedEvent>): seq<NormalizedEvent> {
    Sort(ByKey(IdentityLe(), Id), events)
  }

  /** Two different events claim one place in one transaction. */
  ghost predicate Conflicting(events: seq<NormalizedEvent>) {
    exists x, y | x in events && y in events :: x != y && Id(x) == Id(y)
  }

  /** The event list the normal form has. */
  function NormalEvents(events: seq<NormalizedEvent>): seq<NormalizedEvent> { Arranged(Reconciled(events)) }

  lemma NormalMember(events: seq<NormalizedEvent>)
    ensures forall e :: e in NormalEvents(events) <==> e in KeepFirst(events) && !Shadowed(e, Sales(events))
    ensures DistinctCopies(NormalEvents(events)) && NoDuplicates(NormalEvents(events))
    ensures Sorted(ByKey(IdentityLe(), Id), NormalEvents(events))
    ensures Conflicting(Reconciled(events)) <==> Conflicting(NormalEvents(events))
  {
    var kept, arranged := Reconciled(events), NormalEvents(events);
    var le := ByKey(IdentityLe(), Id);
    SameMultisetSameElements(arranged, kept);
    KeepFirstDistinct(events);
    DropShadowedDistinct(KeepFirst(events), Sales(events));
    DistinctUnderPermutation(kept, arranged);
    IdentityTotal();
    ByKeyPreorder(IdentityLe(), Id);
    SortSorts(le, kept);
  }

  lemma DistinctUnderPermutation(a: seq<NormalizedEvent>, b: seq<NormalizedEvent>)
    requires DistinctCopies(a) && multiset(a) == multiset(b)
    ensures DistinctCopies(b) && NoDuplicates(b)
  {
    assert NoDuplicates(a);
    PermutationNoDuplicates(a, b);
    SameMultisetSameElements(a, b);
    forall i, j | 0 <= i < j < |b|
      ensures IdentityFree(b[i]) != IdentityFree(b[j])
    {
      assert b[i] in a && b[j] in a && b[i] != b[j];
      var k :| 0 <= k < |a| && a[k] == b[i];
      var l :| 0 <= l < |a| && a[l] == b[j];
      assert IdentityFree(a[k]) != IdentityFree(a[l]);
    }
  }

  /** Without a conflict the identities of the normal form go strictly up. */
  lemma NormalStrict(events: seq<NormalizedEvent>)
    requires !Conflicting(Reconciled(events))
    ensures StrictKeys(IdentityLe(), Id, NormalEvents(events))
  {
    NormalMember(events);
    var s := NormalEvents(events);
    forall i, j | 0 <= i < j < |s|
      ensures IdentityLe()(Id(s[i]), Id(s[j])) && Id(s[i]) != Id(s[j])
    {
      assert ByKey(IdentityLe(), Id)(s[i], s[j]);
      assert s[i] in s && s[j] in s && s[i] != s[j];
    }
  }

  /** Normalising the events of a normal form changes nothing and cannot fail. */
  lemma NormalEventsFixed(events: seq<NormalizedEvent>)
    requires !Conflicting(Reconciled(events))
    ensures var n := NormalEvents(events); NormalEvents(n) == n && !Conflicting(Reconciled(n))
  {
    var n := NormalEvents(events);
    NormalMember(events);
    KeepFirstFixed(n);
    assert Sales(n) <= Sales(events);
    DropShadowedFixed(n, Sales(n));
    assert Reconciled(n) == n;
    NormalStrict(events);
    NormalStrict(n);
    SameMultisetSameElements(NormalEvents(n), n);
    IdentityTotal();
    DistinctKeysUnique(IdentityLe(), Id, NormalEvents(n), n);
  }

  /** No event is lost: each is represented by a survivor that differs at most in
      its index, or by a sale of the same movement. */
  lemma EventRepresented(events: seq<NormalizedEvent>, e: NormalizedEvent)
    requires e in events
    ensures exists s | s in NormalEvents(events) ::
              AreCopies(s, e) || (e.kind == Transfer && s.IsNftSale() && SameMovement(s, e))
  {
    NormalMember(events);
    var first := FirstCopy(events, e);
    CopiesAgree(first, e);
    CopiesShareTheRest(first, e);
    if Shadowed(first, Sales(events)) {
      var sale :| sale in events && sale.IsNftSale() && MovementKey(sale) == MovementKey(first);
      var firstSale := FirstCopy(events, sale);
      CopiesAgree(firstSale, sale);
      MovementsShareTheKey(firstSale, e);
      assert firstSale in NormalEvents(events);
    } else {
      assert first in NormalEvents(events);
    }
  }

  /** Nothing is made up, no two survivors are copies, and no movement is told twice. */
  lemma MovementsToldOnce(events: seq<NormalizedEvent>, t: NormalizedEvent, s: NormalizedEvent)
    requires t in NormalEvents(events) && s in NormalEvents(events)
    ensures t in events
    ensures AreCopies(t, s) ==> t == s
    ensures t.kind == Transfer && s.IsNftSale() ==> !SameMovement(t, s)
  {
    NormalMember(events);
    CopiesShareTheRest(t, s);
    MovementsShareTheKey(t, s);
    if AreCopies(t, s) {
      TwoCopies(NormalEvents(events), t, s);
    }
  }

  /** The survivors go up by chain, then transaction, then index. */
  lemma NormalOrder(events: seq<NormalizedEvent>, i: nat, j: nat)
    requires !Conflicting(Reconciled(events)) && i < j < |NormalEvents(events)|
    ensures var a, b := NormalEvents(events)[i], NormalEvents(events)[j];
      if a.chain != b.chain then ChainRank(a.chain) < ChainRank(b.chain)
      else if a.txId != b.txId then StrLe()(a.txId, b.txId)
      else a.eventIndex < b.eventIndex
  {
    NormalStrict(events);
    hide NormalEvents, Conflicting, Reconciled, StrLe;
    var a, b := NormalEvents(events)[i], NormalEvents(events)[j];
    assert IdentityLe()(Id(a), Id(b)) && Id(a) != Id(b);
    assert IdentityLe()(Id(a), Id(b))
        == PairLe(NatLe(), PairLe(StrLe(), NatLe()))(IdentityFields(Id(a)), IdentityFields(Id(b)));
  }

  // ----- does the order of the input matter? -----

  /** All copies of an event that is not shadowed carry the same index. */
  ghost predicate CopiesAgreeOnIndex(events: seq<NormalizedEvent>) {
    forall x, y | x in events && y in events && IdentityFree(x) == IdentityFree(y) && !Shadowed(x, Sales(events)) ::
      x.eventIndex == y.eventIndex
  }

  lemma SalesOfPermutation(a: seq<NormalizedEvent>, b: seq<NormalizedEvent>)
    requires forall e :: e in a <==> e in b
    ensures Sales(a) == Sales(b)
  {}

  lemma NormalMemberWhenAgreed(events: seq<NormalizedEvent>, e: NormalizedEvent)
    requires CopiesAgreeOnIndex(events)
    ensures e in NormalEvents(events) <==> e in events && !Shadowed(e, Sales(events))
  {
    NormalMember(events);
    if e in events && !Shadowed(e, Sales(events)) {
      var first := FirstCopy(events, e);
      CopiesAgree(first, e);
    }
  }

  /** When the copies agree, every order of the input gives the same outcome. */
  lemma SameForEveryOrder(a: seq<NormalizedEvent>, b: seq<NormalizedEvent>)
    requires CopiesAgreeOnIndex(a) && multiset(a) == multiset(b)
    ensures Conflicting(Reconciled(a)) <==> Conflicting(Reconciled(b))
    ensures !Conflicting(Reconciled(a)) ==> NormalEvents(a) == NormalEvents(b)
  {
    SameMultisetSameElements(a, b);
    SalesOfPermutation(a, b);
    forall e
      ensures e in NormalEvents(a) <==> e in NormalEvents(b)
    {
      NormalMemberWhenAgreed(a, e);
      NormalMemberWhenAgreed(b, e);
    }
    NormalMember(a);
    NormalMember(b);
    if !Conflicting(Reconciled(a)) {
      NormalStrict(a);
      NormalStrict(b);
      IdentityTotal();
      DistinctKeysUnique(IdentityLe(), Id, NormalEvents(a), NormalEvents(b));
    }
  }

  lemma MovedToFront(events: seq<NormalizedEvent>, e: NormalizedEvent) returns (r: seq<NormalizedEvent>)
    requires e in events && !Shadowed(e, Sales(events))
    ensures multiset(r) == multiset(events) && e in NormalEvents(r)
  {
    var j :| 0 <= j < |events| && events[j] == e;
    r := [e] + (events[..j] + events[j + 1..]);
    RemoveAtMultiset(events, j);
    SameMultisetSameElements(r, events);
    SalesOfPermutation(r, events);
    KeepFirstHead(r);
    NormalMember(r);
  }

  /** A list that normalises does so to the same result in every order exactly when
      its copies agree on their index. */
  lemma OrderMattersExactlyWhenCopiesDisagree(events: seq<NormalizedEvent>)
    requires !Conflicting(Reconciled(events))
    ensures CopiesAgreeOnIndex(events)
            <==> forall r | multiset(r) == multiset(events) :: NormalEvents(r) == NormalEvents(events)
  {
    if CopiesAgreeOnIndex(events) {
      forall r | multiset(r) == multiset(events)
        ensures NormalEvents(r) == NormalEvents(events)
      {
        SameForEveryOrder(events, r);
      }
    } else {
      var x, y :| x in events && y in events && IdentityFree(x) == IdentityFree(y)
                  && !Shadowed(x, Sales(events)) && x.eventIndex != y.eventIndex;
      CopiesAgree(x, y);
      var a := MovedToFront(events, x);
      var b := MovedToFront(events, y);
      if NormalEvents(a) == NormalEvents(events) && NormalEvents(b) == NormalEvents(events) {
        NormalMember(events);
        TwoCopies(NormalEvents(events), x, y);
      }
    }
  }

  lemma TwoCopies(events: seq<NormalizedEvent>, x: NormalizedEvent, y: NormalizedEvent)
    requires DistinctCopies(events) && x in events && y in events && IdentityFree(x) == IdentityFree(y)
    ensures x == y
  {
    var i :| 0 <= i < |events| && events[i] == x;
    var j :| 0 <= j < |events| && events[j] == y;
  }

  lemma ReconciledThree(x: NormalizedEvent, y: NormalizedEvent, z: NormalizedEvent)
    requires IdentityFree(x) == IdentityFree(y) != IdentityFree(z)
    requires x.kind != Transfer && z.kind != Transfer
    ensures Reconciled([x, y, z]) == [x, z]
  {
    KeepFirstOfThree(x, y, z);
    DropShadowedFixed([x, z], Sales([x, y, z]));
  }

  lemma ConflictingPair(x: NormalizedEvent, y: NormalizedEvent)
    ensures Conflicting([x, y]) <==> x != y && Id(x) == Id(y)
  {
    var pair := [x, y];
    assert x == pair[0] && y == pair[1];
  }

  /** Whether normalising fails can depend on the order too: the copy kept decides
      which index is taken. */
  lemma OrderDecidesFailure(low: NormalizedEvent, high: NormalizedEvent, other: NormalizedEvent)
    requires IdentityFree(low) == IdentityFree(high) != IdentityFree(other)
    requires low.eventIndex != high.eventIndex && Id(low) == Id(other)
    requires low.kind != Transfer && other.kind != Transfer
    ensures Conflicting(Reconciled([low, high, other])) && !Conflicting(Reconciled([high, low, other]))
    ensures multiset([low, high, other]) == multiset([high, low, other])
  {
    hide Conflicting, Reconciled, IdentityFree;
    CopiesAgree(low, high);
    ReconciledThree(low, high, other);
    ReconciledThree(high, low, other);
    ConflictingPair(low, other);
    ConflictingPair(high, other);
  }

  /** Such events exist. */
  lemma FailureDependsOnOrder()
    ensures exists a, b :: multiset(a) == multiset(b) && Conflicting(Reconciled(a)) && !Conflicting(Reconciled(b))
  {
    hide Conflicting, Reconciled;
    var low := NormalizedEvent(Base, "tx", 1, None, None, Mint, None, None, None, None, None, None, None,
                               None, None, None, None, None, None);
    var high, other := low.(eventIndex := 2), low.(kind := Deploy);
    assert IdentityFree(low).kind != IdentityFree(other).kind;
    OrderDecidesFailure(low, high, other);
  }

  lemma KeepFirstOfThree(x: NormalizedEvent, y: NormalizedEvent, z: NormalizedEvent)
    requires IdentityFree(x) == IdentityFree(y) != IdentityFree(z)
    ensures KeepFirst([x, y, z]) == [x, z]
  {
    assert [x, y, z][..2] == [x, y] && [x, y][..1] == [x] && [x][..0] == [];
    assert x in [x];
    assert HasCopy([x], y);
    assert KeepFirst([x]) == [x];
  }

  // ----- when does no order fail? -----

  /** The event is in the list and no sale describes it as well. */
  ghost predicate Unshadowed(events: seq<NormalizedEvent>, e: NormalizedEvent) {
    e in events && !Shadowed(e, Sales(events))
  }

  /** Unshadowed events that are not copies of one event claim different places. */
  ghost predicate DistinctPlaces(events: seq<NormalizedEvent>) {
    forall x, y | Unshadowed(events, x) && Unshadowed(events, y) && IdentityFree(x) != IdentityFree(y) :: Id(x) != Id(y)
  }

  lemma ReconciledMember(events: seq<NormalizedEvent>)
    ensures forall e :: e in Reconciled(events) <==> e in KeepFirst(events) && !Shadowed(e, Sales(events))
    ensures DistinctCopies(Reconciled(events))
  {
    KeepFirstDistinct(events);
    DropShadowedDistinct(KeepFirst(events), Sales(events));
  }

  lemma DistinctPlacesNeverFail(events: seq<NormalizedEvent>, r: seq<NormalizedEvent>)
    requires DistinctPlaces(events) && multiset(r) == multiset(events)
    ensures !Conflicting(Reconciled(r))
  {
    SameMultisetSameElements(r, events);
    SalesOfPermutation(r, events);
    ReconciledMember(r);
    hide Reconciled, Shadowed, Sales, IdentityFree, Id;
    forall x, y | x in Reconciled(r) && y in Reconciled(r) && Id(x) == Id(y)
      ensures x == y
    {
      assert Unshadowed(events, x) && Unshadowed(events, y);
      TwoCopies(Reconciled(r), x, y);
    }
  }

  lemma KeepFirstGrows(events: seq<NormalizedEvent>)
    requires events != []
    ensures forall e | e in KeepFirst(events[..|events| - 1]) :: e in KeepFirst(events)
  {
    hide HasCopy;
  }

  /** What is kept of the front is kept of the whole. */
  lemma {:induction false} KeepFirstOfFront(front: seq<NormalizedEvent>, rest: seq<NormalizedEvent>)
    ensures forall e | e in KeepFirst(front) :: e in KeepFirst(front + rest)
  {
    if rest == [] {
      assert front + rest == front;
    } else {
      var all := front + rest;
      assert all[..|all| - 1] == front + rest[..|rest| - 1];
      hide KeepFirst;
      KeepFirstOfFront(front, rest[..|rest| - 1]);
      KeepFirstGrows(all);
    }
  }

  lemma OneToFront(events: seq<NormalizedEvent>, x: NormalizedEvent) returns (rest: seq<NormalizedEvent>)
    requires x in events
    ensures multiset(events) == multiset{x} + multiset(rest)
  {
    var i :| 0 <= i < |events| && events[i] == x;
    rest := events[..i] + events[i + 1..];
    RemoveAtMultiset(events, i);
    assert x in multiset(events);
  }

  lemma TwoToFront(events: seq<NormalizedEvent>, x: NormalizedEvent, y: NormalizedEvent)
    returns (rest: seq<NormalizedEvent>)
    requires x in events && y in events && x != y
    ensures multiset([x, y] + rest) == multiset(events)
  {
    var others := OneToFront(events, x);
    assert y in multiset(events) && y in multiset(others);
    rest := OneToFront(others, y);
  }

  lemma ClashingPlacesFail(events: seq<NormalizedEvent>, x: NormalizedEvent, y: NormalizedEvent)
    returns (r: seq<NormalizedEvent>)
    requires Unshadowed(events, x) && Unshadowed(events, y) && IdentityFree(x) != IdentityFree(y) && Id(x) == Id(y)
    ensures multiset(r) == multiset(events) && Conflicting(Reconciled(r))
  {
    var rest := TwoToFront(events, x, y);
    var front := [x, y];
    r := front + rest;
    SameMultisetSameElements(r, events);
    SalesOfPermutation(r, events);
    KeepFirstFixed(front);
    KeepFirstOfFront(front, rest);
    ReconciledMember(r);
    hide Reconciled, Shadowed, Sales, KeepFirst;
    assert x in front && y in front;
    assert x in Reconciled(r) && y in Reconciled(r);
  }

  /** No order of the input fails exactly when unshadowed events that are not copies of
      each other claim different places: something to look up in the input. */
  lemma NoOrderFailsExactly(events: seq<NormalizedEvent>)
    ensures DistinctPlaces(events)
            <==> forall r | multiset(r) == multiset(events) :: !Conflicting(Reconciled(r))
  {
    hide Conflicting, Reconciled, Unshadowed, IdentityFree, Id;
    if DistinctPlaces(events) {
      forall r | multiset(r) == multiset(events)
        ensures !Conflicting(Reconciled(r))
      {
        DistinctPlacesNeverFail(events, r);
      }
    } else {
      var x, y :| Unshadowed(events, x) && Unshadowed(events, y)
                  && IdentityFree(x) != IdentityFree(y) && Id(x) == Id(y);
      var r := ClashingPlacesFail(events, x, y);
    }
  }
}
