/** What every instruction keeps on one chain, and by how much it changes the value that the chain accounts for. */
module ChainInvariant {
  import opened Numbers
  import opened Wrappers
  import opened TransferFees
  import opened OftAmounts
  import opened RateLimits
  import opened Sums
  import opened OftProgram
  import MsgCodec

  // ---- The invariant ----

  ghost predicate LimiterOk(limiter: Option<Limiter>, now: u64) {
    limiter.Some? ==> limiter.value.Valid() && limiter.value.lastRefillTime <= now
  }

  ghost predicate PeerOk(peer: PeerConfig, now: u64) {
    && (peer.feeBps.Some? ==> peer.feeBps.value < ONE_IN_BASIS_POINTS)
    && LimiterOk(peer.outbound, now)
    && LimiterOk(peer.inbound, now)
  }

  ghost predicate PeersOk(peers: map<u32, PeerConfig>, now: u64) {
    forall e | e in peers :: PeerOk(peers[e], now)
  }

  ghost predicate ChainOk(c: Chain, now: u64) {
    && c.store.ld2sdRate >= 1
    && c.store.defaultFeeBps < ONE_IN_BASIS_POINTS
    && PeersOk(c.peers, now)
    && c.ledger.Balanced()
    && c.store.tvlLd <= c.ledger.escrow
    && c.store.tvlLd % c.store.ld2sdRate == 0
    && (c.store.oftType.Native? ==>
          && c.store.tvlLd == 0
          && (c.ledger.supply + c.ledger.burntOutside) % c.store.ld2sdRate == 0)
  }

  /** Shared units locked on an adapter. */
  function Locked(c: Chain): int
    requires c.store.ld2sdRate >= 1
  {
    if c.store.oftType.Adapter? then c.store.tvlLd / c.store.ld2sdRate else 0
  }

  /** Shared units issued on a native chain, whether still circulating or burnt by their holders. */
  function Issued(c: Chain): int
    requires c.store.ld2sdRate >= 1
  {
    if c.store.oftType.Native? then (c.ledger.supply + c.ledger.burntOutside) / c.store.ld2sdRate else 0
  }

  /** Fields that no instruction ever changes. */
  ghost predicate SameDeployment(c: Chain, c': Chain) {
    && c'.store.key == c.store.key
    && c'.store.oftType == c.store.oftType
    && c'.store.ld2sdRate == c.store.ld2sdRate
    && c'.ledger.transferFee == c.ledger.transferFee
    && c'.ledger.mintAuthority == c.ledger.mintAuthority
    && c'.ledger.quorums == c.ledger.quorums
    && c'.ledger.burntOutside == c.ledger.burntOutside
  }

  function Net(c: Chain): int
    requires c.store.ld2sdRate >= 1
  {
    Locked(c) - Issued(c)
  }

  ghost predicate SameAddresses(peers: map<u32, PeerConfig>, peers': map<u32, PeerConfig>) {
    peers'.Keys == peers.Keys && forall e | e in peers :: peers'[e].peerAddress == peers[e].peerAddress
  }

  /** The accounts stay in order; `units` is what the net position gains and `surplus` what the escrow gains
      beyond the locked value. */
  ghost predicate Moves(c: Chain, c': Chain, now: u64, units: int, surplus: int)
    requires ChainOk(c, now)
  {
    && ChainOk(c', now)
    && SameDeployment(c, c')
    && Net(c') == Net(c) + units
    && c'.ledger.escrow - c'.store.tvlLd == c.ledger.escrow - c.store.tvlLd + surplus
  }

  // ---- Token program steps ----

  lemma TransferToEscrowEffect(l: Ledger, from: Pubkey, amount: u64)
    requires l.Balanced() && TransferToEscrow(l, from, amount).Ok?
    ensures var l' := TransferToEscrow(l, from, amount).value;
            && l'.Balanced()
            && l'.escrow == l.escrow + Arrived(l.transferFee, amount)
            && Arrived(l.transferFee, amount) <= amount
  {
    ArrivedIsPostFee(l.transferFee, amount);
    SumUpdate(l.wallets, from, l.wallets[from] - amount);
  }

  /** A balanced ledger leaves room for every credit out of escrow, so a funded payment never fails. */
  lemma TransferFromEscrowEffect(l: Ledger, to: TokenDest, amount: u64)
    requires l.Balanced() && amount <= l.escrow
    ensures TransferFromEscrow(l, to, amount).Ok?
    ensures var l' := TransferFromEscrow(l, to, amount).value;
            && l'.Balanced()
            && l'.escrow == (if to.Wallet? then l.escrow - amount else l.escrow)
            && l'.supply == l.supply
            && (to.Wallet? ==> l'.Balance(to.owner) == l.Balance(to.owner) + Arrived(l.transferFee, amount))
            && forall other: Pubkey :: to != Wallet(other) ==> l'.Balance(other) == l.Balance(other)
  {
    ArrivedIsPostFee(l.transferFee, amount);
    if to.Wallet? {
      WalletWithinSupply(l, to.owner);
      SumUpdate(l.wallets, to.owner, l.Balance(to.owner) + Arrived(l.transferFee, amount));
    }
  }

  lemma WalletWithinSupply(l: Ledger, owner: Pubkey)
    requires l.Balanced()
    ensures l.Balance(owner) + l.escrow + l.withheld <= l.supply
  {
    SumNonNegative(l.wallets);
    if owner in l.wallets {
      SumBoundsEach(l.wallets, owner);
    }
  }

  /** Minting fails exactly when the store cannot sign for the authority or the supply would not fit in 64 bits. */
  lemma MintToEffect(l: Ledger, store: Pubkey, authority: Pubkey, to: Pubkey, amount: u64)
    requires l.Balanced()
    ensures MintTo(l, store, authority, to, amount).Ok?
            <==> (authority == store || authority in l.quorums) && l.supply + amount <= U64_MAX
    ensures MintTo(l, store, authority, to, amount).Ok? ==> MintTo(l, store, authority, to, amount).value.Balanced()
  {
    WalletWithinSupply(l, to);
    SumUpdate(l.wallets, to, l.Balance(to) + amount);
  }

  lemma BurnEffect(l: Ledger, from: Pubkey, amount: u64)
    requires l.Balanced() && Burn(l, from, amount).Ok?
    ensures Burn(l, from, amount).value.Balanced()
  {
    SumUpdate(l.wallets, from, l.wallets[from] - amount);
  }

  // ---- Limiters ----

  function Opposite(direction: Direction): Direction {
    if direction == Outbound then Inbound else Outbound
  }

  /** A limiter brought up to date, without a change of its settings. */
  ghost predicate SameSettings(l: Limiter, l': Limiter, now: u64) {
    l'.capacity == l.capacity && l'.refillPerSecond == l.refillPerSecond && l'.lastRefillTime == now
  }

  /** Traffic is admitted exactly when its own limiter, if any, has the tokens; that limiter then has so many
      fewer, the opposite one so many more up to its capacity, and nothing else about the peer changes. */
  lemma ThrottleEffect(peer: PeerConfig, direction: Direction, now: u64, amount: u64)
    requires PeerOk(peer, now)
    ensures Throttle(peer, direction, now, amount).Ok?
            <==> (LimiterOf(peer, direction).Some? ==> amount <= LimiterOf(peer, direction).value.Available(now))
    ensures Throttle(peer, direction, now, amount).Err? ==>
              Throttle(peer, direction, now, amount).error == RateLimitExceeded
    ensures Throttle(peer, direction, now, amount).Ok? ==>
              var peer' := Throttle(peer, direction, now, amount).value;
              var l, l' := LimiterOf(peer, direction), LimiterOf(peer', direction);
              var o, o' := LimiterOf(peer, Opposite(direction)), LimiterOf(peer', Opposite(direction));
              && PeerOk(peer', now)
              && peer' == peer.(outbound := peer'.outbound, inbound := peer'.inbound)
              && l'.Some? == l.Some? && o'.Some? == o.Some?
              && (l.Some? ==> SameSettings(l.value, l'.value, now))
              && (o.Some? ==> SameSettings(o.value, o'.value, now))
              && (l.Some? ==> l'.value.Available(now) == l.value.Available(now) - amount)
              && (o.Some? ==> o'.value.Available(now) == Min(o.value.capacity, o.value.Available(now) + amount))
  {
    var l, o := LimiterOf(peer, direction), LimiterOf(peer, Opposite(direction));
    if l.Some? && l.value.Consumed(now, amount).Ok? {
      ConsumedAvailable(l.value, now, amount);
    }
    if o.Some? {
      RefilledAvailable(o.value, now, amount);
    }
    hide Limiter.Refilled;
  }

  /** A given capacity starts from a full bucket; a given rate applies from now on, whatever was earned before
      at the old rate; what is not given stays, or is zero for a new limiter; and no parameters remove the
      limiter. */
  lemma UpdateLimiterMeaning(limiter: Option<Limiter>, now: u64, params: RateLimitParams, later: u64)
    requires LimiterOk(limiter, now) && now <= later
    ensures UpdateLimiter(limiter, now, None) == None
    ensures UpdateLimiter(limiter, now, Some(params)).Some?
    ensures var l := if limiter.Some? then limiter.value else Limiter(0, 0, 0, 0);
            var l' := UpdateLimiter(limiter, now, Some(params)).value;
            var tokens := if params.capacity.Some? then params.capacity.value else l.Available(now);
            && l'.Valid()
            && l'.capacity == (if params.capacity.Some? then params.capacity.value else l.capacity)
            && l'.refillPerSecond
               == (if params.refillPerSecond.Some? then params.refillPerSecond.value else l.refillPerSecond)
            && l'.Available(later) == Min(l'.capacity, tokens + (later - now) * l'.refillPerSecond)
  {
    var l := if limiter.Some? then limiter.value else DEFAULT_LIMITER;
    var l1 := if params.capacity.Some? then l.WithCapacity(now, params.capacity.value) else l;
    MulNonNegative(later - now, l.refillPerSecond);
    if params.refillPerSecond.Some? {
      RateChangeBillsOldRate(l1, now, params.refillPerSecond.value, later);
    } else if params.capacity.None? {
      RefillsCompose(l, [TimedRefill(now, 0), TimedRefill(later, 0)]);
      assert (later - l.lastRefillTime) * l.refillPerSecond
          == (later - now) * l.refillPerSecond + (now - l.lastRefillTime) * l.refillPerSecond;
    }
  }

  lemma PeersStayOk(peers: map<u32, PeerConfig>, eid: u32, peer: PeerConfig, now: u64)
    requires PeersOk(peers, now) && PeerOk(peer, now)
    ensures PeersOk(peers[eid := peer], now)
  {
  }

  // ---- init_oft ----

  /** Powers of ten fit in 64 bits up to the nineteenth. */
  lemma PowersOfTen(n: nat)
    ensures Pow(10, n) <= U64_MAX <==> n <= 19
  {
    if n < 19 {
      PowMonotone(10, n, 19);
    } else if n > 20 {
      PowMonotone(10, 20, n);
    }
    assert Pow(10, 10) == 10_000_000_000;
    assert Pow(10, 15) == 1_000_000_000_000_000;
    assert Pow(10, 20) == 10 * Pow(10, 19) && Pow(10, 19) == 10_000_000_000_000_000_000;
  }

  /** A store can be made exactly when the mint has at least the shared decimals and at most nineteen more. */
  lemma InitSucceedsIff(params: InitParams)
    ensures InitOft(params).Ok? <==> params.sharedDecimals <= params.mintDecimals <= params.sharedDecimals + 19
    ensures params.mintDecimals < params.sharedDecimals ==> InitOft(params) == Err(InvalidDecimals)
    ensures params.mintDecimals > params.sharedDecimals + 19 ==> InitOft(params) == Err(Panic)
  {
    if params.sharedDecimals <= params.mintDecimals {
      PowersOfTen(params.mintDecimals - params.sharedDecimals);
    }
  }

  /** A fresh store is of the type and for the accounts asked for, has a positive power-of-ten rate, charges
      nothing, locks nothing, is open, and has an administrator but no pausers. */
  lemma InitEffect(params: InitParams, ledger: Ledger, now: u64)
    requires InitOft(params).Ok?
    requires ledger.Balanced() && ledger.escrow == 0
    requires params.oftType.Native? ==> ledger.supply == 0 && ledger.burntOutside == 0
    ensures var c := Chain(InitOft(params).value, map[], ledger);
            && ChainOk(c, now)
            && Locked(c) == 0 && Issued(c) == 0
            && c.store.key == params.key && c.store.oftType == params.oftType
            && c.store.tokenMint == params.tokenMint && c.store.tokenEscrow == params.tokenEscrow
            && (params.endpointProgram.Some? ==> c.store.endpointProgram == params.endpointProgram.value)
            && (params.endpointProgram.None? ==> c.store.endpointProgram == params.endpointId)
            && c.store.tvlLd == 0 && c.store.defaultFeeBps == 0 && !c.store.paused
            && c.store.admin == params.admin && c.store.pauser == None && c.store.unpauser == None
            && c.store.ld2sdRate == Pow(10, params.mintDecimals - params.sharedDecimals)
  {
    PowPositive(10, params.mintDecimals - params.sharedDecimals);
  }

  // ---- send ----

  /** The amounts of a transfer, as far as the accounts depend on them. */
  ghost predicate AmountsFit(c: Chain, amounts: Amounts)
    requires c.store.ld2sdRate >= 1 && FeeValid(c.ledger.transferFee)
  {
    && amounts.receivedLd % c.store.ld2sdRate == 0
    && amounts.receivedLd + amounts.oftFeeLd
       == (if c.store.oftType.Adapter? then Arrived(c.ledger.transferFee, amounts.sentLd) else amounts.sentLd)
  }

  lemma LockEffect(c: Chain, signer: Pubkey, amounts: Amounts, now: u64)
    requires ChainOk(c, now) && AmountsFit(c, amounts)
    requires c.store.oftType.Adapter? && TakeIn(c.store, c.ledger, signer, amounts).Ok?
    ensures var taken := TakeIn(c.store, c.ledger, signer, amounts).value;
            Moves(c, Chain(taken.0, c.peers, taken.1), now, c.store.Ld2Sd(amounts.receivedLd), FeeKept(c, amounts))
  {
    TransferToEscrowEffect(c.ledger, signer, amounts.sentLd);
    AddMultiple(c.store.tvlLd, amounts.receivedLd, c.store.ld2sdRate);
  }

  lemma BurnForSendEffect(c: Chain, signer: Pubkey, amounts: Amounts, now: u64)
    requires ChainOk(c, now) && AmountsFit(c, amounts)
    requires c.store.oftType.Native? && TakeIn(c.store, c.ledger, signer, amounts).Ok?
    ensures var taken := TakeIn(c.store, c.ledger, signer, amounts).value;
            Moves(c, Chain(taken.0, c.peers, taken.1), now, c.store.Ld2Sd(amounts.receivedLd), FeeKept(c, amounts))
  {
    BurnEffect(c.ledger, signer, amounts.receivedLd);
    var burnt := Burn(c.ledger, signer, amounts.receivedLd).value;
    AddMultiple(burnt.supply + burnt.burntOutside, amounts.receivedLd, c.store.ld2sdRate);
    if amounts.oftFeeLd > 0 {
      TransferToEscrowEffect(burnt, signer, amounts.oftFeeLd);
      ArrivedIsPostFee(c.ledger.transferFee, amounts.oftFeeLd);
    }
  }

  /** What the escrow gains beyond the locked value: the bridge's fee, less the mint's own fee when a native
      token charges one on the transfer to escrow. */
  ghost function FeeKept(c: Chain, amounts: Amounts): int
    requires FeeValid(c.ledger.transferFee)
  {
    if c.store.oftType.Adapter? || amounts.oftFeeLd == 0 then amounts.oftFeeLd
    else Arrived(c.ledger.transferFee, amounts.oftFeeLd)
  }

  /** A successful send, part by part. */
  ghost predicate Dispatched(now: u64, c: Chain, signer: Pubkey, params: SendParams, out: SendOutcome)
    requires c.store.ld2sdRate >= 1
  {
    && params.dstEid in c.peers
    && var peer := c.peers[params.dstEid];
    && ComputeFeeAndAdjustAmount(params.amountLd, c.store, c.ledger.transferFee, peer.feeBps) == Ok(out.amounts)
    && params.minAmountLd <= out.amounts.receivedLd
    && out.receiver == peer.peerAddress
    && Throttle(peer, Outbound, now, out.amounts.receivedLd).Ok?
    && TakeIn(c.store, c.ledger, signer, out.amounts).Ok?
    && var taken := TakeIn(c.store, c.ledger, signer, out.amounts).value;
    && out.chain == Chain(taken.0,
                          c.peers[params.dstEid := Throttle(peer, Outbound, now, out.amounts.receivedLd).value],
                          taken.1)
    && out.message == MsgCodec.Wire(params.to, c.store.Ld2Sd(out.amounts.receivedLd), signer, params.composeMsg)
  }

  lemma SendDispatches(lib: OptionsLib, now: u64, c: Chain, signer: Pubkey, params: SendParams)
    requires c.store.ld2sdRate >= 1 && Send(lib, now, c, signer, params).Ok?
    ensures Dispatched(now, c, signer, params, Send(lib, now, c, signer, params).value)
  {
  }

  /** A send keeps the invariant, adds to the chain's net position exactly the shared amount written into the
      message, and adds to the escrow's surplus exactly the fee kept. */
  lemma SendEffect(now: u64, c: Chain, signer: Pubkey, params: SendParams, out: SendOutcome)
    requires ChainOk(c, now)
    requires Dispatched(now, c, signer, params, out)
    ensures MsgCodec.WellFormed(out.message)
    ensures MsgCodec.AmountSd(out.message) == Some(c.store.Ld2Sd(out.amounts.receivedLd))
    ensures Moves(c, out.chain, now, MsgCodec.AmountSd(out.message).value, FeeKept(c, out.amounts))
    ensures SameAddresses(c.peers, out.chain.peers)
  {
    hide Throttle, TakeIn, ComputeFeeAndAdjustAmount;
    var peer := c.peers[params.dstEid];
    AmountsBalance(params.amountLd, c.store, c.ledger.transferFee, peer.feeBps);
    ThrottleEffect(peer, Outbound, now, out.amounts.receivedLd);
    if c.store.oftType.Adapter? {
      LockEffect(c, signer, out.amounts, now);
    } else {
      BurnForSendEffect(c, signer, out.amounts, now);
    }
    PeersStayOk(c.peers, params.dstEid, Throttle(peer, Outbound, now, out.amounts.receivedLd).value, now);
    MsgCodec.DecodeEncode(params.to, c.store.Ld2Sd(out.amounts.receivedLd), signer, params.composeMsg);
  }

  /** On a balanced ledger a transfer to escrow needs only the funds. */
  lemma TransferToEscrowSucceedsIff(l: Ledger, from: Pubkey, amount: u64)
    requires l.Balanced()
    ensures TransferToEscrow(l, from, amount).Ok? <==> from in l.wallets && amount <= l.wallets[from]
  {
    ArrivedIsPostFee(l.transferFee, amount);
    WalletWithinSupply(l, from);
  }

  lemma LockSucceedsIff(c: Chain, signer: Pubkey, amounts: Amounts, now: u64)
    requires ChainOk(c, now) && AmountsFit(c, amounts) && c.store.oftType.Adapter?
    ensures TakeIn(c.store, c.ledger, signer, amounts).Ok?
            <==> signer in c.ledger.wallets && amounts.sentLd <= c.ledger.wallets[signer]
  {
    TransferToEscrowSucceedsIff(c.ledger, signer, amounts.sentLd);
    ArrivedIsPostFee(c.ledger.transferFee, amounts.sentLd);
    WalletWithinSupply(c.ledger, signer);
  }

  lemma BurnForSendSucceedsIff(c: Chain, signer: Pubkey, amounts: Amounts, now: u64)
    requires ChainOk(c, now) && AmountsFit(c, amounts) && c.store.oftType.Native?
    ensures TakeIn(c.store, c.ledger, signer, amounts).Ok?
            <==> signer in c.ledger.wallets && amounts.sentLd <= c.ledger.wallets[signer]
  {
    WalletWithinSupply(c.ledger, signer);
    if Burn(c.ledger, signer, amounts.receivedLd).Ok? {
      BurnEffect(c.ledger, signer, amounts.receivedLd);
      TransferToEscrowSucceedsIff(Burn(c.ledger, signer, amounts.receivedLd).value, signer, amounts.oftFeeLd);
    }
  }

  /** Exactly what can stop a send: no peer, a pause, the slippage bound, the outbound limiter, the sender's
      funds, or the options. No overflow of a funded send and no fee arithmetic can. */
  lemma SendSucceedsIff(lib: OptionsLib, now: u64, c: Chain, signer: Pubkey, params: SendParams)
    requires ChainOk(c, now)
    ensures params.dstEid in c.peers ==>
              ComputeFeeAndAdjustAmount(params.amountLd, c.store, c.ledger.transferFee,
                                        c.peers[params.dstEid].feeBps).Ok?
    ensures Send(lib, now, c, signer, params).Ok? <==>
              && params.dstEid in c.peers
              && !c.store.paused
              && var peer := c.peers[params.dstEid];
              var r := ComputeFeeAndAdjustAmount(params.amountLd, c.store, c.ledger.transferFee, peer.feeBps);
              && params.minAmountLd <= r.value.receivedLd
              && (peer.outbound.Some? ==> r.value.receivedLd <= peer.outbound.value.Available(now))
              && signer in c.ledger.wallets && r.value.sentLd <= c.ledger.wallets[signer]
              && lib.combine(if params.composeMsg.None? then peer.enforcedOptions.send
                             else peer.enforcedOptions.sendAndCall, params.options).Some?
  {
    hide Throttle, TakeIn, ComputeFeeAndAdjustAmount, MsgCodec.Wire;
    if params.dstEid in c.peers {
      var peer := c.peers[params.dstEid];
      assert PeerOk(peer, now);
      AmountsBalance(params.amountLd, c.store, c.ledger.transferFee, peer.feeBps);
      var amounts := ComputeFeeAndAdjustAmount(params.amountLd, c.store, c.ledger.transferFee, peer.feeBps).value;
      ThrottleEffect(peer, Outbound, now, amounts.receivedLd);
      if c.store.oftType.Adapter? {
        LockSucceedsIff(c, signer, amounts, now);
      } else {
        BurnForSendSucceedsIff(c, signer, amounts, now);
      }
    }
  }

  /** How a send that fails is refused, first reason first. An unfunded send on an adapter may also overflow the
      locked value before the transfer is tried. */
  lemma SendRefusal(lib: OptionsLib, now: u64, c: Chain, signer: Pubkey, params: SendParams)
    requires ChainOk(c, now) && Send(lib, now, c, signer, params).Err?
    ensures var e := Send(lib, now, c, signer, params).error;
            if params.dstEid !in c.peers || signer !in c.ledger.wallets then e == AccountNotInitialized
            else if c.store.paused then e == Paused
            else
              var peer := c.peers[params.dstEid];
              var r := ComputeFeeAndAdjustAmount(params.amountLd, c.store, c.ledger.transferFee, peer.feeBps);
              && r.Ok?
              && if r.value.receivedLd < params.minAmountLd then e == SlippageExceeded
                 else if peer.outbound.Some? && peer.outbound.value.Available(now) < r.value.receivedLd
                   then e == RateLimitExceeded
                 else if c.ledger.wallets[signer] < r.value.sentLd then
                   e == if c.store.oftType.Adapter? && c.store.tvlLd + r.value.receivedLd > U64_MAX then Panic
                        else InsufficientFunds
                 else e == InvalidOptions
  {
    hide Throttle, TakeIn, ComputeFeeAndAdjustAmount, MsgCodec.Wire;
    if params.dstEid in c.peers && signer in c.ledger.wallets {
      var peer := c.peers[params.dstEid];
      assert PeerOk(peer, now);
      AmountsBalance(params.amountLd, c.store, c.ledger.transferFee, peer.feeBps);
      var amounts := ComputeFeeAndAdjustAmount(params.amountLd, c.store, c.ledger.transferFee, peer.feeBps).value;
      ThrottleEffect(peer, Outbound, now, amounts.receivedLd);
      if c.ledger.wallets[signer] < amounts.sentLd {
        TakeInRefusal(c, signer, amounts, now);
      }
      if c.store.oftType.Adapter? {
        LockSucceedsIff(c, signer, amounts, now);
      } else {
        BurnForSendSucceedsIff(c, signer, amounts, now);
      }
    }
  }

  lemma TakeInRefusal(c: Chain, signer: Pubkey, amounts: Amounts, now: u64)
    requires ChainOk(c, now) && AmountsFit(c, amounts) && signer in c.ledger.wallets
    requires c.ledger.wallets[signer] < amounts.sentLd
    ensures TakeIn(c.store, c.ledger, signer, amounts) ==
            Err(if c.store.oftType.Adapter? && c.store.tvlLd + amounts.receivedLd > U64_MAX then Panic
                else InsufficientFunds)
  {
    WalletWithinSupply(c.ledger, signer);
  }

  /** A send takes from the signer exactly the charged amount, no more than asked and with no less received than
      agreed to, and touches nobody else's balance. */
  lemma SendCharges(now: u64, c: Chain, signer: Pubkey, params: SendParams, out: SendOutcome)
    requires ChainOk(c, now)
    requires Dispatched(now, c, signer, params, out)
    ensures out.amounts.sentLd <= params.amountLd && params.minAmountLd <= out.amounts.receivedLd
    ensures out.chain.ledger.Balance(signer) == c.ledger.Balance(signer) - out.amounts.sentLd
    ensures forall other: Pubkey :: other != signer ==> out.chain.ledger.Balance(other) == c.ledger.Balance(other)
  {
    var peer := c.peers[params.dstEid];
    AmountsBalance(params.amountLd, c.store, c.ledger.transferFee, peer.feeBps);
    NeverOvercharged(params.amountLd, c.store, c.ledger.transferFee, peer.feeBps);
    hide Throttle, ComputeFeeAndAdjustAmount, Sum;
  }

  /** Beside the balances, the peer's limiters, the locked value of an adapter and the supply of a native token,
      a send leaves every account as it was. */
  lemma SendFrame(now: u64, c: Chain, signer: Pubkey, params: SendParams, out: SendOutcome)
    requires ChainOk(c, now)
    requires Dispatched(now, c, signer, params, out)
    ensures var received := out.amounts.receivedLd;
            var l' := out.chain.ledger;
            && (c.store.oftType.Adapter? ==> out.chain.store == c.store.(tvlLd := c.store.tvlLd + received))
            && (c.store.oftType.Native? ==> out.chain.store == c.store)
            && l' == c.ledger.(supply := l'.supply, escrow := l'.escrow, withheld := l'.withheld, wallets := l'.wallets)
            && l'.supply == (if c.store.oftType.Native? then c.ledger.supply - received else c.ledger.supply)
            && PeerFrame(c.peers, out.chain.peers, params.dstEid)
  {
    var peer := c.peers[params.dstEid];
    AmountsBalance(params.amountLd, c.store, c.ledger.transferFee, peer.feeBps);
    ThrottleEffect(peer, Outbound, now, out.amounts.receivedLd);
    hide Throttle, ComputeFeeAndAdjustAmount, Sum, ChainOk;
  }

  /** Only one peer changes, and of it only the limiters. */
  ghost predicate PeerFrame(peers: map<u32, PeerConfig>, peers': map<u32, PeerConfig>, eid: u32) {
    && peers'.Keys == peers.Keys
    && eid in peers
    && peers'[eid] == peers[eid].(outbound := peers'[eid].outbound, inbound := peers'[eid].inbound)
    && forall e | e in peers && e != eid :: peers'[e] == peers[e]
  }

  // ---- lz_receive ----

  /** There is an authority account, and the store can sign for it. */
  predicate CanMint(c: Chain, mintAuthority: Option<Pubkey>) {
    mintAuthority.Some? && (mintAuthority.value == c.store.key || mintAuthority.value in c.ledger.quorums)
  }

  lemma PayOutEffect(c: Chain, to: Pubkey, mintAuthority: Option<Pubkey>, amountSd: u64, amountLd: u64, now: u64)
    requires ChainOk(c, now)
    requires c.store.Sd2Ld(amountSd) == Some(amountLd)
    ensures PayOut(c.store, c.ledger, to, mintAuthority, amountLd).Ok? <==>
              if c.store.oftType.Adapter? then amountLd <= c.store.tvlLd
              else CanMint(c, mintAuthority) && c.ledger.supply + amountLd <= U64_MAX
    ensures PayOut(c.store, c.ledger, to, mintAuthority, amountLd).Ok? ==>
              var (store', ledger', credited) := PayOut(c.store, c.ledger, to, mintAuthority, amountLd).value;
              var c' := Chain(store', c.peers, ledger');
              && Moves(c, c', now, 0 - amountSd, 0)
              && credited == (if c.store.oftType.Adapter? then Arrived(c.ledger.transferFee, amountLd) else amountLd)
              && ledger'.Balance(to) == c.ledger.Balance(to) + credited
              && forall other: Pubkey :: other != to ==> ledger'.Balance(other) == c.ledger.Balance(other)
  {
    var rate := c.store.ld2sdRate;
    ArrivedIsPostFee(c.ledger.transferFee, amountLd);
    MultipleDivides(amountSd, rate);
    if c.store.oftType.Adapter? {
      if amountLd <= c.store.tvlLd {
        TransferFromEscrowEffect(c.ledger, Wallet(to), amountLd);
        AddMultiple(c.store.tvlLd - amountLd, amountLd, rate);
      }
    } else {
      if mintAuthority.Some? {
        MintToEffect(c.ledger, c.store.key, mintAuthority.value, to, amountLd);
      }
      AddMultiple(c.ledger.supply + c.ledger.burntOutside, amountLd, rate);
    }
  }

  lemma PayOutFrame(store: OftStore, l: Ledger, to: Pubkey, mintAuthority: Option<Pubkey>, amountLd: u64)
    requires PayOut(store, l, to, mintAuthority, amountLd).Ok?
    ensures var paid := PayOut(store, l, to, mintAuthority, amountLd).value;
            && paid.0 == store.(tvlLd := paid.0.tvlLd)
            && paid.1.mintAuthority == l.mintAuthority
  {
  }

  /** A successful delivery, part by part. */
  ghost predicate Delivered(
    now: u64, c: Chain, params: LzReceiveParams, to: Pubkey, mintAuthority: Option<Pubkey>, out: ReceiveOutcome)
  {
    && params.srcEid in c.peers
    && var peer := c.peers[params.srcEid];
    && peer.peerAddress == params.sender
    && MsgCodec.SendTo(params.message) == Some(to)
    && (mintAuthority.Some? ==> mintAuthority == c.ledger.mintAuthority)
    && !c.store.paused
    && MsgCodec.AmountSd(params.message).Some?
    && c.store.Sd2Ld(MsgCodec.AmountSd(params.message).value) == Some(out.amountLd)
    && Throttle(peer, Inbound, now, out.amountLd).Ok?
    && PayOut(c.store, c.ledger, to, mintAuthority, out.amountLd).Ok?
    && var paid := PayOut(c.store, c.ledger, to, mintAuthority, out.amountLd).value;
    && out.chain == Chain(paid.0, c.peers[params.srcEid := Throttle(peer, Inbound, now, out.amountLd).value], paid.1)
    && out.creditedLd == paid.2
    && out.compose == ComposeFor(params, to, out.creditedLd)
  }

  lemma LzReceiveDelivers(
    now: u64, c: Chain, params: LzReceiveParams, to: Pubkey, mintAuthority: Option<Pubkey>, payloadHeld: bool)
    requires LzReceive(now, c, params, to, mintAuthority, payloadHeld).Ok?
    ensures payloadHeld
    ensures Delivered(now, c, params, to, mintAuthority,
                      LzReceive(now, c, params, to, mintAuthority, payloadHeld).value)
  {
  }

  /** A delivery keeps the invariant, takes from the chain's net position exactly the shared amount of the
      message, leaves the escrow's surplus alone, and credits the recipient named in the message and nobody else. */
  lemma LzReceiveEffect(
    now: u64, c: Chain, params: LzReceiveParams, to: Pubkey, mintAuthority: Option<Pubkey>, out: ReceiveOutcome)
    requires ChainOk(c, now)
    requires Delivered(now, c, params, to, mintAuthority, out)
    ensures Moves(c, out.chain, now, 0 - MsgCodec.AmountSd(params.message).value, 0)
    ensures SameAddresses(c.peers, out.chain.peers)
    ensures out.creditedLd == (if c.store.oftType.Adapter? then Arrived(c.ledger.transferFee, out.amountLd)
                               else out.amountLd)
    ensures out.chain.ledger.Balance(to) == c.ledger.Balance(to) + out.creditedLd
    ensures forall other: Pubkey :: other != to ==> out.chain.ledger.Balance(other) == c.ledger.Balance(other)
  {
    hide Throttle, PayOut, ComposeFor;
    var peer := c.peers[params.srcEid];
    ThrottleEffect(peer, Inbound, now, out.amountLd);
    PayOutEffect(c, to, mintAuthority, MsgCodec.AmountSd(params.message).value, out.amountLd, now);
    PeersStayOk(c.peers, params.srcEid, Throttle(peer, Inbound, now, out.amountLd).value, now);
  }

  /** The same for a delivery. */
  lemma LzReceiveFrame(
    now: u64, c: Chain, params: LzReceiveParams, to: Pubkey, mintAuthority: Option<Pubkey>, out: ReceiveOutcome)
    requires ChainOk(c, now)
    requires Delivered(now, c, params, to, mintAuthority, out)
    ensures var l' := out.chain.ledger;
            && (c.store.oftType.Adapter? ==> out.chain.store == c.store.(tvlLd := c.store.tvlLd - out.amountLd))
            && (c.store.oftType.Native? ==> out.chain.store == c.store)
            && l' == c.ledger.(supply := l'.supply, escrow := l'.escrow, withheld := l'.withheld, wallets := l'.wallets)
            && l'.supply == (if c.store.oftType.Native? then c.ledger.supply + out.amountLd else c.ledger.supply)
            && PeerFrame(c.peers, out.chain.peers, params.srcEid)
  {
    ThrottleEffect(c.peers[params.srcEid], Inbound, now, out.amountLd);
    hide Throttle, Sum, ChainOk, ComposeFor;
  }

  /** Exactly when a delivery succeeds. */
  ghost predicate CanDeliver(
    now: u64, c: Chain, params: LzReceiveParams, to: Pubkey, mintAuthority: Option<Pubkey>, payloadHeld: bool)
  {
    && payloadHeld
    && !c.store.paused
    && params.srcEid in c.peers
    && c.peers[params.srcEid].peerAddress == params.sender
    && MsgCodec.SendTo(params.message) == Some(to)
    && (mintAuthority.Some? ==> mintAuthority == c.ledger.mintAuthority)
    && MsgCodec.AmountSd(params.message).Some?
    && var amountLd := MsgCodec.AmountSd(params.message).value * c.store.ld2sdRate;
    && amountLd <= U64_MAX
    && (c.peers[params.srcEid].inbound.Some? ==> amountLd <= c.peers[params.srcEid].inbound.value.Available(now))
    && (if c.store.oftType.Adapter? then amountLd <= c.store.tvlLd
        else CanMint(c, mintAuthority) && c.ledger.supply + amountLd <= U64_MAX)
  }

  lemma DeliverySucceedsIff(
    now: u64, c: Chain, params: LzReceiveParams, to: Pubkey, mintAuthority: Option<Pubkey>, payloadHeld: bool)
    requires ChainOk(c, now)
    ensures LzReceive(now, c, params, to, mintAuthority, payloadHeld).Ok?
            <==> CanDeliver(now, c, params, to, mintAuthority, payloadHeld)
  {
    hide Throttle, PayOut, ComposeFor;
    if params.srcEid in c.peers && MsgCodec.AmountSd(params.message).Some? {
      var amountSd := MsgCodec.AmountSd(params.message).value;
      if c.store.Sd2Ld(amountSd).Some? {
        var amountLd := c.store.Sd2Ld(amountSd).value;
        assert PeerOk(c.peers[params.srcEid], now);
        ThrottleEffect(c.peers[params.srcEid], Inbound, now, amountLd);
        PayOutEffect(c, to, mintAuthority, amountSd, amountLd, now);
      }
    }
  }

  /** How a delivery that fails is refused, first reason first. */
  lemma DeliveryRefusal(
    now: u64, c: Chain, params: LzReceiveParams, to: Pubkey, mintAuthority: Option<Pubkey>, payloadHeld: bool)
    requires ChainOk(c, now)
    requires !CanDeliver(now, c, params, to, mintAuthority, payloadHeld)
    ensures var amountSd := MsgCodec.AmountSd(params.message);
            var sendTo := MsgCodec.SendTo(params.message);
            LzReceive(now, c, params, to, mintAuthority, payloadHeld) == Err(
              if params.srcEid !in c.peers then AccountNotInitialized
              else if params.sender != c.peers[params.srcEid].peerAddress then InvalidSender
              else if sendTo.None? then Panic
              else if sendTo.value != to then InvalidTokenDest
              else if mintAuthority.Some? && c.ledger.mintAuthority != mintAuthority then InvalidMintAuthority
              else if c.store.paused then Paused
              else if !payloadHeld then PayloadNotFound
              else if amountSd.None? || amountSd.value * c.store.ld2sdRate > U64_MAX then Panic
              else if c.peers[params.srcEid].inbound.Some?
                      && amountSd.value * c.store.ld2sdRate > c.peers[params.srcEid].inbound.value.Available(now)
                then RateLimitExceeded
              else if c.store.oftType.Adapter? then Panic
              else if mintAuthority.None? then InvalidMintAuthority
              else if !CanMint(c, mintAuthority) then OwnerMismatch
              else TokenOverflow)
  {
    DeliverySucceedsIff(now, c, params, to, mintAuthority, payloadHeld);
    if params.srcEid in c.peers && MsgCodec.AmountSd(params.message).Some? {
      var amountSd := MsgCodec.AmountSd(params.message).value;
      if c.store.Sd2Ld(amountSd).Some? {
        assert PeerOk(c.peers[params.srcEid], now);
        ThrottleEffect(c.peers[params.srcEid], Inbound, now, c.store.Sd2Ld(amountSd).value);
      }
    }
    hide MsgCodec.AmountSd, MsgCodec.SendTo, ComposeFor;
  }

  // ---- Administration ----

  /** What leaves the escrow under an instruction of the administrator. */
  function Withdrawn(ix: AdminIx): nat {
    if ix.WithdrawFee? && ix.dest.Wallet? then ix.feeLd else 0
  }

  /** A withdrawal succeeds exactly when the administrator asks for no more than the surplus, to an account that
      exists; otherwise it is refused for the first of these reasons, and the guard never underflows. */
  lemma WithdrawSucceedsIff(lib: OptionsLib, now: u64, c: Chain, signer: Pubkey, feeLd: u64, dest: TokenDest)
    requires ChainOk(c, now)
    ensures Administer(lib, now, c, signer, WithdrawFee(feeLd, dest)).Ok? <==>
              && signer == c.store.admin
              && (dest.Wallet? ==> dest.owner in c.ledger.wallets)
              && c.store.tvlLd + feeLd <= c.ledger.escrow
    ensures Administer(lib, now, c, signer, WithdrawFee(feeLd, dest)).Err? ==>
              Administer(lib, now, c, signer, WithdrawFee(feeLd, dest)).error ==
                if dest.Wallet? && dest.owner !in c.ledger.wallets then AccountNotInitialized
                else if signer != c.store.admin then Unauthorized
                else InvalidFee
  {
    if feeLd <= c.ledger.escrow {
      TransferFromEscrowEffect(c.ledger, dest, feeLd);
    }
  }

  /** The withdrawn amount goes to the destination, less the mint's transfer fee, and to nobody else; a withdrawal
      into the escrow itself moves nothing. */
  lemma WithdrawPays(lib: OptionsLib, now: u64, c: Chain, signer: Pubkey, feeLd: u64, dest: TokenDest)
    requires ChainOk(c, now) && Administer(lib, now, c, signer, WithdrawFee(feeLd, dest)).Ok?
    ensures var c' := Administer(lib, now, c, signer, WithdrawFee(feeLd, dest)).value;
            && c' == c.(ledger := c'.ledger)
            && (dest.Escrow? ==> c' == c)
            && (dest.Wallet? ==>
                  && c'.ledger.escrow == c.ledger.escrow - feeLd
                  && c'.ledger.Balance(dest.owner)
                     == c.ledger.Balance(dest.owner) + Arrived(c.ledger.transferFee, feeLd))
            && (forall other: Pubkey :: dest != Wallet(other) ==> c'.ledger.Balance(other) == c.ledger.Balance(other))
            && c'.ledger.supply == c.ledger.supply
  {
    TransferFromEscrowEffect(c.ledger, dest, feeLd);
    hide TransferFromEscrow;
  }

  lemma ConfigurePeerEffect(lib: OptionsLib, now: u64, peer: PeerConfig, param: PeerParam)
    requires PeerOk(peer, now)
    requires ConfigurePeer(lib, now, peer, param).Ok?
    ensures PeerOk(ConfigurePeer(lib, now, peer, param).value, now)
  {
  }

  /** Administration keeps the invariant, moves no value, and takes from the escrow only what it withdraws. */
  lemma AdministerEffect(lib: OptionsLib, now: u64, c: Chain, signer: Pubkey, ix: AdminIx)
    requires ChainOk(c, now)
    requires Administer(lib, now, c, signer, ix).Ok?
    ensures var c' := Administer(lib, now, c, signer, ix).value;
            Moves(c, c', now, 0, 0 - Withdrawn(ix))
  {
    match ix
    case WithdrawFee(feeLd, dest) =>
      TransferFromEscrowEffect(c.ledger, dest, feeLd);
    case SetPeerConfig(remoteEid, param) =>
      var peer := PeerOrNew(c.peers, remoteEid);
      ConfigurePeerEffect(lib, now, peer, param);
      PeersStayOk(c.peers, remoteEid, ConfigurePeer(lib, now, peer, param).value, now);
    case _ =>
  }

  /** What an existing peer becomes, or a new one: no address, no options, no limiters, no fee of its own. */
  ghost function BaseOf(peers: map<u32, PeerConfig>, eid: u32): PeerConfig {
    if eid in peers then peers[eid] else PeerConfig(ZERO_32, EnforcedOptions([], []), None, None, None)
  }

  /** Exactly when a peer can be configured, and what the peer then is: the one field as given, every other one as
      it was, and every other peer and account untouched. Limiters are updated as `UpdateLimiterMeaning` says. */
  lemma SetPeerMeaning(lib: OptionsLib, now: u64, c: Chain, signer: Pubkey, eid: u32, param: PeerParam)
    ensures Administer(lib, now, c, signer, SetPeerConfig(eid, param)).Ok? <==>
              && signer == c.store.admin
              && (param.FeeBps? && param.feeBps.Some? ==> param.feeBps.value < 10_000)
              && (param.Enforced? ==> lib.isType3(param.send) && lib.isType3(param.sendAndCall))
    ensures Administer(lib, now, c, signer, SetPeerConfig(eid, param)).Err? ==>
              Administer(lib, now, c, signer, SetPeerConfig(eid, param)).error ==
                if signer != c.store.admin then Unauthorized
                else if param.FeeBps? then InvalidFee else InvalidOptions
    ensures Administer(lib, now, c, signer, SetPeerConfig(eid, param)).Ok? ==>
              var c' := Administer(lib, now, c, signer, SetPeerConfig(eid, param)).value;
              var old' := BaseOf(c.peers, eid);
              && c' == c.(peers := c'.peers)
              && c'.peers.Keys == c.peers.Keys + {eid}
              && (forall e | e in c.peers && e != eid :: c'.peers[e] == c.peers[e])
              && var peer := c'.peers[eid];
              && peer.peerAddress == (if param.PeerAddress? then param.address else old'.peerAddress)
              && peer.feeBps == (if param.FeeBps? then param.feeBps else old'.feeBps)
              && peer.enforcedOptions.send == (if param.Enforced? then param.send else old'.enforcedOptions.send)
              && peer.enforcedOptions.sendAndCall
                 == (if param.Enforced? then param.sendAndCall else old'.enforcedOptions.sendAndCall)
              && peer.outbound == (if param.OutboundRateLimit? then UpdateLimiter(old'.outbound, now, param.limit)
                                   else old'.outbound)
              && peer.inbound == (if param.InboundRateLimit? then UpdateLimiter(old'.inbound, now, param.limit)
                                  else old'.inbound)
  {
  }

  /** Exactly when the store can be configured, and what it then is: the one field as given, every other one and
      every other account as it was. */
  lemma SetOftMeaning(lib: OptionsLib, now: u64, c: Chain, signer: Pubkey, config: OftConfig)
    ensures Administer(lib, now, c, signer, SetOftConfig(config)).Ok? <==>
              signer == c.store.admin && (config.DefaultFee? ==> config.feeBps < 10_000)
    ensures Administer(lib, now, c, signer, SetOftConfig(config)).Err? ==>
              Administer(lib, now, c, signer, SetOftConfig(config)).error
              == if signer != c.store.admin then Unauthorized else InvalidFee
    ensures Administer(lib, now, c, signer, SetOftConfig(config)).Ok? ==>
              var c' := Administer(lib, now, c, signer, SetOftConfig(config)).value;
              && c' == c.(store := c'.store)
              && c'.store == c.store.(
                   admin := if config.Admin? then config.admin else c.store.admin,
                   defaultFeeBps := if config.DefaultFee? then config.feeBps else c.store.defaultFeeBps,
                   paused := if config.SetPaused? then config.paused else c.store.paused,
                   pauser := if config.Pauser? then config.pauser else c.store.pauser,
                   unpauser := if config.Unpauser? then config.unpauser else c.store.unpauser)
  {
  }

  /** The pauser can always pause, the unpauser can always reopen, and nobody else can do either by this route. */
  lemma SetPauseMeaning(lib: OptionsLib, now: u64, c: Chain, signer: Pubkey, paused: bool)
    ensures Administer(lib, now, c, signer, SetPause(paused))
            == (if (paused && c.store.pauser == Some(signer)) || (!paused && c.store.unpauser == Some(signer))
                then Ok(c.(store := c.store.(paused := paused))) else Err(Unauthorized))
  {
  }

  /** Only the administrator changes anything, except that the pauser may pause and the unpauser may reopen;
      and an instruction changes no account but the one it is for. */
  lemma AdministrationIsConfined(lib: OptionsLib, now: u64, c: Chain, signer: Pubkey, ix: AdminIx)
    requires Administer(lib, now, c, signer, ix).Ok?
    ensures || signer == c.store.admin
            || (ix.SetPause? && Some(signer) == (if ix.paused then c.store.pauser else c.store.unpauser))
    ensures var c' := Administer(lib, now, c, signer, ix).value;
            && c'.store.tvlLd == c.store.tvlLd
            && (!ix.WithdrawFee? ==> c'.ledger == c.ledger)
            && (ix.WithdrawFee? || ix.SetPeerConfig? ==> c'.store == c.store)
            && (ix.SetPause? ==> c'.store == c.store.(paused := ix.paused))
            && (forall e | e in c.peers && !(ix.SetPeerConfig? && ix.remoteEid == e) ::
                  e in c'.peers && c'.peers[e] == c.peers[e])
            && (ix.SetPeerConfig? ==> c'.peers.Keys == c.peers.Keys + {ix.remoteEid})
  {
  }

  // ---- The rate is immutable ----

  lemma SendKeepsRate(lib: OptionsLib, now: u64, c: Chain, signer: Pubkey, params: SendParams)
    requires Send(lib, now, c, signer, params).Ok?
    ensures Send(lib, now, c, signer, params).value.chain.store.ld2sdRate == c.store.ld2sdRate
  {
    hide ComputeFeeAndAdjustAmount, Throttle;
  }

  lemma LzReceiveKeepsRate(
    now: u64, c: Chain, params: LzReceiveParams, to: Pubkey, mintAuthority: Option<Pubkey>, payloadHeld: bool)
    requires LzReceive(now, c, params, to, mintAuthority, payloadHeld).Ok?
    ensures LzReceive(now, c, params, to, mintAuthority, payloadHeld).value.chain.store.ld2sdRate
            == c.store.ld2sdRate
  {
    hide Throttle;
  }

  lemma AdministerKeepsRate(lib: OptionsLib, now: u64, c: Chain, signer: Pubkey, ix: AdminIx)
    requires Administer(lib, now, c, signer, ix).Ok?
    ensures Administer(lib, now, c, signer, ix).value.store.ld2sdRate == c.store.ld2sdRate
  {
  }

  // ---- Time ----

  lemma ChainOkLater(c: Chain, now: u64, later: u64)
    requires ChainOk(c, now) && now <= later
    ensures ChainOk(c, later)
  {
  }
}
