/** The program's code, updating the accounts of one deployment in place and in the order of the source. Every
    `Apply` method is proved to compute the instruction of module OftProgram; it may stop with an error half-way,
    and the `Process` methods stand for the runtime, which then discards its writes. */
module OftAccounts {
  import opened Numbers
  import opened Wrappers
  import opened TransferFees
  import opened OftAmounts
  import opened RateLimits
  import opened OftProgram
  import MsgCodec
  import ComposeMsgCodec

  /** What a send hands to the endpoint and returns to the caller. */
  datatype Dispatch = Dispatch(amounts: Amounts, receiver: Bytes32, message: Bytes, options: Bytes)

  /** What a delivery reports, and the composed call it queues. */
  datatype Receipt = Receipt(amountLd: u64, creditedLd: u64, compose: Option<ComposeCall>)

  class OftAccounts {
    var store: OftStore
    var peers: map<u32, PeerConfig>
    var ledger: Ledger

    function Accounts(): Chain
      reads this
    {
      Chain(store, peers, ledger)
    }

    constructor (chain: Chain)
      ensures Accounts() == chain
    {
      store, peers, ledger := chain.store, chain.peers, chain.ledger;
    }

    // ---- init_oft ----

    method InitOftApply(params: InitParams) returns (r: Result<()>)
      modifies this`store
      ensures match InitOft(params)
              case Ok(made) => r == Ok(()) && store == made
              case Err(e) => r == Err(e)
    {
      store := store.(oftType := params.oftType, key := params.key);
      if params.mintDecimals < params.sharedDecimals {
        return Err(InvalidDecimals);
      }
      var rate := Pow(10, params.mintDecimals - params.sharedDecimals);
      if rate > U64_MAX {
        return Err(Panic);
      }
      store := store.(ld2sdRate := rate);
      store := store.(tokenMint := params.tokenMint);
      store := store.(tokenEscrow := params.tokenEscrow);
      store := store.(endpointProgram :=
        if params.endpointProgram.Some? then params.endpointProgram.value else params.endpointId);
      store := store.(tvlLd := 0);
      store := store.(admin := params.admin);
      store := store.(defaultFeeBps := 0);
      store := store.(paused := false);
      store := store.(pauser := None);
      store := store.(unpauser := None);
      return Ok(());
    }

    // ---- Rate limiters of a peer ----

    /** Runs an optional limiter's `try_consume` on the stored value. */
    static method Consume(limiter: Option<Limiter>, now: u64, amount: u64) returns (r: Result<Option<Limiter>>)
      ensures r == ConsumeOptional(limiter, now, amount)
    {
      if limiter.None? {
        return Ok(None);
      }
      var bucket := new RateLimiter(limiter.value);
      var consumed := bucket.TryConsume(now, amount);
      if consumed.Err? {
        return Err(consumed.error);
      }
      return Ok(Some(bucket.Value()));
    }

    static method Refill(limiter: Option<Limiter>, now: u64, amount: u64) returns (r: Option<Limiter>)
      ensures r == RefillOptional(limiter, now, amount)
    {
      if limiter.None? {
        return None;
      }
      var bucket := new RateLimiter(limiter.value);
      bucket.Refill(now, amount);
      return Some(bucket.Value());
    }

    /** The limiter block shared by `send` and `lz_receive`: consume one way, then refill the other way. */
    method LimitApply(remoteEid: u32, direction: Direction, now: u64, amount: u64) returns (r: Result<()>)
      requires remoteEid in peers
      modifies this`peers
      ensures match Throttle(old(peers)[remoteEid], direction, now, amount)
              case Ok(after) => r == Ok(()) && peers == old(peers)[remoteEid := after]
              case Err(e) => r == Err(e)
    {
      var peer := peers[remoteEid];
      var consumed := Consume(LimiterOf(peer, direction), now, amount);
      if consumed.Err? {
        return Err(consumed.error);
      }
      if direction == Outbound {
        peer := peer.(outbound := consumed.value);
        var refilled := Refill(peer.inbound, now, amount);
        peer := peer.(inbound := refilled);
      } else {
        peer := peer.(inbound := consumed.value);
        var refilled := Refill(peer.outbound, now, amount);
        peer := peer.(outbound := refilled);
      }
      peers := peers[remoteEid := peer];
      return Ok(());
    }

    // ---- send ----

    method TakeInApply(signer: Pubkey, amounts: Amounts) returns (r: Result<()>)
      modifies this`store, this`ledger
      ensures match TakeIn(old(store), old(ledger), signer, amounts)
              case Ok(after) => r == Ok(()) && store == after.0 && ledger == after.1
              case Err(e) => r == Err(e)
      ensures store.ld2sdRate == old(store).ld2sdRate
    {
      if store.oftType == Adapter {
        if store.tvlLd + amounts.receivedLd > U64_MAX {
          return Err(Panic);
        }
        store := store.(tvlLd := store.tvlLd + amounts.receivedLd);
        var locked :- TransferToEscrow(ledger, signer, amounts.sentLd);
        ledger := locked;
      } else {
        if amounts.sentLd < amounts.oftFeeLd {
          return Err(Panic);
        }
        var burnt :- Burn(ledger, signer, amounts.sentLd - amounts.oftFeeLd);
        ledger := burnt;
        if amounts.oftFeeLd > 0 {
          var feePaid :- TransferToEscrow(ledger, signer, amounts.oftFeeLd);
          ledger := feePaid;
        }
      }
      return Ok(());
    }

    method SendApply(lib: OptionsLib, now: u64, signer: Pubkey, params: SendParams) returns (r: Result<Dispatch>)
      modifies this
      ensures match Send(lib, now, old(Accounts()), signer, params)
              case Ok(out) =>
                && r == Ok(Dispatch(out.amounts, out.receiver, out.message, out.options))
                && Accounts() == out.chain
              case Err(e) => r == Err(e)
    {
      hide ComputeFeeAndAdjustAmount, Throttle, TakeIn, MsgCodec.Wire;
      if params.dstEid !in peers || signer !in ledger.wallets {
        return Err(AccountNotInitialized);
      }
      var peer := peers[params.dstEid];
      if store.paused {
        return Err(Paused);
      }
      var amounts :- ComputeFeeAndAdjustAmount(params.amountLd, store, ledger.transferFee, peer.feeBps);
      if amounts.receivedLd < params.minAmountLd {
        return Err(SlippageExceeded);
      }

      var limited := LimitApply(params.dstEid, Outbound, now, amounts.receivedLd);
      if limited.Err? {
        return Err(limited.error);
      }
      var taken := TakeInApply(signer, amounts);
      if taken.Err? {
        return Err(taken.error);
      }
      if store.ld2sdRate == 0 {
        return Err(Panic);
      }
      var amountSd := store.Ld2Sd(amounts.receivedLd);
      var message := MsgCodec.Encode(params.to, amountSd, signer, params.composeMsg);
      var options :- lib.combine(peer.enforcedOptions.Get(params.composeMsg), params.options).ToResult(InvalidOptions);
      return Ok(Dispatch(amounts, peer.peerAddress, message, options));
    }

    // ---- lz_receive ----

    method PayOutApply(toAddress: Pubkey, mintAuthority: Option<Pubkey>, amountLd: u64) returns (r: Result<u64>)
      modifies this`store, this`ledger
      ensures match PayOut(old(store), old(ledger), toAddress, mintAuthority, amountLd)
              case Ok(after) => r == Ok(after.2) && store == after.0 && ledger == after.1
              case Err(e) => r == Err(e)
    {
      if store.oftType == Adapter {
        if store.tvlLd < amountLd {
          return Err(Panic);
        }
        store := store.(tvlLd := store.tvlLd - amountLd);
        var unlocked :- TransferFromEscrow(ledger, Wallet(toAddress), amountLd);
        ledger := unlocked;
        return GetPostFeeAmountLd(ledger.transferFee, amountLd);
      } else if mintAuthority.Some? {
        var minted :- MintTo(ledger, store.key, mintAuthority.value, toAddress, amountLd);
        ledger := minted;
        return Ok(amountLd);
      } else {
        return Err(InvalidMintAuthority);
      }
    }

    method LzReceiveApply(
      now: u64, params: LzReceiveParams, toAddress: Pubkey, mintAuthority: Option<Pubkey>, payloadHeld: bool)
      returns (r: Result<Receipt>)
      modifies this
      ensures match LzReceive(now, old(Accounts()), params, toAddress, mintAuthority, payloadHeld)
              case Ok(out) =>
                && r == Ok(Receipt(out.amountLd, out.creditedLd, out.compose))
                && Accounts() == out.chain
              case Err(e) => r == Err(e)
    {
      hide Throttle, PayOut, MsgCodec.SendTo, MsgCodec.AmountSd, ComposeMsgCodec.Wire;
      // the account constraints
      if params.srcEid !in peers {
        return Err(AccountNotInitialized);
      }
      var peer := peers[params.srcEid];
      if peer.peerAddress != params.sender {
        return Err(InvalidSender);
      }
      var sendTo :- MsgCodec.SendTo(params.message).ToResult(Panic);
      if toAddress != sendTo {
        return Err(InvalidTokenDest);
      }
      if mintAuthority.Some? && mintAuthority != ledger.mintAuthority {
        return Err(InvalidMintAuthority);
      }
      // the instruction
      if store.paused {
        return Err(Paused);
      }
      if !payloadHeld {
        return Err(PayloadNotFound);
      }
      var amountSd :- MsgCodec.AmountSd(params.message).ToResult(Panic);
      var amountLd :- store.Sd2Ld(amountSd).ToResult(Panic);

      var limited := LimitApply(params.srcEid, Inbound, now, amountLd);
      if limited.Err? {
        return Err(limited.error);
      }
      var paid := PayOutApply(toAddress, mintAuthority, amountLd);
      if paid.Err? {
        return Err(paid.error);
      }
      var creditedLd := paid.value;

      var compose := None;
      var tail := MsgCodec.ComposeMsg(params.message);
      if tail.Some? {
        var message := ComposeMsgCodec.Encode(params.nonce, params.srcEid, creditedLd, tail.value);
        compose := Some(ComposeCall(toAddress, params.guid, 0, message));
      }
      return Ok(Receipt(amountLd, creditedLd, compose));
    }

    // ---- Administration ----

    method WithdrawFeeApply(signer: Pubkey, feeLd: u64, dest: TokenDest) returns (r: Result<()>)
      modifies this`ledger
      ensures match Withdraw(old(Accounts()), signer, feeLd, dest)
              case Ok(after) => r == Ok(()) && Accounts() == after
              case Err(e) => r == Err(e)
    {
      if dest.Wallet? && dest.owner !in ledger.wallets {
        return Err(AccountNotInitialized);
      }
      if signer != store.admin {
        return Err(Unauthorized);
      }
      if ledger.escrow < store.tvlLd {
        return Err(Panic);
      }
      if ledger.escrow - store.tvlLd < feeLd {
        return Err(InvalidFee);
      }
      var paid :- TransferFromEscrow(ledger, dest, feeLd);
      ledger := paid;
      return Ok(());
    }

    method SetOftConfigApply(signer: Pubkey, config: OftConfig) returns (r: Result<()>)
      modifies this`store
      ensures match ConfigureStore(old(store), signer, config)
              case Ok(after) => r == Ok(()) && store == after
              case Err(e) => r == Err(e)
    {
      if signer != store.admin {
        return Err(Unauthorized);
      }
      match config {
        case Admin(admin) => store := store.(admin := admin);
        case Delegate(_) =>
        case DefaultFee(bps) =>
          if bps >= ONE_IN_BASIS_POINTS {
            return Err(InvalidFee);
          }
          store := store.(defaultFeeBps := bps);
        case SetPaused(paused) => store := store.(paused := paused);
        case Pauser(pauser) => store := store.(pauser := pauser);
        case Unpauser(unpauser) => store := store.(unpauser := unpauser);
      }
      return Ok(());
    }

    method SetPauseApply(signer: Pubkey, paused: bool) returns (r: Result<()>)
      modifies this`store
      ensures match PauseStore(old(store), signer, paused)
              case Ok(after) => r == Ok(()) && store == after
              case Err(e) => r == Err(e)
    {
      var authority := if paused then store.pauser else store.unpauser;
      if authority != Some(signer) {
        return Err(Unauthorized);
      }
      store := store.(paused := paused);
      return Ok(());
    }

    static method UpdateRateLimiter(limiter: Option<Limiter>, now: u64, params: Option<RateLimitParams>)
      returns (r: Option<Limiter>)
      ensures r == UpdateLimiter(limiter, now, params)
    {
      if params.None? {
        return None;
      }
      var bucket := new RateLimiter(if limiter.Some? then limiter.value else DEFAULT_LIMITER);
      if params.value.capacity.Some? {
        bucket.SetCapacity(now, params.value.capacity.value);
      }
      if params.value.refillPerSecond.Some? {
        bucket.SetRate(now, params.value.refillPerSecond.value);
      }
      return Some(bucket.Value());
    }

    method SetPeerConfigApply(lib: OptionsLib, now: u64, signer: Pubkey, remoteEid: u32, param: PeerParam)
      returns (r: Result<()>)
      modifies this`peers
      ensures match SetPeer(lib, now, old(Accounts()), signer, remoteEid, param)
              case Ok(after) => r == Ok(()) && Accounts() == after
              case Err(e) => r == Err(e)
    {
      if signer != store.admin {
        return Err(Unauthorized);
      }
      var peer := PeerOrNew(peers, remoteEid);
      match param {
        case PeerAddress(address) => peer := peer.(peerAddress := address);
        case FeeBps(bps) =>
          if bps.Some? && bps.value >= ONE_IN_BASIS_POINTS {
            return Err(InvalidFee);
          }
          peer := peer.(feeBps := bps);
        case Enforced(send, sendAndCall) =>
          if !lib.isType3(send) {
            return Err(InvalidOptions);
          }
          peer := peer.(enforcedOptions := peer.enforcedOptions.(send := send));
          if !lib.isType3(sendAndCall) {
            return Err(InvalidOptions);
          }
          peer := peer.(enforcedOptions := peer.enforcedOptions.(sendAndCall := sendAndCall));
        case OutboundRateLimit(limit) =>
          var updated := UpdateRateLimiter(peer.outbound, now, limit);
          peer := peer.(outbound := updated);
        case InboundRateLimit(limit) =>
          var updated := UpdateRateLimiter(peer.inbound, now, limit);
          peer := peer.(inbound := updated);
      }
      peers := peers[remoteEid := peer];
      return Ok(());
    }

    // ---- The runtime: all or nothing ----

    method ProcessSend(lib: OptionsLib, now: u64, signer: Pubkey, params: SendParams) returns (r: Result<Dispatch>)
      modifies this
      ensures match Send(lib, now, old(Accounts()), signer, params)
              case Ok(out) =>
                && r == Ok(Dispatch(out.amounts, out.receiver, out.message, out.options))
                && Accounts() == out.chain
              case Err(e) => r == Err(e) && Accounts() == old(Accounts())
    {
      var before := Accounts();
      r := SendApply(lib, now, signer, params);
      if r.Err? {
        store, peers, ledger := before.store, before.peers, before.ledger;
      }
    }

    method ProcessLzReceive(
      now: u64, params: LzReceiveParams, toAddress: Pubkey, mintAuthority: Option<Pubkey>, payloadHeld: bool)
      returns (r: Result<Receipt>)
      modifies this
      ensures match LzReceive(now, old(Accounts()), params, toAddress, mintAuthority, payloadHeld)
              case Ok(out) =>
                && r == Ok(Receipt(out.amountLd, out.creditedLd, out.compose))
                && Accounts() == out.chain
              case Err(e) => r == Err(e) && Accounts() == old(Accounts())
    {
      var before := Accounts();
      r := LzReceiveApply(now, params, toAddress, mintAuthority, payloadHeld);
      if r.Err? {
        store, peers, ledger := before.store, before.peers, before.ledger;
      }
    }

    method ProcessAdmin(lib: OptionsLib, now: u64, signer: Pubkey, ix: AdminIx) returns (r: Result<()>)
      modifies this
      ensures match Administer(lib, now, old(Accounts()), signer, ix)
              case Ok(after) => r == Ok(()) && Accounts() == after
              case Err(e) => r == Err(e) && Accounts() == old(Accounts())
    {
      var before := Accounts();
      match ix {
        case WithdrawFee(feeLd, dest) => r := WithdrawFeeApply(signer, feeLd, dest);
        case SetOftConfig(config) => r := SetOftConfigApply(signer, config);
        case SetPause(paused) => r := SetPauseApply(signer, paused);
        case SetPeerConfig(remoteEid, param) => r := SetPeerConfigApply(lib, now, signer, remoteEid, param);
      }
      if r.Err? {
        store, peers, ledger := before.store, before.peers, before.ledger;
      }
    }
  }
}
