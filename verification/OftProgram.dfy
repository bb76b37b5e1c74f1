/** The accounts of one deployment of the bridge and the meaning of its instructions. Each instruction is a
    function from the accounts to new accounts or an error; module OftAccounts holds the code that updates the
    accounts in place, and proves that it computes these functions. */
module OftProgram {
  import opened Numbers
  import opened Wrappers
  import opened TransferFees
  import opened OftAmounts
  import opened RateLimits
  import opened Sums
  import MsgCodec
  import ComposeMsgCodec

  // ---- Accounts ----

  datatype EnforcedOptions = EnforcedOptions(send: Bytes, sendAndCall: Bytes) {
    function Get(composeMsg: Option<Bytes>): Bytes {
      if composeMsg.None? then send else sendAndCall
    }
  }

  datatype PeerConfig = PeerConfig(
    peerAddress: Bytes32,
    enforcedOptions: EnforcedOptions,
    outbound: Option<Limiter>,
    inbound: Option<Limiter>,
    feeBps: Option<u16>)

  const NEW_PEER := PeerConfig(ZERO_32, EnforcedOptions([], []), None, None, None)

  /** The token side: the mint, the escrow account, everybody else's accounts (keyed by their owner), the
      transfer fees withheld so far and, for the record, what holders burnt without the bridge. `quorums` are
      the multisig accounts that the store's signature alone satisfies: those with the store as a signer and a
      quorum of one. */
  datatype Ledger = Ledger(
    supply: u64,
    escrow: u64,
    withheld: nat,
    wallets: map<Pubkey, u64>,
    transferFee: Option<TransferFee>,
    mintAuthority: Option<Pubkey>,
    quorums: set<Pubkey>,
    burntOutside: nat)
  {
    /** The token program's own invariant. */
    ghost predicate Balanced() {
      Sum(wallets) + escrow + withheld == supply && FeeValid(transferFee)
    }

    /** The store can sign for itself and for the quorums. */
    predicate StoreSignsFor(store: Pubkey, authority: Pubkey) {
      authority == store || authority in quorums
    }

    function Balance(owner: Pubkey): u64 {
      if owner in wallets then wallets[owner] else 0
    }
  }

  datatype Chain = Chain(store: OftStore, peers: map<u32, PeerConfig>, ledger: Ledger)

  /** The options library, which the program calls but does not define. */
  datatype OptionsLib = OptionsLib(combine: (Bytes, Bytes) -> Option<Bytes>, isType3: Bytes -> bool)

  // ---- Token program ----

  /** Transfers are charged the mint's fee, which is withheld at the destination. */
  function TransferToEscrow(l: Ledger, from: Pubkey, amount: u64): Result<Ledger> {
    if from !in l.wallets then Err(AccountNotInitialized) else
    if l.wallets[from] < amount then Err(InsufficientFunds) else
    var arrived :- GetPostFeeAmountLd(l.transferFee, amount);
    if l.escrow + arrived > U64_MAX then Err(TokenOverflow) else
    Ok(l.(wallets := l.wallets[from := l.wallets[from] - amount],
          escrow := l.escrow + arrived,
          withheld := l.withheld + (amount - arrived)))
  }

  datatype TokenDest = Wallet(owner: Pubkey) | Escrow

  function TransferFromEscrow(l: Ledger, to: TokenDest, amount: u64): Result<Ledger> {
    if l.escrow < amount then Err(InsufficientFunds) else
    match to
    case Escrow => Ok(l)
    case Wallet(owner) =>
      var arrived :- GetPostFeeAmountLd(l.transferFee, amount);
      if l.Balance(owner) + arrived > U64_MAX then Err(TokenOverflow) else
      Ok(l.(wallets := l.wallets[owner := l.Balance(owner) + arrived],
            escrow := l.escrow - amount,
            withheld := l.withheld + (amount - arrived)))
  }

  /** The store is the only signer of the mint. */
  function MintTo(l: Ledger, store: Pubkey, authority: Pubkey, to: Pubkey, amount: u64): Result<Ledger> {
    if !l.StoreSignsFor(store, authority) then Err(OwnerMismatch) else
    if l.supply + amount > U64_MAX || l.Balance(to) + amount > U64_MAX then Err(TokenOverflow) else
    Ok(l.(supply := l.supply + amount, wallets := l.wallets[to := l.Balance(to) + amount]))
  }

  function Burn(l: Ledger, from: Pubkey, amount: u64): Result<Ledger> {
    if from !in l.wallets then Err(AccountNotInitialized) else
    if l.wallets[from] < amount then Err(InsufficientFunds) else
    if l.supply < amount then Err(TokenOverflow) else
    Ok(l.(supply := l.supply - amount, wallets := l.wallets[from := l.wallets[from] - amount]))
  }

  // ---- Rate limits of a peer ----

  datatype Direction = Outbound | Inbound

  function LimiterOf(peer: PeerConfig, direction: Direction): Option<Limiter> {
    if direction == Outbound then peer.outbound else peer.inbound
  }

  function ConsumeOptional(limiter: Option<Limiter>, now: u64, amount: u64): Result<Option<Limiter>> {
    if limiter.None? then Ok(None) else
    var after :- limiter.value.Consumed(now, amount);
    Ok(Some(after))
  }

  function RefillOptional(limiter: Option<Limiter>, now: u64, amount: u64): Option<Limiter> {
    if limiter.None? then None else Some(limiter.value.Refilled(now, amount))
  }

  /** Traffic in one direction consumes that direction's limiter and refills the opposite one. */
  function Throttle(peer: PeerConfig, direction: Direction, now: u64, amount: u64): Result<PeerConfig> {
    var consumed :- ConsumeOptional(LimiterOf(peer, direction), now, amount);
    if direction == Outbound then
      Ok(peer.(outbound := consumed, inbound := RefillOptional(peer.inbound, now, amount)))
    else
      Ok(peer.(inbound := consumed, outbound := RefillOptional(peer.outbound, now, amount)))
  }

  // ---- init_oft ----

  datatype InitParams = InitParams(
    key: Pubkey, oftType: OftType, admin: Pubkey, sharedDecimals: u8, endpointProgram: Option<Pubkey>,
    endpointId: Pubkey, tokenMint: Pubkey, tokenEscrow: Pubkey, mintDecimals: u8)
  {
    function Endpoint(): Pubkey {
      if endpointProgram.Some? then endpointProgram.value else endpointId
    }
  }

  function InitOft(params: InitParams): Result<OftStore> {
    if params.mintDecimals < params.sharedDecimals then Err(InvalidDecimals) else
    var rate := Pow(10, params.mintDecimals - params.sharedDecimals);
    if rate > U64_MAX then Err(Panic) else
    Ok(OftStore(params.key, params.oftType, rate, params.tokenMint, params.tokenEscrow, params.Endpoint(),
                0, params.admin, 0, false, None, None))
  }

  // ---- send ----

  datatype SendParams = SendParams(
    dstEid: u32, to: Bytes32, amountLd: u64, minAmountLd: u64, options: Bytes, composeMsg: Option<Bytes>)

  datatype SendOutcome = SendOutcome(
    chain: Chain, amounts: Amounts, receiver: Bytes32, message: Bytes, options: Bytes)

  /** Lock on an adapter; burn, and keep the fee in escrow, on a native token. */
  function TakeIn(store: OftStore, l: Ledger, signer: Pubkey, amounts: Amounts): Result<(OftStore, Ledger)> {
    if store.oftType.Adapter? then
      if store.tvlLd + amounts.receivedLd > U64_MAX then Err(Panic) else
      var locked :- TransferToEscrow(l, signer, amounts.sentLd);
      Ok((store.(tvlLd := store.tvlLd + amounts.receivedLd), locked))
    else
      if amounts.sentLd < amounts.oftFeeLd then Err(Panic) else
      var burnt :- Burn(l, signer, amounts.sentLd - amounts.oftFeeLd);
      if amounts.oftFeeLd == 0 then Ok((store, burnt)) else
      var feePaid :- TransferToEscrow(burnt, signer, amounts.oftFeeLd);
      Ok((store, feePaid))
  }

  function Send(lib: OptionsLib, now: u64, c: Chain, signer: Pubkey, params: SendParams): Result<SendOutcome> {
    if params.dstEid !in c.peers || signer !in c.ledger.wallets then Err(AccountNotInitialized) else
    var peer := c.peers[params.dstEid];
    if c.store.paused then Err(Paused) else
    var amounts :- ComputeFeeAndAdjustAmount(params.amountLd, c.store, c.ledger.transferFee, peer.feeBps);
    if amounts.receivedLd < params.minAmountLd then Err(SlippageExceeded) else
    var throttled :- Throttle(peer, Outbound, now, amounts.receivedLd);
    var taken :- TakeIn(c.store, c.ledger, signer, amounts);
    if c.store.ld2sdRate == 0 then Err(Panic) else
    var message := MsgCodec.Wire(params.to, c.store.Ld2Sd(amounts.receivedLd), signer, params.composeMsg);
    var options :- lib.combine(peer.enforcedOptions.Get(params.composeMsg), params.options).ToResult(InvalidOptions);
    Ok(SendOutcome(Chain(taken.0, c.peers[params.dstEid := throttled], taken.1),
                   amounts, peer.peerAddress, message, options))
  }

  // ---- lz_receive ----

  datatype LzReceiveParams = LzReceiveParams(
    srcEid: u32, sender: Bytes32, nonce: u64, guid: Bytes32, message: Bytes)

  datatype ComposeCall = ComposeCall(to: Pubkey, guid: Bytes32, index: u16, message: Bytes)

  datatype ReceiveOutcome = ReceiveOutcome(
    chain: Chain, amountLd: u64, creditedLd: u64, compose: Option<ComposeCall>)

  /** Unlock on an adapter, where the mint's fee applies; mint on a native token. */
  function PayOut(store: OftStore, l: Ledger, to: Pubkey, mintAuthority: Option<Pubkey>, amountLd: u64)
    : Result<(OftStore, Ledger, u64)>
  {
    if store.oftType.Adapter? then
      if store.tvlLd < amountLd then Err(Panic) else
      var unlocked :- TransferFromEscrow(l, Wallet(to), amountLd);
      var credited :- GetPostFeeAmountLd(l.transferFee, amountLd);
      Ok((store.(tvlLd := store.tvlLd - amountLd), unlocked, credited))
    else
      if mintAuthority.None? then Err(InvalidMintAuthority) else
      var minted :- MintTo(l, store.key, mintAuthority.value, to, amountLd);
      Ok((store, minted, amountLd))
  }

  /** The composed call that a message asks for, if any. */
  function ComposeFor(params: LzReceiveParams, to: Pubkey, creditedLd: u64): Option<ComposeCall> {
    match MsgCodec.ComposeMsg(params.message)
    case None => None
    case Some(tail) =>
      Some(ComposeCall(to, params.guid, 0, ComposeMsgCodec.Wire(params.nonce, params.srcEid, creditedLd, tail)))
  }

  /** `payloadHeld` is the endpoint's answer to `clear`: it holds this very payload, not yet delivered. */
  function LzReceive(
    now: u64, c: Chain, params: LzReceiveParams, toAddress: Pubkey, mintAuthority: Option<Pubkey>, payloadHeld: bool)
    : Result<ReceiveOutcome>
  {
    if params.srcEid !in c.peers then Err(AccountNotInitialized) else
    var peer := c.peers[params.srcEid];
    if peer.peerAddress != params.sender then Err(InvalidSender) else
    var sendTo :- MsgCodec.SendTo(params.message).ToResult(Panic);
    if toAddress != sendTo then Err(InvalidTokenDest) else
    if mintAuthority.Some? && mintAuthority != c.ledger.mintAuthority then Err(InvalidMintAuthority) else
    if c.store.paused then Err(Paused) else
    if !payloadHeld then Err(PayloadNotFound) else
    var amountSd :- MsgCodec.AmountSd(params.message).ToResult(Panic);
    var amountLd :- c.store.Sd2Ld(amountSd).ToResult(Panic);
    var throttled :- Throttle(peer, Inbound, now, amountLd);
    var paid :- PayOut(c.store, c.ledger, toAddress, mintAuthority, amountLd);
    Ok(ReceiveOutcome(Chain(paid.0, c.peers[params.srcEid := throttled], paid.1), amountLd, paid.2,
                      ComposeFor(params, toAddress, paid.2)))
  }

  // ---- Administration ----

  datatype OftConfig =
    | Admin(admin: Pubkey)
    | Delegate(delegate: Pubkey)
    | DefaultFee(feeBps: u16)
    | SetPaused(paused: bool)
    | Pauser(pauser: Option<Pubkey>)
    | Unpauser(unpauser: Option<Pubkey>)

  datatype RateLimitParams = RateLimitParams(refillPerSecond: Option<u64>, capacity: Option<u64>)

  datatype PeerParam =
    | PeerAddress(address: Bytes32)
    | FeeBps(feeBps: Option<u16>)
    | Enforced(send: Bytes, sendAndCall: Bytes)
    | OutboundRateLimit(limit: Option<RateLimitParams>)
    | InboundRateLimit(limit: Option<RateLimitParams>)

  datatype AdminIx =
    | WithdrawFee(feeLd: u64, dest: TokenDest)
    | SetOftConfig(config: OftConfig)
    | SetPause(paused: bool)
    | SetPeerConfig(remoteEid: u32, param: PeerParam)

  function Withdraw(c: Chain, signer: Pubkey, feeLd: u64, dest: TokenDest): Result<Chain> {
    if dest.Wallet? && dest.owner !in c.ledger.wallets then Err(AccountNotInitialized) else
    if signer != c.store.admin then Err(Unauthorized) else
    if c.ledger.escrow < c.store.tvlLd then Err(Panic) else
    if c.ledger.escrow - c.store.tvlLd < feeLd then Err(InvalidFee) else
    var paid :- TransferFromEscrow(c.ledger, dest, feeLd);
    Ok(c.(ledger := paid))
  }

  function ConfigureStore(store: OftStore, signer: Pubkey, config: OftConfig): Result<OftStore> {
    if signer != store.admin then Err(Unauthorized) else
    match config
    case Admin(admin) => Ok(store.(admin := admin))
    case Delegate(_) => Ok(store)
    case DefaultFee(bps) => if bps < ONE_IN_BASIS_POINTS then Ok(store.(defaultFeeBps := bps)) else Err(InvalidFee)
    case SetPaused(paused) => Ok(store.(paused := paused))
    case Pauser(pauser) => Ok(store.(pauser := pauser))
    case Unpauser(unpauser) => Ok(store.(unpauser := unpauser))
  }

  function PauseStore(store: OftStore, signer: Pubkey, paused: bool): Result<OftStore> {
    if (if paused then store.pauser else store.unpauser) == Some(signer) then Ok(store.(paused := paused))
    else Err(Unauthorized)
  }

  /** Capacity first, so that a rate given together with it starts from a full bucket. */
  function UpdateLimiter(limiter: Option<Limiter>, now: u64, params: Option<RateLimitParams>): Option<Limiter> {
    match params
    case None => None
    case Some(param) =>
      var l0 := if limiter.Some? then limiter.value else DEFAULT_LIMITER;
      var l1 := if param.capacity.Some? then l0.WithCapacity(now, param.capacity.value) else l0;
      Some(if param.refillPerSecond.Some? then l1.WithRate(now, param.refillPerSecond.value) else l1)
  }

  /** Peer accounts are created on first configuration. */
  function PeerOrNew(peers: map<u32, PeerConfig>, remoteEid: u32): PeerConfig {
    if remoteEid in peers then peers[remoteEid] else NEW_PEER
  }

  function ConfigurePeer(lib: OptionsLib, now: u64, peer: PeerConfig, param: PeerParam): Result<PeerConfig> {
    match param
    case PeerAddress(address) => Ok(peer.(peerAddress := address))
    case FeeBps(bps) =>
      if bps.Some? && bps.value >= ONE_IN_BASIS_POINTS then Err(InvalidFee) else Ok(peer.(feeBps := bps))
    case Enforced(send, sendAndCall) =>
      if lib.isType3(send) && lib.isType3(sendAndCall)
      then Ok(peer.(enforcedOptions := EnforcedOptions(send, sendAndCall))) else Err(InvalidOptions)
    case OutboundRateLimit(limit) => Ok(peer.(outbound := UpdateLimiter(peer.outbound, now, limit)))
    case InboundRateLimit(limit) => Ok(peer.(inbound := UpdateLimiter(peer.inbound, now, limit)))
  }

  function SetPeer(
    lib: OptionsLib, now: u64, c: Chain, signer: Pubkey, remoteEid: u32, param: PeerParam): Result<Chain>
  {
    if signer != c.store.admin then Err(Unauthorized) else
    var peer :- ConfigurePeer(lib, now, PeerOrNew(c.peers, remoteEid), param);
    Ok(c.(peers := c.peers[remoteEid := peer]))
  }

  function WithStore(c: Chain, store: Result<OftStore>): Result<Chain> {
    if store.Err? then Err(store.error) else Ok(c.(store := store.value))
  }

  function Administer(lib: OptionsLib, now: u64, c: Chain, signer: Pubkey, ix: AdminIx): Result<Chain> {
    match ix
    case WithdrawFee(feeLd, dest) => Withdraw(c, signer, feeLd, dest)
    case SetOftConfig(config) => WithStore(c, ConfigureStore(c.store, signer, config))
    case SetPause(paused) => WithStore(c, PauseStore(c.store, signer, paused))
    case SetPeerConfig(remoteEid, param) => SetPeer(lib, now, c, signer, remoteEid, param)
  }
}
