/** The read-only instructions: quotes of a send, and the account plan for a delivery; and what a transfer does
    end to end. */
module Quotes {
  import opened Numbers
  import opened Wrappers
  import opened OftAmounts
  import opened OftProgram
  import opened ChainInvariant
  import MsgCodec
  import ComposeMsgCodec

  // ---- quote_oft ----

  datatype FeeDetail = FeeDetail(feeAmountLd: u64, description: string)

  datatype OftQuote = OftQuote(
    minAmountLd: u64, maxAmountLd: u64, feeDetails: seq<FeeDetail>, sentLd: u64, receivedLd: u64)

  const TRANSFER_FEE := "Token2022 Transfer Fee"
  const CROSS_CHAIN_FEE := "Cross Chain Fee"

  /** The checks shared by both quotes, up to the slippage test. */
  function QuotedAmounts(c: Chain, params: SendParams): Result<Amounts> {
    if params.dstEid !in c.peers then Err(AccountNotInitialized) else
    if c.store.paused then Err(Paused) else
    var amounts :- ComputeFeeAndAdjustAmount(
                     params.amountLd, c.store, c.ledger.transferFee, c.peers[params.dstEid].feeBps);
    if amounts.receivedLd < params.minAmountLd then Err(SlippageExceeded) else
    Ok(amounts)
  }

  ghost function TotalFees(details: seq<FeeDetail>): nat {
    if details == [] then 0 else details[0].feeAmountLd + TotalFees(details[1..])
  }

  ghost function FeesNamed(details: seq<FeeDetail>, description: string): nat {
    if details == [] then 0
    else (if details[0].description == description then details[0].feeAmountLd else 0)
         + FeesNamed(details[1..], description)
  }

  /** The quote's items sum to what the sender pays beyond what is received, under their own names. */
  ghost predicate Itemises(details: seq<FeeDetail>, amounts: Amounts) {
    && TotalFees(details) == amounts.sentLd - amounts.receivedLd
    && FeesNamed(details, CROSS_CHAIN_FEE) == amounts.oftFeeLd
    && FeesNamed(details, TRANSFER_FEE) == amounts.sentLd - amounts.receivedLd - amounts.oftFeeLd
    && forall d | d in details :: d.feeAmountLd > 0
  }

  lemma ItemTotals(details: seq<FeeDetail>)
    requires |details| <= 2
    ensures |details| == 1 ==>
              && TotalFees(details) == details[0].feeAmountLd
              && forall n :: FeesNamed(details, n) == if details[0].description == n then details[0].feeAmountLd else 0
    ensures |details| == 2 ==>
              && TotalFees(details) == details[0].feeAmountLd + details[1].feeAmountLd
              && forall n :: FeesNamed(details, n) ==
                             (if details[0].description == n then details[0].feeAmountLd else 0)
                             + (if details[1].description == n then details[1].feeAmountLd else 0)
  {
    if |details| == 2 {
      assert details[1..] == [details[1]];
      assert details[1..][1..] == [];
    } else if |details| == 1 {
      assert details[1..] == [];
    }
  }

  /** The quote of `quote_oft`. It fails only where `QuotedAmounts` does, or when the two parts of the amount
      do not add up in 64 bits; a sound chain rules that out. */
  method QuoteOft(c: Chain, params: SendParams) returns (r: Result<OftQuote>)
    ensures QuotedAmounts(c, params).Err? ==> r == Err(QuotedAmounts(c, params).error)
    ensures QuotedAmounts(c, params).Ok? ==>
              var amounts := QuotedAmounts(c, params).value;
              && (r.Err? <==> amounts.receivedLd + amounts.oftFeeLd > U64_MAX)
              && (r.Ok? ==>
                    && r.value.sentLd == amounts.sentLd
                    && r.value.receivedLd == amounts.receivedLd
                    && r.value.minAmountLd == 0 && r.value.maxAmountLd == U64_MAX
                    && (amounts.receivedLd + amounts.oftFeeLd <= amounts.sentLd ==>
                          Itemises(r.value.feeDetails, amounts)))
  {
    hide ComputeFeeAndAdjustAmount;
    if params.dstEid !in c.peers {
      return Err(AccountNotInitialized);
    }
    if c.store.paused {
      return Err(Paused);
    }
    var amounts :- ComputeFeeAndAdjustAmount(
      params.amountLd, c.store, c.ledger.transferFee, c.peers[params.dstEid].feeBps);
    if amounts.receivedLd < params.minAmountLd {
      return Err(SlippageExceeded);
    }
    if amounts.receivedLd + amounts.oftFeeLd > U64_MAX {
      return Err(Panic);
    }
    var details: seq<FeeDetail> := [];
    if amounts.receivedLd + amounts.oftFeeLd < amounts.sentLd {
      details := [FeeDetail(amounts.sentLd - amounts.oftFeeLd - amounts.receivedLd, TRANSFER_FEE)];
    }
    if amounts.oftFeeLd > 0 {
      details := details + [FeeDetail(amounts.oftFeeLd, CROSS_CHAIN_FEE)];
    }
    ItemTotals(details);
    assert TRANSFER_FEE[0] != CROSS_CHAIN_FEE[0];
    return Ok(OftQuote(0, U64_MAX, details, amounts.sentLd, amounts.receivedLd));
  }

  /** On a sound chain a quote succeeds exactly when the peer exists, the bridge is open and the slippage is
      accepted; what it calls the transfer fee is what the token program withholds from the charged amount. */
  lemma QuoteOftIsSound(c: Chain, params: SendParams, now: u64)
    requires ChainOk(c, now)
    ensures params.dstEid in c.peers ==>
              ComputeFeeAndAdjustAmount(params.amountLd, c.store, c.ledger.transferFee,
                                        c.peers[params.dstEid].feeBps).Ok?
    ensures QuotedAmounts(c, params).Ok? <==>
              && params.dstEid in c.peers
              && !c.store.paused
              && params.minAmountLd <= ComputeFeeAndAdjustAmount(
                                         params.amountLd, c.store, c.ledger.transferFee,
                                         c.peers[params.dstEid].feeBps).value.receivedLd
    ensures QuotedAmounts(c, params).Err? ==>
              QuotedAmounts(c, params).error == if params.dstEid !in c.peers then AccountNotInitialized
                                                else if c.store.paused then Paused else SlippageExceeded
    ensures QuotedAmounts(c, params).Ok? ==>
              var amounts := QuotedAmounts(c, params).value;
              && Ok(amounts) == ComputeFeeAndAdjustAmount(params.amountLd, c.store, c.ledger.transferFee,
                                                          c.peers[params.dstEid].feeBps)
              && amounts.receivedLd + amounts.oftFeeLd <= amounts.sentLd
              && GetPostFeeAmountLd(c.ledger.transferFee, amounts.sentLd).Ok?
              && amounts.sentLd - amounts.receivedLd - amounts.oftFeeLd
                 == (if c.store.oftType.Adapter?
                     then amounts.sentLd - GetPostFeeAmountLd(c.ledger.transferFee, amounts.sentLd).value else 0)
  {
    hide ComputeFeeAndAdjustAmount;
    if params.dstEid in c.peers {
      var peer := c.peers[params.dstEid];
      assert PeerOk(peer, now);
      AmountsBalance(params.amountLd, c.store, c.ledger.transferFee, peer.feeBps);
      if QuotedAmounts(c, params).Ok? {
        ArrivedIsPostFee(c.ledger.transferFee, QuotedAmounts(c, params).value.sentLd);
      }
    }
  }

  /** A send that goes through was quoted the same receipt. */
  lemma QuoteAgreesWithSend(lib: OptionsLib, now: u64, c: Chain, signer: Pubkey, params: SendParams)
    requires Send(lib, now, c, signer, params).Ok?
    ensures QuotedAmounts(c, params) == Ok(Send(lib, now, c, signer, params).value.amounts)
  {
    hide ComputeFeeAndAdjustAmount, Throttle, TakeIn;
  }

  // ---- quote_send ----

  /** What the endpoint is asked to price. */
  datatype QuoteRequest = QuoteRequest(dstEid: u32, receiver: Bytes32, message: Bytes, options: Bytes)

  /** The quoted message carries the local amount and no sender. */
  function QuoteSend(lib: OptionsLib, c: Chain, params: SendParams): Result<QuoteRequest> {
    var amounts :- QuotedAmounts(c, params);
    var peer := c.peers[params.dstEid];
    var message := MsgCodec.Wire(params.to, amounts.receivedLd, ZERO_32, params.composeMsg);
    var options :- lib.combine(peer.enforcedOptions.Get(params.composeMsg), params.options).ToResult(InvalidOptions);
    Ok(QuoteRequest(params.dstEid, peer.peerAddress, message, options))
  }

  /** On a sound chain a message is priced exactly when its amounts can be quoted and its options combine; it is
      priced for the destination asked for, to the peer there, and reads as the recipient, the received amount in
      local decimals and the payload of an unnamed sender. */
  lemma QuoteSendPrices(lib: OptionsLib, now: u64, c: Chain, params: SendParams)
    requires ChainOk(c, now)
    ensures QuoteSend(lib, c, params).Ok? <==>
              && QuotedAmounts(c, params).Ok?
              && lib.combine(if params.composeMsg.None? then c.peers[params.dstEid].enforcedOptions.send
                             else c.peers[params.dstEid].enforcedOptions.sendAndCall, params.options).Some?
    ensures QuoteSend(lib, c, params).Err? ==>
              QuoteSend(lib, c, params).error
              == if QuotedAmounts(c, params).Err? then QuotedAmounts(c, params).error else InvalidOptions
    ensures QuoteSend(lib, c, params).Ok? ==>
              var quoted := QuoteSend(lib, c, params).value;
              && quoted.dstEid == params.dstEid
              && quoted.receiver == c.peers[params.dstEid].peerAddress
              && MsgCodec.SendTo(quoted.message) == Some(params.to)
              && MsgCodec.AmountSd(quoted.message) == Some(QuotedAmounts(c, params).value.receivedLd)
              && MsgCodec.ComposeMsg(quoted.message)
                 == (if params.composeMsg.Some? then Some(ZERO_32 + params.composeMsg.value) else None)
              && Some(quoted.options)
                 == lib.combine(if params.composeMsg.None? then c.peers[params.dstEid].enforcedOptions.send
                                else c.peers[params.dstEid].enforcedOptions.sendAndCall, params.options)
  {
    hide ComputeFeeAndAdjustAmount, MsgCodec.Wire, MsgCodec.SendTo, MsgCodec.AmountSd, MsgCodec.ComposeMsg;
    if QuotedAmounts(c, params).Ok? {
      MsgCodec.DecodeEncode(params.to, QuotedAmounts(c, params).value.receivedLd, ZERO_32, params.composeMsg);
    }
  }

  /** An amount reads the same in both decimals only at rate one, unless it is zero. */
  lemma SameInBothDecimals(store: OftStore, amountLd: u64)
    requires store.ld2sdRate >= 1
    ensures store.Ld2Sd(amountLd) == amountLd <==> store.ld2sdRate == 1 || amountLd == 0
  {
    var q, rate := amountLd / store.ld2sdRate, store.ld2sdRate;
    if q == amountLd && amountLd > 0 && rate > 1 {
      QuotientAtLeast(amountLd, rate, amountLd);
      MulMonotone(2, rate, amountLd);
      assert false;
    }
  }

  /** Nothing is received exactly when the request is worth no whole shared unit. */
  lemma NothingReceivedIff(c: Chain, amountLd: u64, feeBps: Option<u16>)
    requires SoundSettings(c.store, c.ledger.transferFee, feeBps)
    ensures var r := ComputeFeeAndAdjustAmount(amountLd, c.store, c.ledger.transferFee, feeBps);
            r.Ok? && (r.value.receivedLd == 0 <==> SharedUnits(amountLd, c.store, c.ledger.transferFee) == 0)
  {
    AmountsClosedForm(amountLd, c.store, c.ledger.transferFee, feeBps);
    NoValueLostOnTheWire(amountLd, c.store, c.ledger.transferFee, feeBps);
    hide ComputeFeeAndAdjustAmount;
  }

  /** The quote prices a message of the same length, to the same receiver with the same options, as the one
      that is sent. It is the very same message exactly when local and shared decimals agree or the request is
      below one shared unit, and, with a composed payload, the sender is the zero key. */
  lemma QuoteSendAgreesWithSend(lib: OptionsLib, now: u64, c: Chain, signer: Pubkey, params: SendParams)
    requires ChainOk(c, now) && Send(lib, now, c, signer, params).Ok?
    ensures var out := Send(lib, now, c, signer, params).value;
            && params.dstEid in c.peers
            && QuoteSend(lib, c, params).Ok?
            && var quoted := QuoteSend(lib, c, params).value;
            && quoted.dstEid == params.dstEid
            && quoted.receiver == out.receiver
            && quoted.options == out.options
            && Some(out.options) == lib.combine(
                 if params.composeMsg.None? then c.peers[params.dstEid].enforcedOptions.send
                 else c.peers[params.dstEid].enforcedOptions.sendAndCall, params.options)
            && |quoted.message| == |out.message|
            && (quoted.message == out.message <==>
                  && (c.store.ld2sdRate == 1 || SharedUnits(params.amountLd, c.store, c.ledger.transferFee) == 0)
                  && (params.composeMsg.Some? ==> signer == ZERO_32))
  {
    hide ComputeFeeAndAdjustAmount, Throttle, TakeIn, MsgCodec.Wire, SharedUnits;
    var received := Send(lib, now, c, signer, params).value.amounts.receivedLd;
    assert PeerOk(c.peers[params.dstEid], now);
    NothingReceivedIff(c, params.amountLd, c.peers[params.dstEid].feeBps);
    SameInBothDecimals(c.store, received);
    MsgCodec.DecodeEncode(params.to, received, ZERO_32, params.composeMsg);
    MsgCodec.DecodeEncode(params.to, c.store.Ld2Sd(received), signer, params.composeMsg);
    MsgCodec.EncodeIsInjective(params.to, received, ZERO_32, params.composeMsg,
                               params.to, c.store.Ld2Sd(received), signer, params.composeMsg);
  }

  // ---- lz_receive_types ----

  /** Account addresses, with derived ones written as their derivation. */
  datatype Address =
    | Default
    | Key(key: Pubkey)
    | PeerOf(store: Pubkey, eid: u32)
    | AssociatedToken(owner: Pubkey, mint: Pubkey)
    | TokenProgram
    | AssociatedTokenProgram
    | SystemProgram
    | EventAuthority
    | ThisProgram
    | ForClear(slot: nat, endpoint: Pubkey, receiver: Pubkey, srcEid: u32, sender: Bytes32, nonce: u64)
    | ForCompose(slot: nat, endpoint: Pubkey, from: Pubkey, call: ComposeCall)

  /** The endpoint's library decides the flags of its own accounts. */
  datatype LzAccount = LzAccount(address: Address, isSigner: bool, isWritable: bool) | EndpointAccount(address: Address)

  const CLEAR_ACCOUNTS := 9
  const COMPOSE_ACCOUNTS := 7

  function ClearAccounts(store: OftStore, params: LzReceiveParams): seq<LzAccount> {
    seq(CLEAR_ACCOUNTS, i requires 0 <= i < CLEAR_ACCOUNTS =>
      EndpointAccount(ForClear(i, store.endpointProgram, store.key, params.srcEid, params.sender, params.nonce)))
  }

  function ComposeAccounts(store: OftStore, call: ComposeCall): seq<LzAccount> {
    seq(COMPOSE_ACCOUNTS, i requires 0 <= i < COMPOSE_ACCOUNTS =>
      EndpointAccount(ForCompose(i, store.endpointProgram, store.key, call)))
  }

  /** The mint authority account; the program's own address stands for "none". */
  function PlannedMintAuthority(c: Chain): Address {
    if c.ledger.mintAuthority.Some? then Key(c.ledger.mintAuthority.value) else ThisProgram
  }

  function FixedAccounts(c: Chain, params: LzReceiveParams, to: Pubkey): seq<LzAccount> {
    [ LzAccount(Default, true, true),
      LzAccount(PeerOf(c.store.key, params.srcEid), false, true),
      LzAccount(Key(c.store.key), false, true),
      LzAccount(Key(c.store.tokenEscrow), false, true),
      LzAccount(Key(to), false, false),
      LzAccount(AssociatedToken(to, c.store.tokenMint), false, true),
      LzAccount(Key(c.store.tokenMint), false, true),
      LzAccount(PlannedMintAuthority(c), false, false),
      LzAccount(TokenProgram, false, false),
      LzAccount(AssociatedTokenProgram, false, false),
      LzAccount(SystemProgram, false, false),
      LzAccount(EventAuthority, false, false),
      LzAccount(ThisProgram, false, false) ]
  }

  /** The composed call that the planner predicts. */
  function PlannedCompose(c: Chain, params: LzReceiveParams, to: Pubkey): Result<Option<ComposeCall>> {
    if MsgCodec.ComposeMsg(params.message).None? then Ok(None) else
    var amountSd :- MsgCodec.AmountSd(params.message).ToResult(Panic);
    var amountLd :- c.store.Sd2Ld(amountSd).ToResult(Panic);
    if c.store.oftType.Native? then Ok(ComposeFor(params, to, amountLd)) else
    var receivedLd :- GetPostFeeAmountLd(c.ledger.transferFee, amountLd);
    Ok(ComposeFor(params, to, receivedLd))
  }

  /** The account list for a delivery. */
  function Plan(c: Chain, params: LzReceiveParams): Result<seq<LzAccount>> {
    var to :- MsgCodec.SendTo(params.message).ToResult(Panic);
    var call :- PlannedCompose(c, params, to);
    var base := FixedAccounts(c, params, to) + ClearAccounts(c.store, params);
    Ok(if call.Some? then base + ComposeAccounts(c.store, call.value) else base)
  }

  /** The planner builds the list step by step. */
  method LzReceiveTypes(c: Chain, params: LzReceiveParams) returns (r: Result<seq<LzAccount>>)
    ensures r == Plan(c, params)
  {
    var accounts: seq<LzAccount> := [
      LzAccount(Default, true, true),
      LzAccount(PeerOf(c.store.key, params.srcEid), false, true),
      LzAccount(Key(c.store.key), false, true),
      LzAccount(Key(c.store.tokenEscrow), false, true)];
    var to :- MsgCodec.SendTo(params.message).ToResult(Panic);
    accounts := accounts + [
      LzAccount(Key(to), false, false),
      LzAccount(AssociatedToken(to, c.store.tokenMint), false, true),
      LzAccount(Key(c.store.tokenMint), false, true),
      LzAccount(PlannedMintAuthority(c), false, false),
      LzAccount(TokenProgram, false, false),
      LzAccount(AssociatedTokenProgram, false, false)];
    accounts := accounts + [
      LzAccount(SystemProgram, false, false),
      LzAccount(EventAuthority, false, false),
      LzAccount(ThisProgram, false, false)];
    assert accounts == FixedAccounts(c, params, to);
    accounts := accounts + ClearAccounts(c.store, params);

    var tail := MsgCodec.ComposeMsg(params.message);
    if tail.Some? {
      var amountSd :- MsgCodec.AmountSd(params.message).ToResult(Panic);
      var amountLd :- c.store.Sd2Ld(amountSd).ToResult(Panic);
      var receivedLd := amountLd;
      if c.store.oftType == Adapter {
        receivedLd :- GetPostFeeAmountLd(c.ledger.transferFee, amountLd);
      }
      var message := ComposeMsgCodec.Encode(params.nonce, params.srcEid, receivedLd, tail.value);
      accounts := accounts + ComposeAccounts(c.store, ComposeCall(to, params.guid, 0, message));
    }
    return Ok(accounts);
  }

  /** What the executor demands of the account in each of its thirteen places. An optional account that is not
      given is represented by the program's own address. */
  ghost predicate AccountFits(c: Chain, params: LzReceiveParams, place: nat, account: LzAccount) {
    && account.LzAccount?
    && account.isSigner == (place == 0)
    && account.isWritable == (place in {0, 1, 2, 3, 5, 6})
    && match place
       case 0 => account.address == Default
       case 1 => account.address == PeerOf(c.store.key, params.srcEid)
       case 2 => account.address == Key(c.store.key)
       case 3 => account.address == Key(c.store.tokenEscrow)
       case 4 => account.address.Key? && MsgCodec.SendTo(params.message) == Some(account.address.key)
       case 5 =>
         && account.address.AssociatedToken?
         && MsgCodec.SendTo(params.message) == Some(account.address.owner)
         && account.address.mint == c.store.tokenMint
       case 6 => account.address == Key(c.store.tokenMint)
       case 7 =>
         || (account.address.Key? && c.ledger.mintAuthority == Some(account.address.key))
         || (account.address == ThisProgram && c.ledger.mintAuthority == None)
       case 8 => account.address == TokenProgram
       case 9 => account.address == AssociatedTokenProgram
       case 10 => account.address == SystemProgram
       case 11 => account.address == EventAuthority
       case 12 => account.address == ThisProgram
       case _ => false
  }

  /** The fixed accounts are those of the executor, place by place, and the endpoint's accounts follow where the
      executor looks for them: nine to clear this very message, seven more exactly if there is a payload. A plan
      is made exactly when the recipient and, with a payload, the amount can be read and converted. */
  lemma PlanFits(now: u64, c: Chain, params: LzReceiveParams)
    requires ChainOk(c, now)
    ensures Plan(c, params).Ok? <==>
              && |params.message| >= 32
              && (|params.message| > 40 ==>
                    MsgCodec.AmountSd(params.message).value * c.store.ld2sdRate <= U64_MAX)
    ensures Plan(c, params).Ok? ==>
              var plan := Plan(c, params).value;
              && |plan| == (if |params.message| > 40 then 29 else 22)
              && (forall i: nat | i < 13 :: AccountFits(c, params, i, plan[i]))
              && (forall i | 0 <= i < 9 ::
                    plan[13 + i] == EndpointAccount(
                      ForClear(i, c.store.endpointProgram, c.store.key, params.srcEid, params.sender, params.nonce)))
  {
    if MsgCodec.AmountSd(params.message).Some? && c.store.Sd2Ld(MsgCodec.AmountSd(params.message).value).Some? {
      ArrivedIsPostFee(c.ledger.transferFee, c.store.Sd2Ld(MsgCodec.AmountSd(params.message).value).value);
    }
  }

  /** The planner agrees with the executor: a delivery that succeeds was planned for the recipient it pays, and
      it queues exactly the composed call, to the byte, whose accounts were planned, or none when none were: to
      the recipient, under the message's guid and index zero, with the nonce, the source, the credited amount and
      whatever follows the fixed part of the message. */
  lemma PlannerAgreesWithExecutor(
    now: u64, c: Chain, params: LzReceiveParams, to: Pubkey, mintAuthority: Option<Pubkey>, payloadHeld: bool)
    requires LzReceive(now, c, params, to, mintAuthority, payloadHeld).Ok?
    ensures MsgCodec.SendTo(params.message) == Some(to)
    ensures var got := LzReceive(now, c, params, to, mintAuthority, payloadHeld).value;
            && got.compose
               == (if |params.message| > 40
                   then Some(ComposeCall(to, params.guid, 0,
                                         ComposeMsgCodec.Wire(params.nonce, params.srcEid, got.creditedLd,
                                                              params.message[40..])))
                   else None)
            && PlannedCompose(c, params, to) == Ok(got.compose)
            && Plan(c, params).Ok?
            && (got.compose.Some? ==>
                  && |Plan(c, params).value| == 29
                  && forall i | 0 <= i < 7 ::
                       Plan(c, params).value[22 + i] == EndpointAccount(
                         ForCompose(i, c.store.endpointProgram, c.store.key, got.compose.value)))
  {
    LzReceiveDelivers(now, c, params, to, mintAuthority, payloadHeld);
    hide LzReceive, Throttle, ComposeMsgCodec.Wire;
  }

  /** Planned accounts pass the executor's account checks: with the planned recipient and mint authority, only
      a native token without any mint authority is refused for its accounts. */
  lemma PlannedAccountsAreAccepted(now: u64, c: Chain, params: LzReceiveParams, payloadHeld: bool)
    requires MsgCodec.SendTo(params.message).Some?
    ensures var to := MsgCodec.SendTo(params.message).value;
            var r := LzReceive(now, c, params, to, c.ledger.mintAuthority, payloadHeld);
            && r != Err(InvalidTokenDest)
            && (r == Err(InvalidMintAuthority) ==> c.store.oftType.Native? && PlannedMintAuthority(c) == ThisProgram)
  {
  }

  // ---- End to end ----

  /** A message sent on one chain and delivered on another: the recipient named by the sender is credited the
      shared amount in the local decimals, less the destination mint's transfer fee, nobody else's balance moves,
      and a composed call is queued, under the guid of the message, exactly when the sender asked for one, from
      which the callee reads the nonce, the source endpoint, the credited amount, the sender and the payload. */
  lemma SendThenDeliver(
    lib: OptionsLib, sentAt: u64, source: Chain, signer: Pubkey, send: SendParams,
    receivedAt: u64, dest: Chain, delivery: LzReceiveParams, to: Pubkey, mintAuthority: Option<Pubkey>, held: bool)
    requires ChainOk(source, sentAt) && ChainOk(dest, receivedAt)
    requires Send(lib, sentAt, source, signer, send).Ok?
    requires delivery.message == Send(lib, sentAt, source, signer, send).value.message
    requires LzReceive(receivedAt, dest, delivery, to, mintAuthority, held).Ok?
    ensures var sent := Send(lib, sentAt, source, signer, send).value;
            var got := LzReceive(receivedAt, dest, delivery, to, mintAuthority, held).value;
            && to == send.to
            && got.amountLd == sent.amounts.receivedLd / source.store.ld2sdRate * dest.store.ld2sdRate
            && got.creditedLd == (if dest.store.oftType.Adapter? then Arrived(dest.ledger.transferFee, got.amountLd)
                                  else got.amountLd)
            && got.chain.ledger.Balance(to) == dest.ledger.Balance(to) + got.creditedLd
            && (forall other: Pubkey :: other != to ==> got.chain.ledger.Balance(other) == dest.ledger.Balance(other))
            && (got.compose.None? <==> send.composeMsg.None?)
            && (send.composeMsg.Some? ==>
                  && got.compose.value.to == send.to
                  && got.compose.value.guid == delivery.guid && got.compose.value.index == 0
                  && var composed := got.compose.value.message;
                  && ComposeMsgCodec.Nonce(composed) == Some(delivery.nonce)
                  && ComposeMsgCodec.SrcEid(composed) == Some(delivery.srcEid)
                  && ComposeMsgCodec.AmountLd(composed) == Some(got.creditedLd)
                  && ComposeMsgCodec.ComposeFrom(composed) == Some(signer)
                  && ComposeMsgCodec.ComposeMsg(composed) == send.composeMsg.value)
  {
    var sent := Send(lib, sentAt, source, signer, send).value;
    var got := LzReceive(receivedAt, dest, delivery, to, mintAuthority, held).value;
    SendDispatches(lib, sentAt, source, signer, send);
    LzReceiveDelivers(receivedAt, dest, delivery, to, mintAuthority, held);
    hide Send, LzReceive, Throttle, TakeIn, PayOut, ComputeFeeAndAdjustAmount, MsgCodec.SendTo, MsgCodec.AmountSd,
         ComposeMsgCodec.Wire;
    LzReceiveEffect(receivedAt, dest, delivery, to, mintAuthority, got);
    var amountSd := source.store.Ld2Sd(sent.amounts.receivedLd);
    MsgCodec.DecodeEncode(send.to, amountSd, signer, send.composeMsg);
    if send.composeMsg.Some? {
      ComposeMsgCodec.ComposePipeline(
        send.to, amountSd, signer, send.composeMsg.value, delivery.nonce, delivery.srcEid, got.creditedLd);
    }
  }
}
