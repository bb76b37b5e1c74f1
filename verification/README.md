# A verified model of the OFT bridge

This project models the Solana OFT bridge program (a port of LayerZero V2's Omnichain Fungible Token) and the
rate-limit map of its EVM wrapper, and proves what the bridge promises about money: nothing is created or lost
between chains, every message to the adapter can be paid, escrow covers what is locked plus the fees, senders are
never overcharged, and rate limits bound the net flow. `dafny verify dfyconfig.toml` checks everything.

| file | content |
|---|---|
| `Numbers.dfy`, `Wrappers.dfy`, `Sums.dfy` | machine integers, results and errors, sums over finite maps |
| `TransferFees.dfy` | the Token-2022 transfer fee and the program's inverse of it |
| `OftAmounts.dfy` | the store account, shared and local decimals, dust, the bridge's fee |
| `RateLimits.dfy` | the token bucket: its meaning over unbounded integers, and the object that mutates it |
| `Codecs.dfy` | big-endian integers, the wire message, the composed message |
| `OftProgram.dfy` | the accounts of one deployment and the meaning of every instruction |
| `OftAccounts.dfy` | the program's code, updating those accounts in place, proved to compute that meaning |
| `ChainInvariant.dfy` | what every instruction keeps on one chain, and by how much it moves value |
| `Mesh.dfy` | the mesh of chains with messages in flight: conservation, payability, escrow, flow, over all runs |
| `Quotes.dfy` | the read-only instructions, and a transfer end to end |
| `RoundTrip.dfy` | a mesh set up from nothing, any amount sent across and back |
| `EvmWrapper.dfy` | one offset-keyed rate-limit map against two separate maps |

## How the mesh is modelled

A run is any sequence of steps from a mesh without stores: initialisations, sends, deliveries, administrative
instructions, the clock, arbitrary activity of the token outside the bridge (transfers, donations to escrow, burns by
holders, a new transfer-fee schedule, mints of an adapter's token), and messages from applications outside the mesh.
A failed instruction changes nothing: the runtime discards its writes, and overflow checks are on
(`solana-oft-deployment/Cargo.toml:9`). Messages in flight are the actual bytes of the wire codec.

Assumed of the outside world, and written down in `Mesh.Allowed` and the delivery step:

- The endpoint's `clear` releases a payload at most once, to the store it was sent to, and exactly as it was sent.
- A directory fixes which store is the mesh member on each chain; nobody else can send from a member's address, and
  administrators set peer addresses to members or to the zero address.
- A native token has no supply when its store is initialised, and afterwards only the bridge mints it. Holders may burn.
- Nobody but the bridge debits an escrow account.
- The endpoint accepts every `send` and `send_compose` that the program makes. Where a result says exactly when a send or
  a delivery succeeds, it is up to such refusals, among them an insufficient messaging fee (`native_fee`, `lz_token_fee`).
- The clock does not go backwards and is not negative.
- Transfer fees of a mint are at most 100 percent, as the Token-2022 program enforces.

Nothing is assumed about transfer fees of native mints: if one charges a fee, the escrow keeps correspondingly less of the
bridge's fee and every other result is unchanged. Shared units of different chains are worth the same only when their
shared decimals agree; the accounting in shared units does not need that. Nor is it assumed that the store keeps its right
to mint: a native token's mint authority may change at any time, and a mint fails unless the authority is the store or a
multisig account with the store as a signer and a quorum of one.

## Model

| member | source | states |
|---|---|---|
| TransferFees.PostFeeAmount | solana-oft-deployment/programs/oft/src/instructions/quote_send.rs:118-132 | a valid transfer fee can always be charged, and leaves the larger of the rounded-down proportional remainder and the amount less the maximum fee |
| TransferFees.FeeInversion | solana-oft-deployment/programs/oft/src/instructions/quote_send.rs:150-182 | the inverse is exact and minimal in every case (no fee, zero target, 100 percent, capped, uncapped), and it gives up exactly when no 64-bit amount would do |
| TransferFees.PreFeeIsIdealSource | solana-oft-deployment/programs/oft/src/instructions/quote_send.rs:155-178 | the checked 64/128-bit computation equals the mathematical inverse whenever that fits in 64 bits, and is empty otherwise |
| TransferFees.ArrivedIsInvertible | solana-oft-deployment/programs/oft/src/instructions/quote_send.rs:81-83 | a target that arrives from some amount can be inverted, at no greater cost |
| OftAmounts.AmountsClosedForm | solana-oft-deployment/programs/oft/src/instructions/quote_send.rs:73-116 | the fee computation never fails under sound settings; with k whole shared units the fee is rate times floor(k * bps / 10000), where bps is the peer's own fee if set and otherwise the default; the rest is received, and after the mint's fee exactly rate times k arrives |
| OftAmounts.NeverOvercharged | solana-oft-deployment/programs/oft/src/instructions/quote_send.rs:79-105 | the amount charged is at most the amount requested, and the pre-fee computation cannot fail |
| OftAmounts.NoValueLostOnTheWire | solana-oft-deployment/programs/oft/src/state/oft.rs:29-41 | converting the received amount to shared decimals and back is the identity, and a nonzero dusted amount delivers at least one shared unit |
| OftAmounts.AmountsBalance | solana-oft-deployment/programs/oft/src/instructions/quote_send.rs:79-104 | what the bridge takes in is what is received plus its fee, and what is received is a multiple of the rate |
| OftAmounts.AdjustmentIsIdempotent | solana-oft-deployment/programs/oft/src/instructions/quote_send.rs:73-105 | requesting the charged amount gives the same result, and no smaller request does |
| OftAmounts.AmountsMonotone | solana-oft-deployment/programs/oft/src/instructions/quote_send.rs:73-116 | a larger request is charged no less and delivers no less |
| RateLimits.RateLimiter.constructor | solana-oft-deployment/programs/oft/src/state/peer_config.rs:17-23 | the object holds the stored value |
| RateLimits.RateLimiter.Refill | solana-oft-deployment/programs/oft/src/state/peer_config.rs:39-51 | saturating refill equals min(capacity, tokens + extra + elapsed * rate) over unbounded integers |
| RateLimits.RateLimiter.SetRate | solana-oft-deployment/programs/oft/src/state/peer_config.rs:26-30 | elapsed time is billed before the rate changes |
| RateLimits.RateLimiter.SetCapacity | solana-oft-deployment/programs/oft/src/state/peer_config.rs:32-37 | a new capacity starts full, at the current time |
| RateLimits.RateLimiter.TryConsume | solana-oft-deployment/programs/oft/src/state/peer_config.rs:53-62 | refills, then takes the amount or refuses it |
| RateLimits.SaturationIsHarmless | solana-oft-deployment/programs/oft/src/state/peer_config.rs:40-47 | saturating sums capped by the capacity are exact sums capped by it |
| RateLimits.LazyRefillIsPerSecond | solana-oft-deployment/programs/oft/src/state/peer_config.rs:39-51 | one lazy refill equals topping up on every second since the last one |
| RateLimits.RefillsCompose | solana-oft-deployment/programs/oft/src/state/peer_config.rs:39-51 | however an interval is split into refills, the result is that of one refill at its end with all extra tokens |
| RateLimits.RateChangeBillsOldRate | solana-oft-deployment/programs/oft/src/state/peer_config.rs:26-30 | time before a rate change is billed at the old rate and time after it at the new rate |
| RateLimits.AdmissionTime | solana-oft-deployment/programs/oft/src/state/peer_config.rs:39-62 | an amount is accepted exactly when it is within capacity and ceil((amount - tokens) / rate) seconds have passed; with a zero rate exactly when the tokens are there |
| RateLimits.ConsumedAvailable | solana-oft-deployment/programs/oft/src/state/peer_config.rs:53-62 | consuming lowers the available tokens by exactly the amount |
| RateLimits.RefilledAvailable | solana-oft-deployment/programs/oft/src/state/peer_config.rs:39-51 | refilling raises the available tokens by exactly the extra, up to the capacity |
| RateLimits.AvailableOverTime | solana-oft-deployment/programs/oft/src/state/peer_config.rs:42-47 | waiting never loses tokens and earns at most the rate |
| RateLimits.StalledClock | solana-oft-deployment/programs/oft/src/state/peer_config.rs:39-51 | on a clock that has not moved on, or has gone back, only the extra tokens are added and the clock is recorded all the same |
| BigEndian.FromToBe | solana-oft-deployment/programs/oft/src/msg_codec.rs:16-37 | reading a written integer gives it back |
| BigEndian.ToFromBe | solana-oft-deployment/programs/oft/src/msg_codec.rs:34-38 | writing a read integer gives its bytes back |
| BigEndian.ToBeDigit | solana-oft-deployment/programs/oft/src/msg_codec.rs:16-37 | byte i is the digit of weight 256 to the power width - 1 - i: most significant first |
| MsgCodec.Encode | solana-oft-deployment/programs/oft/src/msg_codec.rs:7-26 | the appended bytes are the wire message |
| MsgCodec.DecodeEncode | solana-oft-deployment/programs/oft/src/msg_codec.rs:7-46 | recipient, big-endian amount, sender and payload lie at bytes 0, 32, 40 and 72, the length is 40, or 72 and the payload, and everything read is what was written |
| MsgCodec.EncodeIsInjective | solana-oft-deployment/programs/oft/src/msg_codec.rs:7-26 | equal bytes if and only if equal fields, the sender counting exactly when there is a payload; no payload differs from an empty one |
| MsgCodec.EncodeDecode | solana-oft-deployment/programs/oft/src/msg_codec.rs:28-46 | byte strings of length 40 or at least 72 re-encode to themselves, and no others are ever produced |
| MsgCodec.ReadsOf | solana-oft-deployment/programs/oft/src/msg_codec.rs:28-46 | on any bytes at all, each read succeeds exactly when its own bytes are there and gives exactly them; a tail exists exactly beyond 40 bytes |
| ComposeMsgCodec.Encode | solana-oft-deployment/programs/oft/src/compose_msg_codec.rs:7-19 | the appended bytes are the composed message |
| ComposeMsgCodec.HeaderRoundTrip | solana-oft-deployment/programs/oft/src/compose_msg_codec.rs:7-37 | nonce, source endpoint, amount and payload lie at bytes 0, 8, 12 and 20, and are read back for any payload |
| ComposeMsgCodec.ReadsOf | solana-oft-deployment/programs/oft/src/compose_msg_codec.rs:21-51 | on any bytes at all, each read succeeds exactly when its own bytes are there and gives exactly them |
| ComposeMsgCodec.ComposePipeline | solana-oft-deployment/programs/oft/src/compose_msg_codec.rs:7-51 | from send through lz_receive to the callee, nonce, source endpoint, credited amount, sender and payload survive, the payload also when empty |
| OftAccounts.OftAccounts.InitOftApply | solana-oft-deployment/programs/oft/src/instructions/init_oft.rs:40-63 | assigns every field of a fresh store, or refuses the decimals |
| OftAccounts.OftAccounts.LimitApply | solana-oft-deployment/programs/oft/src/instructions/send.rs:67-72 | the limiter block: consume one direction, refill the other, through the mutable limiter objects |
| OftAccounts.OftAccounts.TakeInApply | solana-oft-deployment/programs/oft/src/instructions/send.rs:74-121 | lock on an adapter; burn and pay the fee to escrow on a native token |
| OftAccounts.OftAccounts.SendApply | solana-oft-deployment/programs/oft/src/instructions/send.rs:53-162 | the in-place code computes the send instruction, errors in the order of the source |
| OftAccounts.OftAccounts.PayOutApply | solana-oft-deployment/programs/oft/src/instructions/lz_receive.rs:109-153 | unlock on an adapter, mint on a native token, and the amount credited |
| OftAccounts.OftAccounts.LzReceiveApply | solana-oft-deployment/programs/oft/src/instructions/lz_receive.rs:73-182 | the in-place code computes the delivery instruction, with its account constraints |
| OftAccounts.OftAccounts.WithdrawFeeApply | solana-oft-deployment/programs/oft/src/instructions/withdraw_fee.rs:36-61 | the in-place code computes the withdrawal |
| OftAccounts.OftAccounts.SetOftConfigApply | solana-oft-deployment/programs/oft/src/instructions/set_oft_config.rs:17-49 | each arm writes its field, the default fee only below 10000 |
| OftAccounts.OftAccounts.SetPauseApply | solana-oft-deployment/programs/oft/src/instructions/set_pause.rs:18-35 | the pauser pauses and the unpauser reopens |
| OftAccounts.OftAccounts.UpdateRateLimiter | solana-oft-deployment/programs/oft/src/instructions/set_peer_config.rs:60-77 | replaces, updates or removes the limiter |
| OftAccounts.OftAccounts.SetPeerConfigApply | solana-oft-deployment/programs/oft/src/instructions/set_peer_config.rs:26-58 | each arm writes its field of the peer, a fee only below 10000 |
| OftAccounts.OftAccounts.ProcessSend | solana-oft-deployment/programs/oft/src/lib.rs:75-80 | all or nothing: an error leaves the accounts as they were |
| OftAccounts.OftAccounts.ProcessLzReceive | solana-oft-deployment/programs/oft/src/lib.rs:82-84 | all or nothing, for deliveries |
| OftAccounts.OftAccounts.ProcessAdmin | solana-oft-deployment/programs/oft/src/lib.rs:44-65 | all or nothing, for the four administrative instructions |
| ChainInvariant.InitEffect | solana-oft-deployment/programs/oft/src/instructions/init_oft.rs:42-63 | every field of a fresh store: the type, mint and escrow asked for, the endpoint given or the default one, a positive power-of-ten rate, nothing locked, no fee, open, the administrator, no pausers; the chain starts in order |
| ChainInvariant.InitSucceedsIff | solana-oft-deployment/programs/oft/src/instructions/init_oft.rs:43-48 | a store can be made exactly when the mint has at least the shared decimals and at most nineteen more; too few are refused, too many overflow |
| ChainInvariant.ThrottleEffect | solana-oft-deployment/programs/oft/src/instructions/lz_receive.rs:100-107 | traffic is admitted exactly when its limiter has the tokens, and otherwise refused as above the limit; that limiter then has exactly so many fewer and the opposite one so many more up to its capacity, with capacities and rates unchanged |
| ChainInvariant.UpdateLimiterMeaning | solana-oft-deployment/programs/oft/src/instructions/set_peer_config.rs:60-77 | a given capacity starts full, a given rate applies from now on, anything else stays or is zero for a new limiter; no parameters remove the limiter |
| ChainInvariant.SendEffect | solana-oft-deployment/programs/oft/src/instructions/send.rs:53-151 | a send keeps the invariant, raises the chain's net position by exactly the shared amount in the message, and the escrow's surplus by exactly the fee |
| ChainInvariant.SendSucceedsIff | solana-oft-deployment/programs/oft/src/instructions/send.rs:53-151 | the fee computation cannot fail, and a send succeeds exactly when the peer exists, the bridge is open, the slippage bound holds, the outbound limiter admits it, the sender has the funds and the options combine; no overflow can stop a funded send |
| ChainInvariant.SendRefusal | solana-oft-deployment/programs/oft/src/instructions/send.rs:53-151 | which error a refused send gives, first reason first |
| ChainInvariant.SendCharges | solana-oft-deployment/programs/oft/src/instructions/send.rs:59-121 | the signer pays exactly the charged amount, at most the request, with at least the agreed amount received; nobody else pays |
| ChainInvariant.SendFrame | solana-oft-deployment/programs/oft/src/instructions/send.rs:67-121 | an adapter's locked value grows, and a native supply shrinks, by exactly the received amount; beside balances and the one peer's limiters nothing else changes |
| ChainInvariant.LzReceiveEffect | solana-oft-deployment/programs/oft/src/instructions/lz_receive.rs:96-153 | a delivery keeps the invariant, lowers the net position by exactly the message's shared amount, leaves the surplus alone, and credits only the recipient in the message |
| ChainInvariant.LzReceiveFrame | solana-oft-deployment/programs/oft/src/instructions/lz_receive.rs:96-153 | an adapter's locked value shrinks, and a native supply grows, by exactly the amount; beside balances and the one peer's limiters nothing else changes |
| ChainInvariant.DeliverySucceedsIff | solana-oft-deployment/programs/oft/src/instructions/lz_receive.rs:14-153 | a delivery succeeds exactly when the endpoint holds the payload, the store is open, the sender is the peer, the recipient is the one in the message, an authority account if given is the mint's, the amount reads and converts, the limiter admits it, and an adapter has it locked or a native store is given an authority it can sign for and the supply fits in 64 bits |
| ChainInvariant.DeliveryRefusal | solana-oft-deployment/programs/oft/src/instructions/lz_receive.rs:14-153 | which error a refused delivery gives, first reason first |
| ChainInvariant.MintToEffect | solana-oft-deployment/programs/oft/src/instructions/lz_receive.rs:62-66 | a mint succeeds exactly when the store can sign for the authority, being it or alone satisfying its multisig, and the supply fits in 64 bits |
| ChainInvariant.WithdrawSucceedsIff | solana-oft-deployment/programs/oft/src/instructions/withdraw_fee.rs:8-40 | a withdrawal succeeds exactly when the administrator asks for no more than the surplus, to an account that exists, with the refusals in order; the guard never underflows |
| ChainInvariant.WithdrawPays | solana-oft-deployment/programs/oft/src/instructions/withdraw_fee.rs:36-61 | the destination alone is credited, with the amount less the mint's fee, the escrow alone pays, and a withdrawal into the escrow moves nothing |
| ChainInvariant.AdministerEffect | solana-oft-deployment/programs/oft/src/instructions/set_oft_config.rs:17-49 | administration keeps the invariant, fee bounds included, moves no value, and takes from escrow only what it withdraws |
| ChainInvariant.SetPeerMeaning | solana-oft-deployment/programs/oft/src/instructions/set_peer_config.rs:15-58 | exactly when a peer can be configured, each refusal, and the resulting peer: the one field as given, every other field of the existing or new peer, every other peer and every other account unchanged |
| ChainInvariant.SetOftMeaning | solana-oft-deployment/programs/oft/src/instructions/set_oft_config.rs:17-49 | exactly when the store can be configured, each refusal, and the resulting store: the one field as given, all else unchanged |
| ChainInvariant.SetPauseMeaning | solana-oft-deployment/programs/oft/src/instructions/set_pause.rs:17-35 | the pauser pauses and the unpauser reopens, always, nobody else can, and nothing else changes |
| ChainInvariant.AdministrationIsConfined | solana-oft-deployment/programs/oft/src/instructions/set_peer_config.rs:15-58 | only the administrator, or pauser and unpauser for the pause flag, changes anything, and only the account the instruction is for |
| Mesh.StepKeeps | solana-oft-deployment/programs/oft/src/lib.rs:31-92 | every step keeps the invariant of the mesh |
| Mesh.ReachableOk | solana-oft-deployment/programs/oft/src/lib.rs:31-92 | every reachable state satisfies the invariant |
| Mesh.Conservation | solana-oft-deployment/programs/oft/src/instructions/send.rs:67-151 | in every reachable state, with any number of adapters and natives, shared units locked equal shared units issued plus shared units in flight |
| Mesh.AdapterBacksEverything | solana-oft-deployment/programs/oft/src/instructions/lz_receive.rs:96-153 | with a single adapter, its locked value over its rate is exactly everything issued plus everything in flight |
| Mesh.SentMessageIsInFlight | solana-oft-deployment/programs/oft/src/instructions/send.rs:123-151 | a send puts exactly one payload in flight, the one that the peer's store on the destination chain is delivered |
| Mesh.EveryDeliveryWasSent | solana-oft-deployment/programs/oft/src/instructions/lz_receive.rs:19-28 | over every run, whatever outsiders post, what was posted is what was delivered plus what is in flight, and every delivery is of a message from one member's store to another's |
| Mesh.EveryMessageIsPayable | solana-oft-deployment/programs/oft/src/instructions/lz_receive.rs:96-125 | in every reachable state with a single adapter, a message to it is delivered exactly when the adapter is open, still has that peer, and the inbound limiter admits it; no overflow, no underflow, enough escrow |
| Mesh.NativeDeliverySucceedsIff | solana-oft-deployment/programs/oft/src/instructions/lz_receive.rs:62-153 | to a native chain the only further obstacles are an authority account that is missing, is not the mint's, or that the store cannot sign for, and a supply beyond 64 bits |
| Mesh.JointPayability | solana-oft-deployment/programs/oft/src/instructions/lz_receive.rs:96-125 | any collection of messages in flight to a single open adapter from its peers is paid in full in any order, exactly when for every limited peer the amounts add up to no more than its tokens; afterwards exactly these are no longer in flight |
| Mesh.DeliveryTime | solana-oft-deployment/programs/oft/src/instructions/lz_receive.rs:100-107 | without other traffic a message in flight to the adapter is deliverable after exactly the wait for its missing tokens and at every later time, never if it exceeds the capacity, and at a zero rate exactly if the tokens are there |
| Mesh.AboveCapacityIsNeverDelivered | solana-oft-deployment/programs/oft/src/state/peer_config.rs:53-62 | on any chain, while the inbound limiter is not reconfigured, a message worth more than its capacity is never delivered over any run |
| Mesh.EverySendIsSound | solana-oft-deployment/programs/oft/src/instructions/quote_send.rs:73-116 | through any configuration changes, on every chain and towards every peer, the fee computation succeeds for every amount, never overcharges, takes the peer's own rate if set and the default otherwise, always below 100 percent, and loses nothing on the wire; the locked value stays a multiple of the rate, and 0 on native chains |
| Mesh.PausedIsFrozen | solana-oft-deployment/programs/oft/src/instructions/set_pause.rs:17-35 | while a store is paused and neither its administrator nor its unpauser acts, nothing moves through it over any run |
| Mesh.EscrowAccounting | solana-oft-deployment/programs/oft/src/instructions/withdraw_fee.rs:36-61 | over every run, escrow less locked value equals fees kept plus donations less withdrawals, and is never negative |
| Mesh.NetFlowBound | solana-oft-deployment/programs/oft/src/instructions/send.rs:67-72 | over any run segment without reconfiguration of a limiter, flow in its direction less flow back is at most capacity plus rate times the time passed |
| Quotes.QuoteOft | solana-oft-deployment/programs/oft/src/instructions/quote_oft.rs:26-55 | the receipt of the fee computation, with positive fee items that sum to sent less received, each under its own name |
| Quotes.QuoteOftIsSound | solana-oft-deployment/programs/oft/src/instructions/quote_oft.rs:27-45 | on a sound chain the fee computation cannot fail, so a quote gives its amounts exactly when the peer exists, the bridge is open and the slippage is accepted, and is otherwise refused in that order; the transfer-fee item is what the token program withholds from the charged amount |
| Quotes.QuoteAgreesWithSend | solana-oft-deployment/programs/oft/src/instructions/quote_oft.rs:29-35 | a send that goes through was quoted the same amounts |
| Quotes.QuoteSendPrices | solana-oft-deployment/programs/oft/src/instructions/quote_send.rs:37-70 | exactly when a message is priced, and that it is priced for the destination asked for, to the peer there, reading as the recipient, the received amount and the payload of an unnamed sender |
| Quotes.QuoteSendAgreesWithSend | solana-oft-deployment/programs/oft/src/instructions/quote_send.rs:37-70 | the priced message has the length, receiver and options of the one sent; it is the same message exactly when local and shared decimals agree or the request is below one shared unit, and, with a composed payload, the signer is the zero key |
| Quotes.LzReceiveTypes | solana-oft-deployment/programs/oft/src/instructions/lz_receive_types.rs:39-138 | the list that the code extends step by step is the plan |
| Quotes.PlanFits | solana-oft-deployment/programs/oft/src/instructions/lz_receive.rs:14-70 | exactly when a plan can be made; every planned account meets the constraint of the executor's account in the same place, with its signer and writable flags, followed by nine accounts to clear this very message and, exactly with a payload, seven more |
| Quotes.PlannerAgreesWithExecutor | solana-oft-deployment/programs/oft/src/instructions/lz_receive_types.rs:111-135 | a delivery that succeeds was planned, and queues exactly the call whose accounts were planned: with a tail, to the recipient, under the message's guid and index 0, the bytes made of nonce, source, credited amount and tail; without one, none |
| Quotes.PlannedAccountsAreAccepted | solana-oft-deployment/programs/oft/src/instructions/lz_receive_types.rs:60-85 | planned recipient and mint authority pass the executor's checks, except for a native token without mint authority |
| Quotes.SendThenDeliver | solana-oft-deployment/programs/oft/src/instructions/lz_receive.rs:96-173 | a sent message, once delivered, credits the named recipient the shared amount in local decimals less the mint's fee, nobody else, and queues the sender's composed call under the message's guid if and only if there was one |
| RoundTrip.Crosses | solana-oft-deployment/programs/oft/src/instructions/send.rs:53-151 | in any state of the mesh in order, between two open chains without fees and limiters, a funded send followed by its delivery moves exactly its units from the signer to the recipient, and leaves nothing else in flight |
| RoundTrip.ThereAndBack | solana-oft-deployment/programs/oft/src/lib.rs:31-92 | from no stores at all: initialise an adapter and a native store, make them peers, send any units that fit both decimals, and send them back; in between exactly they are locked, issued and held by the recipient, and in the end the holder has the original balance and nothing is locked, issued or in flight |
| EvmWrapper.OftWrapper.constructor | contracts/OFTWrapperUpgradeable.sol:54-62 | a fresh contract with no rate limits |
| EvmWrapper.OftWrapper.SetOutboundRateLimits | contracts/OFTWrapperUpgradeable.sol:130-134 | stores the configurations under their own ids |
| EvmWrapper.OftWrapper.SetInboundRateLimits | contracts/OFTWrapperUpgradeable.sol:174-185 | the loop rewrites every id by the offset and stores the result, or reverts as a whole on overflow |
| EvmWrapper.OftWrapper.Debit | contracts/OFTWrapperUpgradeable.sol:199-216 | consumes the outbound slot and burns, or reverts |
| EvmWrapper.OftWrapper.Credit | contracts/OFTWrapperUpgradeable.sol:226-234 | consumes the shifted slot and mints, or reverts |
| EvmWrapper.SetRateLimitsStoresAll | contracts/OFTWrapperUpgradeable.sol:130-134 | every configuration of a list is stored, in order, and no other slot is touched |
| EvmWrapper.SettingMeaning | contracts/OFTWrapperUpgradeable.sol:130-185 | outbound limits land under their own ids; inbound limits are refused exactly when an id exceeds 3294967295, land under their id plus 1000000000, and touch no slot below that |
| EvmWrapper.TransferMeaning | contracts/OFTWrapperUpgradeable.sol:199-234 | a debit uses the slot of its id, a credit that of its id plus 1000000000; each goes through exactly when limiter and token accept, and changes only that slot and the token as they answer |
| EvmWrapper.OperationRefines | contracts/OFTWrapperUpgradeable.sol:154-234 | one operation on one map reverts exactly when it does on two, and keeps the relation |
| EvmWrapper.OneMapRefinesTwo | contracts/OFTWrapperUpgradeable.sol:28-30 | any sequence of operations with outbound ids below 1000000000 behaves, in reverts, tokens and all views, as on two separate maps; inbound views revert exactly above 3294967295 |
| EvmWrapper.IsolatedBelowOffset | contracts/OFTWrapperUpgradeable.sol:28-30 | for every library, an outbound limit or debit with an id below the offset leaves every inbound view alone |
| EvmWrapper.LimitIsolatedIffBelowOffset | contracts/OFTWrapperUpgradeable.sol:130-134 | setting a nonzero outbound limit leaves every inbound view alone exactly when its id is below the offset |
| EvmWrapper.DebitIsolatedIffBelowOffset | contracts/OFTWrapperUpgradeable.sol:199-216 | a debit that consumes its slot leaves every inbound view alone exactly when its id is below the offset |

## Where code and documentation differ

- `quote_send` encodes the local amount and the zero sender where `send` encodes the shared amount and the signer
  (`quote_send.rs:56-61`, `send.rs:137-142`). The model follows the code; the lengths agree, and
  `Quotes.QuoteSendAgreesWithSend` gives the exact condition under which the bytes do too.
- The wrapper says that inbound and outbound ids never collide. They collide for outbound ids from the offset on;
  `EvmWrapper.LimitIsolatedIffBelowOffset` and `EvmWrapper.DebitIsolatedIffBelowOffset` give the exact condition.

## Left out

- OftAccounts.OftAccounts.SendApply: does not check that the endpoint's account list names the store and cannot be refused by the endpoint, because cross-program calls to it are not modelled.
- OftAccounts.OftAccounts.LzReceiveApply: the queued composed call cannot be refused by the endpoint, for the same reason.
- ChainInvariant.SendSucceedsIff: up to refusals by the endpoint, for the same reason.
- ChainInvariant.DeliverySucceedsIff: up to refusals of a composed call by the endpoint, for the same reason.
- OftAccounts.OftAccounts.InitOftApply: does not register the application with the endpoint, nor fill the account that lists the planner's inputs; both are outside this model.
- OftAccounts.OftAccounts.SetOftConfigApply: the delegate arm changes nothing here, because it only calls the endpoint.
- RateLimits.RateLimiter.Refill: takes the time as a 64-bit number; a negative clock, on which the program panics, is not modelled.
- EvmWrapper.OftWrapper.constructor: does not refuse the zero token address, because the token is a parameter of the model.
- EvmWrapper.OftWrapper.SetOutboundRateLimits: any caller, because ownership is not modelled; the same holds for the inbound setter.
- EvmWrapper.OftWrapper.Debit: the amount sent is a parameter, because the debit preview is not defined in this repository.
- Endpoint, executor and verifier internals, and the options library: only the delivery contract is kept, and options are combined by an arbitrary function.
- A delegate skipping or burning an undelivered payload at the endpoint: its value would stay locked for ever.
- Several token accounts of one owner, frozen accounts, and Token-2022 extensions other than the transfer fee.
- Derivation of addresses, bumps, rent, account sizes (the length limits of enforced options) and events.
- The EVM library's decay window, ownership, upgrades and the non-upgradeable wrapper: thin code over unseen libraries.
- Deployment scripts, hardhat configuration, ABI files and test fixtures.
