/** A mesh of deployments that exchange messages through an endpoint, under every interleaving of instructions
    with the outside world, and the theorems about all its runs.

    Assumptions, each of them a clause of `Allowed` or of the delivery step:
    the endpoint releases a payload at most once and only as it was sent; the directory fixes which store is the
    mesh member on each chain, a member's address cannot be used by anybody else, and administrators set peers to
    members or to nothing; a native token starts with no supply and only the bridge mints it; only the bridge
    debits an escrow; the clock does not go backwards. */
module Mesh {
  import opened Numbers
  import opened Wrappers
  import opened OftAmounts
  import opened RateLimits
  import opened Sums
  import opened OftProgram
  import opened ChainInvariant
  import MsgCodec

  // ---- States and steps ----

  datatype Packet = Packet(
    srcEid: u32, sender: Bytes32, dstEid: u32, receiver: Bytes32, nonce: u64, guid: Bytes32, message: Bytes)

  datatype Mesh = Mesh(
    directory: map<u32, Pubkey>,
    lib: OptionsLib,
    now: u64,
    chains: map<u32, Chain>,
    inFlight: multiset<Packet>)

  datatype Step =
    | Init(eid: u32, params: InitParams, ledger: Ledger)
    | SendFrom(eid: u32, signer: Pubkey, send: SendParams, nonce: u64, guid: Bytes32)
    | DeliverTo(eid: u32, delivery: LzReceiveParams, toAddress: Pubkey, mintAuthority: Option<Pubkey>)
    | Govern(eid: u32, signer: Pubkey, ix: AdminIx)
    | Wait(seconds: nat)
      /** Whatever happens to the token outside the bridge: transfers, donations, burns by holders, a new
          transfer-fee schedule or epoch and, for an adapter's token, mints. */
    | TokenActivity(eid: u32, ledger: Ledger)
      /** A message from an application that is not a member. */
    | ForeignSend(packet: Packet)

  function Genesis(directory: map<u32, Pubkey>, lib: OptionsLib, now: u64): Mesh {
    Mesh(directory, lib, now, map[], multiset{})
  }

  predicate IsMember(directory: map<u32, Pubkey>, eid: u32, address: Bytes32) {
    eid in directory && directory[eid] == address
  }

  predicate TrustedPeer(directory: map<u32, Pubkey>, remoteEid: u32, address: Bytes32) {
    address == ZERO_32 || IsMember(directory, remoteEid, address)
  }

  /** What the outside world, and the administrators, may do. */
  ghost predicate Allowed(m: Mesh, step: Step) {
    match step
    case Init(eid, params, ledger) =>
      && eid !in m.chains
      && IsMember(m.directory, eid, params.key)
      && ledger.Balanced()
      && ledger.escrow == 0
      && (params.oftType.Native? ==> ledger.supply == 0 && ledger.burntOutside == 0)
    case SendFrom(eid, _, _, _, _) => eid in m.chains
    case DeliverTo(eid, _, _, _) => eid in m.chains
    case Govern(eid, _, ix) =>
      && eid in m.chains
      && (ix.SetPeerConfig? && ix.param.PeerAddress? ==> TrustedPeer(m.directory, ix.remoteEid, ix.param.address))
    case Wait(seconds) => m.now + seconds <= U64_MAX
    case TokenActivity(eid, after) =>
      && eid in m.chains
      && after.Balanced()
      && m.chains[eid].ledger.escrow <= after.escrow
      && (m.chains[eid].store.oftType.Native? ==>
            && m.chains[eid].ledger.burntOutside <= after.burntOutside
            && after.supply + after.burntOutside
               == m.chains[eid].ledger.supply + m.chains[eid].ledger.burntOutside)
    case ForeignSend(packet) =>
      packet.sender != ZERO_32 && !IsMember(m.directory, packet.srcEid, packet.sender)
  }

  /** The outcome of a send in a state, and of a delivery; the endpoint knows which payloads are in flight. */
  function SendIn(m: Mesh, step: Step): Result<SendOutcome>
    requires step.SendFrom? && step.eid in m.chains
  {
    Send(m.lib, m.now, m.chains[step.eid], step.signer, step.send)
  }

  function PacketTo(key: Pubkey, eid: u32, delivery: LzReceiveParams): Packet {
    Packet(delivery.srcEid, delivery.sender, eid, key, delivery.nonce, delivery.guid, delivery.message)
  }

  function PacketFor(m: Mesh, eid: u32, delivery: LzReceiveParams): Packet
    requires eid in m.chains
  {
    PacketTo(m.chains[eid].store.key, eid, delivery)
  }

  function DeliverIn(m: Mesh, step: Step): Result<ReceiveOutcome>
    requires step.DeliverTo? && step.eid in m.chains
  {
    LzReceive(m.now, m.chains[step.eid], step.delivery, step.toAddress, step.mintAuthority,
              PacketFor(m, step.eid, step.delivery) in m.inFlight)
  }

  function Replace(m: Mesh, eid: u32, chain: Chain): Mesh {
    m.(chains := m.chains[eid := chain])
  }

  /** One step. A failed instruction changes nothing. */
  ghost function Exec(m: Mesh, step: Step): Mesh {
    if !Allowed(m, step) then m else
    match step
    case Init(eid, params, ledger) =>
      if InitOft(params).Ok? then Replace(m, eid, Chain(InitOft(params).value, map[], ledger)) else m
    case SendFrom(eid, _, send, nonce, guid) =>
      if SendIn(m, step).Err? then m else
      var out := SendIn(m, step).value;
      Replace(m, eid, out.chain).(inFlight := m.inFlight + multiset{
        Packet(eid, m.chains[eid].store.key, send.dstEid, out.receiver, nonce, guid, out.message)})
    case DeliverTo(eid, delivery, _, _) =>
      if DeliverIn(m, step).Err? then m else
      Replace(m, eid, DeliverIn(m, step).value.chain)
        .(inFlight := m.inFlight - multiset{PacketFor(m, eid, delivery)})
    case Govern(eid, signer, ix) =>
      if Administer(m.lib, m.now, m.chains[eid], signer, ix).Err? then m else
      Replace(m, eid, Administer(m.lib, m.now, m.chains[eid], signer, ix).value)
    case Wait(seconds) => m.(now := m.now + seconds)
    case TokenActivity(eid, after) => Replace(m, eid, m.chains[eid].(ledger := after))
    case ForeignSend(packet) => m.(inFlight := m.inFlight + multiset{packet})
  }

  ghost function Run(m: Mesh, steps: seq<Step>): Mesh
    decreases steps
  {
    if steps == [] then m else Run(Exec(m, steps[0]), steps[1..])
  }

  // ---- Value in flight ----

  /** Shared units that a packet is worth; only members' messages are worth anything. */
  function Worth(directory: map<u32, Pubkey>, p: Packet): nat {
    if IsMember(directory, p.srcEid, p.sender) && MsgCodec.AmountSd(p.message).Some?
    then MsgCodec.AmountSd(p.message).value else 0
  }

  ghost function InFlightSd(directory: map<u32, Pubkey>, packets: multiset<Packet>): nat
    decreases |packets|
  {
    if packets == multiset{} then 0
    else
      var p :| p in packets;
      Worth(directory, p) + InFlightSd(directory, packets - multiset{p})
  }

  lemma RemovalsCommute(packets: multiset<Packet>, p: Packet, q: Packet)
    ensures packets - multiset{q} - multiset{p} == packets - multiset{p} - multiset{q}
  {
  }

  lemma {:induction false} InFlightRemove(directory: map<u32, Pubkey>, packets: multiset<Packet>, p: Packet)
    requires p in packets
    ensures InFlightSd(directory, packets)
            == Worth(directory, p) + InFlightSd(directory, packets - multiset{p})
    decreases |packets|
  {
    hide Worth;
    var q :| q in packets
             && InFlightSd(directory, packets)
                == Worth(directory, q) + InFlightSd(directory, packets - multiset{q});
    if q != p {
      assert p in packets - multiset{q} && q in packets - multiset{p};
      InFlightRemove(directory, packets - multiset{q}, p);
      InFlightRemove(directory, packets - multiset{p}, q);
      RemovalsCommute(packets, p, q);
    }
  }

  lemma InFlightAdd(directory: map<u32, Pubkey>, packets: multiset<Packet>, p: Packet)
    ensures InFlightSd(directory, packets + multiset{p}) == InFlightSd(directory, packets) + Worth(directory, p)
  {
    InFlightRemove(directory, packets + multiset{p}, p);
    assert packets + multiset{p} - multiset{p} == packets;
  }

  // ---- The invariant of the mesh ----

  ghost predicate RatesPositive(chains: map<u32, Chain>) {
    forall e | e in chains :: chains[e].store.ld2sdRate >= 1
  }

  ghost function LockedByChain(chains: map<u32, Chain>): map<u32, int>
    requires RatesPositive(chains)
  {
    map e | e in chains :: Locked(chains[e])
  }

  ghost function IssuedByChain(chains: map<u32, Chain>): map<u32, int>
    requires RatesPositive(chains)
  {
    map e | e in chains :: Issued(chains[e])
  }

  ghost function NetByChain(chains: map<u32, Chain>): map<u32, int>
    requires RatesPositive(chains)
  {
    map e | e in chains :: Net(chains[e])
  }

  ghost predicate PeersTrusted(directory: map<u32, Pubkey>, peers: map<u32, PeerConfig>) {
    forall r | r in peers :: TrustedPeer(directory, r, peers[r].peerAddress)
  }

  ghost predicate Placed(m: Mesh, eid: u32)
    requires eid in m.chains
  {
    && IsMember(m.directory, eid, m.chains[eid].store.key)
    && ChainOk(m.chains[eid], m.now)
    && PeersTrusted(m.directory, m.chains[eid].peers)
  }

  ghost predicate PacketOk(directory: map<u32, Pubkey>, p: Packet) {
    if IsMember(directory, p.srcEid, p.sender) then MsgCodec.WellFormed(p.message) else p.sender != ZERO_32
  }

  ghost predicate MeshOk(m: Mesh) {
    && (forall e | e in m.chains :: Placed(m, e))
    && (forall p | p in m.inFlight :: PacketOk(m.directory, p))
    && Sum(NetByChain(m.chains)) == InFlightSd(m.directory, m.inFlight)
  }

  // ---- Every step keeps it ----

  lemma NetUpdate(chains: map<u32, Chain>, eid: u32, chain: Chain)
    requires RatesPositive(chains) && chain.store.ld2sdRate >= 1
    ensures RatesPositive(chains[eid := chain])
    ensures Sum(NetByChain(chains[eid := chain]))
            == Sum(NetByChain(chains)) - (if eid in chains then Net(chains[eid]) else 0) + Net(chain)
  {
    SumUpdate(NetByChain(chains), eid, Net(chain));
    assert NetByChain(chains[eid := chain]) == NetByChain(chains)[eid := Net(chain)];
  }

  /** Any change of one chain whose net position moves with the value in flight. */
  lemma ChainMoves(m: Mesh, eid: u32, c': Chain, packets: multiset<Packet>, units: int)
    requires MeshOk(m) && eid in m.chains
    requires ChainOk(c', m.now) && c'.store.key == m.chains[eid].store.key
    requires PeersTrusted(m.directory, c'.peers)
    requires m.chains[eid].store.ld2sdRate >= 1 && Net(c') == Net(m.chains[eid]) + units
    requires InFlightSd(m.directory, packets) == InFlightSd(m.directory, m.inFlight) + units
    requires forall p | p in packets :: PacketOk(m.directory, p)
    ensures MeshOk(Replace(m, eid, c').(inFlight := packets))
  {
    assert Placed(m, eid);
    NetUpdate(m.chains, eid, c');
    var m' := Replace(m, eid, c').(inFlight := packets);
    forall e | e in m'.chains
      ensures Placed(m', e)
    {
      assert e != eid ==> Placed(m, e);
    }
  }

  lemma AddressesStayTrusted(
    directory: map<u32, Pubkey>, peers: map<u32, PeerConfig>, peers': map<u32, PeerConfig>)
    requires PeersTrusted(directory, peers) && SameAddresses(peers, peers')
    ensures PeersTrusted(directory, peers')
  {
  }

  lemma SendKeeps(m: Mesh, step: Step)
    requires MeshOk(m) && step.SendFrom? && step.eid in m.chains && SendIn(m, step).Ok?
    ensures MeshOk(Exec(m, step))
  {
    hide Send, LzReceive, Administer;
    var c, out := m.chains[step.eid], SendIn(m, step).value;
    assert Placed(m, step.eid);
    SendDispatches(m.lib, m.now, c, step.signer, step.send);
    SendEffect(m.now, c, step.signer, step.send, out);
    AddressesStayTrusted(m.directory, c.peers, out.chain.peers);
    var p := Packet(step.eid, c.store.key, step.send.dstEid, out.receiver, step.nonce, step.guid, out.message);
    InFlightAdd(m.directory, m.inFlight, p);
    ChainMoves(m, step.eid, out.chain, m.inFlight + multiset{p}, MsgCodec.AmountSd(out.message).value);
  }

  lemma DeliverKeeps(m: Mesh, step: Step)
    requires MeshOk(m) && step.DeliverTo? && step.eid in m.chains && DeliverIn(m, step).Ok?
    ensures MeshOk(Exec(m, step))
  {
    hide Send, LzReceive, Administer;
    var c, p := m.chains[step.eid], PacketFor(m, step.eid, step.delivery);
    assert Placed(m, step.eid);
    LzReceiveDelivers(m.now, c, step.delivery, step.toAddress, step.mintAuthority, p in m.inFlight);
    LzReceiveEffect(m.now, c, step.delivery, step.toAddress, step.mintAuthority, DeliverIn(m, step).value);
    assert TrustedPeer(m.directory, p.srcEid, p.sender);
    assert PacketOk(m.directory, p);
    var c' := DeliverIn(m, step).value.chain;
    AddressesStayTrusted(m.directory, c.peers, c'.peers);
    InFlightRemove(m.directory, m.inFlight, p);
    ChainMoves(m, step.eid, c', m.inFlight - multiset{p}, 0 - MsgCodec.AmountSd(p.message).value);
  }

  /** Only trusted addresses are ever stored. */
  lemma AdministerKeepsTrust(
    directory: map<u32, Pubkey>, lib: OptionsLib, now: u64, c: Chain, signer: Pubkey, ix: AdminIx)
    requires PeersTrusted(directory, c.peers)
    requires ix.SetPeerConfig? && ix.param.PeerAddress? ==> TrustedPeer(directory, ix.remoteEid, ix.param.address)
    requires Administer(lib, now, c, signer, ix).Ok?
    ensures PeersTrusted(directory, Administer(lib, now, c, signer, ix).value.peers)
  {
  }

  lemma GovernKeeps(m: Mesh, step: Step)
    requires MeshOk(m) && step.Govern? && Allowed(m, step)
    requires Administer(m.lib, m.now, m.chains[step.eid], step.signer, step.ix).Ok?
    ensures MeshOk(Exec(m, step))
  {
    var c := m.chains[step.eid];
    assert Placed(m, step.eid);
    AdministerEffect(m.lib, m.now, c, step.signer, step.ix);
    AdministerKeepsTrust(m.directory, m.lib, m.now, c, step.signer, step.ix);
    ChainMoves(m, step.eid, Administer(m.lib, m.now, c, step.signer, step.ix).value, m.inFlight, 0);
  }

  /** Outside activity can only raise the escrow and, on a native chain, burn. */
  lemma TokenActivityKeeps(m: Mesh, step: Step)
    requires MeshOk(m) && step.TokenActivity? && Allowed(m, step)
    ensures MeshOk(Exec(m, step))
  {
    hide Send, LzReceive, Administer;
    assert Placed(m, step.eid);
    ChainMoves(m, step.eid, m.chains[step.eid].(ledger := step.ledger), m.inFlight, 0);
  }

  lemma InitKeeps(m: Mesh, step: Step)
    requires MeshOk(m) && step.Init? && Allowed(m, step) && InitOft(step.params).Ok?
    ensures MeshOk(Exec(m, step))
  {
    InitEffect(step.params, step.ledger, m.now);
    NetUpdate(m.chains, step.eid, Chain(InitOft(step.params).value, map[], step.ledger));
  }

  lemma WaitKeeps(m: Mesh, seconds: nat)
    requires MeshOk(m) && m.now + seconds <= U64_MAX
    ensures MeshOk(m.(now := m.now + seconds))
  {
    var m' := m.(now := m.now + seconds);
    forall e | e in m'.chains
      ensures Placed(m', e)
    {
      assert Placed(m, e);
      ChainOkLater(m.chains[e], m.now, m'.now);
    }
  }

  lemma ForeignSendKeeps(m: Mesh, step: Step)
    requires MeshOk(m) && step.ForeignSend? && Allowed(m, step)
    ensures MeshOk(Exec(m, step))
  {
    hide Send, LzReceive, Administer, ChainOk, Net;
    InFlightAdd(m.directory, m.inFlight, step.packet);
    var m' := Exec(m, step);
    forall e | e in m'.chains
      ensures Placed(m', e)
    {
      assert Placed(m, e);
    }
  }

  lemma StepKeeps(m: Mesh, step: Step)
    requires MeshOk(m)
    ensures MeshOk(Exec(m, step))
  {
    hide Send, LzReceive, Administer, MeshOk;
    if Allowed(m, step) {
      match step
      case Init(_, params, _) =>
        if InitOft(params).Ok? { InitKeeps(m, step); }
      case SendFrom(_, _, _, _, _) =>
        if SendIn(m, step).Ok? { SendKeeps(m, step); }
      case DeliverTo(_, _, _, _) =>
        if DeliverIn(m, step).Ok? { DeliverKeeps(m, step); }
      case Govern(eid, signer, ix) =>
        if Administer(m.lib, m.now, m.chains[eid], signer, ix).Ok? { GovernKeeps(m, step); }
      case Wait(seconds) => WaitKeeps(m, seconds);
      case TokenActivity(_, _) => TokenActivityKeeps(m, step);
      case ForeignSend(_) => ForeignSendKeeps(m, step);
    }
  }

  lemma {:induction false} RunKeeps(m: Mesh, steps: seq<Step>)
    requires MeshOk(m)
    ensures MeshOk(Run(m, steps))
    decreases steps
  {
    if steps == [] {
    } else {
      StepKeeps(m, steps[0]);
      RunKeeps(Exec(m, steps[0]), steps[1..]);
    }
  }

  lemma ReachableOk(directory: map<u32, Pubkey>, lib: OptionsLib, start: u64, steps: seq<Step>)
    ensures MeshOk(Run(Genesis(directory, lib, start), steps))
  {
    var g := Genesis(directory, lib, start);
    assert NetByChain(g.chains) == map[];
    RunKeeps(g, steps);
  }

  // ---- Conservation ----

  lemma ConservationOf(m: Mesh)
    requires MeshOk(m)
    ensures RatesPositive(m.chains)
    ensures Sum(LockedByChain(m.chains)) == Sum(IssuedByChain(m.chains)) + InFlightSd(m.directory, m.inFlight)
  {
    assert forall e | e in m.chains :: Placed(m, e);
    SumDifference(LockedByChain(m.chains), IssuedByChain(m.chains), NetByChain(m.chains));
  }

  /** In every reachable state the shared units locked on adapters equal the shared units issued on native
      chains plus those in flight. */
  lemma Conservation(directory: map<u32, Pubkey>, lib: OptionsLib, start: u64, steps: seq<Step>)
    ensures var m := Run(Genesis(directory, lib, start), steps);
            && RatesPositive(m.chains)
            && Sum(LockedByChain(m.chains)) == Sum(IssuedByChain(m.chains)) + InFlightSd(m.directory, m.inFlight)
  {
    ReachableOk(directory, lib, start, steps);
    ConservationOf(Run(Genesis(directory, lib, start), steps));
  }

  ghost predicate SoleAdapter(m: Mesh, adapter: u32) {
    && adapter in m.chains
    && m.chains[adapter].store.oftType.Adapter?
    && forall e | e in m.chains && e != adapter :: m.chains[e].store.oftType.Native?
  }

  /** With a single adapter, its locked value backs everything issued and everything in flight, to the unit. */
  lemma AdapterBacksEverything(m: Mesh, adapter: u32)
    requires MeshOk(m) && SoleAdapter(m, adapter)
    ensures RatesPositive(m.chains)
    ensures var store := m.chains[adapter].store;
            && store.tvlLd % store.ld2sdRate == 0
            && store.tvlLd / store.ld2sdRate
               == Sum(IssuedByChain(m.chains)) + InFlightSd(m.directory, m.inFlight)
  {
    assert Placed(m, adapter);
    ConservationOf(m);
    SumOfOne(LockedByChain(m.chains), adapter);
  }

  // ---- Every message to the adapter can be paid ----

  lemma IssuedNonNegative(m: Mesh)
    requires MeshOk(m)
    ensures RatesPositive(m.chains) && Sum(IssuedByChain(m.chains)) >= 0
  {
    forall e | e in m.chains
      ensures m.chains[e].store.ld2sdRate >= 1 && Issued(m.chains[e]) >= 0
    {
      assert Placed(m, e);
      QuotientAtLeast(m.chains[e].ledger.supply + m.chains[e].ledger.burntOutside, m.chains[e].store.ld2sdRate, 0);
    }
    SumNonNegative(IssuedByChain(m.chains));
  }

  lemma InFlightIsLocked(m: Mesh, adapter: u32, p: Packet)
    requires MeshOk(m) && SoleAdapter(m, adapter)
    requires p in m.inFlight
    ensures Worth(m.directory, p) * m.chains[adapter].store.ld2sdRate <= m.chains[adapter].store.tvlLd
  {
    AdapterBacksEverything(m, adapter);
    IssuedNonNegative(m);
    InFlightRemove(m.directory, m.inFlight, p);
    QuotientAtLeast(m.chains[adapter].store.tvlLd, m.chains[adapter].store.ld2sdRate, Worth(m.directory, p));
  }

  /** What a delivery needs besides money: a message of a member that the adapter has as its peer, and the
      accounts that the message and the mint call for. */
  ghost predicate Addressed(m: Mesh, adapter: u32, step: Step)
    requires adapter in m.chains
  {
    && step.DeliverTo? && step.eid == adapter
    && IsMember(m.directory, step.delivery.srcEid, step.delivery.sender)
    && MsgCodec.SendTo(step.delivery.message) == Some(step.toAddress)
    && (step.mintAuthority.Some? ==> step.mintAuthority == m.chains[adapter].ledger.mintAuthority)
  }

  /** The message's amount in local decimals. */
  function Due(rate: nat, step: Step): nat
    requires step.DeliverTo?
  {
    match MsgCodec.AmountSd(step.delivery.message)
    case None => 0
    case Some(amountSd) => MulNonNegative(amountSd, rate); amountSd * rate
  }

  ghost predicate Peered(c: Chain, step: Step)
    requires step.DeliverTo?
  {
    && step.delivery.srcEid in c.peers
    && c.peers[step.delivery.srcEid].peerAddress == step.delivery.sender
  }

  /** The inbound limiter of the peer, if any, has the tokens. */
  ghost predicate InboundAdmits(c: Chain, src: u32, now: u64, amount: nat) {
    src in c.peers && c.peers[src].inbound.Some? ==> amount <= c.peers[src].inbound.value.Available(now)
  }

  lemma PayableNow(m: Mesh, adapter: u32, step: Step)
    requires MeshOk(m) && SoleAdapter(m, adapter) && Addressed(m, adapter, step)
    requires PacketFor(m, adapter, step.delivery) in m.inFlight
    ensures var c := m.chains[adapter];
            && Due(c.store.ld2sdRate, step) <= c.store.tvlLd <= c.ledger.escrow
            && MsgCodec.AmountSd(step.delivery.message).Some?
            && (DeliverIn(m, step).Ok? <==>
                  !c.store.paused && Peered(c, step)
                  && InboundAdmits(c, step.delivery.srcEid, m.now, Due(c.store.ld2sdRate, step)))
  {
    var p := PacketFor(m, adapter, step.delivery);
    assert PacketOk(m.directory, p);
    assert Placed(m, adapter);
    InFlightIsLocked(m, adapter, p);
    DeliverySucceedsIff(m.now, m.chains[adapter], step.delivery, step.toAddress, step.mintAuthority, true);
    hide LzReceive;
  }

  /** A message that was sent is in flight to the store that is the peer: its delivery there, as coming from the
      sending chain and its store, finds the payload. */
  lemma SentMessageIsInFlight(m: Mesh, step: Step)
    requires step.SendFrom? && step.eid in m.chains && SendIn(m, step).Ok?
    requires step.send.dstEid in m.chains
    requires step.send.dstEid in m.chains[step.eid].peers
             && m.chains[step.eid].peers[step.send.dstEid].peerAddress == m.chains[step.send.dstEid].store.key
    ensures var m' := Exec(m, step);
            var sent := LzReceiveParams(step.eid, m.chains[step.eid].store.key, step.nonce, step.guid,
                                        SendIn(m, step).value.message);
            && step.send.dstEid in m'.chains
            && m'.inFlight == m.inFlight + multiset{PacketFor(m', step.send.dstEid, sent)}
  {
    hide ComputeFeeAndAdjustAmount, Throttle, MsgCodec.Wire;
  }

  /** In every reachable state with a single adapter, a member's message in flight to the adapter is delivered
      by anyone who tries, exactly when the adapter is not paused, still has the sender as its peer, and its
      inbound limiter has the tokens: the conversion cannot overflow, the locked value cannot underflow and the
      escrow can always pay. */
  lemma EveryMessageIsPayable(
    directory: map<u32, Pubkey>, lib: OptionsLib, start: u64, steps: seq<Step>, adapter: u32, step: Step)
    requires var m := Run(Genesis(directory, lib, start), steps);
             && SoleAdapter(m, adapter)
             && Addressed(m, adapter, step)
             && PacketFor(m, adapter, step.delivery) in m.inFlight
    ensures var m := Run(Genesis(directory, lib, start), steps);
            var c := m.chains[adapter];
            var src := step.delivery.srcEid;
            && MsgCodec.AmountSd(step.delivery.message).Some?
            && var amountLd := MsgCodec.AmountSd(step.delivery.message).value * c.store.ld2sdRate;
            && amountLd <= c.store.tvlLd <= c.ledger.escrow
            && (DeliverIn(m, step).Ok? <==>
                  && !c.store.paused
                  && src in c.peers && c.peers[src].peerAddress == step.delivery.sender
                  && (c.peers[src].inbound.Some? ==> amountLd <= c.peers[src].inbound.value.Available(m.now)))
  {
    hide Exec, MeshOk, LzReceive;
    ReachableOk(directory, lib, start, steps);
    PayableNow(Run(Genesis(directory, lib, start), steps), adapter, step);
  }

  // ---- All messages to the adapter together ----

  ghost function PacketsOf(key: Pubkey, eid: u32, deliveries: seq<Step>): multiset<Packet>
    requires forall d | d in deliveries :: d.DeliverTo?
    decreases deliveries
  {
    if deliveries == [] then multiset{}
    else multiset{PacketTo(key, eid, deliveries[0].delivery)} + PacketsOf(key, eid, deliveries[1..])
  }

  /** What a batch of deliveries brings from one source, in local decimals. */
  ghost function DueFrom(rate: nat, deliveries: seq<Step>, src: u32): nat
    requires forall d | d in deliveries :: d.DeliverTo?
    decreases deliveries
  {
    if deliveries == [] then 0
    else (if deliveries[0].delivery.srcEid == src then Due(rate, deliveries[0]) else 0)
         + DueFrom(rate, deliveries[1..], src)
  }

  ghost predicate AllSucceed(m: Mesh, deliveries: seq<Step>)
    requires forall d | d in deliveries :: d.DeliverTo?
    decreases deliveries
  {
    deliveries != [] ==>
      && deliveries[0].eid in m.chains
      && DeliverIn(m, deliveries[0]).Ok?
      && AllSucceed(Exec(m, deliveries[0]), deliveries[1..])
  }

  /** Messages in flight to the adapter, each from a peer, in whatever order. */
  ghost predicate Batch(m: Mesh, adapter: u32, deliveries: seq<Step>)
    requires adapter in m.chains
  {
    && (forall d | d in deliveries :: Addressed(m, adapter, d) && Peered(m.chains[adapter], d))
    && PacketsOf(m.chains[adapter].store.key, adapter, deliveries) <= m.inFlight
  }

  ghost predicate BatchAdmitted(m: Mesh, adapter: u32, deliveries: seq<Step>)
    requires adapter in m.chains
    requires forall d | d in deliveries :: d.DeliverTo?
  {
    forall src | src in m.chains[adapter].peers ::
      InboundAdmits(m.chains[adapter], src, m.now,
                    DueFrom(m.chains[adapter].store.ld2sdRate, deliveries, src))
  }

  /** What a delivery leaves alone: everything but balances, the locked value and the limiters of its peer, of
      which the inbound one has exactly so much less. */
  ghost predicate DeliveryFrame(c: Chain, c': Chain, src: u32, now: u64, due: nat) {
    && c'.store == c.store.(tvlLd := c'.store.tvlLd)
    && c'.ledger.mintAuthority == c.ledger.mintAuthority
    && SameAddresses(c.peers, c'.peers)
    && (forall e | e in c.peers && e != src :: c'.peers[e] == c.peers[e])
    && src in c.peers
    && c'.peers[src].inbound.Some? == c.peers[src].inbound.Some?
    && (c.peers[src].inbound.Some? ==>
          c'.peers[src].inbound.value.Available(now) == c.peers[src].inbound.value.Available(now) - due)
  }

  lemma DeliveryKeepsFrame(m: Mesh, adapter: u32, step: Step)
    requires MeshOk(m) && adapter in m.chains && step.DeliverTo? && step.eid == adapter && DeliverIn(m, step).Ok?
    ensures var c := m.chains[adapter];
            DeliveryFrame(c, DeliverIn(m, step).value.chain, step.delivery.srcEid, m.now,
                          Due(c.store.ld2sdRate, step))
  {
    assert Placed(m, adapter);
    var c, out := m.chains[adapter], DeliverIn(m, step).value;
    LzReceiveDelivers(m.now, c, step.delivery, step.toAddress, step.mintAuthority,
                      PacketFor(m, adapter, step.delivery) in m.inFlight);
    hide LzReceive, Throttle, PayOut, MeshOk;
    PayOutFrame(c.store, c.ledger, step.toAddress, step.mintAuthority, out.amountLd);
    ThrottleEffect(c.peers[step.delivery.srcEid], Inbound, m.now, out.amountLd);
  }

  /** After one delivery of a batch, the rest is a batch. */
  lemma RestOfBatch(m: Mesh, m': Mesh, adapter: u32, deliveries: seq<Step>, c': Chain, due: nat)
    requires adapter in m.chains && deliveries != [] && deliveries[0].DeliverTo? && Batch(m, adapter, deliveries)
    requires DeliveryFrame(m.chains[adapter], c', deliveries[0].delivery.srcEid, m.now, due)
    requires m' == Replace(m, adapter, c')
                   .(inFlight := m.inFlight - multiset{PacketFor(m, adapter, deliveries[0].delivery)})
    ensures Batch(m', adapter, deliveries[1..])
  {
    hide Due;
    forall d | d in deliveries[1..]
      ensures Addressed(m', adapter, d) && Peered(m'.chains[adapter], d)
    {
      assert d in deliveries;
    }
    var packet, rest := PacketFor(m, adapter, deliveries[0].delivery),
                        PacketsOf(m.chains[adapter].store.key, adapter, deliveries[1..]);
    assert multiset{packet} + rest <= m.inFlight;
    assert rest <= m.inFlight - multiset{packet};
  }

  lemma AfterDelivery(m: Mesh, adapter: u32, step: Step)
    requires SoleAdapter(m, adapter) && step.DeliverTo? && step.eid == adapter && DeliverIn(m, step).Ok?
    requires DeliverIn(m, step).value.chain.store.oftType == m.chains[adapter].store.oftType
    ensures Exec(m, step) == Replace(m, adapter, DeliverIn(m, step).value.chain)
                             .(inFlight := m.inFlight - multiset{PacketFor(m, adapter, step.delivery)})
    ensures SoleAdapter(Exec(m, step), adapter)
  {
    hide LzReceive, Send, Administer;
  }

  /** Admission splits: the first delivery within the limit, and the rest within what it leaves. */
  lemma AdmissionSplits(m: Mesh, m': Mesh, adapter: u32, deliveries: seq<Step>)
    requires adapter in m.chains && adapter in m'.chains && m'.now == m.now && deliveries != []
    requires forall d | d in deliveries :: d.DeliverTo?
    requires DeliveryFrame(m.chains[adapter], m'.chains[adapter], deliveries[0].delivery.srcEid, m.now,
                           Due(m.chains[adapter].store.ld2sdRate, deliveries[0]))
    ensures BatchAdmitted(m, adapter, deliveries) <==> BatchAdmitted(m', adapter, deliveries[1..])
  {
    var c, c', now := m.chains[adapter], m'.chains[adapter], m.now;
    var rate, first, rest := c.store.ld2sdRate, deliveries[0].delivery.srcEid, deliveries[1..];
    assert c'.store.ld2sdRate == rate;
    forall src | src in c.peers
      ensures InboundAdmits(c, src, now, DueFrom(rate, deliveries, src))
              <==> InboundAdmits(c', src, now, DueFrom(rate, rest, src))
    {
      hide Due;
    }
    assert c'.peers.Keys == c.peers.Keys;
  }

  lemma FirstMustBeAdmitted(m: Mesh, adapter: u32, deliveries: seq<Step>)
    requires adapter in m.chains && deliveries != []
    requires forall d | d in deliveries :: d.DeliverTo?
    requires BatchAdmitted(m, adapter, deliveries)
    ensures InboundAdmits(m.chains[adapter], deliveries[0].delivery.srcEid, m.now,
                          Due(m.chains[adapter].store.ld2sdRate, deliveries[0]))
  {
    var src := deliveries[0].delivery.srcEid;
    if src in m.chains[adapter].peers {
      assert InboundAdmits(m.chains[adapter], src, m.now,
                           DueFrom(m.chains[adapter].store.ld2sdRate, deliveries, src));
    }
  }

  lemma {:induction false} BatchSucceedsIff(m: Mesh, adapter: u32, deliveries: seq<Step>)
    requires MeshOk(m) && SoleAdapter(m, adapter) && !m.chains[adapter].store.paused
    requires Batch(m, adapter, deliveries)
    ensures AllSucceed(m, deliveries) <==> BatchAdmitted(m, adapter, deliveries)
    ensures AllSucceed(m, deliveries) ==>
              Run(m, deliveries).inFlight
              == m.inFlight - PacketsOf(m.chains[adapter].store.key, adapter, deliveries)
    decreases deliveries
  {
    hide Exec, LzReceive, MeshOk, Batch, BatchAdmitted, InboundAdmits, Addressed, DeliveryFrame;
    if deliveries == [] {
      NothingToAdmit(m, adapter);
    } else {
      var first, rest := deliveries[0], deliveries[1..];
      FirstOfBatch(m, adapter, deliveries);
      var packet := PacketFor(m, adapter, first.delivery);
      PayableNow(m, adapter, first);
      if DeliverIn(m, first).Ok? {
        var m' := Exec(m, first);
        var c', due := DeliverIn(m, first).value.chain, Due(m.chains[adapter].store.ld2sdRate, first);
        DeliveryKeepsFrame(m, adapter, first);
        StaysOpen(m.chains[adapter], c', first.delivery.srcEid, m.now, due);
        AfterDelivery(m, adapter, first);
        StepKeeps(m, first);
        RestOfBatch(m, m', adapter, deliveries, c', due);
        AdmissionSplits(m, m', adapter, deliveries);
        BatchSucceedsIff(m', adapter, rest);
        var others := PacketsOf(m.chains[adapter].store.key, adapter, rest);
        assert m.inFlight - multiset{packet} - others == m.inFlight - (multiset{packet} + others);
      } else if BatchAdmitted(m, adapter, deliveries) {
        FirstMustBeAdmitted(m, adapter, deliveries);
      }
    }
  }

  lemma NothingToAdmit(m: Mesh, adapter: u32)
    requires adapter in m.chains
    ensures BatchAdmitted(m, adapter, [])
  {
  }

  lemma FirstOfBatch(m: Mesh, adapter: u32, deliveries: seq<Step>)
    requires adapter in m.chains && deliveries != [] && Batch(m, adapter, deliveries)
    ensures Addressed(m, adapter, deliveries[0]) && Peered(m.chains[adapter], deliveries[0])
    ensures PacketFor(m, adapter, deliveries[0].delivery) in m.inFlight
    ensures forall d | d in deliveries :: d.DeliverTo? && d.eid == adapter
  {
    assert deliveries[0] in deliveries;
    var packets := PacketsOf(m.chains[adapter].store.key, adapter, deliveries);
    assert PacketFor(m, adapter, deliveries[0].delivery) in packets;
  }

  lemma StaysOpen(c: Chain, c': Chain, src: u32, now: u64, due: nat)
    requires DeliveryFrame(c, c', src, now, due)
    ensures c'.store == c.store.(tvlLd := c'.store.tvlLd)
  {
  }

  /** In every reachable state with a single open adapter, any collection of messages in flight to it from its
      peers is paid in full in any order, exactly when for every peer with an inbound limiter the amounts add up
      to no more than its tokens; and afterwards exactly these messages are no longer in flight. In particular,
      without inbound limiters everything in flight to the adapter can be paid out together. */
  lemma JointPayability(
    directory: map<u32, Pubkey>, lib: OptionsLib, start: u64, steps: seq<Step>, adapter: u32, deliveries: seq<Step>)
    requires var m := Run(Genesis(directory, lib, start), steps);
             && SoleAdapter(m, adapter) && !m.chains[adapter].store.paused
             && Batch(m, adapter, deliveries)
    ensures var m := Run(Genesis(directory, lib, start), steps);
            var c := m.chains[adapter];
            && (forall d | d in deliveries :: d.DeliverTo?)
            && (AllSucceed(m, deliveries) <==>
                  forall src | src in c.peers && c.peers[src].inbound.Some? ::
                    DueFrom(c.store.ld2sdRate, deliveries, src) <= c.peers[src].inbound.value.Available(m.now))
            && (AllSucceed(m, deliveries) ==>
                  Run(m, deliveries).inFlight == m.inFlight - PacketsOf(c.store.key, adapter, deliveries))
  {
    hide Exec, MeshOk, LzReceive, AllSucceed;
    ReachableOk(directory, lib, start, steps);
    var m := Run(Genesis(directory, lib, start), steps);
    BatchSucceedsIff(m, adapter, deliveries);
    var c := m.chains[adapter];
    assert BatchAdmitted(m, adapter, deliveries) <==>
        forall src | src in c.peers && c.peers[src].inbound.Some? ::
          DueFrom(c.store.ld2sdRate, deliveries, src) <= c.peers[src].inbound.value.Available(m.now);
  }

  // ---- When a message can be delivered ----

  /** With a single open adapter and a limited peer, a message in flight is deliverable, without other traffic,
      after exactly the wait for its missing tokens, and never if it exceeds the capacity; with a zero rate,
      exactly if the tokens are already there. */
  lemma DeliveryTime(
    directory: map<u32, Pubkey>, lib: OptionsLib, start: u64, steps: seq<Step>, adapter: u32, step: Step, seconds: nat)
    requires var m := Run(Genesis(directory, lib, start), steps);
             && SoleAdapter(m, adapter) && !m.chains[adapter].store.paused
             && Addressed(m, adapter, step) && Peered(m.chains[adapter], step)
             && PacketFor(m, adapter, step.delivery) in m.inFlight
             && m.chains[adapter].peers[step.delivery.srcEid].inbound.Some?
             && m.now + seconds <= U64_MAX
    ensures var m := Run(Genesis(directory, lib, start), steps);
            var m' := Exec(m, Wait(seconds));
            var l := m.chains[adapter].peers[step.delivery.srcEid].inbound.value;
            var amount := Due(m.chains[adapter].store.ld2sdRate, step);
            && m'.chains == m.chains
            && (l.refillPerSecond > 0 ==>
                  (DeliverIn(m', step).Ok? <==>
                     && amount <= l.capacity
                     && l.lastRefillTime + WaitFor(amount - l.tokens, l.refillPerSecond) <= m.now + seconds))
            && (l.refillPerSecond == 0 ==> (DeliverIn(m', step).Ok? <==> amount <= l.tokens))
  {
    hide LzReceive, Send, Administer;
    ReachableOk(directory, lib, start, steps);
    var m := Run(Genesis(directory, lib, start), steps);
    var m' := m.(now := m.now + seconds);
    assert Exec(m, Wait(seconds)) == m';
    WaitKeeps(m, seconds);
    PeerInOrder(m, adapter, step.delivery.srcEid);
    PayableNow(m', adapter, step);
    hide MeshOk, Exec;
    AdmissionTime(m.chains[adapter].peers[step.delivery.srcEid].inbound.value, m'.now,
                  Due(m.chains[adapter].store.ld2sdRate, step));
  }

  /** The same for a message to a native chain, where the only further obstacles are a mint authority that is
      missing, is not the mint's, or that the store cannot sign for, and a supply that would not fit in 64 bits. */
  lemma NativeDeliverySucceedsIff(
    directory: map<u32, Pubkey>, lib: OptionsLib, start: u64, steps: seq<Step>, step: Step)
    requires var m := Run(Genesis(directory, lib, start), steps);
             && step.DeliverTo? && step.eid in m.chains && m.chains[step.eid].store.oftType.Native?
             && PacketFor(m, step.eid, step.delivery) in m.inFlight
             && IsMember(m.directory, step.delivery.srcEid, step.delivery.sender)
             && MsgCodec.SendTo(step.delivery.message) == Some(step.toAddress)
    ensures var m := Run(Genesis(directory, lib, start), steps);
            var c := m.chains[step.eid];
            var src := step.delivery.srcEid;
            && MsgCodec.AmountSd(step.delivery.message).Some?
            && var amountLd := MsgCodec.AmountSd(step.delivery.message).value * c.store.ld2sdRate;
            && (DeliverIn(m, step).Ok? <==>
                  && !c.store.paused
                  && src in c.peers && c.peers[src].peerAddress == step.delivery.sender
                  && (c.peers[src].inbound.Some? ==> amountLd <= c.peers[src].inbound.value.Available(m.now))
                  && step.mintAuthority.Some? && step.mintAuthority == c.ledger.mintAuthority
                  && (step.mintAuthority.value == c.store.key || step.mintAuthority.value in c.ledger.quorums)
                  && c.ledger.supply + amountLd <= U64_MAX)
  {
    ReachableOk(directory, lib, start, steps);
    var m := Run(Genesis(directory, lib, start), steps);
    assert PacketOk(m.directory, PacketFor(m, step.eid, step.delivery));
    assert Placed(m, step.eid);
    DeliverySucceedsIff(m.now, m.chains[step.eid], step.delivery, step.toAddress, step.mintAuthority, true);
    hide LzReceive;
  }

  // ---- Every delivery was sent ----

  /** The packet that a step puts in flight, if any. */
  ghost function Posted(m: Mesh, step: Step): multiset<Packet> {
    if step.SendFrom? && step.eid in m.chains && SendIn(m, step).Ok? then
      var c, out := m.chains[step.eid], SendIn(m, step).value;
      multiset{Packet(step.eid, c.store.key, step.send.dstEid, c.peers[step.send.dstEid].peerAddress, step.nonce,
                      step.guid, out.message)}
    else if step.ForeignSend? && Allowed(m, step) then multiset{step.packet}
    else multiset{}
  }

  /** The packet that a step delivers, if any. */
  ghost function Received(m: Mesh, step: Step): multiset<Packet> {
    if step.DeliverTo? && step.eid in m.chains && DeliverIn(m, step).Ok?
    then multiset{PacketFor(m, step.eid, step.delivery)} else multiset{}
  }

  ghost function PostedBy(m: Mesh, steps: seq<Step>): multiset<Packet>
    decreases steps
  {
    if steps == [] then multiset{} else Posted(m, steps[0]) + PostedBy(Exec(m, steps[0]), steps[1..])
  }

  ghost function ReceivedBy(m: Mesh, steps: seq<Step>): multiset<Packet>
    decreases steps
  {
    if steps == [] then multiset{} else Received(m, steps[0]) + ReceivedBy(Exec(m, steps[0]), steps[1..])
  }

  /** What is in flight grows by what is posted and shrinks by what is received, and that is between members. */
  ghost predicate Accounted(m: Mesh, step: Step) {
    && m.inFlight + Posted(m, step) == Received(m, step) + Exec(m, step).inFlight
    && forall p | p in Received(m, step) ::
         && IsMember(m.directory, p.srcEid, p.sender)
         && IsMember(m.directory, p.dstEid, p.receiver)
  }

  lemma AccountedSend(m: Mesh, step: Step)
    requires MeshOk(m) && step.SendFrom? && step.eid in m.chains && SendIn(m, step).Ok?
    ensures Accounted(m, step)
  {
    hide Send, LzReceive, Administer, ComputeFeeAndAdjustAmount, Throttle, TakeIn;
    var c, out := m.chains[step.eid], SendIn(m, step).value;
    assert Placed(m, step.eid);
    hide MeshOk, ChainOk;
    SendDispatches(m.lib, m.now, c, step.signer, step.send);
    assert out.receiver == c.peers[step.send.dstEid].peerAddress;
    hide Dispatched;
  }

  lemma AccountedDelivery(m: Mesh, step: Step)
    requires MeshOk(m) && step.DeliverTo? && step.eid in m.chains && DeliverIn(m, step).Ok?
    ensures Accounted(m, step)
  {
    hide Send, LzReceive, Administer, Throttle, PayOut, ComposeFor;
    var p := PacketFor(m, step.eid, step.delivery);
    LzReceiveDelivers(m.now, m.chains[step.eid], step.delivery, step.toAddress, step.mintAuthority, p in m.inFlight);
    assert Placed(m, step.eid);
    assert TrustedPeer(m.directory, p.srcEid, p.sender) && PacketOk(m.directory, p);
    assert IsMember(m.directory, p.srcEid, p.sender) && IsMember(m.directory, p.dstEid, p.receiver);
    hide MeshOk, ChainOk, Delivered, IsMember;
    assert m.inFlight == multiset{p} + (m.inFlight - multiset{p});
  }

  lemma AccountedStep(m: Mesh, step: Step)
    requires MeshOk(m)
    ensures Accounted(m, step)
  {
    hide Send, LzReceive, Administer, MeshOk;
    if step.SendFrom? && step.eid in m.chains && SendIn(m, step).Ok? {
      AccountedSend(m, step);
    } else if step.DeliverTo? && step.eid in m.chains && DeliverIn(m, step).Ok? {
      AccountedDelivery(m, step);
    }
  }

  lemma {:induction false} AccountedRun(m: Mesh, steps: seq<Step>)
    requires MeshOk(m)
    ensures m.inFlight + PostedBy(m, steps) == ReceivedBy(m, steps) + Run(m, steps).inFlight
    ensures forall p | p in ReceivedBy(m, steps) ::
              && IsMember(m.directory, p.srcEid, p.sender)
              && IsMember(m.directory, p.dstEid, p.receiver)
    decreases steps
  {
    hide Exec, MeshOk, Posted, Received;
    if steps != [] {
      var next := Exec(m, steps[0]);
      AccountedStep(m, steps[0]);
      StepKeeps(m, steps[0]);
      DirectoryIsFixed(m, steps[0]);
      AccountedRun(next, steps[1..]);
      var posted, received := PostedBy(next, steps[1..]), ReceivedBy(next, steps[1..]);
      assert m.inFlight + (Posted(m, steps[0]) + posted) == m.inFlight + Posted(m, steps[0]) + posted;
      assert Received(m, steps[0]) + next.inFlight + posted == Received(m, steps[0]) + (next.inFlight + posted);
      assert Received(m, steps[0]) + (received + Run(m, steps).inFlight)
          == Received(m, steps[0]) + received + Run(m, steps).inFlight;
    }
  }

  lemma DirectoryIsFixed(m: Mesh, step: Step)
    ensures Exec(m, step).directory == m.directory
  {
    hide Send, LzReceive, Administer;
  }

  /** Over every run, whatever outsiders post: a packet is delivered at most as often as it was sent, and what
      was sent and not delivered is in flight; and every delivery is of a message that one member's store sent to
      another's. */
  lemma EveryDeliveryWasSent(directory: map<u32, Pubkey>, lib: OptionsLib, start: u64, steps: seq<Step>)
    ensures var m := Genesis(directory, lib, start);
            && PostedBy(m, steps) == ReceivedBy(m, steps) + Run(m, steps).inFlight
            && forall p | p in ReceivedBy(m, steps) ::
                 && IsMember(directory, p.srcEid, p.sender)
                 && IsMember(directory, p.dstEid, p.receiver)
  {
    hide Exec, Posted, Received;
    ReachableOk(directory, lib, start, []);
    AccountedRun(Genesis(directory, lib, start), steps);
  }

  // ---- Sound arithmetic in every reachable state ----

  lemma SendIsSound(c: Chain, remote: u32, amountLd: u64, now: u64)
    requires ChainOk(c, now) && remote in c.peers
    ensures var own := c.peers[remote].feeBps;
            var bps := if own.Some? then own.value else c.store.defaultFeeBps;
            var r := ComputeFeeAndAdjustAmount(amountLd, c.store, c.ledger.transferFee, own);
            && SoundSettings(c.store, c.ledger.transferFee, own)
            && r.Ok?
            && r.value.sentLd <= amountLd
            && bps < 10_000
            && var k := SharedUnits(amountLd, c.store, c.ledger.transferFee);
            && r.value.oftFeeLd == c.store.ld2sdRate * (k * bps / 10_000)
            && r.value.receivedLd == c.store.ld2sdRate * (k - k * bps / 10_000)
            && c.store.Sd2Ld(c.store.Ld2Sd(r.value.receivedLd)) == Some(r.value.receivedLd)
            && (k > 0 ==> c.store.Ld2Sd(r.value.receivedLd) >= 1)
  {
    assert PeerOk(c.peers[remote], now);
    hide ComputeFeeAndAdjustAmount, SharedUnits, PeersOk;
    AmountsClosedForm(amountLd, c.store, c.ledger.transferFee, c.peers[remote].feeBps);
    NoValueLostOnTheWire(amountLd, c.store, c.ledger.transferFee, c.peers[remote].feeBps);
  }

  /** Through any configuration changes, every effective fee stays below 100 percent and every rate positive,
      so on every chain and towards every peer the fee computation succeeds for every amount, charges no more
      than asked, takes the peer's own fee if it has one and the default otherwise, and loses nothing on the
      wire. */
  lemma EverySendIsSound(
    directory: map<u32, Pubkey>, lib: OptionsLib, start: u64, steps: seq<Step>, eid: u32, remote: u32, amountLd: u64)
    requires var m := Run(Genesis(directory, lib, start), steps);
             eid in m.chains && remote in m.chains[eid].peers
    ensures var c := Run(Genesis(directory, lib, start), steps).chains[eid];
            var r := ComputeFeeAndAdjustAmount(amountLd, c.store, c.ledger.transferFee, c.peers[remote].feeBps);
            && SoundSettings(c.store, c.ledger.transferFee, c.peers[remote].feeBps)
            && r.Ok?
            && r.value.sentLd <= amountLd
            && (var k := SharedUnits(amountLd, c.store, c.ledger.transferFee);
                var own := c.peers[remote].feeBps;
                var bps := if own.Some? then own.value else c.store.defaultFeeBps;
                && bps < 10_000
                && r.value.oftFeeLd == c.store.ld2sdRate * (k * bps / 10_000)
                && r.value.receivedLd == c.store.ld2sdRate * (k - k * bps / 10_000))
            && c.store.Sd2Ld(c.store.Ld2Sd(r.value.receivedLd)) == Some(r.value.receivedLd)
            && (SharedUnits(amountLd, c.store, c.ledger.transferFee) > 0 ==> c.store.Ld2Sd(r.value.receivedLd) >= 1)
            && c.store.tvlLd % c.store.ld2sdRate == 0
            && (c.store.oftType.Native? ==> c.store.tvlLd == 0)
  {
    hide Exec, Run, ComputeFeeAndAdjustAmount, SharedUnits, OftStore.Sd2Ld, OftStore.Ld2Sd, Sum, PeersOk;
    ReachableOk(directory, lib, start, steps);
    var m := Run(Genesis(directory, lib, start), steps);
    assert Placed(m, eid);
    hide MeshOk;
    SendIsSound(m.chains[eid], remote, amountLd, m.now);
  }

  // ---- A paused store ----

  /** The step is an instruction on the chain signed by someone who may reopen the store. */
  predicate ByReopener(store: OftStore, step: Step, eid: u32) {
    step.Govern? && step.eid == eid && (step.signer == store.admin || Some(step.signer) == store.unpauser)
  }

  /** Settings, locked value, limiters and issued value are as they were; the escrow can only have been given to. */
  ghost predicate Frozen(c: Chain, c': Chain) {
    && c'.store == c.store
    && c'.peers == c.peers
    && c.ledger.escrow <= c'.ledger.escrow
    && (c.store.oftType.Native? ==>
          c'.ledger.supply + c'.ledger.burntOutside == c.ledger.supply + c.ledger.burntOutside)
  }

  lemma FrozenAdministration(lib: OptionsLib, now: u64, c: Chain, signer: Pubkey, ix: AdminIx)
    requires c.store.paused && signer != c.store.admin && Some(signer) != c.store.unpauser
    requires Administer(lib, now, c, signer, ix).Ok?
    ensures Administer(lib, now, c, signer, ix).value == c
  {
  }

  lemma FrozenStep(m: Mesh, step: Step, eid: u32)
    requires eid in m.chains && m.chains[eid].store.paused
    requires !ByReopener(m.chains[eid].store, step, eid)
    ensures eid in Exec(m, step).chains && Frozen(m.chains[eid], Exec(m, step).chains[eid])
  {
    if step.SendFrom? && step.eid == eid {
      assert SendIn(m, step).Err?;
    } else if step.DeliverTo? && step.eid == eid {
      assert DeliverIn(m, step).Err?;
    }
    hide Send, LzReceive, Administer;
    if step.Govern? && step.eid == eid && Administer(m.lib, m.now, m.chains[eid], step.signer, step.ix).Ok? {
      FrozenAdministration(m.lib, m.now, m.chains[eid], step.signer, step.ix);
    }
  }

  /** While a store is paused and neither its administrator nor its unpauser acts, nothing moves through it,
      whatever anybody else does anywhere in the mesh. */
  lemma {:induction false} PausedIsFrozen(m: Mesh, steps: seq<Step>, eid: u32)
    requires eid in m.chains && m.chains[eid].store.paused
    requires forall s | s in steps :: !ByReopener(m.chains[eid].store, s, eid)
    ensures eid in Run(m, steps).chains && Frozen(m.chains[eid], Run(m, steps).chains[eid])
    decreases steps
  {
    hide Exec;
    if steps == [] {
    } else {
      assert steps[0] in steps;
      FrozenStep(m, steps[0], eid);
      PausedIsFrozen(Exec(m, steps[0]), steps[1..], eid);
    }
  }

  // ---- Totals over a run ----

  /** Quantities that a step adds for the chain `eid`, read off the step's own outcome. */
  datatype Measure =
    | FeesKept
    | Donations
    | Withdrawals
    | SentTo(remote: u32)
    | ReceivedFrom(remote: u32)

  ghost function Amount(m: Mesh, step: Step, eid: u32, measure: Measure): int {
    if !Allowed(m, step) || eid !in m.chains then 0 else
    match measure
    case FeesKept =>
      if step.SendFrom? && step.eid == eid && SendIn(m, step).Ok? && FeeValid(m.chains[eid].ledger.transferFee)
      then FeeKept(m.chains[eid], SendIn(m, step).value.amounts) else 0
    case Donations =>
      if step.TokenActivity? && step.eid == eid then step.ledger.escrow - m.chains[eid].ledger.escrow else 0
    case Withdrawals =>
      if step.Govern? && step.eid == eid && Administer(m.lib, m.now, m.chains[eid], step.signer, step.ix).Ok?
      then Withdrawn(step.ix) else 0
    case SentTo(remote) =>
      if step.SendFrom? && step.eid == eid && step.send.dstEid == remote && SendIn(m, step).Ok?
      then SendIn(m, step).value.amounts.receivedLd else 0
    case ReceivedFrom(remote) =>
      if step.DeliverTo? && step.eid == eid && step.delivery.srcEid == remote && DeliverIn(m, step).Ok?
      then DeliverIn(m, step).value.amountLd else 0
  }

  ghost function Total(m: Mesh, steps: seq<Step>, eid: u32, measure: Measure): int
    decreases steps
  {
    if steps == [] then 0
    else Amount(m, steps[0], eid, measure) + Total(Exec(m, steps[0]), steps[1..], eid, measure)
  }

  // ---- Escrow accounting ----

  /** What the escrow holds beyond the locked value. */
  ghost function Surplus(m: Mesh, eid: u32): int {
    if eid in m.chains then m.chains[eid].ledger.escrow - m.chains[eid].store.tvlLd else 0
  }

  lemma SurplusOfSend(m: Mesh, step: Step)
    requires MeshOk(m) && step.SendFrom? && step.eid in m.chains && SendIn(m, step).Ok?
    ensures Surplus(Exec(m, step), step.eid) == Surplus(m, step.eid) + Amount(m, step, step.eid, FeesKept)
  {
    hide Send, LzReceive, Administer;
    assert Placed(m, step.eid);
    SendDispatches(m.lib, m.now, m.chains[step.eid], step.signer, step.send);
    SendEffect(m.now, m.chains[step.eid], step.signer, step.send, SendIn(m, step).value);
  }

  lemma SurplusOfDelivery(m: Mesh, step: Step)
    requires MeshOk(m) && step.DeliverTo? && step.eid in m.chains && DeliverIn(m, step).Ok?
    ensures Surplus(Exec(m, step), step.eid) == Surplus(m, step.eid)
  {
    hide Send, LzReceive, Administer;
    assert Placed(m, step.eid);
    var c, held := m.chains[step.eid], PacketFor(m, step.eid, step.delivery) in m.inFlight;
    LzReceiveDelivers(m.now, c, step.delivery, step.toAddress, step.mintAuthority, held);
    LzReceiveEffect(m.now, c, step.delivery, step.toAddress, step.mintAuthority, DeliverIn(m, step).value);
  }

  lemma SurplusOfGovern(m: Mesh, step: Step)
    requires MeshOk(m) && step.Govern? && Allowed(m, step)
    ensures Surplus(Exec(m, step), step.eid) == Surplus(m, step.eid) - Amount(m, step, step.eid, Withdrawals)
  {
    assert Placed(m, step.eid);
    var c := m.chains[step.eid];
    if Administer(m.lib, m.now, c, step.signer, step.ix).Ok? {
      AdministerEffect(m.lib, m.now, c, step.signer, step.ix);
      hide Administer;
    }
  }

  /** A step that is not an instruction on this chain changes its surplus only by a donation. */
  lemma SurplusElsewhere(m: Mesh, step: Step, eid: u32)
    requires (step.SendFrom? || step.DeliverTo? || step.Govern?) ==> step.eid != eid || Exec(m, step) == m
    ensures Surplus(Exec(m, step), eid) == Surplus(m, eid) + Amount(m, step, eid, Donations)
  {
    hide Send, LzReceive, Administer;
  }

  lemma SurplusStep(m: Mesh, step: Step, eid: u32)
    requires MeshOk(m)
    ensures Surplus(Exec(m, step), eid)
            == Surplus(m, eid) + Amount(m, step, eid, FeesKept) + Amount(m, step, eid, Donations)
               - Amount(m, step, eid, Withdrawals)
  {
    hide Send, LzReceive, Administer, MeshOk;
    if step.SendFrom? && Allowed(m, step) && step.eid == eid && SendIn(m, step).Ok? {
      SurplusOfSend(m, step);
    } else if step.DeliverTo? && Allowed(m, step) && step.eid == eid && DeliverIn(m, step).Ok? {
      SurplusOfDelivery(m, step);
    } else if step.Govern? && Allowed(m, step) && step.eid == eid {
      SurplusOfGovern(m, step);
    } else {
      SurplusElsewhere(m, step, eid);
    }
  }

  lemma {:induction false} SurplusRun(m: Mesh, steps: seq<Step>, eid: u32)
    requires MeshOk(m)
    ensures Surplus(Run(m, steps), eid)
            == Surplus(m, eid) + Total(m, steps, eid, FeesKept) + Total(m, steps, eid, Donations)
               - Total(m, steps, eid, Withdrawals)
    decreases steps
  {
    if steps == [] {
    } else {
      SurplusStep(m, steps[0], eid);
      StepKeeps(m, steps[0]);
      SurplusRun(Exec(m, steps[0]), steps[1..], eid);
    }
  }

  /** Over every run, whatever the transfer fee does in between: escrow less locked value is fees collected plus
      donations less withdrawals, and never negative. */
  lemma EscrowAccounting(
    directory: map<u32, Pubkey>, lib: OptionsLib, start: u64, steps: seq<Step>, eid: u32)
    requires eid in Run(Genesis(directory, lib, start), steps).chains
    ensures var g := Genesis(directory, lib, start);
            var c := Run(g, steps).chains[eid];
            && c.ledger.escrow - c.store.tvlLd
               == Total(g, steps, eid, FeesKept) + Total(g, steps, eid, Donations) - Total(g, steps, eid, Withdrawals)
            && c.store.tvlLd <= c.ledger.escrow
  {
    ReachableOk(directory, lib, start, steps);
    var g := Genesis(directory, lib, start);
    ReachableOk(directory, lib, start, []);
    assert Run(g, []) == g;
    SurplusRun(g, steps, eid);
    assert Placed(Run(g, steps), eid);
  }

  // ---- Net flow through a limiter ----

  function Used(direction: Direction, remote: u32): Measure {
    if direction == Outbound then SentTo(remote) else ReceivedFrom(remote)
  }

  function Returned(direction: Direction, remote: u32): Measure {
    if direction == Outbound then ReceivedFrom(remote) else SentTo(remote)
  }

  /** The step does not try to change the limiter. */
  predicate LeavesLimiter(step: Step, eid: u32, remote: u32, direction: Direction) {
    step.Govern? && step.eid == eid && step.ix.SetPeerConfig? && step.ix.remoteEid == remote ==>
      if direction == Outbound then !step.ix.param.OutboundRateLimit? else !step.ix.param.InboundRateLimit?
  }

  ghost predicate HasLimiter(m: Mesh, eid: u32, remote: u32, direction: Direction) {
    && eid in m.chains
    && remote in m.chains[eid].peers
    && LimiterOf(m.chains[eid].peers[remote], direction).Some?
  }

  function TheLimiter(m: Mesh, eid: u32, remote: u32, direction: Direction): Limiter
    requires HasLimiter(m, eid, remote, direction)
  {
    LimiterOf(m.chains[eid].peers[remote], direction).value
  }

  /** The limiter keeps its settings, and the tokens available afterwards are covered by those before, the
      returned amount and the time passed. */
  ghost predicate Flows(l: Limiter, l': Limiter, now: u64, later: u64, used: int, returned: int) {
    && now <= later
    && l'.capacity == l.capacity
    && l'.refillPerSecond == l.refillPerSecond
    && l'.Available(later) + used <= l.Available(now) + returned + (later - now) * l.refillPerSecond
  }

  lemma ThrottleFlows(peer: PeerConfig, moved: Direction, now: u64, amount: u64, direction: Direction)
    requires PeerOk(peer, now) && Throttle(peer, moved, now, amount).Ok?
    requires LimiterOf(peer, direction).Some?
    ensures var l' := LimiterOf(Throttle(peer, moved, now, amount).value, direction);
            && l'.Some?
            && Flows(LimiterOf(peer, direction).value, l'.value, now, now,
                     if moved == direction then amount else 0, if moved == direction then 0 else amount)
  {
  }

  lemma AdministerLeaves(
    lib: OptionsLib, now: u64, c: Chain, signer: Pubkey, ix: AdminIx, remote: u32, direction: Direction)
    requires remote in c.peers && Administer(lib, now, c, signer, ix).Ok?
    requires ix.SetPeerConfig? && ix.remoteEid == remote ==>
               if direction == Outbound then !ix.param.OutboundRateLimit? else !ix.param.InboundRateLimit?
    ensures var peers' := Administer(lib, now, c, signer, ix).value.peers;
            remote in peers' && LimiterOf(peers'[remote], direction) == LimiterOf(c.peers[remote], direction)
  {
  }

  /** One step consumes the limiter by what it sends, returns what it receives, and earns with the clock. */
  ghost predicate StepFlows(m: Mesh, step: Step, eid: u32, remote: u32, direction: Direction)
    requires HasLimiter(m, eid, remote, direction)
  {
    var m' := Exec(m, step);
    && HasLimiter(m', eid, remote, direction)
    && Flows(TheLimiter(m, eid, remote, direction), TheLimiter(m', eid, remote, direction), m.now, m'.now,
             Amount(m, step, eid, Used(direction, remote)), Amount(m, step, eid, Returned(direction, remote)))
  }

  /** What happened to the peer, for a chain that moved without the clock. */
  lemma FlowOfPeer(m: Mesh, step: Step, eid: u32, remote: u32, direction: Direction, moved: Direction, amount: u64)
    requires HasLimiter(m, eid, remote, direction) && PeerOk(m.chains[eid].peers[remote], m.now)
    requires Throttle(m.chains[eid].peers[remote], moved, m.now, amount).Ok?
    requires Exec(m, step).now == m.now && eid in Exec(m, step).chains && remote in Exec(m, step).chains[eid].peers
    requires Exec(m, step).chains[eid].peers[remote]
             == Throttle(m.chains[eid].peers[remote], moved, m.now, amount).value
    requires Amount(m, step, eid, Used(moved, remote)) == amount && Amount(m, step, eid, Returned(moved, remote)) == 0
    ensures StepFlows(m, step, eid, remote, direction)
  {
    ThrottleFlows(m.chains[eid].peers[remote], moved, m.now, amount, direction);
  }

  lemma FlowOfNothing(m: Mesh, step: Step, eid: u32, remote: u32, direction: Direction)
    requires HasLimiter(m, eid, remote, direction)
    requires Exec(m, step).now == m.now && eid in Exec(m, step).chains && remote in Exec(m, step).chains[eid].peers
    requires LimiterOf(Exec(m, step).chains[eid].peers[remote], direction)
             == LimiterOf(m.chains[eid].peers[remote], direction)
    requires Amount(m, step, eid, SentTo(remote)) == 0 && Amount(m, step, eid, ReceivedFrom(remote)) == 0
    ensures StepFlows(m, step, eid, remote, direction)
  {
  }

  lemma PeerInOrder(m: Mesh, eid: u32, remote: u32)
    requires MeshOk(m) && eid in m.chains && remote in m.chains[eid].peers
    ensures PeerOk(m.chains[eid].peers[remote], m.now) && m.chains[eid].store.ld2sdRate >= 1
  {
    assert Placed(m, eid);
  }

  lemma FlowOfSend(m: Mesh, step: Step, eid: u32, remote: u32, direction: Direction)
    requires MeshOk(m) && HasLimiter(m, eid, remote, direction)
    requires step.SendFrom? && step.eid == eid && SendIn(m, step).Ok?
    ensures StepFlows(m, step, eid, remote, direction)
  {
    hide Send, LzReceive, Administer, Throttle, StepFlows, MeshOk, PeerOk;
    PeerInOrder(m, eid, remote);
    SendDispatches(m.lib, m.now, m.chains[eid], step.signer, step.send);
    if step.send.dstEid == remote {
      FlowOfPeer(m, step, eid, remote, direction, Outbound, SendIn(m, step).value.amounts.receivedLd);
    } else {
      FlowOfNothing(m, step, eid, remote, direction);
    }
  }

  lemma FlowOfDelivery(m: Mesh, step: Step, eid: u32, remote: u32, direction: Direction)
    requires MeshOk(m) && HasLimiter(m, eid, remote, direction)
    requires step.DeliverTo? && step.eid == eid && DeliverIn(m, step).Ok?
    ensures StepFlows(m, step, eid, remote, direction)
  {
    hide Send, LzReceive, Administer, Throttle, StepFlows, MeshOk, PeerOk;
    PeerInOrder(m, eid, remote);
    LzReceiveDelivers(m.now, m.chains[eid], step.delivery, step.toAddress, step.mintAuthority,
                      PacketFor(m, eid, step.delivery) in m.inFlight);
    if step.delivery.srcEid == remote {
      FlowOfPeer(m, step, eid, remote, direction, Inbound, DeliverIn(m, step).value.amountLd);
    } else {
      FlowOfNothing(m, step, eid, remote, direction);
    }
  }

  lemma FlowOfGovern(m: Mesh, step: Step, eid: u32, remote: u32, direction: Direction)
    requires HasLimiter(m, eid, remote, direction) && LeavesLimiter(step, eid, remote, direction)
    requires step.Govern? && step.eid == eid
    ensures StepFlows(m, step, eid, remote, direction)
  {
    if Administer(m.lib, m.now, m.chains[eid], step.signer, step.ix).Ok? {
      AdministerLeaves(m.lib, m.now, m.chains[eid], step.signer, step.ix, remote, direction);
    }
    FlowOfNothing(m, step, eid, remote, direction);
  }

  lemma FlowOfWait(m: Mesh, seconds: nat, eid: u32, remote: u32, direction: Direction)
    requires MeshOk(m) && HasLimiter(m, eid, remote, direction)
    ensures StepFlows(m, Wait(seconds), eid, remote, direction)
  {
    hide Send, LzReceive, Administer, MeshOk;
    PeerInOrder(m, eid, remote);
    if m.now + seconds <= U64_MAX {
      AvailableOverTime(TheLimiter(m, eid, remote, direction), m.now, m.now + seconds);
    }
  }

  /** A step that is no instruction on this chain, or one that fails, leaves the chain's peers alone. */
  lemma PeersUntouched(m: Mesh, step: Step, eid: u32)
    requires eid in m.chains && !step.Wait? && !(step.Govern? && step.eid == eid)
    requires step.SendFrom? && step.eid == eid ==> SendIn(m, step).Err?
    requires step.DeliverTo? && step.eid == eid ==> DeliverIn(m, step).Err?
    ensures Exec(m, step).now == m.now
    ensures eid in Exec(m, step).chains && Exec(m, step).chains[eid].peers == m.chains[eid].peers
  {
    hide Send, LzReceive, Administer;
  }

  lemma NoTraffic(m: Mesh, step: Step, eid: u32, remote: u32)
    requires eid in m.chains
    requires step.SendFrom? && step.eid == eid ==> SendIn(m, step).Err?
    requires step.DeliverTo? && step.eid == eid ==> DeliverIn(m, step).Err?
    ensures Amount(m, step, eid, SentTo(remote)) == 0 && Amount(m, step, eid, ReceivedFrom(remote)) == 0
  {
  }

  lemma FlowStep(m: Mesh, step: Step, eid: u32, remote: u32, direction: Direction)
    requires MeshOk(m) && HasLimiter(m, eid, remote, direction)
    requires LeavesLimiter(step, eid, remote, direction)
    ensures StepFlows(m, step, eid, remote, direction)
  {
    hide Exec, Amount, Send, LzReceive, Flows;
    if step.Wait? {
      FlowOfWait(m, step.seconds, eid, remote, direction);
    } else if step.SendFrom? && step.eid == eid && SendIn(m, step).Ok? {
      FlowOfSend(m, step, eid, remote, direction);
    } else if step.DeliverTo? && step.eid == eid && DeliverIn(m, step).Ok? {
      FlowOfDelivery(m, step, eid, remote, direction);
    } else if step.Govern? && step.eid == eid {
      FlowOfGovern(m, step, eid, remote, direction);
    } else {
      PeersUntouched(m, step, eid);
      NoTraffic(m, step, eid, remote);
      FlowOfNothing(m, step, eid, remote, direction);
    }
  }

  lemma FlowsThen(l: Limiter, l': Limiter, now: u64, mid: u64, end: u64, used: int, returned: int, rest: int)
    requires Flows(l, l', now, mid, used, returned) && mid <= end
    requires rest <= l'.Available(mid) + (end - mid) * l'.refillPerSecond
    ensures now <= end
    ensures used - returned + rest <= l.Available(now) + (end - now) * l.refillPerSecond
  {
    var rate := l.refillPerSecond;
    assert (end - now) * rate == (end - mid) * rate + (mid - now) * rate;
  }

  lemma {:induction false} FlowRun(m: Mesh, steps: seq<Step>, eid: u32, remote: u32, direction: Direction)
    requires MeshOk(m) && HasLimiter(m, eid, remote, direction)
    requires forall s | s in steps :: LeavesLimiter(s, eid, remote, direction)
    ensures var m', l := Run(m, steps), TheLimiter(m, eid, remote, direction);
            && m.now <= m'.now
            && Total(m, steps, eid, Used(direction, remote)) - Total(m, steps, eid, Returned(direction, remote))
               <= l.Available(m.now) + (m'.now - m.now) * l.refillPerSecond
    decreases steps
  {
    hide Exec, Amount, MeshOk, Flows;
    if steps == [] {
    } else {
      var next := Exec(m, steps[0]);
      FlowStep(m, steps[0], eid, remote, direction);
      StepKeeps(m, steps[0]);
      FlowRun(next, steps[1..], eid, remote, direction);
      var used, returned := Used(direction, remote), Returned(direction, remote);
      FlowsThen(TheLimiter(m, eid, remote, direction), TheLimiter(next, eid, remote, direction),
                m.now, next.now, Run(m, steps).now,
                Amount(m, steps[0], eid, used), Amount(m, steps[0], eid, returned),
                Total(next, steps[1..], eid, used) - Total(next, steps[1..], eid, returned));
    }
  }

  /** From any reachable state on, however sends and receives interleave and whatever else happens: while a
      limiter is not reconfigured, what flows in its direction less what flows back is at most its capacity
      plus what it earns in the time that passes. */
  lemma NetFlowBound(
    directory: map<u32, Pubkey>, lib: OptionsLib, start: u64, before: seq<Step>,
    steps: seq<Step>, eid: u32, remote: u32, direction: Direction)
    requires HasLimiter(Run(Genesis(directory, lib, start), before), eid, remote, direction)
    requires forall s | s in steps :: LeavesLimiter(s, eid, remote, direction)
    ensures var m := Run(Genesis(directory, lib, start), before);
            var m', l := Run(m, steps), TheLimiter(m, eid, remote, direction);
            Total(m, steps, eid, Used(direction, remote)) - Total(m, steps, eid, Returned(direction, remote))
            <= l.capacity + (m'.now - m.now) * l.refillPerSecond
  {
    hide Exec, MeshOk;
    ReachableOk(directory, lib, start, before);
    FlowRun(Run(Genesis(directory, lib, start), before), steps, eid, remote, direction);
  }

  // ---- What the limiter never admits ----

  lemma RateIsFixed(m: Mesh, step: Step, eid: u32)
    requires eid in m.chains
    ensures eid in Exec(m, step).chains
    ensures Exec(m, step).chains[eid].store.ld2sdRate == m.chains[eid].store.ld2sdRate
  {
    hide Send, LzReceive, Administer;
    var c := m.chains[eid];
    if step.SendFrom? && step.eid == eid && SendIn(m, step).Ok? {
      SendKeepsRate(m.lib, m.now, c, step.signer, step.send);
    } else if step.DeliverTo? && step.eid == eid && DeliverIn(m, step).Ok? {
      LzReceiveKeepsRate(m.now, c, step.delivery, step.toAddress, step.mintAuthority,
                         PacketFor(m, eid, step.delivery) in m.inFlight);
    } else if step.Govern? && step.eid == eid && Administer(m.lib, m.now, c, step.signer, step.ix).Ok? {
      AdministerKeepsRate(m.lib, m.now, c, step.signer, step.ix);
    }
  }

  lemma {:induction false} SettingsPersist(m: Mesh, steps: seq<Step>, eid: u32, remote: u32, direction: Direction)
    requires MeshOk(m) && HasLimiter(m, eid, remote, direction)
    requires forall s | s in steps :: LeavesLimiter(s, eid, remote, direction)
    ensures var m' := Run(m, steps);
            && MeshOk(m')
            && HasLimiter(m', eid, remote, direction)
            && TheLimiter(m', eid, remote, direction).capacity == TheLimiter(m, eid, remote, direction).capacity
            && m'.chains[eid].store.ld2sdRate == m.chains[eid].store.ld2sdRate
    decreases steps
  {
    hide Exec, Amount, MeshOk;
    if steps == [] {
    } else {
      FlowStep(m, steps[0], eid, remote, direction);
      StepKeeps(m, steps[0]);
      RateIsFixed(m, steps[0], eid);
      SettingsPersist(Exec(m, steps[0]), steps[1..], eid, remote, direction);
    }
  }

  /** While its peer's inbound limiter is not reconfigured, a message worth more than the capacity is never
      delivered, on any chain, whatever else happens. */
  lemma AboveCapacityIsNeverDelivered(
    directory: map<u32, Pubkey>, lib: OptionsLib, start: u64, before: seq<Step>, steps: seq<Step>, step: Step)
    requires step.DeliverTo?
    requires var m, src := Run(Genesis(directory, lib, start), before), step.delivery.srcEid;
             && HasLimiter(m, step.eid, src, Inbound)
             && TheLimiter(m, step.eid, src, Inbound).capacity < Due(m.chains[step.eid].store.ld2sdRate, step)
    requires forall s | s in steps :: LeavesLimiter(s, step.eid, step.delivery.srcEid, Inbound)
    ensures var m' := Run(Run(Genesis(directory, lib, start), before), steps);
            step.eid in m'.chains && DeliverIn(m', step).Err?
  {
    hide Exec, MeshOk;
    ReachableOk(directory, lib, start, before);
    var m := Run(Genesis(directory, lib, start), before);
    var m' := Run(m, steps);
    SettingsPersist(m, steps, step.eid, step.delivery.srcEid, Inbound);
    PeerInOrder(m', step.eid, step.delivery.srcEid);
    if DeliverIn(m', step).Ok? {
      var c := m'.chains[step.eid];
      LzReceiveDelivers(m'.now, c, step.delivery, step.toAddress, step.mintAuthority,
                        PacketFor(m', step.eid, step.delivery) in m'.inFlight);
      ThrottleEffect(c.peers[step.delivery.srcEid], Inbound, m'.now, DeliverIn(m', step).value.amountLd);
      assert false;
    }
  }
}
