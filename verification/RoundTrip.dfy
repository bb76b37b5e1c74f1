/** The bridge at work, from nothing: two stores are initialised and made each other's peers, any amount that both
    decimals can express crosses in full, and comes back in full. */
module RoundTrip {
  import opened Numbers
  import opened Wrappers
  import opened OftAmounts
  import opened Sums
  import opened OftProgram
  import opened ChainInvariant
  import opened Mesh
  import MsgCodec

  // ---- One crossing ----

  /** An open line to the store `key` on the chain `remote`: no pause, no limiters, no fees of any kind, and
      options that combine. */
  ghost predicate OpenLine(lib: OptionsLib, c: Chain, remote: u32, key: Pubkey) {
    && !c.store.paused
    && c.store.defaultFeeBps == 0
    && c.ledger.transferFee == None
    && remote in c.peers
    && var peer := c.peers[remote];
    && peer.peerAddress == key
    && peer.outbound == None && peer.inbound == None && peer.feeBps == None
    && lib.combine(peer.enforcedOptions.send, []).Some?
  }

  function SendOf(units: nat, rate: nat, dstEid: u32, to: Pubkey): (params: SendParams)
    requires units * rate <= U64_MAX
  {
    MulNonNegative(units, rate);
    SendParams(dstEid, to, units * rate, units * rate, [], None)
  }

  /** Without fees, whole shared units are charged and received as they are. */
  lemma FreeAmounts(c: Chain, units: nat, now: u64)
    requires ChainOk(c, now) && c.store.defaultFeeBps == 0 && c.ledger.transferFee == None
    requires units * c.store.ld2sdRate <= U64_MAX
    ensures 0 <= units * c.store.ld2sdRate
    ensures var amount := units * c.store.ld2sdRate;
            && ComputeFeeAndAdjustAmount(amount, c.store, None, None) == Ok(Amounts(amount, amount, 0))
            && c.store.Ld2Sd(amount) == units
  {
    MulNonNegative(units, c.store.ld2sdRate);
    AmountsClosedForm(units * c.store.ld2sdRate, c.store, None, None);
    hide ComputeFeeAndAdjustAmount;
    MultipleDivides(units, c.store.ld2sdRate);
  }

  lemma SendCrosses(
    lib: OptionsLib, now: u64, c: Chain, signer: Pubkey, units: nat, dstEid: u32, key: Pubkey, to: Pubkey)
    requires ChainOk(c, now) && OpenLine(lib, c, dstEid, key)
    requires units * c.store.ld2sdRate <= U64_MAX
    requires signer in c.ledger.wallets && units * c.store.ld2sdRate <= c.ledger.wallets[signer]
    ensures var r := Send(lib, now, c, signer, SendOf(units, c.store.ld2sdRate, dstEid, to));
            && units <= U64_MAX
            && r.Ok?
            && r.value.receiver == key
            && r.value.message == MsgCodec.Wire(to, units, signer, None)
            && OpenLine(lib, r.value.chain, dstEid, key)
            && r.value.chain.store.key == c.store.key
            && Moves(c, r.value.chain, now, units, 0)
            && r.value.chain.ledger.Balance(signer) == c.ledger.Balance(signer) - units * c.store.ld2sdRate
  {
    var params := SendOf(units, c.store.ld2sdRate, dstEid, to);
    hide Send, ComputeFeeAndAdjustAmount, MsgCodec.Wire, ChainOk;
    FreeAmounts(c, units, now);
    SendSucceedsIff(lib, now, c, signer, params);
    SendDispatches(lib, now, c, signer, params);
    var out := Send(lib, now, c, signer, params).value;
    SendEffect(now, c, signer, params, out);
    SendCharges(now, c, signer, params, out);
    SendFrame(now, c, signer, params, out);
  }

  /** The store can pay out so many units: it has locked them, or may mint them. */
  ghost predicate CanPay(c: Chain, units: nat) {
    && units * c.store.ld2sdRate <= U64_MAX
    && (c.store.oftType.Adapter? ==> units * c.store.ld2sdRate <= c.store.tvlLd)
    && (c.store.oftType.Native? ==>
          && c.ledger.mintAuthority == Some(c.store.key)
          && c.ledger.supply + units * c.store.ld2sdRate <= U64_MAX)
  }

  lemma DeliveryCrosses(
    lib: OptionsLib, now: u64, c: Chain, delivery: LzReceiveParams, signer: Pubkey, to: Pubkey, units: u64)
    requires ChainOk(c, now) && OpenLine(lib, c, delivery.srcEid, delivery.sender) && CanPay(c, units)
    requires delivery.message == MsgCodec.Wire(to, units, signer, None)
    ensures var r := LzReceive(now, c, delivery, to, c.ledger.mintAuthority, true);
            && r.Ok?
            && r.value.compose == None
            && OpenLine(lib, r.value.chain, delivery.srcEid, delivery.sender)
            && r.value.chain.store.key == c.store.key
            && Moves(c, r.value.chain, now, 0 - units, 0)
            && to in r.value.chain.ledger.wallets
            && r.value.chain.ledger.Balance(to) == c.ledger.Balance(to) + units * c.store.ld2sdRate
  {
    hide LzReceive, MsgCodec.Wire, ChainOk, MsgCodec.SendTo, MsgCodec.AmountSd;
    MsgCodec.DecodeEncode(to, units, signer, None);
    DeliverySucceedsIff(now, c, delivery, to, c.ledger.mintAuthority, true);
    LzReceiveDelivers(now, c, delivery, to, c.ledger.mintAuthority, true);
    var out := LzReceive(now, c, delivery, to, c.ledger.mintAuthority, true).value;
    LzReceiveEffect(now, c, delivery, to, c.ledger.mintAuthority, out);
    LzReceiveFrame(now, c, delivery, to, c.ledger.mintAuthority, out);
  }

  /** One crossing: who sends how much where, to whom. */
  datatype Crossing = Crossing(src: u32, dst: u32, signer: Pubkey, to: Pubkey, units: u64, nonce: u64, guid: Bytes32)

  /** Two chains with an open line between them. */
  ghost predicate Linked(m: Mesh, e: u32, d: u32) {
    && e != d && e in m.chains && d in m.chains
    && OpenLine(m.lib, m.chains[e], d, m.chains[d].store.key)
    && OpenLine(m.lib, m.chains[d], e, m.chains[e].store.key)
  }

  /** The signer has the funds, and the destination can pay. */
  ghost predicate CanCross(m: Mesh, x: Crossing) {
    && Linked(m, x.src, x.dst)
    && var c := m.chains[x.src];
    && x.units * c.store.ld2sdRate <= U64_MAX
    && x.signer in c.ledger.wallets && x.units * c.store.ld2sdRate <= c.ledger.wallets[x.signer]
    && CanPay(m.chains[x.dst], x.units)
  }

  /** A send and the delivery of its message. */
  function StepsOf(x: Crossing, source: Chain, dest: Chain): seq<Step>
    requires x.units * source.store.ld2sdRate <= U64_MAX
  {
    [ SendFrom(x.src, x.signer, SendOf(x.units, source.store.ld2sdRate, x.dst, x.to), x.nonce, x.guid),
      DeliverTo(x.dst, LzReceiveParams(x.src, source.store.key, x.nonce, x.guid,
                                       MsgCodec.Wire(x.to, x.units, x.signer, None)),
                x.to, dest.ledger.mintAuthority) ]
  }

  lemma RunTwo(m: Mesh, s: Step, t: Step)
    ensures Run(m, [s, t]) == Exec(Exec(m, s), t)
  {
    assert [s, t][1..] == [t] && [t][1..] == [];
    assert Run(Exec(m, s), [t]) == Run(Exec(Exec(m, s), t), []);
  }

  lemma BothPlaced(m: Mesh, e: u32, d: u32)
    requires MeshOk(m) && e in m.chains && d in m.chains
    ensures Placed(m, e) && Placed(m, d)
  {
  }

  /** In any state of the mesh in order, such a crossing takes place: the two chains stay linked, nothing is left
      in flight, so many units leave one net position and enter the other, and the balances follow. */
  lemma Crosses(m: Mesh, x: Crossing)
    requires MeshOk(m) && CanCross(m, x)
    ensures var m' := Run(m, StepsOf(x, m.chains[x.src], m.chains[x.dst]));
            && MeshOk(m') && m'.now == m.now && m'.inFlight == m.inFlight
            && Linked(m', x.src, x.dst)
            && ChainOk(m.chains[x.src], m.now) && ChainOk(m.chains[x.dst], m.now)
            && Moves(m.chains[x.src], m'.chains[x.src], m.now, x.units, 0)
            && Moves(m.chains[x.dst], m'.chains[x.dst], m.now, 0 - x.units, 0)
            && m'.chains[x.src].ledger.Balance(x.signer)
               == m.chains[x.src].ledger.Balance(x.signer) - x.units * m.chains[x.src].store.ld2sdRate
            && x.to in m'.chains[x.dst].ledger.wallets
            && m'.chains[x.dst].ledger.Balance(x.to)
               == m.chains[x.dst].ledger.Balance(x.to) + x.units * m.chains[x.dst].store.ld2sdRate
  {
    hide Send, LzReceive, MsgCodec.Wire, Moves, OpenLine, CanPay, MeshOk;
    BothPlaced(m, x.src, x.dst);
    var source, dest := m.chains[x.src], m.chains[x.dst];
    var steps := StepsOf(x, source, dest);
    RunTwo(m, steps[0], steps[1]);
    SendCrosses(m.lib, m.now, source, x.signer, x.units, x.dst, dest.store.key, x.to);
    StepKeeps(m, steps[0]);
    var m1 := Exec(m, steps[0]);
    DeliveryCrosses(m.lib, m.now, dest, steps[1].delivery, x.signer, x.to, x.units);
    StepKeeps(m1, steps[1]);
  }

  // ---- From nothing, there and back ----

  /** Two members, an adapter for an existing token and a native store whose token it may mint, neither with a
      transfer fee, and options that combine when none are enforced or given. */
  datatype Opening = Opening(
    adapter: u32, adapterParams: InitParams, adapterLedger: Ledger,
    native: u32, nativeParams: InitParams, nativeLedger: Ledger)
  {
    ghost predicate Valid(directory: map<u32, Pubkey>, lib: OptionsLib) {
      && adapter != native
      && IsMember(directory, adapter, adapterParams.key) && IsMember(directory, native, nativeParams.key)
      && adapterParams.oftType == Adapter && nativeParams.oftType == Native
      && adapterParams.sharedDecimals <= adapterParams.mintDecimals <= adapterParams.sharedDecimals + 19
      && nativeParams.sharedDecimals <= nativeParams.mintDecimals <= nativeParams.sharedDecimals + 19
      && adapterLedger.Balanced() && adapterLedger.escrow == 0 && adapterLedger.transferFee == None
      && nativeLedger.Balanced() && nativeLedger.supply == 0 && nativeLedger.escrow == 0
      && nativeLedger.burntOutside == 0 && nativeLedger.transferFee == None
      && nativeLedger.mintAuthority == Some(nativeParams.key)
      && lib.combine([], []).Some?
    }

    /** Both initialisations, and each administrator naming the other store. */
    function Steps(): seq<Step> {
      [ Init(adapter, adapterParams, adapterLedger),
        Init(native, nativeParams, nativeLedger),
        Govern(adapter, adapterParams.admin, SetPeerConfig(native, PeerAddress(nativeParams.key))),
        Govern(native, nativeParams.admin, SetPeerConfig(adapter, PeerAddress(adapterParams.key))) ]
    }
  }

  lemma RunFour(m: Mesh, steps: seq<Step>)
    requires |steps| == 4
    ensures Run(m, steps) == Exec(Exec(Exec(Exec(m, steps[0]), steps[1]), steps[2]), steps[3])
  {
    hide Exec;
    RunTwo(Exec(Exec(m, steps[0]), steps[1]), steps[2], steps[3]);
    assert steps[1..][1..] == [steps[2], steps[3]];
  }

  /** A member's store appears, as its parameters say. */
  lemma InitAppears(m: Mesh, eid: u32, params: InitParams, ledger: Ledger)
    requires Allowed(m, Init(eid, params, ledger))
    requires params.sharedDecimals <= params.mintDecimals <= params.sharedDecimals + 19
    ensures InitOft(params).Ok?
    ensures Exec(m, Init(eid, params, ledger))
            == m.(chains := m.chains[eid := Chain(InitOft(params).value, map[], ledger)])
  {
    InitSucceedsIff(params);
  }

  /** An administrator gives a new peer its address. */
  lemma PeerAppears(m: Mesh, eid: u32, remote: u32, address: Bytes32)
    requires eid in m.chains && remote !in m.chains[eid].peers
    requires TrustedPeer(m.directory, remote, address)
    ensures var c := m.chains[eid];
            var peer := PeerConfig(address, EnforcedOptions([], []), None, None, None);
            Exec(m, Govern(eid, c.store.admin, SetPeerConfig(remote, PeerAddress(address))))
            == Replace(m, eid, c.(peers := c.peers[remote := peer]))
  {
  }

  lemma Opens(directory: map<u32, Pubkey>, lib: OptionsLib, start: u64, o: Opening)
    requires o.Valid(directory, lib)
    ensures InitOft(o.adapterParams).Ok? && InitOft(o.nativeParams).Ok?
    ensures var m := Run(Genesis(directory, lib, start), o.Steps());
            && m.lib == lib && m.directory == directory && m.inFlight == multiset{}
            && m.chains.Keys == {o.adapter, o.native}
            && Linked(m, o.adapter, o.native)
            && m.chains[o.adapter].ledger == o.adapterLedger
            && m.chains[o.adapter].store == InitOft(o.adapterParams).value
            && m.chains[o.native].ledger == o.nativeLedger
            && m.chains[o.native].store == InitOft(o.nativeParams).value
  {
    var m := Genesis(directory, lib, start);
    RunFour(m, o.Steps());
    InitAppears(m, o.adapter, o.adapterParams, o.adapterLedger);
    var m1 := Exec(m, o.Steps()[0]);
    InitAppears(m1, o.native, o.nativeParams, o.nativeLedger);
    var m2 := Exec(m1, o.Steps()[1]);
    PeerAppears(m2, o.adapter, o.native, o.nativeParams.key);
    var m3 := Exec(m2, o.Steps()[2]);
    PeerAppears(m3, o.native, o.adapter, o.adapterParams.key);
    hide Exec, Run;
  }

  /** A crossing to the native chain, and the same units back. */
  ghost predicate ThereThenBack(o: Opening, there: Crossing, back: Crossing) {
    && there.src == o.adapter && there.dst == o.native
    && back.src == o.native && back.dst == o.adapter
    && back.signer == there.to && back.to == there.signer && back.units == there.units
  }

  /** The adapter has locked exactly the units of its net position. */
  lemma LockedIsNet(c: Chain, now: u64)
    requires ChainOk(c, now) && c.store.oftType.Adapter?
    ensures Net(c) == Locked(c) && Locked(c) * c.store.ld2sdRate == c.store.tvlLd
  {
  }

  lemma OpeningIsEmpty(o: Opening, m: Mesh, directory: map<u32, Pubkey>, lib: OptionsLib)
    requires o.Valid(directory, lib) && InitOft(o.adapterParams).Ok? && InitOft(o.nativeParams).Ok?
    requires o.adapter in m.chains && o.native in m.chains
    requires m.chains[o.adapter].ledger == o.adapterLedger
    requires m.chains[o.adapter].store == InitOft(o.adapterParams).value
    requires m.chains[o.native].ledger == o.nativeLedger
    requires m.chains[o.native].store == InitOft(o.nativeParams).value
    requires ChainOk(m.chains[o.adapter], m.now) && ChainOk(m.chains[o.native], m.now)
    ensures Net(m.chains[o.adapter]) == 0 && Net(m.chains[o.native]) == 0
    ensures m.chains[o.adapter].store.oftType.Adapter? && m.chains[o.native].store.oftType.Native?
    ensures forall owner: Pubkey :: o.nativeLedger.Balance(owner) == 0
  {
    forall owner: Pubkey
      ensures o.nativeLedger.Balance(owner) == 0
    {
      WalletWithinSupply(o.nativeLedger, owner);
    }
  }

  /** From nothing: once both stores are open, whoever holds the token can send any number of shared units that
      fits both decimals. The recipient gets all of them, exactly they are locked and issued, and when the
      recipient sends them back the holder has the original balance and nothing is locked, issued or in flight. */
  lemma ThereAndBack(
    directory: map<u32, Pubkey>, lib: OptionsLib, start: u64, o: Opening, there: Crossing, back: Crossing)
    requires o.Valid(directory, lib) && ThereThenBack(o, there, back)
    requires there.units * Pow(10, o.nativeParams.mintDecimals - o.nativeParams.sharedDecimals) <= U64_MAX
    requires there.signer in o.adapterLedger.wallets
    requires there.units * Pow(10, o.adapterParams.mintDecimals - o.adapterParams.sharedDecimals)
             <= o.adapterLedger.wallets[there.signer]
    ensures var m0 := Run(Genesis(directory, lib, start), o.Steps());
            && CanCross(m0, there)
            && var m1 := Run(m0, StepsOf(there, m0.chains[o.adapter], m0.chains[o.native]));
            && CanCross(m1, back)
            && var a1, n1 := m1.chains[o.adapter], m1.chains[o.native];
            && a1.store.ld2sdRate >= 1 && n1.store.ld2sdRate >= 1
            && Locked(a1) == Issued(n1) == there.units
            && n1.ledger.Balance(there.to) == there.units * n1.store.ld2sdRate
            && a1.ledger.Balance(there.signer)
               == o.adapterLedger.wallets[there.signer] - there.units * a1.store.ld2sdRate
            && var m2 := Run(m1, StepsOf(back, n1, a1));
            && o.adapter in m2.chains && o.native in m2.chains
            && var a2, n2 := m2.chains[o.adapter], m2.chains[o.native];
            && a2.store.ld2sdRate >= 1 && n2.store.ld2sdRate >= 1
            && Locked(a2) == Issued(n2) == 0
            && n2.ledger.Balance(there.to) == 0
            && a2.ledger.Balance(there.signer) == o.adapterLedger.wallets[there.signer]
            && m2.inFlight == multiset{}
  {
    hide Run, OpenLine, MeshOk, MsgCodec.Wire;
    Opens(directory, lib, start, o);
    ReachableOk(directory, lib, start, o.Steps());
    var m0 := Run(Genesis(directory, lib, start), o.Steps());
    BothPlaced(m0, o.adapter, o.native);
    OpeningIsEmpty(o, m0, directory, lib);
    hide InitOft, Sum;
    Crosses(m0, there);
    var m1 := Run(m0, StepsOf(there, m0.chains[o.adapter], m0.chains[o.native]));
    LockedIsNet(m1.chains[o.adapter], m1.now);
    Crosses(m1, back);
  }
}
