/** The EVM wrapper keeps outbound and inbound rate limits in one mapping, inbound ones under shifted endpoint
    ids. This module proves that the shift behaves as two separate mappings. The operations of the rate-limiter
    library and of the token are parameters, and so is the outcome of the debit preview: they are not defined in
    this repository. */
module EvmWrapper {
  import opened Numbers
  import opened Wrappers

  const INBOUND_EID_OFFSET := 1_000_000_000
  const U32_MAX := 0xffff_ffff

  datatype RateLimit = RateLimit(amountInFlight: nat, lastUpdated: nat, limit: nat, window: nat)

  const UNSET := RateLimit(0, 0, 0, 0)

  datatype RateLimitConfig = RateLimitConfig(dstEid: u32, limit: nat, window: nat)

  type RateLimitMap = map<u32, RateLimit>

  /** The state of the token. */
  datatype Token = Token(supply: nat, balances: map<Bytes, nat>)

  /** What the libraries do. To one rate-limit slot: `outflow` may refuse an amount, `configure` stores new
      settings. To the token: `decreaseSupply` and `increaseSupply` may refuse too. */
  datatype Libraries = Libraries(
    outflow: (RateLimit, nat, nat) -> Option<RateLimit>,
    configure: (RateLimit, nat, nat, nat) -> RateLimit,
    decreaseSupply: (Token, Bytes, nat) -> Option<Token>,
    increaseSupply: (Token, Bytes, nat) -> Option<Token>)

  /** A slot that was never written reads as zero. */
  function Slot(limits: RateLimitMap, eid: u32): RateLimit {
    if eid in limits then limits[eid] else UNSET
  }

  function Outflow(lib: Libraries, limits: RateLimitMap, eid: u32, amount: nat, now: nat): Option<RateLimitMap> {
    match lib.outflow(Slot(limits, eid), amount, now)
    case None => None
    case Some(slot) => Some(limits[eid := slot])
  }

  function SetRateLimits(lib: Libraries, limits: RateLimitMap, configs: seq<RateLimitConfig>, now: nat): RateLimitMap
    decreases configs
  {
    if configs == [] then limits
    else
      var config := configs[0];
      var slot := lib.configure(Slot(limits, config.dstEid), config.limit, config.window, now);
      SetRateLimits(lib, limits[config.dstEid := slot], configs[1..], now)
  }

  /** What a list of configurations makes of the slot of `eid`: those for `eid` are stored one after the other. */
  ghost function Configured(lib: Libraries, slot: RateLimit, configs: seq<RateLimitConfig>, eid: u32, now: nat)
    : RateLimit
  {
    if configs == [] then slot else
    var last := configs[|configs| - 1];
    var before := Configured(lib, slot, configs[..|configs| - 1], eid, now);
    if last.dstEid == eid then lib.configure(before, last.limit, last.window, now) else before
  }

  lemma {:induction false} SetRateLimitsAppend(
    lib: Libraries, limits: RateLimitMap, configs: seq<RateLimitConfig>, last: RateLimitConfig, now: nat)
    ensures var before := SetRateLimits(lib, limits, configs, now);
            SetRateLimits(lib, limits, configs + [last], now)
            == before[last.dstEid := lib.configure(Slot(before, last.dstEid), last.limit, last.window, now)]
    decreases configs
  {
    if configs == [] {
      assert SetRateLimits(lib, limits, [last], now)
          == limits[last.dstEid := lib.configure(Slot(limits, last.dstEid), last.limit, last.window, now)];
    } else {
      var c := configs[0];
      var slot := lib.configure(Slot(limits, c.dstEid), c.limit, c.window, now);
      assert (configs + [last])[1..] == configs[1..] + [last];
      SetRateLimitsAppend(lib, limits[c.dstEid := slot], configs[1..], last, now);
    }
  }

  /** Every configuration of a list is stored, in order, and no other slot is touched. */
  lemma {:induction false} SetRateLimitsStoresAll(
    lib: Libraries, limits: RateLimitMap, configs: seq<RateLimitConfig>, eid: u32, now: nat)
    ensures Slot(SetRateLimits(lib, limits, configs, now), eid) == Configured(lib, Slot(limits, eid), configs, eid, now)
    ensures (forall c | c in configs :: c.dstEid != eid) ==>
              Slot(SetRateLimits(lib, limits, configs, now), eid) == Slot(limits, eid)
    decreases configs
  {
    if configs != [] {
      var init, last := configs[..|configs| - 1], configs[|configs| - 1];
      assert configs == init + [last];
      SetRateLimitsStoresAll(lib, limits, init, eid, now);
      SetRateLimitsAppend(lib, limits, init, last, now);
    }
  }

  // ---- The reference: two mappings ----

  datatype Operation =
    | SetOutbound(configs: seq<RateLimitConfig>)
    | SetInbound(configs: seq<RateLimitConfig>)
    | Debit(from: Bytes, amountSentLd: nat, dstEid: u32)
    | Credit(to: Bytes, amountLd: nat, srcEid: u32)

  datatype TwoMaps = TwoMaps(outbound: RateLimitMap, inbound: RateLimitMap, token: Token)

  /** Inbound ids that do not overflow when shifted. */
  predicate InboundId(eid: u32) {
    eid + INBOUND_EID_OFFSET <= U32_MAX
  }

  predicate InboundIds(configs: seq<RateLimitConfig>) {
    forall c | c in configs :: InboundId(c.dstEid)
  }

  /** `None` is a revert. */
  function OnTwoMaps(lib: Libraries, t: TwoMaps, op: Operation, now: nat): Option<TwoMaps> {
    match op
    case SetOutbound(configs) => Some(t.(outbound := SetRateLimits(lib, t.outbound, configs, now)))
    case SetInbound(configs) =>
      if InboundIds(configs) then Some(t.(inbound := SetRateLimits(lib, t.inbound, configs, now))) else None
    case Debit(from, amount, dstEid) =>
      var outbound, token := Outflow(lib, t.outbound, dstEid, amount, now), lib.decreaseSupply(t.token, from, amount);
      if outbound.None? || token.None? then None
      else Some(t.(outbound := outbound.value, token := token.value))
    case Credit(to, amount, srcEid) =>
      if !InboundId(srcEid) then None else
      var inbound, token := Outflow(lib, t.inbound, srcEid, amount, now), lib.increaseSupply(t.token, to, amount);
      if inbound.None? || token.None? then None
      else Some(t.(inbound := inbound.value, token := token.value))
  }

  // ---- The contract: one mapping ----

  datatype OneMap = OneMap(rateLimits: RateLimitMap, token: Token)

  function Shifted(config: RateLimitConfig): RateLimitConfig
    requires InboundId(config.dstEid)
  {
    config.(dstEid := config.dstEid + INBOUND_EID_OFFSET)
  }

  function ShiftAll(configs: seq<RateLimitConfig>): seq<RateLimitConfig>
    requires InboundIds(configs)
  {
    seq(|configs|, i requires 0 <= i < |configs| => Shifted(configs[i]))
  }

  function OnOneMap(lib: Libraries, s: OneMap, op: Operation, now: nat): Option<OneMap> {
    match op
    case SetOutbound(configs) => Some(s.(rateLimits := SetRateLimits(lib, s.rateLimits, configs, now)))
    case SetInbound(configs) =>
      if InboundIds(configs) then Some(s.(rateLimits := SetRateLimits(lib, s.rateLimits, ShiftAll(configs), now)))
      else None
    case Debit(from, amount, dstEid) =>
      var limits, token := Outflow(lib, s.rateLimits, dstEid, amount, now), lib.decreaseSupply(s.token, from, amount);
      if limits.None? || token.None? then None
      else Some(OneMap(limits.value, token.value))
    case Credit(to, amount, srcEid) =>
      if !InboundId(srcEid) then None else
      var limits := Outflow(lib, s.rateLimits, srcEid + INBOUND_EID_OFFSET, amount, now);
      var token := lib.increaseSupply(s.token, to, amount);
      if limits.None? || token.None? then None
      else Some(OneMap(limits.value, token.value))
  }

  /** The contract itself. A revert leaves the state as it was. */
  class OftWrapper {
    var rateLimits: RateLimitMap
    var token: Token

    function State(): OneMap
      reads this
    {
      OneMap(rateLimits, token)
    }

    constructor (token: Token)
      ensures State() == OneMap(map[], token)
    {
      rateLimits, this.token := map[], token;
    }

    method SetOutboundRateLimits(lib: Libraries, configs: seq<RateLimitConfig>, now: nat) returns (ok: bool)
      modifies this`rateLimits
      ensures ok && OnOneMap(lib, old(State()), SetOutbound(configs), now) == Some(State())
    {
      rateLimits := SetRateLimits(lib, rateLimits, configs, now);
      ok := true;
    }

    /** Copies the configurations with shifted ids, then stores them; the addition is checked. */
    method SetInboundRateLimits(lib: Libraries, configs: seq<RateLimitConfig>, now: nat) returns (ok: bool)
      modifies this`rateLimits
      ensures match OnOneMap(lib, old(State()), SetInbound(configs), now)
              case Some(after) => ok && State() == after
              case None => !ok && State() == old(State())
    {
      var offsetConfigs := new RateLimitConfig[|configs|](_ => RateLimitConfig(0, 0, 0));
      for i := 0 to |configs|
        modifies offsetConfigs
        invariant forall k | 0 <= k < i :: InboundId(configs[k].dstEid) && offsetConfigs[k] == Shifted(configs[k])
      {
        if configs[i].dstEid + INBOUND_EID_OFFSET > U32_MAX {
          assert configs[i] in configs;
          return false;
        }
        offsetConfigs[i] :=
          RateLimitConfig(configs[i].dstEid + INBOUND_EID_OFFSET, configs[i].limit, configs[i].window);
      }
      assert offsetConfigs[..] == ShiftAll(configs);
      rateLimits := SetRateLimits(lib, rateLimits, offsetConfigs[..], now);
      ok := true;
    }

    method Debit(lib: Libraries, from: Bytes, amountSentLd: nat, dstEid: u32, now: nat) returns (ok: bool)
      modifies this
      ensures match OnOneMap(lib, old(State()), Operation.Debit(from, amountSentLd, dstEid), now)
              case Some(after) => ok && State() == after
              case None => !ok && State() == old(State())
    {
      var before := rateLimits;
      var limits := Outflow(lib, rateLimits, dstEid, amountSentLd, now);
      if limits.None? {
        return false;
      }
      rateLimits := limits.value;
      var burnt := lib.decreaseSupply(token, from, amountSentLd);
      if burnt.None? {
        rateLimits := before;
        return false;
      }
      token := burnt.value;
      return true;
    }

    method Credit(lib: Libraries, to: Bytes, amountLd: nat, srcEid: u32, now: nat) returns (ok: bool)
      modifies this
      ensures match OnOneMap(lib, old(State()), Operation.Credit(to, amountLd, srcEid), now)
              case Some(after) => ok && State() == after
              case None => !ok && State() == old(State())
    {
      if srcEid + INBOUND_EID_OFFSET > U32_MAX {
        return false;
      }
      var before := rateLimits;
      var limits := Outflow(lib, rateLimits, srcEid + INBOUND_EID_OFFSET, amountLd, now);
      if limits.None? {
        return false;
      }
      rateLimits := limits.value;
      var minted := lib.increaseSupply(token, to, amountLd);
      if minted.None? {
        rateLimits := before;
        return false;
      }
      token := minted.value;
      return true;
    }

    /** The inbound view of the contract, from which `getAmountCanBeReceived` is computed too. */
    function InboundRateLimits(srcEid: u32): Option<RateLimit>
      reads this
    {
      InboundView(rateLimits, srcEid)
    }
  }

  function InboundView(limits: RateLimitMap, srcEid: u32): Option<RateLimit> {
    if InboundId(srcEid) then Some(Slot(limits, srcEid + INBOUND_EID_OFFSET)) else None
  }

  lemma {:induction false} ConfiguredShifted(
    lib: Libraries, slot: RateLimit, configs: seq<RateLimitConfig>, eid: u32, now: nat)
    requires InboundIds(configs) && InboundId(eid)
    ensures Configured(lib, slot, ShiftAll(configs), eid + INBOUND_EID_OFFSET, now)
            == Configured(lib, slot, configs, eid, now)
    decreases configs
  {
    if configs != [] {
      var init := configs[..|configs| - 1];
      assert ShiftAll(configs)[..|configs| - 1] == ShiftAll(init);
      ConfiguredShifted(lib, slot, init, eid, now);
    }
  }

  /** Outbound limits are always stored, each under its own id. Inbound limits are stored exactly when every id
      leaves room for the shift, each under its id plus a thousand million, and then no slot below that is
      touched. */
  lemma SettingMeaning(lib: Libraries, s: OneMap, configs: seq<RateLimitConfig>, now: nat, eid: u32)
    ensures var r := OnOneMap(lib, s, SetOutbound(configs), now);
            && r.Some? && r.value.token == s.token
            && Slot(r.value.rateLimits, eid) == Configured(lib, Slot(s.rateLimits, eid), configs, eid, now)
    ensures var r := OnOneMap(lib, s, SetInbound(configs), now);
            && (r.Some? <==> forall c | c in configs :: c.dstEid <= 3_294_967_295)
            && (r.Some? ==>
                  && r.value.token == s.token
                  && (eid < 1_000_000_000 ==> Slot(r.value.rateLimits, eid) == Slot(s.rateLimits, eid))
                  && (eid >= 1_000_000_000 ==>
                        Slot(r.value.rateLimits, eid)
                        == Configured(lib, Slot(s.rateLimits, eid), configs, eid - 1_000_000_000, now)))
  {
    SetRateLimitsStoresAll(lib, s.rateLimits, configs, eid, now);
    if InboundIds(configs) {
      SetRateLimitsStoresAll(lib, s.rateLimits, ShiftAll(configs), eid, now);
      if eid >= INBOUND_EID_OFFSET {
        ConfiguredShifted(lib, Slot(s.rateLimits, eid), configs, eid - INBOUND_EID_OFFSET, now);
      }
    }
  }

  /** A debit, on the slot of its own id, and a credit, on the slot of its id plus a thousand million, go through
      exactly when the limiter and the token accept; they then store what the limiter and the token answered and
      touch no other slot. */
  lemma TransferMeaning(lib: Libraries, s: OneMap, op: Operation, now: nat)
    requires op.Debit? || op.Credit?
    ensures var shifted := if op.Debit? then op.dstEid else op.srcEid + 1_000_000_000;
            var moved := if op.Debit? then lib.decreaseSupply(s.token, op.from, op.amountSentLd)
                         else lib.increaseSupply(s.token, op.to, op.amountLd);
            var amount := if op.Debit? then op.amountSentLd else op.amountLd;
            var r := OnOneMap(lib, s, op, now);
            if shifted >= 4_294_967_296 then r == None
            else
              var used := lib.outflow(Slot(s.rateLimits, shifted), amount, now);
              && (r.Some? <==> used.Some? && moved.Some?)
              && (r.Some? ==>
                    && Some(r.value.token) == moved
                    && Some(Slot(r.value.rateLimits, shifted)) == used
                    && forall e: u32 | e != shifted :: Slot(r.value.rateLimits, e) == Slot(s.rateLimits, e))
  {
  }

  // ---- One mapping refines two ----

  /** The one mapping shows both: outbound slots below the offset, inbound slots above it. */
  ghost predicate Splits(limits: RateLimitMap, outbound: RateLimitMap, inbound: RateLimitMap) {
    && (forall e: u32 | e < INBOUND_EID_OFFSET :: Slot(limits, e) == Slot(outbound, e))
    && (forall e: u32 | InboundId(e) :: Slot(limits, e + INBOUND_EID_OFFSET) == Slot(inbound, e))
  }

  lemma SplitsOutbound(limits: RateLimitMap, outbound: RateLimitMap, inbound: RateLimitMap, eid: u32, slot: RateLimit)
    requires Splits(limits, outbound, inbound) && eid < INBOUND_EID_OFFSET
    ensures Splits(limits[eid := slot], outbound[eid := slot], inbound)
  {
    var limits', outbound' := limits[eid := slot], outbound[eid := slot];
    forall e: u32 | e < INBOUND_EID_OFFSET
      ensures Slot(limits', e) == Slot(outbound', e)
    {
      assert Slot(limits, e) == Slot(outbound, e);
    }
    forall e: u32 | InboundId(e)
      ensures Slot(limits', e + INBOUND_EID_OFFSET) == Slot(inbound, e)
    {
      assert Slot(limits, e + INBOUND_EID_OFFSET) == Slot(inbound, e);
    }
  }

  lemma SplitsInbound(limits: RateLimitMap, outbound: RateLimitMap, inbound: RateLimitMap, eid: u32, slot: RateLimit)
    requires Splits(limits, outbound, inbound) && InboundId(eid)
    ensures Splits(limits[eid + INBOUND_EID_OFFSET := slot], outbound, inbound[eid := slot])
  {
    var limits', inbound' := limits[eid + INBOUND_EID_OFFSET := slot], inbound[eid := slot];
    forall e: u32 | InboundId(e)
      ensures Slot(limits', e + INBOUND_EID_OFFSET) == Slot(inbound', e)
    {
      assert Slot(limits, e + INBOUND_EID_OFFSET) == Slot(inbound, e);
    }
  }

  lemma {:induction false} SetOutboundSplits(
    lib: Libraries, limits: RateLimitMap, outbound: RateLimitMap, inbound: RateLimitMap,
    configs: seq<RateLimitConfig>, now: nat)
    requires Splits(limits, outbound, inbound)
    requires forall c | c in configs :: c.dstEid < INBOUND_EID_OFFSET
    ensures Splits(SetRateLimits(lib, limits, configs, now), SetRateLimits(lib, outbound, configs, now), inbound)
    decreases configs
  {
    if configs == [] {
    } else {
      var c := configs[0];
      var slot := lib.configure(Slot(limits, c.dstEid), c.limit, c.window, now);
      assert c in configs;
      SplitsOutbound(limits, outbound, inbound, c.dstEid, slot);
      SetOutboundSplits(lib, limits[c.dstEid := slot], outbound[c.dstEid := slot], inbound, configs[1..], now);
    }
  }

  lemma {:induction false} SetInboundSplits(
    lib: Libraries, limits: RateLimitMap, outbound: RateLimitMap, inbound: RateLimitMap,
    configs: seq<RateLimitConfig>, now: nat)
    requires Splits(limits, outbound, inbound) && InboundIds(configs)
    ensures Splits(SetRateLimits(lib, limits, ShiftAll(configs), now), outbound,
                   SetRateLimits(lib, inbound, configs, now))
    decreases configs
  {
    if configs == [] {
    } else {
      var c := configs[0];
      assert c in configs;
      var key := c.dstEid + INBOUND_EID_OFFSET;
      assert Slot(limits, key) == Slot(inbound, c.dstEid);
      var slot := lib.configure(Slot(inbound, c.dstEid), c.limit, c.window, now);
      SplitsInbound(limits, outbound, inbound, c.dstEid, slot);
      assert ShiftAll(configs)[1..] == ShiftAll(configs[1..]);
      SetInboundSplits(lib, limits[key := slot], outbound, inbound[c.dstEid := slot], configs[1..], now);
    }
  }

  /** Outbound ids stay below the offset; inbound ids are free. */
  predicate OutboundIdsBelowOffset(op: Operation) {
    match op
    case SetOutbound(configs) => forall c | c in configs :: c.dstEid < INBOUND_EID_OFFSET
    case Debit(_, _, dstEid) => dstEid < INBOUND_EID_OFFSET
    case _ => true
  }

  ghost predicate Refines(s: OneMap, t: TwoMaps) {
    s.token == t.token && Splits(s.rateLimits, t.outbound, t.inbound)
  }

  /** One operation reverts on one mapping exactly when it reverts on two, and otherwise keeps the relation. */
  lemma OperationRefines(lib: Libraries, s: OneMap, t: TwoMaps, op: Operation, now: nat)
    requires Refines(s, t) && OutboundIdsBelowOffset(op)
    ensures OnOneMap(lib, s, op, now).Some? <==> OnTwoMaps(lib, t, op, now).Some?
    ensures OnOneMap(lib, s, op, now).Some? ==> Refines(OnOneMap(lib, s, op, now).value, OnTwoMaps(lib, t, op, now).value)
  {
    match op
    case SetOutbound(configs) =>
      SetOutboundSplits(lib, s.rateLimits, t.outbound, t.inbound, configs, now);
    case SetInbound(configs) =>
      if InboundIds(configs) {
        SetInboundSplits(lib, s.rateLimits, t.outbound, t.inbound, configs, now);
      }
    case Debit(_, amount, dstEid) =>
      var slot := lib.outflow(Slot(s.rateLimits, dstEid), amount, now);
      if slot.Some? {
        SplitsOutbound(s.rateLimits, t.outbound, t.inbound, dstEid, slot.value);
      }
    case Credit(_, amount, srcEid) =>
      if InboundId(srcEid) {
        assert Slot(s.rateLimits, srcEid + INBOUND_EID_OFFSET) == Slot(t.inbound, srcEid);
        var slot := lib.outflow(Slot(t.inbound, srcEid), amount, now);
        if slot.Some? {
          SplitsInbound(s.rateLimits, t.outbound, t.inbound, srcEid, slot.value);
        }
      }
  }

  datatype Timed = Timed(op: Operation, now: nat)

  /** Runs give the final state and, for every operation, whether it reverted. */
  ghost function RunOne(lib: Libraries, s: OneMap, ops: seq<Timed>): (OneMap, seq<bool>)
    decreases ops
  {
    if ops == [] then (s, []) else
    var next := OnOneMap(lib, s, ops[0].op, ops[0].now);
    var rest := RunOne(lib, if next.Some? then next.value else s, ops[1..]);
    (rest.0, [next.Some?] + rest.1)
  }

  ghost function RunTwo(lib: Libraries, t: TwoMaps, ops: seq<Timed>): (TwoMaps, seq<bool>)
    decreases ops
  {
    if ops == [] then (t, []) else
    var next := OnTwoMaps(lib, t, ops[0].op, ops[0].now);
    var rest := RunTwo(lib, if next.Some? then next.value else t, ops[1..]);
    (rest.0, [next.Some?] + rest.1)
  }

  lemma {:induction false} RunRefines(lib: Libraries, s: OneMap, t: TwoMaps, ops: seq<Timed>)
    requires Refines(s, t)
    requires forall o | o in ops :: OutboundIdsBelowOffset(o.op)
    ensures Refines(RunOne(lib, s, ops).0, RunTwo(lib, t, ops).0)
    ensures RunOne(lib, s, ops).1 == RunTwo(lib, t, ops).1
    decreases ops
  {
    if ops == [] {
    } else {
      assert ops[0] in ops;
      OperationRefines(lib, s, t, ops[0].op, ops[0].now);
      var s', t' := OnOneMap(lib, s, ops[0].op, ops[0].now), OnTwoMaps(lib, t, ops[0].op, ops[0].now);
      RunRefines(lib, if s'.Some? then s'.value else s, if t'.Some? then t'.value else t, ops[1..]);
    }
  }

  /** From deployment on, for every limiter library and every sequence of operations whose outbound ids are below
      a thousand million: the contract reverts exactly where two separate mappings would, moves the same tokens,
      and every outbound and inbound view reads the same. */
  lemma OneMapRefinesTwo(lib: Libraries, token: Token, ops: seq<Timed>)
    requires forall o | o in ops ::
               && (o.op.SetOutbound? ==> forall c | c in o.op.configs :: c.dstEid < 1_000_000_000)
               && (o.op.Debit? ==> o.op.dstEid < 1_000_000_000)
    ensures var (s, reverts) := RunOne(lib, OneMap(map[], token), ops);
            var (t, reverts') := RunTwo(lib, TwoMaps(map[], map[], token), ops);
            && reverts == reverts'
            && s.token == t.token
            && (forall e: u32 | e < 1_000_000_000 :: Slot(s.rateLimits, e) == Slot(t.outbound, e))
            && (forall e: u32 | e <= 3_294_967_295 :: InboundView(s.rateLimits, e) == Some(Slot(t.inbound, e)))
            && (forall e: u32 | e > 3_294_967_295 :: InboundView(s.rateLimits, e) == None)
  {
    assert INBOUND_EID_OFFSET == 1_000_000_000;
    RunRefines(lib, OneMap(map[], token), TwoMaps(map[], map[], token), ops);
  }

  // ---- Exactly which outbound ids are safe ----

  /** An outbound operation on `eid`: a new limit, or a debit. */
  predicate OutboundOn(op: Operation, eid: u32) {
    (op.SetOutbound? && |op.configs| == 1 && op.configs[0].dstEid == eid) || (op.Debit? && op.dstEid == eid)
  }

  /** The operation never shows in any inbound view, from any state. */
  ghost predicate LeavesInboundAlone(lib: Libraries, op: Operation) {
    forall s: OneMap, now: nat, src: u32 ::
      OnOneMap(lib, s, op, now).Some? ==>
        InboundView(OnOneMap(lib, s, op, now).value.rateLimits, src) == InboundView(s.rateLimits, src)
  }

  lemma SetOne(lib: Libraries, limits: RateLimitMap, config: RateLimitConfig, now: nat)
    ensures SetRateLimits(lib, limits, [config], now)
            == limits[config.dstEid := lib.configure(Slot(limits, config.dstEid), config.limit, config.window, now)]
  {
    var slot := lib.configure(Slot(limits, config.dstEid), config.limit, config.window, now);
    assert SetRateLimits(lib, limits[config.dstEid := slot], [], now) == limits[config.dstEid := slot];
  }

  /** Below the offset every outbound operation leaves every inbound view alone. */
  lemma IsolatedBelowOffset(lib: Libraries, op: Operation, eid: u32)
    requires OutboundOn(op, eid) && eid < INBOUND_EID_OFFSET
    ensures LeavesInboundAlone(lib, op)
  {
    forall s: OneMap, now: nat, src: u32 | OnOneMap(lib, s, op, now).Some?
      ensures InboundView(OnOneMap(lib, s, op, now).value.rateLimits, src) == InboundView(s.rateLimits, src)
    {
      if op.SetOutbound? {
        assert op.configs == [op.configs[0]];
        SetOne(lib, s.rateLimits, op.configs[0], now);
      }
    }
  }

  /** A new outbound limit above zero, stored by the library, leaves every inbound view alone exactly when its id
      is below the offset; from the offset on it overwrites an inbound slot. */
  lemma LimitIsolatedIffBelowOffset(lib: Libraries, config: RateLimitConfig)
    requires config.limit > 0
    requires lib.configure(UNSET, config.limit, config.window, 0).limit == config.limit
    ensures LeavesInboundAlone(lib, SetOutbound([config])) <==> config.dstEid < INBOUND_EID_OFFSET
  {
    var op := SetOutbound([config]);
    if config.dstEid < INBOUND_EID_OFFSET {
      IsolatedBelowOffset(lib, op, config.dstEid);
    } else {
      var s, src := OneMap(map[], Token(0, map[])), config.dstEid - INBOUND_EID_OFFSET;
      SetOne(lib, map[], config, 0);
      assert InboundView(OnOneMap(lib, s, op, 0).value.rateLimits, src) != InboundView(s.rateLimits, src);
    }
  }

  /** A debit that the libraries accept somewhere, and that changes the slot it consumes, leaves every inbound
      view alone exactly when its id is below the offset; from the offset on it consumes an inbound slot. */
  lemma DebitIsolatedIffBelowOffset(
    lib: Libraries, from: Bytes, amount: nat, eid: u32, slot: RateLimit, token: Token, now: nat)
    requires lib.outflow(slot, amount, now).Some? && lib.outflow(slot, amount, now).value != slot
    requires lib.decreaseSupply(token, from, amount).Some?
    ensures LeavesInboundAlone(lib, Debit(from, amount, eid)) <==> eid < INBOUND_EID_OFFSET
  {
    var op := Debit(from, amount, eid);
    if eid < INBOUND_EID_OFFSET {
      IsolatedBelowOffset(lib, op, eid);
    } else {
      var s, src := OneMap(map[eid := slot], token), eid - INBOUND_EID_OFFSET;
      assert InboundView(OnOneMap(lib, s, op, now).value.rateLimits, src) != InboundView(s.rateLimits, src);
    }
  }
}
