/** Big-endian integers, as `to_be_bytes` and `from_be_bytes` write and read them. */
module BigEndian {
  import opened Numbers

  function ToBe(n: nat, width: nat): (bytes: Bytes)
    ensures |bytes| == width
    decreases width
  {
    if width == 0 then [] else ToBe(n / 256, width - 1) + [n % 256]
  }

  function FromBe(bytes: Bytes): nat {
    if bytes == [] then 0 else FromBe(bytes[..|bytes| - 1]) * 256 + bytes[|bytes| - 1]
  }

  /** Byte `i` holds the digit of weight 256 to the power `width - 1 - i`: the most significant comes first. */
  lemma {:induction false} ToBeDigit(n: nat, width: nat, i: nat)
    requires i < width
    ensures Pow(256, width - 1 - i) > 0
    ensures ToBe(n, width)[i] == n / Pow(256, width - 1 - i) % 256
    decreases width
  {
    if i < width - 1 {
      ToBeDigit(n / 256, width - 1, i);
      QuotientOfQuotient(n, 256, Pow(256, width - 2 - i));
    }
  }

  lemma {:induction false} FromToBe(n: nat, width: nat)
    requires n < Pow(256, width)
    ensures FromBe(ToBe(n, width)) == n
    decreases width
  {
    if width == 0 {
    } else {
      var bytes := ToBe(n, width);
      assert bytes[..width - 1] == ToBe(n / 256, width - 1);
      FromToBe(n / 256, width - 1);
    }
  }

  lemma {:induction false} ToFromBe(bytes: Bytes)
    ensures FromBe(bytes) < Pow(256, |bytes|)
    ensures ToBe(FromBe(bytes), |bytes|) == bytes
  {
    if bytes == [] {
    } else {
      ToFromBe(bytes[..|bytes| - 1]);
      var high, low := FromBe(bytes[..|bytes| - 1]), bytes[|bytes| - 1];
      assert FromBe(bytes) / 256 == high && FromBe(bytes) % 256 == low;
    }
  }

  lemma Widths()
    ensures Pow(256, 4) == 0x1_0000_0000
    ensures Pow(256, 8) == U64_SIZE
  {
    assert Pow(256, 4) == 0x1_0000_0000;
  }
}

/** The message that crosses chains: recipient, amount in shared decimals, then optionally the sender and
    the payload of a composed call. */
module MsgCodec {
  import opened Numbers
  import opened Wrappers
  import opened BigEndian

  const SEND_TO_OFFSET := 0
  const SEND_AMOUNT_SD_OFFSET := 32
  const COMPOSE_MSG_OFFSET := 40

  function Wire(sendTo: Bytes32, amountSd: u64, sender: Pubkey, composeMsg: Option<Bytes>): Bytes {
    if composeMsg.Some? then sendTo + ToBe(amountSd, 8) + sender + composeMsg.value
    else sendTo + ToBe(amountSd, 8)
  }

  method Encode(sendTo: Bytes32, amountSd: u64, sender: Pubkey, composeMsg: Option<Bytes>)
    returns (encoded: Bytes)
    ensures encoded == Wire(sendTo, amountSd, sender, composeMsg)
  {
    if composeMsg.Some? {
      encoded := sendTo;
      encoded := encoded + ToBe(amountSd, 8);
      encoded := encoded + sender;
      encoded := encoded + composeMsg.value;
    } else {
      encoded := sendTo;
      encoded := encoded + ToBe(amountSd, 8);
    }
  }

  /** `None` is the panic of a slice out of range, here and in `AmountSd`. */
  function SendTo(message: Bytes): Option<Bytes32> {
    if |message| < SEND_AMOUNT_SD_OFFSET then None
    else Some(message[SEND_TO_OFFSET..SEND_AMOUNT_SD_OFFSET])
  }

  function AmountSd(message: Bytes): Option<u64> {
    if |message| < COMPOSE_MSG_OFFSET then None
    else
      var field := message[SEND_AMOUNT_SD_OFFSET..COMPOSE_MSG_OFFSET];
      ToFromBe(field);
      Widths();
      Some(FromBe(field))
  }

  function ComposeMsg(message: Bytes): Option<Bytes> {
    if |message| > COMPOSE_MSG_OFFSET then Some(message[COMPOSE_MSG_OFFSET..]) else None
  }

  /** The fixed part, whatever follows it. */
  lemma HeadRoundTrip(sendTo: Bytes32, amountSd: u64, tail: Bytes)
    ensures var message := sendTo + ToBe(amountSd, 8) + tail;
            && |message| == 40 + |tail|
            && SendTo(message) == Some(sendTo)
            && AmountSd(message) == Some(amountSd)
            && message[40..] == tail
  {
    hide FromBe, ToBe;
    var message := sendTo + ToBe(amountSd, 8) + tail;
    Widths();
    assert message[0..32] == sendTo;
    assert message[32..40] == ToBe(amountSd, 8);
    FromToBe(amountSd, 8);
  }

  /** The layout of a message, and that everything `lz_receive` reads from it is what `send` wrote into it. */
  lemma DecodeEncode(sendTo: Bytes32, amountSd: u64, sender: Pubkey, composeMsg: Option<Bytes>)
    ensures var message := Wire(sendTo, amountSd, sender, composeMsg);
            && |message| == (if composeMsg.Some? then 72 + |composeMsg.value| else 40)
            && message[..32] == sendTo
            && message[32..40] == ToBe(amountSd, 8)
            && (composeMsg.Some? ==> message[40..72] == sender && message[72..] == composeMsg.value)
            && SendTo(message) == Some(sendTo)
            && AmountSd(message) == Some(amountSd)
            && ComposeMsg(message) == (if composeMsg.Some? then Some(sender + composeMsg.value) else None)
  {
    hide SendTo, AmountSd;
    var message, head := Wire(sendTo, amountSd, sender, composeMsg), sendTo + ToBe(amountSd, 8);
    var tail := if composeMsg.Some? then sender + composeMsg.value else [];
    assert message == head + tail;
    assert message[32..40] == head[32..];
    HeadRoundTrip(sendTo, amountSd, tail);
  }

  /** Reading any bytes at all: each field needs its own bytes and no more, and is what it would be written as. */
  lemma ReadsOf(message: Bytes)
    ensures SendTo(message) == (if |message| >= 32 then Some(message[..32]) else None)
    ensures AmountSd(message).Some? <==> |message| >= 40
    ensures AmountSd(message).Some? ==> ToBe(AmountSd(message).value, 8) == message[32..40]
    ensures ComposeMsg(message) == (if |message| > 40 then Some(message[40..]) else None)
  {
    if |message| >= 40 {
      ToFromBe(message[32..40]);
    }
  }

  /** Byte strings that `Wire` can produce. */
  predicate WellFormed(message: Bytes) {
    |message| == 40 || |message| >= 72
  }

  /** The sender and payload of a well-formed composed message. */
  ghost function ComposeParts(message: Bytes): Option<(Pubkey, Bytes)>
    requires WellFormed(message)
  {
    if |message| == 40 then None else Some((message[40..72], message[72..]))
  }

  /** Two messages with equal bytes agree in every field; the sender is part of the bytes exactly when there
      is a composed payload, and no payload is not an empty payload. */
  lemma EncodeIsInjective(
    to1: Bytes32, amount1: u64, sender1: Pubkey, compose1: Option<Bytes>,
    to2: Bytes32, amount2: u64, sender2: Pubkey, compose2: Option<Bytes>)
    ensures Wire(to1, amount1, sender1, compose1) == Wire(to2, amount2, sender2, compose2)
            <==> to1 == to2 && amount1 == amount2 && compose1 == compose2 && (compose1.Some? ==> sender1 == sender2)
  {
    DecodeEncode(to1, amount1, sender1, compose1);
    DecodeEncode(to2, amount2, sender2, compose2);
    if Wire(to1, amount1, sender1, compose1) == Wire(to2, amount2, sender2, compose2) && compose1.Some? {
      var tail := sender1 + compose1.value;
      assert tail[..32] == sender1 && tail[32..] == compose1.value;
      assert (sender2 + compose2.value)[..32] == sender2 && (sender2 + compose2.value)[32..] == compose2.value;
    }
  }

  /** Every well-formed byte string is the encoding of what it decodes to, so the format is exactly the range
      of the encoder. */
  lemma EncodeDecode(message: Bytes, anySender: Pubkey)
    ensures WellFormed(message) ==>
              var parts := ComposeParts(message);
              && SendTo(message).Some? && AmountSd(message).Some?
              && message == Wire(SendTo(message).value, AmountSd(message).value,
                                 if parts.Some? then parts.value.0 else anySender,
                                 if parts.Some? then Some(parts.value.1) else None)
    ensures !WellFormed(message) ==>
              forall to: Bytes32, amount: u64, sender: Pubkey, compose: Option<Bytes> ::
                Wire(to, amount, sender, compose) != message
  {
    if WellFormed(message) {
      ToFromBe(message[32..40]);
      assert message == message[0..32] + message[32..40] + message[40..];
      assert |message| >= 72 ==> message[40..] == message[40..72] + message[72..];
    } else {
      forall to: Bytes32, amount: u64, sender: Pubkey, compose: Option<Bytes>
        ensures Wire(to, amount, sender, compose) != message
      {
        DecodeEncode(to, amount, sender, compose);
      }
    }
  }
}

/** The message handed to a composed call: nonce, source endpoint, credited amount, then the sender and the
    payload taken over from the wire message. */
module ComposeMsgCodec {
  import opened Numbers
  import opened Wrappers
  import opened BigEndian
  import MsgCodec

  const NONCE_OFFSET := 0
  const SRC_EID_OFFSET := 8
  const AMOUNT_LD_OFFSET := 12
  const COMPOSE_FROM_OFFSET := 20
  const COMPOSE_MSG_OFFSET := 52

  function Wire(nonce: u64, srcEid: u32, amountLd: u64, composeMsg: Bytes): Bytes {
    ToBe(nonce, 8) + ToBe(srcEid, 4) + ToBe(amountLd, 8) + composeMsg
  }

  method Encode(nonce: u64, srcEid: u32, amountLd: u64, composeMsg: Bytes) returns (encoded: Bytes)
    ensures encoded == Wire(nonce, srcEid, amountLd, composeMsg)
  {
    encoded := ToBe(nonce, 8);
    encoded := encoded + ToBe(srcEid, 4);
    encoded := encoded + ToBe(amountLd, 8);
    encoded := encoded + composeMsg;
  }

  /** A fixed-width field; `None` is the panic of a slice out of range. */
  function Field(message: Bytes, start: nat, end: nat): Option<nat>
    requires start <= end
  {
    if |message| < end then None else Some(FromBe(message[start..end]))
  }

  function Nonce(message: Bytes): Option<nat> {
    Field(message, NONCE_OFFSET, SRC_EID_OFFSET)
  }

  function SrcEid(message: Bytes): Option<nat> {
    Field(message, SRC_EID_OFFSET, AMOUNT_LD_OFFSET)
  }

  function AmountLd(message: Bytes): Option<nat> {
    Field(message, AMOUNT_LD_OFFSET, COMPOSE_FROM_OFFSET)
  }

  function ComposeFrom(message: Bytes): Option<Bytes32> {
    if |message| < COMPOSE_MSG_OFFSET then None else Some(message[COMPOSE_FROM_OFFSET..COMPOSE_MSG_OFFSET])
  }

  function ComposeMsg(message: Bytes): Bytes {
    if |message| > COMPOSE_MSG_OFFSET then message[COMPOSE_MSG_OFFSET..] else []
  }

  /** The slices of a concatenation are its parts. */
  lemma Parts(a: Bytes, b: Bytes, c: Bytes, d: Bytes)
    ensures var all := a + b + c + d;
            && all[..|a|] == a
            && all[|a|..|a| + |b|] == b
            && all[|a| + |b|..|a| + |b| + |c|] == c
            && all[|a| + |b| + |c|..] == d
  {
    var ab := a + b;
    var abc := ab + c;
    assert (abc + d)[..|abc|] == abc && (abc + d)[|abc|..] == d;
    assert abc[..|ab|] == ab && abc[|ab|..] == c;
    assert (abc + d)[|ab|..|abc|] == abc[|ab|..];
    assert (abc + d)[|a|..|ab|] == ab[|a|..];
  }

  /** The layout of a composed message; its fixed-width fields survive for any payload. */
  lemma HeaderRoundTrip(nonce: u64, srcEid: u32, amountLd: u64, payload: Bytes)
    ensures var composed := Wire(nonce, srcEid, amountLd, payload);
            && |composed| == 20 + |payload|
            && composed[..8] == ToBe(nonce, 8)
            && composed[8..12] == ToBe(srcEid, 4)
            && composed[12..20] == ToBe(amountLd, 8)
            && Nonce(composed) == Some(nonce)
            && SrcEid(composed) == Some(srcEid)
            && AmountLd(composed) == Some(amountLd)
            && composed[20..] == payload
  {
    hide FromBe, ToBe;
    Widths();
    Parts(ToBe(nonce, 8), ToBe(srcEid, 4), ToBe(amountLd, 8), payload);
    FromToBe(nonce, 8);
    FromToBe(srcEid, 4);
    FromToBe(amountLd, 8);
  }

  /** Reading any bytes at all: each field needs its own bytes and no more, and is what it would be written as. */
  lemma ReadsOf(message: Bytes)
    ensures Nonce(message).Some? <==> |message| >= 8
    ensures Nonce(message).Some? ==> ToBe(Nonce(message).value, 8) == message[..8]
    ensures SrcEid(message).Some? <==> |message| >= 12
    ensures SrcEid(message).Some? ==> ToBe(SrcEid(message).value, 4) == message[8..12]
    ensures AmountLd(message).Some? <==> |message| >= 20
    ensures AmountLd(message).Some? ==> ToBe(AmountLd(message).value, 8) == message[12..20]
    ensures ComposeFrom(message) == (if |message| >= 52 then Some(message[20..52]) else None)
    ensures |message| >= 52 ==> ComposeMsg(message) == message[52..]
    ensures |message| < 52 ==> ComposeMsg(message) == []
  {
    hide FromBe, ToBe;
    if |message| >= 8 {
      ToFromBe(message[..8]);
    }
    if |message| >= 12 {
      ToFromBe(message[8..12]);
    }
    if |message| >= 20 {
      ToFromBe(message[12..20]);
    }
  }

  /** From `send` to the composed call: whatever the recipient, amount, sender and payload (also an empty one),
      the sent message decodes, and re-encoding its tail gives a composed message from which the callee reads
      the nonce, the source endpoint, the credited amount, the original sender and the original payload. */
  lemma ComposePipeline(
    sendTo: Bytes32, amountSd: u64, sender: Pubkey, payload: Bytes, nonce: u64, srcEid: u32, creditedLd: u64)
    ensures var tail := MsgCodec.ComposeMsg(MsgCodec.Wire(sendTo, amountSd, sender, Some(payload)));
            && tail.Some?
            && var composed := Wire(nonce, srcEid, creditedLd, tail.value);
            && Nonce(composed) == Some(nonce)
            && SrcEid(composed) == Some(srcEid)
            && AmountLd(composed) == Some(creditedLd)
            && ComposeFrom(composed) == Some(sender)
            && ComposeMsg(composed) == payload
  {
    MsgCodec.DecodeEncode(sendTo, amountSd, sender, Some(payload));
    var tail := sender + payload;
    HeaderRoundTrip(nonce, srcEid, creditedLd, tail);
    var composed := Wire(nonce, srcEid, creditedLd, tail);
    assert composed[20..52] == composed[20..][..32] == sender;
    assert composed[52..] == composed[20..][32..] == payload;
  }
}
