/** LayerZero payload framing: a 32-byte length header in front of the payload. */
module MsgCodec {
  import opened Outcome
  import opened Bytes

  const PAYLOAD_OFFSET := 32

  function Framed(payload: Bytes): Bytes {
    Zeros(28) + ToBE(|payload| % 0x1_0000_0000, 4) + payload
  }

  method WrapLzPayload(payload: Bytes) returns (msg: Bytes)
    ensures msg == Framed(payload)
  {
    msg := Zeros(28);
    msg := msg + ToBE(|payload| % 0x1_0000_0000, 4);
    msg := msg + payload;
  }

  /** The last four header bytes, big endian; the first 28 are not looked at. */
  function DecodePayloadLen(buf: Bytes): Result<nat> {
    if |buf| < PAYLOAD_OFFSET then Err(InvalidLength) else Ok(BE32(buf[28..32]))
  }

  /** Strip the header. Bytes after the declared payload are ignored. */
  function UnwrapLzPayload(buf: Bytes): Result<Bytes> {
    var len :- DecodePayloadLen(buf);
    if PAYLOAD_OFFSET + len > |buf| then Err(BodyTooShort)
    else Ok(buf[PAYLOAD_OFFSET..PAYLOAD_OFFSET + len])
  }

  /** Whatever follows a framed payload, unwrapping gives back exactly the payload. */
  lemma UnwrapFramed(payload: Bytes, suffix: Bytes)
    requires |payload| < 0x1_0000_0000
    ensures UnwrapLzPayload(Framed(payload) + suffix) == Ok(payload)
  {
    var buf := Framed(payload) + suffix;
    Spans();
    FromToBE(|payload|, 4);
    assert buf[28..32] == ToBE(|payload|, 4);
    assert buf[32..32 + |payload|] == payload;
  }

  /** What unwraps is framed as it was exactly when the unread header bytes are zero. */
  lemma FramedUnwrap(buf: Bytes)
    requires UnwrapLzPayload(buf).Ok?
    ensures var payload := UnwrapLzPayload(buf).value;
            |payload| <= |buf| - 32 && (Framed(payload) == buf[..32 + |payload|] <==> buf[..28] == Zeros(28))
  {
    var payload := UnwrapLzPayload(buf).value;
    ToFromBE(buf[28..32]);
    SamePrefixIff(buf, buf[28..32], payload);
  }

  lemma SamePrefixIff(buf: Bytes, length: Bytes, payload: Bytes)
    requires |buf| >= 32 + |payload| && length == buf[28..32] && payload == buf[32..32 + |payload|]
    ensures Zeros(28) + length + payload == buf[..32 + |payload|] <==> buf[..28] == Zeros(28)
  {
    var head, framed := buf[..32 + |payload|], Zeros(28) + length + payload;
    assert head == buf[..28] + length + payload;
    assert head[..28] == buf[..28] && framed[..28] == Zeros(28);
  }

  /** The frame byte by byte: 28 zeros, the length big endian, the payload. */
  lemma FrameLayout(payload: Bytes)
    requires |payload| < 0x1_0000_0000
    ensures |Framed(payload)| == 32 + |payload| && Framed(payload)[32..] == payload
    ensures forall i :: 0 <= i < 28 ==> Framed(payload)[i] == 0
    ensures FromBE(Framed(payload)[28..32]) == |payload|
  {
    Spans();
    FromToBE(|payload|, 4);
    assert Framed(payload)[28..32] == ToBE(|payload|, 4);
  }

  /** A frame is refused when the header is cut short, or declares more than follows it. */
  lemma UnwrapRefuses(buf: Bytes)
    ensures |buf| < 32 ==> UnwrapLzPayload(buf) == Err(InvalidLength)
    ensures |buf| >= 32 ==>
              UnwrapLzPayload(buf)
              == if 32 + FromBE(buf[28..32]) > |buf| then Err(BodyTooShort) else Ok(buf[32..32 + FromBE(buf[28..32])])
  {
  }
}
