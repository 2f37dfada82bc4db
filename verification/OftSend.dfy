/**
 * The data of an issuer's `send` instruction: discriminator, then Borsh. A builder that appends,
 * a parser that consumes, and the proof that they are inverse on every input.
 */
module OftSend {
  import opened Outcome
  import opened Bytes

  const OFT_SEND_DISCRIMINATOR: Bytes := [102, 251, 20, 187, 65, 75, 12, 69]

  /** A byte vector whose length Borsh can write in 32 bits. */
  type Blob = s: Bytes | |s| < 0x1_0000_0000

  datatype OftSendParams = OftSendParams(
    dstEid: u32,
    to: Pubkey,
    amountLd: u64,
    minAmountLd: u64,
    options: Blob,
    composeMsg: Option<Blob>,
    nativeFee: u64,
    lzTokenFee: u64
  )

  // ---------------------------------------------------------------- Borsh

  function BorshBlob(s: Blob): Bytes {
    ToLE(|s|, 4) + s
  }

  function BorshOption(o: Option<Blob>): Bytes {
    match o
    case None => [0]
    case Some(s) => [1] + BorshBlob(s)
  }

  function BorshHead(p: OftSendParams): Bytes {
    ToLE(p.dstEid, 4) + p.to + ToLE(p.amountLd, 8) + ToLE(p.minAmountLd, 8)
  }

  function BorshTail(p: OftSendParams): Bytes {
    BorshBlob(p.options) + BorshOption(p.composeMsg) + ToLE(p.nativeFee, 8) + ToLE(p.lzTokenFee, 8)
  }

  function SendBytes(p: OftSendParams): Bytes {
    OFT_SEND_DISCRIMINATOR + BorshHead(p) + BorshTail(p)
  }

  /** What a deserializer takes off the front of a slice, and the slice it leaves. */
  datatype Read<+T> = Read(value: T, rest: Bytes)

  function ReadBytes(s: Bytes, n: nat): Result<Read<Bytes>> {
    if |s| < n then Err(InvalidLength) else Ok(Read(s[..n], s[n..]))
  }

  function ReadU32(s: Bytes): Result<Read<u32>> {
    if |s| < 4 then Err(InvalidLength) else Ok(Read(U32At(s, 0), s[4..]))
  }

  function ReadU64(s: Bytes): Result<Read<u64>> {
    if |s| < 8 then Err(InvalidLength) else Ok(Read(U64At(s, 0), s[8..]))
  }

  function ReadBlob(s: Bytes): Result<Read<Blob>> {
    var length :- ReadU32(s);
    ReadBytes(length.rest, length.value)
  }

  /** Only the tags 0 and 1 are accepted. */
  function ReadOption(s: Bytes): Result<Read<Option<Blob>>> {
    if s == [] then Err(InvalidLength)
    else if s[0] == 0 then Ok(Read(None, s[1..]))
    else if s[0] == 1 then
      var blob :- ReadBlob(s[1..]);
      Ok(Read(Some(blob.value), blob.rest))
    else Err(InvalidLength)
  }

  datatype Head = Head(dstEid: u32, to: Pubkey, amountLd: u64, minAmountLd: u64)

  datatype Tail = Tail(options: Blob, composeMsg: Option<Blob>, nativeFee: u64, lzTokenFee: u64)

  function ReadHead(s: Bytes): Result<Read<Head>> {
    var dstEid :- ReadU32(s);
    var to :- ReadBytes(dstEid.rest, 32);
    var amountLd :- ReadU64(to.rest);
    var minAmountLd :- ReadU64(amountLd.rest);
    Ok(Read(Head(dstEid.value, to.value, amountLd.value, minAmountLd.value), minAmountLd.rest))
  }

  function ReadTail(s: Bytes): Result<Read<Tail>> {
    var options :- ReadBlob(s);
    var composeMsg :- ReadOption(options.rest);
    var nativeFee :- ReadU64(composeMsg.rest);
    var lzTokenFee :- ReadU64(nativeFee.rest);
    Ok(Read(Tail(options.value, composeMsg.value, nativeFee.value, lzTokenFee.value), lzTokenFee.rest))
  }

  /** `try_from_slice`: every byte must be consumed. */
  function ReadParams(s: Bytes): Result<OftSendParams> {
    var head :- ReadHead(s);
    var tail :- ReadTail(head.rest);
    if tail.rest != [] then Err(InvalidLength)
    else
      var h, t := head.value, tail.value;
      Ok(OftSendParams(h.dstEid, h.to, h.amountLd, h.minAmountLd, t.options, t.composeMsg, t.nativeFee, t.lzTokenFee))
  }

  function DecodeOftSend(data: Bytes): Option<OftSendParams> {
    if |data| < 8 || data[..8] != OFT_SEND_DISCRIMINATOR then None
    else
      match ReadParams(data[8..])
      case Ok(params) => Some(params)
      case Err(_) => None
  }

  /** The builder appends to a vector; no compose message and no LayerZero token fee. */
  method OftSendData(dstEid: u32, to: Pubkey, amountLd: u64, minAmountLd: u64, options: Bytes, nativeFee: u64)
    returns (r: Result<Bytes>)
    ensures |options| < 0x1_0000_0000 ==>
              r == Ok(SendBytes(OftSendParams(dstEid, to, amountLd, minAmountLd, options, None, nativeFee, 0)))
    ensures |options| >= 0x1_0000_0000 ==> r == Err(Panic)
  {
    var data := OFT_SEND_DISCRIMINATOR;
    data := data + ToLE(dstEid, 4);
    data := data + to;
    data := data + ToLE(amountLd, 8);
    data := data + ToLE(minAmountLd, 8);
    if |options| >= 0x1_0000_0000 {
      return Err(Panic);
    }
    ghost var p := OftSendParams(dstEid, to, amountLd, minAmountLd, options, None, nativeFee, 0);
    assert data == OFT_SEND_DISCRIMINATOR + BorshHead(p);
    var tail := ToLE(|options|, 4);
    tail := tail + options;
    tail := tail + [0];
    tail := tail + ToLE(nativeFee, 8);
    tail := tail + ToLE(0, 8);
    assert tail == BorshTail(p);
    return Ok(data + tail);
  }

  // ---------------------------------------------------------------- reading inverts writing, and back

  lemma U32Iff(s: Bytes, x: u32, rest: Bytes)
    ensures ReadU32(s) == Ok(Read(x, rest)) <==> s == ToLE(x, 4) + rest
  {
    Spans();
    if ReadU32(s) == Ok(Read(x, rest)) {
      ToFromLE(s[0..4]);
      assert s == s[0..4] + s[4..];
    }
    if s == ToLE(x, 4) + rest {
      FromToLE(x, 4);
      assert s[0..4] == ToLE(x, 4) && s[4..] == rest;
    }
  }

  lemma U64Iff(s: Bytes, x: u64, rest: Bytes)
    ensures ReadU64(s) == Ok(Read(x, rest)) <==> s == ToLE(x, 8) + rest
  {
    Spans();
    if ReadU64(s) == Ok(Read(x, rest)) {
      ToFromLE(s[0..8]);
      assert s == s[0..8] + s[8..];
    }
    if s == ToLE(x, 8) + rest {
      FromToLE(x, 8);
      assert s[0..8] == ToLE(x, 8) && s[8..] == rest;
    }
  }

  lemma BytesIff(s: Bytes, n: nat, x: Bytes, rest: Bytes)
    ensures ReadBytes(s, n) == Ok(Read(x, rest)) <==> |x| == n && s == x + rest
  {
    if |s| >= n {
      assert s == s[..n] + s[n..];
    }
  }

  lemma BlobIff(s: Bytes, x: Blob, rest: Bytes)
    ensures ReadBlob(s) == Ok(Read(x, rest)) <==> s == BorshBlob(x) + rest
  {
    if ReadBlob(s) == Ok(Read(x, rest)) {
      var length := ReadU32(s).value;
      BytesIff(length.rest, length.value, x, rest);
      U32Iff(s, length.value, length.rest);
      assert BorshBlob(x) + rest == ToLE(|x|, 4) + (x + rest);
    }
    if s == BorshBlob(x) + rest {
      assert s == ToLE(|x|, 4) + (x + rest);
      U32Iff(s, |x|, x + rest);
      BytesIff(x + rest, |x|, x, rest);
    }
  }

  lemma OptionIff(s: Bytes, x: Option<Blob>, rest: Bytes)
    ensures ReadOption(s) == Ok(Read(x, rest)) <==> s == BorshOption(x) + rest
  {
    if s != [] {
      assert s == [s[0]] + s[1..];
      match x
      case None =>
        assert s == [0] + rest ==> s[1..] == rest;
      case Some(blob) =>
        BlobIff(s[1..], blob, rest);
        assert BorshOption(x) + rest == [1] + (BorshBlob(blob) + rest);
        assert s == [1] + (BorshBlob(blob) + rest) ==> s[1..] == BorshBlob(blob) + rest;
    }
  }

  function HeadOf(p: OftSendParams): Head {
    Head(p.dstEid, p.to, p.amountLd, p.minAmountLd)
  }

  function TailOf(p: OftSendParams): Tail {
    Tail(p.options, p.composeMsg, p.nativeFee, p.lzTokenFee)
  }

  lemma Regroup(a: Bytes, b: Bytes, c: Bytes, d: Bytes, e: Bytes)
    ensures a + (b + (c + (d + e))) == a + b + c + d + e
  {
  }

  lemma HeadForward(s: Bytes, p: OftSendParams, rest: Bytes)
    requires ReadHead(s) == Ok(Read(HeadOf(p), rest))
    ensures s == BorshHead(p) + rest
  {
    var a := ReadU32(s).value;
    var b := ReadBytes(a.rest, 32).value;
    var c := ReadU64(b.rest).value;
    U32Iff(s, p.dstEid, a.rest);
    BytesIff(a.rest, 32, p.to, b.rest);
    U64Iff(b.rest, p.amountLd, c.rest);
    U64Iff(c.rest, p.minAmountLd, rest);
    Regroup(ToLE(p.dstEid, 4), p.to, ToLE(p.amountLd, 8), ToLE(p.minAmountLd, 8), rest);
  }

  lemma HeadBack(s: Bytes, p: OftSendParams, rest: Bytes)
    requires s == BorshHead(p) + rest
    ensures ReadHead(s) == Ok(Read(HeadOf(p), rest))
  {
    var c := ToLE(p.minAmountLd, 8) + rest;
    var b := ToLE(p.amountLd, 8) + c;
    var a := p.to + b;
    assert s == ToLE(p.dstEid, 4) + a;
    U32Iff(s, p.dstEid, a);
    BytesIff(a, 32, p.to, b);
    U64Iff(b, p.amountLd, c);
    U64Iff(c, p.minAmountLd, rest);
  }

  lemma TailForward(s: Bytes, p: OftSendParams, rest: Bytes)
    requires ReadTail(s) == Ok(Read(TailOf(p), rest))
    ensures s == BorshTail(p) + rest
  {
    var a := ReadBlob(s).value;
    var b := ReadOption(a.rest).value;
    var c := ReadU64(b.rest).value;
    BlobIff(s, p.options, a.rest);
    OptionIff(a.rest, p.composeMsg, b.rest);
    U64Iff(b.rest, p.nativeFee, c.rest);
    U64Iff(c.rest, p.lzTokenFee, rest);
    Regroup(BorshBlob(p.options), BorshOption(p.composeMsg), ToLE(p.nativeFee, 8), ToLE(p.lzTokenFee, 8), rest);
  }

  lemma TailBack(s: Bytes, p: OftSendParams, rest: Bytes)
    requires s == BorshTail(p) + rest
    ensures ReadTail(s) == Ok(Read(TailOf(p), rest))
  {
    var c := ToLE(p.lzTokenFee, 8) + rest;
    var b := ToLE(p.nativeFee, 8) + c;
    var a := BorshOption(p.composeMsg) + b;
    assert s == BorshBlob(p.options) + a;
    BlobIff(s, p.options, a);
    OptionIff(a, p.composeMsg, b);
    U64Iff(b, p.nativeFee, c);
    U64Iff(c, p.lzTokenFee, rest);
  }

  lemma ParamsIff(s: Bytes, p: OftSendParams)
    ensures ReadParams(s) == Ok(p) <==> s == BorshHead(p) + BorshTail(p)
  {
    if ReadParams(s) == Ok(p) {
      var head := ReadHead(s).value;
      var tail := ReadTail(head.rest).value;
      assert head.value == HeadOf(p) && tail.value == TailOf(p);
      HeadForward(s, p, head.rest);
      TailForward(head.rest, p, []);
    }
    if s == BorshHead(p) + BorshTail(p) {
      HeadBack(s, p, BorshTail(p));
      assert BorshTail(p) == BorshTail(p) + [];
      TailBack(BorshTail(p), p, []);
    }
  }

  /**
   * The codec is a bijection onto the bytes it accepts: data decodes to `p` exactly when it is
   * the encoding of `p`. So decoding a built send returns its fields, accepted bytes re-encode to
   * themselves, and truncated, trailing or re-tagged bytes are refused.
   */
  lemma DecodesIffEncodes(data: Bytes, p: OftSendParams)
    ensures DecodeOftSend(data) == Some(p) <==> data == SendBytes(p)
  {
    if |data| >= 8 {
      ParamsIff(data[8..], p);
      Prefixed(data, OFT_SEND_DISCRIMINATOR, BorshHead(p), BorshTail(p));
    }
  }

  lemma Prefixed(data: Bytes, disc: Bytes, head: Bytes, tail: Bytes)
    requires 8 <= |data| && |disc| == 8
    ensures data == disc + head + tail <==> data[..8] == disc && data[8..] == head + tail
  {
    assert data == data[..8] + data[8..];
    assert disc + head + tail == disc + (head + tail);
    assert (disc + (head + tail))[..8] == disc && (disc + (head + tail))[8..] == head + tail;
  }

  /** Different parameters never share an encoding. */
  lemma SendBytesInjective(p: OftSendParams, q: OftSendParams)
    requires SendBytes(p) == SendBytes(q)
    ensures p == q
  {
    DecodesIffEncodes(SendBytes(p), p);
    DecodesIffEncodes(SendBytes(p), q);
  }

  // ---------------------------------------------------------------- the wire layout

  lemma HeadAt(disc: Bytes, a: Bytes, b: Bytes, c: Bytes, d: Bytes, tail: Bytes)
    requires |disc| == 8 && |a| == 4 && |b| == 32 && |c| == 8 && |d| == 8
    ensures var data := disc + (a + b + c + d) + tail;
            && |data| == 60 + |tail| && data[..8] == disc && data[8..12] == a && data[12..44] == b
            && data[44..52] == c && data[52..60] == d && data[60..] == tail
  {
    var head := a + b + c + d;
    assert head[..4] == a && head[4..36] == b && head[36..44] == c && head[44..52] == d;
    var data := disc + head + tail;
    assert data[8..12] == head[..4] && data[12..44] == head[4..36];
    assert data[44..52] == head[36..44] && data[52..60] == head[44..52];
  }

  lemma TailAt(a: Bytes, options: Bytes, b: Bytes, c: Bytes, d: Bytes)
    requires |a| == 4 && |b| >= 1 && |c| == 8 && |d| == 8
    ensures var tail := a + options + b + c + d; var n := 4 + |options|;
            && |tail| == n + |b| + 16 && tail[..4] == a && tail[4..n] == options && tail[n..n + |b|] == b
            && tail[n + |b|..n + |b| + 8] == c && tail[n + |b| + 8..] == d
  {
  }

  /** Every field of a send by its offset. */
  lemma SendLayout(p: OftSendParams)
    ensures var data := SendBytes(p);
            && |data| >= 81 && data[..8] == [102, 251, 20, 187, 65, 75, 12, 69]
            && U32At(data, 8) == p.dstEid && data[12..44] == p.to
            && U64At(data, 44) == p.amountLd && U64At(data, 52) == p.minAmountLd
            && data[60..] == BorshTail(p)
  {
    Spans();
    FromToLE(p.dstEid, 4);
    FromToLE(p.amountLd, 8);
    FromToLE(p.minAmountLd, 8);
    HeadAt(OFT_SEND_DISCRIMINATOR, ToLE(p.dstEid, 4), p.to, ToLE(p.amountLd, 8), ToLE(p.minAmountLd, 8), BorshTail(p));
    TailLength(p);
  }

  lemma TailLength(p: OftSendParams)
    ensures |BorshTail(p)| == 4 + |p.options| + |BorshOption(p.composeMsg)| + 16
    ensures |BorshOption(p.composeMsg)| == if p.composeMsg.None? then 1 else 5 + |p.composeMsg.value|
  {
  }

  lemma TailParts(p: OftSendParams)
    ensures var tail, n, m := BorshTail(p), 4 + |p.options|, |BorshOption(p.composeMsg)|;
            && m >= 1 && |tail| == n + m + 16 && tail[0..4] == ToLE(|p.options|, 4) && tail[4..n] == p.options
            && tail[n..n + m] == BorshOption(p.composeMsg)
            && tail[n + m..n + m + 8] == ToLE(p.nativeFee, 8) && tail[n + m + 8..n + m + 16] == ToLE(p.lzTokenFee, 8)
  {
    TailAt(ToLE(|p.options|, 4), p.options, BorshOption(p.composeMsg), ToLE(p.nativeFee, 8), ToLE(p.lzTokenFee, 8));
    var tail, n, m := BorshTail(p), 4 + |p.options|, |BorshOption(p.composeMsg)|;
    assert tail[0..4] == tail[..4] && tail[n + m + 8..] == tail[n + m + 8..n + m + 16];
  }

  lemma TailOptions(p: OftSendParams)
    ensures var tail := BorshTail(p); var n := |p.options|;
            && |tail| >= 21 + n && U32At(tail, 0) == n && tail[4..4 + n] == p.options
            && tail[4 + n] == (if p.composeMsg.None? then 0 else 1)
  {
    Spans();
    TailParts(p);
    FromToLE(|p.options|, 4);
    var n, m := 4 + |p.options|, |BorshOption(p.composeMsg)|;
    assert BorshTail(p)[n..n + m][0] == BorshOption(p.composeMsg)[0];
  }

  lemma TailFees(p: OftSendParams)
    ensures var tail := BorshTail(p);
            && |tail| >= 16 && (p.composeMsg.None? ==> |tail| == 21 + |p.options|)
            && U64At(tail, |tail| - 16) == p.nativeFee && U64At(tail, |tail| - 8) == p.lzTokenFee
  {
    Spans();
    TailParts(p);
    FromToLE(p.nativeFee, 8);
    FromToLE(p.lzTokenFee, 8);
  }

  /** A send without compose message, field by field: what any other encoder has to write. */
  lemma PlainSendLayout(p: OftSendParams)
    requires p.composeMsg == None
    ensures var data := SendBytes(p); var n := |p.options|;
            && |data| == 81 + n && U32At(data, 60) == n && data[64..64 + n] == p.options && data[64 + n] == 0
            && U64At(data, 65 + n) == p.nativeFee && U64At(data, 73 + n) == p.lzTokenFee
  {
    SendLayout(p);
    TailOptions(p);
    TailFees(p);
    var data, n := SendBytes(p), |p.options|;
    var tail := data[60..];
    assert |tail| == 21 + n && |data| == 81 + n;
    assert U64At(tail, 5 + n) == p.nativeFee && U64At(tail, 13 + n) == p.lzTokenFee;
    assert data[60..64] == tail[0..4] && data[64..64 + n] == tail[4..4 + n] && data[64 + n] == tail[4 + n];
    assert data[65 + n..73 + n] == tail[5 + n..13 + n] && data[73 + n..81 + n] == tail[13 + n..21 + n];
  }
}
