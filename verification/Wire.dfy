/** The packed little-endian messages and the length checks applied to them. */
module Wire {
  import opened Base
  import opened Net

  function Le16(n: nat): (b: seq<byte>)
    requires n < TWO16
    ensures |b| == 2
  {
    [n % 256, n / 256]
  }

  function Le32(n: nat): (b: seq<byte>)
    requires n < TWO32
    ensures |b| == 4
  {
    [n % 256, n / 256 % 256, n / 0x1_0000 % 256, n / 0x100_0000]
  }

  function Get16(b: seq<byte>, i: nat): (n: nat)
    requires i + 2 <= |b|
    ensures n < TWO16
  {
    (b[i] as int) + 256 * (b[i + 1] as int)
  }

  function Get32(b: seq<byte>, i: nat): (n: nat)
    requires i + 4 <= |b|
    ensures n < TWO32
  {
    (b[i] as int) + 256 * (b[i + 1] as int) + 0x1_0000 * (b[i + 2] as int) + 0x100_0000 * (b[i + 3] as int)
  }

  /** The low digit, base 256, and the rest. */
  lemma Digit(n: nat, q: nat, r: nat)
    requires n == 256 * q + r && r < 256
    ensures n / 256 == q && n % 256 == r
  {
  }

  lemma DivTwice(n: nat)
    ensures n / 0x1_0000 == n / 256 / 256 && n / 0x100_0000 == n / 256 / 256 / 256
  {
  }

  lemma PutGet32(n: nat)
    requires n < TWO32
    ensures Get32(Le32(n), 0) == n
  {
    DivTwice(n);
  }

  lemma GetPut32(b: seq<byte>)
    requires |b| == 4
    ensures Le32(Get32(b, 0)) == b
  {
    var n := Get32(b, 0);
    var b0: nat, b1: nat, b2: nat, b3: nat := b[0], b[1], b[2], b[3];
    DivTwice(n);
    Digit(n, b1 + 256 * b2 + 0x1_0000 * b3, b0);
    Digit(n / 256, b2 + 256 * b3, b1);
    Digit(n / 256 / 256, b3, b2);
  }

  lemma GetPut16(b: seq<byte>)
    requires |b| == 2
    ensures Le16(Get16(b, 0)) == b
  {
  }

  /** Every field fits the C type that carries it. */
  predicate InRange(m: Message) {
    m.kind < TWO16 && m.seqNum < TWO32 && m.id < TWO16 && m.size < TWO32
  }

  /** REQUEST_MSG_T, packed: Type, SeqNum, RequestID, Size, pData. */
  function Encode(m: Message): (p: seq<byte>)
    requires InRange(m)
    ensures |p| == HDR_SIZE + |m.data|
  {
    Le16(m.kind) + Le32(m.seqNum) + Le16(m.id) + Le32(m.size) + m.data
  }

  function Decode(p: seq<byte>): (m: Message)
    requires |p| >= HDR_SIZE
    ensures InRange(m)
  {
    Message(Get16(p, 0), Get32(p, 2), Get16(p, 6), Get32(p, 8), p[HDR_SIZE..])
  }

  lemma DecodeEncode(m: Message)
    requires InRange(m)
    ensures Decode(Encode(m)) == m
  {
    var p := Encode(m);
    assert p[0..2] == Le16(m.kind) && p[2..6] == Le32(m.seqNum) && p[6..8] == Le16(m.id) && p[8..12] == Le32(m.size);
    PutGet32(m.seqNum);
    PutGet32(m.size);
    assert Get32(p, 2) == Get32(p[2..6], 0) && Get32(p, 8) == Get32(p[8..12], 0);
    assert Get16(p, 0) == Get16(p[0..2], 0) && Get16(p, 6) == Get16(p[6..8], 0);
    assert p[12..] == m.data;
  }

  lemma EncodeDecode(p: seq<byte>)
    requires |p| >= HDR_SIZE
    ensures Encode(Decode(p)) == p
  {
    GetPut16(p[0..2]);
    GetPut32(p[2..6]);
    GetPut16(p[6..8]);
    GetPut32(p[8..12]);
    assert Get32(p, 2) == Get32(p[2..6], 0) && Get32(p, 8) == Get32(p[8..12], 0);
    assert Get16(p, 0) == Get16(p[0..2], 0) && Get16(p, 6) == Get16(p[6..8], 0);
    assert p == p[0..2] + p[2..6] + p[6..8] + p[8..12] + p[12..];
  }

  // ------------------------------------------------- the receiver's checks

  /** What WaitForRequest decides about a buffer before touching any payload. */
  datatype Verdict =
    | Refuse(error: nat)
    | TakeShort(seqNum: nat, id: nat, size: nat)
    | TakeLong(seqNum: nat, id: nat, size: nat)

  const BUF_SIZE := MAX_MESSAGE_SIZE + 1

  /** `buf` is IpcBuf, of which the first recvLen bytes have been received; all
      arithmetic is that of 32-bit unsigned integers. */
  function Check(buf: seq<byte>, recvLen: nat, capacity: nat): Verdict
    requires |buf| == BUF_SIZE
  {
    var kind, s, id, size := Get16(buf, 0), Get32(buf, 2), Get16(buf, 6), Get32(buf, 8);
    if recvLen == 0 then Refuse(IPC_ERR_MSG_RECV)
    else if size > capacity then Refuse(IPC_ERR_RCV_BUFF_SMALL)
    else if kind == MSG_TYPE_SHORT_REQUEST then
      if recvLen != (size + HDR_SIZE) % TWO32 then Refuse(IPC_ERR_MSG_FORMAT) else TakeShort(s, id, size)
    else if kind == MSG_TYPE_LONG_REQUEST then TakeLong(s, id, size)
    else Refuse(IPC_ERR_MSG_FORMAT)
  }

  /** An accepted short message has a whole header and its payload ends where the
      received bytes end. */
  predicate Inside(buf: seq<byte>, recvLen: nat, capacity: nat)
    requires |buf| == BUF_SIZE
  {
    var v := Check(buf, recvLen, capacity);
    v.TakeShort? ==> recvLen == HDR_SIZE + v.size
  }

  lemma AcceptedIsInside(buf: seq<byte>, recvLen: nat, capacity: nat)
    requires |buf| == BUF_SIZE && recvLen <= MAX_MESSAGE_SIZE && capacity <= TWO32 - HDR_SIZE
    ensures Inside(buf, recvLen, capacity)
  {
  }

  /** A short request that announces `size` payload bytes. */
  function Announcing(size: nat): (buf: seq<byte>)
    requires size < TWO32
    ensures |buf| == BUF_SIZE
    ensures Get16(buf, 0) == MSG_TYPE_SHORT_REQUEST && Get32(buf, 8) == size
  {
    var m := Message(MSG_TYPE_SHORT_REQUEST, 0, 0, size, seq(BUF_SIZE - HDR_SIZE, _ => 0));
    assert Decode(Encode(m)) == m by {
      DecodeEncode(m);
    }
    Encode(m)
  }

  /** The capacity check is what keeps the length check meaningful: every accepted short
      message lies inside the received bytes exactly when the capacity is at most
      2^32 - 12. */
  lemma CapacityLimit(capacity: nat)
    requires capacity < TWO32
    ensures (forall buf: seq<byte>, recvLen: nat | |buf| == BUF_SIZE && recvLen <= MAX_MESSAGE_SIZE ::
               Inside(buf, recvLen, capacity))
            <==> capacity <= TWO32 - HDR_SIZE
  {
    if capacity <= TWO32 - HDR_SIZE {
      forall buf: seq<byte>, recvLen: nat | |buf| == BUF_SIZE && recvLen <= MAX_MESSAGE_SIZE
        ensures Inside(buf, recvLen, capacity)
      {
        AcceptedIsInside(buf, recvLen, capacity);
      }
    } else {
      var buf := Announcing(TWO32 - HDR_SIZE + 1);
      assert (Get32(buf, 8) + HDR_SIZE) % TWO32 == 1;
      assert !Inside(buf, 1, capacity);
    }
  }

  /** The checks without the comparison of the received length. */
  function CheckLoosely(buf: seq<byte>, recvLen: nat, capacity: nat): Verdict
    requires |buf| == BUF_SIZE
  {
    var kind, s, id, size := Get16(buf, 0), Get32(buf, 2), Get16(buf, 6), Get32(buf, 8);
    if recvLen == 0 then Refuse(IPC_ERR_MSG_RECV)
    else if size > capacity then Refuse(IPC_ERR_RCV_BUFF_SMALL)
    else if kind == MSG_TYPE_SHORT_REQUEST then TakeShort(s, id, size)
    else if kind == MSG_TYPE_LONG_REQUEST then TakeLong(s, id, size)
    else Refuse(IPC_ERR_MSG_FORMAT)
  }

  lemma LengthCheckRefuses(buf: seq<byte>, recvLen: nat, capacity: nat)
    requires |buf| == BUF_SIZE && recvLen <= MAX_MESSAGE_SIZE && capacity <= TWO32 - HDR_SIZE
    ensures var loose := CheckLoosely(buf, recvLen, capacity);
            Check(buf, recvLen, capacity) ==
            if loose.TakeShort? && recvLen != HDR_SIZE + loose.size then Refuse(IPC_ERR_MSG_FORMAT) else loose
  {
    hide Get16, Get32;
  }

  /** And the length check is needed besides.  It refuses exactly the short messages whose
      payload does not end where the received bytes end, and decides nothing else; and
      without it every accepted payload lies inside the received bytes only if as many
      have come as the header and the largest payload take. */
  lemma LengthCheckNeeded(recvLen: nat, capacity: nat)
    requires 0 < recvLen <= MAX_MESSAGE_SIZE && capacity <= TWO32 - HDR_SIZE
    ensures forall buf: seq<byte> | |buf| == BUF_SIZE ::
              var loose := CheckLoosely(buf, recvLen, capacity);
              Check(buf, recvLen, capacity) ==
              if loose.TakeShort? && recvLen != HDR_SIZE + loose.size then Refuse(IPC_ERR_MSG_FORMAT) else loose
    ensures (forall buf: seq<byte> | |buf| == BUF_SIZE && CheckLoosely(buf, recvLen, capacity).TakeShort? ::
               HDR_SIZE + CheckLoosely(buf, recvLen, capacity).size <= recvLen)
            <==> HDR_SIZE + capacity <= recvLen
  {
    hide Get16, Get32, Announcing, Check;
    forall buf: seq<byte> | |buf| == BUF_SIZE
      ensures var loose := CheckLoosely(buf, recvLen, capacity);
              Check(buf, recvLen, capacity) ==
              if loose.TakeShort? && recvLen != HDR_SIZE + loose.size then Refuse(IPC_ERR_MSG_FORMAT) else loose
    {
      LengthCheckRefuses(buf, recvLen, capacity);
    }
    if HDR_SIZE + capacity > recvLen {
      var buf := Announcing(capacity);
      assert CheckLoosely(buf, recvLen, capacity).TakeShort? && CheckLoosely(buf, recvLen, capacity).size == capacity;
    }
  }

  /** On a received message the checks decide what WaitForRequest decides at message
      level, whatever the rest of the buffer holds. */
  lemma CheckRefines(m: Message, junk: seq<byte>, capacity: nat)
    requires InRange(m) && |Encode(m)| <= MAX_MESSAGE_SIZE && |Encode(m)| + |junk| == BUF_SIZE
    requires capacity <= TWO32 - HDR_SIZE
    ensures var buf := Encode(m) + junk; var n := |Encode(m)|;
            Check(buf, n, capacity) ==
            if m.size > capacity then Refuse(IPC_ERR_RCV_BUFF_SMALL)
            else if m.kind == MSG_TYPE_SHORT_REQUEST then
              if |m.data| != m.size then Refuse(IPC_ERR_MSG_FORMAT) else TakeShort(m.seqNum, m.id, m.size)
            else if m.kind == MSG_TYPE_LONG_REQUEST then TakeLong(m.seqNum, m.id, m.size)
            else Refuse(IPC_ERR_MSG_FORMAT)
    ensures (Encode(m) + junk)[HDR_SIZE..|Encode(m)|] == m.data
  {
    var p := Encode(m);
    var buf := p + junk;
    DecodeEncode(m);
    assert Get16(buf, 0) == Get16(p, 0) && Get32(buf, 2) == Get32(p, 2) && Get16(buf, 6) == Get16(p, 6)
        && Get32(buf, 8) == Get32(p, 8);
    assert buf[HDR_SIZE..|p|] == p[HDR_SIZE..];
    if m.size == TWO32 - HDR_SIZE {
      assert (m.size + HDR_SIZE) % TWO32 == 0;
    }
  }

  /** Conversely an accepted short message is the encoding of what was taken. */
  lemma AcceptedReencodes(buf: seq<byte>, recvLen: nat, capacity: nat)
    requires |buf| == BUF_SIZE && recvLen <= MAX_MESSAGE_SIZE && capacity <= TWO32 - HDR_SIZE
    requires Check(buf, recvLen, capacity).TakeShort?
    ensures var v := Check(buf, recvLen, capacity);
            recvLen == HDR_SIZE + v.size
            && v.seqNum < TWO32 && v.id < TWO16
            && Encode(ShortMessage(MSG_TYPE_SHORT_REQUEST, v.seqNum, v.id, buf[HDR_SIZE..recvLen])) == buf[..recvLen]
  {
    AcceptedIsInside(buf, recvLen, capacity);
    var p := buf[..recvLen];
    assert Get16(buf, 0) == Get16(p, 0) && Get32(buf, 2) == Get32(p, 2) && Get16(buf, 6) == Get16(p, 6)
        && Get32(buf, 8) == Get32(p, 8);
    assert p[HDR_SIZE..] == buf[HDR_SIZE..recvLen];
    EncodeDecode(p);
  }

  /** A request that travels short comes back from WaitForRequest as it was sent, for
      every payload that fits the receiver. */
  lemma ShortRequestRoundTrip(s: nat, id: nat, bytes: seq<byte>, junk: seq<byte>, capacity: nat)
    requires s < TWO32 && id < TWO16 && Fits(bytes) && |bytes| <= capacity <= TWO32 - HDR_SIZE
    requires HDR_SIZE + |bytes| + |junk| == BUF_SIZE
    ensures InRange(RequestMessage(s, id, bytes))
    ensures var p := Encode(RequestMessage(s, id, bytes));
            && Check(p + junk, |p|, capacity) == TakeShort(s, id, |bytes|)
            && (p + junk)[HDR_SIZE..HDR_SIZE + |bytes|] == bytes
  {
    CheckRefines(RequestMessage(s, id, bytes), junk, capacity);
  }

  /** ProcessIpcMessages compares the received length with Size plus the header in
      32-bit arithmetic and without a capacity check; for a message with a whole header
      that is the comparison at message level. */
  lemma ManagerLengthCheck(m: Message)
    requires InRange(m) && |Encode(m)| <= MAX_MESSAGE_SIZE
    ensures |Encode(m)| == (m.size + HDR_SIZE) % TWO32 <==> |m.data| == m.size
  {
  }
}
