/**
 MessageHeader and the header-plus-content framing of a RawMessage.  Numbers travel in
 network byte order: htonl followed by memcpy lays a 32-bit number out big-endian whatever
 the host.
 */
module MessageFraming {
  import opened Common

  type Byte = b: nat | b < 256 witness 0

  const HEADER_SIZE: nat := 192
  const MSG_TYPE_SIZE: nat := 129
  const MAGIC: seq<Byte> := [66, 68, 65, 67, 66, 68, 65, 67] // "BDACBDAC"
  const INT_MAX: nat := 0x7fff_ffff
  const INT_MIN: int := -0x8000_0000

  // ---------------------------------------------------------------- numbers

  function Convert32ToArray(n: U32): (b: seq<Byte>)
    ensures |b| == 4
  {
    [n / 256 / 256 / 256, n / 256 / 256 % 256, n / 256 % 256, n % 256]
  }

  function ConvertArrayTo32(b: seq<Byte>): (n: U32)
    requires |b| == 4
  {
    (((b[0] as nat) * 256 + b[1]) * 256 + b[2]) * 256 + b[3]
  }

  function Convert64ToArray(n: U64): (b: seq<Byte>)
    ensures |b| == 8
  {
    Convert32ToArray(n / 0x1_0000_0000) + Convert32ToArray(n % 0x1_0000_0000)
  }

  function ConvertArrayTo64(b: seq<Byte>): (n: U64)
    requires |b| == 8
  {
    ConvertArrayTo32(b[..4]) * 0x1_0000_0000 + ConvertArrayTo32(b[4..])
  }

  /** Network byte order: the first of the four bytes is the most significant. */
  lemma BigEndian32(n: U32, b: seq<Byte>)
    requires |b| == 4
    ensures var bytes := Convert32ToArray(n);
      && bytes[0] == n / 0x100_0000 && bytes[1] == n / 0x1_0000 % 0x100
      && bytes[2] == n / 0x100 % 0x100 && bytes[3] == n % 0x100
    ensures ConvertArrayTo32(b) ==
            (b[0] as nat) * 0x100_0000 + (b[1] as nat) * 0x1_0000 + (b[2] as nat) * 0x100 + b[3]
  {
  }

  /** 32-bit numbers and strings of four bytes correspond one to one. */
  lemma Number32RoundTrip(n: U32, b: seq<Byte>)
    requires |b| == 4
    ensures ConvertArrayTo32(Convert32ToArray(n)) == n
    ensures Convert32ToArray(ConvertArrayTo32(b)) == b
  {
  }

  lemma Number64RoundTrip(n: U64, b: seq<Byte>)
    requires |b| == 8
    ensures ConvertArrayTo64(Convert64ToArray(n)) == n
    ensures Convert64ToArray(ConvertArrayTo64(b)) == b
  {
    var hi, lo := n / 0x1_0000_0000, n % 0x1_0000_0000;
    Number32RoundTrip(hi, b[..4]);
    Number32RoundTrip(lo, b[4..]);
    Halves(Convert32ToArray(hi), Convert32ToArray(lo));
    HighLow(ConvertArrayTo32(b[..4]), ConvertArrayTo32(b[4..]));
    assert b == b[..4] + b[4..];
  }

  /** Eight bytes as a number in network byte order: byte `i` counts 256 to the power of `7 - i`. */
  function Positional64(b: seq<Byte>): nat
    requires |b| == 8
  {
    (b[0] as nat) * 0x100_0000_0000_0000 + (b[1] as nat) * 0x1_0000_0000_0000
    + (b[2] as nat) * 0x100_0000_0000 + (b[3] as nat) * 0x1_0000_0000
    + (b[4] as nat) * 0x100_0000 + (b[5] as nat) * 0x1_0000 + (b[6] as nat) * 0x100 + b[7]
  }

  /** The same order for eight bytes, in both directions. */
  lemma BigEndian64(n: U64, b: seq<Byte>)
    requires |b| == 8
    ensures ConvertArrayTo64(b) == Positional64(b) && Positional64(Convert64ToArray(n)) == n
  {
    Bytes64(b);
    Bytes64(Convert64ToArray(n));
    Number64RoundTrip(n, b);
  }

  lemma Bytes64(b: seq<Byte>)
    requires |b| == 8
    ensures ConvertArrayTo64(b) == Positional64(b)
  {
    BigEndian32(0, b[..4]);
    BigEndian32(0, b[4..]);
  }

  lemma Halves(x: seq<Byte>, y: seq<Byte>)
    requires |x| == |y| == 4
    ensures (x + y)[..4] == x && (x + y)[4..] == y
  {
  }

  lemma HighLow(hi: U32, lo: U32)
    ensures var n: U64 := hi * 0x1_0000_0000 + lo; n / 0x1_0000_0000 == hi && n % 0x1_0000_0000 == lo
  {
  }

  // ---------------------------------------------------------------- header

  function Zeros(n: nat): (z: seq<Byte>)
    ensures |z| == n
  {
    seq(n, _ => 0)
  }

  /** A type name as stored: its first 128 bytes at most, padded with NUL to 129. */
  function StoredType(name: seq<Byte>): (t: seq<Byte>)
    ensures |t| == MSG_TYPE_SIZE && t[MSG_TYPE_SIZE - 1] == 0
    ensures forall i | 0 <= i < MSG_TYPE_SIZE - 1 :: t[i] == if i < |name| then name[i] else 0
  {
    var n := if |name| >= MSG_TYPE_SIZE then MSG_TYPE_SIZE - 1 else |name|;
    name[..n] + Zeros(MSG_TYPE_SIZE - n)
  }

  /** The fields in the order in which they lie in memory. */
  function Joined(magicNum: seq<Byte>, seqNo: seq<Byte>, timestampNs: seq<Byte>, srcId: seq<Byte>, dstId: seq<Byte>,
                  msgType: seq<Byte>, res: seq<Byte>, contentSize: seq<Byte>): seq<Byte>
  {
    magicNum + seqNo + timestampNs + srcId + dstId + msgType + res + contentSize
  }

  class MessageHeader {
    var magicNum: seq<Byte>
    var seqNo: seq<Byte>
    var timestampNs: seq<Byte>
    var srcId: seq<Byte>
    var dstId: seq<Byte>
    var msgType: seq<Byte>
    var res: seq<Byte>
    var contentSize: seq<Byte>

    predicate Valid()
      reads this
    {
      && |magicNum| == |seqNo| == |timestampNs| == |srcId| == |dstId| == 8
      && |msgType| == MSG_TYPE_SIZE && |res| == 19 && |contentSize| == 4
    }

    /** The object's memory image. */
    function Image(): (b: seq<Byte>)
      reads this
      requires Valid()
      ensures |b| == HEADER_SIZE
    {
      Joined(magicNum, seqNo, timestampNs, srcId, dstId, msgType, res, contentSize)
    }

    constructor ()
      ensures Valid()
      ensures magicNum == MAGIC
      ensures seqNo == timestampNs == srcId == dstId == Zeros(8)
      ensures msgType == Zeros(MSG_TYPE_SIZE) && res == Zeros(19) && contentSize == Zeros(4)
    {
      magicNum := MAGIC;
      seqNo, timestampNs, srcId, dstId := Zeros(8), Zeros(8), Zeros(8), Zeros(8);
      msgType, res, contentSize := Zeros(MSG_TYPE_SIZE), Zeros(19), Zeros(4);
    }

    function Seq(): U64
      reads this
      requires Valid()
    {
      ConvertArrayTo64(seqNo)
    }

    function TimestampNs(): U64
      reads this
      requires Valid()
    {
      ConvertArrayTo64(timestampNs)
    }

    function SrcId(): U64
      reads this
      requires Valid()
    {
      ConvertArrayTo64(srcId)
    }

    function DstId(): U64
      reads this
      requires Valid()
    {
      ConvertArrayTo64(dstId)
    }

    function ContentSize(): U32
      reads this
      requires Valid()
    {
      ConvertArrayTo32(contentSize)
    }

    method SetSeq(n: U64)
      requires Valid()
      modifies this`seqNo
      ensures Valid() && Seq() == n
    {
      seqNo := Convert64ToArray(n);
      Number64RoundTrip(n, seqNo);
    }

    method SetTimestampNs(n: U64)
      requires Valid()
      modifies this`timestampNs
      ensures Valid() && TimestampNs() == n
    {
      timestampNs := Convert64ToArray(n);
      Number64RoundTrip(n, timestampNs);
    }

    method SetSrcId(n: U64)
      requires Valid()
      modifies this`srcId
      ensures Valid() && SrcId() == n
    {
      srcId := Convert64ToArray(n);
      Number64RoundTrip(n, srcId);
    }

    method SetDstId(n: U64)
      requires Valid()
      modifies this`dstId
      ensures Valid() && DstId() == n
    {
      dstId := Convert64ToArray(n);
      Number64RoundTrip(n, dstId);
    }

    method SetContentSize(n: U32)
      requires Valid()
      modifies this`contentSize
      ensures Valid() && ContentSize() == n && contentSize == Convert32ToArray(n)
    {
      contentSize := Convert32ToArray(n);
      Number32RoundTrip(n, contentSize);
    }

    /** An empty name leaves the old type in place. */
    method SetMsgType(name: seq<Byte>)
      requires Valid()
      modifies this`msgType
      ensures Valid()
      ensures msgType == if name == [] then old(msgType) else StoredType(name)
    {
      if |name| == 0 {
        return;
      }
      var realLen := |name|;
      if |name| >= MSG_TYPE_SIZE {
        realLen := MSG_TYPE_SIZE - 1;
      }
      msgType := Zeros(MSG_TYPE_SIZE);
      msgType := name[..realLen] + msgType[realLen..];
      assert msgType == StoredType(name);
    }
  }

  // ---------------------------------------------------------------- framing

  /** The header that goes in front of a message. */
  function HeaderBytes(typeName: seq<Byte>, contentSize: U32): (h: seq<Byte>)
    ensures |h| == HEADER_SIZE
  {
    Joined(MAGIC, Zeros(8), Zeros(8), Zeros(8), Zeros(8),
           StoredType(typeName), Zeros(19), Convert32ToArray(contentSize))
  }

  /** Where a reader of the frame finds the type name and the content size. */
  lemma HeaderFields(typeName: seq<Byte>, contentSize: U32)
    ensures HeaderBytes(typeName, contentSize)[..8] == MAGIC
    ensures HeaderBytes(typeName, contentSize)[8..40] == Zeros(32)
    ensures HeaderBytes(typeName, contentSize)[40..169] == StoredType(typeName)
    ensures HeaderBytes(typeName, contentSize)[169..188] == Zeros(19)
    ensures HeaderBytes(typeName, contentSize)[188..192] == Convert32ToArray(contentSize)
  {
  }

  /** What a receiver makes of a byte string. */
  function Parse(bytes: seq<Byte>): (m: Option<seq<Byte>>)
    ensures m.Some? ==> m.value != [] && HEADER_SIZE + |m.value| <= |bytes|
  {
    if |bytes| < HEADER_SIZE then None
    else
      var contentSize := ConvertArrayTo32(bytes[188..192]);
      if |bytes| - HEADER_SIZE < contentSize then None
      else if contentSize <= 0 then None
      else Some(bytes[HEADER_SIZE..HEADER_SIZE + contentSize])
  }

  function Overwritten(s: seq<Byte>, at: nat, bytes: seq<Byte>): (r: seq<Byte>)
    requires at + |bytes| <= |s|
    ensures |r| == |s|
  {
    s[..at] + bytes + s[at + |bytes|..]
  }

  /** memcpy into the caller's buffer. */
  method CopyInto(data: array<Byte>, at: nat, bytes: seq<Byte>)
    requires at + |bytes| <= data.Length
    modifies data
    ensures data[..] == Overwritten(old(data[..]), at, bytes)
  {
    for i := 0 to |bytes|
      invariant forall k | 0 <= k < data.Length ::
        data[k] == if at <= k < at + i then bytes[k - at] else old(data[k])
    {
      data[at + i] := bytes[i];
    }
    assert data[..] == Overwritten(old(data[..]), at, bytes);
  }

  /** A copy at the front, then a copy right behind it. */
  lemma CopiedTwice(x: seq<Byte>, y: seq<Byte>, s: seq<Byte>)
    requires |x| + |y| <= |s|
    ensures Overwritten(Overwritten(s, 0, x), |x|, y) == Overwritten(s, 0, x + y)
  {
  }

  /** The header object SerializeToHC builds, as bytes. */
  method FilledHeader(typeName: seq<Byte>, contentSize: U32) returns (bytes: seq<Byte>)
    ensures bytes == HeaderBytes(typeName, contentSize)
  {
    var header := new MessageHeader();
    header.SetMsgType(typeName);
    header.SetContentSize(contentSize);
    assert StoredType([]) == Zeros(MSG_TYPE_SIZE);
    bytes := header.Image();
  }

  /** static_cast<size_t> of an int. */
  function ToSizeT(n: int): U64
    requires INT_MIN <= n <= INT_MAX
  {
    if n >= 0 then n else n + 0x1_0000_0000_0000_0000
  }

  /** What SerializeToHC writes, from the start of the buffer on: nothing, the header, or the
      whole frame. */
  function Written(message: seq<Byte>, typeName: seq<Byte>, size: int): seq<Byte>
    requires |message| <= INT_MAX
  {
    if 0 <= size < HEADER_SIZE then []
    else if size < HEADER_SIZE + |message| then HeaderBytes(typeName, |message|)
    else HeaderBytes(typeName, |message|) + message
  }

  /** `data` is the memory at the caller's pointer, `size` the number of its bytes that the
      caller offers.  The memory reaches as far as the call writes, and size - 192 does not
      overflow an int. */
  method SerializeToHC(message: seq<Byte>, typeName: seq<Byte>, data: array<Byte>, size: int) returns (ok: bool)
    requires |message| <= INT_MAX && INT_MIN + HEADER_SIZE <= size <= INT_MAX
    requires size <= data.Length && |Written(message, typeName, size)| <= data.Length
    modifies data
    ensures ok <==> HEADER_SIZE + |message| <= size
    ensures data[..] == Overwritten(old(data[..]), 0, Written(message, typeName, size))
  {
    var header := FilledHeader(typeName, |message|);
    if HEADER_SIZE > ToSizeT(size) {
      return false;
    }
    CopyInto(data, 0, header);
    var leftSize := size - HEADER_SIZE;
    if leftSize < |message| {
      return false;
    }
    CopiedTwice(header, message, old(data[..]));
    CopyInto(data, HEADER_SIZE, message);
    return true;
  }

  /** The header is written exactly for negative sizes and for sizes that hold it ... */
  lemma HeaderWrittenExactly(message: seq<Byte>, typeName: seq<Byte>, size: int)
    requires |message| <= INT_MAX
    ensures HeaderBytes(typeName, |message|) <= Written(message, typeName, size) <==> size < 0 || size >= HEADER_SIZE
  {
  }

  /** ... so what is written stays within what was offered if and only if the size is not
      negative. */
  lemma WithinOfferExactly(message: seq<Byte>, typeName: seq<Byte>, size: int)
    requires |message| <= INT_MAX
    ensures |Written(message, typeName, size)| <= size <==> size >= 0
  {
  }

  /** For instance, 192 bytes are written to a buffer offered with size -1. */
  lemma NegativeSizeIsWrittenTo(message: seq<Byte>, typeName: seq<Byte>)
    requires |message| <= INT_MAX
    ensures Written(message, typeName, -1) == HeaderBytes(typeName, |message|)
  {
  }

  /** `previous` is the content of the caller's message object. */
  method ParseFromHC(data: array<Byte>, size: int, previous: seq<Byte>) returns (ok: bool, message: seq<Byte>)
    requires size <= INT_MAX && size <= data.Length
    ensures match Parse(if size < 0 then [] else data[..size])
            case None => !ok && message == previous
            case Some(m) => ok && message == m
  {
    if size < HEADER_SIZE {
      return false, previous;
    }
    var contentSize := ConvertArrayTo32(data[188..192]);
    assert data[..size][188..192] == data[188..192];
    if size - HEADER_SIZE < contentSize {
      return false, previous;
    }
    if contentSize <= 0 {
      return false, previous;
    }
    message := data[HEADER_SIZE..HEADER_SIZE + contentSize];
    assert data[..size][HEADER_SIZE..HEADER_SIZE + contentSize] == message;
    ok := true;
  }

  /** What a receiver accepts, exactly: a full header whose content size is the message's,
      followed by the message.  Neither the magic number nor the type is looked at. */
  lemma ParseExactly(bytes: seq<Byte>, message: seq<Byte>)
    requires |message| <= INT_MAX
    ensures Parse(bytes) == Some(message) <==>
            && message != [] && HEADER_SIZE <= |bytes|
            && bytes[188..192] == Convert32ToArray(|message|)
            && message <= bytes[HEADER_SIZE..]
  {
    if HEADER_SIZE <= |bytes| {
      Number32RoundTrip(|message|, bytes[188..192]);
      var body := bytes[HEADER_SIZE..];
      if |message| <= |body| {
        assert bytes[HEADER_SIZE..HEADER_SIZE + |message|] == body[..|message|];
        assert message <= body <==> message == body[..|message|];
      }
    }
  }

  /** Round trip: whatever follows it in the buffer, a framed message parses back to itself,
      except the empty message, which is refused. */
  lemma FrameRoundTrip(message: seq<Byte>, typeName: seq<Byte>, rest: seq<Byte>)
    requires |message| <= INT_MAX
    ensures Parse(HeaderBytes(typeName, |message|) + message + rest) == if message == [] then None else Some(message)
  {
  }

  lemma SentIsReceived(message: seq<Byte>, typeName: seq<Byte>, memory: seq<Byte>, size: nat)
    requires |message| <= INT_MAX && HEADER_SIZE + |message| <= size <= |memory|
    ensures Parse(Overwritten(memory, 0, Written(message, typeName, size))[..size]) ==
            if message == [] then None else Some(message)
  {
    var frame := HeaderBytes(typeName, |message|) + message;
    FrameRoundTrip(message, typeName, memory[|frame|..size]);
    assert Overwritten(memory, 0, frame)[..size] == frame + memory[|frame|..size];
  }

  /** Sending through a buffer: what SerializeToHC put there, ParseFromHC gets back, from the
      same array and the same size. */
  method SendAndReceive(message: seq<Byte>, typeName: seq<Byte>, data: array<Byte>, size: int, previous: seq<Byte>)
    returns (sent: bool, received: bool, got: seq<Byte>)
    requires |message| <= INT_MAX && INT_MIN + HEADER_SIZE <= size <= INT_MAX
    requires size <= data.Length && |Written(message, typeName, size)| <= data.Length
    modifies data
    ensures sent <==> HEADER_SIZE + |message| <= size
    ensures sent ==> (received <==> message != [])
    ensures received && sent ==> got == message
    ensures !received ==> got == previous
  {
    sent := SerializeToHC(message, typeName, data, size);
    if sent {
      SentIsReceived(message, typeName, old(data[..]), size);
      assert data[..size] == data[..][..size];
    }
    received, got := ParseFromHC(data, size, previous);
  }
}
