/**
 Layout of a shared-memory segment: a State object, `blockNum` Block objects, then
 `blockNum` buffers.  The writer lays it out in Create; a reader in another process works
 the same addresses out again in OpenOnly, from what the State object records.  `stateBytes`
 and `blockBytes` stand for sizeof(State) and sizeof(Block).
 */
module ShmLayout {
  import opened Common

  const EXTRA_SIZE: nat := 1024 * 4
  const STATE_SIZE: nat := 1024
  const BLOCK_SIZE: nat := 1024
  const MESSAGE_INFO_SIZE: nat := 1024
  const DEFAULT_BLOCK_NUM: nat := 32
  const DEFAULT_BLOCK_SIZE: nat := 1024 * 1024 * 8

  const MESSAGE_SIZE_16K: nat := 1024 * 16
  const MESSAGE_SIZE_128K: nat := 1024 * 128
  const MESSAGE_SIZE_1M: nat := 1024 * 1024
  const MESSAGE_SIZE_8M: nat := 1024 * 1024 * 8
  const MESSAGE_SIZE_16M: nat := 1024 * 1024 * 16
  const MESSAGE_SIZE_MORE: nat := 1024 * 1024 * 32

  const SIZE_CLASSES: set<nat> :=
    {MESSAGE_SIZE_16K, MESSAGE_SIZE_128K, MESSAGE_SIZE_1M, MESSAGE_SIZE_8M, MESSAGE_SIZE_16M, MESSAGE_SIZE_MORE}

  /** The smallest size class that holds the message, or the largest class if none does. */
  function CeilingMessageSize(realMsgSize: nat): (r: nat)
    ensures r in SIZE_CLASSES
    ensures realMsgSize <= MESSAGE_SIZE_MORE ==> realMsgSize <= r
    ensures forall c | c in SIZE_CLASSES && realMsgSize <= c :: r <= c
    ensures realMsgSize > MESSAGE_SIZE_MORE ==> r == MESSAGE_SIZE_MORE
  {
    if realMsgSize <= MESSAGE_SIZE_16K then MESSAGE_SIZE_16K
    else if realMsgSize <= MESSAGE_SIZE_128K then MESSAGE_SIZE_128K
    else if realMsgSize <= MESSAGE_SIZE_1M then MESSAGE_SIZE_1M
    else if realMsgSize <= MESSAGE_SIZE_8M then MESSAGE_SIZE_8M
    else if realMsgSize <= MESSAGE_SIZE_16M then MESSAGE_SIZE_16M
    else MESSAGE_SIZE_MORE
  }

  function BlockBufSize(ceilingMsgSize: nat): nat {
    ceilingMsgSize + MESSAGE_INFO_SIZE
  }

  function SegmentSize(blockBufSize: nat, blockNum: nat): nat {
    EXTRA_SIZE + STATE_SIZE + (BLOCK_SIZE + blockBufSize) * blockNum
  }

  class ShmConf {
    var ceilingMsgSize: nat
    var msgSize: nat
    var blockBufSize: nat
    var blockNum: nat
    var managedShmSize: nat

    /** The sizes agree with each other. */
    predicate Sized()
      reads this
    {
      && ceilingMsgSize in SIZE_CLASSES
      && blockBufSize == BlockBufSize(ceilingMsgSize)
      && managedShmSize == SegmentSize(blockBufSize, blockNum)
    }

    /** The segment is large enough for what Create will record and lay out. */
    predicate Ample()
      reads this
    {
      Sized() && CeilingMessageSize(MsgSize()) <= ceilingMsgSize
    }

    constructor Default()
      ensures Ample() && blockNum == DEFAULT_BLOCK_NUM && msgSize == 0 && ceilingMsgSize == MESSAGE_SIZE_8M
    {
      msgSize := 0;
      ceilingMsgSize := DEFAULT_BLOCK_SIZE;
      blockBufSize := DEFAULT_BLOCK_SIZE + MESSAGE_INFO_SIZE;
      blockNum := DEFAULT_BLOCK_NUM;
      managedShmSize := EXTRA_SIZE + STATE_SIZE
        + (BLOCK_SIZE + (DEFAULT_BLOCK_SIZE + MESSAGE_INFO_SIZE)) * DEFAULT_BLOCK_NUM;
    }

    constructor FromProperty(blockSize: U64, blockCount: U32)
      ensures Ample() && blockNum == blockCount && msgSize == blockSize
      ensures ceilingMsgSize == CeilingMessageSize(blockSize)
    {
      msgSize := blockSize;
      ceilingMsgSize := CeilingMessageSize(blockSize);
      blockBufSize := BlockBufSize(CeilingMessageSize(blockSize));
      blockNum := blockCount;
      managedShmSize := SegmentSize(BlockBufSize(CeilingMessageSize(blockSize)), blockCount);
      new;
      TruncationShrinks(blockSize);
    }

    /** The getter returns a uint32_t. */
    function MsgSize(): nat
      reads this
    {
      msgSize % 0x1_0000_0000
    }

    /** The size check of AcquireBlockToWrite. */
    predicate Accepts(size: nat)
      reads this
    {
      size <= ceilingMsgSize
    }

    method Update(blockSize: nat, blockCount: nat)
      modifies this`ceilingMsgSize, this`blockBufSize, this`blockNum, this`managedShmSize
      ensures Sized() && ceilingMsgSize == CeilingMessageSize(blockSize) && blockNum == blockCount
    {
      ceilingMsgSize := CeilingMessageSize(blockSize);
      blockBufSize := BlockBufSize(ceilingMsgSize);
      blockNum := blockCount;
      managedShmSize := SegmentSize(blockBufSize, blockNum);
    }
  }

  /** A size cut down to 32 bits never needs a larger class. */
  lemma TruncationShrinks(blockSize: nat)
    ensures CeilingMessageSize(blockSize % 0x1_0000_0000) <= CeilingMessageSize(blockSize)
  {
  }

  /** What the State object at the start of the segment records. */
  datatype Header = Header(msgSize: nat, blockNum: nat)

  /** Where buffer `i` starts. */
  function BufOffset(stateBytes: nat, blockBytes: nat, blockNum: nat, blockBufSize: nat, i: nat): nat {
    stateBytes + blockNum * blockBytes + i * blockBufSize
  }

  class AllocMemory {
    const conf: ShmConf
    var blockBufAddrs: map<nat, nat>

    constructor (conf: ShmConf)
      ensures this.conf == conf && blockBufAddrs == map[]
    {
      this.conf := conf;
      blockBufAddrs := map[];
    }

    /** Every buffer of the header's layout, and no other, has its address. */
    ghost predicate LaidOut(base: nat, header: Header, stateBytes: nat, blockBytes: nat)
      reads this, conf
    {
      && conf.Sized()
      && conf.ceilingMsgSize == CeilingMessageSize(header.msgSize) && conf.blockNum == header.blockNum
      && (forall i: nat :: i in blockBufAddrs <==> i < header.blockNum)
      && forall i | i in blockBufAddrs ::
           blockBufAddrs[i] == base + BufOffset(stateBytes, blockBytes, header.blockNum, conf.blockBufSize, i)
    }

    /** The loop shared by Create and OpenOnly. */
    method PlaceBuffers(base: nat, stateBytes: nat, blockBytes: nat)
      requires blockBufAddrs == map[]
      modifies this
      ensures forall i: nat :: i in blockBufAddrs <==> i < conf.blockNum
      ensures forall i | i in blockBufAddrs ::
        blockBufAddrs[i] == base + BufOffset(stateBytes, blockBytes, conf.blockNum, conf.blockBufSize, i)
    {
      for i := 0 to conf.blockNum
        invariant forall k: nat :: k in blockBufAddrs <==> k < i
        invariant forall k | k in blockBufAddrs ::
          blockBufAddrs[k] == base + BufOffset(stateBytes, blockBytes, conf.blockNum, conf.blockBufSize, k)
      {
        var addr := base + (stateBytes + conf.blockNum * blockBytes + i * conf.blockBufSize);
        blockBufAddrs := blockBufAddrs[i := addr];
      }
    }

    /** Create on a fresh segment mapped at `base`: `mapped` is the size asked for. */
    method Create(base: nat, stateBytes: nat, blockBytes: nat) returns (header: Header, mapped: nat)
      requires conf.Ample() && blockBufAddrs == map[]
      modifies this, conf
      ensures mapped == old(conf.managedShmSize)
      ensures header == Header(old(conf.MsgSize()), old(conf.blockNum))
      ensures LaidOut(base, header, stateBytes, blockBytes)
      ensures conf.managedShmSize <= mapped
      ensures conf.ceilingMsgSize == old(conf.ceilingMsgSize) <==>
              CeilingMessageSize(old(conf.MsgSize())) == old(conf.ceilingMsgSize)
    {
      mapped := conf.managedShmSize;
      header := Header(conf.MsgSize(), conf.blockNum);
      ghost var wide := conf.blockBufSize;
      conf.Update(header.msgSize, header.blockNum);
      SegmentGrows(conf.blockBufSize, wide, conf.blockNum);
      PlaceBuffers(base, stateBytes, blockBytes);
    }

    /** OpenOnly in another process, on a segment whose State object holds `header`. */
    method OpenOnly(base: nat, header: Header, stateBytes: nat, blockBytes: nat)
      requires blockBufAddrs == map[]
      modifies this, conf
      ensures LaidOut(base, header, stateBytes, blockBytes)
    {
      conf.Update(header.msgSize, header.blockNum);
      PlaceBuffers(base, stateBytes, blockBytes);
    }
  }

  // ------------------------------------------------------- the ceiling that was configured

  /** A ceiling configured by property survives the 32-bit getter if and only if the block size
      fits 32 bits, or what is left of it still needs the largest class. */
  lemma TruncationKeepsClassExactly(blockSize: U64)
    ensures CeilingMessageSize(blockSize % 0x1_0000_0000) == CeilingMessageSize(blockSize) <==>
            blockSize < 0x1_0000_0000 || blockSize % 0x1_0000_0000 > MESSAGE_SIZE_16M
  {
    assert blockSize < 0x1_0000_0000 ==> blockSize % 0x1_0000_0000 == blockSize;
  }

  /** A segment created from a property accepts the messages it was configured for, and no
      others, if and only if the block size meets that condition; otherwise it refuses some. */
  method CreateFromProperty(blockSize: U64, blockCount: U32, base: nat, stateBytes: nat, blockBytes: nat, msgSize: nat)
    returns (configured: bool, accepted: bool, kept: bool)
    ensures configured <==> msgSize <= CeilingMessageSize(blockSize)
    ensures accepted ==> configured
    ensures kept <==> blockSize < 0x1_0000_0000 || blockSize % 0x1_0000_0000 > MESSAGE_SIZE_16M
    ensures kept ==> (configured <==> accepted)
    ensures !kept && msgSize == CeilingMessageSize(blockSize) ==> configured && !accepted
  {
    var conf := new ShmConf.FromProperty(blockSize, blockCount);
    var segment := new AllocMemory(conf);
    var ceiling := conf.ceilingMsgSize;
    configured := conf.Accepts(msgSize);
    var header, mapped := segment.Create(base, stateBytes, blockBytes);
    accepted := conf.Accepts(msgSize);
    kept := conf.ceilingMsgSize == ceiling;
    TruncationKeepsClassExactly(blockSize);
    TruncationShrinks(blockSize);
  }

  const MAX_BLOCK_SIZE: nat := 32 * 1024 * 1024
  const MAX_BLOCK_COUNT: nat := 32

  /** The block size and count that ParseConfig makes of what the configuration file says. */
  function ParsedBlockSize(configured: U64): U64 {
    if MAX_BLOCK_SIZE < configured then MAX_BLOCK_SIZE else configured
  }

  function ParsedBlockCount(configured: U32): U32 {
    if MAX_BLOCK_COUNT < configured then MAX_BLOCK_COUNT else configured
  }

  /** Every segment that a configuration file can ask for keeps its ceiling, and so accepts every
      message up to the block size that was parsed. */
  method CreateFromConfiguration(
    configuredSize: U64, configuredCount: U32, base: nat, stateBytes: nat, blockBytes: nat, msgSize: nat)
    returns (accepted: bool)
    ensures accepted <==> msgSize <= CeilingMessageSize(ParsedBlockSize(configuredSize))
    ensures msgSize <= ParsedBlockSize(configuredSize) ==> accepted
  {
    var blockSize := ParsedBlockSize(configuredSize);
    var configured, kept;
    configured, accepted, kept := CreateFromProperty(
      blockSize, ParsedBlockCount(configuredCount), base, stateBytes, blockBytes, msgSize);
  }

  /** A segment created from the default configuration never keeps its ceiling: it was made for
      messages of 8 MB and refuses everything over 16 KB. */
  method CreateDefault(base: nat, stateBytes: nat, blockBytes: nat, msgSize: nat)
    returns (configured: bool, accepted: bool)
    ensures configured <==> msgSize <= MESSAGE_SIZE_8M
    ensures accepted <==> msgSize <= MESSAGE_SIZE_16K
  {
    var conf := new ShmConf.Default();
    var segment := new AllocMemory(conf);
    configured := conf.Accepts(msgSize);
    var header, mapped := segment.Create(base, stateBytes, blockBytes);
    accepted := conf.Accepts(msgSize);
  }

  lemma SegmentGrows(narrow: nat, wide: nat, n: nat)
    requires narrow <= wide
    ensures SegmentSize(narrow, n) <= SegmentSize(wide, n)
  {
  }

  /** Sizes are computed in uint64_t without overflow, whatever the configuration. */
  lemma NoOverflow(blockSize: U64, blockCount: U32)
    ensures SegmentSize(BlockBufSize(CeilingMessageSize(blockSize)), blockCount) < 0x1_0000_0000_0000_0000
  {
  }

  /** The writer's layout is sound and the reader's is the same: buffers are disjoint from one
      another and from the State and Block objects, lie inside the mapped segment, hold any
      message that is accepted, and sit at the same offsets in both processes. */
  lemma LayoutIsSound(writer: AllocMemory, reader: AllocMemory, header: Header, mapped: nat,
                      wbase: nat, rbase: nat, stateBytes: nat, blockBytes: nat, i: nat, j: nat)
    requires stateBytes <= EXTRA_SIZE + STATE_SIZE && blockBytes <= BLOCK_SIZE
    requires writer.LaidOut(wbase, header, stateBytes, blockBytes)
    requires reader.LaidOut(rbase, header, stateBytes, blockBytes)
    requires writer.conf.managedShmSize <= mapped
    requires i < header.blockNum && j < header.blockNum
    ensures i in writer.blockBufAddrs && i in reader.blockBufAddrs && j in writer.blockBufAddrs
    ensures writer.blockBufAddrs[i] - wbase == reader.blockBufAddrs[i] - rbase
    ensures writer.conf.ceilingMsgSize == reader.conf.ceilingMsgSize
    ensures writer.blockBufAddrs[i] >= wbase + stateBytes + header.blockNum * blockBytes
    ensures writer.blockBufAddrs[i] + writer.conf.blockBufSize <= wbase + mapped
    ensures i < j ==> writer.blockBufAddrs[i] + writer.conf.blockBufSize <= writer.blockBufAddrs[j]
    ensures writer.conf.ceilingMsgSize + MESSAGE_INFO_SIZE == writer.conf.blockBufSize
  {
    var n, size := header.blockNum, writer.conf.blockBufSize;
    BufferFits(stateBytes, blockBytes, n, size, i);
    BuffersApart(stateBytes, blockBytes, n, size, i, j);
  }

  lemma BufferFits(stateBytes: nat, blockBytes: nat, n: nat, size: nat, i: nat)
    requires stateBytes <= EXTRA_SIZE + STATE_SIZE && blockBytes <= BLOCK_SIZE && i < n
    ensures BufOffset(stateBytes, blockBytes, n, size, i) >= stateBytes + n * blockBytes
    ensures BufOffset(stateBytes, blockBytes, n, size, i) + size <= SegmentSize(size, n)
  {
    assert (i + 1) * size == i * size + size;
    Scales(i + 1, n, size);
    Scales(blockBytes, BLOCK_SIZE, n);
    assert (BLOCK_SIZE + size) * n == BLOCK_SIZE * n + n * size;
    assert n * blockBytes == blockBytes * n;
  }

  lemma BuffersApart(stateBytes: nat, blockBytes: nat, n: nat, size: nat, i: nat, j: nat)
    ensures i < j ==>
      BufOffset(stateBytes, blockBytes, n, size, i) + size <= BufOffset(stateBytes, blockBytes, n, size, j)
  {
    if i < j {
      assert (i + 1) * size == i * size + size;
      Scales(i + 1, j, size);
    }
  }

  lemma Scales(a: nat, b: nat, k: nat)
    requires a <= b
    ensures a * k <= b * k
  {
  }
}
