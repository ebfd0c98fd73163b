/**
 * The UF2 container of the micro:bit tools (`Firmware/Microbit_v2/utils/uf2conv.py`): 512-byte
 * blocks, each a 32-byte header of eight little-endian 32-bit words, at most 476 payload bytes and
 * an end magic word. `convertToUF2` cuts a binary into 256-byte payloads; `convertFromUF2` puts the
 * payloads back at their addresses. The script is Python 2: `len(buf) / 512` is a floor division.
 * Raised exceptions, including the `TypeError` of a log line that adds a number to a string, are
 * `Err` results.
 */
module Uf2Conv {
  import opened Common

  const UF2_MAGIC_START0: nat := 0x0A32_4655
  const UF2_MAGIC_START1: nat := 0x9E5D_5157
  const UF2_MAGIC_END: nat := 0x0AB1_6F30
  /** The address of the first block written, unless set from the command line. */
  const DEFAULT_APP_START_ADDR: nat := 0x2000
  const MAX_DATA_LENGTH: nat := 476
  const MAX_PADDING: nat := 10 * 1024 * 1024

  datatype Uf2Error =
    | BadMagic(ptr: nat)
    | DataTooLong(ptr: nat)
    | OutOfOrder(ptr: nat)
    | TooMuchPadding(ptr: nat)
    | NonWordPadding(ptr: nat)
    | AddressOverflow(blockno: nat)

  /** The little-endian 32-bit word of `buf` at byte offset `off`, as `struct.unpack("<I", ...)` reads it. */
  function Word(buf: seq<byte>, off: nat): nat
    requires off + 4 <= |buf|
  {
    DecodeU32LE(buf[off..off + 4])
  }

  /** `isUF2`: the first two words are the start magics; too short a buffer makes `struct.unpack` raise. */
  function IsUF2(buf: seq<byte>): (r: Option<bool>)
    ensures r.None? <==> |buf| < 8
    ensures r == Some(true) <==> |buf| >= 8 && Word(buf, 0) == UF2_MAGIC_START0 && Word(buf, 4) == UF2_MAGIC_START1
  {
    if |buf| < 8 then None
    else Some(Word(buf, 0) == UF2_MAGIC_START0 && Word(buf, 4) == UF2_MAGIC_START1)
  }

  // ---------------------------------------------------------------------------
  // convertToUF2

  /** `struct.pack("<" + "I" * |ws|, ...)`. */
  function PackWords(ws: seq<nat>): (b: seq<byte>)
    requires forall i :: 0 <= i < |ws| ==> ws[i] < TWO_32
    ensures |b| == 4 * |ws|
  {
    if ws == [] then [] else U32LE(ws[0]) + PackWords(ws[1..])
  }

  lemma {:induction false} PackWordsAt(ws: seq<nat>, i: nat)
    requires forall j :: 0 <= j < |ws| ==> ws[j] < TWO_32
    requires i < |ws|
    ensures PackWords(ws)[4 * i..4 * i + 4] == U32LE(ws[i])
  {
    if i > 0 {
      PackWordsAt(ws[1..], i - 1);
      assert PackWords(ws)[4 * i..4 * i + 4] == PackWords(ws[1..])[4 * (i - 1)..4 * (i - 1) + 4];
    }
  }

  /** The number of 256-byte blocks a binary takes, the last one possibly short. */
  function NumBlocks(n: nat): nat
  {
    (n + 255) / 256
  }

  /** Every header can be packed: addresses and counts fit in 32 bits (`struct.pack` raises otherwise). */
  predicate Packable(blockno: nat, numblocks: nat, appStartAddr: int)
  {
    0 <= appStartAddr && 256 * blockno + appStartAddr < TWO_32 && numblocks < TWO_32
  }

  /** The bytes of `s` from `lo` to `hi`, clipped to its length, as Python slices do. */
  function Slice(s: seq<byte>, lo: nat, hi: nat): (r: seq<byte>)
    ensures |r| <= hi - lo || lo > hi
  {
    if lo >= |s| || hi <= lo then [] else s[lo..if hi <= |s| then hi else |s|]
  }

  /** The `blockno`-th 256-byte payload, padded with zeros. */
  function Chunk(content: seq<byte>, blockno: nat): (c: seq<byte>)
    ensures |c| == 256
  {
    var chunk := Slice(content, 256 * blockno, 256 * blockno + 256);
    chunk + Zeros(256 - |chunk|)
  }

  /** The eight header words of block `blockno` of `numblocks`, flags clear, 256 payload bytes. */
  function HeaderWords(targetAddr: nat, blockno: nat, numblocks: nat): (ws: seq<nat>)
    requires targetAddr < TWO_32 && blockno < numblocks < TWO_32
    ensures |ws| == 8 && forall i :: 0 <= i < |ws| ==> ws[i] < TWO_32
  {
    [UF2_MAGIC_START0, UF2_MAGIC_START1, 0, targetAddr, 256, blockno, numblocks, 0]
  }

  /** Block `blockno` of `numblocks`: header, payload, 220 zero bytes and the end magic. */
  function Block(content: seq<byte>, appStartAddr: int, blockno: nat, numblocks: nat): (b: seq<byte>)
    requires blockno < numblocks && Packable(blockno, numblocks, appStartAddr)
    ensures |b| == 512
  {
    PackWords(HeaderWords(256 * blockno + appStartAddr, blockno, numblocks))
      + Chunk(content, blockno) + Zeros(220) + U32LE(UF2_MAGIC_END)
  }

  /** The first block whose header cannot be packed, if any. */
  function FirstUnpackable(numblocks: nat, appStartAddr: int): (k: nat)
    ensures k <= numblocks
    ensures k < numblocks ==> !Packable(k, numblocks, appStartAddr)
    ensures forall j :: 0 <= j < k ==> Packable(j, numblocks, appStartAddr)
  {
    if numblocks == 0 then 0
    else if !Packable(0, numblocks, appStartAddr) then 0
    else if Packable(numblocks - 1, numblocks, appStartAddr) then numblocks
    else (TWO_32 - appStartAddr + 255) / 256
  }

  /** The first `n` blocks, none of them past the first that cannot be packed. */
  function BlockList(content: seq<byte>, appStartAddr: int, n: nat, numblocks: nat): (bs: seq<seq<byte>>)
    requires n <= FirstUnpackable(numblocks, appStartAddr)
    ensures |bs| == n && forall k :: 0 <= k < n ==> |bs[k]| == 512
  {
    seq(n, k requires 0 <= k < n => Block(content, appStartAddr, k, numblocks))
  }

  /** The pieces laid end to end. */
  function Flatten(ps: seq<seq<byte>>): seq<byte>
    decreases |ps|
  {
    if ps == [] then [] else Flatten(ps[..|ps| - 1]) + ps[|ps| - 1]
  }

  /** Pieces of 512 bytes each: piece `k` sits at `512 * k`. */
  lemma {:induction false} FlattenAt(ps: seq<seq<byte>>, k: nat)
    requires forall i :: 0 <= i < |ps| ==> |ps[i]| == 512
    ensures |Flatten(ps)| == 512 * |ps|
    ensures k < |ps| ==> Flatten(ps)[512 * k..512 * k + 512] == ps[k]
    decreases |ps|
  {
    if ps != [] {
      var front := ps[..|ps| - 1];
      FlattenAt(front, k);
      if k < |ps| - 1 {
        SliceLeft(Flatten(front), ps[|ps| - 1], 512 * k, 512 * k + 512);
      } else if k == |ps| - 1 {
        SliceRight(Flatten(front), ps[|ps| - 1], 512 * k, 512 * k + 512);
        assert ps[k][0..512] == ps[k];
      }
    }
  }

  /** What `convertToUF2` returns for `content` with the first block at `appStartAddr`. */
  function ToUF2(content: seq<byte>, appStartAddr: int): (r: Result<seq<byte>, Uf2Error>)
    ensures r.Ok? ==> |r.value| == 512 * NumBlocks(|content|)
  {
    var numblocks := NumBlocks(|content|);
    var k := FirstUnpackable(numblocks, appStartAddr);
    if k < numblocks then Err(AddressOverflow(k))
    else
      var bs := BlockList(content, appStartAddr, numblocks, numblocks);
      FlattenAt(bs, 0);
      Ok(Flatten(bs))
  }

  /** `convertToUF2`. */
  method ConvertToUF2(fileContent: seq<byte>, appStartAddr: int) returns (r: Result<seq<byte>, Uf2Error>)
    ensures r == ToUF2(fileContent, appStartAddr)
  {
    var datapadding: seq<byte> := [];
    while |datapadding| < 512 - 256 - 32 - 4
      invariant |datapadding| <= 220 && |datapadding| % 4 == 0 && datapadding == Zeros(|datapadding|)
    {
      datapadding := datapadding + [0, 0, 0, 0];
    }
    assert datapadding == Zeros(220);
    var numblocks := (|fileContent| + 255) / 256;
    var outp: seq<byte> := [];
    for blockno := 0 to numblocks
      invariant FirstUnpackable(numblocks, appStartAddr) >= blockno
      invariant outp == Flatten(BlockList(fileContent, appStartAddr, blockno, numblocks))
    {
      if !Packable(blockno, numblocks, appStartAddr) {
        return Err(AddressOverflow(blockno));
      }
      var block := MakeBlock(fileContent, appStartAddr, blockno, numblocks, datapadding);
      assert BlockList(fileContent, appStartAddr, blockno + 1, numblocks)[..blockno] ==
        BlockList(fileContent, appStartAddr, blockno, numblocks);
      outp := outp + block;
    }
    return Ok(outp);
  }

  /** The body of the loop of `convertToUF2`: block `blockno`, its payload padded to 256 bytes. */
  method MakeBlock(fileContent: seq<byte>, appStartAddr: int, blockno: nat, numblocks: nat, datapadding: seq<byte>)
    returns (block: seq<byte>)
    requires blockno < numblocks && Packable(blockno, numblocks, appStartAddr) && datapadding == Zeros(220)
    ensures block == Block(fileContent, appStartAddr, blockno, numblocks)
  {
    var ptr := 256 * blockno;
    var chunk := Slice(fileContent, ptr, ptr + 256);
    var hd := PackWords(HeaderWords(ptr + appStartAddr, blockno, numblocks));
    ghost var unpadded := |chunk|;
    while |chunk| < 256
      invariant unpadded <= |chunk| <= 256
      invariant chunk == Slice(fileContent, ptr, ptr + 256) + Zeros(|chunk| - unpadded)
    {
      chunk := chunk + [0];
    }
    assert chunk == Chunk(fileContent, blockno);
    block := hd + chunk + datapadding + U32LE(UF2_MAGIC_END);
  }

  // ---------------------------------------------------------------------------
  // convertFromUF2

  /** The conversion's state after some blocks: the next address expected and the output so far. */
  datatype State = Running(curraddr: Option<int>, outp: seq<byte>) | Failed(error: Uf2Error)

  /** The header words a block's conversion looks at. */
  datatype Header = Header(magicStart0: nat, magicStart1: nat, flags: nat, targetAddr: nat, payloadSize: nat)

  /** A block as read: its header words and the 480 bytes after the header. */
  datatype RawBlock = RawBlock(header: Header, data: seq<byte>)

  /** The first five words of the block at `ptr`, as `struct.unpack(b"<IIIIIIII", block[0:32])` reads them. */
  function ReadHeader(buf: seq<byte>, ptr: nat): Header
    requires ptr + 32 <= |buf|
  {
    Header(Word(buf, ptr), Word(buf, ptr + 4), Word(buf, ptr + 8), Word(buf, ptr + 12), Word(buf, ptr + 16))
  }

  /** The block at offset `ptr`, `block = buf[ptr:ptr + 512]`. */
  function ReadBlock(buf: seq<byte>, ptr: nat): (b: RawBlock)
    requires ptr + 512 <= |buf|
    ensures |b.data| == 512 - 32
  {
    RawBlock(ReadHeader(buf, ptr), buf[ptr + 32..ptr + 512])
  }

  /** The whole blocks of `buf`; a trailing partial block is not read (`numblocks = len(buf) / 512`). */
  function ReadBlocks(buf: seq<byte>): (bs: seq<RawBlock>)
    ensures |bs| == |buf| / 512
    ensures forall k :: 0 <= k < |bs| ==> 512 * k + 512 <= |buf| && bs[k] == ReadBlock(buf, 512 * k)
  {
    seq(|buf| / 512, k requires 0 <= k < |buf| / 512 => ReadBlock(buf, 512 * k))
  }

  /**
   * One block of `convertFromUF2`, at offset `ptr`: a block with bad start magics ends the
   * conversion as written (the log line raises) and is passed over when `skipBadMagic` holds; a
   * block flagged not-for-flash is passed over; otherwise the payload is appended after zeros up to
   * its address.
   */
  function Step(b: RawBlock, ptr: nat, st: State, skipBadMagic: bool): State
    requires |b.data| == 512 - 32
  {
    var h := b.header;
    if st.Failed? then st
    else if h.magicStart0 != UF2_MAGIC_START0 || h.magicStart1 != UF2_MAGIC_START1 then
      (if skipBadMagic then st else Failed(BadMagic(ptr)))
    else if h.flags % 2 == 1 then st
    else if h.payloadSize > MAX_DATA_LENGTH then Failed(DataTooLong(ptr))
    else
      var padding := h.targetAddr - (if st.curraddr.None? then h.targetAddr else st.curraddr.value);
      if padding < 0 then Failed(OutOfOrder(ptr))
      else if padding > MAX_PADDING then Failed(TooMuchPadding(ptr))
      else if padding % 4 != 0 then Failed(NonWordPadding(ptr))
      else Running(Some(h.targetAddr + h.payloadSize), st.outp + Zeros(padding) + b.data[..h.payloadSize])
  }

  /** Every block read has its 480 bytes after the header. */
  predicate WellRead(bs: seq<RawBlock>)
  {
    forall k :: 0 <= k < |bs| ==> |bs[k].data| == 512 - 32
  }

  /** The state after the first `n` blocks. */
  function Run(bs: seq<RawBlock>, n: nat, skipBadMagic: bool): State
    requires n <= |bs| && WellRead(bs)
  {
    if n == 0 then Running(None, []) else Step(bs[n - 1], 512 * (n - 1), Run(bs, n - 1, skipBadMagic), skipBadMagic)
  }

  /** What `convertFromUF2` returns: every whole block converted in order. */
  function FromUF2(buf: seq<byte>, skipBadMagic: bool): Result<seq<byte>, Uf2Error>
  {
    var bs := ReadBlocks(buf);
    match Run(bs, |bs|, skipBadMagic)
    case Failed(e) => Err(e)
    case Running(_, outp) => Ok(outp)
  }

  /** Once the conversion fails it stays failed. */
  lemma {:induction false} FailedStays(bs: seq<RawBlock>, k: nat, n: nat, skipBadMagic: bool)
    requires k <= n <= |bs| && WellRead(bs) && Run(bs, k, skipBadMagic).Failed?
    ensures Run(bs, n, skipBadMagic) == Run(bs, k, skipBadMagic)
    decreases n - k
  {
    if k < n {
      FailedStays(bs, k, n - 1, skipBadMagic);
    }
  }

  /** `convertFromUF2`, as written: the blocks in order until one fails. */
  method ConvertFromUF2(buf: seq<byte>) returns (r: Result<seq<byte>, Uf2Error>)
    ensures r == FromUF2(buf, false)
  {
    ghost var bs := ReadBlocks(buf);
    var numblocks := |buf| / 512;
    var curraddr: Option<int> := None;
    var outp: seq<byte> := [];
    for blockno := 0 to numblocks
      invariant Run(bs, blockno, false) == Running(curraddr, outp)
    {
      var ptr := 512 * blockno;
      var st := ConvertBlock(buf, ptr, curraddr, outp);
      if st.Failed? {
        FailedStays(bs, blockno + 1, numblocks, false);
        return Err(st.error);
      }
      curraddr, outp := st.curraddr, st.outp;
    }
    return Ok(outp);
  }

  /** The padding loop of `convertFromUF2`: four zero bytes at a time until the gap is filled. */
  method PadWords(outp: seq<byte>, padding: int) returns (out: seq<byte>)
    requires padding >= 0 && padding % 4 == 0
    ensures out == outp + Zeros(padding)
  {
    out := outp;
    var left := padding;
    while left > 0
      invariant 0 <= left <= padding && left % 4 == 0
      invariant out == outp + Zeros(padding - left)
    {
      ZerosAppend(padding - left);
      left := left - 4;
      out := out + [0, 0, 0, 0];
    }
  }

  /** The body of the loop of `convertFromUF2` for the block at offset `ptr`. */
  method ConvertBlock(buf: seq<byte>, ptr: nat, curraddr: Option<int>, outp: seq<byte>) returns (st: State)
    requires ptr + 512 <= |buf|
    ensures st == Step(ReadBlock(buf, ptr), ptr, Running(curraddr, outp), false)
  {
    var block := buf[ptr..ptr + 512];
    var hd := ReadHeader(buf, ptr);
    if hd.magicStart0 != UF2_MAGIC_START0 || hd.magicStart1 != UF2_MAGIC_START1 {
      return Failed(BadMagic(ptr));
    }
    if hd.flags % 2 == 1 {
      return Running(curraddr, outp);
    }
    var datalen := hd.payloadSize;
    if datalen > 476 {
      return Failed(DataTooLong(ptr));
    }
    var newaddr := hd.targetAddr;
    var addr := curraddr;
    if addr.None? {
      addr := Some(newaddr);
    }
    var padding := newaddr - addr.value;
    if padding < 0 {
      return Failed(OutOfOrder(ptr));
    }
    if padding > 10 * 1024 * 1024 {
      return Failed(TooMuchPadding(ptr));
    }
    if padding % 4 != 0 {
      return Failed(NonWordPadding(ptr));
    }
    var out := PadWords(outp, padding);
    assert block[32..32 + datalen] == ReadBlock(buf, ptr).data[..datalen];
    out := out + block[32..32 + datalen];
    return Running(Some(newaddr + datalen), out);
  }

  /** Four more zero bytes. */
  lemma ZerosAppend(n: nat)
    ensures Zeros(n) + [0, 0, 0, 0] == Zeros(n + 4)
  {
    assert Zeros(n + 4) == Zeros(n + 2) + [0, 0];
    assert Zeros(n + 2) == Zeros(n) + [0, 0];
  }

  // ---------------------------------------------------------------------------
  // The round trip

  /** `content` cut or zero-padded to `m` bytes. */
  function Padded(content: seq<byte>, m: nat): (p: seq<byte>)
    ensures |p| == m
  {
    if m <= |content| then content[..m] else content + Zeros(m - |content|)
  }

  /** The first `n` payloads laid end to end are the content padded to `256 * n` bytes. */
  lemma PaddedStep(content: seq<byte>, n: nat)
    ensures Padded(content, 256 * n) + Chunk(content, n) == Padded(content, 256 * n + 256)
  {
    var lo := 256 * n;
    if lo + 256 <= |content| {
      assert content[..lo] + content[lo..lo + 256] == content[..lo + 256];
    } else if lo < |content| {
      assert content[..lo] + content[lo..] == content;
      assert Zeros(256 - (|content| - lo)) == Zeros(lo + 256 - |content|);
    } else {
      assert Zeros(lo - |content|) + Zeros(256) == Zeros(lo + 256 - |content|);
    }
  }

  /** A slice within the left operand of a concatenation. */
  lemma SliceLeft(a: seq<byte>, b: seq<byte>, i: nat, j: nat)
    requires i <= j <= |a|
    ensures (a + b)[i..j] == a[i..j]
  {
  }

  /** A slice within the right operand of a concatenation. */
  lemma SliceRight(a: seq<byte>, b: seq<byte>, i: nat, j: nat)
    requires |a| <= i <= j <= |a| + |b|
    ensures (a + b)[i..j] == b[i - |a|..j - |a|]
  {
  }

  /** A slice of a slice. */
  lemma SliceOfSlice(s: seq<byte>, p: nat, q: nat, i: nat, j: nat)
    requires p <= q <= |s| && i <= j <= q - p
    ensures s[p..q][i..j] == s[p + i..p + j]
  {
    var a := s[p..q][i..j];
    var b := s[p + i..p + j];
    forall k | 0 <= k < |a|
      ensures a[k] == b[k]
    {
      assert a[k] == s[p + i + k];
    }
  }

  /** The four parts of a block laid out at offset `p` can be sliced back out. */
  lemma PartsAt(buf: seq<byte>, p: nat, hd: seq<byte>, chunk: seq<byte>, padding: seq<byte>, end: seq<byte>)
    requires |hd| == 32 && |chunk| == 256 && |padding| + |end| == 224
    requires p + 512 <= |buf| && buf[p..p + 512] == hd + chunk + padding + end
    ensures buf[p..p + 32] == hd && buf[p + 32..p + 288] == chunk
  {
    SliceOfSlice(buf, p, p + 512, 0, 32);
    SliceOfSlice(buf, p, p + 512, 32, 288);
    SliceLeft(hd + chunk + padding, end, 0, 288);
    SliceLeft(hd + chunk, padding, 0, 288);
    assert (hd + chunk)[0..288] == hd + chunk;
    SliceLeft(hd, chunk, 0, 32);
    SliceRight(hd, chunk, 32, 288);
    SliceOfSlice(hd + chunk, 0, 288, 0, 32);
    SliceOfSlice(hd + chunk, 0, 288, 32, 288);
  }

  /** Word `i` of a header packed at offset `p` reads back. */
  lemma HeaderWordAt(buf: seq<byte>, p: nat, ws: seq<nat>, i: nat, off: nat)
    requires |ws| == 8 && forall j :: 0 <= j < |ws| ==> ws[j] < TWO_32
    requires p + 32 <= |buf| && buf[p..p + 32] == PackWords(ws)
    requires i < 8 && off == p + 4 * i
    ensures Word(buf, off) == ws[i]
  {
    PackWordsAt(ws, i);
    SliceOfSlice(buf, p, p + 32, 4 * i, 4 * i + 4);
    U32LERoundTrip(ws[i]);
  }

  /** A block written at offset `p` reads back as its header words and payload. */
  lemma ReadBlockOf(buf: seq<byte>, p: nat, content: seq<byte>, appStartAddr: int, k: nat, numblocks: nat)
    requires k < numblocks && Packable(k, numblocks, appStartAddr)
    requires p + 512 <= |buf| && buf[p..p + 512] == Block(content, appStartAddr, k, numblocks)
    ensures ReadBlock(buf, p).header == Header(UF2_MAGIC_START0, UF2_MAGIC_START1, 0, 256 * k + appStartAddr, 256)
    ensures ReadBlock(buf, p).data[..256] == Chunk(content, k)
  {
    var ws := HeaderWords(256 * k + appStartAddr, k, numblocks);
    var hd := PackWords(ws);
    PartsAt(buf, p, hd, Chunk(content, k), Zeros(220), U32LE(UF2_MAGIC_END));
    HeaderWordAt(buf, p, ws, 0, p);
    HeaderWordAt(buf, p, ws, 1, p + 4);
    HeaderWordAt(buf, p, ws, 2, p + 8);
    HeaderWordAt(buf, p, ws, 3, p + 12);
    HeaderWordAt(buf, p, ws, 4, p + 16);
    SliceOfSlice(buf, p + 32, p + 512, 0, 256);
  }

  /** The bytes `convertToUF2` writes when every header can be packed. */
  function Output(content: seq<byte>, appStartAddr: int): seq<byte>
    requires FirstUnpackable(NumBlocks(|content|), appStartAddr) == NumBlocks(|content|)
  {
    Flatten(BlockList(content, appStartAddr, NumBlocks(|content|), NumBlocks(|content|)))
  }

  /** Block `k` of the output reads back as its header words and payload. */
  lemma ReadOutputBlock(content: seq<byte>, appStartAddr: int, k: nat)
    requires FirstUnpackable(NumBlocks(|content|), appStartAddr) == NumBlocks(|content|)
    requires k < NumBlocks(|content|)
    ensures |Output(content, appStartAddr)| == 512 * NumBlocks(|content|)
    ensures ReadBlock(Output(content, appStartAddr), 512 * k).header ==
      Header(UF2_MAGIC_START0, UF2_MAGIC_START1, 0, 256 * k + appStartAddr, 256)
    ensures ReadBlock(Output(content, appStartAddr), 512 * k).data[..256] == Chunk(content, k)
  {
    var nb := NumBlocks(|content|);
    var ps := BlockList(content, appStartAddr, nb, nb);
    FlattenAt(ps, k);
    ReadBlockOf(Flatten(ps), 512 * k, content, appStartAddr, k, nb);
  }

  /** A block as written, at the address expected next, appends its 256 payload bytes. */
  lemma StepWritten(b: RawBlock, ptr: nat, st: State, addr: nat, skipBadMagic: bool)
    requires |b.data| == 512 - 32 && b.header == Header(UF2_MAGIC_START0, UF2_MAGIC_START1, 0, addr, 256)
    requires st.Running? && (st.curraddr.None? || st.curraddr == Some(addr))
    ensures Step(b, ptr, st, skipBadMagic) == Running(Some(addr + 256), st.outp + b.data[..256])
  {
    assert Zeros(0) == [];
    assert st.outp + [] == st.outp;
  }

  /** The output's blocks read back as written. */
  lemma ReadOutput(content: seq<byte>, appStartAddr: nat)
    requires FirstUnpackable(NumBlocks(|content|), appStartAddr) == NumBlocks(|content|)
    ensures |ReadBlocks(Output(content, appStartAddr))| == NumBlocks(|content|)
    ensures WellRead(ReadBlocks(Output(content, appStartAddr)))
    ensures forall k :: 0 <= k < NumBlocks(|content|) ==>
      ReadBlocks(Output(content, appStartAddr))[k].header ==
        Header(UF2_MAGIC_START0, UF2_MAGIC_START1, 0, 256 * k + appStartAddr, 256) &&
      ReadBlocks(Output(content, appStartAddr))[k].data[..256] == Chunks(content)[k]
  {
    var out := Output(content, appStartAddr);
    var bs := ReadBlocks(out);
    FlattenAt(BlockList(content, appStartAddr, NumBlocks(|content|), NumBlocks(|content|)), 0);
    forall k | 0 <= k < |bs|
      ensures bs[k].header == Header(UF2_MAGIC_START0, UF2_MAGIC_START1, 0, 256 * k + appStartAddr, 256)
      ensures bs[k].data[..256] == Chunk(content, k)
    {
      ReadOutputBlock(content, appStartAddr, k);
    }
  }

  /** Blocks as written, read back in order, lay their payloads end to end. */
  lemma {:induction false} RunOfWritten(bs: seq<RawBlock>, appStartAddr: nat, chunks: seq<seq<byte>>, n: nat, skipBadMagic: bool)
    requires WellRead(bs) && |chunks| == |bs| && n <= |bs|
    requires forall k :: 0 <= k < |bs| ==>
      bs[k].header == Header(UF2_MAGIC_START0, UF2_MAGIC_START1, 0, 256 * k + appStartAddr, 256) &&
      bs[k].data[..256] == chunks[k]
    ensures Run(bs, n, skipBadMagic) == Running(if n == 0 then None else Some(256 * n + appStartAddr), Flatten(chunks[..n]))
  {
    if n == 0 {
      assert chunks[..0] == [];
    } else {
      var k := n - 1;
      RunOfWritten(bs, appStartAddr, chunks, k, skipBadMagic);
      StepWritten(bs[k], 512 * k, Run(bs, k, skipBadMagic), 256 * k + appStartAddr, skipBadMagic);
      assert chunks[..n][..k] == chunks[..k];
    }
  }

  /** The 256-byte payloads of `content`, the last one zero-padded. */
  function Chunks(content: seq<byte>): (cs: seq<seq<byte>>)
    ensures |cs| == NumBlocks(|content|)
  {
    seq(NumBlocks(|content|), k requires 0 <= k => Chunk(content, k))
  }

  /** The first `n` payloads laid end to end are the content cut or padded to `256 * n` bytes. */
  lemma {:induction false} FlattenChunks(content: seq<byte>, n: nat)
    requires n <= NumBlocks(|content|)
    ensures Flatten(Chunks(content)[..n]) == Padded(content, 256 * n)
  {
    var cs := Chunks(content);
    if n == 0 {
      assert cs[..0] == [];
      assert content[..0] == [];
    } else {
      FlattenChunks(content, n - 1);
      assert cs[..n][..n - 1] == cs[..n - 1];
      PaddedStep(content, n - 1);
    }
  }

  /** Reading the output back gives the content padded to whole blocks. */
  lemma ReadBackOutput(content: seq<byte>, appStartAddr: nat, skipBadMagic: bool)
    requires FirstUnpackable(NumBlocks(|content|), appStartAddr) == NumBlocks(|content|)
    ensures FromUF2(Output(content, appStartAddr), skipBadMagic) == Ok(Padded(content, 256 * NumBlocks(|content|)))
  {
    var nb := NumBlocks(|content|);
    var bs := ReadBlocks(Output(content, appStartAddr));
    var cs := Chunks(content);
    ReadOutput(content, appStartAddr);
    RunOfWritten(bs, appStartAddr, cs, nb, skipBadMagic);
    FlattenChunks(content, nb);
  }

  /**
   * The round trip: converting a binary to UF2 and back gives the binary followed by zeros up to a
   * whole number of 256-byte blocks, whether or not bad-magic blocks would be skipped.
   */
  lemma RoundTrip(content: seq<byte>, appStartAddr: int, skipBadMagic: bool)
    requires ToUF2(content, appStartAddr).Ok?
    ensures FromUF2(ToUF2(content, appStartAddr).value, skipBadMagic) ==
      Ok(content + Zeros(256 * NumBlocks(|content|) - |content|))
  {
    var nb := NumBlocks(|content|);
    if nb == 0 {
      assert content == [];
      assert ToUF2(content, appStartAddr).value == [];
      assert ReadBlocks([]) == [];
      assert Run([], 0, skipBadMagic) == Running(None, []);
      assert Zeros(0) == [];
    } else {
      assert Packable(0, nb, appStartAddr);
      assert ToUF2(content, appStartAddr).value == Output(content, appStartAddr);
      ReadBackOutput(content, appStartAddr, skipBadMagic);
      if 256 * nb == |content| {
        assert content[..256 * nb] == content + Zeros(0);
      }
    }
  }

  /** The output of a non-empty binary is recognised as UF2 and is one 512-byte block per 256 bytes of input. */
  lemma ToUF2IsUF2(content: seq<byte>, appStartAddr: int)
    requires content != [] && ToUF2(content, appStartAddr).Ok?
    ensures |ToUF2(content, appStartAddr).value| == 512 * NumBlocks(|content|)
    ensures IsUF2(ToUF2(content, appStartAddr).value) == Some(true)
  {
    ReadOutputBlock(content, appStartAddr, 0);
  }

  // ---------------------------------------------------------------------------
  // Bad start magics

  /**
   * As written, a first block with a bad start magic aborts the conversion: the log line meant to
   * announce the skip adds the block's offset, a number, to a string.
   */
  lemma BadMagicAborts(buf: seq<byte>)
    requires |buf| >= 512 && Word(buf, 0) != UF2_MAGIC_START0
    ensures FromUF2(buf, false) == Err(BadMagic(0))
  {
    var bs := ReadBlocks(buf);
    assert bs[0] == ReadBlock(buf, 0);
    FailedStays(bs, 1, |bs|, false);
  }

  /** Skipping bad-magic blocks, as intended, the first `n` of them convert to nothing. */
  lemma {:induction false} BadMagicSkipped(bs: seq<RawBlock>, n: nat)
    requires n <= |bs| && WellRead(bs)
    requires forall k :: 0 <= k < n ==> bs[k].header.magicStart0 != UF2_MAGIC_START0
    ensures Run(bs, n, true) == Running(None, [])
  {
    if n > 0 {
      BadMagicSkipped(bs, n - 1);
    }
  }

  /** Skipping bad-magic blocks, a buffer made only of them converts to nothing. */
  lemma BadMagicBlocksSkipped(buf: seq<byte>)
    requires forall k :: 0 <= k < |buf| / 512 ==> Word(buf, 512 * k) != UF2_MAGIC_START0
    ensures FromUF2(buf, true) == Ok([])
  {
    BadMagicSkipped(ReadBlocks(buf), |buf| / 512);
  }
}
