/** The endpoint buffer codec: byte slices packed little-endian into the
    32-bit words of packet memory, and read back out of them. */
module Codec {
  import opened Types

  /** A channel's region of packet memory: byte address and length. */
  datatype EndpointBuffer = EndpointBuffer(addr: u16, len: u16)

  /** Regions handed out by the allocator are word aligned, a whole number of
      words long, and inside packet memory. */
  predicate BufferFits(eb: EndpointBuffer)
  {
    eb.addr % USBRAM_ALIGN == 0 && eb.len % USBRAM_ALIGN == 0 && eb.addr + eb.len <= USBRAM_SIZE
  }

  /** Number of words that hold `n` bytes. */
  function WordCount(n: nat): nat
  {
    (n + USBRAM_ALIGN - 1) / USBRAM_ALIGN
  }

  /** `u32::to_le_bytes`. */
  function WordBytes(w: u32): (b: seq<u8>)
    ensures |b| == 4
  {
    [w % 0x100, w / 0x100 % 0x100, w / 0x1_0000 % 0x100, w / 0x100_0000]
  }

  /** `u32::from_le_bytes` of up to four bytes, the missing high bytes zero:
      the bytes come back out in order, followed by zero padding. */
  function PackWord(b: seq<u8>): (w: u32)
    requires |b| <= 4
    ensures forall k :: 0 <= k < |b| ==> WordBytes(w)[k] == b[k]
    ensures forall k :: |b| <= k < 4 ==> WordBytes(w)[k] == 0
  {
    var b0 := if |b| > 0 then b[0] else 0;
    var b1 := if |b| > 1 then b[1] else 0;
    var b2 := if |b| > 2 then b[2] else 0;
    var b3 := if |b| > 3 then b[3] else 0;
    LittleEndian(b0, b1, b2, b3);
    b0 as int + b1 as int * 0x100 + b2 as int * 0x1_0000 + b3 as int * 0x100_0000
  }

  lemma LittleEndian(b0: u8, b1: u8, b2: u8, b3: u8)
    ensures 0 <= b0 + b1 * 0x100 + b2 * 0x1_0000 + b3 * 0x100_0000 < 0x1_0000_0000
    ensures WordBytes(b0 + b1 * 0x100 + b2 * 0x1_0000 + b3 * 0x100_0000) == [b0, b1, b2, b3]
  {
    var w := b0 + b1 * 0x100 + b2 * 0x1_0000 + b3 * 0x100_0000;
    assert w / 0x100 == b1 + b2 * 0x100 + b3 * 0x1_0000;
    assert w / 0x1_0000 == b2 + b3 * 0x100;
    assert w / 0x100_0000 == b3;
  }

  /** The bytes of word `i` of a packed slice: `min(4, |b| - 4 i)` of them. */
  function Chunk(b: seq<u8>, i: nat): (c: seq<u8>)
    requires i < WordCount(|b|)
    ensures 1 <= |c| <= 4
  {
    b[i * USBRAM_ALIGN .. Min(i * USBRAM_ALIGN + USBRAM_ALIGN, |b|)]
  }

  /** The words `EndpointBuffer::write` stores for `b`. */
  function Pack(b: seq<u8>): (ws: seq<u32>)
    ensures |ws| == WordCount(|b|)
  {
    seq(WordCount(|b|), i requires 0 <= i < WordCount(|b|) => PackWord(Chunk(b, i)))
  }

  /** The `n` bytes `EndpointBuffer::read` produces from the words of `ws`
      that start at word `start`. */
  function Unpack(ws: seq<u32>, start: nat, n: nat): (b: seq<u8>)
    requires start + WordCount(n) <= |ws|
    ensures |b| == n
  {
    seq(n, j requires 0 <= j < n => WordBytes(ws[start + j / USBRAM_ALIGN])[j % USBRAM_ALIGN])
  }

  /** `ws` with the words `xs` written from word `start` on. */
  function Splice(ws: seq<u32>, start: nat, xs: seq<u32>): (r: seq<u32>)
    requires start + |xs| <= |ws|
    ensures |r| == |ws|
    ensures forall k :: 0 <= k < |ws| ==> r[k] == if start <= k < start + |xs| then xs[k - start] else ws[k]
  {
    ws[..start] + xs + ws[start + |xs|..]
  }

  /** Reading any prefix of what was written returns that prefix of it. */
  lemma {:induction false} ReadAfterWrite(ws: seq<u32>, start: nat, b: seq<u8>, k: nat)
    requires start + WordCount(|b|) <= |ws|
    requires k <= |b|
    ensures start + WordCount(k) <= |ws|
    ensures Unpack(Splice(ws, start, Pack(b)), start, k) == b[..k]
  {
    var after := Splice(ws, start, Pack(b));
    forall j | 0 <= j < k
      ensures Unpack(after, start, k)[j] == b[j]
    {
      var i := j / USBRAM_ALIGN;
      assert after[start + i] == PackWord(Chunk(b, i));
      assert Chunk(b, i)[j % USBRAM_ALIGN] == b[j];
    }
  }

  /** The final word of a write is zero-padded past the end of the data. */
  lemma {:induction false} WritePadsWithZero(b: seq<u8>, j: nat)
    requires |b| <= j < USBRAM_ALIGN * WordCount(|b|)
    ensures WordBytes(Pack(b)[j / USBRAM_ALIGN])[j % USBRAM_ALIGN] == 0
  {
    var i := j / USBRAM_ALIGN;
    assert |Chunk(b, i)| == |b| - i * USBRAM_ALIGN;
  }

  /** Word index of the first word of a buffer. */
  function BaseWord(eb: EndpointBuffer): nat
  {
    eb.addr / USBRAM_ALIGN
  }

  lemma BufferWordsInRam(eb: EndpointBuffer, n: nat)
    requires BufferFits(eb) && n <= eb.len
    ensures BaseWord(eb) + WordCount(n) <= RAM_WORDS
  {
  }

  /** `EndpointBuffer::write`: packs `buf` into the buffer's words and leaves
      every other word of packet memory as it was. */
  method Write(ram: array<u32>, eb: EndpointBuffer, buf: seq<u8>)
    requires ram.Length == RAM_WORDS && BufferFits(eb)
    requires |buf| <= eb.len
    modifies ram
    ensures BaseWord(eb) + WordCount(|buf|) <= ram.Length
    ensures ram[..] == Splice(old(ram[..]), BaseWord(eb), Pack(buf))
  {
    BufferWordsInRam(eb, |buf|);
    var base := eb.addr as nat / USBRAM_ALIGN;
    var words := (|buf| + USBRAM_ALIGN - 1) / USBRAM_ALIGN;
    ghost var packed := Pack(buf);
    var i := 0;
    while i < words
      invariant 0 <= i <= words
      invariant forall k :: 0 <= k < ram.Length ==>
        ram[k] == if base <= k < base + i then packed[k - base] else old(ram[k])
    {
      var n := Min(USBRAM_ALIGN, |buf| - i * USBRAM_ALIGN);
      assert buf[i * USBRAM_ALIGN .. i * USBRAM_ALIGN + n] == Chunk(buf, i);
      ram[base + i] := PackWord(buf[i * USBRAM_ALIGN .. i * USBRAM_ALIGN + n]);
      i := i + 1;
    }
    assert ram[..] == Splice(old(ram[..]), base, packed);
  }

  /** The unpacked bytes `4 i .. 4 i + m` are the first `m` bytes of word `i`. */
  lemma UnpackWord(ws: seq<u32>, start: nat, n: nat, i: nat, m: nat)
    requires start + WordCount(n) <= |ws| && 1 <= m <= USBRAM_ALIGN && i * USBRAM_ALIGN + m <= n
    ensures start + i < |ws|
    ensures forall k :: i * USBRAM_ALIGN <= k < i * USBRAM_ALIGN + m ==>
      Unpack(ws, start, n)[k] == WordBytes(ws[start + i])[k - i * USBRAM_ALIGN]
  {
    forall k | i * USBRAM_ALIGN <= k < i * USBRAM_ALIGN + m
      ensures Unpack(ws, start, n)[k] == WordBytes(ws[start + i])[k - i * USBRAM_ALIGN]
    {
      assert k / USBRAM_ALIGN == i && k % USBRAM_ALIGN == k - i * USBRAM_ALIGN;
    }
  }

  /** A sequence that agrees with `part` at `off ..` and with `before`
      elsewhere is `part` spliced into `before`. */
  lemma SplicedBytes(before: seq<u8>, after: seq<u8>, off: nat, part: seq<u8>)
    requires |after| == |before| && off + |part| <= |before|
    requires forall k :: 0 <= k < |after| ==> after[k] == if off <= k < off + |part| then part[k - off] else before[k]
    ensures after == before[..off] + part + before[off + |part|..]
  {
  }

  /** `EndpointBuffer::read` into `dest[off .. off + n]`: those bytes become the
      buffer's first `n` bytes; nothing else in `dest` changes. */
  method Read(ram: array<u32>, eb: EndpointBuffer, dest: array<u8>, off: nat, n: nat)
    requires ram.Length == RAM_WORDS && BufferFits(eb)
    requires off + n <= dest.Length
    requires n <= eb.len
    modifies dest
    ensures BaseWord(eb) + WordCount(n) <= ram.Length
    ensures dest[..] == old(dest[..])[..off] + Unpack(ram[..], BaseWord(eb), n) + old(dest[..])[off + n..]
  {
    BufferWordsInRam(eb, n);
    var base := eb.addr as nat / USBRAM_ALIGN;
    var words := (n + USBRAM_ALIGN - 1) / USBRAM_ALIGN;
    ghost var want := Unpack(ram[..], base, n);
    var i := 0;
    while i < words
      invariant 0 <= i <= words
      invariant forall k :: 0 <= k < dest.Length ==>
        dest[k] == if off <= k < off + Min(i * USBRAM_ALIGN, n) then want[k - off] else old(dest[k])
    {
      var val := ram[base + i];
      var m := Min(USBRAM_ALIGN, n - i * USBRAM_ALIGN);
      UnpackWord(ram[..], base, n, i, m);
      forall j | 0 <= j < m {
        dest[off + i * USBRAM_ALIGN + j] := WordBytes(val)[j];
      }
      i := i + 1;
    }
    SplicedBytes(old(dest[..]), dest[..], off, want);
  }
}
