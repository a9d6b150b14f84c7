/** Values behind the allocator's chunk and heap headers.

    The constants and accessor macros of the allocator (the header size,
    ALIGNMENT, MXFAST, TINY_USER, the heap sizes) come from a header that is
    not part of this model, so they are gathered in a `Config` value that
    every operation receives.  A chunk header is a `Header`: the size of the
    preceding chunk plus a `SizeWord`, the packed size word written as a
    record of the usable size and its three flag bits.  `GET_SIZE` is the
    `size` field; `GET_NEXT(c)` is `c + header + GET_SIZE(c)` (`NextOf`).
 */
module Chunk {

  datatype Option<T> = None | Some(value: T)

  /** The two size classes of heaps. */
  datatype HeapKind = Tiny | Small

  /** The heap class that is not `kind`. */
  function Other(kind: HeapKind): (o: HeapKind)
    ensures o != kind
  {
    if kind == Tiny then Small else Tiny
  }

  datatype Config = Config(
    header: nat,        // sizeof(t_chunk): prev_size plus the size word
    alignment: nat,     // ALIGNMENT
    mxfast: nat,        // options.MXFAST, the fast-bin ceiling
    fastbinCount: nat,  // number of slots of arena->fastbin
    tinyUser: nat,      // TINY_USER: largest aligned request served by TINY heaps
    tinySize: nat,      // TINY_SIZE: bytes mapped for one TINY heap
    smallSize: nat,     // SMALL_SIZE: bytes mapped for one SMALL heap
    heapBase: nat)      // offset of the first chunk of a freshly mapped heap
  {
    ghost predicate Valid() {
      && header > 0
      && alignment > 0
      && mxfast / alignment <= fastbinCount
      && heapBase + header <= tinySize
      && heapBase + header <= smallSize
    }
  }

  function HeapSize(cfg: Config, kind: HeapKind): nat {
    if kind == Tiny then cfg.tinySize else cfg.smallSize
  }

  /** The size word of a chunk: usable size plus PREV_INUSE, TOP_CHUNK and HEAP_TYPE. */
  datatype SizeWord = SizeWord(size: nat, prevInuse: bool, topChunk: bool, heapType: bool)

  /** A chunk header as it sits in memory: `prev_size` then the size word. */
  datatype Header = Header(prevSize: nat, word: SizeWord)

  /** GET_NEXT: the offset just past the chunk at `off`. */
  function NextOf(cfg: Config, off: nat, h: Header): nat {
    off + cfg.header + h.word.size
  }

  /** ALIGN: the least multiple of ALIGNMENT that is at least `x`. */
  function Align(cfg: Config, x: nat): (r: nat)
    requires cfg.alignment > 0
    ensures x <= r < x + cfg.alignment
    ensures r % cfg.alignment == 0
  {
    var a := cfg.alignment;
    var q := (x + a - 1) / a;
    DivBounds(x + a - 1, a);
    MultipleMod(q, a);
    q * a
  }

  lemma DivBounds(n: nat, a: nat)
    requires a > 0
    ensures n - a < (n / a) * a <= n
  {
    assert n == (n / a) * a + n % a;
  }

  lemma MultipleMod(q: nat, a: nat)
    requires a > 0
    ensures (q * a) % a == 0
  {
    DivUnique(q * a, a, q, 0);
  }

  lemma {:induction false} MulMono(x: nat, y: nat, a: nat)
    requires x <= y
    ensures x * a <= y * a
    decreases y - x
  {
    if x < y {
      MulMono(x, y - 1, a);
      assert y * a == (y - 1) * a + a;
    }
  }

  /** The fast-bin slot of an aligned chunk size: `(size - 1) / ALIGNMENT`. */
  function BinIndex(cfg: Config, size: nat): nat
    requires cfg.alignment > 0
    requires size > 0
  {
    (size - 1) / cfg.alignment
  }

  /** For an aligned size the slot gives the size back: `(index + 1) * ALIGNMENT == size`,
      and a size at most MXFAST lands in a slot below `MXFAST / ALIGNMENT`. */
  lemma {:induction false} BinIndexRecoversSize(cfg: Config, size: nat)
    requires cfg.alignment > 0
    requires size > 0 && size % cfg.alignment == 0
    ensures (BinIndex(cfg, size) + 1) * cfg.alignment == size
    ensures size <= cfg.mxfast ==> BinIndex(cfg, size) < cfg.mxfast / cfg.alignment
  {
    var a := cfg.alignment;
    var q := size / a;
    assert size == q * a;
    assert q >= 1;
    assert size - 1 == (q - 1) * a + (a - 1);
    DivUnique(size - 1, a, q - 1, a - 1);
    if size <= cfg.mxfast {
      DivMonotone(size, cfg.mxfast, a);
      assert size / a == q by { DivUnique(size, a, q, 0); }
    }
  }

  /** The chunks of slot `BinIndex(size)` are large enough for `size`,
      with less than one ALIGNMENT to spare. */
  lemma BinIndexFits(cfg: Config, size: nat)
    requires cfg.alignment > 0 && size > 0
    ensures size <= (BinIndex(cfg, size) + 1) * cfg.alignment < size + cfg.alignment
  {
    var a := cfg.alignment;
    var q := (size - 1) / a;
    assert size - 1 == q * a + (size - 1) % a;
    assert (q + 1) * a == q * a + a;
  }

  lemma DivUnique(n: nat, a: nat, q: nat, r: nat)
    requires a > 0 && r < a && n == q * a + r
    ensures n / a == q && n % a == r
  {
    var d, m := n / a, n % a;
    assert n == d * a + m;
    assert (d + 1) * a == d * a + a;
    assert (q + 1) * a == q * a + a;
    if d < q {
      MulMono(d + 1, q, a);
    }
    if q < d {
      MulMono(q + 1, d, a);
    }
    assert d == q;
  }

  lemma DivMonotone(x: nat, y: nat, a: nat)
    requires a > 0 && x <= y
    ensures x / a <= y / a
  {
    var qx, qy := x / a, y / a;
    assert y == qy * a + y % a;
    assert x == qx * a + x % a;
    assert (qy + 1) * a == qy * a + a;
    if qx > qy {
      MulMono(qy + 1, qx, a);
    }
  }

  /** Two aligned sizes in the same fast-bin slot are equal. */
  lemma {:induction false} SameBinSameSize(cfg: Config, s1: nat, s2: nat)
    requires cfg.alignment > 0
    requires s1 > 0 && s1 % cfg.alignment == 0
    requires s2 > 0 && s2 % cfg.alignment == 0
    requires BinIndex(cfg, s1) == BinIndex(cfg, s2)
    ensures s1 == s2
  {
    BinIndexRecoversSize(cfg, s1);
    BinIndexRecoversSize(cfg, s2);
  }

  /** The two headers written when `size` bytes are carved off a top chunk
      whose header is `top` in a heap of class `kind`: the carved chunk
      keeps its place, and the remainder becomes the new top chunk. */
  function CarveTop(cfg: Config, kind: HeapKind, top: Header, size: nat): (r: (Header, Header))
    requires cfg.header <= size <= top.word.size
    // no byte is lost or gained
    ensures r.0.word.size + cfg.header + r.1.word.size == top.word.size
    // the carved chunk keeps HEAP_TYPE and PREV_INUSE of the old top, loses TOP_CHUNK
    ensures r.0.word.prevInuse == top.word.prevInuse && r.0.word.heapType == top.word.heapType
    ensures !r.0.word.topChunk && r.0.prevSize == top.prevSize
    // the remainder is the top chunk, follows an in-use chunk, and records its size
    ensures r.1.word.topChunk && r.1.word.prevInuse
    ensures r.1.word.heapType <==> kind == Small
    ensures r.1.prevSize == r.0.word.size
  {
    var carved := Header(top.prevSize, SizeWord(size - cfg.header, top.word.prevInuse, false, top.word.heapType));
    var rest := Header(size - cfg.header, SizeWord(top.word.size - size, true, true, kind == Small));
    (carved, rest)
  }

  /** The carved chunks, in address order, tile the heap from `base` up to
      the top chunk at `top`: the last one ends at the top chunk, and the
      ones before it tile the heap up to the last one. */
  ghost predicate Tiles(cfg: Config, chunks: map<nat, Header>, carved: seq<nat>, base: nat, top: nat)
    decreases |carved|
  {
    if carved == [] then top == base
    else
      var last := carved[|carved| - 1];
      && last in chunks
      && NextOf(cfg, last, chunks[last]) == top
      && Tiles(cfg, chunks, carved[..|carved| - 1], base, last)
  }

  /** Bytes covered by the carved chunks, headers included. */
  ghost function Span(cfg: Config, chunks: map<nat, Header>, carved: seq<nat>): nat
    requires forall k :: 0 <= k < |carved| ==> carved[k] in chunks
  {
    if carved == [] then 0
    else Span(cfg, chunks, carved[..|carved| - 1]) + cfg.header + chunks[carved[|carved| - 1]].word.size
  }

  /** Every carved chunk has a header and lies below the top chunk. */
  lemma {:induction false} CarvedBelowTop(cfg: Config, chunks: map<nat, Header>, carved: seq<nat>, base: nat, top: nat)
    requires cfg.header > 0
    requires Tiles(cfg, chunks, carved, base, top)
    ensures forall x :: x in carved ==> x < top && x in chunks
    decreases |carved|
  {
    if carved != [] {
      var n := |carved|;
      var pre := carved[..n - 1];
      CarvedBelowTop(cfg, chunks, pre, base, carved[n - 1]);
      assert carved == pre + [carved[n - 1]];
    }
  }

  /** Conservation: the carved chunks cover exactly the bytes between the
      heap's first chunk and its top chunk. */
  lemma {:induction false} TilesConserve(cfg: Config, chunks: map<nat, Header>, carved: seq<nat>, base: nat, top: nat)
    requires cfg.header > 0
    requires Tiles(cfg, chunks, carved, base, top)
    ensures forall k :: 0 <= k < |carved| ==> carved[k] in chunks
    ensures base + Span(cfg, chunks, carved) == top
    decreases |carved|
  {
    CarvedBelowTop(cfg, chunks, carved, base, top);
    if carved != [] {
      var n := |carved|;
      TilesConserve(cfg, chunks, carved[..n - 1], base, carved[n - 1]);
    }
  }

  /** The tiling depends on the chunk sizes only. */
  lemma {:induction false} TilesKeepSizes(cfg: Config, c1: map<nat, Header>, c2: map<nat, Header>,
                                          carved: seq<nat>, base: nat, top: nat)
    requires Tiles(cfg, c1, carved, base, top)
    requires forall x :: x in carved ==> x in c1 && x in c2 && c2[x].word.size == c1[x].word.size
    ensures Tiles(cfg, c2, carved, base, top)
    decreases |carved|
  {
    if carved != [] {
      var n := |carved|;
      var pre := carved[..n - 1];
      assert forall x :: x in pre ==> x in carved;
      TilesKeepSizes(cfg, c1, c2, pre, base, carved[n - 1]);
    }
  }

  /** Carving at the top extends the tiling by one chunk. */
  lemma TilesCarve(cfg: Config, chunks: map<nat, Header>, carved: seq<nat>, base: nat, top: nat,
                   h: Header, size: nat, rest: Header)
    requires cfg.header > 0
    requires Tiles(cfg, chunks, carved, base, top)
    requires size > 0 && h.word.size + cfg.header == size
    ensures Tiles(cfg, chunks[top := h][top + size := rest], carved + [top], base, top + size)
  {
    var c2 := chunks[top := h][top + size := rest];
    CarvedBelowTop(cfg, chunks, carved, base, top);
    TilesKeepSizes(cfg, chunks, c2, carved, base, top);
    assert (carved + [top])[..|carved|] == carved;
  }

  /** The chunk physically after a carved chunk is a carved chunk or the top chunk. */
  lemma {:induction false} NextOfCarved(cfg: Config, chunks: map<nat, Header>, carved: seq<nat>, base: nat, top: nat, off: nat)
    requires cfg.header > 0
    requires Tiles(cfg, chunks, carved, base, top)
    requires top in chunks
    requires off in carved
    ensures off in chunks && NextOf(cfg, off, chunks[off]) in chunks
    ensures off < top
    decreases |carved|
  {
    var n := |carved|;
    var last := carved[n - 1];
    CarvedBelowTop(cfg, chunks, carved, base, top);
    if off != last {
      assert carved == carved[..n - 1] + [last];
      NextOfCarved(cfg, chunks, carved[..n - 1], base, last, off);
    }
  }
}
