/** The allocator's heap and arena records (`t_heap`, `t_arena`), whose
    fields the allocation engine updates in place.

    A heap's memory is abstracted to the chunk headers written in it
    (`chunks`, keyed by offset from the start of the mapping).  The ghost
    `carved` lists, in address order, the chunks carved so far; together
    with the top chunk they tile the heap (`Chunk.Tiles`).  A heap chain is
    linked by the immutable `next` pointer; the arena keeps, next to each
    chain's head pointer, the ghost sequence of the heaps on it.
 */
module ArenaState {
  import opened Chunk

  class Heap {
    const kind: HeapKind
    const capacity: nat   // bytes mapped for this heap
    const base: nat       // offset of its first chunk
    const next: Heap?     // next heap of the same class in the same arena
    var free: nat         // approximate count of unallocated bytes
    var top: Option<nat>  // offset of the top chunk, None when there is none
    var chunks: map<nat, Header>
    ghost var carved: seq<nat>

    ghost predicate Valid(cfg: Config)
      reads this
    {
      && capacity == HeapSize(cfg, kind)
      && free <= capacity
      && match top
         case None => carved == []
         case Some(t) =>
           && t in chunks
           && chunks[t].word.topChunk
           && t + cfg.header + chunks[t].word.size == capacity
           && chunks[t].word.size <= free
           && Tiles(cfg, chunks, carved, base, t)
    }

    /** The usable size of the top chunk, 0 when there is none. */
    ghost function TopSize(): nat
      reads this
    {
      if top.Some? && top.value in chunks then chunks[top.value].word.size else 0
    }

    /** `heap_create` (whose body is not part of this model) maps a heap of
        `HeapSize(kind)` bytes and lays one top chunk over all of it after
        the heap's own header. */
    constructor Map(cfg: Config, kind: HeapKind, next: Heap?)
      requires cfg.Valid()
      ensures Valid(cfg)
      ensures this.kind == kind && this.next == next && base == cfg.heapBase
      ensures top == Some(cfg.heapBase) && carved == []
      ensures free == HeapSize(cfg, kind) - cfg.heapBase
      ensures TopSize() == HeapSize(cfg, kind) - cfg.heapBase - cfg.header
    {
      this.kind := kind;
      this.next := next;
      var cap := HeapSize(cfg, kind);
      capacity := cap;
      base := cfg.heapBase;
      free := cap - cfg.heapBase;
      top := Some(cfg.heapBase);
      chunks := map[cfg.heapBase := Header(0, SizeWord(cap - cfg.heapBase - cfg.header, true, true, kind == Small))];
      carved := [];
    }
  }

  /** A pointer to a chunk: the heap it lies in and its offset there. */
  datatype ChunkRef = ChunkRef(heap: Heap, offset: nat)

  /** Number of slots of `t_arena.bins`. */
  const BinSlots: nat := 257

  /** A heap chain as the engine walks it: `head` is its first heap, each
      heap's `next` is the one after it, and every heap is of class `kind`. */
  ghost predicate Linked(head: Heap?, chain: seq<Heap>, kind: HeapKind) {
    && head == (if chain == [] then null else chain[0])
    && forall i :: 0 <= i < |chain| ==> LinkAt(chain, i, kind)
  }

  /** The heap at position `i` of a chain is of class `kind` and points to
      the one after it. */
  ghost predicate LinkAt(chain: seq<Heap>, i: nat, kind: HeapKind)
    requires i < |chain|
  {
    chain[i].kind == kind && chain[i].next == NextInChain(chain, i)
  }

  /** No heap occurs twice on a chain. */
  ghost predicate Distinct(chain: seq<Heap>) {
    forall i, j :: 0 <= i < j < |chain| ==> Apart(chain, i, j)
  }

  /** The heaps at positions `i` and `j` of a chain are different objects. */
  ghost predicate Apart(chain: seq<Heap>, i: nat, j: nat)
    requires i < |chain| && j < |chain|
  {
    chain[i] != chain[j]
  }

  lemma DistinctAt(chain: seq<Heap>, i: nat, j: nat)
    requires Distinct(chain) && i < |chain| && j < |chain| && i != j
    ensures chain[i] != chain[j]
  {
    if i < j {
      assert Apart(chain, i, j);
    } else {
      assert Apart(chain, j, i);
    }
  }

  function NextInChain(chain: seq<Heap>, i: nat): Heap?
    requires i < |chain|
  {
    if i + 1 < |chain| then chain[i + 1] else null
  }

  /** A chunk waiting in fast bin `b`: a carved chunk of its heap whose size,
      header included, is `(b + 1) * ALIGNMENT`, the size served by slot `b`. */
  ghost predicate Binned(cfg: Config, e: ChunkRef, b: nat)
    reads e.heap
    requires cfg.Valid()
  {
    BinnedAt(cfg, e.heap.carved, e.heap.chunks, e.offset, b)
  }

  ghost predicate BinnedAt(cfg: Config, carved: seq<nat>, chunks: map<nat, Header>, off: nat, b: nat)
    requires cfg.Valid()
  {
    && off in carved
    && off in chunks
    && cfg.header + chunks[off].word.size == (b + 1) * cfg.alignment
  }

  class Arena {
    var id: int
    var allocCount: nat
    var freeCount: nat
    const bins: array<Option<ChunkRef>>
    var heapHeader: Heap?
    var next: Arena?
    const fastbin: array<seq<ChunkRef>>   // each slot a LIFO list, head first
    var tiny: Heap?
    var small: Heap?
    ghost var chains: map<HeapKind, seq<Heap>>   // the heaps of each class, head first

    /** A zero-filled arena page, as `internal_alloc` returns it and as the
        embedded first arena starts out. */
    constructor Zeroed(cfg: Config)
      requires cfg.Valid()
      ensures BinValid(cfg) && fresh(bins) && fresh(fastbin)
      ensures bins.Length == BinSlots && next == null
      ensures id == 0 && allocCount == 0 && freeCount == 0 && heapHeader == null
      ensures Chain(Tiny) == [] && Chain(Small) == []
      ensures forall b :: 0 <= b < fastbin.Length ==> fastbin[b] == []
    {
      id, allocCount, freeCount := 0, 0, 0;
      bins := new Option<ChunkRef>[BinSlots](_ => None);
      heapHeader, next := null, null;
      fastbin := new seq<ChunkRef>[cfg.fastbinCount](_ => []);
      tiny, small := null, null;
      chains := map[Tiny := [], Small := []];
    }

    function Head(kind: HeapKind): Heap?
      reads this`tiny, this`small
    {
      if kind == Tiny then tiny else small
    }

    ghost function Chain(kind: HeapKind): seq<Heap>
      reads this`chains
    {
      if kind in chains then chains[kind] else []
    }

    /** The heaps of both chains, tiny ones first. */
    ghost function Heaps(): seq<Heap>
      reads this`chains
    {
      Chain(Tiny) + Chain(Small)
    }

    /** The chain of class `kind` is recorded, linked from its head and
        free of repeats. */
    ghost predicate Chained(kind: HeapKind)
      reads this`tiny, this`small, this`chains
    {
      kind in chains && Linked(Head(kind), chains[kind], kind) && Distinct(chains[kind])
    }

    ghost predicate BinValid(cfg: Config)
      reads this`tiny, this`small, this`chains, fastbin, Heaps()
    {
      && cfg.Valid()
      && fastbin.Length == cfg.fastbinCount
      && Chained(Tiny) && Chained(Small)
      && (forall h :: h in Heaps() ==> h.Valid(cfg))
      && (forall b, j :: 0 <= b < fastbin.Length && 0 <= j < |fastbin[b]| ==>
            fastbin[b][j].heap in Heaps() && Binned(cfg, fastbin[b][j], b))
    }

    /** `heap_create`: when the mapping is `granted`, a fresh heap of class
        `kind` becomes the head of that chain; otherwise nothing changes. */
    method HeapCreate(cfg: Config, kind: HeapKind, granted: bool) returns (ghost made: seq<Heap>)
      requires BinValid(cfg)
      modifies this`tiny, this`small, this`chains
      ensures BinValid(cfg)
      ensures |made| <= 1 && (granted <==> |made| == 1)
      ensures forall h :: h in made ==> fresh(h) && h.top.Some? && h.carved == []
      ensures forall h :: h in made ==> h.kind == kind && h.free == HeapSize(cfg, kind) - cfg.heapBase
      ensures forall h :: h in made ==> h.Valid(cfg) && h.TopSize() == HeapSize(cfg, kind) - cfg.heapBase - cfg.header
      ensures Chain(kind) == made + old(Chain(kind))
      ensures chains == old(chains)[kind := Chain(kind)]
      ensures kind == Tiny ==> small == old(small)
      ensures kind == Small ==> tiny == old(tiny)
      ensures forall x :: x in Heaps() <==> x in made || x in old(Heaps())
    {
      made := [];
      if granted {
        var h := new Heap.Map(cfg, kind, Head(kind));
        ghost var before := Heaps();
        LinkedPrepend(h, Head(kind), Chain(kind), kind);
        DistinctPrepend(h, Chain(kind));
        chains := chains[kind := [h] + Chain(kind)];
        if kind == Tiny {
          tiny := h;
        } else {
          small := h;
        }
        made := [h];
        assert Chained(kind);
        assert forall x :: x in Heaps() <==> x == h || x in before;
        forall x | x in Heaps()
          ensures x.Valid(cfg)
        {
          if x != h {
            assert x in before && old(x.Valid(cfg));
          }
        }
        forall b, j | 0 <= b < fastbin.Length && 0 <= j < |fastbin[b]|
          ensures fastbin[b][j].heap in Heaps() && Binned(cfg, fastbin[b][j], b)
        {
          assert fastbin[b][j].heap in before;
        }
      }
    }
  }

  /** The two chains of an arena share no heap: each heap on a chain is of
      that chain's class. */
  lemma ChainsApart(arena: Arena, kind: HeapKind, h: Heap)
    requires arena.Chained(kind) && arena.Chained(Other(kind))
    requires h in arena.Chain(Other(kind))
    ensures h !in arena.Chain(kind)
  {
    var i :| 0 <= i < |arena.Chain(Other(kind))| && arena.Chain(Other(kind))[i] == h;
    assert LinkAt(arena.Chain(Other(kind)), i, Other(kind));
    forall j | 0 <= j < |arena.Chain(kind)|
      ensures arena.Chain(kind)[j] != h
    {
      assert LinkAt(arena.Chain(kind), j, kind);
    }
  }

  /** Every heap on a chain of the arena is one of its heaps. */
  lemma ChainInHeaps(arena: Arena, kind: HeapKind, j: nat)
    requires j < |arena.Chain(kind)|
    ensures arena.Chain(kind)[j] in arena.Heaps()
  {
    if kind == Tiny {
      assert arena.Heaps()[j] == arena.Chain(kind)[j];
    } else {
      assert arena.Heaps()[|arena.Chain(Tiny)| + j] == arena.Chain(kind)[j];
    }
  }

  lemma LinkedPrepend(h: Heap, head: Heap?, chain: seq<Heap>, kind: HeapKind)
    requires Linked(head, chain, kind)
    requires h.kind == kind && h.next == head
    ensures Linked(h, [h] + chain, kind)
  {
    var c := [h] + chain;
    forall i | 0 <= i < |c|
      ensures LinkAt(c, i, kind)
    {
      if i > 0 {
        assert c[i] == chain[i - 1] && LinkAt(chain, i - 1, kind);
      }
    }
  }

  lemma DistinctPrepend(h: Heap, chain: seq<Heap>)
    requires Distinct(chain) && h !in chain
    ensures Distinct([h] + chain)
  {
    var c := [h] + chain;
    forall i, j | 0 <= i < j < |c|
      ensures Apart(c, i, j)
    {
      if i == 0 {
        assert c[j] == chain[j - 1] && c[j] in chain;
      } else {
        assert Apart(chain, i - 1, j - 1);
      }
    }
  }

  /** The parts of `Heap.Valid` when the heap has a top chunk at `t`. */
  lemma ValidWithTop(cfg: Config, h: Heap, t: nat)
    requires h.capacity == HeapSize(cfg, h.kind) && h.free <= h.capacity
    requires h.top == Some(t) && t in h.chunks && h.chunks[t].word.topChunk
    requires t + cfg.header + h.chunks[t].word.size == h.capacity && h.chunks[t].word.size <= h.free
    requires Tiles(cfg, h.chunks, h.carved, h.base, t)
    ensures h.Valid(cfg)
  {
  }

  /** The carved chunks and the top chunk cover a heap exactly, from its
      first chunk to the end of the mapping. */
  lemma HeapConservation(cfg: Config, h: Heap)
    requires cfg.Valid() && h.Valid(cfg) && h.top.Some?
    ensures forall k :: 0 <= k < |h.carved| ==> h.carved[k] in h.chunks
    ensures h.base + Span(cfg, h.chunks, h.carved) + cfg.header + h.TopSize() == h.capacity
  {
    TilesConserve(cfg, h.chunks, h.carved, h.base, h.top.value);
  }

  /** A fast-bin entry stays good while its chunk stays carved with the same size. */
  lemma BinnedKept(cfg: Config, off: nat, b: nat, carved0: seq<nat>, chunks0: map<nat, Header>,
                   carved1: seq<nat>, chunks1: map<nat, Header>)
    requires cfg.Valid() && BinnedAt(cfg, carved0, chunks0, off, b)
    requires off in carved1 && off in chunks1 && chunks1[off].word.size == chunks0[off].word.size
    ensures BinnedAt(cfg, carved1, chunks1, off, b)
  {
  }
}
