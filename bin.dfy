/** The allocation engine of `bin.c`: carving chunks off a heap's top
    chunk, choosing the heap to carve from, reusing chunks parked in the
    fast bins, and the `find_memory` entry point that ties them together.

    `heap_create` is an oracle here: the n-th call of one `new_chunk`
    succeeds iff `grants[n]` is true (`Granted`), and on success it installs
    a fresh heap at the head of the chain (`Arena.HeapCreate`).
 */
module Bin {
  import opened Chunk
  import opened ArenaState

  // ---------------------------------------------------------------------
  // Heap selection, stated over what the loop reads of each heap
  // ---------------------------------------------------------------------

  /** What `new_chunk` sees of a heap: its `free` counter and the usable
      size of its top chunk (`room`, 0 when it has none). */
  datatype HeapSummary = HeapSummary(free: nat, room: nat)

  /** Summaries of heaps of `hs` bytes: the top chunk never exceeds the
      free counter, which never exceeds the heap. */
  predicate Bounded(s: seq<HeapSummary>, hs: nat) {
    forall k :: 0 <= k < |s| ==> s[k].room <= s[k].free <= hs
  }

  /** `usage` in `new_chunk`: the share of the heap in use, in whole percent. */
  function Usage(free: nat, hs: nat): (u: int)
    requires 0 < hs && free <= hs
    ensures 0 <= u <= 100
  {
    var used := (hs - free) * 100;
    DivBounds(used, hs);
    assert used <= hs * 100;
    DivMonotone(used, hs * 100, hs);
    DivUnique(hs * 100, hs, 100, 0);
    used / hs
  }

  /** A heap the loop stops at: it has room for `size` and is more than 10% in use. */
  predicate Busy(s: seq<HeapSummary>, j: nat, size: nat, hs: nat)
    requires 0 < hs && Bounded(s, hs) && j < |s|
  {
    s[j].free >= size && Usage(s[j].free, hs) > 10
  }

  /** The selection loop of `new_chunk` from the `k`-th heap on, with the
      best heap found so far and its usage (`best_usage` starts at -1000). */
  function Scan(s: seq<HeapSummary>, size: nat, hs: nat, k: nat, best: Option<nat>, bestUsage: int): (r: Option<nat>)
    requires 0 < hs && Bounded(s, hs) && k <= |s|
    requires best.Some? ==> best.value < k && s[best.value].free >= size
    requires best.None? ==> bestUsage < 0
    ensures r.Some? ==> r.value < |s| && s[r.value].free >= size
    ensures r.None? ==> best.None? && forall j :: k <= j < |s| ==> s[j].free < size
    decreases |s| - k
  {
    if k == |s| then best
    else if s[k].free >= size && Usage(s[k].free, hs) > 10 then Some(k)
    else if s[k].free >= size && Usage(s[k].free, hs) > bestUsage then
      Scan(s, size, hs, k + 1, Some(k), Usage(s[k].free, hs))
    else Scan(s, size, hs, k + 1, best, bestUsage)
  }

  /** The heap `new_chunk` picks, as an index into the chain. */
  function Select(s: seq<HeapSummary>, size: nat, hs: nat): (r: Option<nat>)
    requires 0 < hs && Bounded(s, hs)
    ensures r.Some? ==> r.value < |s| && s[r.value].free >= size
    ensures r.None? <==> forall j :: 0 <= j < |s| ==> s[j].free < size
  {
    Scan(s, size, hs, 0, None, -1000)
  }

  /** What the loop knows after looking at the first `k` heaps. */
  predicate ScanSoFar(s: seq<HeapSummary>, size: nat, hs: nat, k: nat, best: Option<nat>, bestUsage: int)
    requires 0 < hs && Bounded(s, hs) && k <= |s|
    requires best.Some? ==> best.value < k
  {
    && (forall j :: 0 <= j < k ==> !Busy(s, j, size, hs))
    && (best.None? ==> bestUsage == -1000 && forall j :: 0 <= j < k ==> s[j].free < size)
    && (best.Some? ==>
          && best.value < k && s[best.value].free >= size
          && bestUsage == Usage(s[best.value].free, hs)
          && forall j :: 0 <= j < k && s[j].free >= size ==>
               Usage(s[j].free, hs) <= bestUsage && (j < best.value ==> Usage(s[j].free, hs) < bestUsage))
  }

  /** `r` is the heap the selection rule of `new_chunk` designates: the first
      heap with room that is more than 10% in use; failing that, the most used
      heap with room, the earliest on ties; none iff no heap has room. */
  predicate SelectionRule(s: seq<HeapSummary>, size: nat, hs: nat, r: Option<nat>)
    requires 0 < hs && Bounded(s, hs)
  {
    && (r.None? <==> forall j :: 0 <= j < |s| ==> s[j].free < size)
    && (r.Some? ==>
          && r.value < |s| && s[r.value].free >= size
          && ((Busy(s, r.value, size, hs) && forall j :: 0 <= j < r.value ==> !Busy(s, j, size, hs))
              || ((forall j :: 0 <= j < |s| ==> !Busy(s, j, size, hs))
                  && forall j :: 0 <= j < |s| && s[j].free >= size ==>
                       Usage(s[j].free, hs) <= Usage(s[r.value].free, hs)
                       && (j < r.value ==> Usage(s[j].free, hs) < Usage(s[r.value].free, hs)))))
  }

  lemma {:induction false} ScanFollowsRule(s: seq<HeapSummary>, size: nat, hs: nat, k: nat, best: Option<nat>, bestUsage: int)
    requires 0 < hs && Bounded(s, hs) && k <= |s|
    requires best.Some? ==> best.value < k && s[best.value].free >= size
    requires ScanSoFar(s, size, hs, k, best, bestUsage)
    ensures SelectionRule(s, size, hs, Scan(s, size, hs, k, best, bestUsage))
    decreases |s| - k
  {
    if k < |s| {
      var u := Usage(s[k].free, hs);
      if s[k].free >= size && u > 10 {
      } else if s[k].free >= size && u > bestUsage {
        ScanFollowsRule(s, size, hs, k + 1, Some(k), u);
      } else {
        ScanFollowsRule(s, size, hs, k + 1, best, bestUsage);
      }
    }
  }

  /** Heap selection in `new_chunk` follows `SelectionRule`. */
  lemma SelectFollowsRule(s: seq<HeapSummary>, size: nat, hs: nat)
    requires 0 < hs && Bounded(s, hs)
    ensures SelectionRule(s, size, hs, Select(s, size, hs))
  {
    ScanFollowsRule(s, size, hs, 0, None, -1000);
  }

  // ---------------------------------------------------------------------
  // What one call of new_chunk does to its chain
  // ---------------------------------------------------------------------

  /** Which heap of the chain, as it stands after the call, is carved. */
  datatype Target = NoChunk | At(index: nat)

  /** The effect of one `new_chunk` call: `heap_create` calls made, heaps
      they added (newest first), and the heap carved. */
  datatype Outcome = Outcome(calls: nat, created: nat, target: Target)

  /** The answer of the n-th `heap_create` call of the current request. */
  function Granted(grants: seq<bool>, n: nat): bool {
    n < |grants| && grants[n]
  }

  function Repeat(x: HeapSummary, n: nat): (r: seq<HeapSummary>)
    ensures |r| == n && forall k :: 0 <= k < n ==> r[k] == x
  {
    seq(n, _ => x)
  }

  /** A freshly created heap, assuming `heap_create` lays one top chunk over
      all of the mapping after the heap's own header. */
  function Fresh(cfg: Config, kind: HeapKind): (f: HeapSummary)
    requires cfg.Valid()
    ensures f.room + cfg.header == f.free && f.free + cfg.heapBase == HeapSize(cfg, kind)
  {
    HeapSummary(HeapSize(cfg, kind) - cfg.heapBase, HeapSize(cfg, kind) - cfg.heapBase - cfg.header)
  }

  /** `new_chunk` with a non-empty `size`, from the heap selection on: `s`
      is the chain as the loop sees it, and `made` heaps were created so
      far with `calls` calls of `heap_create`. */
  function Choose(s: seq<HeapSummary>, size: nat, hs: nat, newHeap: HeapSummary, grants: seq<bool>,
                  calls: nat, made: nat): (o: Outcome)
    requires 0 < hs && Bounded(s, hs) && s != [] && 0 < size
    // at most one more heap, and the carved heap has a top chunk large enough
    ensures made <= o.created <= made + 1 && calls <= o.calls <= calls + 1
    ensures o.target.At? ==>
              var c := Repeat(newHeap, o.created - made) + s;
              o.target.index < |c| && size <= c[o.target.index].room
    // a heap created here is carved only when it is the newest one
    ensures o.created > made && o.target.At? ==> o.target.index == 0
    // an existing heap is carved only when the selection rule chose it, or
    // when the chosen one could not be split and the head of the chain is
    // tried after a refused heap_create
    ensures o.created == made && o.target.At? ==>
              && Select(s, size, hs).Some?
              && (o.target.index == Select(s, size, hs).value
                  || (o.target.index == 0 && made == 0 && o.calls == calls + 1 && s[Select(s, size, hs).value].room < size))
  {
    match Select(s, size, hs)
    case None => Retry(s, size, newHeap, grants, calls, made)
    case Some(i) =>
      if s[i].room >= size then Outcome(calls, made, At(i))
      else if made > 0 then Outcome(calls, made, NoChunk)
      else Retry(s, size, newHeap, grants, calls, made)
  }

  /** One more `heap_create`, then a split of the head of the chain: the new
      heap when the call is granted, the old head when it is refused. */
  function Retry(s: seq<HeapSummary>, size: nat, newHeap: HeapSummary, grants: seq<bool>, calls: nat, made: nat): Outcome
    requires s != []
  {
    var added := if Granted(grants, calls) then 1 else 0;
    var head := if Granted(grants, calls) then newHeap else s[0];
    if head.room >= size then Outcome(calls + 1, made + added, At(0))
    else Outcome(calls + 1, made + added, NoChunk)
  }

  /** The effect of `new_chunk(arena, size, kind)` on a chain summarised by `s`. */
  function Plan(s: seq<HeapSummary>, size: nat, hs: nat, newHeap: HeapSummary, grants: seq<bool>): (o: Outcome)
    requires 0 < hs && Bounded(s, hs) && newHeap.room <= newHeap.free <= hs
    // bounded: at most two heap_create calls, each adding at most one heap
    ensures o.created <= o.calls <= 2
    // the carved heap has a top chunk large enough
    ensures o.target.At? ==>
              var c := Repeat(newHeap, o.created) + s;
              o.target.index < |c| && 0 < size <= c[o.target.index].room
    // a heap created in this call is carved only when it is the newest one
    ensures o.created > 0 && o.target.At? ==> o.target.index == 0
    // an existing heap is carved only when the selection rule chose it, or
    // when that one could not be split and the head is tried instead
    ensures o.created == 0 && o.target.At? ==>
              && Select(s, size, hs).Some?
              && (o.target.index == Select(s, size, hs).value
                  || (o.target.index == 0 && o.calls == 1 && s[Select(s, size, hs).value].room < size))
    // the selected heap is used whenever its top chunk is large enough
    ensures s != [] && size > 0 && Select(s, size, hs).Some? && s[Select(s, size, hs).value].room >= size ==>
              o == Outcome(0, 0, At(Select(s, size, hs).value))
    // no heap is created when the request is empty
    ensures size == 0 ==> o == Outcome(0, 0, NoChunk)
  {
    if size == 0 then Outcome(0, 0, NoChunk)
    else if s == [] then
      if !Granted(grants, 0) then Outcome(1, 0, NoChunk)
      else Choose([newHeap], size, hs, newHeap, grants, 1, 1)
    else Choose(s, size, hs, newHeap, grants, 0, 0)
  }

  /** A heap after `size` bytes were carved off its top chunk and
      `best_heap->free -= size`. */
  function Take(h: HeapSummary, size: nat): (r: HeapSummary)
    requires size <= h.room <= h.free
    ensures r.free + size == h.free && r.room + size == h.room
  {
    HeapSummary(h.free - size, h.room - size)
  }

  /** The chain after the call: the heaps created, newest first, in front of
      the old chain, with the carved heap's counters reduced by `size`. */
  function After(o: Outcome, s: seq<HeapSummary>, hs: nat, newHeap: HeapSummary, size: nat): (r: seq<HeapSummary>)
    requires Bounded(s, hs) && newHeap.room <= newHeap.free <= hs
    requires o.target.At? ==>
               o.target.index < o.created + |s| && size <= (Repeat(newHeap, o.created) + s)[o.target.index].room
    ensures |r| == o.created + |s| && Bounded(r, hs)
    // only the carved heap changes, and its free counter drops by exactly `size`
    ensures forall k :: 0 <= k < |r| && o.target != At(k) ==> r[k] == (Repeat(newHeap, o.created) + s)[k]
    ensures o.target.At? ==> r[o.target.index].free + size == (Repeat(newHeap, o.created) + s)[o.target.index].free
  {
    var c := Repeat(newHeap, o.created) + s;
    if o.target.At? then c[o.target.index := Take(c[o.target.index], size)] else c
  }

  /** The selected heap is split. */
  lemma ChooseSelected(s: seq<HeapSummary>, size: nat, hs: nat, newHeap: HeapSummary, grants: seq<bool>,
                       calls: nat, made: nat, i: nat)
    requires 0 < hs && Bounded(s, hs) && s != [] && 0 < size && newHeap.room <= newHeap.free <= hs
    requires Select(s, size, hs) == Some(i) && size <= s[i].room
    ensures Choose(s, size, hs, newHeap, grants, calls, made) == Outcome(calls, made, At(i))
    ensures After(Outcome(calls, 0, At(i)), s, hs, newHeap, size) == s[i := Take(s[i], size)]
  {
  }

  /** The selected heap cannot be split and a heap was created earlier. */
  lemma ChooseGivesUp(s: seq<HeapSummary>, size: nat, hs: nat, newHeap: HeapSummary, grants: seq<bool>,
                      calls: nat, made: nat, i: nat)
    requires 0 < hs && Bounded(s, hs) && s != [] && 0 < size && newHeap.room <= newHeap.free <= hs
    requires Select(s, size, hs) == Some(i) && s[i].room < size && made > 0
    ensures Choose(s, size, hs, newHeap, grants, calls, made) == Outcome(calls, made, NoChunk)
    ensures After(Outcome(calls, 0, NoChunk), s, hs, newHeap, size) == s
  {
  }

  /** `heap_create` is tried once more: no heap was selected, or the
      selected one cannot be split and none was created yet. */
  lemma ChooseRetries(s: seq<HeapSummary>, size: nat, hs: nat, newHeap: HeapSummary, grants: seq<bool>,
                      calls: nat, made: nat)
    requires 0 < hs && Bounded(s, hs) && s != [] && 0 < size
    requires Select(s, size, hs).None? || (s[Select(s, size, hs).value].room < size && made == 0)
    ensures Choose(s, size, hs, newHeap, grants, calls, made) == Retry(s, size, newHeap, grants, calls, made)
  {
  }

  /** One more `heap_create`, then a split of the head of the chain `s1`
      it leaves. */
  lemma RetryAfter(s: seq<HeapSummary>, size: nat, hs: nat, newHeap: HeapSummary, grants: seq<bool>,
                   calls: nat, made: nat)
    requires Bounded(s, hs) && s != [] && newHeap.room <= newHeap.free <= hs
    ensures var added := if Granted(grants, calls) then 1 else 0;
            var s1 := Repeat(newHeap, added) + s;
            var o := Retry(s, size, newHeap, grants, calls, made);
            && o.calls == calls + 1 && o.created == made + added
            && (o.target.At? <==> size <= s1[0].room)
            && (o.target.At? ==>
                  o.target.index == 0 &&
                  After(Outcome(o.calls, added, o.target), s, hs, newHeap, size) == s1[0 := Take(s1[0], size)])
            && (o.target.NoChunk? ==> After(Outcome(o.calls, added, o.target), s, hs, newHeap, size) == s1)
  {
  }

  /** On a non-empty chain the selection runs at once. */
  lemma PlanOnChain(s: seq<HeapSummary>, size: nat, hs: nat, newHeap: HeapSummary, grants: seq<bool>)
    requires 0 < hs && Bounded(s, hs) && newHeap.room <= newHeap.free <= hs && s != [] && 0 < size
    ensures Plan(s, size, hs, newHeap, grants) == Choose(s, size, hs, newHeap, grants, 0, 0)
  {
  }

  /** On an empty chain a first heap is created; the selection then runs on it. */
  lemma PlanOnEmptyChain(size: nat, hs: nat, newHeap: HeapSummary, grants: seq<bool>)
    requires 0 < hs && newHeap.room <= newHeap.free <= hs && 0 < size && Granted(grants, 0)
    ensures Plan([], size, hs, newHeap, grants) == Choose([newHeap], size, hs, newHeap, grants, 1, 1)
    ensures [newHeap] == Repeat(newHeap, 1) + []
    ensures var o := Plan([], size, hs, newHeap, grants);
            After(Outcome(o.calls, o.created - 1, o.target), [newHeap], hs, newHeap, size) == After(o, [], hs, newHeap, size)
  {
    assert Repeat(newHeap, 1) + [] == [newHeap];
    AfterShift(Plan([], size, hs, newHeap, grants), 1, [], hs, newHeap, size);
  }

  /** Heaps created before the selection can be counted either in the
      chain the selection sees or in the outcome. */
  lemma AfterShift(o: Outcome, made: nat, s: seq<HeapSummary>, hs: nat, newHeap: HeapSummary, size: nat)
    requires Bounded(s, hs) && newHeap.room <= newHeap.free <= hs && made <= o.created
    requires o.target.At? ==>
               o.target.index < o.created + |s| && size <= (Repeat(newHeap, o.created) + s)[o.target.index].room
    ensures Bounded(Repeat(newHeap, made) + s, hs)
    ensures After(Outcome(o.calls, o.created - made, o.target), Repeat(newHeap, made) + s, hs, newHeap, size)
            == After(o, s, hs, newHeap, size)
  {
    assert Repeat(newHeap, o.created - made) + (Repeat(newHeap, made) + s) == Repeat(newHeap, o.created) + s;
  }

  // ---------------------------------------------------------------------
  // new_chunk as written
  // ---------------------------------------------------------------------

  /** What `new_chunk` as written hands back: null, the payload of the
      carved chunk, or `GET_PTR(NULL)` after a failed split. */
  datatype Returned = NullPointer | Payload(index: nat) | PayloadOfNull(index: nat)

  datatype WrittenOutcome = WrittenOutcome(calls: nat, created: nat, returned: Returned)

  /** `Choose` as written: when a heap was created earlier in the call and
      the split fails, control falls through to `best_heap->free -= size`
      and `GET_PTR(chunk)` with a null chunk. */
  function ChooseAsWritten(s: seq<HeapSummary>, size: nat, hs: nat, newHeap: HeapSummary, grants: seq<bool>,
                           calls: nat, made: nat): WrittenOutcome
    requires 0 < hs && Bounded(s, hs) && s != []
  {
    match Select(s, size, hs)
    case None => RetryAsWritten(s, size, newHeap, grants, calls, made, true)
    case Some(i) =>
      if s[i].room >= size then WrittenOutcome(calls, made, Payload(i))
      else if made > 0 then WrittenOutcome(calls, made, PayloadOfNull(i))
      else RetryAsWritten(s, size, newHeap, grants, calls, made, false)
  }

  /** `Retry` as written: a failed split of the head returns null only on the
      path where `created` is still false; where it is already true (no heap
      was selected) control falls through. */
  function RetryAsWritten(s: seq<HeapSummary>, size: nat, newHeap: HeapSummary, grants: seq<bool>,
                          calls: nat, made: nat, created: bool): WrittenOutcome
    requires s != []
  {
    var added := if Granted(grants, calls) then 1 else 0;
    var head := if Granted(grants, calls) then newHeap else s[0];
    if head.room >= size then WrittenOutcome(calls + 1, made + added, Payload(0))
    else if created then WrittenOutcome(calls + 1, made + added, PayloadOfNull(0))
    else WrittenOutcome(calls + 1, made + added, NullPointer)
  }

  function PlanAsWritten(s: seq<HeapSummary>, size: nat, hs: nat, newHeap: HeapSummary, grants: seq<bool>): (w: WrittenOutcome)
    requires 0 < hs && Bounded(s, hs) && newHeap.room <= newHeap.free <= hs
    // the fall-through happens only when the heap then used has too small a
    // top chunk
    ensures w.returned.PayloadOfNull? ==>
              var c := Repeat(newHeap, w.created) + s;
              w.returned.index < |c| && c[w.returned.index].room < size
  {
    if size == 0 then WrittenOutcome(0, 0, NullPointer)
    else if s == [] then
      if !Granted(grants, 0) then WrittenOutcome(1, 0, NullPointer)
      else ChooseAsWritten([newHeap], size, hs, newHeap, grants, 1, 1)
    else ChooseAsWritten(s, size, hs, newHeap, grants, 0, 0)
  }

  /** `size_t` subtraction, which wraps around modulo 2^64. */
  function WrapSub(a: nat, b: nat): (r: nat)
    ensures b <= a < 0x1_0000_0000_0000_0000 ==> r == a - b
    ensures a < b && b - a <= 0x1_0000_0000_0000_0000 ==> r == 0x1_0000_0000_0000_0000 - (b - a)
  {
    (a - b) % 0x1_0000_0000_0000_0000
  }

  /** The chain after `new_chunk` as written: `best_heap->free -= size` runs
      on the fall-through as well, where the split failed and left the top
      chunk as it was, and there the subtraction can wrap around. */
  function AfterAsWritten(w: WrittenOutcome, s: seq<HeapSummary>, newHeap: HeapSummary, size: nat): (r: seq<HeapSummary>)
    ensures |r| == w.created + |s|
    ensures w.returned.NullPointer? ==> r == Repeat(newHeap, w.created) + s
  {
    var c := Repeat(newHeap, w.created) + s;
    match w.returned
    case NullPointer => c
    case Payload(i) =>
      if i < |c| && size <= c[i].room then c[i := HeapSummary(WrapSub(c[i].free, size), c[i].room - size)] else c
    case PayloadOfNull(i) =>
      if i < |c| then c[i := c[i].(free := WrapSub(c[i].free, size))] else c
  }

  /** The code as written agrees with the corrected `Plan` everywhere except
      the fall-through, where the corrected version returns null. */
  lemma AsWrittenDiffersOnlyInFallThrough(s: seq<HeapSummary>, size: nat, hs: nat, newHeap: HeapSummary, grants: seq<bool>)
    requires 0 < hs && Bounded(s, hs) && newHeap.room <= newHeap.free <= hs
    ensures var w := PlanAsWritten(s, size, hs, newHeap, grants);
            var o := Plan(s, size, hs, newHeap, grants);
            && w.calls == o.calls && w.created == o.created
            && (w.returned.Payload? <==> o.target.At?)
            && (w.returned.Payload? ==> o.target.index == w.returned.index)
            && (o.target.NoChunk? <==> w.returned.NullPointer? || w.returned.PayloadOfNull?)
  {
  }

  /** An empty chain, a heap of 100 bytes whose fresh top chunk holds 80
      bytes, a 97-byte request and two granted `heap_create` calls: the code
      as written creates two heaps, fails to split the second, wraps its
      `free` counter to 2^64 - 1 and returns `GET_PTR(NULL)`; the corrected
      version returns null and leaves both heaps as created. */
  lemma FallThroughExample()
    ensures PlanAsWritten([], 97, 100, HeapSummary(96, 80), [true, true]) == WrittenOutcome(2, 2, PayloadOfNull(0))
    ensures WrapSub(96, 97) == 0xFFFF_FFFF_FFFF_FFFF
    ensures AfterAsWritten(WrittenOutcome(2, 2, PayloadOfNull(0)), [], HeapSummary(96, 80), 97)
            == [HeapSummary(0xFFFF_FFFF_FFFF_FFFF, 80), HeapSummary(96, 80)]
    ensures Plan([], 97, 100, HeapSummary(96, 80), [true, true]) == Outcome(2, 2, NoChunk)
    ensures After(Outcome(2, 2, NoChunk), [], 100, HeapSummary(96, 80), 97) == [HeapSummary(96, 80), HeapSummary(96, 80)]
  {
    assert Select([HeapSummary(96, 80)], 97, 100) == None;
    assert Repeat(HeapSummary(96, 80), 2) == [HeapSummary(96, 80), HeapSummary(96, 80)];
  }

  // ---------------------------------------------------------------------
  // The heaps themselves
  // ---------------------------------------------------------------------

  ghost function Summary(h: Heap): HeapSummary
    reads h
  {
    HeapSummary(h.free, h.TopSize())
  }

  ghost function Summaries(chain: seq<Heap>): (r: seq<HeapSummary>)
    reads chain
    ensures |r| == |chain| && forall k {:trigger r[k]} :: 0 <= k < |chain| ==> r[k] == Summary(chain[k])
  {
    SummariesFrom(chain, 0)
  }

  /** The summaries of the heaps of `chain` from position `i` on. */
  ghost function SummariesFrom(chain: seq<Heap>, i: nat): (r: seq<HeapSummary>)
    requires i <= |chain|
    reads chain
    ensures |r| == |chain| - i && forall k {:trigger r[k]} :: 0 <= k < |r| ==> r[k] == Summary(chain[i + k])
    decreases |chain| - i
  {
    if i == |chain| then [] else [Summary(chain[i])] + SummariesFrom(chain, i + 1)
  }

  lemma SummariesAppend(a: seq<Heap>, b: seq<Heap>)
    ensures Summaries(a + b) == Summaries(a) + Summaries(b)
  {
    assert forall k :: 0 <= k < |a + b| ==> (a + b)[k] == if k < |a| then a[k] else b[k - |a|];
  }

  /** Everything of a heap that the engine can change: `free`, the top
      chunk, the chunk headers and the carved chunks.  Two states of a heap
      with the same image differ in nothing. */
  datatype HeapImage = HeapImage(free: nat, top: Option<nat>, chunks: map<nat, Header>, carved: seq<nat>)

  ghost function Image(h: Heap): HeapImage
    reads h
  {
    HeapImage(h.free, h.top, h.chunks, h.carved)
  }

  ghost function Images(chain: seq<Heap>): (r: seq<HeapImage>)
    reads chain
    ensures |r| == |chain| && forall k {:trigger r[k]} :: 0 <= k < |chain| ==> r[k] == Image(chain[k])
  {
    seq(|chain|, k requires 0 <= k < |chain| reads chain => Image(chain[k]))
  }

  lemma ImagesAppend(a: seq<Heap>, b: seq<Heap>)
    ensures Images(a + b) == Images(a) + Images(b)
  {
    assert forall k :: 0 <= k < |a + b| ==> (a + b)[k] == if k < |a| then a[k] else b[k - |a|];
  }

  /** `split_top_chunk`: carve `size` bytes, header included, off the start
      of the heap's top chunk and make the rest the new top chunk. */
  method SplitTopChunk(cfg: Config, heap: Heap?, size: nat) returns (chunk: Option<nat>)
    requires cfg.Valid()
    requires heap != null ==> heap.Valid(cfg)
    requires size == 0 || cfg.header <= size
    modifies heap
    // null, and the heap untouched, exactly when there is nothing to carve from
    ensures chunk.None? <==> heap == null || size == 0 || old(heap.top).None? || old(heap.TopSize()) < size
    ensures chunk.None? && heap != null ==> unchanged(heap)
    ensures heap != null ==> heap.Valid(cfg) && heap.free == old(heap.free)
    // the chunk sits where the top chunk was; the rest becomes the new top chunk
    ensures chunk.Some? ==>
              && heap != null && old(heap.top) == Some(chunk.value) && chunk.value in old(heap.chunks)
              && size <= old(heap.chunks)[chunk.value].word.size
              && var pair := CarveTop(cfg, heap.kind, old(heap.chunks)[chunk.value], size);
                 && heap.chunks == old(heap.chunks)[chunk.value := pair.0][chunk.value + size := pair.1]
                 && heap.top == Some(chunk.value + size)
                 && heap.carved == old(heap.carved) + [chunk.value]
    // the chunks carved before keep their headers
    ensures chunk.Some? ==>
              forall x :: x in old(heap.carved) ==>
                x in heap.carved && x in heap.chunks && x in old(heap.chunks) && heap.chunks[x] == old(heap.chunks)[x]
  {
    if heap == null || size == 0 {
      return None;
    }
    if heap.top.None? {
      return None;
    }
    var t: nat := heap.top.value;
    var available := heap.chunks[t].word.size;
    if available < size {
      return None;
    }
    var pair := CarveTop(cfg, heap.kind, heap.chunks[t], size);
    assert heap.capacity == HeapSize(cfg, heap.kind) && heap.free <= heap.capacity;
    assert t + cfg.header + available == heap.capacity && available <= heap.free;
    TilesCarve(cfg, heap.chunks, heap.carved, heap.base, t, pair.0, size, pair.1);
    CarvedBelowTop(cfg, heap.chunks, heap.carved, heap.base, t);
    ghost var chunks0, carved0 := heap.chunks, heap.carved;
    heap.chunks := heap.chunks[t := pair.0][t + size := pair.1];
    heap.top := Some(t + size);
    heap.carved := heap.carved + [t];
    ValidWithTop(cfg, heap, t + size);
    chunk := Some(t);
  }

  /** The heap selection loop of `new_chunk`, walking the chain from `head`. */
  method SelectHeap(cfg: Config, arena: Arena, head: Heap?, kind: HeapKind, size: nat, hs: nat,
                    ghost chain: seq<Heap>, ghost s: seq<HeapSummary>)
      returns (best: Heap?, ghost index: Option<nat>)
    requires arena.BinValid(cfg) && head == arena.Head(kind)
    requires chain == arena.Chain(kind) && s == Summaries(chain)
    requires 0 < hs && Bounded(s, hs)
    // the walk changes nothing
    ensures arena.BinValid(cfg) && arena.Chain(kind) == chain && Summaries(chain) == s
    ensures index == Select(s, size, hs)
    ensures best == (if Select(s, size, hs).None? then null else chain[Select(s, size, hs).value])
  {
    assert arena.Chained(kind);
    best, index := WalkChain(head, kind, size, hs, chain, s);
  }

  /** The loop itself: `chain` is the chain linked from `head`, `s` its
      summaries. */
  method WalkChain(head: Heap?, kind: HeapKind, size: nat, hs: nat, ghost chain: seq<Heap>, ghost s: seq<HeapSummary>)
      returns (best: Heap?, ghost index: Option<nat>)
    requires Linked(head, chain, kind) && s == Summaries(chain)
    requires 0 < hs && Bounded(s, hs)
    ensures Summaries(chain) == s
    ensures index == Select(s, size, hs)
    ensures best == (if Select(s, size, hs).None? then null else chain[Select(s, size, hs).value])
  {
    best := null;
    index := None;
    var bestUsage := -1000;
    var heap := head;
    ghost var k := 0;
    while heap != null
      invariant k <= |chain| && heap == (if k < |chain| then chain[k] else null)
      invariant index.Some? ==> index.value < k && s[index.value].free >= size
      invariant index.None? ==> bestUsage == -1000
      invariant best == (if index.None? then null else chain[index.value])
      invariant Scan(s, size, hs, k, index, bestUsage) == Select(s, size, hs)
      decreases |chain| - k
    {
      assert s[k] == Summary(chain[k]) && LinkAt(chain, k, kind);
      var available := heap.free >= size;
      var usage := Usage(heap.free, hs);
      if available && usage > 10 {
        best, index := heap, Some(k);
        break;
      }
      if available && usage > bestUsage {
        best, index, bestUsage := heap, Some(k), usage;
      }
      heap := heap.next;
      k := k + 1;
    }
  }

  /** The heaps of a valid arena have summaries within their size. */
  lemma ChainBounded(cfg: Config, arena: Arena, kind: HeapKind)
    requires arena.BinValid(cfg)
    ensures 0 < HeapSize(cfg, kind)
    ensures Bounded(Summaries(arena.Chain(kind)), HeapSize(cfg, kind))
  {
    var c := arena.Chain(kind);
    forall k | 0 <= k < |c|
      ensures Summary(c[k]).room <= Summary(c[k]).free <= HeapSize(cfg, kind)
    {
      ChainInHeaps(arena, kind, k);
      assert arena.Chained(kind) && LinkAt(c, k, kind);
      assert c[k].Valid(cfg) && c[k].kind == kind;
    }
  }

  lemma NoneMade(chain: seq<Heap>)
    ensures [] + chain == chain
  {
  }

  lemma SameChains(chains: map<HeapKind, seq<Heap>>, kind: HeapKind)
    requires kind in chains
    ensures chains[kind := chains[kind]] == chains
  {
  }

  lemma ChainsTwice(chains: map<HeapKind, seq<Heap>>, kind: HeapKind, c1: seq<Heap>, c2: seq<Heap>)
    ensures chains[kind := c1][kind := c2] == chains[kind := c2]
  {
  }

  lemma NothingAfter(chain: seq<Heap>)
    ensures chain + [] == chain
  {
  }

  /** `heap_create` followed by re-reading the head of the chain; `c0` and
      `s0` are the chain and its summaries before the call. */
  method CreateHeap(cfg: Config, arena: Arena, kind: HeapKind, granted: bool,
                    ghost c0: seq<Heap>, ghost s0: seq<HeapSummary>)
      returns (head: Heap?, ghost m: seq<Heap>)
    requires arena.BinValid(cfg) && c0 == arena.Chain(kind) && s0 == Summaries(c0)
    modifies arena`tiny, arena`small, arena`chains
    ensures arena.BinValid(cfg)
    ensures arena.Chain(kind) == m + c0 && |m| <= 1 && (granted <==> |m| == 1)
    ensures forall h :: h in m ==> fresh(h)
    ensures arena.chains == old(arena.chains)[kind := arena.Chain(kind)]
    ensures kind == Tiny ==> arena.small == old(arena.small)
    ensures kind == Small ==> arena.tiny == old(arena.tiny)
    ensures head == arena.Head(kind) && head == (if arena.Chain(kind) == [] then null else arena.Chain(kind)[0])
    ensures Summaries(arena.Chain(kind)) == Repeat(Fresh(cfg, kind), |m|) + s0
  {
    m := arena.HeapCreate(cfg, kind, granted);
    head := arena.Head(kind);
    ghost var c := arena.Chain(kind);
    assert Summaries(c0) == s0;
    SummariesAppend(m, c0);
    if granted {
      assert Summary(m[0]) == Fresh(cfg, kind);
      assert Summaries(m) == [Summary(m[0])] + Summaries([]);
    } else {
      assert m == [];
    }
    assert Summaries(c) == Repeat(Fresh(cfg, kind), |m|) + s0;
  }

  /** A split of `size` bytes at offset `off` off the top chunk of a heap
      of class `kind`, followed by `free -= size`, takes its image from `i0`
      to `i1`: the chunk was the top chunk, both headers are as `CarveTop`
      writes them, the new top chunk follows the chunk, and every chunk
      carved before keeps its header. */
  predicate SplitOff(cfg: Config, kind: HeapKind, i0: HeapImage, i1: HeapImage, off: nat, size: nat)
    requires cfg.Valid()
  {
    && i0.top == Some(off) && off in i0.chunks
    && cfg.header <= size <= i0.chunks[off].word.size
    && i1.top == Some(off + size)
    && i1.carved == i0.carved + [off]
    && i1.free + size == i0.free
    && (var pair := CarveTop(cfg, kind, i0.chunks[off], size);
        i1.chunks == i0.chunks[off := pair.0][off + size := pair.1])
    && (forall x :: x in i0.carved ==> x in i1.chunks && x in i0.chunks && i1.chunks[x] == i0.chunks[x])
  }

  /** What `new_chunk` does to the memory of the heaps of `chain0`, the
      chain before the call, whose images go from `im0` to `im1`: the heap
      the chunk `r` comes from, when it was already on the chain, had the
      chunk split off its top; every other heap of the chain is as it was. */
  predicate MemoryKept(cfg: Config, chain0: seq<Heap>, im0: seq<HeapImage>, im1: seq<HeapImage>,
                       r: Option<ChunkRef>, size: nat)
    requires cfg.Valid() && |im0| == |chain0| && |im1| == |chain0|
  {
    forall k :: 0 <= k < |chain0| ==>
      if r.Some? && chain0[k] == r.value.heap then SplitOff(cfg, chain0[k].kind, im0[k], im1[k], r.value.offset, size)
      else im1[k] == im0[k]
  }

  /** Heaps added at the head of a chain leave what is said of the heaps
      after them. */
  lemma KeptSuffix(cfg: Config, m: seq<Heap>, c0: seq<Heap>, im1: seq<HeapImage>, mi: seq<HeapImage>,
                   im: seq<HeapImage>, now1: seq<HeapImage>, nowm: seq<HeapImage>, now: seq<HeapImage>,
                   r: Option<ChunkRef>, size: nat)
    requires cfg.Valid() && |mi| == |nowm| == |m| && |im| == |now| == |c0|
    requires im1 == mi + im && now1 == nowm + now
    requires MemoryKept(cfg, m + c0, im1, now1, r, size)
    ensures MemoryKept(cfg, c0, im, now, r, size)
  {
    forall k | 0 <= k < |c0|
      ensures if r.Some? && c0[k] == r.value.heap then SplitOff(cfg, c0[k].kind, im[k], now[k], r.value.offset, size)
              else now[k] == im[k]
    {
      assert (m + c0)[|m| + k] == c0[k] && im1[|m| + k] == im[k] && now1[|m| + k] == now[k];
    }
  }

  /** `split_top_chunk` on a heap of the arena followed, when it succeeds,
      by `best_heap->free -= size`: the bins stay well formed. */
  method CarveInArena(cfg: Config, arena: Arena, best: Heap, size: nat) returns (chunk: Option<nat>)
    requires arena.BinValid(cfg) && best in arena.Heaps()
    requires cfg.header <= size
    modifies best
    ensures arena.BinValid(cfg)
    ensures chunk.None? <==> old(best.TopSize()) < size
    ensures chunk.None? ==> unchanged(best)
    ensures chunk.Some? ==>
              && best.free + size == old(best.free) && best.TopSize() + size == old(best.TopSize())
              && chunk.value in best.carved && chunk.value in best.chunks
              && cfg.header + best.chunks[chunk.value].word.size == size
    // the chunk is split off the top chunk; earlier chunks keep their headers
    ensures chunk.Some? ==> SplitOff(cfg, best.kind, old(Image(best)), Image(best), chunk.value, size)
  {
    chunk := SplitTopChunk(cfg, best, size);
    if chunk.Some? {
      best.free := best.free - size;
      forall h | h in arena.Heaps()
        ensures h.Valid(cfg)
      {
        if h != best {
          assert old(h.Valid(cfg));
        }
      }
      forall b, j | 0 <= b < arena.fastbin.Length && 0 <= j < |arena.fastbin[b]|
        ensures arena.fastbin[b][j].heap in arena.Heaps() && Binned(cfg, arena.fastbin[b][j], b)
      {
        var e := arena.fastbin[b][j];
        assert e.heap in old(arena.Heaps()) && old(Binned(cfg, e, b));
        if e.heap == best {
          BinnedKept(cfg, e.offset, b, old(best.carved), old(best.chunks), best.carved, best.chunks);
        } else {
          assert unchanged(e.heap);
        }
      }
    }
  }

  /** `CarveInArena` on the heap at position `i` of the chain `c0`, seen
      through the chain's summaries `s0`. */
  method SplitAndCharge(cfg: Config, arena: Arena, kind: HeapKind, best: Heap, ghost i: nat, size: nat,
                        ghost c0: seq<Heap>, ghost s0: seq<HeapSummary>, ghost im: seq<HeapImage>)
      returns (chunk: Option<nat>)
    requires arena.BinValid(cfg) && c0 == arena.Chain(kind) && s0 == Summaries(c0) && im == Images(c0)
    requires i < |c0| && best == c0[i]
    requires cfg.header <= size
    modifies best
    ensures arena.BinValid(cfg) && arena.Chain(kind) == c0 && unchanged(arena)
    ensures Bounded(s0, HeapSize(cfg, kind))
    ensures chunk.None? <==> s0[i].room < size
    ensures chunk.None? ==> Summaries(c0) == s0
    ensures chunk.Some? ==>
              && Summaries(c0) == s0[i := Take(s0[i], size)]
              && chunk.value in best.carved && chunk.value in best.chunks
              && cfg.header + best.chunks[chunk.value].word.size == size
    ensures MemoryKept(cfg, c0, im, Images(c0), if chunk.Some? then Some(ChunkRef(best, chunk.value)) else None, size)
  {
    ChainBounded(cfg, arena, kind);
    ChainInHeaps(arena, kind, i);
    chunk := CarveInArena(cfg, arena, best, size);
    if chunk.Some? {
      ghost var t := Take(s0[i], size);
      assert Summary(best) == t;
      forall k | 0 <= k < |c0|
        ensures Summaries(c0)[k] == s0[i := t][k]
      {
        if k != i {
          DistinctAt(c0, k, i);
          assert old(Summary(c0[k])) == s0[k];
        }
      }
      assert Summaries(c0) == s0[i := t];
    }
  }

  /** `heap_create`, then a split of whatever heap heads the chain
      afterwards, with null when that split fails: what `new_chunk` does when
      no heap is selected, or when the selected one cannot be split. */
  method CreateAndSplit(cfg: Config, arena: Arena, kind: HeapKind, size: nat, grants: seq<bool>,
                        calls: nat, ghost made: nat, ghost c0: seq<Heap>, ghost s0: seq<HeapSummary>,
                        ghost im: seq<HeapImage>)
      returns (r: Option<ChunkRef>, ghost m: seq<Heap>)
    requires arena.BinValid(cfg) && c0 == arena.Chain(kind) && s0 == Summaries(c0) && im == Images(c0)
    requires cfg.header <= size && c0 != [] && Bounded(s0, HeapSize(cfg, kind))
    modifies arena`tiny, arena`small, arena`chains, c0
    ensures arena.BinValid(cfg)
    ensures arena.Chain(kind) == m + c0 && forall h :: h in m ==> fresh(h)
    ensures arena.chains == old(arena.chains)[kind := arena.Chain(kind)]
    ensures kind == Tiny ==> arena.small == old(arena.small)
    ensures kind == Small ==> arena.tiny == old(arena.tiny)
    ensures var o := Retry(s0, size, Fresh(cfg, kind), grants, calls, made);
            && |m| == o.created - made
            && Summaries(arena.Chain(kind))
               == After(Outcome(o.calls, o.created - made, o.target), s0, HeapSize(cfg, kind), Fresh(cfg, kind), size)
            && (r.Some? <==> o.target.At?)
            && (r.Some? ==> r.value.heap == arena.Chain(kind)[0])
    ensures r.Some? ==>
              && r.value.offset in r.value.heap.carved && r.value.offset in r.value.heap.chunks
              && cfg.header + r.value.heap.chunks[r.value.offset].word.size == size
    // the heaps already on the chain: only the one carved from changes
    ensures MemoryKept(cfg, c0, im, Images(c0), r, size)
  {
    var best;
    best, m := CreateHeap(cfg, arena, kind, Granted(grants, calls), c0, s0);
    ghost var c1 := m + c0;
    ghost var added := if Granted(grants, calls) then 1 else 0;
    assert |m| == added;
    ghost var s1 := Repeat(Fresh(cfg, kind), added) + s0;
    if Granted(grants, calls) {
      assert best == m[0] && m[0] in m;
    } else {
      assert best == c0[0];
    }
    RetryAfter(s0, size, HeapSize(cfg, kind), Fresh(cfg, kind), grants, calls, made);
    ghost var o := Retry(s0, size, Fresh(cfg, kind), grants, calls, made);
    ghost var after := After(Outcome(o.calls, added, o.target), s0, HeapSize(cfg, kind), Fresh(cfg, kind), size);
    assert Images(c0) == im;
    ImagesAppend(m, c0);
    ghost var im1, mi := Images(c1), Images(m);
    var chunk := SplitAndCharge(cfg, arena, kind, best, 0, size, c1, s1, im1);
    if chunk.Some? {
      assert o.target == At(0);
      assert Summaries(c1) == after;
      r := Some(ChunkRef(best, chunk.value));
    } else {
      assert Summaries(c1) == after;
      r := None;
    }
    ImagesAppend(m, c0);
    KeptSuffix(cfg, m, c0, im1, mi, im, Images(c1), Images(m), Images(c0), r, size);
  }

  /** `new_chunk` from the heap selection on: `heap` heads the chain `c0`,
      `calls` calls of `heap_create` were made so far and `created` says
      whether one of them added a heap. */
  method SelectAndSplit(cfg: Config, arena: Arena, kind: HeapKind, size: nat, heap: Heap, grants: seq<bool>,
                        calls: nat, created: bool, ghost c0: seq<Heap>, ghost s0: seq<HeapSummary>,
                        ghost im: seq<HeapImage>)
      returns (r: Option<ChunkRef>, ghost m: seq<Heap>)
    requires arena.BinValid(cfg) && c0 == arena.Chain(kind) && s0 == Summaries(c0) && im == Images(c0)
    requires cfg.header <= size && heap == arena.Head(kind) && c0 != []
    requires 0 < HeapSize(cfg, kind) && Bounded(s0, HeapSize(cfg, kind))
    modifies arena`tiny, arena`small, arena`chains, c0
    ensures arena.BinValid(cfg)
    ensures arena.Chain(kind) == m + c0 && forall h :: h in m ==> fresh(h)
    ensures arena.chains == old(arena.chains)[kind := arena.Chain(kind)]
    ensures kind == Tiny ==> arena.small == old(arena.small)
    ensures kind == Small ==> arena.tiny == old(arena.tiny)
    ensures var made := if created then 1 else 0;
            var o := Choose(s0, size, HeapSize(cfg, kind), Fresh(cfg, kind), grants, calls, made);
            && |m| == o.created - made
            && Summaries(arena.Chain(kind))
               == After(Outcome(o.calls, o.created - made, o.target), s0, HeapSize(cfg, kind), Fresh(cfg, kind), size)
            && (r.Some? <==> o.target.At?)
            && (r.Some? ==> r.value.heap == arena.Chain(kind)[o.target.index])
    ensures r.Some? ==>
              && r.value.offset in r.value.heap.carved && r.value.offset in r.value.heap.chunks
              && cfg.header + r.value.heap.chunks[r.value.offset].word.size == size
    // the heaps already on the chain: only the one carved from changes
    ensures MemoryKept(cfg, c0, im, Images(c0), r, size)
  {
    var hs := HeapSize(cfg, kind);
    var best, index := SelectHeap(cfg, arena, heap, kind, size, hs, c0, s0);
    if best == null {
      ChooseRetries(s0, size, hs, Fresh(cfg, kind), grants, calls, if created then 1 else 0);
      r, m := CreateAndSplit(cfg, arena, kind, size, grants, calls, if created then 1 else 0, c0, s0, im);
    } else {
      r, m := SplitSelected(cfg, arena, kind, size, best, index.value, grants, calls, created, c0, s0, im);
    }
  }

  /** `new_chunk` once a heap is selected: `best` sits at position `i` of the
      chain. */
  method SplitSelected(cfg: Config, arena: Arena, kind: HeapKind, size: nat, best: Heap, ghost i: nat,
                       grants: seq<bool>, calls: nat, created: bool, ghost c0: seq<Heap>, ghost s0: seq<HeapSummary>,
                       ghost im: seq<HeapImage>)
      returns (r: Option<ChunkRef>, ghost m: seq<Heap>)
    requires arena.BinValid(cfg) && c0 == arena.Chain(kind) && s0 == Summaries(c0) && im == Images(c0)
    requires cfg.header <= size && 0 < HeapSize(cfg, kind) && Bounded(s0, HeapSize(cfg, kind))
    requires Select(s0, size, HeapSize(cfg, kind)) == Some(i) && best == c0[i]
    modifies arena`tiny, arena`small, arena`chains, c0
    ensures arena.BinValid(cfg)
    ensures arena.Chain(kind) == m + c0 && forall h :: h in m ==> fresh(h)
    ensures arena.chains == old(arena.chains)[kind := arena.Chain(kind)]
    ensures kind == Tiny ==> arena.small == old(arena.small)
    ensures kind == Small ==> arena.tiny == old(arena.tiny)
    ensures var made := if created then 1 else 0;
            var o := Choose(s0, size, HeapSize(cfg, kind), Fresh(cfg, kind), grants, calls, made);
            && |m| == o.created - made
            && Summaries(arena.Chain(kind))
               == After(Outcome(o.calls, o.created - made, o.target), s0, HeapSize(cfg, kind), Fresh(cfg, kind), size)
            && (r.Some? <==> o.target.At?)
            && (r.Some? ==> r.value.heap == arena.Chain(kind)[o.target.index])
    ensures r.Some? ==>
              && r.value.offset in r.value.heap.carved && r.value.offset in r.value.heap.chunks
              && cfg.header + r.value.heap.chunks[r.value.offset].word.size == size
    // the heaps already on the chain: only the one carved from changes
    ensures MemoryKept(cfg, c0, im, Images(c0), r, size)
  {
    var chunk := SplitAndCharge(cfg, arena, kind, best, i, size, c0, s0, im);
    if chunk.Some? {
      ChooseSelected(s0, size, HeapSize(cfg, kind), Fresh(cfg, kind), grants, calls, if created then 1 else 0, i);
      NoneMade(c0);
      SameChains(arena.chains, kind);
      return Some(ChunkRef(best, chunk.value)), [];
    }
    r, m := SplitFailed(cfg, arena, kind, size, i, grants, calls, created, c0, s0, im);
  }

  /** `new_chunk` after the selected heap, at position `i`, could not be
      split: null when a heap was created earlier, one more `heap_create`
      otherwise. */
  method SplitFailed(cfg: Config, arena: Arena, kind: HeapKind, size: nat, ghost i: nat,
                     grants: seq<bool>, calls: nat, created: bool, ghost c0: seq<Heap>, ghost s0: seq<HeapSummary>,
                     ghost im: seq<HeapImage>)
      returns (r: Option<ChunkRef>, ghost m: seq<Heap>)
    requires arena.BinValid(cfg) && c0 == arena.Chain(kind) && s0 == Summaries(c0) && im == Images(c0)
    requires cfg.header <= size && 0 < HeapSize(cfg, kind) && Bounded(s0, HeapSize(cfg, kind))
    requires Select(s0, size, HeapSize(cfg, kind)) == Some(i) && s0[i].room < size
    modifies arena`tiny, arena`small, arena`chains, c0
    ensures arena.BinValid(cfg)
    ensures arena.Chain(kind) == m + c0 && forall h :: h in m ==> fresh(h)
    ensures arena.chains == old(arena.chains)[kind := arena.Chain(kind)]
    ensures kind == Tiny ==> arena.small == old(arena.small)
    ensures kind == Small ==> arena.tiny == old(arena.tiny)
    ensures var made := if created then 1 else 0;
            var o := Choose(s0, size, HeapSize(cfg, kind), Fresh(cfg, kind), grants, calls, made);
            && |m| == o.created - made
            && Summaries(arena.Chain(kind))
               == After(Outcome(o.calls, o.created - made, o.target), s0, HeapSize(cfg, kind), Fresh(cfg, kind), size)
            && (r.Some? <==> o.target.At?)
            && (r.Some? ==> r.value.heap == arena.Chain(kind)[o.target.index])
    ensures r.Some? ==>
              && r.value.offset in r.value.heap.carved && r.value.offset in r.value.heap.chunks
              && cfg.header + r.value.heap.chunks[r.value.offset].word.size == size
    // the heaps already on the chain: only the one carved from changes
    ensures MemoryKept(cfg, c0, im, Images(c0), r, size)
  {
    if created {
      ChooseGivesUp(s0, size, HeapSize(cfg, kind), Fresh(cfg, kind), grants, calls, 1, i);
      NoneMade(c0);
      SameChains(arena.chains, kind);
      return None, [];
    }
    ChooseRetries(s0, size, HeapSize(cfg, kind), Fresh(cfg, kind), grants, calls, 0);
    r, m := CreateAndSplit(cfg, arena, kind, size, grants, calls, 0, c0, s0, im);
  }

  /** The chain of class `kind` after `new_chunk(arena, size, kind)`, on
      values: given the chain before the call (`chain0`, summarised by `s0`,
      its heaps' images `im0`) and the other class's chain (`other0`), the
      chain is now `chain`, summarised by `s`, the heaps of `chain0` now have
      the images `im` and the other chain is `other`.  The chain gained the
      heaps `made` at its head and its heaps changed as `Plan` and `After`
      say, `r` being carved from the heap `Plan` targets; of the heaps
      already there only that one changed, by the split; the other chain is
      the same. */
  predicate Growth(cfg: Config, kind: HeapKind, size: nat, grants: seq<bool>,
                   r: Option<ChunkRef>, made: seq<Heap>,
                   chain0: seq<Heap>, s0: seq<HeapSummary>, im0: seq<HeapImage>, other0: seq<Heap>,
                   chain: seq<Heap>, s: seq<HeapSummary>, im: seq<HeapImage>, other: seq<Heap>)
    requires cfg.Valid()
  {
    var hs := HeapSize(cfg, kind);
    && chain == made + chain0 && |s| == |chain|
    && Bounded(s0, hs)
    && (var o := Plan(s0, size, hs, Fresh(cfg, kind), grants);
        && |made| == o.created
        && s == After(o, s0, hs, Fresh(cfg, kind), size)
        && (r.Some? <==> o.target.At?)
        && (r.Some? ==> r.value.heap == chain[o.target.index]))
    && |im0| == |chain0| && |im| == |chain0| && MemoryKept(cfg, chain0, im0, im, r, size)
    && other == other0
  }

  /** `Growth` of the arena as it is now. */
  ghost predicate Grown(cfg: Config, arena: Arena, kind: HeapKind, size: nat, grants: seq<bool>,
                        r: Option<ChunkRef>, made: seq<Heap>,
                        chain0: seq<Heap>, s0: seq<HeapSummary>, im0: seq<HeapImage>, other0: seq<Heap>)
    requires cfg.Valid()
    reads arena`chains, arena.Chain(kind), chain0
  {
    Growth(cfg, kind, size, grants, r, made, chain0, s0, im0, other0,
           arena.Chain(kind), Summaries(arena.Chain(kind)), Images(chain0), arena.Chain(Other(kind)))
  }

  /** `new_chunk`: carve a chunk of `size` bytes, header included, from a
      heap of class `kind`, creating heaps when the chain has none that fits.
      Where the code as written falls through after a failed split (see
      `ChooseAsWritten`), this version returns null. */
  method NewChunk(cfg: Config, arena: Arena, size: nat, kind: HeapKind, grants: seq<bool>,
                  ghost c0: seq<Heap>, ghost s0: seq<HeapSummary>, ghost im0: seq<HeapImage>, ghost c1: seq<Heap>)
      returns (r: Option<ChunkRef>, ghost made: seq<Heap>)
    requires arena.BinValid(cfg)
    requires size == 0 || cfg.header <= size
    requires c0 == arena.Chain(kind) && s0 == Summaries(c0) && im0 == Images(c0) && c1 == arena.Chain(Other(kind))
    modifies arena`tiny, arena`small, arena`chains, arena.Chain(kind)
    ensures arena.BinValid(cfg)
    ensures arena.Chain(kind) == made + c0 && forall h :: h in made ==> fresh(h)
    ensures arena.chains == old(arena.chains)[kind := arena.Chain(kind)]
    ensures kind == Tiny ==> arena.small == old(arena.small)
    ensures kind == Small ==> arena.tiny == old(arena.tiny)
    // the other class's heaps are left alone
    ensures forall h :: h in c1 ==> unchanged(h)
    // the chain evolves as `Plan` and `After` say, and of the heaps already
    // on it only the one the chunk is carved from changes
    ensures Grown(cfg, arena, kind, size, grants, r, made, c0, s0, im0, c1)
    // the result is a chunk of exactly `size` bytes carved from that heap
    ensures r.Some? ==>
              && r.value.offset in r.value.heap.carved && r.value.offset in r.value.heap.chunks
              && cfg.header + r.value.heap.chunks[r.value.offset].word.size == size
  {
    var hs := HeapSize(cfg, kind);
    ChainBounded(cfg, arena, kind);
    forall h | h in arena.Chain(Other(kind))
      ensures h !in c0
    {
      ChainsApart(arena, kind, h);
    }
    if size == 0 {
      assert After(Outcome(0, 0, NoChunk), s0, hs, Fresh(cfg, kind), size) == s0;
      NoneMade(c0);
      SameChains(arena.chains, kind);
      return None, [];
    }
    var heap := arena.Head(kind);
    if heap == null {
      r, made := NewChunkOnEmpty(cfg, arena, size, kind, grants);
      NothingAfter(made);
    } else {
      PlanOnChain(s0, size, hs, Fresh(cfg, kind), grants);
      r, made := SelectAndSplit(cfg, arena, kind, size, heap, grants, 0, false, c0, s0, im0);
    }
  }

  /** `new_chunk` on an empty chain: the first `heap_create`, then the heap
      selection on the one-heap chain. */
  method NewChunkOnEmpty(cfg: Config, arena: Arena, size: nat, kind: HeapKind, grants: seq<bool>)
      returns (r: Option<ChunkRef>, ghost made: seq<Heap>)
    requires arena.BinValid(cfg) && cfg.header <= size && arena.Chain(kind) == []
    modifies arena`tiny, arena`small, arena`chains
    ensures arena.BinValid(cfg)
    ensures arena.Chain(kind) == made && forall h :: h in made ==> fresh(h)
    ensures arena.chains == old(arena.chains)[kind := arena.Chain(kind)]
    ensures kind == Tiny ==> arena.small == old(arena.small)
    ensures kind == Small ==> arena.tiny == old(arena.tiny)
    ensures var o := Plan([], size, HeapSize(cfg, kind), Fresh(cfg, kind), grants);
            && |made| == o.created
            && Summaries(arena.Chain(kind)) == After(o, [], HeapSize(cfg, kind), Fresh(cfg, kind), size)
            && (r.Some? <==> o.target.At?)
            && (r.Some? ==> r.value.heap == arena.Chain(kind)[o.target.index])
    ensures r.Some? ==>
              && r.value.offset in r.value.heap.carved && r.value.offset in r.value.heap.chunks
              && cfg.header + r.value.heap.chunks[r.value.offset].word.size == size
  {
    var hs := HeapSize(cfg, kind);
    ghost var newHeap := Fresh(cfg, kind);
    var heap;
    heap, made := CreateHeap(cfg, arena, kind, Granted(grants, 0), [], []);
    NothingAfter(made);
    if heap == null {
      assert After(Outcome(1, 0, NoChunk), [], hs, newHeap, size) == [];
      return None, made;
    }
    PlanOnEmptyChain(size, hs, newHeap, grants);
    assert heap == made[0] && made[0] in made && fresh(heap);
    ghost var o := Plan([], size, hs, newHeap, grants);
    ghost var m;
    r, m := SelectAndSplit(cfg, arena, kind, size, heap, grants, 1, true, made, [newHeap], Images(made));
    ChainsTwice(old(arena.chains), kind, made, arena.Chain(kind));
    made := m + made;
  }

  // ---------------------------------------------------------------------
  // find_in_fastbin and find_memory
  // ---------------------------------------------------------------------

  /** The chunk headers of a heap once PREV_INUSE is set in the header at
      offset `at`, which happens to the chunk physically after one that
      leaves a fast bin. */
  function PrevInuseSet(chunks: map<nat, Header>, at: nat): (r: map<nat, Header>)
    requires at in chunks
    ensures r.Keys == chunks.Keys && r[at].word.prevInuse
    ensures r[at].word.size == chunks[at].word.size && r[at].prevSize == chunks[at].prevSize
    ensures forall o :: o in chunks && o != at ==> r[o] == chunks[o]
  {
    chunks[at := chunks[at].(word := chunks[at].word.(prevInuse := true))]
  }

  /** A pop of chunk `e` off fast-bin slot `slot`, from the state before it
      to the state after: `e` was the slot's first chunk and the slot lost
      it; the other slots keep their chunks; of the `heaps`, only `e`'s has
      changed, and in it only the PREV_INUSE bit of the chunk after `e`. */
  twostate predicate Popped(cfg: Config, arena: Arena, slot: nat, e: ChunkRef, heaps: seq<Heap>)
    requires cfg.Valid()
    reads arena.fastbin, heaps, e.heap
  {
    && slot < arena.fastbin.Length && old(arena.fastbin[slot]) != []
    && e == old(arena.fastbin[slot][0])
    && arena.fastbin[slot] == old(arena.fastbin[slot][1..])
    && (forall b :: 0 <= b < arena.fastbin.Length && b != slot ==> arena.fastbin[b] == old(arena.fastbin[b]))
    && (forall h :: h in heaps && h != e.heap ==> unchanged(h))
    && e.heap.carved == old(e.heap.carved) && e.heap.top == old(e.heap.top) && e.heap.free == old(e.heap.free)
    && e.offset in old(e.heap.chunks)
    && var next := NextOf(cfg, e.offset, old(e.heap.chunks[e.offset]));
       next in old(e.heap.chunks) && e.heap.chunks == PrevInuseSet(old(e.heap.chunks), next)
  }

  /** The pop of `find_in_fastbin`: unlink the first chunk of slot `idx`
      and set PREV_INUSE in the header of the chunk physically after it. */
  method PopFastbin(cfg: Config, arena: Arena, idx: nat) returns (e: ChunkRef)
    requires arena.BinValid(cfg)
    requires idx < arena.fastbin.Length && arena.fastbin[idx] != []
    modifies arena.fastbin, arena.fastbin[idx][0].heap
    ensures arena.BinValid(cfg)
    ensures e == old(arena.fastbin[idx][0]) && e.heap in arena.Heaps()
    ensures arena.fastbin[idx] == old(arena.fastbin[idx][1..])
    ensures forall b :: 0 <= b < arena.fastbin.Length && b != idx ==> arena.fastbin[b] == old(arena.fastbin[b])
    // a carved chunk of exactly the slot's size
    ensures e.offset in e.heap.carved && e.offset in e.heap.chunks
    ensures cfg.header + e.heap.chunks[e.offset].word.size == (idx + 1) * cfg.alignment
    // only the PREV_INUSE bit of the next chunk changes in that heap
    ensures e.heap.carved == old(e.heap.carved) && e.heap.top == old(e.heap.top) && e.heap.free == old(e.heap.free)
    ensures var next := NextOf(cfg, e.offset, old(e.heap.chunks[e.offset]));
            next in old(e.heap.chunks) && e.heap.chunks == PrevInuseSet(old(e.heap.chunks), next)
    ensures Popped(cfg, arena, idx, e, old(arena.Heaps()))
  {
    e := arena.fastbin[idx][0];
    var heap := e.heap;
    assert heap in arena.Heaps() && Binned(cfg, e, idx);
    assert heap.Valid(cfg);
    var t := heap.top.value;
    NextOfCarved(cfg, heap.chunks, heap.carved, heap.base, t, e.offset);
    var next := NextOf(cfg, e.offset, heap.chunks[e.offset]);
    var h := heap.chunks[next];
    ghost var before := heap.chunks;
    arena.fastbin[idx] := arena.fastbin[idx][1..];
    heap.chunks := heap.chunks[next := h.(word := h.word.(prevInuse := true))];
    CarvedBelowTop(cfg, before, heap.carved, heap.base, t);
    TilesKeepSizes(cfg, before, heap.chunks, heap.carved, heap.base, t);
    assert heap.Valid(cfg);
    forall x | x in arena.Heaps()
      ensures x.Valid(cfg)
    {
      if x != heap {
        assert old(x.Valid(cfg));
      }
    }
    forall b, j | 0 <= b < arena.fastbin.Length && 0 <= j < |arena.fastbin[b]|
      ensures arena.fastbin[b][j].heap in arena.Heaps() && Binned(cfg, arena.fastbin[b][j], b)
    {
      var f := arena.fastbin[b][j];
      if b == idx {
        assert f == old(arena.fastbin[b][j + 1]);
      }
      assert f.heap in arena.Heaps() && old(Binned(cfg, f, b));
      if f.heap == heap {
        BinnedKept(cfg, f.offset, b, heap.carved, before, heap.carved, heap.chunks);
      }
    }
  }

  /** The fast-bin slot `find_in_fastbin` looks in for `size`: none when
      `size` is 0 or its slot lies at or past `MXFAST / ALIGNMENT`. */
  function FastSlot(cfg: Config, size: nat): (slot: Option<nat>)
    requires cfg.Valid()
    ensures slot.Some? ==> 0 < size && slot.value == BinIndex(cfg, size) && slot.value < cfg.fastbinCount
    ensures slot.None? <==> size == 0 || BinIndex(cfg, size) >= cfg.mxfast / cfg.alignment
  {
    if size == 0 || (size - 1) / cfg.alignment >= cfg.mxfast / cfg.alignment then None
    else Some((size - 1) / cfg.alignment)
  }

  /** An aligned size of at most MXFAST has a fast-bin slot. */
  lemma FastSlotOfAligned(cfg: Config, size: nat)
    requires cfg.Valid() && 0 < size <= cfg.mxfast && size % cfg.alignment == 0
    ensures FastSlot(cfg, size).Some?
  {
    BinIndexRecoversSize(cfg, size);
  }

  /** `find_in_fastbin`: a chunk of the slot serving `size`, or null when
      `size` is 0, the slot lies at or past `MXFAST / ALIGNMENT`, or the
      slot is empty. */
  method FindInFastbin(cfg: Config, arena: Arena, size: nat) returns (r: Option<ChunkRef>)
    requires arena.BinValid(cfg)
    modifies arena.fastbin, arena.Heaps()
    ensures arena.BinValid(cfg) && unchanged(arena)
    ensures r.None? <==> FastSlot(cfg, size).None? || old(arena.fastbin[FastSlot(cfg, size).value]) == []
    ensures r.None? ==> unchanged(arena.fastbin) && unchanged(arena.Heaps())
    ensures r.None? ==> forall kind: HeapKind :: Summaries(arena.Chain(kind)) == old(Summaries(arena.Chain(kind)))
    ensures r.None? ==> forall kind: HeapKind :: Images(arena.Chain(kind)) == old(Images(arena.Chain(kind)))
    // the first chunk of the slot, taken off it
    ensures r.Some? ==>
              && r.value == old(arena.fastbin[BinIndex(cfg, size)][0])
              && arena.fastbin[BinIndex(cfg, size)] == old(arena.fastbin[BinIndex(cfg, size)][1..])
    // the other slots keep their chunks, and of the heaps only the chunk's
    // own changes, in the PREV_INUSE bit of the chunk after it
    ensures r.Some? ==> Popped(cfg, arena, BinIndex(cfg, size), r.value, old(arena.Heaps()))
    // large enough for `size`, with less than one ALIGNMENT to spare
    ensures r.Some? ==>
              && r.value.offset in r.value.heap.carved && r.value.offset in r.value.heap.chunks
              && size <= cfg.header + r.value.heap.chunks[r.value.offset].word.size < size + cfg.alignment
              && (size % cfg.alignment == 0 ==> cfg.header + r.value.heap.chunks[r.value.offset].word.size == size)
  {
    if size == 0 {
      return None;
    }
    var index := (size - 1) / cfg.alignment;
    if index >= cfg.mxfast / cfg.alignment {
      return None;
    }
    if arena.fastbin[index] != [] {
      var e := PopFastbin(cfg, arena, index);
      BinIndexFits(cfg, size);
      if size % cfg.alignment == 0 {
        BinIndexRecoversSize(cfg, size);
      }
      return Some(e);
    }
    return None;
  }

  /** The heap class `find_memory` asks `new_chunk` for. */
  function KindFor(cfg: Config, alignSize: nat): (kind: HeapKind)
    ensures kind == Small <==> alignSize > cfg.tinyUser
  {
    if alignSize > cfg.tinyUser then Small else Tiny
  }

  /** `find_memory`: serve `size` user bytes from the fast bin of the
      aligned chunk size when it is at most MXFAST, otherwise (or when that
      slot is empty) from `new_chunk`, and count the allocation when one is
      made. */
  method FindMemory(cfg: Config, arena: Arena, size: nat, grants: seq<bool>)
      returns (r: Option<ChunkRef>, ghost made: seq<Heap>)
    requires arena.BinValid(cfg)
    modifies arena`allocCount, arena`tiny, arena`small, arena`chains, arena.fastbin, arena.Heaps()
    ensures arena.BinValid(cfg)
    ensures arena.allocCount == old(arena.allocCount) + (if r.Some? then 1 else 0)
    ensures size == 0 ==> r.None? && made == [] && unchanged(arena) && unchanged(arena.fastbin) && unchanged(arena.Heaps())
    // the chunk carries the aligned size, header included, so it holds `size` bytes
    ensures r.Some? ==>
              && r.value.offset in r.value.heap.carved && r.value.offset in r.value.heap.chunks
              && cfg.header + r.value.heap.chunks[r.value.offset].word.size == Align(cfg, size + cfg.header)
    // a fast-bin hit hands out the first chunk of the slot and creates no heap
    ensures var a := Align(cfg, size + cfg.header);
            var slot := FastSlot(cfg, a);
            size > 0 && a <= cfg.mxfast && slot.Some? && old(arena.fastbin[slot.value]) != [] ==>
              && r == Some(old(arena.fastbin[slot.value][0])) && made == []
              && Popped(cfg, arena, slot.value, r.value, old(arena.Heaps()))
              && unchanged(arena`tiny, arena`small, arena`chains)
    // otherwise `new_chunk` runs on the chain of the class of the aligned
    // size, and the fast bins are left alone
    ensures var a := Align(cfg, size + cfg.header);
            var slot := FastSlot(cfg, a);
            size > 0 && !(a <= cfg.mxfast && slot.Some? && old(arena.fastbin[slot.value]) != []) ==>
              var kind := KindFor(cfg, a);
              && Grown(cfg, arena, kind, a, grants, r, made,
                       old(arena.Chain(kind)), old(Summaries(arena.Chain(kind))), old(Images(arena.Chain(kind))),
                       old(arena.Chain(Other(kind))))
              && (forall h :: h in old(arena.Chain(Other(kind))) ==> unchanged(h))
              && unchanged(arena.fastbin)
  {
    if size == 0 {
      return None, [];
    }
    var alignSize := Align(cfg, size + cfg.header);
    ghost var kind := KindFor(cfg, alignSize);
    r, made := Search(cfg, arena, alignSize, grants, arena.Chain(kind), Summaries(arena.Chain(kind)),
                      Images(arena.Chain(kind)), arena.Chain(Other(kind)));
  }

  /** The lookups of `find_memory` for a chunk of `alignSize` bytes, header
      included: the fast bin when `alignSize` is at most MXFAST, then
      `new_chunk`.  `c0`, `s0` and `im0` are the chain of the size's class,
      its summaries and its heaps' images on entry, `c1` the other chain. */
  method Search(cfg: Config, arena: Arena, alignSize: nat, grants: seq<bool>,
                ghost c0: seq<Heap>, ghost s0: seq<HeapSummary>, ghost im0: seq<HeapImage>, ghost c1: seq<Heap>)
      returns (r: Option<ChunkRef>, ghost made: seq<Heap>)
    requires arena.BinValid(cfg)
    requires cfg.header < alignSize && alignSize % cfg.alignment == 0
    requires c0 == arena.Chain(KindFor(cfg, alignSize)) && s0 == Summaries(c0) && im0 == Images(c0)
    requires c1 == arena.Chain(Other(KindFor(cfg, alignSize)))
    modifies arena`allocCount, arena`tiny, arena`small, arena`chains, arena.fastbin, arena.Heaps()
    ensures arena.BinValid(cfg)
    ensures arena.allocCount == old(arena.allocCount) + (if r.Some? then 1 else 0)
    ensures r.Some? ==>
              && r.value.offset in r.value.heap.carved && r.value.offset in r.value.heap.chunks
              && cfg.header + r.value.heap.chunks[r.value.offset].word.size == alignSize
    // a fast-bin hit pops the first chunk of the slot and hands it out; no
    // heap is created and the chains stay as they were
    ensures var slot := FastSlot(cfg, alignSize);
            alignSize <= cfg.mxfast && slot.Some? && old(arena.fastbin[slot.value]) != [] ==>
              && r == Some(old(arena.fastbin[slot.value][0])) && made == []
              && Popped(cfg, arena, slot.value, r.value, old(arena.Heaps()))
              && unchanged(arena`tiny, arena`small, arena`chains)
    // otherwise `new_chunk` runs on the chain of the class of the size, and
    // the fast bins are left alone
    ensures var slot := FastSlot(cfg, alignSize);
            !(alignSize <= cfg.mxfast && slot.Some? && old(arena.fastbin[slot.value]) != []) ==>
              var kind := KindFor(cfg, alignSize);
              && Grown(cfg, arena, kind, alignSize, grants, r, made, c0, s0, im0, c1)
              && (forall h :: h in c1 ==> unchanged(h))
              && unchanged(arena.fastbin)
  {
    var kind := KindFor(cfg, alignSize);
    r, made := None, [];
    if alignSize <= cfg.mxfast {
      FastSlotOfAligned(cfg, alignSize);
      r := FindInFastbin(cfg, arena, alignSize);
      if r.Some? {
        CountAllocation(cfg, arena, r.value.heap, kind, []);
        return;
      }
    }
    forall j | 0 <= j < |c0|
      ensures c0[j] in old(arena.Heaps())
    {
      ChainInHeaps(arena, kind, j);
    }
    // the chains and the other class's heaps are as they were on entry
    assert arena.Chain(kind) == c0 && arena.Chain(Other(kind)) == c1 && Summaries(c0) == s0 && Images(c0) == im0;
    forall h | h in c1
      ensures unchanged(h)
    {
      var j :| 0 <= j < |c1| && c1[j] == h;
      ChainInHeaps(arena, Other(kind), j);
    }
    r, made := FromHeaps(cfg, arena, alignSize, kind, grants, c0, s0, im0, c1);
  }

  /** `new_chunk` as `find_memory` calls it, with the count of the
      allocation when it returns a chunk. */
  method FromHeaps(cfg: Config, arena: Arena, alignSize: nat, kind: HeapKind, grants: seq<bool>,
                   ghost c0: seq<Heap>, ghost s0: seq<HeapSummary>, ghost im0: seq<HeapImage>, ghost c1: seq<Heap>)
      returns (r: Option<ChunkRef>, ghost made: seq<Heap>)
    requires arena.BinValid(cfg) && cfg.header <= alignSize
    requires c0 == arena.Chain(kind) && s0 == Summaries(c0) && im0 == Images(c0) && c1 == arena.Chain(Other(kind))
    modifies arena`allocCount, arena`tiny, arena`small, arena`chains, arena.Chain(kind)
    ensures arena.BinValid(cfg)
    ensures arena.allocCount == old(arena.allocCount) + (if r.Some? then 1 else 0)
    ensures r.Some? ==>
              && r.value.offset in r.value.heap.carved && r.value.offset in r.value.heap.chunks
              && cfg.header + r.value.heap.chunks[r.value.offset].word.size == alignSize
    ensures Grown(cfg, arena, kind, alignSize, grants, r, made, c0, s0, im0, c1)
    ensures forall h :: h in c1 ==> unchanged(h)
  {
    r, made := NewChunk(cfg, arena, alignSize, kind, grants, c0, s0, im0, c1);
    if r.Some? {
      ghost var chain, s, im := arena.Chain(kind), Summaries(arena.Chain(kind)), Images(c0);
      assert Growth(cfg, kind, alignSize, grants, r, made, c0, s0, im0, c1, chain, s, im, c1);
      CountAllocation(cfg, arena, r.value.heap, kind, c0);
      assert arena.Chain(kind) == chain && Summaries(chain) == s && Images(c0) == im;
    }
  }

  /** `arena->alloc_count++`.  It writes no heap: the heap `served` the
      chunk comes from, the summaries of the chain of class `kind` and the
      images of the heaps `c0` stay as they were. */
  method CountAllocation(cfg: Config, arena: Arena, ghost served: Heap, ghost kind: HeapKind, ghost c0: seq<Heap>)
    requires arena.BinValid(cfg)
    modifies arena`allocCount
    ensures arena.allocCount == old(arena.allocCount) + 1
    ensures arena.BinValid(cfg) && arena.chains == old(arena.chains)
    ensures unchanged(served)
    ensures Summaries(arena.Chain(kind)) == old(Summaries(arena.Chain(kind))) && Images(c0) == old(Images(c0))
  {
    arena.allocCount := arena.allocCount + 1;
  }
}
