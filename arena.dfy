/** Arena lifecycle and governance: the manager's append-only chain of
    arenas (`g_manager.arena` and the ones linked after it by `next`), the
    arena-count limit that `arena_can_create` latches, and the fallback
    order in which `arena_get` hands an arena to a thread.

    The manager keeps, next to the real `next` pointers, the ghost sequence
    `arenas` of the chain in link order.  The try-lock probe of
    `arena_reuse` is the set `busy` of arenas whose mutex another thread
    holds; `internal_alloc` and `sysconf` are the parameters `granted` and
    `cores`.
 */
module ArenaChain {
  import opened Chunk
  import opened ArenaState

  function Min(a: int, b: int): int {
    if a <= b then a else b
  }

  function Max(a: int, b: int): int {
    if a <= b then b else a
  }

  /** The CPU count `get_CPUs` settles on for a `sysconf` reading. */
  function CpuCount(cores: int): (n: nat)
    ensures n >= 1
    ensures cores > 0 ==> n == cores
  {
    if cores <= 0 then 1 else cores
  }

  /** The ceiling `arena_can_create` latches: twice the CPU count, but no
      more than twice the architecture constant. */
  function Limit(cpus: nat, architecture: nat): (m: nat)
    ensures m <= 2 * cpus && m <= 2 * architecture
    ensures m == 2 * cpus || m == 2 * architecture
  {
    Min(cpus * 2, architecture * 2)
  }

  /** The state `arena_can_create` looks at: `arena_count` and
      `options.ARENA_MAX` (0 while no ceiling is set). */
  datatype Governor = Governor(count: nat, max: nat)

  /** Its answer and the ceiling it leaves behind. */
  datatype Decision = Decision(ok: bool, max: nat)

  /** `arena_can_create`: a burst of creations is allowed while fewer than
      `test` arenas exist; the first request after that latches the ceiling
      `limit`, against which it and every later request is checked. */
  function Admit(g: Governor, test: nat, limit: nat): (d: Decision)
    ensures g.max != 0 ==> d.max == g.max
    ensures g.max == 0 && g.count < test ==> d.ok && d.max == 0
    ensures g.max == 0 && g.count >= test ==> d.max == limit
    ensures d.ok <==> g.count < (if d.max == 0 then test else d.max)
    ensures d.ok && d.max != 0 ==> g.count + 1 <= d.max
  {
    if g.max == 0 then
      if g.count >= test then Decision(g.count < limit, limit) else Decision(true, 0)
    else
      Decision(g.count < g.max, g.max)
  }

  /** One `arena_create` attempt: the count grows when the limit admits a
      new arena and `internal_alloc` grants its page. */
  function Attempt(g: Governor, test: nat, limit: nat, granted: bool): (g1: Governor)
    ensures g1.max == Admit(g, test, limit).max
    ensures g1.count == g.count + (if Admit(g, test, limit).ok && granted then 1 else 0)
  {
    var d := Admit(g, test, limit);
    Governor(if d.ok && granted then g.count + 1 else g.count, d.max)
  }

  /** A run of creation attempts, one per entry of `grants`. */
  function Run(g: Governor, test: nat, limit: nat, grants: seq<bool>): Governor
    decreases |grants|
  {
    if grants == [] then g else Run(Attempt(g, test, limit, grants[0]), test, limit, grants[1..])
  }

  /** The most arenas a run can reach from `g`: the latched ceiling once
      there is one, otherwise the larger of the burst threshold and the
      ceiling still to be latched — never less than the count already
      reached. */
  function Ceiling(g: Governor, test: nat, limit: nat): nat {
    if g.max != 0 then Max(g.count, g.max) else Max(g.count, Max(test, limit))
  }

  /** One attempt stays under the ceiling and does not raise it. */
  lemma AttemptBound(g: Governor, test: nat, limit: nat, granted: bool)
    ensures Attempt(g, test, limit, granted).count <= Ceiling(g, test, limit)
    ensures Ceiling(Attempt(g, test, limit, granted), test, limit) <= Ceiling(g, test, limit)
  {
  }

  /** No run of creation attempts takes the arena count past the ceiling. */
  lemma {:induction false} RunBound(g: Governor, test: nat, limit: nat, grants: seq<bool>)
    ensures Run(g, test, limit, grants).count <= Ceiling(g, test, limit)
    decreases |grants|
  {
    if grants != [] {
      var g1 := Attempt(g, test, limit, grants[0]);
      AttemptBound(g, test, limit, grants[0]);
      RunBound(g1, test, limit, grants[1..]);
    }
  }

  /** Once a ceiling is latched, a run never passes it unless the count was
      already past it. */
  lemma LatchedRunBound(g: Governor, test: nat, limit: nat, grants: seq<bool>)
    requires g.max != 0
    ensures Run(g, test, limit, grants).count <= Max(g.count, g.max)
  {
    RunBound(g, test, limit, grants);
  }

  /** From the single first arena with no ceiling set, the count stays within
      twice the CPU count (capped by the architecture) exactly when the burst
      threshold does not exceed that ceiling. */
  lemma BurstWithinLimit(test: nat, limit: nat, grants: seq<bool>)
    requires 1 <= limit && test <= limit
    ensures Run(Governor(1, 0), test, limit, grants).count <= limit
  {
    RunBound(Governor(1, 0), test, limit, grants);
  }

  /** With a burst threshold of 8 and one CPU (ceiling 2), seven granted
      attempts leave eight arenas: the latched ceiling does not bound the
      arenas created during the burst. */
  lemma BurstPastLimit()
    ensures Run(Governor(1, 0), 8, Limit(1, 64), [true, true, true, true, true, true, true]).count == 8
  {
    var s := [true, true, true, true, true, true, true];
    assert s[1..] == [true, true, true, true, true, true];
    assert s[1..][1..] == [true, true, true, true, true];
    assert s[1..][1..][1..] == [true, true, true, true];
    assert s[1..][1..][1..][1..] == [true, true, true];
    assert s[1..][1..][1..][1..][1..] == [true, true];
    assert s[1..][1..][1..][1..][1..][1..] == [true];
  }

  /** The most arenas the manager keeps: the first one, the burst allowed
      before a ceiling is latched, or the ceiling, whichever is largest. */
  function Bound(test: nat, max: nat): (b: nat)
    ensures b >= 1 && b >= test && b >= max
  {
    Max(1, Max(test, max))
  }

  /** `arena_reuse`'s choice: the first arena of the chain, from position
      `i` on, whose mutex is free. */
  function FirstIdleFrom(chain: seq<Arena>, busy: set<Arena>, i: nat): (r: Option<nat>)
    requires i <= |chain|
    ensures r.Some? ==> i <= r.value < |chain| && chain[r.value] !in busy
    ensures r.Some? ==> forall j :: i <= j < r.value ==> chain[j] in busy
    ensures r.None? ==> forall j :: i <= j < |chain| ==> chain[j] in busy
    decreases |chain| - i
  {
    if i == |chain| then None
    else if chain[i] !in busy then Some(i)
    else FirstIdleFrom(chain, busy, i + 1)
  }

  function FirstIdle(chain: seq<Arena>, busy: set<Arena>): (r: Option<nat>)
    ensures r.Some? ==> r.value < |chain| && chain[r.value] !in busy
    ensures r.Some? ==> forall j :: 0 <= j < r.value ==> chain[j] in busy
    ensures r.None? ==> forall j :: 0 <= j < |chain| ==> chain[j] in busy
  {
    FirstIdleFrom(chain, busy, 0)
  }

  /** The arena at position `i` of the chain links to the one after it, the
      last one to nothing. */
  ghost predicate ArenaLinkAt(chain: seq<Arena>, i: nat)
    requires i < |chain|
    reads chain`next
  {
    chain[i].next == (if i + 1 < |chain| then chain[i + 1] else null)
  }

  /** A thread's cached arena (`tcache`, thread-local in the source). */
  class ThreadCache {
    var arena: Arena?

    constructor Empty()
      ensures arena == null
    {
      arena := null;
    }
  }

  /** `g_manager`: the embedded first arena, the arena counter, the arena
      options and the caches of `get_CPUs` and `arena_get`. */
  class Manager {
    const arena: Arena           // `g_manager.arena`, the head of the chain
    var arenaCount: nat          // `arena_count`
    var arenaMax: nat            // `options.ARENA_MAX`, 0 until a ceiling is set
    const arenaTest: nat         // `options.ARENA_TEST`
    const architecture: nat      // `ARCHITECTURE`
    var cpus: nat                // `get_CPUs`' static cache, 0 until computed
    var initialized: bool        // `arena_get`'s static flag
    ghost var arenas: seq<Arena> // the chain from `arena` along `next`

    /** The chain starts at the embedded arena, follows `next` without
        repeats, and every arena on it has its 257 bin slots. */
    ghost predicate Chained()
      reads this, arenas`next
    {
      && |arenas| >= 1 && arenas[0] == arena
      && (forall i :: 0 <= i < |arenas| ==> ArenaLinkAt(arenas, i))
      && (forall i, j :: 0 <= i < j < |arenas| ==> arenas[i] != arenas[j])
      && (forall i :: 0 <= i < |arenas| ==> arenas[i].bins.Length == BinSlots)
    }

    /** Each arena's id is its position on the chain. */
    ghost predicate Numbered()
      reads this, arenas`id
    {
      forall i :: 0 <= i < |arenas| ==> arenas[i].id == i
    }

    /** The chain is well formed; once the first arena is initialized, the
        counter equals the chain's length and each arena's id is its
        position; the counter stays under the bound the creation limit
        allows. */
    ghost predicate Valid()
      reads this, arenas`next, arenas`id
    {
      && Chained()
      && (if initialized then arenaCount == |arenas| && Numbered() else arenaCount == 0 && |arenas| == 1)
      && arenaCount <= Bound(arenaTest, arenaMax)
    }

    /** The last arena of the chain, whose `next` `arena_create` sets. */
    ghost function Last(): Arena
      requires |arenas| > 0
      reads this
    {
      arenas[|arenas| - 1]
    }

    /** The zero-initialised global manager with its configured limits. */
    constructor Start(cfg: Config, arenaMax: nat, arenaTest: nat, architecture: nat)
      requires cfg.Valid()
      ensures Valid() && !initialized && arenas == [arena]
      ensures arena.BinValid(cfg)
      ensures arenaCount == 0 && cpus == 0
      ensures this.arenaMax == arenaMax && this.arenaTest == arenaTest && this.architecture == architecture
    {
      var a := new Arena.Zeroed(cfg);
      arena := a;
      arenaCount, cpus, initialized := 0, 0, false;
      this.arenaMax, this.arenaTest, this.architecture := arenaMax, arenaTest, architecture;
      arenas := [a];
      new;
      assert ArenaLinkAt(arenas, 0);
    }

    /** `arena_initialize`: the arena takes the next id from the counter,
        its counters and bin slots are cleared and it is unlinked. */
    method ArenaInitialize(a: Arena)
      requires a.bins.Length == BinSlots
      modifies this`arenaCount, a`id, a`allocCount, a`freeCount, a.bins, a`heapHeader, a`next
      ensures a.id == old(arenaCount) && arenaCount == old(arenaCount) + 1
      ensures a.allocCount == 0 && a.freeCount == 0
      ensures a.heapHeader == null && a.next == null
      ensures forall b :: 0 <= b < a.bins.Length ==> a.bins[b] == None
    {
      a.id := arenaCount;
      arenaCount := arenaCount + 1;
      a.allocCount := 0;
      a.freeCount := 0;
      for b := 0 to BinSlots
        modifies a.bins
        invariant forall c :: 0 <= c < b ==> a.bins[c] == None
      {
        a.bins[b] := None;
      }
      a.heapHeader := null;
      a.next := null;
    }

    /** `get_CPUs`: at least one, and once computed the same value on every
        later call. */
    method GetCPUs(cores: int) returns (n: nat)
      modifies this`cpus
      ensures n >= 1 && cpus == n
      ensures old(cpus) != 0 ==> n == old(cpus)
      ensures old(cpus) == 0 ==> n == CpuCount(cores)
    {
      if cpus == 0 {
        cpus := if cores <= 0 then 1 else cores;
      }
      n := cpus;
    }

    /** `arena_can_create`, as `Admit` describes it; the CPU count is asked
        for only when the ceiling is latched. */
    method CanCreate(cores: int) returns (ok: bool)
      modifies this`arenaMax, this`cpus
      ensures var cpusNow := if old(cpus) != 0 then old(cpus) else CpuCount(cores);
              var d := Admit(Governor(arenaCount, old(arenaMax)), arenaTest, Limit(cpusNow, architecture));
              && ok == d.ok && arenaMax == d.max
              && cpus == (if old(arenaMax) == 0 && arenaCount >= arenaTest then cpusNow else old(cpus))
      ensures old(arenaMax) == 0 && arenaCount >= arenaTest ==> cpus >= 1 && (old(cpus) != 0 ==> cpus == old(cpus))
      ensures !(old(arenaMax) == 0 && arenaCount >= arenaTest) ==> cpus == old(cpus)
      ensures Bound(arenaTest, old(arenaMax)) <= Bound(arenaTest, arenaMax)
      ensures ok ==> arenaCount + 1 <= Bound(arenaTest, arenaMax)
    {
      if arenaMax == 0 {
        if arenaCount >= arenaTest {
          var n := GetCPUs(cores);
          arenaMax := Min(n * 2, architecture * 2);
          return arenaCount < arenaMax;
        } else {
          return true;
        }
      }
      return arenaCount < arenaMax;
    }

    /** `arena_create`: when the limit admits it and the page is `granted`,
        a zero-filled arena is initialized and appended to the end of the
        chain; otherwise the chain is left as it is. */
    method ArenaCreate(cfg: Config, granted: bool, cores: int) returns (r: Arena?)
      requires Valid() && initialized && cfg.Valid()
      modifies this`arenaCount, this`arenaMax, this`cpus, this`arenas, Last()`next
      ensures Valid()
      ensures var cpusNow := if old(cpus) != 0 then old(cpus) else CpuCount(cores);
              var d := Admit(Governor(old(arenaCount), old(arenaMax)), arenaTest, Limit(cpusNow, architecture));
              && arenaMax == d.max && (r != null <==> d.ok && granted)
              && cpus == (if old(arenaMax) == 0 && old(arenaCount) >= arenaTest then cpusNow else old(cpus))
      ensures r == null ==> arenas == old(arenas) && arenaCount == old(arenaCount) && unchanged(old(Last())`next)
      ensures r != null ==> fresh(r) && arenas == old(arenas) + [r] && arenaCount == old(arenaCount) + 1
      ensures r != null ==> r.id == old(arenaCount) && r.BinValid(cfg) && r.next == null
      ensures r != null && arenaMax != 0 ==> arenaCount <= arenaMax
    {
      var ok := CanCreate(cores);
      if !ok {
        return null;
      }
      if !granted {
        return null;
      }
      r := NewArena(cfg);
      Append(cfg, r);
    }

    /** `internal_alloc` of a zero-filled page for the arena, then
        `arena_initialize` on it. */
    method NewArena(cfg: Config) returns (r: Arena)
      requires cfg.Valid()
      modifies this`arenaCount
      ensures fresh(r) && fresh(r.bins) && r.BinValid(cfg)
      ensures r.id == old(arenaCount) && arenaCount == old(arenaCount) + 1
      ensures r.bins.Length == BinSlots && r.next == null
      ensures r.allocCount == 0 && r.freeCount == 0 && r.heapHeader == null
      ensures forall b :: 0 <= b < r.bins.Length ==> r.bins[b] == None
    {
      r := new Arena.Zeroed(cfg);
      ArenaInitialize(r);
    }

    /** The walk of `arena_create` to the end of the chain and the link that
        puts `r` after the last arena. */
    method Append(ghost cfg: Config, r: Arena)
      requires Chained() && r !in arenas && r.bins.Length == BinSlots && r.next == null
      requires Numbered() && r.id == |arenas| && r.BinValid(cfg)
      modifies this`arenas, Last()`next
      ensures Chained() && Numbered() && arenas == old(arenas) + [r]
      ensures r.next == null && r.BinValid(cfg)
    {
      var current := arena;
      ghost var i := 0;
      while current.next != null
        invariant 0 <= i < |arenas| && current == arenas[i]
        decreases |arenas| - i
      {
        assert ArenaLinkAt(arenas, i);
        current := current.next;
        i := i + 1;
      }
      assert ArenaLinkAt(arenas, i);
      current.next := r;
      arenas := arenas + [r];
      forall k | 0 <= k < |arenas|
        ensures ArenaLinkAt(arenas, k)
      {
        if k < i {
          assert old(ArenaLinkAt(arenas, k)) && old(arenas)[k] != old(arenas)[i];
        }
      }
    }

    /** `arena_reuse`: the first arena in chain order whose mutex the
        try-lock probe finds free, or none; the chain is not changed. */
    method ArenaReuse(busy: set<Arena>) returns (r: Arena?)
      requires Valid()
      ensures var f := FirstIdle(arenas, busy);
              r == (if f.Some? then arenas[f.value] else null)
    {
      r := null;
      var current: Arena? := arena;
      ghost var i := 0;
      while current != null
        invariant 0 <= i <= |arenas|
        invariant current == (if i < |arenas| then arenas[i] else null)
        invariant FirstIdleFrom(arenas, busy, i) == FirstIdle(arenas, busy)
        decreases |arenas| - i
      {
        if current !in busy {
          r := current;
          break;
        }
        assert ArenaLinkAt(arenas, i);
        current := current.next;
        i := i + 1;
      }
    }

    /** `arena_get`: the first call initializes and hands out the embedded
        arena; later calls hand out, in this order, the arena `arena_reuse`
        finds, a newly created one, or the embedded arena. */
    method ArenaGet(cfg: Config, busy: set<Arena>, granted: bool, cores: int) returns (r: Arena)
      requires Valid() && cfg.Valid()
      modifies this`initialized, this`arenaCount, this`arenaMax, this`cpus, this`arenas
      modifies arena`id, arena`allocCount, arena`freeCount, arena.bins, arena`heapHeader, arena`next
      modifies Last()`next
      ensures Valid() && initialized && r in arenas
      // the first call initializes the embedded arena and hands it out
      ensures !old(initialized) ==>
                && r == arena && arenas == old(arenas) && arena.id == 0 && arenaCount == 1
                && arena.allocCount == 0 && arena.freeCount == 0 && arena.heapHeader == null && arena.next == null
                && (forall b :: 0 <= b < arena.bins.Length ==> arena.bins[b] == None)
                && arenaMax == old(arenaMax) && cpus == old(cpus)
      // later calls leave the embedded arena's own fields alone ...
      ensures old(initialized) ==>
                unchanged(arena`id, arena`allocCount, arena`freeCount, arena`heapHeader, arena.bins)
      // ... and hand out the first idle arena, changing nothing else,
      ensures old(initialized) && FirstIdle(old(arenas), busy).Some? ==>
                && r == old(arenas)[FirstIdle(old(arenas), busy).value] && arenas == old(arenas)
                && unchanged(this) && unchanged(Last()`next)
      // ... or else a newly created arena, or the embedded one when creation fails
      ensures old(initialized) && FirstIdle(old(arenas), busy).None? ==>
                var cpusNow := if old(cpus) != 0 then old(cpus) else CpuCount(cores);
                var d := Admit(Governor(old(arenaCount), old(arenaMax)), arenaTest, Limit(cpusNow, architecture));
                && arenaMax == d.max
                && cpus == (if old(arenaMax) == 0 && old(arenaCount) >= arenaTest then cpusNow else old(cpus))
                && if d.ok && granted then
                     && fresh(r) && arenas == old(arenas) + [r] && arenaCount == old(arenaCount) + 1
                     && r.id == old(arenaCount) && r.BinValid(cfg) && r.next == null
                   else r == arena && arenas == old(arenas) && arenaCount == old(arenaCount) && unchanged(old(Last())`next)
    {
      var a: Arena? := null;
      if !initialized {
        initialized := true;
        ArenaInitialize(arena);
        a := arena;
        assert ArenaLinkAt(arenas, 0);
      }
      if a == null {
        a := ArenaReuse(busy);
      }
      if a == null {
        a := ArenaCreate(cfg, granted, cores);
      }
      if a == null {
        a := arena;
      }
      r := a;
    }

    /** `arena_find`: the thread's cached arena when it has one, otherwise the
        one `arena_get` hands out, which is then cached.  `arena_get` never
        returns null, so the out-of-memory branch of the source is dead. */
    method ArenaFind(tc: ThreadCache, cfg: Config, busy: set<Arena>, granted: bool, cores: int)
        returns (r: Arena)
      requires Valid() && cfg.Valid()
      modifies tc, this`initialized, this`arenaCount, this`arenaMax, this`cpus, this`arenas
      modifies arena`id, arena`allocCount, arena`freeCount, arena.bins, arena`heapHeader, arena`next
      modifies Last()`next
      ensures Valid() && tc.arena == r
      // a cached arena is handed out and nothing changes
      ensures old(tc.arena) != null ==> r == old(tc.arena) && arenas == old(arenas) && arenaCount == old(arenaCount)
      ensures old(tc.arena) != null ==>
                && unchanged(this) && unchanged(Last()`next)
                && unchanged(arena`id, arena`allocCount, arena`freeCount, arena`heapHeader, arena.bins)
      // otherwise the arena is `arena_get`'s choice
      ensures old(tc.arena) == null ==> r in arenas && initialized
      ensures old(tc.arena) == null && !old(initialized) ==>
                && r == arena && arenas == old(arenas) && arena.id == 0 && arenaCount == 1
                && arena.allocCount == 0 && arena.freeCount == 0 && arena.heapHeader == null && arena.next == null
                && (forall b :: 0 <= b < arena.bins.Length ==> arena.bins[b] == None)
                && arenaMax == old(arenaMax) && cpus == old(cpus)
      ensures old(tc.arena) == null && old(initialized) ==>
                unchanged(arena`id, arena`allocCount, arena`freeCount, arena`heapHeader, arena.bins)
      ensures old(tc.arena) == null && old(initialized) && FirstIdle(old(arenas), busy).Some? ==>
                && r == old(arenas)[FirstIdle(old(arenas), busy).value] && arenas == old(arenas)
                && unchanged(this) && unchanged(Last()`next)
      ensures old(tc.arena) == null && old(initialized) && FirstIdle(old(arenas), busy).None? ==>
                var cpusNow := if old(cpus) != 0 then old(cpus) else CpuCount(cores);
                var d := Admit(Governor(old(arenaCount), old(arenaMax)), arenaTest, Limit(cpusNow, architecture));
                && arenaMax == d.max
                && cpus == (if old(arenaMax) == 0 && old(arenaCount) >= arenaTest then cpusNow else old(cpus))
                && if d.ok && granted then
                     && fresh(r) && arenas == old(arenas) + [r] && arenaCount == old(arenaCount) + 1
                     && r.id == old(arenaCount) && r.BinValid(cfg) && r.next == null
                   else r == arena && arenas == old(arenas) && arenaCount == old(arenaCount) && unchanged(old(Last())`next)
    {
      if tc.arena == null {
        tc.arena := ArenaGet(cfg, busy, granted, cores);
      }
      r := tc.arena;
    }
  }
}
