/**
 The page-table code of kernel/vm.c, as it changes tables and reference counts in place.

 `node` is the tree of a page table: an operation is given the tree it works on and returns
 what has become of it. Where the source panics an operation says so and stops.
 */
module Vm {
  import opened Blocks
  import opened Kalloc
  import opened PageTable

  // What kalloc and kfree fill pages with.
  const ALLOCATED: Table := seq(ENTRIES, _ => Decode(0x0505_0505_0505_0505))
  const FREED: Table := seq(ENTRIES, _ => Decode(0x0101_0101_0101_0101))

  /** Entries that were there stay. */
  ghost predicate KeepsChildren(mem: Memory, mem': Memory, node: map<nat, Node>) {
    forall p, k {:trigger Child(mem', p, k)} :: p in node && Child(mem, p, k) != 0 ==>
      Child(mem', p, k) == Child(mem, p, k)
  }

  /** What hanging the new table c into entry k of p does to the rest. */
  lemma HungGrew(end: nat, mem: Memory, ref: seq<nat>, node: map<nat, Node>, ref': seq<nat>, p: nat, k: nat, c: nat)
    requires p in node && p in mem && c !in node && c in mem && k < ENTRIES && !mem[p][k].v && IsPage(end, c)
    requires Count(end, ref, c) == 0 && Count(end, ref', c) == 1 && SameCounts(end, ref, ref', c)
    ensures var mem' := mem[c := EMPTY][p := mem[p][k := Name(c)]];
            && Grew(end, mem, ref, node, mem', ref', node[c := Below(node[p], k)]) && KeepsChildren(mem, mem', node)
            && Child(mem', p, k) == c
  {
    hide Count;
    var mem' := mem[c := EMPTY][p := mem[p][k := Name(c)]];
    assert mem'.Keys == mem.Keys;
  }

  lemma KeepsRefl(mem: Memory, node: map<nat, Node>)
    ensures KeepsChildren(mem, mem, node)
  {
  }

  lemma GrewRefl(end: nat, mem: Memory, ref: seq<nat>, node: map<nat, Node>)
    ensures Grew(end, mem, ref, node, mem, ref, node)
  {
    hide Count;
  }

  /** The table that a walk for vp has come to, with so many levels to go, and where it hangs. */
  function PathTo(mem: Memory, root: nat, level: nat, vp: nat): nat {
    if level == 2 then root else if level == 1 then Child(mem, root, Px(2, vp)) else Low(mem, root, vp)
  }

  function PathNode(level: nat, vp: nat): Node {
    if level == 2 then Root else if level == 1 then Mid(Px(2, vp)) else Last(Px(2, vp), Px(1, vp))
  }

  /** The entry that mappages writes for pa. */
  function Entry(perm: Pte, pa: nat): Pte {
    perm.(v := true, pa := RoundDown(pa))
  }

  /** A page, if it is one of the allocator's, that has a reference for one more use. */
  ghost predicate Spare(mem: Memory, root: nat, node: map<nat, Node>, end: nat, ref: seq<nat>, pa: nat) {
    IsPage(end, pa) ==> pa !in node && Uses(mem, root, 0, TOP, pa) < Count(end, ref, pa)
  }

  /** It still has when the tree has grown and another page has been mapped. */
  lemma SpareKeeps(end: nat, mem: Memory, ref: seq<nat>, node: map<nat, Node>, mem': Memory, ref': seq<nat>,
                   node': map<nat, Node>,
                   root: nat, pa: nat)
    requires Spare(mem, root, node, end, ref, pa) && Grew(end, mem, ref, node, mem', ref', node')
    requires forall vp {:trigger Maps(mem', root, vp, pa)} :: 0 <= vp < TOP ==>
               Maps(mem', root, vp, pa) == Maps(mem, root, vp, pa)
    ensures Spare(mem', root, node', end, ref', pa)
  {
    hide Look, Count, Uses;
    UsesFrame(mem, root, mem', root, 0, TOP, pa);
    if IsPage(end, pa) {
      assert pa in node' ==> Count(end, ref, pa) == 0;
      assert Count(end, ref', pa) == Count(end, ref, pa);
    }
  }

  /** Writing into one of the tables is part of the growth. */
  lemma GrewSet(end: nat, mem: Memory, ref: seq<nat>, node: map<nat, Node>, mem': Memory, ref': seq<nat>,
                node': map<nat, Node>,
                q: nat, k: nat, e: Pte)
    requires Grew(end, mem, ref, node, mem', ref', node') && q in node' && q in mem' && k < ENTRIES
    ensures Grew(end, mem, ref, node, SetEntry(mem', q, k, e), ref', node')
  {
    hide Count;
    var mem1 := SetEntry(mem', q, k, e);
    assert mem1.Keys == mem'.Keys;
    forall p | p in mem && p !in node' ensures p in mem1 && mem1[p] == mem[p] {
      assert mem'[p] == mem[p];
    }
  }

  lemma OneSpare(mem: Memory, root: nat, node: map<nat, Node>, end: nat, ref: seq<nat>, pa: nat)
    requires Spare(mem, root, node, end, ref, pa)
    ensures Spares(mem, root, node, end, ref, pa, 0, 1)
  {
    hide Spare;
  }

  /** The map is as it was but for vp. */
  ghost predicate SameBut(mem: Memory, mem': Memory, root: nat, at: nat) {
    forall vp: nat {:trigger Look(mem', root, vp)} :: vp < TOP && vp != at ==>
      Look(mem', root, vp) == Look(mem, root, vp)
  }

  /** The pages from first on, n of them, are mapped to consecutive pages from pa; the rest as before. */
  ghost predicate MappedRun(mem: Memory, mem': Memory, root: nat, first: nat, n: nat, perm: Pte, pa: nat) {
    forall vp: nat {:trigger Look(mem', root, vp)} :: vp < TOP ==>
      Look(mem', root, vp) == if first <= vp < first + n then Entry(perm, pa + (vp - first) * PGSIZE)
        else Look(mem, root, vp)
  }

  lemma RunOne(mem: Memory, mem1: Memory, mem2: Memory, root: nat, first: nat, n: nat, perm: Pte, pa: nat)
    requires MappedRun(mem, mem1, root, first, n, perm, pa) && SameBut(mem1, mem2, root, first + n)
    requires Look(mem2, root, first + n) == Entry(perm, pa + n * PGSIZE)
    ensures MappedRun(mem, mem2, root, first, n + 1, perm, pa)
  {
    hide Look;
    forall vp: nat | vp < TOP
      ensures Look(mem2, root, vp) == if first <= vp < first + n + 1 then Entry(perm, pa + (vp - first) * PGSIZE)
                else Look(mem, root, vp)
    {
      var e, f := Look(mem2, root, vp), Look(mem1, root, vp);
    }
  }

  function Nth(pa: nat, j: nat): nat {
    pa + j * PGSIZE
  }

  /** Each of the pages still to be mapped has a reference to spare. */
  ghost predicate Spares(mem: Memory, root: nat, node: map<nat, Node>, end: nat, ref: seq<nat>, pa: nat, k: nat,
                         n: nat) {
    forall j: nat {:trigger Nth(pa, j)} :: k <= j < n ==> Spare(mem, root, node, end, ref, Nth(pa, j))
  }

  lemma SparesOn(end: nat, mem: Memory, ref: seq<nat>, node: map<nat, Node>, mem': Memory, ref': seq<nat>,
                 node': map<nat, Node>,
                 root: nat, first: nat, perm: Pte, pa: nat, k: nat, n: nat)
    requires Spares(mem, root, node, end, ref, pa, k, n) && Grew(end, mem, ref, node, mem', ref', node')
    requires pa % PGSIZE == 0 && k < n
    requires SameBut(mem, mem', root, first + k) && Look(mem', root, first + k) == Entry(perm, pa + k * PGSIZE)
    requires !Look(mem, root, first + k).v
    ensures Spares(mem', root, node', end, ref', pa, k + 1, n)
  {
    hide Look, Count, Uses, Grew, Spare;
    forall j: nat {:trigger Nth(pa, j)} | k + 1 <= j < n ensures Spare(mem', root, node', end, ref', Nth(pa, j)) {
      var b := Nth(pa, j);
      forall vp | 0 <= vp < TOP ensures Maps(mem', root, vp, b) == Maps(mem, root, vp, b) {
        var e := Look(mem', root, vp);
        Aligned(pa, k);
      }
      SpareKeeps(end, mem, ref, node, mem', ref', node', root, b);
    }
  }

  lemma SpareNow(mem: Memory, root: nat, node: map<nat, Node>, end: nat, ref: seq<nat>, pa: nat, k: nat, n: nat)
    requires Spares(mem, root, node, end, ref, pa, k, n) && k < n && pa % PGSIZE == 0
    ensures Spare(mem, root, node, end, ref, RoundDown(pa + k * PGSIZE))
  {
    hide Spare;
    Aligned(pa, k);
    var b := Nth(pa, k);
  }

  lemma RunNone(mem: Memory, root: nat, first: nat, perm: Pte, pa: nat)
    ensures MappedRun(mem, mem, root, first, 0, perm, pa)
  {
    hide Look;
  }

  lemma RunSame(mem: Memory, mem1: Memory, mem2: Memory, root: nat, first: nat, n: nat, perm: Pte, pa: nat)
    requires MappedRun(mem, mem1, root, first, n, perm, pa) && SameMap(mem1, mem2, root)
    ensures MappedRun(mem, mem2, root, first, n, perm, pa)
  {
    hide Look;
    forall vp: nat | vp < TOP
      ensures Look(mem2, root, vp) == if first <= vp < first + n then Entry(perm, pa + (vp - first) * PGSIZE)
                else Look(mem, root, vp)
    {
      var e, f := Look(mem2, root, vp), Look(mem1, root, vp);
    }
  }

  lemma RunAt(mem: Memory, mem': Memory, root: nat, first: nat, n: nat, perm: Pte, pa: nat)
    requires MappedRun(mem, mem', root, first, n, perm, pa)
    ensures first + n < TOP ==> Look(mem', root, first + n) == Look(mem, root, first + n)
  {
    hide Look;
  }

  lemma Aligned(pa: nat, k: nat)
    requires pa % PGSIZE == 0
    ensures RoundDown(pa + k * PGSIZE) == pa + k * PGSIZE
  {
  }

  /** The pages from lo up to hi are unmapped; the rest as before. */
  ghost predicate UnmappedRun(mem: Memory, mem': Memory, root: nat, lo: nat, hi: nat) {
    forall vp: nat {:trigger Look(mem', root, vp)} :: vp < TOP ==>
      Look(mem', root, vp) == if lo <= vp < hi then NOPTE else Look(mem, root, vp)
  }

  /** Every page has lost a reference for each use of it between lo and hi. */
  ghost predicate Released(end: nat, ref: seq<nat>, ref': seq<nat>, mem: Memory, root: nat, lo: nat, hi: nat) {
    |ref'| == |ref| && forall pa {:trigger Count(end, ref', pa)} :: IsPage(end, pa) ==>
      Count(end, ref', pa) + Uses(mem, root, lo, hi, pa) == Count(end, ref, pa)
  }

  /** Only the tree's own tables and the pages that `ref` says are free have been written to. */
  ghost predicate Wrote(end: nat, mem: Memory, mem': Memory, ref: seq<nat>, node: map<nat, Node>) {
    && mem'.Keys == mem.Keys
    && forall p {:trigger mem'[p]} :: p in mem && p !in node && !(IsPage(end, p) && Count(end, ref, p) == 0) ==>
         p in mem' && mem'[p] == mem[p]
  }

  lemma UnmapOn(mem: Memory, mem1: Memory, mem2: Memory, root: nat, lo: nat, at: nat)
    requires UnmappedRun(mem, mem1, root, lo, at) && SameBut(mem1, mem2, root, at) && Look(mem2, root, at) == NOPTE
    requires lo <= at
    ensures UnmappedRun(mem, mem2, root, lo, at + 1)
  {
    hide Look;
    forall vp: nat | vp < TOP ensures Look(mem2, root, vp) == if lo <= vp < at + 1 then NOPTE else Look(mem, root, vp) {
      var e, f := Look(mem2, root, vp), Look(mem1, root, vp);
    }
  }

  lemma ReleasedOn(end: nat, ref: seq<nat>, ref1: seq<nat>, ref2: seq<nat>, mem: Memory, root: nat, lo: nat, at: nat,
                   pa: nat)
    requires Released(end, ref, ref1, mem, root, lo, at) && lo <= at && Look(mem, root, at).v
    requires Look(mem, root, at).pa == pa
    requires SameCounts(end, ref1, ref2, pa) && IsPage(end, pa) && Count(end, ref2, pa) == Count(end, ref1, pa) - 1
    ensures Released(end, ref, ref2, mem, root, lo, at + 1)
  {
    hide Look, Count;
    forall b | IsPage(end, b) ensures Count(end, ref2, b) + Uses(mem, root, lo, at + 1, b) == Count(end, ref, b) {
      var c := Count(end, ref1, b);
      assert Uses(mem, root, lo, at + 1, b) == Uses(mem, root, lo, at, b) + Bit(Maps(mem, root, at, b));
    }
  }

  lemma WroteOn(end: nat, mem: Memory, mem1: Memory, mem2: Memory, ref1: seq<nat>, ref2: seq<nat>, node: map<nat, Node>)
    requires Wrote(end, mem, mem1, ref1, node) && Wrote(end, mem1, mem2, ref2, node)
    requires forall pa {:trigger Count(end, ref2, pa)} :: IsPage(end, pa) && Count(end, ref1, pa) == 0 ==>
               Count(end, ref2, pa) == 0
    ensures Wrote(end, mem, mem2, ref2, node)
  {
    hide Count;
    forall p | p in mem && p !in node && !(IsPage(end, p) && Count(end, ref2, p) == 0)
      ensures p in mem2 && mem2[p] == mem[p]
    {
      assert p in mem1.Keys && mem1[p] == mem[p];
    }
  }

  /** The page that is unmapped has a reference beyond its other uses, and is no table. */
  lemma Unused(mem: Memory, mem1: Memory, root: nat, node: map<nat, Node>, end: nat, ref: seq<nat>, at: nat)
    requires Space(mem, root, node, end, ref) && at < TOP && Look(mem, root, at).v && SameBut(mem, mem1, root, at)
    requires Look(mem1, root, at) == NOPTE
    ensures var pa := Look(mem, root, at).pa;
            IsPage(end, pa) ==>
              pa !in node && pa != Low(mem, root, at) && Uses(mem1, root, 0, TOP, pa) < Count(end, ref, pa)
  {
    hide Look, Count, Uses, Low;
    var pa := Look(mem, root, at).pa;
    assert Enough(end, ref, Uses(mem, root, 0, TOP, pa), node, pa);
    UsesOne(mem, root, 0, TOP, at, pa);
    UsesSet(mem, mem1, root, 0, TOP, at, pa);
    LowIs(mem, root, node, at);
    Mapped(mem, root, at);
  }

  lemma Mapped(mem: Memory, root: nat, vp: nat)
    requires Look(mem, root, vp).v && 0 !in mem
    ensures Low(mem, root, vp) != 0
  {
  }

  lemma DropKeeps(mem: Memory, mem1: Memory, mem2: Memory, root: nat, at: nat)
    requires SameBut(mem, mem1, root, at) && Look(mem1, root, at) == NOPTE && SameMap(mem1, mem2, root) && at < TOP
    ensures SameBut(mem, mem2, root, at) && Look(mem2, root, at) == NOPTE
  {
    hide Look;
    forall vp: nat | vp < TOP && vp != at ensures Look(mem2, root, vp) == Look(mem, root, vp) {
      var e := Look(mem1, root, vp);
    }
  }

  lemma NothingYet(end: nat, mem: Memory, ref: seq<nat>, root: nat, lo: nat, node: map<nat, Node>)
    ensures UnmappedRun(mem, mem, root, lo, lo) && Released(end, ref, ref, mem, root, lo, lo)
    ensures Wrote(end, mem, mem, ref, node) && Kept(node, node)
  {
    hide Look, Count;
    assert forall pa: nat :: Uses(mem, root, lo, lo, pa) == 0;
  }

  lemma StillMapped(mem: Memory, mem': Memory, root: nat, lo: nat, at: nat)
    requires UnmappedRun(mem, mem', root, lo, at)
    ensures at < TOP ==> Look(mem', root, at) == Look(mem, root, at)
  {
    hide Look;
  }

  /** A page that is free stays free when another's count is changed. */
  lemma FreeStays(end: nat, ref: seq<nat>, ref1: seq<nat>, ref2: seq<nat>, pa: nat)
    requires ref2 == ref1
               || (SameCounts(end, ref1, ref2, pa) && IsPage(end, pa)
                 && Count(end, ref2, pa) == Count(end, ref1, pa) - 1)
    ensures forall b {:trigger Count(end, ref2, b)} :: IsPage(end, b) && Count(end, ref1, b) == 0 ==>
              Count(end, ref2, b) == 0
  {
    hide Count;
  }

  /** A page that is a table now and was not one. */
  predicate NewTable(node: map<nat, Node>, node': map<nat, Node>, pa: nat) {
    pa in node' && pa !in node
  }

  /** Every page has a reference more for each use of it between lo and hi, and for becoming a table. */
  ghost predicate Gained(end: nat, ref: seq<nat>, ref': seq<nat>, mem': Memory, root: nat, lo: nat, hi: nat,
                         node: map<nat, Node>, node': map<nat, Node>) {
    |ref'| == |ref| && forall pa {:trigger Count(end, ref', pa)} :: IsPage(end, pa) ==>
      Count(end, ref', pa) == Count(end, ref, pa) + Uses(mem', root, lo, hi, pa) + Bit(NewTable(node, node', pa))
  }

  lemma OnlyGained(end: nat, ref: seq<nat>, ref': seq<nat>, mem': Memory, root: nat, lo: nat, hi: nat,
                   node: map<nat, Node>, node': map<nat, Node>)
    requires Gained(end, ref, ref', mem', root, lo, hi, node, node')
    ensures forall pa {:trigger Count(end, ref', pa)} :: IsPage(end, pa) ==> Count(end, ref, pa) <= Count(end, ref', pa)
  {
    hide Count, Uses;
  }

  /** The tree keeps what it had. */
  ghost predicate Kept(node: map<nat, Node>, node': map<nat, Node>) {
    forall p {:trigger p in node} :: p in node ==> p in node' && node'[p] == node[p]
  }

  /** What has become of the counts when a page was taken and tables may have been made. */
  lemma GrowCounts(end: nat, ref0: seq<nat>, mem1: Memory, ref1: seq<nat>, node: map<nat, Node>, mem2: Memory,
                   ref2: seq<nat>, node': map<nat, Node>, pa: nat)
    requires IsPage(end, pa) && Count(end, ref0, pa) == 0 && Count(end, ref1, pa) == 1
    requires SameCounts(end, ref0, ref1, pa)
    requires Grew(end, mem1, ref1, node, mem2, ref2, node') && pa !in node
    ensures pa !in node' && |ref2| == |ref0| && Kept(node, node')
    ensures forall b {:trigger Count(end, ref2, b)} :: IsPage(end, b) ==>
              Count(end, ref2, b) == Count(end, ref0, b) + Bit(NewTable(node, node', b)) + Bit(b == pa)
  {
    hide Count;
    assert pa in node' ==> Count(end, ref1, pa) == 0;
    forall b | IsPage(end, b)
      ensures Count(end, ref2, b) == Count(end, ref0, b) + Bit(NewTable(node, node', b)) + Bit(b == pa)
    {
      assert b != pa ==> Count(end, ref1, b) == Count(end, ref0, b);
      assert NewTable(node, node', b) ==> b in node';
    }
  }

  lemma RunIsOne(mem: Memory, mem': Memory, root: nat, at: nat, perm: Pte, pa: nat)
    requires MappedRun(mem, mem', root, at, 1, perm, pa) && at < TOP && pa % PGSIZE == 0
    ensures SameBut(mem, mem', root, at) && Look(mem', root, at) == perm.(v := true, pa := pa)
  {
    hide Look;
    Aligned(pa, 0);
  }

  lemma RunIsNone(mem: Memory, mem': Memory, root: nat, at: nat, perm: Pte, pa: nat)
    requires MappedRun(mem, mem', root, at, 0, perm, pa)
    ensures SameMap(mem, mem', root)
  {
    hide Look;
  }

  lemma SameBoth(mem: Memory, mem1: Memory, mem2: Memory, root: nat, at: nat)
    requires SameMap(mem, mem1, root) && SameBut(mem1, mem2, root, at)
    ensures SameBut(mem, mem2, root, at)
  {
    hide Look;
    forall vp: nat | vp < TOP && vp != at ensures Look(mem2, root, vp) == Look(mem, root, vp) {
      var e := Look(mem1, root, vp);
    }
  }

  lemma SameAt(mem: Memory, mem': Memory, root: nat, a: nat)
    requires SameMap(mem, mem', root)
    ensures a < MAXVA ==> Look(mem', root, a / PGSIZE) == Look(mem, root, a / PGSIZE)
  {
    hide Look;
  }

  lemma SameThrough(mem: Memory, mem1: Memory, mem2: Memory, mem3: Memory, root: nat)
    requires SameMap(mem, mem1, root) && SameMap(mem1, mem2, root) && SameMap(mem2, mem3, root)
    ensures SameMap(mem, mem3, root)
  {
    hide Look;
    forall vp: nat | vp < TOP ensures Look(mem3, root, vp) == Look(mem, root, vp) {
      var e, f := Look(mem1, root, vp), Look(mem2, root, vp);
    }
  }

  /** Nothing is mapped from lo up to hi. */
  ghost predicate Vacant(mem: Memory, root: nat, lo: nat, hi: nat) {
    forall vp: nat {:trigger Look(mem, root, vp)} :: lo <= vp < hi ==> !Look(mem, root, vp).v
  }

  /** The pages from lo up to hi lie below MAXVA, and none of them is mapped. */
  ghost predicate Room(mem: Memory, root: nat, lo: nat, hi: nat) {
    (lo < hi ==> hi * PGSIZE <= MAXVA) && Vacant(mem, root, lo, hi)
  }

  /**
   The pages from lo up to at are mapped, each to a page that was free, for user code with the
   permissions given; the rest of the map is as it was.
   */
  ghost predicate GrownRun(mem: Memory, mem': Memory, root: nat, end: nat, ref: seq<nat>, lo: nat, at: nat,
                           xperm: Pte) {
    forall vp: nat {:trigger Look(mem', root, vp)} :: vp < TOP ==>
      if lo <= vp < at then
        && IsPage(end, Look(mem', root, vp).pa) && Count(end, ref, Look(mem', root, vp).pa) == 0
        && Look(mem', root, vp) == xperm.(v := true, r := true, u := true, pa := Look(mem', root, vp).pa)
      else Look(mem', root, vp) == Look(mem, root, vp)
  }

  /** A page of memory that is all zeroes, has one reference, and is none of the tables. */
  predicate Blank(end: nat, ref: seq<nat>, mem: Memory, node: map<nat, Node>, pa: nat) {
    && IsPage(end, pa) && Count(end, ref, pa) == 1 && pa in mem && pa !in node
    && forall k :: 0 <= k < ENTRIES ==> mem[pa][k] == NOPTE
  }

  /** The pages from lo up to at have each a page of their own, zeroed, with that one reference. */
  ghost predicate OwnPages(end: nat, ref: seq<nat>, mem: Memory, root: nat, lo: nat, at: nat, node: map<nat, Node>) {
    && (forall vp: nat {:trigger Look(mem, root, vp)} :: lo <= vp < at ==>
         Blank(end, ref, mem, node, Look(mem, root, vp).pa))
    && forall vp: nat, wp: nat {:trigger Look(mem, root, vp), Look(mem, root, wp)} :: lo <= vp < wp < at ==>
         Look(mem, root, vp).pa != Look(mem, root, wp).pa
  }

  lemma OwnNone(end: nat, ref: seq<nat>, mem: Memory, root: nat, lo: nat, node: map<nat, Node>)
    ensures OwnPages(end, ref, mem, root, lo, lo, node)
  {
  }

  /** A page whose count was 0 is nobody else's. */
  lemma OwnOn(end: nat, ref1: seq<nat>, ref2: seq<nat>, mem1: Memory, mem2: Memory, root: nat, lo: nat, at: nat,
              node1: map<nat, Node>, node2: map<nat, Node>)
    requires OwnPages(end, ref1, mem1, root, lo, at, node1) && SameBut(mem1, mem2, root, at) && lo <= at < TOP
    requires Blank(end, ref2, mem2, node2, Look(mem2, root, at).pa) && Count(end, ref1, Look(mem2, root, at).pa) == 0
    requires Wrote(end, mem1, mem2, ref1, node2)
    requires forall b {:trigger Count(end, ref2, b)} :: IsPage(end, b) ==>
               Count(end, ref2, b)
                 == Count(end, ref1, b) + Bit(NewTable(node1, node2, b)) + Bit(b == Look(mem2, root, at).pa)
    requires TablesOnce(end, ref2, node2)
    ensures OwnPages(end, ref2, mem2, root, lo, at + 1, node2)
  {
    hide Look, Count;
    forall vp: nat | lo <= vp < at + 1
      ensures Blank(end, ref2, mem2, node2, Look(mem2, root, vp).pa)
      ensures vp < at ==> Look(mem2, root, vp) == Look(mem1, root, vp)
    {
      var b := Look(mem2, root, vp).pa;
      assert vp < at ==> Look(mem2, root, vp) == Look(mem1, root, vp);
      assert NewTable(node1, node2, b) ==> b in node2;
    }
    forall vp: nat, wp: nat | lo <= vp < wp < at + 1 ensures Look(mem2, root, vp).pa != Look(mem2, root, wp).pa {
      var e, f := Look(mem1, root, vp), Look(mem1, root, wp);
      assert Look(mem2, root, vp) == e;
    }
  }

  /** What is written in two stages, the tables and the counts meanwhile only growing. */
  lemma WroteFrom(end: nat, mem: Memory, mem1: Memory, mem2: Memory, ref: seq<nat>, ref1: seq<nat>,
                  node1: map<nat, Node>, node2: map<nat, Node>)
    requires Wrote(end, mem, mem1, ref, node1) && Wrote(end, mem1, mem2, ref1, node2) && Kept(node1, node2)
    requires forall pa {:trigger Count(end, ref1, pa)} :: IsPage(end, pa) ==>
               Count(end, ref, pa) <= Count(end, ref1, pa)
    ensures Wrote(end, mem, mem2, ref, node2)
  {
    hide Count;
    forall p | p in mem && p !in node2 && !(IsPage(end, p) && Count(end, ref, p) == 0)
      ensures p in mem2 && mem2[p] == mem[p]
    {
      assert p in mem1.Keys && mem1[p] == mem[p];
    }
  }

  lemma GrewWrote(end: nat, mem: Memory, ref: seq<nat>, mem1: Memory, ref1: seq<nat>, node: map<nat, Node>,
                  mem2: Memory, ref2: seq<nat>, node': map<nat, Node>, pa: nat)
    requires IsPage(end, pa) && Count(end, ref, pa) == 0 && mem1.Keys == mem.Keys
    requires forall p {:trigger mem1[p]} :: p in mem && p != pa ==> mem1[p] == mem[p]
    requires Grew(end, mem1, ref1, node, mem2, ref2, node')
    ensures Wrote(end, mem, mem2, ref, node')
  {
    hide Count;
    forall p | p in mem && p !in node' && !(IsPage(end, p) && Count(end, ref, p) == 0)
      ensures p in mem2 && mem2[p] == mem[p]
    {
      assert p in mem1.Keys && mem1[p] == mem[p];
    }
  }

  lemma WroteFree(end: nat, mem: Memory, mem1: Memory, mem2: Memory, ref: seq<nat>, node: map<nat, Node>, pa: nat)
    requires Wrote(end, mem, mem1, ref, node) && IsPage(end, pa) && Count(end, ref, pa) == 0 && mem2.Keys == mem1.Keys
    requires forall p {:trigger mem2[p]} :: p in mem1 && p != pa ==> mem2[p] == mem1[p]
    ensures Wrote(end, mem, mem2, ref, node)
  {
    hide Count;
  }

  // How little is free when memory has run out.

  /** No page but this one is free. */
  ghost predicate OnlyFree(end: nat, ref: seq<nat>, spare: nat) {
    forall pa {:trigger Count(end, ref, pa)} :: IsPage(end, pa) && Count(end, ref, pa) == 0 ==> pa == spare
  }

  lemma FreeIsListed(end: nat, freelist: nat, next: map<nat, nat>, list: seq<nat>, place: map<nat, nat>, ref: seq<nat>,
                     pa: nat)
    requires Listed(end, freelist, next, list, place) && Counted(end, ref, place)
    requires IsPage(end, pa) && Count(end, ref, pa) == 0
    ensures pa in list
  {
    assert list[place[pa]] == pa;
  }

  lemma AllTaken(end: nat, freelist: nat, next: map<nat, nat>, list: seq<nat>, place: map<nat, nat>, ref: seq<nat>,
                 spare: nat)
    requires Listed(end, freelist, next, list, place) && Counted(end, ref, place) && list == []
    ensures forall pa {:trigger Count(end, ref, pa)} :: IsPage(end, pa) ==> Count(end, ref, pa) != 0
    ensures OnlyFree(end, ref, spare)
  {
    hide Count;
    forall pa | IsPage(end, pa) ensures Count(end, ref, pa) != 0 {
      if Count(end, ref, pa) == 0 {
        FreeIsListed(end, freelist, next, list, place, ref, pa);
      }
    }
  }

  lemma OneFree(end: nat, ref: seq<nat>, ref': seq<nat>, spare: nat)
    requires OnlyFree(end, ref, spare) && SameCounts(end, ref, ref', spare)
    ensures OnlyFree(end, ref', spare)
  {
    hide Count;
    forall pa | IsPage(end, pa) && Count(end, ref', pa) == 0 ensures pa == spare {
      var c := Count(end, ref, pa);
    }
  }

  /** The pages that the pages from lo up to at are mapped to. */
  function Frames(mem: Memory, root: nat, lo: nat, at: nat): (r: set<nat>)
    ensures |r| <= if at <= lo then 0 else at - lo
    decreases at
  {
    if at <= lo then {} else Frames(mem, root, lo, at - 1) + {Look(mem, root, at - 1).pa}
  }

  lemma {:induction false} FramesUsed(mem: Memory, root: nat, lo: nat, at: nat, pa: nat)
    requires Uses(mem, root, lo, at, pa) > 0
    ensures pa in Frames(mem, root, lo, at)
    decreases at
  {
    hide Look;
    if !Maps(mem, root, at - 1, pa) {
      FramesUsed(mem, root, lo, at - 1, pa);
    }
  }

  lemma {:induction false} ListWithin(list: seq<nat>, place: map<nat, nat>, k: nat, all: set<nat>)
    requires k <= |list|
    requires forall i {:trigger list[i]} :: 0 <= i < k ==> list[i] in all && list[i] in place && place[list[i]] == i
    ensures k <= |all|
  {
    if k > 0 {
      ListWithin(list, place, k - 1, all - {list[k - 1]});
    }
  }

  /** The free list is no longer than what may be free. */
  lemma FreeWithin(end: nat, freelist: nat, next: map<nat, nat>, list: seq<nat>, place: map<nat, nat>, ref: seq<nat>,
                   all: set<nat>)
    requires Listed(end, freelist, next, list, place) && Counted(end, ref, place)
    requires forall pa {:trigger Count(end, ref, pa)} :: IsPage(end, pa) && Count(end, ref, pa) == 0 ==> pa in all
    ensures |list| <= |all|
  {
    hide Count;
    forall i | 0 <= i < |list| ensures list[i] in all {
      var c := Count(end, ref, list[i]);
    }
    ListWithin(list, place, |list|, all);
  }

  /** What is free once the failing growth is undone: what it had mapped, and the page it had in hand. */
  lemma FreedAgain(end: nat, ref1: seq<nat>, ref2: seq<nat>, mem1: Memory, root: nat, lo: nat, at: nat, spare: nat)
    requires OnlyFree(end, ref1, spare) && Released(end, ref1, ref2, mem1, root, lo, at) && lo <= at
    ensures |Frames(mem1, root, lo, at) + {spare}| <= at - lo + 1
    ensures forall pa {:trigger Count(end, ref2, pa)} :: IsPage(end, pa) && Count(end, ref2, pa) == 0 ==>
              pa in Frames(mem1, root, lo, at) + {spare}
  {
    hide Count, Uses, Frames;
    forall pa | IsPage(end, pa) && Count(end, ref2, pa) == 0 ensures pa in Frames(mem1, root, lo, at) + {spare} {
      var c := Count(end, ref1, pa);
      if Uses(mem1, root, lo, at, pa) > 0 {
        FramesUsed(mem1, root, lo, at, pa);
      }
    }
  }

  lemma GrownOn(mem: Memory, mem1: Memory, mem2: Memory, root: nat, end: nat, ref: seq<nat>, lo: nat, at: nat,
                xperm: Pte)
    requires GrownRun(mem, mem1, root, end, ref, lo, at, xperm) && SameBut(mem1, mem2, root, at) && lo <= at
    requires var e := Look(mem2, root, at);
             IsPage(end, e.pa) && Count(end, ref, e.pa) == 0 && e == xperm.(v := true, r := true, u := true, pa := e.pa)
    ensures GrownRun(mem, mem2, root, end, ref, lo, at + 1, xperm)
  {
    hide Look, Count;
    forall vp: nat | vp < TOP && vp != at ensures Look(mem2, root, vp) == Look(mem1, root, vp) {
    }
  }

  /** The counts when one more page has been mapped. */
  lemma GainedOn(end: nat, ref: seq<nat>, ref1: seq<nat>, ref2: seq<nat>, mem1: Memory, mem2: Memory, root: nat,
                 lo: nat, at: nat,
                 node: map<nat, Node>, node1: map<nat, Node>, node2: map<nat, Node>)
    requires Gained(end, ref, ref1, mem1, root, lo, at, node, node1) && SameBut(mem1, mem2, root, at)
    requires lo <= at < TOP && |ref2| == |ref1|
    requires Look(mem2, root, at).v && Kept(node, node1) && Kept(node1, node2)
    requires forall b {:trigger Count(end, ref2, b)} :: IsPage(end, b) ==>
               Count(end, ref2, b)
                 == Count(end, ref1, b) + Bit(NewTable(node1, node2, b)) + Bit(b == Look(mem2, root, at).pa)
    ensures Gained(end, ref, ref2, mem2, root, lo, at + 1, node, node2) && Kept(node, node2)
  {
    hide Look, Count;
    forall b | IsPage(end, b)
      ensures Count(end, ref2, b)
                == Count(end, ref, b) + Uses(mem2, root, lo, at + 1, b) + Bit(NewTable(node, node2, b))
    {
      forall vp | lo <= vp < at ensures Maps(mem2, root, vp, b) == Maps(mem1, root, vp, b) {
        var e := Look(mem2, root, vp);
      }
      UsesFrame(mem1, root, mem2, root, lo, at, b);
      assert Count(end, ref1, b) == Count(end, ref, b) + Uses(mem1, root, lo, at, b) + Bit(NewTable(node, node1, b));
      assert b in node ==> b in node1;
      assert b in node1 ==> b in node2;
    }
  }

  /** The counts when it could not be. */
  lemma GainedStill(end: nat, ref: seq<nat>, ref1: seq<nat>, ref2: seq<nat>, mem1: Memory, mem2: Memory, root: nat,
                    lo: nat, at: nat,
                    node: map<nat, Node>, node1: map<nat, Node>, node2: map<nat, Node>)
    requires Gained(end, ref, ref1, mem1, root, lo, at, node, node1) && SameMap(mem1, mem2, root)
    requires |ref2| == |ref1| && lo <= at && (lo < at ==> at <= TOP)
    requires Kept(node, node1) && Kept(node1, node2)
    requires forall b {:trigger Count(end, ref2, b)} :: IsPage(end, b) ==>
               Count(end, ref2, b) == Count(end, ref1, b) + Bit(NewTable(node1, node2, b))
    ensures Gained(end, ref, ref2, mem2, root, lo, at, node, node2) && Kept(node, node2)
  {
    hide Look, Count;
    forall b | IsPage(end, b)
      ensures Count(end, ref2, b) == Count(end, ref, b) + Uses(mem2, root, lo, at, b) + Bit(NewTable(node, node2, b))
    {
      if lo < at {
        UsesSame(mem1, mem2, root, lo, at, b);
      }
      assert Count(end, ref1, b) == Count(end, ref, b) + Uses(mem1, root, lo, at, b) + Bit(NewTable(node, node1, b));
      assert b in node ==> b in node1;
      assert b in node1 ==> b in node2;
    }
  }

  lemma GrownStill(mem: Memory, mem1: Memory, mem2: Memory, root: nat, end: nat, ref: seq<nat>, lo: nat, at: nat,
                   xperm: Pte)
    requires GrownRun(mem, mem1, root, end, ref, lo, at, xperm) && SameMap(mem1, mem2, root)
    ensures GrownRun(mem, mem2, root, end, ref, lo, at, xperm)
  {
    hide Look, Count;
    forall vp: nat | vp < TOP ensures Look(mem2, root, vp) == Look(mem1, root, vp) {
    }
  }

  lemma GrownNone(mem: Memory, root: nat, end: nat, ref: seq<nat>, lo: nat, xperm: Pte, node: map<nat, Node>)
    ensures GrownRun(mem, mem, root, end, ref, lo, lo, xperm) && Gained(end, ref, ref, mem, root, lo, lo, node, node)
    ensures Kept(node, node)
  {
    hide Look, Count;
    forall pa | IsPage(end, pa)
      ensures Count(end, ref, pa) == Count(end, ref, pa) + Uses(mem, root, lo, lo, pa) + Bit(NewTable(node, node, pa))
    {
      assert Uses(mem, root, lo, lo, pa) == 0 && !NewTable(node, node, pa);
    }
  }

  /** When all that was gained by mapping is released again, only the new tables remain. */
  lemma RolledBack(mem: Memory, mem1: Memory, mem2: Memory, root: nat, end: nat, ref: seq<nat>, ref1: seq<nat>,
                   ref2: seq<nat>,
                   lo: nat, at: nat, xperm: Pte, node: map<nat, Node>, node': map<nat, Node>, tree: map<nat, Node>)
    requires GrownRun(mem, mem1, root, end, ref, lo, at, xperm) && UnmappedRun(mem1, mem2, root, lo, at)
    requires Vacant(mem, root, lo, at)
    requires Tree(mem, root, tree)
    requires Gained(end, ref, ref1, mem1, root, lo, at, node, node') && Released(end, ref1, ref2, mem1, root, lo, at)
    ensures SameMap(mem, mem2, root)
    ensures forall pa {:trigger Count(end, ref2, pa)} :: IsPage(end, pa) ==>
              Count(end, ref2, pa) == Count(end, ref, pa) + Bit(NewTable(node, node', pa))
  {
    hide Look, Count, Uses;
    forall vp: nat | vp < TOP ensures Look(mem2, root, vp) == Look(mem, root, vp) {
      var e, f := Look(mem1, root, vp), Look(mem, root, vp);
      InvalidIsZero(mem, root, tree, vp);
    }
    forall pa | IsPage(end, pa) ensures Count(end, ref2, pa) == Count(end, ref, pa) + Bit(NewTable(node, node', pa)) {
      var c := Count(end, ref1, pa);
    }
  }

  lemma NotYet(mem: Memory, mem': Memory, root: nat, end: nat, ref: seq<nat>, lo: nat, at: nat, xperm: Pte)
    requires GrownRun(mem, mem', root, end, ref, lo, at, xperm) && Room(mem, root, lo, at) && at * PGSIZE < MAXVA
    ensures Look(mem', root, at) == Look(mem, root, at)
    ensures !Look(mem, root, at).v ==> Room(mem, root, lo, at + 1)
  {
    hide Look, Count;
  }

  lemma NoRoom(mem: Memory, root: nat, lo: nat, at: nat, hi: nat)
    requires lo <= at < hi && (at * PGSIZE >= MAXVA || Look(mem, root, at).v)
    ensures !Room(mem, root, lo, hi)
  {
    hide Look;
  }

  /** A page that is free after growing was free before. */
  lemma StillFree(end: nat, ref: seq<nat>, ref': seq<nat>, mem: Memory, root: nat, lo: nat, at: nat,
                  node: map<nat, Node>, node': map<nat, Node>, pa: nat)
    requires Gained(end, ref, ref', mem, root, lo, at, node, node') && IsPage(end, pa) && Count(end, ref', pa) == 0
    ensures Count(end, ref, pa) == 0
  {
    hide Count, Uses;
  }

  lemma AllUnmap(mem: Memory, mem': Memory, root: nat, end: nat, ref: seq<nat>, lo: nat, at: nat, xperm: Pte)
    requires GrownRun(mem, mem', root, end, ref, lo, at, xperm) && (lo < at ==> at * PGSIZE <= MAXVA)
    ensures forall vp: nat {:trigger CanUnmap(mem', root, end, vp, true)} :: lo <= vp < at ==>
              CanUnmap(mem', root, end, vp, true)
  {
    hide Look, Count;
    forall vp: nat | lo <= vp < at ensures CanUnmap(mem', root, end, vp, true) {
      var e := Look(mem', root, vp);
    }
  }

  // Taking a tree down.

  /** m is n or hangs below it. */
  predicate Under(m: Node, n: Node) {
    n.Root? || m == n || (n.Mid? && m.Last? && m.i == n.i)
  }

  /** The entry of table n that leads down to m. */
  function Branch(n: Node, m: Node): nat {
    if n.Root? && !m.Root? then m.i else if m.Last? then m.j else 0
  }

  /** A table that hangs below n, from an entry before i. */
  predicate Before(node: map<nat, Node>, n: Node, i: nat, q: nat) {
    q in node && Under(node[q], n) && node[q] != n && Branch(n, node[q]) < i
  }

  function Prune(node: map<nat, Node>, n: Node, i: nat): map<nat, Node> {
    map q | q in node && !Before(node, n, i, q) :: node[q]
  }

  function Height(n: Node): nat {
    if n.Root? then 2 else if n.Mid? then 1 else 0
  }

  /** The pages that `gone` names have been freed, and nothing else has been written or counted down. */
  ghost predicate Gone(end: nat, mem: Memory, ref: seq<nat>, mem': Memory, ref': seq<nat>, gone: set<nat>) {
    && |ref'| == |ref| && mem'.Keys == mem.Keys
    && (forall pa {:trigger Count(end, ref', pa)} :: IsPage(end, pa) ==>
         Count(end, ref', pa) == if pa in gone then 0 else Count(end, ref, pa))
    && (forall p {:trigger mem'[p]} :: p in mem && p !in gone ==> p in mem' && mem'[p] == mem[p])
  }

  function Part(node: map<nat, Node>, n: Node, i: nat): set<nat> {
    set q | q in node && Before(node, n, i, q)
  }

  function Whole(node: map<nat, Node>, n: Node): set<nat> {
    set q | q in node && Under(node[q], n)
  }

  /** Entry k of table q is reached from entry i or later of table n, or is one of these. */
  predicate Beyond(node: map<nat, Node>, n: Node, i: nat, q: nat, k: nat) {
    q in node && (if node[q] == n then k else Branch(n, node[q])) >= i
  }

  /** No page is mapped from the tables at or below n, as far as entry i. */
  ghost predicate NoLeaves(mem: Memory, node: map<nat, Node>, n: Node, i: nat) {
    forall q: nat, k: nat {:trigger EntryOk(mem, node, q, k)} ::
      q in node && node[q].Last? && Under(node[q], n) && q in mem && k < ENTRIES && !Beyond(node, n, i, q, k) ==>
        !mem[q][k].v
  }

  /** There are no leaves in the tree exactly when the flat map is empty. */
  lemma NoLeavesIs(mem: Memory, root: nat, node: map<nat, Node>)
    requires Tree(mem, root, node)
    ensures NoLeaves(mem, node, node[root], ENTRIES) <==> forall vp: nat {:trigger Look(mem, root, vp)} :: vp < TOP ==>
              !Look(mem, root, vp).v
  {
    hide Px;
    if NoLeaves(mem, node, node[root], ENTRIES) {
      forall vp: nat | vp < TOP ensures !Look(mem, root, vp).v {
        LowIs(mem, root, node, vp);
        var e := EntryOk(mem, node, Low(mem, root, vp), Px(0, vp));
      }
    } else {
      var q: nat, k: nat :| q in node && node[q].Last? && q in mem && k < ENTRIES && mem[q][k].v;
      assert HangsOk(mem, node, root, q);
      PxOf(node[q].i, node[q].j, k);
      var e := Look(mem, root, node[q].i * 0x4_0000 + node[q].j * ENTRIES + k);
    }
  }

  /** Once the first n pages are unmapped, the map is empty if nothing was mapped above them. */
  lemma OnlyAbove(mem: Memory, mem': Memory, root: nat, n: nat)
    requires UnmappedRun(mem, mem', root, 0, n)
    ensures (forall vp: nat {:trigger Look(mem', root, vp)} :: vp < TOP ==> !Look(mem', root, vp).v)
       <==> (forall vp: nat {:trigger Look(mem, root, vp)} :: n <= vp < TOP ==> !Look(mem, root, vp).v)
  {
    hide Look;
    forall vp: nat | vp < TOP ensures Look(mem', root, vp) == if vp < n then NOPTE else Look(mem, root, vp) {
    }
    if forall vp: nat {:trigger Look(mem', root, vp)} :: vp < TOP ==> !Look(mem', root, vp).v {
      forall vp: nat | n <= vp < TOP ensures !Look(mem, root, vp).v {
        var e := Look(mem', root, vp);
      }
    }
  }

  lemma NoneUnmapped(mem: Memory, root: nat, lo: nat)
    ensures UnmappedRun(mem, mem, root, lo, lo)
  {
    hide Look;
  }

  /** Nothing hangs from an entry that is not valid. */
  lemma NothingHangs(mem: Memory, root: nat, node: map<nat, Node>, p: nat, i: nat, q: nat)
    requires Tree(mem, root, node) && p in node && p in mem && i < ENTRIES && !mem[p][i].v && q in node
    requires Under(node[q], node[p]) && node[q] != node[p]
    ensures Branch(node[p], node[q]) != i
  {
    assert HangsOk(mem, node, root, q) && HangsOk(mem, node, root, p) && HangsOk(mem, node, root, root);
  }

  /** No two tables hang in one place. */
  lemma HangsAlone(mem: Memory, root: nat, node: map<nat, Node>, p: nat, q: nat)
    requires Tree(mem, root, node) && p in node && q in node && node[p] == node[q]
    ensures p == q
  {
    assert HangsOk(mem, node, root, p) && HangsOk(mem, node, root, q);
  }

  /** The branch at entry i of p has been freed and the entry cleared: the rest is a tree. */
  lemma TreePrune(mem: Memory, mem': Memory, root: nat, node: map<nat, Node>, p: nat, i: nat)
    requires Tree(mem, root, node) && p in node && p in mem && !node[p].Last? && i < ENTRIES && 0 !in mem'
    requires forall q {:trigger q in node} :: q in node && q != p && !(Before(node, node[p], i + 1, q)) ==>
               q in mem' && q in mem && mem'[q] == mem[q]
    requires p in mem' && mem'[p] == mem[p][i := NOPTE]
    requires forall q {:trigger q in node} :: q in node ==> !Before(node, node[p], i, q)
    ensures Tree(mem', root, Prune(node, node[p], i + 1))
  {
    var node' := Prune(node, node[p], i + 1);
    assert HangsOk(mem, node, root, p) && HangsOk(mem, node, root, root);
    forall q: nat, k: nat ensures EntryOk(mem', node', q, k) {
      assert EntryOk(mem, node, q, k);
      if q in node && node[q] == node[p] {
        HangsAlone(mem, root, node, p, q);
      }
      if q in node && q in mem && k < ENTRIES && mem[q][k].v && !node[q].Last? {
        assert mem[q][k].pa in node ==> !Before(node, node[p], i, mem[q][k].pa);
      }
    }
    forall q ensures HangsOk(mem', node', root, q) {
      assert HangsOk(mem, node, root, q);
    }
  }

  /** Entry i has nothing below it. */
  lemma SkipEntry(mem: Memory, root: nat, node: map<nat, Node>, mem': Memory, p: nat, i: nat)
    requires Tree(mem, root, node) && p in node && p in mem && i < ENTRIES && !mem[p][i].v
    requires NoLeaves(mem, node, node[p], i)
    ensures NoLeaves(mem, node, node[p], i + 1) && Prune(node, node[p], i + 1) == Prune(node, node[p], i)
    ensures Part(node, node[p], i + 1) == Part(node, node[p], i)
  {
    forall q | q in node && Under(node[q], node[p]) && node[q] != node[p] ensures Branch(node[p], node[q]) != i {
      NothingHangs(mem, root, node, p, i, q);
    }
    forall q: nat, k: nat | q in node && node[q].Last? && Under(node[q], node[p]) && q in mem && k < ENTRIES
      && !Beyond(node, node[p], i + 1, q, k)
      ensures !mem[q][k].v
    {
      assert EntryOk(mem, node, q, k);
      if node[q] == node[p] {
        HangsAlone(mem, root, node, p, q);
      }
    }
  }

  /** The tables that hang from entry i of n are those at or below where it leads. */
  lemma BranchIs(node: map<nat, Node>, n: Node, i: nat, q: nat)
    requires !n.Last?
    ensures q in Whole(Prune(node, n, i), Below(n, i)) <==>
              q in node && Under(node[q], n) && node[q] != n && Branch(n, node[q]) == i
    ensures q in Whole(Prune(node, n, i), Below(n, i)) <==> q in Part(node, n, i + 1) && q !in Part(node, n, i)
  {
  }

  /** freewalk has dealt with the entries of p before i. */
  ghost predicate Taking(end: nat, mem0: Memory, ref0: seq<nat>, mem: Memory, ref: seq<nat>, root: nat,
                         node: map<nat, Node>, p: nat, i: nat) {
    && p in node && p in mem0 && p in mem
    && Tree(mem, root, Prune(node, node[p], i)) && TablesOnce(end, ref, Prune(node, node[p], i))
    && |ref| == |ref0| && mem.Keys == mem0.Keys
    && (forall pa {:trigger Count(end, ref, pa)} :: IsPage(end, pa) ==>
          Count(end, ref, pa) == if pa in Part(node, node[p], i) then 0 else Count(end, ref0, pa))
    && (forall q {:trigger mem[q]} :: q in mem0 && q != p && q !in Part(node, node[p], i) ==>
         q in mem && mem[q] == mem0[q])
    && (forall k {:trigger mem[p][k]} :: 0 <= k < ENTRIES ==> if k < i then !mem[p][k].v else mem[p][k] == mem0[p][k])
  }

  lemma TakingStart(end: nat, mem: Memory, ref: seq<nat>, root: nat, node: map<nat, Node>, p: nat)
    requires Tree(mem, root, node) && p in node && TablesOnce(end, ref, node)
    ensures Taking(end, mem, ref, mem, ref, root, node, p, 0) && NoLeaves(mem, node, node[p], 0)
  {
    hide Count;
    assert HangsOk(mem, node, root, p);
    assert Prune(node, node[p], 0) == node && Part(node, node[p], 0) == {};
    forall q: nat, k: nat | q in node ensures Beyond(node, node[p], 0, q, k) {
    }
  }

  lemma TakingSkip(end: nat, mem0: Memory, ref0: seq<nat>, mem: Memory, ref: seq<nat>, root: nat,
                   node: map<nat, Node>, p: nat, i: nat)
    requires Taking(end, mem0, ref0, mem, ref, root, node, p, i) && Tree(mem0, root, node) && i < ENTRIES
    requires !mem[p][i].v
    requires NoLeaves(mem0, node, node[p], i)
    ensures Taking(end, mem0, ref0, mem, ref, root, node, p, i + 1) && NoLeaves(mem0, node, node[p], i + 1)
  {
    hide Count, Tree, NoLeaves, Prune, Part;
    assert mem[p][i] == mem0[p][i];
    SkipEntry(mem0, root, node, mem, p, i);
  }

  /** The branch at entry i is gone and the entry is cleared. */
  lemma TakingBranch(end: nat, mem0: Memory, ref0: seq<nat>, mem1: Memory, ref1: seq<nat>, mem2: Memory, ref2: seq<nat>,
                     root: nat, node: map<nat, Node>, p: nat, i: nat)
    requires Taking(end, mem0, ref0, mem1, ref1, root, node, p, i) && i < ENTRIES && !node[p].Last? && 0 !in mem2
    requires Gone(end, mem1, ref1, mem2, ref2, Whole(Prune(node, node[p], i), Below(node[p], i)))
    ensures p in mem2 && Taking(end, mem0, ref0, SetEntry(mem2, p, i, NOPTE), ref2, root, node, p, i + 1)
  {
    hide Count, Tree, Whole, Part, Below;
    var n := node[p];
    var node1, mem3 := Prune(node, n, i), SetEntry(mem2, p, i, NOPTE);
    forall q: nat ensures q in Whole(node1, Below(n, i)) <==> q in Part(node, n, i + 1) && q !in Part(node, n, i) {
      BranchIs(node, n, i, q);
    }
    PartIs(node, n, i, p);
    assert p in node1 && node1[p] == n;
    BranchIs(node, n, i, p);
    assert mem2[p] == mem1[p];
    forall q {:trigger q in node1} | q in node1 && q != p && !Before(node1, n, i + 1, q)
      ensures q in mem3 && q in mem1 && mem3[q] == mem1[q]
    {
      TableThere(mem1, root, node1, q);
      PartIs(node, n, i + 1, q);
    }
    TreePrune(mem1, mem3, root, node1, p, i);
    assert Prune(node1, n, i + 1) == Prune(node, n, i + 1);
    forall q {:trigger q in Prune(node, n, i + 1)} | q in Prune(node, n, i + 1)
      ensures IsPage(end, q) && Count(end, ref2, q) == 1
    {
      assert q in node1;
      PartIs(node, n, i + 1, q);
    }
    forall pa | IsPage(end, pa)
      ensures Count(end, ref2, pa) == if pa in Part(node, n, i + 1) then 0 else Count(end, ref0, pa)
    {
      var c := Count(end, ref1, pa);
      PartIs(node, n, i, pa);
      PartIs(node, n, i + 1, pa);
    }
    forall q | q in mem0 && q != p && q !in Part(node, n, i + 1) ensures q in mem3 && mem3[q] == mem0[q] {
      PartIs(node, n, i, q);
      PartIs(node, n, i + 1, q);
      assert q in mem1.Keys && mem1[q] == mem0[q] && mem2[q] == mem1[q];
    }
  }

  lemma BranchBound(mem: Memory, root: nat, node: map<nat, Node>, n: Node, q: nat)
    requires Tree(mem, root, node) && q in node
    ensures Branch(n, node[q]) < ENTRIES
  {
    assert HangsOk(mem, node, root, q);
  }

  /** The branch at entry i has no leaves either. */
  lemma LeavesOn(end: nat, mem0: Memory, ref0: seq<nat>, mem1: Memory, ref1: seq<nat>, root: nat,
                 node: map<nat, Node>, p: nat, i: nat)
    requires Taking(end, mem0, ref0, mem1, ref1, root, node, p, i) && Tree(mem0, root, node) && i < ENTRIES
    requires !node[p].Last?
    requires NoLeaves(mem0, node, node[p], i) && NoLeaves(mem1, Prune(node, node[p], i), Below(node[p], i), ENTRIES)
    ensures NoLeaves(mem0, node, node[p], i + 1)
  {
    hide Count, Tree, Part;
    var n := node[p];
    var node1 := Prune(node, n, i);
    forall q: nat, k: nat |
      q in node && node[q].Last? && Under(node[q], n) && q in mem0 && k < ENTRIES && !Beyond(node, n, i + 1, q, k)
      ensures !mem0[q][k].v
    {
      var was := EntryOk(mem0, node, q, k);
      if Beyond(node, n, i, q, k) {
        BranchIs(node, n, i, q);
        PartIs(node, n, i, q);
        BranchBound(mem0, root, node, Below(n, i), q);
        var entry := EntryOk(mem1, node1, q, k);
        assert mem1[q] == mem0[q];
      }
    }
  }

  /** A leaf in the branch at entry i is a leaf below p. */
  lemma LeafFound(end: nat, mem0: Memory, ref0: seq<nat>, mem1: Memory, ref1: seq<nat>, root: nat,
                  node: map<nat, Node>, p: nat, i: nat)
    requires Taking(end, mem0, ref0, mem1, ref1, root, node, p, i) && Tree(mem0, root, node) && i < ENTRIES
    requires !node[p].Last?
    requires !NoLeaves(mem1, Prune(node, node[p], i), Below(node[p], i), ENTRIES)
    ensures !NoLeaves(mem0, node, node[p], ENTRIES)
  {
    hide Count, Tree, Part;
    var n := node[p];
    var node1 := Prune(node, n, i);
    var q: nat, k: nat :| q in node1 && node1[q].Last? && Under(node1[q], Below(n, i)) && q in mem1 && k < ENTRIES &&
                          !Beyond(node1, Below(n, i), ENTRIES, q, k) && mem1[q][k].v;
    BranchIs(node, n, i, q);
    PartIs(node, n, i, q);
    BranchBound(mem0, root, node, n, q);
    TableThere(mem0, root, node, q);
    assert mem1[q] == mem0[q];
    var entry := EntryOk(mem0, node, q, k);
  }

  /** A leaf in p itself. */
  lemma LeafHere(mem0: Memory, root: nat, node: map<nat, Node>, p: nat, i: nat)
    requires Tree(mem0, root, node) && p in node && p in mem0 && i < ENTRIES && mem0[p][i].v && IsLeaf(mem0[p][i])
    ensures !NoLeaves(mem0, node, node[p], ENTRIES)
  {
    assert EntryOk(mem0, node, p, i);
  }

  /** With p itself freed, all of it is gone. */
  lemma AllGone(end: nat, mem0: Memory, ref0: seq<nat>, mem1: Memory, ref1: seq<nat>, mem2: Memory, ref2: seq<nat>,
                root: nat, node: map<nat, Node>, p: nat)
    requires Taking(end, mem0, ref0, mem1, ref1, root, node, p, ENTRIES) && Tree(mem0, root, node) && IsPage(end, p)
    requires SameCounts(end, ref1, ref2, p) && Count(end, ref2, p) == 0 && p in mem2 && mem2 == mem1[p := mem2[p]]
    ensures Gone(end, mem0, ref0, mem2, ref2, Whole(node, node[p]))
  {
    hide Count, Tree, Part;
    var n := node[p];
    forall q: nat ensures q in Whole(node, n) <==> q == p || q in Part(node, n, ENTRIES) {
      PartIs(node, n, ENTRIES, q);
      if q in node {
        BranchBound(mem0, root, node, n, q);
        if node[q] == n {
          HangsAlone(mem0, root, node, p, q);
        }
      }
    }
    forall pa | IsPage(end, pa)
      ensures Count(end, ref2, pa) == if pa in Whole(node, n) then 0 else Count(end, ref0, pa)
    {
      var c := Count(end, ref1, pa);
    }
    forall q | q in mem0 && q !in Whole(node, n) ensures q in mem2 && mem2[q] == mem0[q] {
      assert q in mem1.Keys && mem1[q] == mem0[q];
    }
  }

  /** What the next turn of freewalk finds. */
  lemma TakingFacts(end: nat, mem0: Memory, ref0: seq<nat>, mem: Memory, ref: seq<nat>, root: nat,
                    node: map<nat, Node>, p: nat, i: nat)
    requires Taking(end, mem0, ref0, mem, ref, root, node, p, i) && Tree(mem0, root, node) && i < ENTRIES
    ensures p in mem && p in mem0 && mem[p][i] == mem0[p][i]
    ensures mem[p][i].v && !IsLeaf(mem[p][i]) ==>
              && !node[p].Last? && mem[p][i].pa in Prune(node, node[p], i)
              && Prune(node, node[p], i)[mem[p][i].pa] == Below(node[p], i)
              && Height(Below(node[p], i)) < Height(node[p])
    ensures Tree(mem, root, Prune(node, node[p], i)) && TablesOnce(end, ref, Prune(node, node[p], i))
  {
    hide Count;
    assert EntryOk(mem, Prune(node, node[p], i), p, i);
  }

  lemma TakingEnd(end: nat, mem0: Memory, ref0: seq<nat>, mem: Memory, ref: seq<nat>, root: nat, node: map<nat, Node>,
                  p: nat)
    requires Taking(end, mem0, ref0, mem, ref, root, node, p, ENTRIES)
    ensures IsPage(end, p) && Count(end, ref, p) == 1
  {
    hide Count;
    assert p in Prune(node, node[p], ENTRIES);
  }

  lemma PartIs(node: map<nat, Node>, n: Node, i: nat, q: nat)
    ensures q in Part(node, n, i) <==> Before(node, n, i, q)
    ensures q in Part(node, n, i) ==> q in Part(node, n, i + 1)
  {
  }

  lemma RootThere(mem: Memory, root: nat, node: map<nat, Node>)
    requires Tree(mem, root, node)
    ensures root in node && node[root] == Root
  {
  }

  lemma TableThere(mem: Memory, root: nat, node: map<nat, Node>, q: nat)
    requires Tree(mem, root, node) && q in node
    ensures q in mem && q != 0
  {
    assert HangsOk(mem, node, root, q);
  }

  // Two page tables, as in fork.

  ghost predicate Disjoint(m: map<nat, Node>, n: map<nat, Node>) {
    forall p {:trigger p in m} :: p in m ==> p !in n
  }

  /** Page tables at a and b, whose uses together are counted. */
  ghost predicate Pair(mem: Memory, a: nat, m: map<nat, Node>, b: nat, n: map<nat, Node>, end: nat, ref: seq<nat>) {
    && Space(mem, a, m, end, ref) && Space(mem, b, n, end, ref) && Disjoint(m, n)
    && forall pa {:trigger Count(end, ref, pa)} :: IsPage(end, pa) ==>
         Uses(mem, a, 0, TOP, pa) + Uses(mem, b, 0, TOP, pa) + Bit(pa in m) + Bit(pa in n) <= Count(end, ref, pa)
  }

  /** What is written to one page table's own tables, and counted for it, does not disturb another. */
  lemma OtherSpace(mem: Memory, a: nat, m: map<nat, Node>, end: nat, ref: seq<nat>, mem': Memory, ref': seq<nat>)
    requires Space(mem, a, m, end, ref) && |ref'| == |ref| && mem'.Keys == mem.Keys && SameTables(mem, mem', m)
    requires forall pa {:trigger Count(end, ref', pa)} :: IsPage(end, pa) ==>
               Uses(mem, a, 0, TOP, pa) <= Count(end, ref', pa)
                 && (pa in m ==> Count(end, ref', pa) == Count(end, ref, pa))
    ensures Space(mem', a, m, end, ref') && SameMap(mem, mem', a)
  {
    hide Look, Uses, Count;
    assert 0 !in mem'.Keys;
    TreeFrame(mem, mem', a, m);
    forall vp: nat | vp < TOP ensures Look(mem', a, vp) == Look(mem, a, vp) {
      LookFrame(mem, mem', a, m, vp);
    }
    forall pa: nat ensures Enough(end, ref', Uses(mem', a, 0, TOP, pa), m, pa) {
      UsesSame(mem, mem', a, 0, TOP, pa);
      assert Enough(end, ref, Uses(mem, a, 0, TOP, pa), m, pa);
    }
    forall pa | IsPage(end, pa) ensures pa in mem' {
      assert pa in mem.Keys;
    }
  }

  lemma OtherGrew(mem: Memory, a: nat, m: map<nat, Node>, end: nat, ref: seq<nat>, node: map<nat, Node>, mem': Memory,
                  ref': seq<nat>, node': map<nat, Node>)
    requires Space(mem, a, m, end, ref) && Disjoint(m, node) && Grew(end, mem, ref, node, mem', ref', node')
    ensures Space(mem', a, m, end, ref') && SameMap(mem, mem', a) && Disjoint(m, node')
  {
    hide Look, Uses, Count, Tree;
    forall p {:trigger p in m} | p in m ensures p !in node' && p in mem && p in mem' && mem'[p] == mem[p] {
      assert IsPage(end, p) && Enough(end, ref, Uses(mem, a, 0, TOP, p), m, p);
      assert p in node' ==> Count(end, ref, p) == 0;
      assert p in mem'.Keys;
    }
    forall pa | IsPage(end, pa)
      ensures Uses(mem, a, 0, TOP, pa) <= Count(end, ref', pa)
      ensures pa in m ==> Count(end, ref', pa) == Count(end, ref, pa)
    {
      assert Enough(end, ref, Uses(mem, a, 0, TOP, pa), m, pa);
      assert pa in m ==> pa !in node';
    }
    OtherSpace(mem, a, m, end, ref, mem', ref');
  }

  lemma SpaceInc(mem: Memory, a: nat, m: map<nat, Node>, end: nat, ref: seq<nat>, pa: nat, ref': seq<nat>)
    requires Space(mem, a, m, end, ref) && pa !in m && SameCounts(end, ref, ref', pa)
    requires Count(end, ref', pa) == Count(end, ref, pa) + 1
    ensures Space(mem, a, m, end, ref')
  {
    hide Look, Uses, Count, Tree;
    forall b: nat ensures Enough(end, ref', Uses(mem, a, 0, TOP, b), m, b) {
      assert Enough(end, ref, Uses(mem, a, 0, TOP, b), m, b);
      var c := Count(end, ref', b);
    }
  }

  /** What fork makes of an entry: read-only and shared. */
  function Shared(e: Pte): Pte {
    e.(w := false, cow := true)
  }

  /** The entry's word has PTE_W cleared and PTE_COW set, and is otherwise as it was. */
  lemma SharedWord(e: Pte)
    ensures Encode(Shared(e)) == Encode(e) - 4 * Bit(e.w) + 32 * Bit(!e.cow) && !Shared(e).w && Shared(e).cow
  {
  }

  /** The first n pages of b are those of a, shared; the rest of b as before. */
  ghost predicate Copied(mem: Memory, mem': Memory, a: nat, b: nat, n: nat) {
    forall vp: nat {:trigger Look(mem', b, vp)} :: vp < TOP ==>
      Look(mem', b, vp) == if vp < n then Shared(Look(mem, a, vp)) else Look(mem, b, vp)
  }

  /** Every page has a reference more for each use in the first n pages of a, and for becoming a table. */
  ghost predicate CopyCounts(end: nat, mem: Memory, ref: seq<nat>, ref': seq<nat>, a: nat, n: nat,
                             node: map<nat, Node>, node': map<nat, Node>) {
    |ref'| == |ref| && forall pa {:trigger Count(end, ref', pa)} :: IsPage(end, pa) ==>
      Count(end, ref', pa) == Count(end, ref, pa) + Uses(mem, a, 0, n, pa) + Bit(NewTable(node, node', pa))
  }

  /** A page of a's that b may share is no table, and has a reference to lend. */
  lemma CanShare(mem: Memory, a: nat, m: map<nat, Node>, b: nat, n: map<nat, Node>, end: nat, ref: seq<nat>, vp: nat)
    requires Pair(mem, a, m, b, n, end, ref) && vp < TOP && Look(mem, a, vp).v && IsPage(end, Look(mem, a, vp).pa)
    ensures var pa := Look(mem, a, vp).pa; pa !in m && Spare(mem, b, n, end, ref, pa) && Count(end, ref, pa) > 0
  {
    hide Look, Uses, Count;
    var pa := Look(mem, a, vp).pa;
    UsesOne(mem, a, 0, TOP, vp, pa);
    assert Enough(end, ref, Uses(mem, a, 0, TOP, pa), m, pa) && Enough(end, ref, Uses(mem, b, 0, TOP, pa), n, pa);
    var c := Count(end, ref, pa);
  }

  /** The pair when b maps one more of a's pages and its count has been raised. */
  lemma PairShare(mem: Memory, a: nat, m: map<nat, Node>, b: nat, n: map<nat, Node>, end: nat, ref: seq<nat>, vp: nat,
                  mem': Memory, ref1: seq<nat>, n': map<nat, Node>, ref2: seq<nat>, pa: nat)
    requires Pair(mem, a, m, b, n, end, ref) && vp < TOP && IsPage(end, pa) && pa !in m && Count(end, ref, pa) > 0
    requires Grew(end, mem, ref, n, mem', ref1, n') && Space(mem', b, n', end, ref1)
    requires SameBut(mem, mem', b, vp) && !Look(mem, b, vp).v && Look(mem', b, vp).v && Look(mem', b, vp).pa == pa
    requires SameCounts(end, ref1, ref2, pa) && Count(end, ref2, pa) == Count(end, ref1, pa) + 1
    ensures Pair(mem', a, m, b, n', end, ref2) && SameMap(mem, mem', a)
    ensures forall c {:trigger Count(end, ref2, c)} :: IsPage(end, c) ==>
              Count(end, ref2, c) == Count(end, ref, c) + Bit(c == pa) + Bit(NewTable(n, n', c))
  {
    hide Look, Uses, Count, Tree;
    OtherGrew(mem, a, m, end, ref, n, mem', ref1, n');
    assert pa in n' ==> pa in n;
    assert Enough(end, ref, Uses(mem, b, 0, TOP, pa), n, pa) && Enough(end, ref1, Uses(mem', b, 0, TOP, pa), n', pa);
    UsesOne(mem', b, 0, TOP, vp, pa);
    assert pa !in n';
    SpaceInc(mem', a, m, end, ref1, pa, ref2);
    SpaceInc(mem', b, n', end, ref1, pa, ref2);
    forall c | IsPage(end, c)
      ensures Uses(mem', a, 0, TOP, c) + Uses(mem', b, 0, TOP, c) + Bit(c in m) + Bit(c in n') <= Count(end, ref2, c)
      ensures Count(end, ref2, c) == Count(end, ref, c) + Bit(c == pa) + Bit(NewTable(n, n', c))
    {
      UsesSame(mem, mem', a, 0, TOP, c);
      UsesSet(mem, mem', b, 0, TOP, vp, c);
      var c0, c1 := Count(end, ref, c), Count(end, ref1, c);
      assert c in n ==> c in n';
      assert NewTable(n, n', c) ==> c in n';
    }
  }

  /** The pair when b has only got new tables. */
  lemma PairGrew(mem: Memory, a: nat, m: map<nat, Node>, b: nat, n: map<nat, Node>, end: nat, ref: seq<nat>,
                 mem': Memory, ref': seq<nat>, n': map<nat, Node>)
    requires Pair(mem, a, m, b, n, end, ref) && Grew(end, mem, ref, n, mem', ref', n')
    requires Space(mem', b, n', end, ref') && SameMap(mem, mem', b)
    ensures Pair(mem', a, m, b, n', end, ref') && SameMap(mem, mem', a)
    ensures forall c {:trigger Count(end, ref', c)} :: IsPage(end, c) ==>
              Count(end, ref', c) == Count(end, ref, c) + Bit(NewTable(n, n', c))
  {
    hide Look, Uses, Count, Tree;
    OtherGrew(mem, a, m, end, ref, n, mem', ref', n');
    forall c | IsPage(end, c)
      ensures Uses(mem', a, 0, TOP, c) + Uses(mem', b, 0, TOP, c) + Bit(c in m) + Bit(c in n') <= Count(end, ref', c)
      ensures Count(end, ref', c) == Count(end, ref, c) + Bit(NewTable(n, n', c))
    {
      UsesSame(mem, mem', a, 0, TOP, c);
      UsesSame(mem, mem', b, 0, TOP, c);
      var c0 := Count(end, ref, c);
      assert c in n ==> c in n';
      assert NewTable(n, n', c) ==> c in n';
    }
  }

  lemma IncKeeps(end: nat, mem: Memory, ref: seq<nat>, n: map<nat, Node>, mem': Memory, ref': seq<nat>,
                 n': map<nat, Node>, pa: nat)
    requires Grew(end, mem, ref, n, mem', ref', n') && IsPage(end, pa) && Count(end, ref, pa) > 0
    ensures Count(end, ref', pa) == Count(end, ref, pa) && Kept(n, n') && |ref'| == |ref|
    ensures Wrote(end, mem, mem', ref, n')
  {
    hide Count;
    assert pa in n' && pa !in n ==> Count(end, ref, pa) == 0;
  }

  lemma CopyOnlyGains(end: nat, mem: Memory, ref: seq<nat>, ref': seq<nat>, a: nat, at: nat, n: map<nat, Node>,
                      n': map<nat, Node>)
    requires CopyCounts(end, mem, ref, ref', a, at, n, n')
    ensures forall pa {:trigger Count(end, ref', pa)} :: IsPage(end, pa) ==> Count(end, ref, pa) <= Count(end, ref', pa)
  {
    hide Count, Uses;
  }

  lemma {:induction false} UsesBound(mem: Memory, root: nat, lo: nat, hi: nat, pa: nat)
    requires lo <= hi
    ensures Uses(mem, root, lo, hi, pa) <= hi - lo
    decreases hi
  {
    hide Look;
    if hi > lo {
      UsesBound(mem, root, lo, hi - 1, pa);
    }
  }

  /** Counts far from overflow: there are fewer virtual pages than that. */
  ghost predicate Modest(end: nat, ref: seq<nat>) {
    forall pa {:trigger Count(end, ref, pa)} :: IsPage(end, pa) ==> Count(end, ref, pa) < UINT64 / 2
  }

  lemma StillModest(end: nat, mem: Memory, ref: seq<nat>, ref': seq<nat>, a: nat, at: nat, n: map<nat, Node>,
                    n': map<nat, Node>, pa: nat)
    requires Modest(end, ref) && CopyCounts(end, mem, ref, ref', a, at, n, n') && at <= TOP && IsPage(end, pa)
    ensures Count(end, ref', pa) < UINT64 - 1
  {
    hide Look, Uses, Count;
    UsesBound(mem, a, 0, at, pa);
    var c := Count(end, ref, pa);
  }

  /** uvmcopy can share page vp of a with b. */
  predicate CanCopy(mem: Memory, a: nat, b: nat, vp: nat) {
    vp * PGSIZE < MAXVA && Look(mem, a, vp).v && !Look(mem, b, vp).v
  }

  /** What can be shared: pages of the allocator's, readable or executable. */
  predicate Sharable(end: nat, e: Pte) {
    e.v ==> IsPage(end, e.pa) && (e.r || e.x)
  }

  lemma CopyNone(end: nat, mem: Memory, ref: seq<nat>, a: nat, b: nat, n: map<nat, Node>)
    ensures Copied(mem, mem, a, b, 0) && CopyCounts(end, mem, ref, ref, a, 0, n, n) && Kept(n, n)
    ensures SameMap(mem, mem, a)
  {
    hide Look, Count;
    forall pa | IsPage(end, pa)
      ensures Count(end, ref, pa) == Count(end, ref, pa) + Uses(mem, a, 0, 0, pa) + Bit(NewTable(n, n, pa))
    {
      assert Uses(mem, a, 0, 0, pa) == 0 && !NewTable(n, n, pa);
    }
  }

  lemma CopiedOn(mem: Memory, mem1: Memory, mem2: Memory, a: nat, b: nat, at: nat)
    requires Copied(mem, mem1, a, b, at) && SameMap(mem, mem1, a) && SameBut(mem1, mem2, b, at) && at < TOP
    requires Look(mem2, b, at) == Shared(Look(mem1, a, at))
    ensures Copied(mem, mem2, a, b, at + 1)
  {
    hide Look;
    forall vp: nat | vp < TOP
      ensures Look(mem2, b, vp) == if vp < at + 1 then Shared(Look(mem, a, vp)) else Look(mem, b, vp)
    {
      var e, f, g := Look(mem1, b, vp), Look(mem2, b, vp), Look(mem1, a, vp);
    }
  }

  lemma CopiedStill(mem: Memory, mem1: Memory, mem2: Memory, a: nat, b: nat, at: nat)
    requires Copied(mem, mem1, a, b, at) && SameMap(mem1, mem2, b)
    ensures Copied(mem, mem2, a, b, at)
  {
    hide Look;
    forall vp: nat | vp < TOP
      ensures Look(mem2, b, vp) == if vp < at then Shared(Look(mem, a, vp)) else Look(mem, b, vp)
    {
      var e, f := Look(mem1, b, vp), Look(mem2, b, vp);
    }
  }

  lemma SameTwice(mem: Memory, mem1: Memory, mem2: Memory, root: nat)
    requires SameMap(mem, mem1, root) && SameMap(mem1, mem2, root)
    ensures SameMap(mem, mem2, root)
  {
    hide Look;
    forall vp: nat | vp < TOP ensures Look(mem2, root, vp) == Look(mem, root, vp) {
      var e := Look(mem1, root, vp);
    }
  }

  lemma CopyCountsOn(end: nat, mem: Memory, ref: seq<nat>, ref1: seq<nat>, ref2: seq<nat>, a: nat, at: nat, more: bool,
                     n: map<nat, Node>, n1: map<nat, Node>, n2: map<nat, Node>)
    requires CopyCounts(end, mem, ref, ref1, a, at, n, n1) && Kept(n, n1) && Kept(n1, n2) && |ref2| == |ref1|
    requires Look(mem, a, at).v
    requires forall c {:trigger Count(end, ref2, c)} :: IsPage(end, c) ==>
               Count(end, ref2, c)
                 == Count(end, ref1, c) + Bit(more && c == Look(mem, a, at).pa) + Bit(NewTable(n1, n2, c))
    ensures CopyCounts(end, mem, ref, ref2, a, if more then at + 1 else at, n, n2) && Kept(n, n2)
  {
    hide Look, Count;
    forall c | IsPage(end, c)
      ensures Count(end, ref2, c)
                == Count(end, ref, c) + Uses(mem, a, 0, if more then at + 1 else at, c) + Bit(NewTable(n, n2, c))
    {
      var c1 := Count(end, ref1, c);
      assert c in n ==> c in n1;
      assert c in n1 ==> c in n2;
      assert Uses(mem, a, 0, at + 1, c) == Uses(mem, a, 0, at, c) + Bit(Maps(mem, a, at, c));
    }
  }

  /** Uses in b of what was copied are the uses in a. */
  lemma CopiedUses(mem: Memory, mem': Memory, a: nat, b: nat, at: nat, pa: nat)
    requires Copied(mem, mem', a, b, at) && at <= TOP
    ensures Uses(mem', b, 0, at, pa) == Uses(mem, a, 0, at, pa)
  {
    hide Look, Uses;
    forall vp | 0 <= vp < at ensures Maps(mem', b, vp, pa) == Maps(mem, a, vp, pa) {
      var e := Look(mem', b, vp);
    }
    UsesFrame(mem, a, mem', b, 0, at, pa);
  }

  /** The rollback of uvmcopy: both maps and all counts but those of new tables are as before. */
  lemma CopyRolledBack(mem: Memory, mem1: Memory, mem2: Memory, a: nat, m: map<nat, Node>, b: nat, n: map<nat, Node>,
                       n': map<nat, Node>,
                       end: nat, ref: seq<nat>, ref1: seq<nat>, ref2: seq<nat>, at: nat)
    requires Copied(mem, mem1, a, b, at) && UnmappedRun(mem1, mem2, b, 0, at) && Vacant(mem, b, 0, at)
    requires Space(mem, b, n, end, ref) && at <= TOP
    requires CopyCounts(end, mem, ref, ref1, a, at, n, n') && Released(end, ref1, ref2, mem1, b, 0, at)
    ensures SameMap(mem, mem2, b)
    ensures forall pa {:trigger Count(end, ref2, pa)} :: IsPage(end, pa) ==>
              Count(end, ref2, pa) == Count(end, ref, pa) + Bit(NewTable(n, n', pa))
  {
    hide Look, Uses, Count, Tree;
    forall vp: nat | vp < TOP ensures Look(mem2, b, vp) == Look(mem, b, vp) {
      var e, f := Look(mem1, b, vp), Look(mem, b, vp);
      InvalidIsZero(mem, b, n, vp);
    }
    forall pa | IsPage(end, pa) ensures Count(end, ref2, pa) == Count(end, ref, pa) + Bit(NewTable(n, n', pa)) {
      var c := Count(end, ref1, pa);
      CopiedUses(mem, mem1, a, b, at, pa);
    }
  }

  /** And the two page tables are in order. */
  lemma PairRolledBack(mem: Memory, mem1: Memory, mem2: Memory, a: nat, m: map<nat, Node>, b: nat, n: map<nat, Node>,
                       n': map<nat, Node>,
                       end: nat, ref: seq<nat>, ref1: seq<nat>, ref2: seq<nat>)
    requires Pair(mem, a, m, b, n, end, ref) && Pair(mem1, a, m, b, n', end, ref1) && Space(mem2, b, n', end, ref2)
    requires SameMap(mem, mem1, a) && SameMap(mem, mem2, b) && Wrote(end, mem1, mem2, ref2, n') && |ref2| == |ref|
    requires forall pa {:trigger Count(end, ref2, pa)} :: IsPage(end, pa) ==>
               Count(end, ref2, pa) == Count(end, ref, pa) + Bit(NewTable(n, n', pa))
    requires Kept(n, n') && |ref1| == |ref|
    ensures Pair(mem2, a, m, b, n', end, ref2) && SameMap(mem, mem2, a)
  {
    hide Look, Uses, Count, Tree;
    forall p {:trigger p in m} | p in m ensures p in mem1 && p in mem2 && mem2[p] == mem1[p] {
      assert Enough(end, ref, Uses(mem, a, 0, TOP, p), m, p) && Enough(end, ref1, Uses(mem1, a, 0, TOP, p), m, p);
      assert Count(end, ref2, p) == Count(end, ref, p) + Bit(NewTable(n, n', p));
      assert p in mem2.Keys;
    }
    forall pa | IsPage(end, pa)
      ensures Uses(mem1, a, 0, TOP, pa) <= Count(end, ref2, pa)
      ensures pa in m ==> Count(end, ref2, pa) == Count(end, ref1, pa)
    {
      UsesSame(mem, mem1, a, 0, TOP, pa);
      assert Enough(end, ref, Uses(mem, a, 0, TOP, pa), m, pa) && Enough(end, ref1, Uses(mem1, a, 0, TOP, pa), m, pa);
      assert pa in m ==> pa !in n';
    }
    OtherSpace(mem1, a, m, end, ref1, mem2, ref2);
    SameTwice(mem, mem1, mem2, a);
    forall pa | IsPage(end, pa)
      ensures Uses(mem2, a, 0, TOP, pa) + Uses(mem2, b, 0, TOP, pa) + Bit(pa in m) + Bit(pa in n') <= Count(end, ref2,
                pa)
    {
      UsesSame(mem, mem2, a, 0, TOP, pa);
      UsesSame(mem, mem2, b, 0, TOP, pa);
      var c := Count(end, ref, pa);
      assert pa in n ==> pa in n';
    }
  }

  /** Undoing the copy frees no page: whatever it had shared the parent still maps. */
  lemma NoneFreed(mem: Memory, a: nat, m: map<nat, Node>, b: nat, n: map<nat, Node>, n': map<nat, Node>, end: nat,
                  ref: seq<nat>, ref1: seq<nat>, ref2: seq<nat>, at: nat)
    requires Pair(mem, a, m, b, n, end, ref) && CopyCounts(end, mem, ref, ref1, a, at, n, n') && at <= TOP
    requires forall pa {:trigger Count(end, ref1, pa)} :: IsPage(end, pa) ==> Count(end, ref1, pa) != 0
    requires forall pa {:trigger Count(end, ref2, pa)} :: IsPage(end, pa) ==>
               Count(end, ref2, pa) == Count(end, ref, pa) + Bit(NewTable(n, n', pa))
    ensures forall pa {:trigger Count(end, ref2, pa)} :: IsPage(end, pa) ==> Count(end, ref2, pa) != 0
  {
    hide Look, Uses, Count, Space;
    forall pa | IsPage(end, pa) ensures Count(end, ref2, pa) != 0 {
      var c, d := Count(end, ref, pa), Count(end, ref1, pa);
      UsesSplit(mem, a, 0, at, TOP, pa);
    }
  }

  lemma NoneListed(end: nat, freelist: nat, next: map<nat, nat>, list: seq<nat>, place: map<nat, nat>, ref: seq<nat>)
    requires Listed(end, freelist, next, list, place) && Counted(end, ref, place)
    requires forall pa {:trigger Count(end, ref, pa)} :: IsPage(end, pa) ==> Count(end, ref, pa) != 0
    ensures list == []
  {
    hide Count;
    FreeWithin(end, freelist, next, list, place, ref, {});
  }

  lemma LookNow(mem: Memory, mem': Memory, a: nat, b: nat, at: nat)
    requires SameMap(mem, mem', a) && Copied(mem, mem', a, b, at) && at < TOP
    ensures Look(mem', a, at) == Look(mem, a, at) && Look(mem', b, at) == Look(mem, b, at)
  {
    hide Look;
  }

  lemma CopiedUnmaps(mem: Memory, mem': Memory, a: nat, b: nat, end: nat, at: nat)
    requires Copied(mem, mem', a, b, at) && at * PGSIZE <= MAXVA
    requires forall vp: nat {:trigger Look(mem, a, vp)} :: vp < at ==>
               Look(mem, a, vp).v && Sharable(end, Look(mem, a, vp))
    ensures forall vp: nat {:trigger CanUnmap(mem', b, end, vp, true)} :: vp < at ==> CanUnmap(mem', b, end, vp, true)
  {
    hide Look;
    forall vp: nat | vp < at ensures CanUnmap(mem', b, end, vp, true) {
      var e, f := Look(mem', b, vp), Look(mem, a, vp);
    }
  }

  /** What uvmunmap demands of each page. */
  predicate CanUnmap(mem: Memory, root: nat, end: nat, vp: nat, doFree: bool) {
    vp * PGSIZE < MAXVA && Look(mem, root, vp).v && (doFree ==> IsPage(end, Look(mem, root, vp).pa))
  }

  lemma EmptyTable(mem: Memory, root: nat, end: nat, ref: seq<nat>)
    requires KernelEnd(end) && |ref| == NREF && 0 !in mem
    requires forall pa {:trigger IsPage(end, pa)} :: IsPage(end, pa) ==> pa in mem
    requires IsPage(end, root) && root in mem && mem[root] == EMPTY && Count(end, ref, root) == 1
    ensures Planted(mem, root, map[root := Root], end, ref) && Space(mem, root, map[root := Root], end, ref)
    ensures forall vp: nat {:trigger Look(mem, root, vp)} :: !Look(mem, root, vp).v
  {
    hide Count, Px;
    var node := map[root := Root];
    forall pa: nat ensures Enough(end, ref, Uses(mem, root, 0, TOP, pa), node, pa) {
      NoUses(mem, root, TOP, pa);
    }
  }

  lemma {:induction false} NoUses(mem: Memory, root: nat, hi: nat, pa: nat)
    requires 0 !in mem && root in mem && mem[root] == EMPTY
    ensures Uses(mem, root, 0, hi, pa) == 0
  {
    if hi > 0 {
      NoUses(mem, root, hi - 1, pa);
    }
  }

  datatype Outcome = Done | NoMemory | Panicked

  class Vm {
    const kmem: Kmem
    var mem: Memory

    ghost predicate Valid()
      reads this, kmem
    {
      kmem.Valid() && 0 !in mem && forall pa {:trigger IsPage(kmem.end, pa)} :: IsPage(kmem.end, pa) ==> pa in mem
    }

    /** The page table at root has this tree, whatever it maps. */
    ghost predicate Rooted(root: nat, node: map<nat, Node>)
      reads this, kmem
    {
      Planted(mem, root, node, kmem.end, kmem.ref)
    }

    /** The pages it maps are counted too. */
    ghost predicate Has(root: nat, node: map<nat, Node>)
      reads this, kmem
    {
      Space(mem, root, node, kmem.end, kmem.ref)
    }

    constructor (kmem: Kmem)
      requires kmem.Valid()
      ensures Valid() && this.kmem == kmem
    {
      this.kmem := kmem;
      mem := map pa: nat | 0 < pa < PHYSTOP && IsPage(kmem.end, pa) :: EMPTY;
    }

    method AllocPage() returns (pa: nat)
      requires Valid()
      modifies this, kmem
      ensures Valid() && |kmem.ref| == |old(kmem.ref)|
      ensures pa == 0 <==> old(kmem.list) == []
      ensures pa == 0 ==> mem == old(mem) && kmem.ref == old(kmem.ref) && kmem.list == []
      ensures pa != 0 ==>
                IsPage(kmem.end, pa) && Count(kmem.end, old(kmem.ref), pa) == 0 && Count(kmem.end, kmem.ref, pa) == 1
      ensures pa != 0 ==> SameCounts(kmem.end, old(kmem.ref), kmem.ref, pa) && mem == old(mem)[pa := ALLOCATED]
    {
      hide Count, Listed, Counted;
      pa := kmem.Kalloc();
      if pa != 0 {
        mem := mem[pa := ALLOCATED];
        assert kmem.CountOf(pa) == 1 && old(kmem.CountOf(pa)) == 0;
        forall pb | IsPage(kmem.end, pb) && pb != pa
          ensures Count(kmem.end, kmem.ref, pb) == Count(kmem.end, old(kmem.ref), pb)
        {
          assert kmem.CountOf(pb) == old(kmem.CountOf(pb));
        }
      }
    }

    /** Gives up a reference to a page in use; false where kfree panics. */
    method FreePage(pa: nat) returns (ok: bool)
      requires Valid() && (IsPage(kmem.end, pa) ==> Count(kmem.end, kmem.ref, pa) > 0)
      modifies this, kmem
      ensures Valid() && |kmem.ref| == |old(kmem.ref)| && (ok <==> IsPage(kmem.end, pa))
      ensures !ok ==> mem == old(mem) && kmem.ref == old(kmem.ref)
      ensures ok ==> SameCounts(kmem.end, old(kmem.ref), kmem.ref, pa)
      ensures ok ==> Count(kmem.end, kmem.ref, pa) == Count(kmem.end, old(kmem.ref), pa) - 1
      ensures ok ==> mem == if Count(kmem.end, kmem.ref, pa) == 0 then old(mem)[pa := FREED] else old(mem)
    {
      hide Count, Listed, Counted;
      ok := pa % PGSIZE == 0 && kmem.end <= pa < PHYSTOP;
      if ok {
        assert old(kmem.CountOf(pa)) == Count(kmem.end, kmem.ref, pa);
        kmem.Drop(pa);
        assert kmem.CountOf(pa) == Count(kmem.end, kmem.ref, pa);
        forall pb | IsPage(kmem.end, pb) && pb != pa
          ensures Count(kmem.end, kmem.ref, pb) == Count(kmem.end, old(kmem.ref), pb)
        {
          assert kmem.CountOf(pb) == old(kmem.CountOf(pb));
        }
        var last := kmem.IsFree(pa);
        if last {
          mem := mem[pa := FREED];
        }
      }
    }

    /** A new empty table in an unused entry. */
    method HangTable(root: nat, p: nat, k: nat, ghost node: map<nat, Node>)
      returns (c: nat, ghost node': map<nat, Node>)
      requires Valid() && Rooted(root, node) && p in node && !node[p].Last? && p in mem && k < ENTRIES
      requires !mem[p][k].v
      modifies this, kmem
      ensures Valid() && Rooted(root, node') && SameMap(old(mem), mem, root)
      ensures old(Has(root, node)) ==> Has(root, node')
      ensures Grew(kmem.end, old(mem), old(kmem.ref), node, mem, kmem.ref, node') && KeepsChildren(old(mem), mem, node)
      ensures c == Child(mem, p, k) && (c != 0 ==> c in node' && node'[c] == Below(node[p], k) && c in mem)
      ensures c == 0 ==> mem == old(mem) && kmem.ref == old(kmem.ref) && node' == node && kmem.list == []
    {
      hide Look, Uses, Count, Kalloc.Listed, Kalloc.Counted, Accounts, Grew, KeepsChildren;
      node' := node;
      GrewRefl(kmem.end, mem, kmem.ref, node);
      KeepsRefl(mem, node);
      c := AllocPage();
      if c != 0 {
        PlantedAlloc(old(mem), root, node, kmem.end, old(kmem.ref), c, EMPTY, kmem.ref);
        mem := mem[c := EMPTY];
        assert mem == old(mem)[c := EMPTY];
        assert HangsOk(old(mem), node, root, p);
        ghost var mem1 := mem;
        PlantedAdd(mem1, root, node, kmem.end, kmem.ref, p, k, c);
        if old(Has(root, node)) {
          SpaceAlloc(old(mem), root, node, kmem.end, old(kmem.ref), c, EMPTY, kmem.ref);
          UsesSame(old(mem), mem1, root, 0, TOP, c);
          SpaceAdd(mem1, root, node, kmem.end, kmem.ref, p, k, c);
        }
        mem := mem[p := mem[p][k := Name(c)]];
        node' := node[c := Below(node[p], k)];
        HungGrew(kmem.end, old(mem), old(kmem.ref), node, kmem.ref, p, k, c);
      }
    }

    /** One level of walk: the table that entry k of the table at p names, made if need be and allowed. */
    method Descend(root: nat, p: nat, k: nat, alloc: bool, ghost node: map<nat, Node>)
      returns (c: nat, ghost node': map<nat, Node>)
      requires Valid() && Rooted(root, node) && p in node && !node[p].Last? && p in mem && k < ENTRIES
      modifies this, kmem
      ensures Valid() && Rooted(root, node') && SameMap(old(mem), mem, root)
      ensures old(Has(root, node)) ==> Has(root, node')
      ensures Grew(kmem.end, old(mem), old(kmem.ref), node, mem, kmem.ref, node') && KeepsChildren(old(mem), mem, node)
      ensures c == Child(mem, p, k) && (c != 0 ==> c in node' && node'[c] == Below(node[p], k) && c in mem)
      ensures c == 0 || !alloc ==> mem == old(mem) && kmem.ref == old(kmem.ref) && node' == node
      ensures c == 0 && alloc ==> kmem.list == []
    {
      hide Look, Uses, Count, Kalloc.Listed, Kalloc.Counted, Accounts;
      node' := node;
      GrewRefl(kmem.end, mem, kmem.ref, node);
      var pte := mem[p][k];
      if pte.v {
        c := pte.pa;
        assert EntryOk(mem, node, p, k);
        assert HangsOk(mem, node, root, c);
        return;
      }
      if !alloc {
        return 0, node';
      }
      c, node' := HangTable(root, p, k, node);
    }

    /** The table that has the entry of va; 0 when there is none, or none can be made. Panics beyond MAXVA. */
    method Walk(root: nat, va: nat, alloc: bool, ghost node: map<nat, Node>)
      returns (ok: bool, q: nat, ghost node': map<nat, Node>)
      requires Valid() && Rooted(root, node)
      modifies this, kmem
      ensures ok <==> va < MAXVA
      ensures Valid() && Rooted(root, node') && SameMap(old(mem), mem, root)
      ensures old(Has(root, node)) ==> Has(root, node')
      ensures Grew(kmem.end, old(mem), old(kmem.ref), node, mem, kmem.ref, node')
      ensures ok ==> q == Low(mem, root, va / PGSIZE) && (q != 0 ==> q in mem && q in node')
      ensures !ok || !alloc ==> mem == old(mem) && kmem.ref == old(kmem.ref) && node' == node
      ensures ok && alloc && q == 0 ==> kmem.list == []
    {
      hide Look, Uses, Count, Px, Listed, Counted, Grew;
      node', q := node, 0;
      GrewRefl(kmem.end, mem, kmem.ref, node);
      ok := va < MAXVA;
      if !ok {
        return;
      }
      var vp := va / PGSIZE;
      q := root;
      var level := 2;
      assert HangsOk(mem, node, root, root);
      while level > 0 && q != 0
        invariant 0 <= level <= 2 && Valid() && Rooted(root, node') && SameMap(old(mem), mem, root)
        invariant old(Has(root, node)) ==> Has(root, node')
        invariant Grew(kmem.end, old(mem), old(kmem.ref), node, mem, kmem.ref, node')
        invariant q == PathTo(mem, root, level, vp)
        invariant q != 0 ==> q in node' && q in mem && node'[q] == PathNode(level, vp)
        invariant !alloc ==> mem == old(mem) && kmem.ref == old(kmem.ref) && node' == node
        invariant q == 0 && alloc ==> kmem.list == []
      {
        ghost var mem1, ref1, node1 := mem, kmem.ref, node';
        ghost var m := Child(mem, root, Px(2, vp));
        q, node' := Descend(root, q, Px(level, vp), alloc, node');
        GrewOn(kmem.end, old(mem), old(kmem.ref), node, mem1, ref1, node1, mem, kmem.ref, node');
        assert level == 1 ==> Child(mem, root, Px(2, vp)) == m;
        level := level - 1;
      }
    }

    /** The page that va is mapped to for user code; 0 when it is not. */
    method WalkAddr(root: nat, va: nat, ghost node: map<nat, Node>) returns (pa: nat)
      requires Valid() && Rooted(root, node)
      modifies this, kmem
      ensures mem == old(mem) && kmem.ref == old(kmem.ref) && Valid()
      ensures var e := Look(mem, root, va / PGSIZE); pa == if va < MAXVA && e.v && e.u then e.pa else 0
    {
      hide Uses, Count, Px, Listed, Counted, Grew;
      pa := 0;
      if va >= MAXVA {
        return;
      }
      var ok, q;
      ghost var node';
      ok, q, node' := Walk(root, va, false, node);
      if q == 0 {
        return;
      }
      var e := mem[q][Px(0, va / PGSIZE)];
      if !e.v || !e.u {
        return;
      }
      pa := e.pa;
    }

    /** An empty page table; 0 when memory has run out. */
    method UvmCreate() returns (root: nat, ghost node: map<nat, Node>)
      requires Valid()
      modifies this, kmem
      ensures Valid() && |kmem.ref| == |old(kmem.ref)|
      ensures root == 0 <==> old(kmem.list) == []
      ensures root == 0 ==> mem == old(mem) && kmem.ref == old(kmem.ref)
      ensures root != 0 ==> node == map[root := Root] && Rooted(root, node) && Has(root, node)
      ensures root != 0 ==>
                Count(kmem.end, old(kmem.ref), root) == 0 && SameCounts(kmem.end, old(kmem.ref), kmem.ref, root)
      ensures root != 0 ==> forall vp: nat {:trigger Look(mem, root, vp)} :: !Look(mem, root, vp).v
    {
      hide Count, Listed, Counted;
      node := map[];
      root := AllocPage();
      if root != 0 {
        mem := mem[root := EMPTY];
        node := map[root := Root];
        EmptyTable(mem, root, kmem.end, kmem.ref);
      }
    }

    /** One turn of mappages. */
    method MapOne(root: nat, a: nat, pa: nat, perm: Pte, ghost node: map<nat, Node>)
      returns (r: Outcome, ghost node': map<nat, Node>)
      requires Valid() && Rooted(root, node) && IsLeaf(perm)
      modifies this, kmem
      ensures Valid() && Rooted(root, node') && Grew(kmem.end, old(mem), old(kmem.ref), node, mem, kmem.ref, node')
      ensures old(Has(root, node) && Spare(mem, root, node, kmem.end, kmem.ref, RoundDown(pa))) ==> Has(root, node')
      ensures r.Done? ==>
                a < MAXVA && !Look(old(mem), root, a / PGSIZE).v && Look(mem, root, a / PGSIZE) == Entry(perm, pa)
      ensures r.Done? ==> SameBut(old(mem), mem, root, a / PGSIZE)
      ensures !r.Done? ==> SameMap(old(mem), mem, root)
      ensures r.NoMemory? ==> kmem.list == []
      ensures r.Panicked? <==> a >= MAXVA || Look(old(mem), root, a / PGSIZE).v
    {
      hide Uses, Count, Px, Listed, Counted, RoundDown, Tree, TablesOnce, Accounts, Grew;
      var ok, q;
      ok, q, node' := Walk(root, a, true, node);
      if !ok {
        return Panicked, node';
      }
      var vp := a / PGSIZE;
      ghost var e := Look(mem, root, vp);
      if q == 0 {
        return NoMemory, node';
      }
      if mem[q][Px(0, vp)].v {
        return Panicked, node';
      }
      ghost var mem1 := mem;
      forall v | 0 <= v < TOP ensures Maps(mem1, root, v, RoundDown(pa)) == Maps(old(mem), root, v, RoundDown(pa)) {
        assert Look(mem1, root, v) == Look(old(mem), root, v);
      }
      PlantedSet(mem1, root, node', kmem.end, kmem.ref, vp, Entry(perm, pa));
      if old(Has(root, node) && Spare(mem, root, node, kmem.end, kmem.ref, RoundDown(pa))) {
        SpareKeeps(kmem.end, old(mem), old(kmem.ref), node, mem1, kmem.ref, node', root, RoundDown(pa));
        SpaceSet(mem1, root, node', kmem.end, kmem.ref, vp, Entry(perm, pa));
      }
      GrewSet(kmem.end, old(mem), old(kmem.ref), node, mem1, kmem.ref, node', q, Px(0, vp), Entry(perm, pa));
      mem := mem[q := mem[q][Px(0, vp) := Entry(perm, pa)]];
      forall v: nat | v < TOP && v != vp ensures Look(mem, root, v) == Look(old(mem), root, v) {
        assert Look(mem1, root, v) == Look(old(mem), root, v);
      }
      r := Done;
    }

    /** The page table's pages are counted, and the ones to be mapped have a reference each to spare. */
    ghost predicate Countable(root: nat, va: nat, size: nat, pa: nat, node: map<nat, Node>)
      reads this, kmem
    {
      && Has(root, node) && pa % PGSIZE == 0
      && (size > 0 ==> Spares(mem, root, node, kmem.end, kmem.ref, pa, 0, (va + size - 1) / PGSIZE - va / PGSIZE + 1))
    }

    /**
     Maps the pages that va to va + size - 1 touch to consecutive pages from pa. When a table
     cannot be made it stops short, with the first m of them mapped.
     */
    method MapPages(root: nat, va: nat, size: nat, pa: nat, perm: Pte, ghost node: map<nat, Node>)
      returns (r: Outcome, ghost m: nat, ghost node': map<nat, Node>)
      requires Valid() && Rooted(root, node) && IsLeaf(perm)
      modifies this, kmem
      ensures Valid() && Rooted(root, node') && Grew(kmem.end, old(mem), old(kmem.ref), node, mem, kmem.ref, node')
      ensures old(Countable(root, va, size, pa, node)) ==> Has(root, node')
      ensures MappedRun(old(mem), mem, root, va / PGSIZE, m, perm, pa)
      ensures r.Panicked? <==>
                size == 0 || (!r.Done?
                  && ((va / PGSIZE + m) * PGSIZE >= MAXVA || Look(old(mem), root, va / PGSIZE + m).v))
      ensures size > 0 ==> m <= (va + size - 1) / PGSIZE - va / PGSIZE + 1
      ensures r.Done? <==> size > 0 && m == (va + size - 1) / PGSIZE - va / PGSIZE + 1
      ensures r.NoMemory? ==> kmem.list == []
      ensures m > 0 ==> (va / PGSIZE + m - 1) * PGSIZE < MAXVA
      ensures forall vp: nat {:trigger Look(old(mem), root, vp)} :: va / PGSIZE <= vp < va / PGSIZE + m ==>
                !Look(old(mem), root, vp).v
    {
      hide Look, Uses, Count, Px, Listed, Counted, Grew, Spares, MappedRun, Spare, SameBut, SameMap, Tree, TablesOnce,
           Accounts, Planted, IsLeaf;
      node', m := node, 0;
      GrewRefl(kmem.end, mem, kmem.ref, node);
      RunNone(mem, root, va / PGSIZE, perm, pa);
      if size == 0 {
        return Panicked, m, node';
      }
      ghost var n := (va + size - 1) / PGSIZE - va / PGSIZE + 1;
      ghost var countable := Countable(root, va, size, pa, node);
      var a, last, at := RoundDown(va), RoundDown(va + size - 1), pa;
      r := Done;
      var more := true;
      while more
        invariant Valid() && Rooted(root, node') && Grew(kmem.end, old(mem), old(kmem.ref), node, mem, kmem.ref, node')
        invariant countable ==> Has(root, node') && (more ==> Spares(mem, root, node', kmem.end, kmem.ref, pa, m, n))
        invariant more ==> m < n && a == (va / PGSIZE + m) * PGSIZE && at == pa + m * PGSIZE && r.Done?
        invariant !more && r.Done? ==> m == n
        invariant !r.Done? ==> m < n && (r.NoMemory? ==> kmem.list == [])
        invariant r.Panicked? <==>
                    !r.Done? && ((va / PGSIZE + m) * PGSIZE >= MAXVA || Look(old(mem), root, va / PGSIZE + m).v)
        invariant m <= n && MappedRun(old(mem), mem, root, va / PGSIZE, m, perm, pa)
        invariant m > 0 ==> (va / PGSIZE + m - 1) * PGSIZE < MAXVA
        invariant forall vp: nat {:trigger Look(old(mem), root, vp)} :: va / PGSIZE <= vp < va / PGSIZE + m ==>
                    !Look(old(mem), root, vp).v
        decreases n - m, more
      {
        ghost var mem1, ref1, node1 := mem, kmem.ref, node';
        if countable {
          SpareNow(mem, root, node', kmem.end, kmem.ref, pa, m, n);
        }
        RunAt(old(mem), mem, root, va / PGSIZE, m, perm, pa);
        r, node' := MapOne(root, a, at, perm, node');
        GrewOn(kmem.end, old(mem), old(kmem.ref), node, mem1, ref1, node1, mem, kmem.ref, node');
        if r.Done? {
          assert a / PGSIZE == va / PGSIZE + m;
          RunOne(old(mem), mem1, mem, root, va / PGSIZE, m, perm, pa);
          if countable {
            SparesOn(kmem.end, mem1, ref1, node1, mem, kmem.ref, node', root, va / PGSIZE, perm, pa, m, n);
          }
          m := m + 1;
          more := a != last;
          a, at := a + PGSIZE, at + PGSIZE;
        } else {
          RunSame(old(mem), mem1, mem, root, va / PGSIZE, m, perm, pa);
          more := false;
        }
      }
    }

    /**
     A mapping of the kernel's own page table, of any memory at all: free pages, pages in use and
     page tables, this one's too. False where it panics, which is when memory has run out, or
     where mappages does.
     */
    method KvmMap(root: nat, va: nat, pa: nat, sz: nat, perm: Pte, ghost node: map<nat, Node>)
      returns (ok: bool, ghost node': map<nat, Node>)
      requires Valid() && Rooted(root, node) && IsLeaf(perm)
      modifies this, kmem
      ensures Valid() && Rooted(root, node') && Grew(kmem.end, old(mem), old(kmem.ref), node, mem, kmem.ref, node')
      ensures ok ==>
                0 < sz && MappedRun(old(mem), mem, root, va / PGSIZE, (va + sz - 1) / PGSIZE - va / PGSIZE + 1, perm,
                  pa)
      ensures !ok ==> sz == 0 || kmem.list == [] || exists vp: nat ::
                va / PGSIZE <= vp <= (va + sz - 1) / PGSIZE && (vp * PGSIZE >= MAXVA || Look(old(mem), root, vp).v)
    {
      hide Planted, Grew, MappedRun, Look, Kmem.Valid;
      var r;
      ghost var m;
      r, m, node' := MapPages(root, va, sz, pa, perm, node);
      ok := r.Done?;
    }

    /** One turn of uvmunmap; false where it panics. */
    method UnmapOne(root: nat, a: nat, doFree: bool, ghost node: map<nat, Node>) returns (ok: bool)
      requires Valid() && Rooted(root, node) && (doFree ==> Has(root, node))
      modifies this, kmem
      ensures Valid() && Rooted(root, node) && (old(Has(root, node)) ==> Has(root, node))
      ensures ok <==>
                a < MAXVA && Look(old(mem), root, a / PGSIZE).v
                  && (doFree ==> IsPage(kmem.end, Look(old(mem), root, a / PGSIZE).pa))
      ensures ok ==> Look(mem, root, a / PGSIZE) == NOPTE && SameBut(old(mem), mem, root, a / PGSIZE)
      ensures ok && !doFree ==> kmem.ref == old(kmem.ref)
      ensures ok && doFree ==> var pa := Look(old(mem), root, a / PGSIZE).pa;
                               && SameCounts(kmem.end, old(kmem.ref), kmem.ref, pa)
                               && Count(kmem.end, kmem.ref, pa) == Count(kmem.end, old(kmem.ref), pa) - 1
      ensures Wrote(kmem.end, old(mem), mem, kmem.ref, node)
      ensures !ok ==> mem == old(mem) && kmem.ref == old(kmem.ref)
    {
      hide Uses, Count, Px, Listed, Counted, Grew, Tree, Accounts, TablesOnce;
      var q;
      ghost var node';
      ok, q, node' := Walk(root, a, false, node);
      if !ok || q == 0 {
        return false;
      }
      var vp := a / PGSIZE;
      var e := mem[q][Px(0, vp)];
      assert e == Look(mem, root, vp);
      if !e.v {
        return false;
      }
      PlantedSet(mem, root, node, kmem.end, kmem.ref, vp, NOPTE);
      if old(Has(root, node)) {
        SpaceSet(mem, root, node, kmem.end, kmem.ref, vp, NOPTE);
      }
      ghost var mem1 := SetEntry(mem, q, Px(0, vp), NOPTE);
      if doFree {
        Unused(mem, mem1, root, node, kmem.end, kmem.ref, vp);
        ok := FreePage(e.pa);
        if !ok {
          return;
        }
        ghost var mem2 := SetEntry(mem, q, Px(0, vp), NOPTE);
        assert mem2 == if Count(kmem.end, kmem.ref, e.pa) == 0 then mem1[e.pa := FREED] else mem1;
        SpaceDrop(mem1, root, node, kmem.end, old(kmem.ref), e.pa, mem2, kmem.ref);
        DropKeeps(old(mem), mem1, mem2, root, vp);
        SpacePlanted(mem2, root, node, kmem.end, kmem.ref);
      }
      mem := mem[q := mem[q][Px(0, vp) := NOPTE]];
    }

    /** Removes npages mappings from va on, and with doFree a reference for each; false where it panics. */
    method UvmUnmap(root: nat, va: nat, npages: nat, doFree: bool, ghost node: map<nat, Node>) returns (ok: bool)
      requires Valid() && Rooted(root, node) && (doFree ==> Has(root, node))
      modifies this, kmem
      ensures Valid() && Rooted(root, node) && (old(Has(root, node)) ==> Has(root, node))
      ensures ok <==> va % PGSIZE == 0 && forall vp: nat {:trigger CanUnmap(old(mem), root, kmem.end, vp, doFree)} ::
                va / PGSIZE <= vp < va / PGSIZE + npages ==> CanUnmap(old(mem), root, kmem.end, vp, doFree)
      ensures ok ==> UnmappedRun(old(mem), mem, root, va / PGSIZE, va / PGSIZE + npages)
      ensures ok && !doFree ==> kmem.ref == old(kmem.ref)
      ensures ok && doFree ==>
                Released(kmem.end, old(kmem.ref), kmem.ref, old(mem), root, va / PGSIZE, va / PGSIZE + npages)
      ensures ok ==> Wrote(kmem.end, old(mem), mem, kmem.ref, node)
    {
      hide Look, Uses, Count, Px, Listed, Counted, Grew, Tree, Accounts, SameBut, UnmappedRun, Released, Wrote;
      ok := va % PGSIZE == 0;
      if !ok {
        return;
      }
      var a := va;
      ghost var lo, at := va / PGSIZE, va / PGSIZE;
      NothingYet(kmem.end, mem, kmem.ref, root, lo, node);
      while a < va + npages * PGSIZE && ok
        invariant Valid() && Rooted(root, node) && (old(Has(root, node)) ==> Has(root, node)) && a == at * PGSIZE
        invariant lo <= at <= lo + npages
        invariant UnmappedRun(old(mem), mem, root, lo, at) && Wrote(kmem.end, old(mem), mem, kmem.ref, node)
        invariant !doFree ==> kmem.ref == old(kmem.ref)
        invariant doFree ==> Released(kmem.end, old(kmem.ref), kmem.ref, old(mem), root, lo, at)
        invariant forall vp: nat {:trigger CanUnmap(old(mem), root, kmem.end, vp, doFree)} :: lo <= vp < at ==>
                    CanUnmap(old(mem), root, kmem.end, vp, doFree)
        invariant !ok ==> at < lo + npages && !CanUnmap(old(mem), root, kmem.end, at, doFree)
        decreases ok, va + npages * PGSIZE - a
      {
        ghost var mem1, ref1 := mem, kmem.ref;
        StillMapped(old(mem), mem, root, lo, at);
        assert a / PGSIZE == at;
        ok := UnmapOne(root, a, doFree, node);
        if ok {
          UnmapOn(old(mem), mem1, mem, root, lo, at);
          if doFree {
            ReleasedOn(kmem.end, old(kmem.ref), ref1, kmem.ref, old(mem), root, lo, at, Look(old(mem), root, at).pa);
          }
          FreeStays(kmem.end, old(kmem.ref), ref1, kmem.ref, if doFree then Look(old(mem), root, at).pa else 0);
          WroteOn(kmem.end, old(mem), mem1, mem, ref1, kmem.ref, node);
          a, at := a + PGSIZE, at + 1;
        }
      }
    }

    /** A page for the page table at root to map: zeroed, with one reference and no mapping. */
    method TakePage(root: nat, ghost node: map<nat, Node>) returns (pa: nat)
      requires Valid() && Has(root, node)
      modifies this, kmem
      ensures Valid() && Has(root, node) && |kmem.ref| == |old(kmem.ref)| && SameMap(old(mem), mem, root)
      ensures pa == 0 ==> mem == old(mem) && kmem.ref == old(kmem.ref) && OnlyFree(kmem.end, kmem.ref, 0)
      ensures pa != 0 ==>
                && IsPage(kmem.end, pa) && Count(kmem.end, old(kmem.ref), pa) == 0 && Count(kmem.end, kmem.ref, pa) == 1
                && SameCounts(kmem.end, old(kmem.ref), kmem.ref, pa) && pa !in node
                && pa in old(mem) && mem == old(mem)[pa := EMPTY] && Uses(mem, root, 0, TOP, pa) == 0
    {
      hide Uses, Count, Listed, Counted, Tree, Accounts, Look, OnlyFree;
      pa := AllocPage();
      if pa == 0 {
        AllTaken(kmem.end, kmem.freelist, kmem.next, kmem.list, kmem.place, kmem.ref, 0);
        return;
      }
      SpaceAlloc(old(mem), root, node, kmem.end, old(kmem.ref), pa, EMPTY, kmem.ref);
      mem := mem[pa := EMPTY];
      assert mem == old(mem)[pa := EMPTY];
      UsesSame(old(mem), mem, root, 0, TOP, pa);
    }

    /** One turn of uvmalloc: a page of its own for a, or a failure that leaves no trace but new tables. */
    method GrowOne(root: nat, a: nat, xperm: Pte, ghost node: map<nat, Node>)
      returns (r: Outcome, ghost spare: nat, ghost node': map<nat, Node>)
      requires Valid() && Has(root, node) && a % PGSIZE == 0
      modifies this, kmem
      ensures Valid() && Has(root, node') && Kept(node, node') && |kmem.ref| == |old(kmem.ref)|
      ensures r.Panicked? ==> a >= MAXVA || Look(old(mem), root, a / PGSIZE).v
      ensures r.Done? ==> a < MAXVA && !Look(old(mem), root, a / PGSIZE).v && SameBut(old(mem), mem, root, a / PGSIZE)
      ensures r.Done? ==> var pa := Look(mem, root, a / PGSIZE).pa;
                          && Blank(kmem.end, kmem.ref, mem, node', pa) && Count(kmem.end, old(kmem.ref), pa) == 0
                          && Look(mem, root, a / PGSIZE) == xperm.(v := true, r := true, u := true, pa := pa)
      ensures r.NoMemory? ==> SameMap(old(mem), mem, root) && OnlyFree(kmem.end, kmem.ref, spare)
      ensures Wrote(kmem.end, old(mem), mem, old(kmem.ref), node')
      ensures !r.Panicked? ==> forall b {:trigger Count(kmem.end, kmem.ref, b)} :: IsPage(kmem.end, b) ==>
                Count(kmem.end, kmem.ref, b) == Count(kmem.end, old(kmem.ref), b) + Bit(NewTable(node, node', b))
                                                + Bit(r.Done? && b == Look(mem, root, a / PGSIZE).pa)
    {
      hide Uses, Count, Px, Listed, Counted, Tree, Accounts, Look, TablesOnce, MappedRun, SameBut, Planted, OnlyFree,
           SameMap, Wrote;
      node', spare := node, 0;
      NothingYet(kmem.end, mem, kmem.ref, root, 0, node);
      var pa := TakePage(root, node);
      if pa == 0 {
        return NoMemory, 0, node';
      }
      ghost var mem1, ref1 := mem, kmem.ref;
      SameAt(old(mem), mem1, root, a);
      ghost var m;
      assert Nth(pa, 0) == pa && (a + PGSIZE - 1) / PGSIZE == a / PGSIZE;
      SpacePlanted(mem, root, node, kmem.end, kmem.ref);
      r, m, node' := MapPages(root, a, PGSIZE, pa, xperm.(r := true, u := true), node);
      ghost var ref2 := kmem.ref;
      GrowCounts(kmem.end, old(kmem.ref), mem1, ref1, node, mem, ref2, node', pa);
      GrewWrote(kmem.end, old(mem), old(kmem.ref), mem1, ref1, node, mem, ref2, node', pa);
      if r.Done? {
        RunIsOne(mem1, mem, root, a / PGSIZE, xperm.(r := true, u := true), pa);
        SameBoth(old(mem), mem1, mem, root, a / PGSIZE);
      } else if r.NoMemory? {
        RunIsNone(mem1, mem, root, a / PGSIZE, xperm.(r := true, u := true), pa);
        ghost var mem2 := mem;
        UsesSame(mem1, mem2, root, 0, TOP, pa);
        AllTaken(kmem.end, kmem.freelist, kmem.next, kmem.list, kmem.place, kmem.ref, pa);
        spare := pa;
        var ok := FreePage(pa);
        OneFree(kmem.end, ref2, kmem.ref, pa);
        SpaceDrop(mem2, root, node', kmem.end, ref2, pa, mem, kmem.ref);
        SameThrough(old(mem), mem1, mem2, mem, root);
        WroteFree(kmem.end, old(mem), mem2, mem, old(kmem.ref), node', pa);
      }
    }

    /** Shrinks a process; false where uvmunmap panics. */
    method UvmDealloc(root: nat, oldsz: nat, newsz: nat, ghost node: map<nat, Node>) returns (ok: bool, sz: nat)
      requires Valid() && Has(root, node)
      modifies this, kmem
      ensures Valid() && Has(root, node)
      ensures newsz >= oldsz ==> ok && sz == oldsz && mem == old(mem) && kmem.ref == old(kmem.ref)
      ensures newsz < oldsz ==> sz == newsz
      ensures ok <==> newsz >= oldsz || forall vp: nat {:trigger CanUnmap(old(mem), root, kmem.end, vp, true)} ::
                RoundUp(newsz) / PGSIZE <= vp < RoundUp(oldsz) / PGSIZE ==> CanUnmap(old(mem), root, kmem.end, vp, true)
      ensures newsz < oldsz && ok ==> UnmappedRun(old(mem), mem, root, RoundUp(newsz) / PGSIZE, RoundUp(oldsz) / PGSIZE)
      ensures newsz < oldsz && ok ==>
                Released(kmem.end, old(kmem.ref), kmem.ref, old(mem), root, RoundUp(newsz) / PGSIZE,
                  RoundUp(oldsz) / PGSIZE)
      ensures ok ==> Wrote(kmem.end, old(mem), mem, kmem.ref, node)
    {
      hide Look, Uses, Count, Listed, Counted, Tree, Accounts, UnmappedRun, Released, Wrote, CanUnmap;
      ok := true;
      NothingYet(kmem.end, mem, kmem.ref, root, RoundUp(newsz) / PGSIZE, node);
      if newsz >= oldsz {
        return true, oldsz;
      }
      if RoundUp(newsz) < RoundUp(oldsz) {
        var npages := (RoundUp(oldsz) - RoundUp(newsz)) / PGSIZE;
        SpacePlanted(mem, root, node, kmem.end, kmem.ref);
        ok := UvmUnmap(root, RoundUp(newsz), npages, true, node);
      }
      sz := newsz;
    }

    /**
     Grows a process from oldsz to newsz. When pages run out it fails, and undoes what it had
     mapped: the map is as before, every page it took for user memory is free again, and
     only tables remain.
     */
    method UvmAlloc(root: nat, oldsz: nat, newsz: nat, xperm: Pte, ghost node: map<nat, Node>)
      returns (r: Outcome, sz: nat, ghost node': map<nat, Node>)
      requires Valid() && Has(root, node)
      modifies this, kmem
      ensures Valid() && (!r.Panicked? ==> Has(root, node') && Kept(node, node'))
      ensures newsz >= oldsz && r.Done? ==> Room(old(mem), root, RoundUp(oldsz) / PGSIZE, RoundUp(newsz) / PGSIZE)
      ensures r.Panicked? ==>
                newsz >= oldsz && !Room(old(mem), root, RoundUp(oldsz) / PGSIZE, RoundUp(newsz) / PGSIZE)
      ensures newsz < oldsz ==> r.Done? && sz == oldsz && mem == old(mem) && kmem.ref == old(kmem.ref)
      ensures newsz >= oldsz && r.Done? ==>
                && sz == newsz
                && GrownRun(old(mem), mem, root, kmem.end, old(kmem.ref), RoundUp(oldsz) / PGSIZE,
                     RoundUp(newsz) / PGSIZE, xperm)
                && Gained(kmem.end, old(kmem.ref), kmem.ref, mem, root, RoundUp(oldsz) / PGSIZE,
                     RoundUp(newsz) / PGSIZE, node, node')
                && OwnPages(kmem.end, kmem.ref, mem, root, RoundUp(oldsz) / PGSIZE, RoundUp(newsz) / PGSIZE, node')
      ensures Wrote(kmem.end, old(mem), mem, old(kmem.ref), node')
      ensures r.NoMemory? ==> sz == 0 && SameMap(old(mem), mem, root)
      ensures r.NoMemory? ==> |kmem.list| <= RoundUp(newsz) / PGSIZE - RoundUp(oldsz) / PGSIZE
      ensures r.NoMemory? ==> forall pa {:trigger Count(kmem.end, kmem.ref, pa)} :: IsPage(kmem.end, pa) ==>
                Count(kmem.end, kmem.ref, pa) == Count(kmem.end, old(kmem.ref), pa) + Bit(NewTable(node, node', pa))
    {
      hide Look, Uses, Count, Listed, Counted, Tree, Accounts, UnmappedRun, Released, Wrote, Gained, GrownRun, Kept,
           SameMap, SameBut, OwnPages, OnlyFree, Frames, TablesOnce;
      node' := node;
      ghost var lo, hi := RoundUp(oldsz) / PGSIZE, RoundUp(newsz) / PGSIZE;
      GrownNone(mem, root, kmem.end, kmem.ref, lo, xperm, node);
      OwnNone(kmem.end, kmem.ref, mem, root, lo, node);
      NothingYet(kmem.end, mem, kmem.ref, root, lo, node);
      assert Vacant(mem, root, lo, lo);
      if newsz < oldsz {
        return Done, oldsz, node';
      }
      var start := RoundUp(oldsz);
      var a := start;
      ghost var at, spare := lo, 0;
      r := Done;
      while a < newsz && r.Done?
        invariant Valid() && Has(root, node') && Kept(node, node') && lo <= at <= hi && a == at * PGSIZE
        invariant |kmem.ref| == |old(kmem.ref)|
        invariant GrownRun(old(mem), mem, root, kmem.end, old(kmem.ref), lo, at, xperm)
        invariant Gained(kmem.end, old(kmem.ref), kmem.ref, mem, root, lo, at, node, node')
        invariant !r.Panicked? && Room(old(mem), root, lo, at)
        invariant r.Done? ==> OwnPages(kmem.end, kmem.ref, mem, root, lo, at, node')
        invariant Wrote(kmem.end, old(mem), mem, old(kmem.ref), node')
        invariant r.NoMemory? ==> at < hi && OnlyFree(kmem.end, kmem.ref, spare)
        decreases r.Done?, newsz - a
      {
        ghost var mem1, ref1, node1 := mem, kmem.ref, node';
        assert a / PGSIZE == at < hi;
        if a < MAXVA {
          NotYet(old(mem), mem, root, kmem.end, old(kmem.ref), lo, at, xperm);
        }
        r, spare, node' := GrowOne(root, a, xperm, node');
        OnlyGained(kmem.end, old(kmem.ref), ref1, mem1, root, lo, at, node, node1);
        WroteFrom(kmem.end, old(mem), mem1, mem, old(kmem.ref), ref1, node1, node');
        if r.Panicked? {
          NoRoom(old(mem), root, lo, at, hi);
          return Panicked, 0, node';
        }
        if r.Done? {
          StillFree(kmem.end, old(kmem.ref), ref1, mem1, root, lo, at, node, node1, Look(mem, root, at).pa);
          GrownOn(old(mem), mem1, mem, root, kmem.end, old(kmem.ref), lo, at, xperm);
          SpacePlanted(mem, root, node', kmem.end, kmem.ref);
          OwnOn(kmem.end, ref1, kmem.ref, mem1, mem, root, lo, at, node1, node');
          GainedOn(kmem.end, old(kmem.ref), ref1, kmem.ref, mem1, mem, root, lo, at, node, node1, node');
          a, at := a + PGSIZE, at + 1;
        } else {
          GrownStill(old(mem), mem1, mem, root, kmem.end, old(kmem.ref), lo, at, xperm);
          GainedStill(kmem.end, old(kmem.ref), ref1, kmem.ref, mem1, mem, root, lo, at, node, node1, node');
        }
      }
      if r.Done? {
        assert at == hi;
        return Done, newsz, node';
      }
      ghost var mem1, ref1 := mem, kmem.ref;
      AllUnmap(old(mem), mem, root, kmem.end, old(kmem.ref), lo, at, xperm);
      NothingYet(kmem.end, mem, kmem.ref, root, lo, node');
      var ok;
      ok, sz := UvmDealloc(root, a, start, node');
      RolledBack(old(mem), mem1, mem, root, kmem.end, old(kmem.ref), ref1, kmem.ref, lo, at, xperm, node, node', node);
      FreedAgain(kmem.end, ref1, kmem.ref, mem1, root, lo, at, spare);
      WroteFrom(kmem.end, old(mem), mem1, mem, old(kmem.ref), kmem.ref, node', node');
      FreeWithin(kmem.end, kmem.freelist, kmem.next, kmem.list, kmem.place, kmem.ref,
                 Frames(mem1, root, lo, at) + {spare});
      sz := 0;
    }

    /**
     Frees the table at p and every table below it, each once; false where it panics, which is when
     a page is still mapped.
     */
    method FreeWalk(p: nat, ghost root: nat, ghost node: map<nat, Node>) returns (ok: bool)
      requires Valid() && Tree(mem, root, node) && p in node && TablesOnce(kmem.end, kmem.ref, node)
      modifies this, kmem
      ensures Valid()
      ensures ok <==> NoLeaves(old(mem), node, node[p], ENTRIES)
      ensures ok ==> Gone(kmem.end, old(mem), old(kmem.ref), mem, kmem.ref, Whole(node, node[p]))
      decreases Height(node[p])
    {
      hide Count, Listed, Counted, Tree, NoLeaves, Prune, Part, Whole, Gone, Taking;
      ghost var n := node[p];
      TakingStart(kmem.end, mem, kmem.ref, root, node, p);
      var i := 0;
      ok := true;
      while i < ENTRIES && ok
        invariant 0 <= i <= ENTRIES && Valid()
        invariant ok ==>
                    Taking(kmem.end, old(mem), old(kmem.ref), mem, kmem.ref, root, node, p, i)
                      && NoLeaves(old(mem), node, n, i)
        invariant !ok ==> !NoLeaves(old(mem), node, n, ENTRIES)
      {
        TakingFacts(kmem.end, old(mem), old(kmem.ref), mem, kmem.ref, root, node, p, i);
        var pte := mem[p][i];
        if pte.v && !IsLeaf(pte) {
          ghost var mem1, ref1 := mem, kmem.ref;
          ok := FreeWalk(pte.pa, root, Prune(node, n, i));
          if ok {
            LeavesOn(kmem.end, old(mem), old(kmem.ref), mem1, ref1, root, node, p, i);
            TakingBranch(kmem.end, old(mem), old(kmem.ref), mem1, ref1, mem, kmem.ref, root, node, p, i);
            mem := mem[p := mem[p][i := NOPTE]];
          } else {
            LeafFound(kmem.end, old(mem), old(kmem.ref), mem1, ref1, root, node, p, i);
          }
        } else if pte.v {
          ok := false;
          LeafHere(old(mem), root, node, p, i);
        } else {
          TakingSkip(kmem.end, old(mem), old(kmem.ref), mem, kmem.ref, root, node, p, i);
        }
        i := i + 1;
      }
      if ok {
        ghost var mem1, ref1 := mem, kmem.ref;
        TakingEnd(kmem.end, old(mem), old(kmem.ref), mem, kmem.ref, root, node, p);
        var freed := FreePage(p);
        AllGone(kmem.end, old(mem), old(kmem.ref), mem1, ref1, mem, kmem.ref, root, node, p);
      }
    }

    /** Takes down a page table: the references of its user pages are given up, and every table is freed. */
    method UvmFree(root: nat, sz: nat, ghost node: map<nat, Node>) returns (ok: bool)
      requires Valid() && Has(root, node)
      modifies this, kmem
      ensures Valid()
      ensures ok <==>
                && (forall vp: nat {:trigger CanUnmap(old(mem), root, kmem.end, vp, true)} ::
                      vp < RoundUp(sz) / PGSIZE ==> CanUnmap(old(mem), root, kmem.end, vp, true))
                && forall vp: nat {:trigger Look(old(mem), root, vp)} :: RoundUp(sz) / PGSIZE <= vp < TOP ==>
                     !Look(old(mem), root, vp).v
      ensures ok ==> forall pa {:trigger Count(kmem.end, kmem.ref, pa)} :: IsPage(kmem.end, pa) ==>
                if pa in node then Count(kmem.end, kmem.ref, pa) == 0 else
                Count(kmem.end, kmem.ref, pa) + Uses(old(mem), root, 0, RoundUp(sz) / PGSIZE, pa) ==
                Count(kmem.end, old(kmem.ref), pa)
    {
      hide Look, Uses, Count, Listed, Counted, Tree, NoLeaves, UnmappedRun, Wrote, CanUnmap;
      ok := true;
      NoneUnmapped(mem, root, 0);
      NothingYet(kmem.end, mem, kmem.ref, root, 0, node);
      if sz > 0 {
        SpacePlanted(mem, root, node, kmem.end, kmem.ref);
        ok := UvmUnmap(root, 0, RoundUp(sz) / PGSIZE, true, node);
      }
      if ok {
        ghost var mem1, ref1 := mem, kmem.ref;
        forall q {:trigger q in node} | q in node ensures IsPage(kmem.end, q) && Count(kmem.end, kmem.ref, q) == 1 {
          assert Enough(kmem.end, kmem.ref, Uses(mem, root, 0, TOP, q), node, q);
        }
        RootThere(mem, root, node);
        NoLeavesIs(mem, root, node);
        OnlyAbove(old(mem), mem, root, RoundUp(sz) / PGSIZE);
        ok := FreeWalk(root, root, node);
        if ok {
          forall pa | IsPage(kmem.end, pa) ensures pa in Whole(node, node[root]) <==> pa in node {
          }
          forall pa | IsPage(kmem.end, pa)
            ensures if pa in node then Count(kmem.end, kmem.ref, pa) == 0 else
                    Count(kmem.end, kmem.ref, pa) + Uses(old(mem), root, 0, RoundUp(sz) / PGSIZE, pa) ==
                    Count(kmem.end, old(kmem.ref), pa)
          {
            var c := Count(kmem.end, ref1, pa);
          }
        }
      }
    }

    ghost predicate HasPair(a: nat, m: map<nat, Node>, b: nat, n: map<nat, Node>)
      reads this, kmem
    {
      Pair(mem, a, m, b, n, kmem.end, kmem.ref)
    }

    /** The part of a turn of uvmcopy that follows the walk: e, the entry of a page of a's, is mapped in b too. */
    method ShareOne(a: nat, b: nat, va: nat, e: Pte, ghost m: map<nat, Node>, ghost n: map<nat, Node>)
      returns (r: Outcome, ghost n': map<nat, Node>)
      requires Valid() && HasPair(a, m, b, n) && va % PGSIZE == 0 && va < MAXVA && e == Look(mem, a, va / PGSIZE) && e.v
      requires IsPage(kmem.end, e.pa) && (e.r || e.x) && Count(kmem.end, kmem.ref, e.pa) < UINT64 - 1
      modifies this, kmem
      ensures Valid() && |kmem.ref| == |old(kmem.ref)|
      ensures r.Panicked? <==> !r.NoMemory? && Look(old(mem), b, va / PGSIZE).v
      ensures !r.Panicked? ==> HasPair(a, m, b, n') && SameMap(old(mem), mem, a) && Kept(n, n')
      ensures !r.Panicked? ==> Wrote(kmem.end, old(mem), mem, old(kmem.ref), n')
      ensures r.Done? ==> Look(mem, b, va / PGSIZE) == Shared(e) && SameBut(old(mem), mem, b, va / PGSIZE)
      ensures r.NoMemory? ==> SameMap(old(mem), mem, b) && kmem.list == []
      ensures !r.Panicked? ==> forall c {:trigger Count(kmem.end, kmem.ref, c)} :: IsPage(kmem.end, c) ==>
                Count(kmem.end, kmem.ref, c) ==
                Count(kmem.end, old(kmem.ref), c) + Bit(r.Done? && c == e.pa) + Bit(NewTable(n, n', c))
    {
      hide Uses, Count, Px, Listed, Counted, Tree, Accounts, TablesOnce, Spares, Spare, MappedRun, SameMap, SameBut,
           Planted, Look, Grew, Wrote, Kept;
      SpacePlanted(mem, b, n, kmem.end, kmem.ref);
      var vp := va / PGSIZE;
      CanShare(mem, a, m, b, n, kmem.end, kmem.ref, vp);
      ghost var k;
      OneSpare(mem, b, n, kmem.end, kmem.ref, e.pa);
      assert (va + PGSIZE - 1) / PGSIZE == va / PGSIZE;
      r, k, n' := MapPages(b, va, PGSIZE, e.pa, Shared(e), n);
      IncKeeps(kmem.end, old(mem), old(kmem.ref), n, mem, kmem.ref, n', e.pa);
      if r.NoMemory? {
        RunIsNone(old(mem), mem, b, vp, Shared(e), e.pa);
        PairGrew(old(mem), a, m, b, n, kmem.end, old(kmem.ref), mem, kmem.ref, n');
      } else if r.Done? {
        RunIsOne(old(mem), mem, b, vp, Shared(e), e.pa);
        ghost var ref1 := kmem.ref;
        Increment(e.pa);
        PairShare(old(mem), a, m, b, n, kmem.end, old(kmem.ref), vp, mem, ref1, n', kmem.ref, e.pa);
      }
    }

    /** One turn of uvmcopy: page va of a is shared with b. */
    method CopyOne(a: nat, b: nat, va: nat, ghost m: map<nat, Node>, ghost n: map<nat, Node>)
      returns (r: Outcome, ghost n': map<nat, Node>)
      requires Valid() && HasPair(a, m, b, n) && va % PGSIZE == 0
      requires var e := Look(mem, a, va / PGSIZE); e.v ==>
                 IsPage(kmem.end, e.pa) && (e.r || e.x) && Count(kmem.end, kmem.ref, e.pa) < UINT64 - 1
      modifies this, kmem
      ensures Valid() && |kmem.ref| == |old(kmem.ref)|
      ensures r.Panicked? ==> !CanCopy(old(mem), a, b, va / PGSIZE)
      ensures r.Done? ==> CanCopy(old(mem), a, b, va / PGSIZE)
      ensures !r.Panicked? ==>
                HasPair(a, m, b, n') && SameMap(old(mem), mem, a) && Kept(n, n') && Look(old(mem), a, va / PGSIZE).v
      ensures !r.Panicked? ==> Wrote(kmem.end, old(mem), mem, old(kmem.ref), n')
      ensures r.Done? ==>
                Look(mem, b, va / PGSIZE) == Shared(Look(old(mem), a, va / PGSIZE))
                  && SameBut(old(mem), mem, b, va / PGSIZE)
      ensures r.NoMemory? ==> SameMap(old(mem), mem, b) && kmem.list == []
      ensures !r.Panicked? ==> forall c {:trigger Count(kmem.end, kmem.ref, c)} :: IsPage(kmem.end, c) ==>
                Count(kmem.end, kmem.ref, c) ==
                Count(kmem.end, old(kmem.ref), c) + Bit(r.Done? && c == Look(old(mem), a, va / PGSIZE).pa)
                + Bit(NewTable(n, n', c))
    {
      hide Uses, Count, Px, Listed, Counted, Tree, Accounts, TablesOnce, Spares, Spare, MappedRun, SameMap, SameBut,
           Planted;
      n' := n;
      var vp := va / PGSIZE;
      var ok, q;
      ghost var m';
      SpacePlanted(mem, a, m, kmem.end, kmem.ref);
      SpacePlanted(mem, b, n, kmem.end, kmem.ref);
      ok, q, m' := Walk(a, va, false, m);
      if !ok || q == 0 || !mem[q][Px(0, vp)].v {
        return Panicked, n';
      }
      var e := mem[q][Px(0, vp)];
      assert e == Look(mem, a, vp);
      r, n' := ShareOne(a, b, va, e, m, n);
    }

    method Increment(pa: nat)
      requires Valid() && IsPage(kmem.end, pa) && 0 < Count(kmem.end, kmem.ref, pa) < UINT64 - 1
      modifies kmem
      ensures Valid() && SameCounts(kmem.end, old(kmem.ref), kmem.ref, pa)
      ensures Count(kmem.end, kmem.ref, pa) == Count(kmem.end, old(kmem.ref), pa) + 1
    {
      hide Count, Listed, Counted;
      assert kmem.CountOf(pa) == Count(kmem.end, kmem.ref, pa);
      kmem.Inckref(pa);
      assert kmem.CountOf(pa) == Count(kmem.end, kmem.ref, pa);
      forall pb | IsPage(kmem.end, pb) && pb != pa
        ensures Count(kmem.end, kmem.ref, pb) == Count(kmem.end, old(kmem.ref), pb)
      {
        assert kmem.CountOf(pb) == old(kmem.CountOf(pb));
      }
    }

    /**
     fork's copy: the first sz bytes of a are shared with b. On success every page of a's has
     one reference more for each use of it; on failure maps and counts are as before, but for
     the tables that b has got.
     */
    method UvmCopy(a: nat, b: nat, sz: nat, ghost m: map<nat, Node>, ghost n: map<nat, Node>)
      returns (r: Outcome, ghost n': map<nat, Node>)
      requires Valid() && HasPair(a, m, b, n) && Modest(kmem.end, kmem.ref)
      requires forall vp: nat {:trigger Look(mem, a, vp)} :: vp < RoundUp(sz) / PGSIZE ==>
                 Sharable(kmem.end, Look(mem, a, vp))
      modifies this, kmem
      ensures Valid()
      ensures r.Panicked? ==> exists vp: nat :: vp < RoundUp(sz) / PGSIZE && !CanCopy(old(mem), a, b, vp)
      ensures r.Done? ==> forall vp: nat {:trigger CanCopy(old(mem), a, b, vp)} :: vp < RoundUp(sz) / PGSIZE ==>
                CanCopy(old(mem), a, b, vp)
      ensures !r.Panicked? ==> HasPair(a, m, b, n') && SameMap(old(mem), mem, a) && Kept(n, n')
      ensures !r.Panicked? ==> Wrote(kmem.end, old(mem), mem, old(kmem.ref), n')
      ensures r.Done? ==> Copied(old(mem), mem, a, b, RoundUp(sz) / PGSIZE)
      ensures r.Done? ==> CopyCounts(kmem.end, old(mem), old(kmem.ref), kmem.ref, a, RoundUp(sz) / PGSIZE, n, n')
      ensures r.NoMemory? ==> SameMap(old(mem), mem, b) && kmem.list == []
      ensures r.NoMemory? ==> forall pa {:trigger Count(kmem.end, kmem.ref, pa)} :: IsPage(kmem.end, pa) ==>
                Count(kmem.end, kmem.ref, pa) == Count(kmem.end, old(kmem.ref), pa) + Bit(NewTable(n, n', pa))
    {
      hide Look, Uses, Count, Px, Listed, Counted, Tree, Accounts, Space, Copied, CopyCounts, SameMap, SameBut, Kept,
           Modest, UnmappedRun, Released, Wrote;
      n' := n;
      ghost var at := 0;
      CopyNone(kmem.end, mem, kmem.ref, a, b, n);
      NothingYet(kmem.end, mem, kmem.ref, b, 0, n);
      var i := 0;
      r := Done;
      while i < sz && r.Done?
        invariant Valid() && i == at * PGSIZE && at <= RoundUp(sz) / PGSIZE && |kmem.ref| == |old(kmem.ref)|
        invariant !r.Panicked? ==> HasPair(a, m, b, n') && SameMap(old(mem), mem, a) && Kept(n, n')
        invariant !r.Panicked? ==> Copied(old(mem), mem, a, b, at) && Wrote(kmem.end, old(mem), mem, old(kmem.ref), n')
        invariant !r.Panicked? ==> CopyCounts(kmem.end, old(mem), old(kmem.ref), kmem.ref, a, at, n, n')
        invariant forall vp: nat {:trigger CanCopy(old(mem), a, b, vp)} :: vp < at ==> CanCopy(old(mem), a, b, vp)
        invariant r.Panicked? ==> at < RoundUp(sz) / PGSIZE && !CanCopy(old(mem), a, b, at)
        invariant !r.Panicked? ==> at * PGSIZE <= MAXVA
        invariant r.NoMemory? ==> kmem.list == []
        decreases r.Done?, sz - i
      {
        ghost var mem1, ref1, n1 := mem, kmem.ref, n';
        assert i / PGSIZE == at < RoundUp(sz) / PGSIZE;
        LookNow(old(mem), mem, a, b, at);
        if Look(mem, a, at).v {
          StillModest(kmem.end, old(mem), old(kmem.ref), kmem.ref, a, at, n, n', Look(mem, a, at).pa);
        }
        CopyOnlyGains(kmem.end, old(mem), old(kmem.ref), ref1, a, at, n, n1);
        r, n' := CopyOne(a, b, i, m, n');
        if !r.Panicked? {
          WroteFrom(kmem.end, old(mem), mem1, mem, old(kmem.ref), ref1, n1, n');
        }
        if r.Done? {
          SameTwice(old(mem), mem1, mem, a);
          CopiedOn(old(mem), mem1, mem, a, b, at);
          CopyCountsOn(kmem.end, old(mem), old(kmem.ref), ref1, kmem.ref, a, at, true, n, n1, n');
          i, at := i + PGSIZE, at + 1;
        } else if r.NoMemory? {
          SameTwice(old(mem), mem1, mem, a);
          CopiedStill(old(mem), mem1, mem, a, b, at);
          CopyCountsOn(kmem.end, old(mem), old(kmem.ref), ref1, kmem.ref, a, at, false, n, n1, n');
        }
      }
      if r.NoMemory? {
        ghost var mem1, ref1 := mem, kmem.ref;
        AllTaken(kmem.end, kmem.freelist, kmem.next, kmem.list, kmem.place, kmem.ref, 0);
        forall vp: nat | vp < at ensures Look(old(mem), a, vp).v && !Look(old(mem), b, vp).v {
          assert CanCopy(old(mem), a, b, vp);
        }
        CopiedUnmaps(old(mem), mem, a, b, kmem.end, at);
        SpacePlanted(mem, b, n', kmem.end, kmem.ref);
        var ok := UvmUnmap(b, 0, i / PGSIZE, true, n');
        CopyRolledBack(old(mem), mem1, mem, a, m, b, n, n', kmem.end, old(kmem.ref), ref1, kmem.ref, at);
        PairRolledBack(old(mem), mem1, mem, a, m, b, n, n', kmem.end, old(kmem.ref), ref1, kmem.ref);
        NoneFreed(old(mem), a, m, b, n, n', kmem.end, old(kmem.ref), ref1, kmem.ref, at);
        NoneListed(kmem.end, kmem.freelist, kmem.next, kmem.list, kmem.place, kmem.ref);
        NothingYet(kmem.end, mem, kmem.ref, b, 0, n');
        WroteFrom(kmem.end, old(mem), mem1, mem, old(kmem.ref), kmem.ref, n', n');
      }
    }
  }
}
