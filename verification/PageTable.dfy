/**
 Sv39 page tables as kernel/vm.c builds them, and the flat map from virtual pages to entries
 that they stand for.

 A table is a page of 512 entries, held in memory by the page's address. `node` records the
 tables of one page table and where in the tree each hangs.
 */
module PageTable {
  import opened Blocks
  import opened Kalloc

  const ENTRIES := 512
  const MAXVA := 0x40_0000_0000
  // Virtual pages that three levels of 512 entries can tell apart.
  const TOP := 0x800_0000

  /** An entry: the flags that the kernel knows, the four bits above them, and the page. */
  datatype Pte = Pte(v: bool, pa: nat, r: bool, w: bool, x: bool, u: bool, cow: bool, others: nat)

  const NOPTE := Pte(false, 0, false, false, false, false, false, 0)

  type Table = t: seq<Pte> | |t| == ENTRIES witness seq(ENTRIES, _ => NOPTE)

  const EMPTY: Table := seq(ENTRIES, _ => NOPTE)

  type Memory = map<nat, Table>

  /** An entry that maps a page, rather than naming a table below. */
  predicate IsLeaf(e: Pte) {
    e.r || e.w || e.x
  }

  // Entries as 64-bit words.

  function Encode(e: Pte): nat {
    e.pa / PGSIZE * 1024 + Bit(e.v) + 2 * Bit(e.r) + 4 * Bit(e.w) + 8 * Bit(e.x) + 16 * Bit(e.u) + 32 * Bit(e.cow)
    + 64 * e.others
  }

  function Decode(w: nat): Pte {
    Pte(w % 2 == 1, w / 1024 * PGSIZE, w / 2 % 2 == 1, w / 4 % 2 == 1, w / 8 % 2 == 1, w / 16 % 2 == 1, w / 32 % 2 == 1,
        w / 64 % 16)
  }

  lemma Halves(w: nat)
    ensures w / 2 / 2 == w / 4 && w / 4 / 2 == w / 8
  {
  }

  lemma LowOne(a: bool, rest: nat, w: nat)
    requires w == Bit(a) + 2 * rest
    ensures (w % 2 == 1 <==> a) && w / 2 == rest
  {
  }

  lemma LowThree(a: bool, b: bool, c: bool, rest: nat, w: nat)
    requires w == Bit(a) + 2 * Bit(b) + 4 * Bit(c) + 8 * rest
    ensures (w % 2 == 1 <==> a) && (w / 2 % 2 == 1 <==> b) && (w / 4 % 2 == 1 <==> c) && w / 8 == rest
  {
    LowOne(a, Bit(b) + 2 * Bit(c) + 4 * rest, w);
    LowOne(b, Bit(c) + 2 * rest, w / 2);
    LowOne(c, rest, w / 2 / 2);
    Halves(w);
  }

  /** What is left of an entry's word without its three lowest bits. */
  function Upper(e: Pte): nat {
    Bit(e.x) + 2 * Bit(e.u) + 4 * Bit(e.cow) + 8 * (e.others + 16 * (e.pa / PGSIZE))
  }

  lemma LowerBack(e: Pte, w: nat)
    requires w == Encode(e)
    ensures Decode(w).v == e.v && Decode(w).r == e.r && Decode(w).w == e.w && w / 8 == Upper(e)
  {
    LowThree(e.v, e.r, e.w, Upper(e), w);
  }

  lemma UpperBack(e: Pte, w: nat)
    requires w / 8 == Upper(e) && e.others < 16
    ensures Decode(w).x == e.x && Decode(w).u == e.u && Decode(w).cow == e.cow && Decode(w).others == e.others
    ensures w / 1024 == e.pa / PGSIZE
  {
    LowThree(e.x, e.u, e.cow, e.others + 16 * (e.pa / PGSIZE), Upper(e));
    Eighths(w);
    TopBits(w);
  }

  /** An entry and its word say the same: this way for every entry of a page... */
  lemma PteRoundTrip(e: Pte)
    requires e.pa % PGSIZE == 0 && e.others < 16
    ensures Decode(Encode(e)) == e
  {
    hide Encode, Upper;
    LowerBack(e, Encode(e));
    UpperBack(e, Encode(e));
    assert e.pa == e.pa / PGSIZE * PGSIZE;
  }

  lemma TopBits(w: nat)
    ensures w / 64 / 16 == w / 1024 && w / 64 == w / 64 % 16 + 16 * (w / 1024)
  {
  }

  /** A word is made of its bits. */
  lemma BitsMake(w: nat)
    ensures w == Bit(w % 2 == 1) + 2 * Bit(w / 2 % 2 == 1) + 4 * Bit(w / 4 % 2 == 1) + 8 * (w / 8)
  {
    Halves(w);
  }

  /** ... and that way for every word, so that a table may be taken as its entries. */
  lemma WordRoundTrip(w: nat)
    ensures Encode(Decode(w)) == w
  {
    BitsMake(w);
    BitsMake(w / 8);
    Eighths(w);
    TopBits(w);
  }

  lemma Eighths(w: nat)
    ensures w / 8 / 2 == w / 16 && w / 8 / 4 == w / 32 && w / 8 / 8 == w / 64 && w / 1024 * PGSIZE / PGSIZE == w / 1024
  {
  }

  // Walking.

  /** The 9 bits of a virtual page number that index a table of this level. */
  function Px(level: nat, vp: nat): (k: nat)
    ensures k < ENTRIES
  {
    if level == 2 then vp / 0x4_0000 % ENTRIES else if level == 1 then vp / ENTRIES % ENTRIES else vp % ENTRIES
  }

  /** A page number is made of its three indices. */
  lemma PxMakes(vp: nat)
    requires vp < TOP
    ensures vp == Px(2, vp) * 0x4_0000 + Px(1, vp) * ENTRIES + Px(0, vp)
  {
    var h := vp / ENTRIES;
    DivDivBy(vp);
    assert h == h / ENTRIES * ENTRIES + h % ENTRIES;
  }

  lemma DivDivBy(vp: nat)
    requires vp < TOP
    ensures vp / ENTRIES / ENTRIES == vp / 0x4_0000 < ENTRIES
  {
  }

  /** Three indices name one page. */
  lemma PxOwn(vp: nat, vq: nat)
    requires vp < TOP && vq < TOP && Px(2, vp) == Px(2, vq) && Px(1, vp) == Px(1, vq) && Px(0, vp) == Px(0, vq)
    ensures vp == vq
  {
    hide Px;
    PxMakes(vp);
    PxMakes(vq);
  }

  /** Every three indices are those of a page. */
  lemma PxOf(i: nat, j: nat, k: nat)
    requires i < ENTRIES && j < ENTRIES && k < ENTRIES
    ensures var vp := i * 0x4_0000 + j * ENTRIES + k; vp < TOP && Px(2, vp) == i && Px(1, vp) == j && Px(0, vp) == k
  {
    var vp := i * 0x4_0000 + j * ENTRIES + k;
    assert vp / 0x4_0000 == i;
    assert vp / ENTRIES == i * ENTRIES + j;
  }

  /** The page that entry k of the table at p names; 0 when there is none. */
  function Child(mem: Memory, p: nat, k: nat): nat {
    if p in mem && k < ENTRIES && mem[p][k].v then mem[p][k].pa else 0
  }

  /** The table of level 0 that has the entry of vp; 0 when there is none. */
  function Low(mem: Memory, root: nat, vp: nat): nat {
    Child(mem, Child(mem, root, Px(2, vp)), Px(1, vp))
  }

  /** The flat map. */
  function Look(mem: Memory, root: nat, vp: nat): Pte {
    var q := Low(mem, root, vp);
    if q in mem then mem[q][Px(0, vp)] else NOPTE
  }

  // The tree.

  datatype Node = Root | Mid(i: nat) | Last(i: nat, j: nat)

  function Below(n: Node, k: nat): Node {
    if n.Root? then Mid(k) else if n.Mid? then Last(n.i, k) else n
  }

  /**
   A valid entry of an upper table names the one table that hangs there; one of a last table maps a
   page. Others are 0.
   */
  predicate EntryOk(mem: Memory, node: map<nat, Node>, p: nat, k: nat) {
    p in node && p in mem && k < ENTRIES ==>
      if !mem[p][k].v then mem[p][k] == NOPTE
      else if node[p].Last? then IsLeaf(mem[p][k])
      else !IsLeaf(mem[p][k]) && mem[p][k].pa in node && node[mem[p][k].pa] == Below(node[p], k)
  }

  /** A table hangs where `node` says. */
  predicate HangsOk(mem: Memory, node: map<nat, Node>, root: nat, p: nat) {
    p in node ==>
      && p in mem && p != 0
      && match node[p]
         case Root => p == root
         case Mid(i) => i < ENTRIES && Child(mem, root, i) == p
         case Last(i, j) =>
           var m := Child(mem, root, i);
           i < ENTRIES && j < ENTRIES && m in node && node[m] == Mid(i) && Child(mem, m, j) == p
  }

  /** The tables form a tree of three levels, none of them in two places. */
  ghost predicate Tree(mem: Memory, root: nat, node: map<nat, Node>) {
    && root in node && node[root] == Root && 0 !in mem
    && (forall p, k {:trigger EntryOk(mem, node, p, k)} :: EntryOk(mem, node, p, k))
    && (forall p {:trigger HangsOk(mem, node, root, p)} :: HangsOk(mem, node, root, p))
  }

  /** A walk that gets to the bottom gets to the table that hangs there. */
  lemma LowIs(mem: Memory, root: nat, node: map<nat, Node>, vp: nat)
    requires Tree(mem, root, node)
    ensures var m := Child(mem, root, Px(2, vp)); m != 0 ==> m in node && node[m] == Mid(Px(2, vp))
    ensures var q := Low(mem, root, vp); q != 0 ==> q in node && q in mem && node[q] == Last(Px(2, vp), Px(1, vp))
  {
    var m := Child(mem, root, Px(2, vp));
    assert EntryOk(mem, node, root, Px(2, vp)) && HangsOk(mem, node, root, root);
    assert EntryOk(mem, node, m, Px(1, vp));
    assert HangsOk(mem, node, root, Low(mem, root, vp));
  }

  /** What is not mapped is 0. */
  lemma InvalidIsZero(mem: Memory, root: nat, node: map<nat, Node>, vp: nat)
    requires Tree(mem, root, node)
    ensures Look(mem, root, vp).v || Look(mem, root, vp) == NOPTE
  {
    LowIs(mem, root, node, vp);
    assert EntryOk(mem, node, Low(mem, root, vp), Px(0, vp));
  }

  function SetEntry(mem: Memory, p: nat, k: nat, e: Pte): Memory
    requires p in mem && k < ENTRIES
  {
    mem[p := mem[p][k := e]]
  }

  /** An entry of a last table is set: the map changes at that page alone. */
  lemma LookSetLeaf(mem: Memory, root: nat, node: map<nat, Node>, at: nat, e: Pte, vp: nat)
    requires Tree(mem, root, node) && at < TOP && vp < TOP && Low(mem, root, at) != 0 && Low(mem, root, at) in mem
    ensures Look(SetEntry(mem, Low(mem, root, at), Px(0, at), e), root, vp) == if vp == at then e
              else Look(mem, root, vp)
    ensures Low(SetEntry(mem, Low(mem, root, at), Px(0, at), e), root, vp) == Low(mem, root, vp)
  {
    hide Px;
    LowIs(mem, root, node, at);
    LowIs(mem, root, node, vp);
    var q := Low(mem, root, at);
    var mem' := SetEntry(mem, q, Px(0, at), e);
    var m := Child(mem, root, Px(2, vp));
    assert Child(mem', root, Px(2, vp)) == m;
    assert m != q;
    assert Child(mem', m, Px(1, vp)) == Child(mem, m, Px(1, vp));
    if vp != at && Low(mem, root, vp) == q && Px(0, vp) == Px(0, at) {
      PxOwn(vp, at);
    }
  }

  lemma TreeSetLeaf(mem: Memory, root: nat, node: map<nat, Node>, q: nat, k: nat, e: Pte)
    requires Tree(mem, root, node) && q in node && node[q].Last? && q in mem && k < ENTRIES
    requires if e.v then IsLeaf(e) else e == NOPTE
    ensures Tree(SetEntry(mem, q, k, e), root, node)
  {
    var mem' := SetEntry(mem, q, k, e);
    forall p, l ensures EntryOk(mem', node, p, l) {
      assert EntryOk(mem, node, p, l);
    }
    forall p ensures HangsOk(mem', node, root, p) {
      assert HangsOk(mem, node, root, p);
    }
  }

  ghost predicate SameTables(mem: Memory, mem': Memory, node: map<nat, Node>) {
    forall p {:trigger p in node} :: p in node ==> p in mem && p in mem' && mem'[p] == mem[p]
  }

  /** Memory outside the tree's own tables does not matter to it. */
  lemma TreeFrame(mem: Memory, mem': Memory, root: nat, node: map<nat, Node>)
    requires Tree(mem, root, node) && 0 !in mem' && SameTables(mem, mem', node)
    ensures Tree(mem', root, node)
  {
    assert HangsOk(mem, node, root, root);
    forall p, k ensures EntryOk(mem', node, p, k) {
      assert EntryOk(mem, node, p, k);
    }
    forall p ensures HangsOk(mem', node, root, p) {
      assert HangsOk(mem, node, root, p);
    }
  }

  lemma LookFrame(mem: Memory, mem': Memory, root: nat, node: map<nat, Node>, vp: nat)
    requires Tree(mem, root, node) && 0 !in mem' && SameTables(mem, mem', node)
    ensures Look(mem', root, vp) == Look(mem, root, vp) && Low(mem', root, vp) == Low(mem, root, vp)
  {
    hide Px;
    LowIs(mem, root, node, vp);
    var m := Child(mem, root, Px(2, vp));
    assert Child(mem', root, Px(2, vp)) == m;
  }

  function Name(f: nat): Pte {
    Pte(true, f, false, false, false, false, false, 0)
  }

  /** The entry that names a table is the page's number and the valid bit. */
  lemma NameWord(f: nat)
    ensures Encode(Name(f)) == f / PGSIZE * 1024 + 1
  {
  }

  /** A new, empty table is hung into a free entry of an upper table. */
  lemma TreeAdd(mem: Memory, root: nat, node: map<nat, Node>, p: nat, k: nat, f: nat)
    requires Tree(mem, root, node) && p in node && !node[p].Last? && p in mem && k < ENTRIES && !mem[p][k].v
    requires f !in node && f in mem && f != 0 && mem[f] == EMPTY
    ensures Tree(SetEntry(mem, p, k, Name(f)), root, node[f := Below(node[p], k)])
  {
    var mem', node' := SetEntry(mem, p, k, Name(f)), node[f := Below(node[p], k)];
    assert HangsOk(mem, node, root, p) && HangsOk(mem, node, root, root);
    forall q, l ensures EntryOk(mem', node', q, l) {
      assert EntryOk(mem, node, q, l);
    }
    forall q ensures HangsOk(mem', node', root, q) {
      assert HangsOk(mem, node, root, q);
    }
  }

  lemma LookAdd(mem: Memory, root: nat, node: map<nat, Node>, p: nat, k: nat, f: nat, vp: nat)
    requires Tree(mem, root, node) && p in node && !node[p].Last? && p in mem && k < ENTRIES && !mem[p][k].v
    requires f !in node && f in mem && f != 0 && mem[f] == EMPTY
    ensures Look(SetEntry(mem, p, k, Name(f)), root, vp) == Look(mem, root, vp)
    ensures Low(mem, root, vp) != 0 ==> Low(SetEntry(mem, p, k, Name(f)), root, vp) == Low(mem, root, vp)
  {
    hide Px;
    LowIs(mem, root, node, vp);
    var mem' := SetEntry(mem, p, k, Name(f));
    assert HangsOk(mem, node, root, p) && HangsOk(mem, node, root, root);
    var m, m' := Child(mem, root, Px(2, vp)), Child(mem', root, Px(2, vp));
    if m == 0 {
      assert m' == 0 || m' == f;
    } else {
      assert m' == m;
      var q, q' := Child(mem, m, Px(1, vp)), Child(mem', m, Px(1, vp));
      if q == 0 {
        assert q' == 0 || q' == f;
      } else {
        assert q' == q;
      }
    }
  }

  // Counting the uses of a page.

  predicate Maps(mem: Memory, root: nat, vp: nat, pa: nat) {
    Look(mem, root, vp).v && Look(mem, root, vp).pa == pa
  }

  /** How many of the virtual pages from lo to hi map pa. */
  function Uses(mem: Memory, root: nat, lo: nat, hi: nat, pa: nat): nat
    decreases hi
  {
    if hi <= lo then 0 else Uses(mem, root, lo, hi - 1, pa) + Bit(Maps(mem, root, hi - 1, pa))
  }

  lemma {:induction false} UsesFrame(mem: Memory, root: nat, mem': Memory, root': nat, lo: nat, hi: nat, pa: nat)
    requires forall vp {:trigger Maps(mem', root', vp, pa)} :: lo <= vp < hi ==>
               Maps(mem', root', vp, pa) == Maps(mem, root, vp, pa)
    ensures Uses(mem', root', lo, hi, pa) == Uses(mem, root, lo, hi, pa)
    decreases hi
  {
    hide Look;
    if hi > lo {
      UsesFrame(mem, root, mem', root', lo, hi - 1, pa);
    }
  }

  /** The map changes at one page. */
  lemma {:induction false} UsesSet(mem: Memory, mem': Memory, root: nat, lo: nat, hi: nat, at: nat, pa: nat)
    requires lo <= at < hi
    requires forall vp {:trigger Look(mem', root, vp)} :: lo <= vp < hi && vp != at ==>
               Look(mem', root, vp) == Look(mem, root, vp)
    ensures Uses(mem', root, lo, hi, pa)
              == Uses(mem, root, lo, hi, pa) - Bit(Maps(mem, root, at, pa)) + Bit(Maps(mem', root, at, pa))
    decreases hi
  {
    hide Look;
    if at == hi - 1 {
      forall vp | lo <= vp < hi - 1 ensures Maps(mem', root, vp, pa) == Maps(mem, root, vp, pa) {
        var e := Look(mem', root, vp);
      }
      UsesFrame(mem, root, mem', root, lo, hi - 1, pa);
    } else {
      UsesSet(mem, mem', root, lo, hi - 1, at, pa);
      var e := Look(mem', root, hi - 1);
    }
  }

  lemma {:induction false} UsesSplit(mem: Memory, root: nat, lo: nat, mid: nat, hi: nat, pa: nat)
    requires lo <= mid <= hi
    ensures Uses(mem, root, lo, hi, pa) == Uses(mem, root, lo, mid, pa) + Uses(mem, root, mid, hi, pa)
    decreases hi
  {
    hide Look;
    if hi > mid {
      UsesSplit(mem, root, lo, mid, hi - 1, pa);
    }
  }

  lemma {:induction false} UsesOne(mem: Memory, root: nat, lo: nat, hi: nat, at: nat, pa: nat)
    requires lo <= at < hi && Maps(mem, root, at, pa)
    ensures Uses(mem, root, lo, hi, pa) > 0
    decreases hi
  {
    hide Look;
    if at < hi - 1 {
      UsesOne(mem, root, lo, hi - 1, at, pa);
    }
  }

  ghost predicate SameMap(mem: Memory, mem': Memory, root: nat) {
    forall vp: nat {:trigger Look(mem', root, vp)} :: vp < TOP ==> Look(mem', root, vp) == Look(mem, root, vp)
  }

  lemma UsesSame(mem: Memory, mem': Memory, root: nat, lo: nat, hi: nat, pa: nat)
    requires SameMap(mem, mem', root) && hi <= TOP
    ensures Uses(mem', root, lo, hi, pa) == Uses(mem, root, lo, hi, pa)
  {
    hide Look;
    forall vp | lo <= vp < hi ensures Maps(mem', root, vp, pa) == Maps(mem, root, vp, pa) {
      var e := Look(mem', root, vp);
    }
    UsesFrame(mem, root, mem', root, lo, hi, pa);
  }

  /** Every page is counted for each use of it, and tables are counted once and mapped nowhere. */
  predicate Enough(end: nat, ref: seq<nat>, uses: nat, node: map<nat, Node>, pa: nat) {
    IsPage(end, pa) ==> uses + Bit(pa in node) <= Count(end, ref, pa) && (pa in node ==> Count(end, ref, pa) == 1)
  }

  ghost predicate Accounts(mem: Memory, root: nat, node: map<nat, Node>, end: nat, ref: seq<nat>) {
    && (forall p {:trigger p in node} :: p in node ==> IsPage(end, p))
    && (forall pa {:trigger Enough(end, ref, Uses(mem, root, 0, TOP, pa), node, pa)} ::
          Enough(end, ref, Uses(mem, root, 0, TOP, pa), node, pa))
  }

  /** Tables are pages with one reference. */
  ghost predicate TablesOnce(end: nat, ref: seq<nat>, node: map<nat, Node>) {
    forall q {:trigger q in node} :: q in node ==> IsPage(end, q) && Count(end, ref, q) == 1
  }

  /** A page table in memory, whatever it maps: its tables are a tree, of pages that are counted for it alone. */
  ghost predicate Planted(mem: Memory, root: nat, node: map<nat, Node>, end: nat, ref: seq<nat>) {
    && KernelEnd(end) && |ref| == NREF
    && (forall pa {:trigger IsPage(end, pa)} :: IsPage(end, pa) ==> pa in mem)
    && Tree(mem, root, node) && TablesOnce(end, ref, node)
  }

  /** A page table the pages of which are counted too, for each use of them. */
  ghost predicate Space(mem: Memory, root: nat, node: map<nat, Node>, end: nat, ref: seq<nat>) {
    && KernelEnd(end) && |ref| == NREF
    && (forall pa {:trigger IsPage(end, pa)} :: IsPage(end, pa) ==> pa in mem)
    && Tree(mem, root, node) && Accounts(mem, root, node, end, ref)
  }

  ghost predicate SameCounts(end: nat, ref: seq<nat>, ref': seq<nat>, but: nat) {
    |ref'| == |ref| && forall pa {:trigger Count(end, ref', pa)} :: IsPage(end, pa) && pa != but ==>
      Count(end, ref', pa) == Count(end, ref, pa)
  }

  lemma SpacePlanted(mem: Memory, root: nat, node: map<nat, Node>, end: nat, ref: seq<nat>)
    requires Space(mem, root, node, end, ref)
    ensures Planted(mem, root, node, end, ref)
  {
    hide Look, Uses, Count, Tree;
    forall q {:trigger q in node} | q in node ensures IsPage(end, q) && Count(end, ref, q) == 1 {
      assert Enough(end, ref, Uses(mem, root, 0, TOP, q), node, q);
    }
  }

  /** A free page is no table; taking it and writing into it changes nothing here. */
  lemma PlantedAlloc(mem: Memory, root: nat, node: map<nat, Node>, end: nat, ref: seq<nat>, f: nat, t: Table,
                     ref': seq<nat>)
    requires Planted(mem, root, node, end, ref) && IsPage(end, f) && Count(end, ref, f) == 0
    requires SameCounts(end, ref, ref', f)
    ensures f !in node && Planted(mem[f := t], root, node, end, ref') && SameMap(mem, mem[f := t], root)
  {
    hide Look, Count;
    var mem' := mem[f := t];
    forall p {:trigger p in node} | p in node ensures p in mem && IsPage(end, p) && Count(end, ref', p) == 1 {
      assert HangsOk(mem, node, root, p);
    }
    TreeFrame(mem, mem', root, node);
    forall vp: nat ensures Look(mem', root, vp) == Look(mem, root, vp) {
      LookFrame(mem, mem', root, node, vp);
    }
  }

  lemma SpaceAlloc(mem: Memory, root: nat, node: map<nat, Node>, end: nat, ref: seq<nat>, f: nat, t: Table,
                   ref': seq<nat>)
    requires Space(mem, root, node, end, ref) && IsPage(end, f) && Count(end, ref, f) == 0
    requires SameCounts(end, ref, ref', f)
    ensures f !in node && Uses(mem, root, 0, TOP, f) == 0
    ensures Space(mem[f := t], root, node, end, ref') && SameMap(mem, mem[f := t], root)
  {
    hide Look, Uses, Count, Tree;
    assert Enough(end, ref, Uses(mem, root, 0, TOP, f), node, f);
    var mem' := mem[f := t];
    SpacePlanted(mem, root, node, end, ref);
    PlantedAlloc(mem, root, node, end, ref, f, t, ref');
    forall pa ensures Enough(end, ref', Uses(mem', root, 0, TOP, pa), node, pa) {
      UsesSame(mem, mem', root, 0, TOP, pa);
      assert Enough(end, ref, Uses(mem, root, 0, TOP, pa), node, pa);
    }
  }

  /** The new table is hung into the tree. */
  lemma PlantedAdd(mem: Memory, root: nat, node: map<nat, Node>, end: nat, ref: seq<nat>, p: nat, k: nat, f: nat)
    requires Planted(mem, root, node, end, ref) && p in node && !node[p].Last? && p in mem && k < ENTRIES
    requires !mem[p][k].v
    requires f !in node && IsPage(end, f) && f in mem && mem[f] == EMPTY && Count(end, ref, f) == 1
    ensures var mem' := SetEntry(mem, p, k, Name(f));
            Planted(mem', root, node[f := Below(node[p], k)], end, ref) && SameMap(mem, mem', root)
  {
    hide Look, Count;
    var mem' := SetEntry(mem, p, k, Name(f));
    TreeAdd(mem, root, node, p, k, f);
    forall vp: nat ensures Look(mem', root, vp) == Look(mem, root, vp) {
      LookAdd(mem, root, node, p, k, f, vp);
    }
  }

  lemma SpaceAdd(mem: Memory, root: nat, node: map<nat, Node>, end: nat, ref: seq<nat>, p: nat, k: nat, f: nat)
    requires Space(mem, root, node, end, ref) && p in node && !node[p].Last? && p in mem && k < ENTRIES && !mem[p][k].v
    requires f !in node && IsPage(end, f) && f in mem && mem[f] == EMPTY && Count(end, ref, f) == 1
    requires Uses(mem, root, 0, TOP, f) == 0
    ensures var mem' := SetEntry(mem, p, k, Name(f));
            Space(mem', root, node[f := Below(node[p], k)], end, ref) && SameMap(mem, mem', root)
  {
    hide Look, Uses, Count, Tree;
    var mem', node' := SetEntry(mem, p, k, Name(f)), node[f := Below(node[p], k)];
    SpacePlanted(mem, root, node, end, ref);
    PlantedAdd(mem, root, node, end, ref, p, k, f);
    forall pa ensures Enough(end, ref, Uses(mem', root, 0, TOP, pa), node', pa) {
      UsesSame(mem, mem', root, 0, TOP, pa);
      assert Enough(end, ref, Uses(mem, root, 0, TOP, pa), node, pa);
    }
  }

  /** The map changes at one page and nowhere else, whatever is mapped there. */
  lemma PlantedSet(mem: Memory, root: nat, node: map<nat, Node>, end: nat, ref: seq<nat>, at: nat, e: Pte)
    requires Planted(mem, root, node, end, ref) && at < TOP && Low(mem, root, at) != 0
    requires if e.v then IsLeaf(e) else e == NOPTE
    ensures Low(mem, root, at) in mem && Low(mem, root, at) in node
    ensures var mem' := SetEntry(mem, Low(mem, root, at), Px(0, at), e);
            && Planted(mem', root, node, end, ref) && Look(mem', root, at) == e
            && forall vp: nat {:trigger Look(mem', root, vp)} :: vp < TOP && vp != at ==>
                 Look(mem', root, vp) == Look(mem, root, vp)
  {
    hide Look, Count, Px, Low;
    LowIs(mem, root, node, at);
    var q := Low(mem, root, at);
    var mem' := SetEntry(mem, q, Px(0, at), e);
    TreeSetLeaf(mem, root, node, q, Px(0, at), e);
    LookSetLeaf(mem, root, node, at, e, at);
    forall vp: nat | vp < TOP && vp != at ensures Look(mem', root, vp) == Look(mem, root, vp) {
      LookSetLeaf(mem, root, node, at, e, vp);
    }
  }

  /** The map changes at one page, to a page that has a count to spare or to none. */
  lemma SpaceSet(mem: Memory, root: nat, node: map<nat, Node>, end: nat, ref: seq<nat>, at: nat, e: Pte)
    requires Space(mem, root, node, end, ref) && at < TOP && Low(mem, root, at) != 0
    requires if e.v then IsLeaf(e) else e == NOPTE
    requires e.v && IsPage(end, e.pa) ==> e.pa !in node && Uses(mem, root, 0, TOP, e.pa) < Count(end, ref, e.pa)
    ensures Low(mem, root, at) in mem && Low(mem, root, at) in node
    ensures var mem' := SetEntry(mem, Low(mem, root, at), Px(0, at), e);
            && Space(mem', root, node, end, ref) && Look(mem', root, at) == e
            && forall vp: nat {:trigger Look(mem', root, vp)} :: vp < TOP && vp != at ==>
                 Look(mem', root, vp) == Look(mem, root, vp)
  {
    hide Look, Uses, Count, Px, Low, Tree;
    SpacePlanted(mem, root, node, end, ref);
    PlantedSet(mem, root, node, end, ref, at, e);
    var mem' := SetEntry(mem, Low(mem, root, at), Px(0, at), e);
    forall pa ensures Enough(end, ref, Uses(mem', root, 0, TOP, pa), node, pa) {
      UsesSet(mem, mem', root, 0, TOP, at, pa);
      assert Enough(end, ref, Uses(mem, root, 0, TOP, pa), node, pa);
    }
  }

  /** A reference beyond the uses is given up; the page itself may be overwritten. */
  lemma SpaceDrop(mem: Memory, root: nat, node: map<nat, Node>, end: nat, ref: seq<nat>, pa: nat, mem': Memory,
                  ref': seq<nat>)
    requires Space(mem, root, node, end, ref) && IsPage(end, pa) && Uses(mem, root, 0, TOP, pa) < Count(end, ref, pa)
    requires pa !in node
    requires SameCounts(end, ref, ref', pa) && Count(end, ref', pa) == Count(end, ref, pa) - 1
    requires pa in mem' && mem' == mem[pa := mem'[pa]]
    ensures Space(mem', root, node, end, ref') && SameMap(mem, mem', root)
  {
    hide Look, Uses, Count;
    forall p {:trigger p in node} | p in node ensures p in mem {
      assert HangsOk(mem, node, root, p);
    }
    TreeFrame(mem, mem', root, node);
    forall vp: nat ensures Look(mem', root, vp) == Look(mem, root, vp) {
      LookFrame(mem, mem', root, node, vp);
    }
    forall b ensures Enough(end, ref', Uses(mem', root, 0, TOP, b), node, b) {
      UsesSame(mem, mem', root, 0, TOP, b);
      assert Enough(end, ref, Uses(mem, root, 0, TOP, b), node, b);
    }
  }

  /** The tree has grown by tables made of pages that were free; nothing else has changed. */
  ghost predicate Grew(end: nat, mem: Memory, ref: seq<nat>, node: map<nat, Node>, mem': Memory, ref': seq<nat>,
                       node': map<nat, Node>) {
    && (forall p {:trigger p in node} :: p in node ==> p in node' && node'[p] == node[p])
    && (forall p {:trigger p in node'} :: p in node' && p !in node ==>
         IsPage(end, p) && Count(end, ref, p) == 0 && Count(end, ref', p) == 1)
    && |ref'| == |ref|
    && (forall pa {:trigger Count(end, ref', pa)} :: IsPage(end, pa) && (pa in node' ==> pa in node) ==>
         Count(end, ref', pa) == Count(end, ref, pa))
    && mem'.Keys == mem.Keys
    && (forall p {:trigger mem'[p]} :: p in mem && p !in node' ==> p in mem' && mem'[p] == mem[p])
  }

  lemma GrewOn(end: nat, mem: Memory, ref: seq<nat>, node: map<nat, Node>, mem': Memory, ref': seq<nat>,
               node': map<nat, Node>,
               mem'': Memory, ref'': seq<nat>, node'': map<nat, Node>)
    requires Grew(end, mem, ref, node, mem', ref', node') && Grew(end, mem', ref', node', mem'', ref'', node'')
    ensures Grew(end, mem, ref, node, mem'', ref'', node'')
  {
    hide Count;
    forall p | p in mem && p !in node'' ensures p in mem'' && mem''[p] == mem[p] {
      assert p in mem'.Keys;
      assert p in node' ==> p in node'';
      assert mem'[p] == mem[p];
    }
    forall pa | IsPage(end, pa) && (pa in node'' ==> pa in node) ensures Count(end, ref'', pa) == Count(end, ref, pa) {
      assert pa in node ==> pa in node';
      assert pa in node' ==> pa in node'';
      assert Count(end, ref', pa) == Count(end, ref, pa);
    }
    forall p {:trigger p in node''} | p in node'' && p !in node
      ensures IsPage(end, p) && Count(end, ref, p) == 0 && Count(end, ref'', p) == 1
    {
      if p in node' {
        assert Count(end, ref'', p) == Count(end, ref', p);
      } else {
        assert Count(end, ref', p) == Count(end, ref, p);
      }
    }
  }
}
