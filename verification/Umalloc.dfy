/**
 The allocator of user/umalloc.c: a circular free list in address order, coalesced on free,
 searched first-fit on malloc, grown by sbrk.

 Addresses are in bytes; a block is a header of UNIT bytes and the memory after it, and its
 size counts units, the header's included. Header fields are read and written through
 addresses. sbrk is the environment's: a call is given what it would answer.
 */
module Umalloc {
  const UNIT := 16
  const UINT := 0x1_0000_0000
  const NULL := 0
  // Memory is never obtained at or beyond this address.
  const LIMIT := 0x10_0000_0000

  datatype Header = Header(ptr: int, size: nat)

  type Memory = map<int, Header>

  function End(hdr: Memory, a: int): int
    requires a in hdr
  {
    a + UNIT * hdr[a].size
  }

  // The free list, as the sequence of its blocks from `base` up.

  function After(n: nat, i: nat): nat {
    if i + 1 < n then i + 1 else 0
  }

  predicate Linked(hdr: Memory, fl: seq<int>, i: nat)
    requires i < |fl|
  {
    fl[i] in hdr && hdr[fl[i]].ptr == fl[After(|fl|, i)]
  }

  /** Blocks in address order from `base`, none empty but `base`, none touching the next; `gap` excepts one pair. */
  ghost predicate Ordered(hdr: Memory, fl: seq<int>, base: int, gap: int) {
    && |fl| > 0 && fl[0] == base
    && (forall i {:trigger fl[i]} :: 0 <= i < |fl| ==> fl[i] in hdr && (hdr[fl[i]].size > 0 <==> i > 0))
    && (forall i, j {:trigger fl[i], fl[j]} :: 0 <= i < j < |fl| ==>
          if i == gap && j == gap + 1 then End(hdr, fl[i]) <= fl[j] && fl[i] < fl[j] else End(hdr, fl[i]) < fl[j])
  }

  /** One circle, in address order with a single wrap at its end, and no two blocks touching. */
  ghost predicate Ring(hdr: Memory, fl: seq<int>, base: int) {
    && Ordered(hdr, fl, base, -1)
    && (forall i {:trigger Linked(hdr, fl, i)} :: 0 <= i < |fl| ==> Linked(hdr, fl, i))
  }

  /** The same, but that block k does not link to block k + 1 yet, and may touch it. */
  ghost predicate RingBut(hdr: Memory, fl: seq<int>, base: int, k: nat) {
    && k + 1 < |fl| && Ordered(hdr, fl, base, k)
    && (forall i {:trigger Linked(hdr, fl, i)} :: 0 <= i < |fl| && i != k ==> Linked(hdr, fl, i))
  }

  /** Two blocks share no memory. */
  predicate Apart(hdr: Memory, a: int, b: int) {
    a in hdr && b in hdr && (End(hdr, a) <= b || End(hdr, b) <= a)
  }

  /** The live blocks lie within the memory obtained and share none of it, with each other or with free blocks. */
  ghost predicate Lives(hdr: Memory, fl: seq<int>, lv: seq<int>, lo: int, hi: int) {
    && (forall i {:trigger fl[i]} :: 0 < i < |fl| ==> lo <= fl[i] && fl[i] in hdr && End(hdr, fl[i]) <= hi)
    && (forall j {:trigger lv[j]} :: 0 <= j < |lv| ==>
         lo <= lv[j] && lv[j] in hdr && hdr[lv[j]].size > 0 && End(hdr, lv[j]) <= hi)
    && (forall i, j {:trigger lv[i], lv[j]} :: 0 <= i < j < |lv| ==> Apart(hdr, lv[i], lv[j]))
    && (forall i, j {:trigger fl[i], lv[j]} :: 0 < i < |fl| && 0 <= j < |lv| ==> Apart(hdr, fl[i], lv[j]))
  }

  // Units.

  function Size(hdr: Memory, a: int): nat {
    if a in hdr then hdr[a].size else 0
  }

  function Units(hdr: Memory, s: seq<int>): nat {
    if s == [] then 0 else Units(hdr, s[..|s| - 1]) + Size(hdr, s[|s| - 1])
  }

  lemma {:induction false} UnitsFrame(hdr: Memory, hdr': Memory, s: seq<int>)
    requires forall i :: 0 <= i < |s| ==> Size(hdr', s[i]) == Size(hdr, s[i])
    ensures Units(hdr', s) == Units(hdr, s)
  {
    if s != [] {
      UnitsFrame(hdr, hdr', s[..|s| - 1]);
    }
  }

  lemma {:induction false} UnitsInsert(hdr: Memory, s: seq<int>, k: nat, a: int)
    requires k <= |s|
    ensures Units(hdr, s[..k] + [a] + s[k..]) == Units(hdr, s) + Size(hdr, a)
    decreases |s|
  {
    var t := s[..k] + [a] + s[k..];
    if k == |s| {
      assert t[..|t| - 1] == s;
    } else {
      assert t[..|t| - 1] == s[..|s| - 1][..k] + [a] + s[..|s| - 1][k..];
      UnitsInsert(hdr, s[..|s| - 1], k, a);
    }
  }

  lemma UnitsRemove(hdr: Memory, s: seq<int>, k: nat)
    requires k < |s|
    ensures Units(hdr, s) == Units(hdr, s[..k] + s[k + 1..]) + Size(hdr, s[k])
  {
    var t := s[..k] + s[k + 1..];
    assert t[..k] + [s[k]] + t[k..] == s;
    UnitsInsert(hdr, t, k, s[k]);
  }

  /** A block that is neither on the free list nor live, and shares no memory with those that are. */
  ghost predicate Loose(hdr: Memory, fl: seq<int>, lv: seq<int>, bp: int, lo: int, hi: int) {
    && lo <= bp && bp in hdr && hdr[bp].size > 0 && End(hdr, bp) <= hi
    && (forall i {:trigger fl[i]} :: 0 < i < |fl| ==> Apart(hdr, fl[i], bp))
    && (forall j {:trigger lv[j]} :: 0 <= j < |lv| ==> Apart(hdr, lv[j], bp))
  }

  /** Where bp belongs: after block k and before the next, if there is one. */
  predicate Between(fl: seq<int>, k: nat, bp: int) {
    k < |fl| && fl[k] < bp && (k + 1 < |fl| ==> bp < fl[k + 1])
  }

  function Plus(a: nat, b: nat): nat {
    (a + b) % UINT
  }

  function Insert(fl: seq<int>, k: nat, bp: int): (r: seq<int>)
    requires k < |fl|
    ensures |r| == |fl| + 1 && r[k + 1] == bp
    ensures forall i {:trigger r[i]} :: 0 <= i <= k ==> r[i] == fl[i]
    ensures forall i {:trigger r[i]} :: k + 1 < i < |r| ==> r[i] == fl[i - 1]
  {
    fl[..k + 1] + [bp] + fl[k + 1..]
  }

  function Remove(fl: seq<int>, k: nat): (r: seq<int>)
    requires k < |fl|
    ensures |r| == |fl| - 1
    ensures forall i {:trigger r[i]} :: 0 <= i < k ==> r[i] == fl[i]
    ensures forall i {:trigger r[i]} :: k <= i < |r| ==> r[i] == fl[i + 1]
  {
    fl[..k] + fl[k + 1..]
  }

  lemma OrderedInsert(hdr: Memory, fl: seq<int>, base: int, k: nat, bp: int, hdr': Memory)
    requires Ordered(hdr, fl, base, -1) && Between(fl, k, bp) && bp in hdr && hdr[bp].size > 0 && base < bp
    requires End(hdr, fl[k]) <= bp && (k + 1 < |fl| ==> End(hdr, bp) < fl[k + 1])
    requires hdr' == hdr[bp := Header(hdr[fl[k]].ptr, hdr[bp].size)]
    ensures Ordered(hdr', Insert(fl, k, bp), base, k)
  {
  }

  lemma LinksInsert(hdr: Memory, fl: seq<int>, k: nat, bp: int, hdr': Memory)
    requires k < |fl| && bp in hdr && (forall i {:trigger fl[i]} :: 0 <= i < |fl| ==> fl[i] != bp)
    requires forall i {:trigger Linked(hdr, fl, i)} :: 0 <= i < |fl| ==> Linked(hdr, fl, i)
    requires fl[k] in hdr && hdr' == hdr[bp := Header(hdr[fl[k]].ptr, hdr[bp].size)]
    ensures forall i {:trigger Linked(hdr', Insert(fl, k, bp), i)} :: 0 <= i <= |fl| && i != k ==>
              Linked(hdr', Insert(fl, k, bp), i)
  {
    var fl' := Insert(fl, k, bp);
    forall i | 0 <= i < |fl'| && i != k ensures Linked(hdr', fl', i) {
      var was := if i <= k then i else i - 1;
      assert Linked(hdr, fl, was) && Linked(hdr, fl, k);
    }
  }

  lemma LivesInsert(hdr: Memory, fl: seq<int>, lv: seq<int>, lo: int, hi: int, k: nat, bp: int, hdr': Memory)
    requires Lives(hdr, fl, lv, lo, hi) && Loose(hdr, fl, lv, bp, lo, hi) && k < |fl| && fl[k] in hdr
    requires hdr' == hdr[bp := Header(hdr[fl[k]].ptr, hdr[bp].size)]
    ensures Lives(hdr', Insert(fl, k, bp), lv, lo, hi)
  {
  }

  lemma UnitsLinked(hdr: Memory, fl: seq<int>, lv: seq<int>, k: nat, bp: int, hdr': Memory)
    requires k < |fl| && bp in hdr && bp in hdr' && hdr' == hdr[bp := hdr'[bp]] && hdr'[bp].size == hdr[bp].size
    ensures Units(hdr', Insert(fl, k, bp)) == Units(hdr, fl) + hdr[bp].size && Units(hdr', lv) == Units(hdr, lv)
  {
    assert Insert(fl, k, bp) == fl[..k + 1] + [bp] + fl[k + 1..];
    UnitsInsert(hdr', fl, k + 1, bp);
    UnitsFrame(hdr, hdr', fl);
    UnitsFrame(hdr, hdr', lv);
  }

  /** A loose block lies clear of the blocks before and after it. */
  lemma Clear(hdr: Memory, fl: seq<int>, lv: seq<int>, base: int, lo: int, hi: int, k: nat, bp: int)
    requires Ordered(hdr, fl, base, -1) && Loose(hdr, fl, lv, bp, lo, hi) && base < lo && Between(fl, k, bp)
    ensures End(hdr, fl[k]) <= bp && (k + 1 < |fl| ==> End(hdr, bp) <= fl[k + 1])
    ensures forall i {:trigger fl[i]} :: 0 <= i < |fl| ==> fl[i] != bp
  {
    assert k > 0 ==> Apart(hdr, fl[k], bp);
    assert k + 1 < |fl| ==> Apart(hdr, fl[k + 1], bp);
  }

  /** free, first half: bp links to the block after it. */
  lemma LinkNext(hdr: Memory, fl: seq<int>, lv: seq<int>, base: int, lo: int, hi: int, k: nat, bp: int, hdr': Memory)
    requires Ring(hdr, fl, base) && Lives(hdr, fl, lv, lo, hi) && Loose(hdr, fl, lv, bp, lo, hi) && base < lo
    requires Between(fl, k, bp) && (k + 1 < |fl| ==> End(hdr, bp) != fl[k + 1])
    requires hdr' == hdr[bp := Header(hdr[fl[k]].ptr, hdr[bp].size)]
    ensures RingBut(hdr', Insert(fl, k, bp), base, k) && Lives(hdr', Insert(fl, k, bp), lv, lo, hi)
    ensures Units(hdr', Insert(fl, k, bp)) == Units(hdr, fl) + hdr[bp].size && Units(hdr', lv) == Units(hdr, lv)
  {
    Clear(hdr, fl, lv, base, lo, hi, k, bp);
    OrderedInsert(hdr, fl, base, k, bp, hdr');
    LinksInsert(hdr, fl, k, bp, hdr');
    LivesInsert(hdr, fl, lv, lo, hi, k, bp, hdr');
    UnitsLinked(hdr, fl, lv, k, bp, hdr');
  }

  /** A header changes hands: only the block at `a` is written. */
  predicate Writes(hdr: Memory, hdr': Memory, a: int) {
    a in hdr && a in hdr' && hdr' == hdr[a := hdr'[a]]
  }

  lemma OrderedMergeNext(hdr: Memory, fl: seq<int>, base: int, k: nat, bp: int, hdr': Memory)
    requires Ordered(hdr, fl, base, -1) && Between(fl, k, bp) && k + 1 < |fl| && base < bp
    requires Writes(hdr, hdr', bp) && hdr[bp].size > 0 && hdr'[bp].size == hdr[bp].size + hdr[fl[k + 1]].size
    requires End(hdr, fl[k]) <= bp && End(hdr, bp) == fl[k + 1]
    ensures Ordered(hdr', fl[k + 1 := bp], base, k)
  {
    var fl' := fl[k + 1 := bp];
    assert End(hdr', bp) == End(hdr, fl[k + 1]);
  }

  lemma LivesMergeNext(hdr: Memory, fl: seq<int>, lv: seq<int>, lo: int, hi: int, k: nat, bp: int, hdr': Memory)
    requires Lives(hdr, fl, lv, lo, hi) && Loose(hdr, fl, lv, bp, lo, hi) && k + 1 < |fl|
    requires Writes(hdr, hdr', bp) && hdr'[bp].size == hdr[bp].size + hdr[fl[k + 1]].size && End(hdr, bp) == fl[k + 1]
    ensures Lives(hdr', fl[k + 1 := bp], lv, lo, hi)
  {
    var fl' := fl[k + 1 := bp];
    assert End(hdr', bp) == End(hdr, fl[k + 1]);
    forall j | 0 <= j < |lv| ensures Apart(hdr', bp, lv[j]) {
      assert Apart(hdr, lv[j], bp) && Apart(hdr, fl[k + 1], lv[j]);
    }
  }

  lemma LinksMergeNext(hdr: Memory, fl: seq<int>, k: nat, bp: int, hdr': Memory)
    requires k + 1 < |fl| && (forall i {:trigger fl[i]} :: 0 <= i < |fl| ==> fl[i] != bp)
    requires forall i {:trigger Linked(hdr, fl, i)} :: 0 <= i < |fl| ==> Linked(hdr, fl, i)
    requires Writes(hdr, hdr', bp) && fl[k + 1] in hdr && hdr'[bp].ptr == hdr[fl[k + 1]].ptr
    ensures forall i {:trigger Linked(hdr', fl[k + 1 := bp], i)} :: 0 <= i < |fl| && i != k ==>
              Linked(hdr', fl[k + 1 := bp], i)
  {
    var fl' := fl[k + 1 := bp];
    forall i | 0 <= i < |fl'| && i != k ensures Linked(hdr', fl', i) {
      assert Linked(hdr, fl, i);
    }
  }

  lemma UnitsMergeNext(hdr: Memory, fl: seq<int>, lv: seq<int>, k: nat, bp: int, hdr': Memory)
    requires k + 1 < |fl| && (forall i {:trigger fl[i]} :: 0 <= i < |fl| ==> fl[i] != bp)
    requires forall j {:trigger lv[j]} :: 0 <= j < |lv| ==> lv[j] != bp
    requires Writes(hdr, hdr', bp) && hdr'[bp].size == hdr[bp].size + Size(hdr, fl[k + 1])
    ensures Units(hdr', fl[k + 1 := bp]) == Units(hdr, fl) + hdr[bp].size && Units(hdr', lv) == Units(hdr, lv)
  {
    UnitsFrame(hdr, hdr', fl);
    UnitsFrame(hdr, hdr', lv);
    UnitsRemove(hdr', fl, k + 1);
    UnitsRemove(hdr', fl[k + 1 := bp], k + 1);
    assert fl[k + 1 := bp][..k + 1] + fl[k + 1 := bp][k + 2..] == fl[..k + 1] + fl[k + 2..];
  }

  /** free, first half: bp takes in the block that follows it. */
  lemma MergeNext(hdr: Memory, fl: seq<int>, lv: seq<int>, base: int, lo: int, hi: int, k: nat, bp: int, hdr': Memory)
    requires Ring(hdr, fl, base) && Lives(hdr, fl, lv, lo, hi) && Loose(hdr, fl, lv, bp, lo, hi) && base < lo
    requires Between(fl, k, bp) && k + 1 < |fl| && End(hdr, bp) == fl[k + 1]
    requires hdr' == hdr[bp := Header(hdr[fl[k + 1]].ptr, hdr[bp].size + hdr[fl[k + 1]].size)]
    ensures RingBut(hdr', fl[k + 1 := bp], base, k) && Lives(hdr', fl[k + 1 := bp], lv, lo, hi)
    ensures Units(hdr', fl[k + 1 := bp]) == Units(hdr, fl) + hdr[bp].size && Units(hdr', lv) == Units(hdr, lv)
  {
    Clear(hdr, fl, lv, base, lo, hi, k, bp);
    OrderedMergeNext(hdr, fl, base, k, bp, hdr');
    LinksMergeNext(hdr, fl, k, bp, hdr');
    LivesMergeNext(hdr, fl, lv, lo, hi, k, bp, hdr');
    forall j | 0 <= j < |lv| ensures lv[j] != bp {
      assert Apart(hdr, lv[j], bp);
    }
    UnitsMergeNext(hdr, fl, lv, k, bp, hdr');
  }

  lemma OrderedClose(hdr: Memory, fl: seq<int>, base: int, k: nat, hdr': Memory)
    requires Ordered(hdr, fl, base, k) && k + 1 < |fl| && End(hdr, fl[k]) != fl[k + 1]
    requires Writes(hdr, hdr', fl[k]) && hdr'[fl[k]].size == hdr[fl[k]].size
    ensures Ordered(hdr', fl, base, -1)
  {
  }

  lemma LivesSame(hdr: Memory, fl: seq<int>, lv: seq<int>, lo: int, hi: int, a: int, hdr': Memory)
    requires Lives(hdr, fl, lv, lo, hi) && Writes(hdr, hdr', a) && hdr'[a].size == hdr[a].size
    ensures Lives(hdr', fl, lv, lo, hi)
  {
  }

  lemma LinksClose(hdr: Memory, fl: seq<int>, k: nat, hdr': Memory)
    requires k + 1 < |fl| && Writes(hdr, hdr', fl[k]) && hdr'[fl[k]].ptr == fl[k + 1]
    requires forall i {:trigger Linked(hdr, fl, i)} :: 0 <= i < |fl| && i != k ==> Linked(hdr, fl, i)
    requires forall i {:trigger fl[i]} :: 0 <= i < |fl| && i != k ==> fl[i] != fl[k]
    ensures forall i {:trigger Linked(hdr', fl, i)} :: 0 <= i < |fl| ==> Linked(hdr', fl, i)
  {
    forall i | 0 <= i < |fl| ensures Linked(hdr', fl, i) {
      assert i != k ==> Linked(hdr, fl, i);
    }
  }

  lemma UnitsSame(hdr: Memory, s: seq<int>, a: int, hdr': Memory)
    requires Writes(hdr, hdr', a) && hdr'[a].size == hdr[a].size
    ensures Units(hdr', s) == Units(hdr, s)
  {
    UnitsFrame(hdr, hdr', s);
  }

  /** free, second half: block k links to bp. */
  lemma LinkPrev(hdr: Memory, fl: seq<int>, lv: seq<int>, base: int, lo: int, hi: int, k: nat, hdr': Memory)
    requires RingBut(hdr, fl, base, k) && Lives(hdr, fl, lv, lo, hi) && End(hdr, fl[k]) != fl[k + 1]
    requires hdr' == hdr[fl[k] := hdr[fl[k]].(ptr := fl[k + 1])]
    ensures Ring(hdr', fl, base) && Lives(hdr', fl, lv, lo, hi)
    ensures Units(hdr', fl) == Units(hdr, fl) && Units(hdr', lv) == Units(hdr, lv)
  {
    OrderedClose(hdr, fl, base, k, hdr');
    Distinct(hdr', fl, base, k);
    LinksClose(hdr, fl, k, hdr');
    LivesSame(hdr, fl, lv, lo, hi, fl[k], hdr');
    UnitsSame(hdr, fl, fl[k], hdr');
    UnitsSame(hdr, lv, fl[k], hdr');
  }

  lemma OrderedMergePrev(hdr: Memory, fl: seq<int>, base: int, k: nat, hdr': Memory)
    requires Ordered(hdr, fl, base, k) && k + 1 < |fl| && End(hdr, fl[k]) == fl[k + 1]
    requires Writes(hdr, hdr', fl[k]) && hdr'[fl[k]].size == hdr[fl[k]].size + hdr[fl[k + 1]].size
    ensures k > 0 && Ordered(hdr', Remove(fl, k + 1), base, -1)
  {
    assert End(hdr', fl[k]) == End(hdr, fl[k + 1]);
  }

  lemma LivesMergePrev(hdr: Memory, fl: seq<int>, lv: seq<int>, lo: int, hi: int, k: nat, hdr': Memory)
    requires Lives(hdr, fl, lv, lo, hi) && 0 < k && k + 1 < |fl| && Writes(hdr, hdr', fl[k])
    requires End(hdr, fl[k]) == fl[k + 1]
    requires hdr'[fl[k]].size == hdr[fl[k]].size + hdr[fl[k + 1]].size
    requires forall i {:trigger fl[i]} :: 0 <= i < |fl| && i != k ==> fl[i] != fl[k]
    ensures Lives(hdr', Remove(fl, k + 1), lv, lo, hi)
  {
    assert End(hdr', fl[k]) == End(hdr, fl[k + 1]);
    forall j | 0 <= j < |lv| ensures Apart(hdr', fl[k], lv[j]) && lv[j] != fl[k] {
      assert Apart(hdr, fl[k], lv[j]) && Apart(hdr, fl[k + 1], lv[j]);
    }
  }

  lemma LinksMergePrev(hdr: Memory, fl: seq<int>, base: int, k: nat, hdr': Memory)
    requires RingBut(hdr, fl, base, k) && Writes(hdr, hdr', fl[k]) && hdr'[fl[k]].ptr == hdr[fl[k + 1]].ptr
    ensures forall i {:trigger Linked(hdr', Remove(fl, k + 1), i)} :: 0 <= i < |fl| - 1 ==>
              Linked(hdr', Remove(fl, k + 1), i)
  {
    var fl' := Remove(fl, k + 1);
    forall i | 0 <= i < |fl'| ensures Linked(hdr', fl', i) {
      assert Linked(hdr, fl, if i < k then i else i + 1);
    }
  }

  lemma UnitsMergePrev(hdr: Memory, fl: seq<int>, lv: seq<int>, k: nat, hdr': Memory)
    requires k + 1 < |fl| && Writes(hdr, hdr', fl[k]) && hdr'[fl[k]].size == hdr[fl[k]].size + Size(hdr, fl[k + 1])
    requires forall i {:trigger fl[i]} :: 0 <= i < |fl| && i != k ==> fl[i] != fl[k]
    requires forall j {:trigger lv[j]} :: 0 <= j < |lv| ==> lv[j] != fl[k]
    ensures Units(hdr', Remove(fl, k + 1)) == Units(hdr, fl) && Units(hdr', lv) == Units(hdr, lv)
  {
    UnitsFrame(hdr, hdr', lv);
    var rest := Remove(fl, k);
    UnitsFrame(hdr, hdr', rest);
    UnitsRemove(hdr, fl, k);
    UnitsRemove(hdr', fl, k);
    UnitsRemove(hdr', fl, k + 1);
  }

  /** free, second half: block k takes in bp. */
  lemma MergePrev(hdr: Memory, fl: seq<int>, lv: seq<int>, base: int, lo: int, hi: int, k: nat, hdr': Memory)
    requires RingBut(hdr, fl, base, k) && Lives(hdr, fl, lv, lo, hi) && End(hdr, fl[k]) == fl[k + 1]
    requires hdr' == hdr[fl[k] := Header(hdr[fl[k + 1]].ptr, hdr[fl[k]].size + hdr[fl[k + 1]].size)]
    ensures Ring(hdr', Remove(fl, k + 1), base) && Lives(hdr', Remove(fl, k + 1), lv, lo, hi)
    ensures Units(hdr', Remove(fl, k + 1)) == Units(hdr, fl) && Units(hdr', lv) == Units(hdr, lv)
  {
    OrderedMergePrev(hdr, fl, base, k, hdr');
    LinksMergePrev(hdr, fl, base, k, hdr');
    forall i {:trigger fl[i]} | 0 <= i < |fl| && i != k ensures fl[i] != fl[k] {
    }
    LivesMergePrev(hdr, fl, lv, lo, hi, k, hdr');
    forall j | 0 <= j < |lv| ensures lv[j] != fl[k] {
      assert Apart(hdr, fl[k], lv[j]);
    }
    UnitsMergePrev(hdr, fl, lv, k, hdr');
  }

  // malloc takes a block from the list, whole or its tail.

  lemma OrderedRemove(hdr: Memory, fl: seq<int>, base: int, i: nat, hdr': Memory, pi: nat)
    requires Ordered(hdr, fl, base, -1) && 0 < i < |fl| && pi < |fl| && Writes(hdr, hdr', fl[pi])
    requires hdr'[fl[pi]].size == hdr[fl[pi]].size
    ensures Ordered(hdr', Remove(fl, i), base, -1)
  {
  }

  lemma LivesTakeWhole(hdr: Memory, fl: seq<int>, lv: seq<int>, base: int, lo: int, hi: int, i: nat)
    requires Ordered(hdr, fl, base, -1) && Lives(hdr, fl, lv, lo, hi) && 0 < i < |fl|
    ensures Lives(hdr, Remove(fl, i), lv + [fl[i]], lo, hi)
  {
    var fl', lv' := Remove(fl, i), lv + [fl[i]];
    forall j, l {:trigger fl'[j], lv'[l]} | 0 < j < |fl'| && 0 <= l < |lv'| ensures Apart(hdr, fl'[j], lv'[l]) {
    }
    forall j, l {:trigger lv'[j], lv'[l]} | 0 <= j < l < |lv'| ensures Apart(hdr, lv'[j], lv'[l]) {
      assert l == |lv| ==> Apart(hdr, fl[i], lv[j]);
    }
  }

  lemma LinksRemove(hdr: Memory, fl: seq<int>, pi: nat, i: nat, hdr': Memory)
    requires forall j {:trigger Linked(hdr, fl, j)} :: 0 <= j < |fl| ==> Linked(hdr, fl, j)
    requires pi < |fl| && i == After(|fl|, pi) && 0 < i && fl[i] in hdr && Writes(hdr, hdr', fl[pi])
    requires hdr'[fl[pi]].ptr == hdr[fl[i]].ptr
    requires forall j {:trigger fl[j]} :: 0 <= j < |fl| && j != pi ==> fl[j] != fl[pi]
    ensures forall j {:trigger Linked(hdr', Remove(fl, i), j)} :: 0 <= j < |fl| - 1 ==> Linked(hdr', Remove(fl, i), j)
  {
    var fl' := Remove(fl, i);
    forall j | 0 <= j < |fl'| ensures Linked(hdr', fl', j) {
      assert Linked(hdr, fl, if j < i then j else j + 1) && Linked(hdr, fl, i);
    }
  }

  lemma UnitsTakeWhole(hdr: Memory, fl: seq<int>, lv: seq<int>, i: nat, a: int, hdr': Memory)
    requires i < |fl| && Writes(hdr, hdr', a) && hdr'[a].size == hdr[a].size
    ensures Units(hdr', Remove(fl, i)) + Units(hdr', lv + [fl[i]]) == Units(hdr, fl) + Units(hdr, lv)
  {
    UnitsRemove(hdr, fl, i);
    UnitsFrame(hdr, hdr', Remove(fl, i));
    UnitsFrame(hdr, hdr', lv);
    assert (lv + [fl[i]])[..|lv|] == lv;
  }

  /** Block i comes off the list and is live. */
  lemma TakeWhole(hdr: Memory, fl: seq<int>, lv: seq<int>, base: int, lo: int, hi: int, pi: nat, i: nat, hdr': Memory)
    requires Ring(hdr, fl, base) && Lives(hdr, fl, lv, lo, hi) && pi < |fl| && i == After(|fl|, pi) && 0 < i
    requires hdr' == hdr[fl[pi] := hdr[fl[pi]].(ptr := hdr[fl[i]].ptr)]
    ensures Ring(hdr', Remove(fl, i), base) && Lives(hdr', Remove(fl, i), lv + [fl[i]], lo, hi)
    ensures Units(hdr', Remove(fl, i)) + Units(hdr', lv + [fl[i]]) == Units(hdr, fl) + Units(hdr, lv)
  {
    OrderedRemove(hdr, fl, base, i, hdr', pi);
    Distinct(hdr, fl, base, pi);
    LinksRemove(hdr, fl, pi, i, hdr');
    LivesTakeWhole(hdr, fl, lv, base, lo, hi, i);
    LivesSame(hdr, Remove(fl, i), lv + [fl[i]], lo, hi, fl[pi], hdr');
    UnitsTakeWhole(hdr, fl, lv, i, fl[pi], hdr');
  }

  lemma Distinct(hdr: Memory, fl: seq<int>, base: int, i: nat)
    requires Ordered(hdr, fl, base, -1) && i < |fl|
    ensures forall j {:trigger fl[j]} :: 0 <= j < |fl| && j != i ==> fl[j] != fl[i]
  {
  }

  /** The last `n` units of block a, as a block of their own. */
  function SplitTail(hdr: Memory, a: int, n: nat): Memory
    requires a in hdr && n < hdr[a].size
  {
    var q := a + UNIT * (hdr[a].size - n);
    hdr[a := Header(hdr[a].ptr, hdr[a].size - n)][q := Header(if q in hdr then hdr[q].ptr else NULL, n)]
  }

  /** A cut inside block i is no block of the lists. */
  lemma CutIsNew(hdr: Memory, fl: seq<int>, lv: seq<int>, base: int, lo: int, hi: int, i: nat, q: int)
    requires Ordered(hdr, fl, base, -1) && Lives(hdr, fl, lv, lo, hi) && 0 < i < |fl| && fl[i] < q < End(hdr, fl[i])
    ensures forall j {:trigger fl[j]} :: 0 <= j < |fl| ==> fl[j] != q
    ensures forall j {:trigger lv[j]} :: 0 <= j < |lv| ==> lv[j] != q && lv[j] != fl[i]
  {
    forall j {:trigger fl[j]} | 0 <= j < |fl| ensures fl[j] != q {
      assert j < i ==> End(hdr, fl[j]) < fl[i];
      assert j > i ==> End(hdr, fl[i]) < fl[j];
    }
    forall j {:trigger lv[j]} | 0 <= j < |lv| ensures lv[j] != q && lv[j] != fl[i] {
      assert Apart(hdr, fl[i], lv[j]);
    }
  }

  lemma OrderedTail(hdr: Memory, fl: seq<int>, base: int, i: nat, n: nat, hdr': Memory)
    requires Ordered(hdr, fl, base, -1) && 0 < i < |fl| && 0 < n < hdr[fl[i]].size && hdr' == SplitTail(hdr, fl[i], n)
    requires forall j {:trigger fl[j]} :: 0 <= j < |fl| ==> fl[j] != fl[i] + UNIT * (hdr[fl[i]].size - n)
    ensures Ordered(hdr', fl, base, -1)
  {
    forall j {:trigger fl[j]} | 0 <= j < |fl| && j != i ensures hdr'[fl[j]] == hdr[fl[j]] {
      assert j < i ==> End(hdr, fl[j]) < fl[i];
    }
  }

  lemma LivesTail(hdr: Memory, fl: seq<int>, lv: seq<int>, base: int, lo: int, hi: int, i: nat, n: nat, hdr': Memory,
                  q: int)
    requires Ordered(hdr, fl, base, -1) && Lives(hdr, fl, lv, lo, hi) && 0 < i < |fl| && 0 < n < hdr[fl[i]].size
    requires hdr' == SplitTail(hdr, fl[i], n) && q == fl[i] + UNIT * (hdr[fl[i]].size - n)
    requires forall j {:trigger fl[j]} :: 0 <= j < |fl| ==> fl[j] != q
    requires forall j {:trigger lv[j]} :: 0 <= j < |lv| ==> lv[j] != q && lv[j] != fl[i]
    ensures Lives(hdr', fl, lv + [q], lo, hi)
  {
    var lv' := lv + [q];
    assert End(hdr', q) == End(hdr, fl[i]) && End(hdr', fl[i]) == q;
    forall j {:trigger fl[j]} | 0 <= j < |fl| && j != i
      ensures hdr'[fl[j]] == hdr[fl[j]] && (End(hdr, fl[j]) < fl[i] || End(hdr, fl[i]) < fl[j])
    {
      assert j < i ==> End(hdr, fl[j]) < fl[i];
    }
    forall j, l {:trigger fl[j], lv'[l]} | 0 < j < |fl| && 0 <= l < |lv'| ensures Apart(hdr', fl[j], lv'[l]) {
      assert l < |lv| ==> Apart(hdr, fl[j], lv[l]);
    }
    forall j, l {:trigger lv'[j], lv'[l]} | 0 <= j < l < |lv'| ensures Apart(hdr', lv'[j], lv'[l]) {
      assert Apart(hdr, fl[i], lv[j]);
      assert l < |lv| ==> Apart(hdr, lv[j], lv[l]);
    }
  }

  lemma LinksTail(hdr: Memory, fl: seq<int>, i: nat, n: nat, hdr': Memory)
    requires forall j {:trigger Linked(hdr, fl, j)} :: 0 <= j < |fl| ==> Linked(hdr, fl, j)
    requires i < |fl| && fl[i] in hdr && n < hdr[fl[i]].size && hdr' == SplitTail(hdr, fl[i], n)
    requires forall j {:trigger fl[j]} :: 0 <= j < |fl| ==> fl[j] != fl[i] + UNIT * (hdr[fl[i]].size - n)
    ensures forall j {:trigger Linked(hdr', fl, j)} :: 0 <= j < |fl| ==> Linked(hdr', fl, j)
  {
    forall j | 0 <= j < |fl| ensures Linked(hdr', fl, j) {
      assert Linked(hdr, fl, j);
    }
  }

  lemma UnitsTail(hdr: Memory, fl: seq<int>, lv: seq<int>, i: nat, n: nat, hdr': Memory, q: int)
    requires i < |fl| && fl[i] in hdr && n < hdr[fl[i]].size && hdr' == SplitTail(hdr, fl[i], n)
    requires q == fl[i] + UNIT * (hdr[fl[i]].size - n)
    requires forall j {:trigger fl[j]} :: 0 <= j < |fl| ==> fl[j] != q && (j != i ==> fl[j] != fl[i])
    requires forall j {:trigger lv[j]} :: 0 <= j < |lv| ==> lv[j] != q && lv[j] != fl[i]
    ensures Units(hdr', fl) + Units(hdr', lv + [q]) == Units(hdr, fl) + Units(hdr, lv)
  {
    UnitsFrame(hdr, hdr', Remove(fl, i));
    UnitsFrame(hdr, hdr', lv);
    UnitsRemove(hdr, fl, i);
    UnitsRemove(hdr', fl, i);
    assert (lv + [q])[..|lv|] == lv;
  }

  /** The tail of block i is cut off and is live. */
  lemma TakeTail(hdr: Memory, fl: seq<int>, lv: seq<int>, base: int, lo: int, hi: int, i: nat, n: nat, hdr': Memory,
                 q: int)
    requires Ring(hdr, fl, base) && Lives(hdr, fl, lv, lo, hi) && 0 < i < |fl| && 0 < n < hdr[fl[i]].size
    requires hdr' == SplitTail(hdr, fl[i], n) && q == fl[i] + UNIT * (hdr[fl[i]].size - n)
    ensures Ring(hdr', fl, base) && Lives(hdr', fl, lv + [q], lo, hi)
    ensures Units(hdr', fl) + Units(hdr', lv + [q]) == Units(hdr, fl) + Units(hdr, lv)
    ensures forall j {:trigger lv[j]} :: 0 <= j < |lv| ==> lv[j] != q && lv[j] != fl[i]
  {
    CutIsNew(hdr, fl, lv, base, lo, hi, i, q);
    Distinct(hdr, fl, base, i);
    OrderedTail(hdr, fl, base, i, n, hdr');
    LinksTail(hdr, fl, i, n, hdr');
    LivesTail(hdr, fl, lv, base, lo, hi, i, n, hdr', q);
    UnitsTail(hdr, fl, lv, i, n, hdr', q);
  }

  /** What morecore asks of sbrk, in units. */
  function Asked(nu: nat): nat {
    if nu < 4096 then 4096 else nu
  }

  /** The units that hold a header and nbytes after it. */
  function Nunits(nbytes: nat): (n: nat)
    ensures 0 < n && UNIT * (n - 1) >= nbytes && UNIT * (n - 1) < nbytes + UNIT
  {
    (nbytes + UNIT - 1) / UNIT + 1
  }

  /** The low 32 bits, as sbrk's int parameter takes them. */
  function Int32(x: nat): int {
    if x % UINT < UINT / 2 then x % UINT else x % UINT - UINT
  }

  // The largest request whose growth sbrk is asked for unaltered.
  const MAXREQUEST := 0x7FFF_FFE0

  /** sbrk is asked for what morecore means to get exactly when the request is at most MAXREQUEST. */
  lemma SbrkAskedFor(nbytes: nat)
    requires nbytes < UINT
    ensures Int32(UNIT * Asked(Nunits(nbytes))) == UNIT * Asked(Nunits(nbytes)) <==> nbytes <= MAXREQUEST
  {
    var n := Asked(Nunits(nbytes));
    if nbytes <= MAXREQUEST {
      assert UNIT * n < UINT / 2;
    } else {
      assert UNIT * n >= UINT / 2;
    }
  }

  /** One byte more, and sbrk is asked to shrink the heap. */
  lemma SbrkAskedToShrink()
    ensures Int32(UNIT * Asked(Nunits(MAXREQUEST + 1))) == -0x8000_0000
  {
    assert Nunits(MAXREQUEST + 1) == 0x800_0000;
  }

  /** How far block k is ahead of block i around a circle of n. */
  function Ahead(n: nat, i: nat, k: nat): nat
    requires i < n && k < n
  {
    if i <= k then k - i else n - i + k
  }

  lemma SamePlace(hdr: Memory, fl: seq<int>, base: int, i: nat, k: nat)
    requires Ordered(hdr, fl, base, -1) && i < |fl| && k < |fl| && fl[i] == fl[k]
    ensures i == k
  {
  }

  lemma NextIs(hdr: Memory, fl: seq<int>, base: int, i: nat)
    requires Ring(hdr, fl, base) && i < |fl|
    ensures fl[i] in hdr && hdr[fl[i]].ptr == fl[After(|fl|, i)] && fl[After(|fl|, i)] in hdr
  {
    assert Linked(hdr, fl, i);
  }

  /** A step around the circle comes one closer to any other block; the block behind is the farthest. */
  lemma OneStep(n: nat, i: nat, k: nat)
    requires i < n && k < n
    ensures i != k ==> Ahead(n, After(n, i), k) == Ahead(n, i, k) - 1
    ensures Ahead(n, After(n, i), k) <= Ahead(n, After(n, i), i)
  {
  }

  lemma {:induction false} Place(hdr: Memory, fl: seq<int>, base: int, bp: int, n: nat) returns (k: nat)
    requires Ordered(hdr, fl, base, -1) && base < bp && 0 < n <= |fl| && (n < |fl| ==> bp < fl[n])
    requires forall i {:trigger fl[i]} :: 0 <= i < |fl| ==> fl[i] != bp
    ensures Between(fl, k, bp)
    decreases n
  {
    if fl[n - 1] < bp {
      k := n - 1;
    } else {
      k := Place(hdr, fl, base, bp, n - 1);
    }
  }

  /** Only one place is Between, and the search can tell. */
  lemma AtPlace(hdr: Memory, fl: seq<int>, base: int, bp: int, i: nat, k: nat)
    requires Ring(hdr, fl, base) && base < bp && i < |fl| && Between(fl, k, bp)
    ensures var p, next := fl[i], hdr[fl[i]].ptr;
            i == k <==> ((bp > p && bp < next) || (p >= next && (bp > p || bp < next)))
  {
    assert Linked(hdr, fl, i);
    assert fl[0] == base;
    assert i + 1 < |fl| ==> fl[i] < fl[i + 1];
    assert i < k ==> fl[i + 1] <= fl[k];
    assert k < i ==> fl[k + 1] <= fl[i];
  }

  /** The free list, the live blocks, and the memory they lie in. */
  ghost predicate Arena(hdr: Memory, fl: seq<int>, lv: seq<int>, base: int, lo: int, hi: int) {
    0 < base && base + UNIT <= lo <= hi <= LIMIT && Ring(hdr, fl, base) && Lives(hdr, fl, lv, lo, hi)
  }

  /** What the two halves of free write, for a block bp that belongs after p. */
  function JoinNext(hdr: Memory, p: int, bp: int): Memory
    requires p in hdr && bp in hdr && hdr[p].ptr in hdr
  {
    var next := hdr[p].ptr;
    if End(hdr, bp) == next then hdr[bp := Header(hdr[next].ptr, Plus(hdr[bp].size, hdr[next].size))]
    else hdr[bp := Header(next, hdr[bp].size)]
  }

  function JoinPrev(hdr: Memory, p: int, bp: int): Memory
    requires p in hdr && bp in hdr
  {
    if End(hdr, p) == bp then hdr[p := Header(hdr[bp].ptr, Plus(hdr[p].size, hdr[bp].size))]
    else hdr[p := Header(bp, hdr[p].size)]
  }

  /** The sizes of the live blocks stay as they are. */
  ghost predicate SameLive(hdr: Memory, hdr': Memory, lv: seq<int>) {
    forall j {:trigger lv[j]} :: 0 <= j < |lv| ==> Size(hdr', lv[j]) == Size(hdr, lv[j])
  }

  lemma SameLiveOn(hdr: Memory, hdr1: Memory, hdr2: Memory, lv: seq<int>)
    requires SameLive(hdr, hdr1, lv) && SameLive(hdr1, hdr2, lv)
    ensures SameLive(hdr, hdr2, lv)
  {
  }

  lemma NextOf(hdr: Memory, fl: seq<int>, lv: seq<int>, base: int, lo: int, hi: int, k: nat, bp: int)
    requires Arena(hdr, fl, lv, base, lo, hi) && Loose(hdr, fl, lv, bp, lo, hi) && Between(fl, k, bp)
    ensures fl[k] in hdr && hdr[fl[k]].ptr == (if k + 1 < |fl| then fl[k + 1] else base) && hdr[fl[k]].ptr in hdr
    ensures End(hdr, bp) == hdr[fl[k]].ptr ==>
              k + 1 < |fl| && Plus(hdr[bp].size, hdr[fl[k + 1]].size) == hdr[bp].size + hdr[fl[k + 1]].size
  {
    assert Linked(hdr, fl, k);
    assert k + 1 < |fl| ==> End(hdr, fl[k + 1]) <= hi;
  }

  lemma LiveKept(hdr: Memory, fl: seq<int>, lv: seq<int>, bp: int, lo: int, hi: int, hdr': Memory)
    requires Loose(hdr, fl, lv, bp, lo, hi) && Writes(hdr, hdr', bp)
    ensures SameLive(hdr, hdr', lv)
  {
    forall j | 0 <= j < |lv| ensures lv[j] != bp {
      assert Apart(hdr, lv[j], bp);
    }
  }

  lemma JoinNextOk(hdr: Memory, fl: seq<int>, lv: seq<int>, base: int, lo: int, hi: int, k: nat, bp: int)
    returns (fl': seq<int>)
    requires Arena(hdr, fl, lv, base, lo, hi) && Loose(hdr, fl, lv, bp, lo, hi) && Between(fl, k, bp)
    ensures fl[k] in hdr && hdr[fl[k]].ptr in hdr
    ensures var hdr' := JoinNext(hdr, fl[k], bp);
            && RingBut(hdr', fl', base, k) && Lives(hdr', fl', lv, lo, hi) && fl'[k] == fl[k] && fl'[k + 1] == bp
            && Units(hdr', fl') == Units(hdr, fl) + Size(hdr, bp) && Units(hdr', lv) == Units(hdr, lv)
            && SameLive(hdr, hdr', lv) && hdr'[bp].size >= hdr[bp].size
  {
    NextOf(hdr, fl, lv, base, lo, hi, k, bp);
    var hdr' := JoinNext(hdr, fl[k], bp);
    LiveKept(hdr, fl, lv, bp, lo, hi, hdr');
    if End(hdr, bp) == hdr[fl[k]].ptr {
      MergeNext(hdr, fl, lv, base, lo, hi, k, bp, hdr');
      fl' := fl[k + 1 := bp];
    } else {
      LinkNext(hdr, fl, lv, base, lo, hi, k, bp, hdr');
      fl' := Insert(fl, k, bp);
    }
  }

  lemma JoinPrevOk(hdr: Memory, fl: seq<int>, lv: seq<int>, base: int, lo: int, hi: int, k: nat) returns (fl': seq<int>)
    requires 0 < base && base + UNIT <= lo <= hi <= LIMIT && RingBut(hdr, fl, base, k) && Lives(hdr, fl, lv, lo, hi)
    ensures var hdr' := JoinPrev(hdr, fl[k], fl[k + 1]);
            && Arena(hdr', fl', lv, base, lo, hi) && k < |fl'| && fl'[k] == fl[k]
            && Units(hdr', fl') == Units(hdr, fl) && Units(hdr', lv) == Units(hdr, lv) && SameLive(hdr, hdr', lv)
            && (exists i :: 0 < i < |fl'| && hdr'[fl'[i]].size >= hdr[fl[k + 1]].size)
  {
    var hdr' := JoinPrev(hdr, fl[k], fl[k + 1]);
    if End(hdr, fl[k]) == fl[k + 1] {
      assert k > 0 && End(hdr, fl[k + 1]) <= hi && lo <= fl[k];
      assert Plus(hdr[fl[k]].size, hdr[fl[k + 1]].size) == hdr[fl[k]].size + hdr[fl[k + 1]].size;
      MergePrev(hdr, fl, lv, base, lo, hi, k, hdr');
      fl' := Remove(fl, k + 1);
      assert hdr'[fl'[k]].size >= hdr[fl[k + 1]].size;
    } else {
      LinkPrev(hdr, fl, lv, base, lo, hi, k, hdr');
      fl' := fl;
      assert hdr'[fl'[k + 1]].size >= hdr[fl[k + 1]].size;
    }
    forall j | 0 <= j < |lv| ensures Size(hdr', lv[j]) == Size(hdr, lv[j]) {
      assert k > 0 ==> Apart(hdr, fl[k], lv[j]);
    }
  }

  lemma ListIsNot(hdr: Memory, fl: seq<int>, lv: seq<int>, base: int, bp: int, lo: int, hi: int)
    requires Arena(hdr, fl, lv, base, lo, hi) && Loose(hdr, fl, lv, bp, lo, hi)
    ensures base < bp && forall i {:trigger fl[i]} :: 0 <= i < |fl| ==> fl[i] != bp
  {
    forall i {:trigger fl[i]} | 0 < i < |fl| ensures fl[i] != bp {
      assert Apart(hdr, fl[i], bp);
    }
  }

  /** A live block that is given back lies clear of everything. */
  lemma Loosen(hdr: Memory, fl: seq<int>, lv: seq<int>, j: nat, lo: int, hi: int)
    requires Lives(hdr, fl, lv, lo, hi) && j < |lv|
    ensures Lives(hdr, fl, Remove(lv, j), lo, hi) && Loose(hdr, fl, Remove(lv, j), lv[j], lo, hi)
    ensures Units(hdr, lv) == Units(hdr, Remove(lv, j)) + Size(hdr, lv[j])
  {
    var lv' := Remove(lv, j);
    forall i | 0 <= i < |lv'| ensures Apart(hdr, lv'[i], lv[j]) {
      assert Apart(hdr, lv[if i < j then i else i + 1], lv[j]) || Apart(hdr, lv[j], lv[if i < j then i else i + 1]);
    }
    UnitsRemove(hdr, lv, j);
  }

  lemma OrderedFrame(hdr: Memory, fl: seq<int>, base: int, a: int, h: Header)
    requires Ordered(hdr, fl, base, -1) && (forall i {:trigger fl[i]} :: 0 <= i < |fl| ==> fl[i] != a)
    ensures Ordered(hdr[a := h], fl, base, -1)
  {
  }

  lemma LivesGrow(hdr: Memory, fl: seq<int>, lv: seq<int>, lo: int, hi: int, hp: int, h: Header)
    requires Lives(hdr, fl, lv, lo, hi) && lo <= hi <= hp && h.size > 0
    requires forall i {:trigger fl[i]} :: 0 <= i < |fl| ==> fl[i] != hp
    ensures var hi' := hp + UNIT * h.size;
              Lives(hdr[hp := h], fl, lv, lo, hi') && Loose(hdr[hp := h], fl, lv, hp, lo, hi')
    ensures forall j {:trigger lv[j]} :: 0 <= j < |lv| ==> lv[j] != hp
  {
    assert forall j {:trigger lv[j]} :: 0 <= j < |lv| ==> lv[j] != hp;
  }

  /** Memory from sbrk lies above all that was obtained before. */
  lemma Grow(hdr: Memory, fl: seq<int>, lv: seq<int>, base: int, lo: int, hi: int, hp: int, h: Header)
    requires Arena(hdr, fl, lv, base, lo, hi) && hi <= hp && h.size > 0 && hp + UNIT * h.size <= LIMIT
    ensures var hdr', hi' := hdr[hp := h], hp + UNIT * h.size;
            && Arena(hdr', fl, lv, base, lo, hi') && Loose(hdr', fl, lv, hp, lo, hi')
            && Units(hdr', fl) == Units(hdr, fl) && Units(hdr', lv) == Units(hdr, lv) && SameLive(hdr, hdr', lv)
  {
    forall i {:trigger fl[i]} | 0 <= i < |fl| ensures fl[i] != hp {
      assert i > 0 ==> hdr[fl[i]].size > 0 && End(hdr, fl[i]) <= hi;
    }
    OrderedFrame(hdr, fl, base, hp, h);
    LivesGrow(hdr, fl, lv, lo, hi, hp, h);
    var hdr' := hdr[hp := h];
    forall i | 0 <= i < |fl| ensures Linked(hdr', fl, i) {
      assert Linked(hdr, fl, i);
    }
    UnitsFrame(hdr, hdr', fl);
    UnitsFrame(hdr, hdr', lv);
  }

  /** What malloc writes to take n units of the block p, which follows prevp; and the block it makes of them. */
  function Taken(hdr: Memory, prevp: int, p: int, n: nat): Memory
    requires prevp in hdr && p in hdr && n <= hdr[p].size
  {
    if hdr[p].size == n then hdr[prevp := hdr[prevp].(ptr := hdr[p].ptr)] else SplitTail(hdr, p, n)
  }

  function TakenAt(hdr: Memory, p: int, n: nat): int
    requires p in hdr && n <= hdr[p].size
  {
    p + UNIT * (hdr[p].size - n)
  }

  lemma SameLiveWhole(hdr: Memory, lv: seq<int>, a: int, hdr': Memory)
    requires Writes(hdr, hdr', a) && hdr'[a].size == hdr[a].size
    ensures SameLive(hdr, hdr', lv)
  {
  }

  lemma SameLiveTail(hdr: Memory, lv: seq<int>, a: int, n: nat, q: int)
    requires a in hdr && n < hdr[a].size && q == TakenAt(hdr, a, n)
    requires forall j {:trigger lv[j]} :: 0 <= j < |lv| ==> lv[j] != q && lv[j] != a
    ensures SameLive(hdr, SplitTail(hdr, a, n), lv)
  {
  }

  /** After malloc has taken a block, the free list is fl'. */
  ghost predicate TookFrom(hdr: Memory, fl: seq<int>, lv: seq<int>, base: int, lo: int, hi: int, pi: nat, n: nat,
                           hdr': Memory, fl': seq<int>, q: int)
    requires pi < |fl|
  {
    && Arena(hdr', fl', lv + [q], base, lo, hi) && pi < |fl'| && fl'[pi] == fl[pi] && Size(hdr', q) == n && lo <= q
    && Units(hdr', fl') + Units(hdr', lv + [q]) == Units(hdr, fl) + Units(hdr, lv) && SameLive(hdr, hdr', lv)
  }

  lemma TakeWholeOk(hdr: Memory, fl: seq<int>, lv: seq<int>, base: int, lo: int, hi: int, pi: nat, i: nat)
    requires Arena(hdr, fl, lv, base, lo, hi) && pi < |fl| && i == After(|fl|, pi) && 0 < i
    ensures TookFrom(hdr, fl, lv, base, lo, hi, pi, hdr[fl[i]].size,
                     hdr[fl[pi] := hdr[fl[pi]].(ptr := hdr[fl[i]].ptr)], Remove(fl, i), fl[i])
  {
    var hdr' := hdr[fl[pi] := hdr[fl[pi]].(ptr := hdr[fl[i]].ptr)];
    TakeWhole(hdr, fl, lv, base, lo, hi, pi, i, hdr');
    SameLiveWhole(hdr, lv, fl[pi], hdr');
  }

  lemma TakeTailOk(hdr: Memory, fl: seq<int>, lv: seq<int>, base: int, lo: int, hi: int, pi: nat, i: nat, n: nat)
    requires Arena(hdr, fl, lv, base, lo, hi) && pi < |fl| && i == After(|fl|, pi) && 0 < i && 0 < n < hdr[fl[i]].size
    ensures TookFrom(hdr, fl, lv, base, lo, hi, pi, n, SplitTail(hdr, fl[i], n), fl, TakenAt(hdr, fl[i], n))
  {
    hide Ring, Units, SameLive;
    TakeTail(hdr, fl, lv, base, lo, hi, i, n, SplitTail(hdr, fl[i], n), TakenAt(hdr, fl[i], n));
    SameLiveTail(hdr, lv, fl[i], n, TakenAt(hdr, fl[i], n));
  }

  lemma TakeOk(hdr: Memory, fl: seq<int>, lv: seq<int>, base: int, lo: int, hi: int, pi: nat, i: nat, n: nat)
    returns (fl': seq<int>)
    requires Arena(hdr, fl, lv, base, lo, hi) && pi < |fl| && i == After(|fl|, pi) && 0 < n <= hdr[fl[i]].size
    ensures TookFrom(hdr, fl, lv, base, lo, hi, pi, n, Taken(hdr, fl[pi], fl[i], n), fl', TakenAt(hdr, fl[i], n))
  {
    assert 0 < i;
    if hdr[fl[i]].size == n {
      assert TakenAt(hdr, fl[i], n) == fl[i]
        && Taken(hdr, fl[pi], fl[i], n) == hdr[fl[pi] := hdr[fl[pi]].(ptr := hdr[fl[i]].ptr)];
      TakeWholeOk(hdr, fl, lv, base, lo, hi, pi, i);
      fl' := Remove(fl, i);
    } else {
      assert Taken(hdr, fl[pi], fl[i], n) == SplitTail(hdr, fl[i], n);
      TakeTailOk(hdr, fl, lv, base, lo, hi, pi, i, n);
      fl' := fl;
    }
  }

  ghost predicate AllSmall(hdr: Memory, fl: seq<int>, n: nat) {
    forall j {:trigger fl[j]} :: 0 <= j < |fl| ==> Size(hdr, fl[j]) < n
  }

  datatype Began = Began(hdr: Memory, fl: seq<int>, lv: seq<int>, units: nat, hi: int)

  /** The blocks from the one after block `at` up to block i, which malloc has looked at, are too small. */
  ghost predicate Passed(hdr: Memory, fl: seq<int>, at: nat, i: nat, n: nat)
    requires at < |fl| && i < |fl|
  {
    var first := After(|fl|, at);
    forall j {:trigger fl[j]} :: 0 <= j < |fl| && Ahead(|fl|, first, j) < Ahead(|fl|, first, i) ==> Size(hdr, fl[j]) < n
  }

  lemma PassedOne(hdr: Memory, fl: seq<int>, at: nat, i: nat, n: nat)
    requires at < |fl| && i < |fl| && Passed(hdr, fl, at, i, n) && Size(hdr, fl[i]) < n
    ensures i != at ==> Passed(hdr, fl, at, After(|fl|, i), n)
    ensures i == at ==> AllSmall(hdr, fl, n)
  {
  }

  class Heap {
    var hdr: Memory
    var freep: int
    const base: int

    // The free list and the live blocks, the memory that sbrk has answered from, and the units of it obtained.
    ghost var fl: seq<int>
    ghost var lv: seq<int>
    ghost var at: nat
    const lo: int
    ghost var hi: int
    ghost var units: nat

    /** Once the first malloc has been called. */
    ghost predicate Started()
      reads this
    {
      && Arena(hdr, fl, lv, base, lo, hi)
      && at < |fl| && freep == fl[at]
      && Units(hdr, fl) + Units(hdr, lv) == units
    }

    ghost predicate Valid()
      reads this
    {
      if freep == NULL then 0 < base && base + UNIT <= lo <= hi <= LIMIT && fl == [] && lv == [] && units == 0
        else Started()
    }

    /** Before the first malloc: `base` in the data segment, the heap above it. */
    constructor (base: int, lo: int)
      requires 0 < base && base + UNIT <= lo <= LIMIT
      ensures Valid() && this.base == base && this.lo == lo && hi == lo && lv == [] && units == 0 && freep == NULL
    {
      this.base, this.lo, hi := base, lo, lo;
      hdr, freep := map[], NULL;
      fl, lv, at, units := [], [], 0, 0;
    }

    /** The search of free: the block after which bp belongs. */
    method FindPlace(bp: int) returns (p: int, ghost k: nat)
      requires Ring(hdr, fl, base) && at < |fl| && freep == fl[at] && base < bp
      requires forall i {:trigger fl[i]} :: 0 <= i < |fl| ==> fl[i] != bp
      ensures Between(fl, k, bp) && p == fl[k]
    {
      k := Place(hdr, fl, base, bp, |fl|);
      p := freep;
      ghost var i: nat := at;
      assert Linked(hdr, fl, i);
      AtPlace(hdr, fl, base, bp, i, k);
      while !(bp > p && bp < hdr[p].ptr)
        invariant 0 <= i < |fl| && p == fl[i] && Linked(hdr, fl, i)
        invariant i == k <==> ((bp > p && bp < hdr[p].ptr) || (p >= hdr[p].ptr && (bp > p || bp < hdr[p].ptr)))
        decreases Ahead(|fl|, i, k)
      {
        if p >= hdr[p].ptr && (bp > p || bp < hdr[p].ptr) {
          break;
        }
        p := hdr[p].ptr;
        i := After(|fl|, i);
        assert Linked(hdr, fl, i);
        AtPlace(hdr, fl, base, bp, i, k);
      }
    }

    /** The rest of free. */
    method Join(p: int, bp: int)
      requires p in hdr && bp in hdr && hdr[p].ptr in hdr && p != bp
      modifies this`hdr, this`freep
      ensures freep == p && hdr == JoinPrev(JoinNext(old(hdr), p, bp), p, bp)
    {
      var next := hdr[p].ptr;
      if bp + UNIT * hdr[bp].size == next {
        hdr := hdr[bp := Header(hdr[next].ptr, Plus(hdr[bp].size, hdr[next].size))];
      } else {
        hdr := hdr[bp := hdr[bp].(ptr := next)];
      }
      if p + UNIT * hdr[p].size == bp {
        hdr := hdr[p := Header(hdr[bp].ptr, Plus(hdr[p].size, hdr[bp].size))];
      } else {
        hdr := hdr[p := hdr[p].(ptr := bp)];
      }
      freep := p;
    }

    /** free of a block that is on no list: it joins the free blocks, and some free block is at least its size. */
    method Insert(bp: int)
      requires Started() && Loose(hdr, fl, lv, bp, lo, hi)
      modifies this`hdr, this`freep, this`fl, this`at
      ensures Arena(hdr, fl, lv, base, lo, hi) && at < |fl| && freep == fl[at]
      ensures Units(hdr, fl) + Units(hdr, lv) == units + old(Size(hdr, bp))
      ensures SameLive(old(hdr), hdr, lv)
      ensures exists i :: 0 < i < |fl| && hdr[fl[i]].size >= old(hdr[bp].size)
    {
      hide Ring, Lives, Units, SameLive, RingBut;
      ListIsNot(hdr, fl, lv, base, bp, lo, hi);
      ghost var k;
      var p;
      p, k := FindPlace(bp);
      ghost var fl1 := JoinNextOk(hdr, fl, lv, base, lo, hi, k, bp);
      ghost var fl2 := JoinPrevOk(JoinNext(hdr, p, bp), fl1, lv, base, lo, hi, k);
      SameLiveOn(hdr, JoinNext(hdr, p, bp), JoinPrev(JoinNext(hdr, p, bp), p, bp), lv);
      Join(p, bp);
      fl, at := fl2, k;
    }

    /** free of a live block, named as malloc named it. */
    method Free(ap: int)
      requires Valid() && ap - UNIT in lv
      modifies this
      ensures Valid() && units == old(units) && hi == old(hi)
      ensures exists j :: 0 <= j < |old(lv)| && old(lv)[j] == ap - UNIT && lv == Remove(old(lv), j)
      ensures SameLive(old(hdr), hdr, lv)
    {
      var bp := ap - UNIT;
      ghost var j :| 0 <= j < |lv| && lv[j] == bp;
      Loosen(hdr, fl, lv, j, lo, hi);
      lv, units := Remove(lv, j), units - hdr[bp].size;
      Insert(bp);
      units := Units(hdr, fl) + Units(hdr, lv);
      assert freep != NULL;
    }

    /** Makes one block of the memory that sbrk answered with. */
    method Obtain(hp: int, nu: nat)
      requires Started() && 0 < nu && hi <= hp && hp + UNIT * nu <= LIMIT
      modifies this`hdr, this`hi
      ensures Started() && Loose(hdr, fl, lv, hp, lo, hi) && Size(hdr, hp) == nu && SameLive(old(hdr), hdr, lv)
    {
      hide Units, Ring;
      var h := Header(if hp in hdr then hdr[hp].ptr else NULL, nu);
      Grow(hdr, fl, lv, base, lo, hi, hp, h);
      hdr := hdr[hp := h];
      hi := hp + UNIT * nu;
    }

    /** morecore, when sbrk answers `grant`: NULL if it cannot, else memory above all it gave before. */
    method Morecore(nu: nat, grant: int) returns (p: int)
      requires Started() && 0 < nu && Int32(UNIT * Asked(nu)) == UNIT * Asked(nu)
      requires grant == NULL || (hi <= grant && grant + Int32(UNIT * Asked(nu)) <= LIMIT)
      modifies this
      ensures Started() && lv == old(lv) && SameLive(old(hdr), hdr, lv)
      ensures grant == NULL ==>
                p == NULL && hdr == old(hdr) && fl == old(fl) && at == old(at) && units == old(units) && hi == old(hi)
      ensures grant != NULL ==> p == freep && units == old(units) + Asked(nu)
      ensures grant != NULL ==> exists i :: 0 < i < |fl| && hdr[fl[i]].size >= nu
    {
      hide Ring, Lives, Units, Loose;
      if grant == NULL {
        return NULL;
      }
      Obtain(grant, Asked(nu));
      Insert(grant);
      units := units + Asked(nu);
      p := freep;
    }

    /** The list before the first malloc: `base` alone. */
    method Begin()
      requires Valid()
      modifies this
      ensures Started() && lv == old(lv) && units == old(units) && hi == old(hi) && SameLive(old(hdr), hdr, lv)
      ensures if old(freep) == NULL then fl == [base] else fl == old(fl) && hdr == old(hdr)
    {
      if freep == NULL {
        hdr := hdr[base := Header(base, 0)];
        freep, fl, at := base, [base], 0;
        assert Linked(hdr, fl, 0);
        assert Units(hdr, fl) == 0 by {
          assert fl[..0] == [];
        }
      }
    }

    /** malloc's end: the block p, after prevp, is big enough; all of it or its tail is taken. */
    method Take(prevp: int, p: int, n: nat) returns (q: int)
      requires prevp in hdr && p in hdr && n <= hdr[p].size
      modifies this`hdr, this`freep
      ensures freep == prevp && hdr == Taken(old(hdr), prevp, p, n) && q == TakenAt(old(hdr), p, n)
    {
      q := p;
      if hdr[p].size == n {
        hdr := hdr[prevp := hdr[prevp].(ptr := hdr[p].ptr)];
      } else {
        hdr := hdr[p := hdr[p].(size := hdr[p].size - n)];
        q := p + UNIT * hdr[p].size;
        hdr := hdr[q := Header(if q in hdr then hdr[q].ptr else NULL, n)];
      }
      freep := prevp;
    }

    method Allot(prevp: int, p: int, n: nat, ghost pi: nat) returns (ap: int)
      requires Started() && pi < |fl| && prevp == fl[pi] && p == fl[After(|fl|, pi)] && p in hdr && 0 < n <= hdr[p].size
      modifies this
      ensures Started() && units == old(units)
      ensures ap != NULL && lv == old(lv) + [ap - UNIT] && Size(hdr, ap - UNIT) == n && SameLive(old(hdr), hdr, old(lv))
    {
      hide Lives, Units, SameLive;
      ghost var fl' := TakeOk(hdr, fl, lv, base, lo, hi, pi, After(|fl|, pi), n);
      var q := Take(prevp, p, n);
      fl, lv, at := fl', lv + [q], pi;
      ap := q + UNIT;
    }

    /** malloc is looking at block i for n units; when it began, memory and list were those of `was`. */
    ghost predicate Seeking(was: Began, n: nat, grant: int, grown: bool, big: nat, i: nat)
      reads this
    {
      && Started() && lv == was.lv && SameLive(was.hdr, hdr, lv) && i < |fl| && big < |fl|
      && if grown then
           && grant != NULL && units == was.units + Asked(n) && AllSmall(was.hdr, was.fl, n)
           && Size(hdr, fl[big]) >= n && Ahead(|fl|, i, big) <= Ahead(|fl|, i, at)
         else
           hdr == was.hdr && fl == was.fl && units == was.units && hi == was.hi && Passed(hdr, fl, at, i, n)
    }

    /** Block i is too small and not the last to look at. */
    lemma SeekNext(was: Began, n: nat, grant: int, grown: bool, big: nat, i: nat)
      requires Seeking(was, n, grant, grown, big, i) && Size(hdr, fl[i]) < n && i != at
      ensures Seeking(was, n, grant, grown, big, After(|fl|, i)) && Ahead(|fl|, After(|fl|, i), at) < Ahead(|fl|, i, at)
    {
      OneStep(|fl|, i, at);
      OneStep(|fl|, i, big);
      if !grown {
        PassedOne(hdr, fl, at, i, n);
      }
    }

    /** The last block is too small, so none was large enough, and the heap has not been grown yet: it is now. */
    method SeekMore(ghost was: Began, n: nat, grant: int, ghost grown: bool, ghost big: nat, ghost i: nat)
      returns (p: int, ghost big': nat)
      requires Seeking(was, n, grant, grown, big, i) && Size(hdr, fl[i]) < n && i == at && 0 < n
      requires Int32(UNIT * Asked(n)) == UNIT * Asked(n)
      requires grant == NULL || (was.hi <= grant && grant + Int32(UNIT * Asked(n)) <= LIMIT)
      modifies this
      ensures !grown && AllSmall(was.hdr, was.fl, n)
      ensures grant == NULL ==> p == NULL && Seeking(was, n, grant, false, big, i)
      ensures grant != NULL ==> p != NULL && p == freep && Seeking(was, n, grant, true, big', After(|fl|, at))
    {
      PassedOne(hdr, fl, at, i, n);
      p := Morecore(n, grant);
      big' := 0;
      if p != NULL {
        big' :| 0 < big' < |fl| && hdr[fl[big']].size >= n;
        OneStep(|fl|, at, big');
      }
    }

    /** The search of malloc from the block after freep: finds a block of n units, growing the heap at most once. */
    method Search(n: nat, grant: int) returns (prevp: int, p: int, ghost pi: nat)
      requires Started() && 0 < n && Int32(UNIT * Asked(n)) == UNIT * Asked(n)
      requires grant == NULL || (hi <= grant && grant + Int32(UNIT * Asked(n)) <= LIMIT)
      modifies this
      ensures Started() && lv == old(lv) && SameLive(old(hdr), hdr, lv)
      ensures p != NULL ==> pi < |fl| && prevp == fl[pi] && p == fl[After(|fl|, pi)] && p in hdr && n <= hdr[p].size
      ensures p == NULL ==> grant == NULL && hdr == old(hdr) && fl == old(fl)
      ensures units == old(units) || (grant != NULL && units == old(units) + Asked(n))
      ensures p == NULL || units != old(units) ==> AllSmall(old(hdr), old(fl), n)
    {
      hide Lives, Units, AllSmall;
      ghost var was := Began(hdr, fl, lv, units, hi);
      ghost var grown, big, i := false, at, After(|fl|, at);
      pi := at;
      prevp := freep;
      NextIs(hdr, fl, base, pi);
      p := hdr[prevp].ptr;
      while hdr[p].size < n
        invariant Seeking(was, n, grant, grown, big, i)
        invariant 0 <= pi < |fl| && prevp == fl[pi] && i == After(|fl|, pi) && p == fl[i] && p in hdr
        decreases !grown, Ahead(|fl|, i, at)
      {
        if p == freep {
          SamePlace(hdr, fl, base, i, at);
          p, big := SeekMore(was, n, grant, grown, big, i);
          if p == NULL {
            return;
          }
          grown, pi := true, at;
        } else {
          SeekNext(was, n, grant, grown, big, i);
          pi := i;
        }
        NextIs(hdr, fl, base, pi);
        prevp, i := p, After(|fl|, pi);
        p := hdr[p].ptr;
      }
    }

    /** Begin, if need be, and Search. */
    method Find(n: nat, grant: int) returns (prevp: int, p: int, ghost pi: nat)
      requires Valid() && 0 < n && Int32(UNIT * Asked(n)) == UNIT * Asked(n)
      requires grant == NULL || (hi <= grant && grant + Int32(UNIT * Asked(n)) <= LIMIT)
      modifies this
      ensures Started() && lv == old(lv) && SameLive(old(hdr), hdr, lv)
      ensures p != NULL ==> pi < |fl| && prevp == fl[pi] && p == fl[After(|fl|, pi)] && p in hdr && n <= hdr[p].size
      ensures p == NULL ==> grant == NULL && units == old(units)
      ensures units == old(units) || (grant != NULL && units == old(units) + Asked(n))
      ensures p == NULL || units != old(units) ==> AllSmall(old(hdr), old(fl), n)
    {
      Begin();
      prevp, p, pi := Search(n, grant);
    }

    /** malloc, for requests that sbrk can be asked to meet; NULL when it cannot be met. */
    method Malloc(nbytes: nat, grant: int) returns (ap: int)
      requires Valid() && nbytes <= MAXREQUEST
      requires grant == NULL || (hi <= grant && grant + Int32(UNIT * Asked(Nunits(nbytes))) <= LIMIT)
      modifies this
      ensures Valid()
      // A block of its own, large enough and no larger than it need be.
      ensures ap != NULL ==> lv == old(lv) + [ap - UNIT] && Size(hdr, ap - UNIT) == Nunits(nbytes)
      // It fails only when no free block is large enough and sbrk fails, and then changes no block.
      ensures ap == NULL ==> grant == NULL && lv == old(lv) && units == old(units)
      ensures ap == NULL ==> AllSmall(old(hdr), old(fl), Nunits(nbytes))
      // The heap grows only when no free block is large enough.
      ensures units == old(units) || (grant != NULL && units == old(units) + Asked(Nunits(nbytes)))
      ensures units != old(units) ==> AllSmall(old(hdr), old(fl), Nunits(nbytes))
      ensures SameLive(old(hdr), hdr, old(lv))
    {
      SbrkAskedFor(nbytes);
      var prevp, p;
      ghost var pi;
      prevp, p, pi := Find(Nunits(nbytes), grant);
      ap := NULL;
      if p != NULL {
        ap := Allot(prevp, p, Nunits(nbytes), pi);
      }
    }
  }
}
