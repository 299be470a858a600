/**
 The page allocator of kernel/kalloc.c: a free list threaded through the free pages
 themselves, and a reference count for every page.
 */
module Kalloc {
  const PGSIZE := 4096
  const KERNBASE := 0x8000_0000
  const PHYSTOP := 0x8800_0000
  const UINT64 := 0x1_0000_0000_0000_0000

  function RoundUp(a: nat): nat {
    (a + PGSIZE - 1) / PGSIZE * PGSIZE
  }

  function RoundDown(a: nat): nat {
    a / PGSIZE * PGSIZE
  }

  /** The multiples of PGSIZE next to an address; the pages below the upper one are those with a byte before it. */
  lemma Rounds(a: nat)
    ensures RoundUp(a) % PGSIZE == 0 && a <= RoundUp(a) < a + PGSIZE
    ensures RoundDown(a) % PGSIZE == 0 && RoundDown(a) <= a < RoundDown(a) + PGSIZE
    ensures forall vp: nat :: vp < RoundUp(a) / PGSIZE <==> vp * PGSIZE < a
  {
    var n := (a + PGSIZE - 1) / PGSIZE;
    assert RoundUp(a) / PGSIZE == n;
  }

  /** A page that kalloc may hand out, when the kernel ends at `end`. */
  predicate IsPage(end: nat, pa: nat) {
    pa % PGSIZE == 0 && end <= pa < PHYSTOP
  }

  predicate KernelEnd(end: nat) {
    KERNBASE <= end <= PHYSTOP
  }

  function RefIndex(end: nat, pa: nat): int {
    (RoundDown(pa) - end) / PGSIZE
  }

  const NREF := (PHYSTOP - KERNBASE) / PGSIZE

  /** Pages lie PGSIZE apart. */
  lemma PageBelow(pa: nat, p: nat)
    requires pa % PGSIZE == 0 && p % PGSIZE == 0 && pa < p + PGSIZE
    ensures pa <= p
  {
    assert pa == pa / PGSIZE * PGSIZE && p == p / PGSIZE * PGSIZE;
  }

  /** And the last of them ends at PHYSTOP. */
  lemma LastPage(pa: nat, p: nat)
    requires pa % PGSIZE == 0 && p % PGSIZE == 0 && pa < PHYSTOP < p + PGSIZE
    ensures pa < p
  {
    assert pa == pa / PGSIZE * PGSIZE && p == p / PGSIZE * PGSIZE && PHYSTOP == PHYSTOP / PGSIZE * PGSIZE;
  }

  lemma RefIndexOwn(end: nat, pa: nat, pb: nat)
    requires KernelEnd(end) && IsPage(end, pa) && IsPage(end, pb)
    ensures 0 <= RefIndex(end, pa) < NREF
    ensures RefIndex(end, pa) == RefIndex(end, pb) ==> pa == pb
  {
    var i, j := pa / PGSIZE, pb / PGSIZE;
    assert pa == i * PGSIZE && pb == j * PGSIZE;
    if i < j {
      assert pb - end >= PGSIZE + (pa - end);
    }
  }

  function Count(end: nat, ref: seq<nat>, pa: nat): nat {
    if 0 <= RefIndex(end, pa) < |ref| then ref[RefIndex(end, pa)] else 0
  }

  lemma CountSet(end: nat, ref: seq<nat>, pa: nat, n: nat, pb: nat)
    requires KernelEnd(end) && |ref| == NREF && IsPage(end, pa) && IsPage(end, pb)
    ensures 0 <= RefIndex(end, pa) < |ref|
    ensures Count(end, ref[RefIndex(end, pa) := n], pb) == if pb == pa then n else Count(end, ref, pb)
  {
    RefIndexOwn(end, pa, pb);
    RefIndexOwn(end, pb, pa);
  }

  /** One less, as an unsigned 64-bit number. */
  function Decremented(n: nat): (r: nat)
    ensures n < UINT64 ==> r < UINT64 && (r + 1) % UINT64 == n
  {
    if n == 0 then UINT64 - 1 else n - 1
  }

  // The list.

  function After(list: seq<nat>, i: nat): nat {
    if i + 1 < |list| then list[i + 1] else 0
  }

  predicate LinkAt(next: map<nat, nat>, list: seq<nat>, i: nat)
    requires i < |list|
  {
    list[i] in next && next[list[i]] == After(list, i)
  }

  /** The pages on the list, and where on it each is: none twice. */
  ghost predicate Listed(end: nat, freelist: nat, next: map<nat, nat>, list: seq<nat>, place: map<nat, nat>) {
    && freelist == (if list == [] then 0 else list[0])
    && (forall i {:trigger LinkAt(next, list, i)} :: 0 <= i < |list| ==> LinkAt(next, list, i))
    && (forall i {:trigger list[i]} :: 0 <= i < |list| ==>
         IsPage(end, list[i]) && list[i] in place && place[list[i]] == i)
    && (forall pa {:trigger place[pa]} :: pa in place ==> place[pa] < |list| && list[place[pa]] == pa)
  }

  /** The free pages are exactly those with count 0. */
  ghost predicate Counted(end: nat, ref: seq<nat>, place: map<nat, nat>) {
    forall pa {:trigger Count(end, ref, pa)} :: IsPage(end, pa) ==> (Count(end, ref, pa) == 0 <==> pa in place)
  }

  function Shift(place: map<nat, nat>): (r: map<nat, nat>)
  {
    map pa | pa in place :: place[pa] + 1
  }

  lemma ListedPush(end: nat, freelist: nat, next: map<nat, nat>, list: seq<nat>, place: map<nat, nat>, pa: nat)
    requires Listed(end, freelist, next, list, place) && IsPage(end, pa) && pa !in place && KernelEnd(end)
    ensures Listed(end, pa, next[pa := freelist], [pa] + list, Shift(place)[pa := 0])
  {
    var next', list', place' := next[pa := freelist], [pa] + list, Shift(place)[pa := 0];
    forall i | 0 <= i < |list'| ensures LinkAt(next', list', i) {
      if i > 0 {
        assert LinkAt(next, list, i - 1) && list[i - 1] in place;
      }
    }
    forall i {:trigger list'[i]} | 0 <= i < |list'|
      ensures IsPage(end, list'[i]) && list'[i] in place' && place'[list'[i]] == i
    {
      if i > 0 {
        assert list'[i] == list[i - 1];
      }
    }
  }

  lemma ListedPop(end: nat, freelist: nat, next: map<nat, nat>, list: seq<nat>, place: map<nat, nat>)
    requires Listed(end, freelist, next, list, place) && list != [] && KernelEnd(end)
    ensures freelist == list[0] && freelist in next && freelist in place
    ensures Listed(end, next[freelist], next, list[1..], map pa | pa in place && pa != freelist :: place[pa] - 1)
  {
    assert LinkAt(next, list, 0);
    var list', place' := list[1..], map pa | pa in place && pa != freelist :: place[pa] - 1;
    forall pa | pa in place && pa != freelist ensures place[pa] > 0 {
    }
    forall i | 0 <= i < |list'| ensures LinkAt(next, list', i) {
      assert LinkAt(next, list, i + 1);
    }
    forall i {:trigger list'[i]} | 0 <= i < |list'|
      ensures IsPage(end, list'[i]) && list'[i] in place' && place'[list'[i]] == i
    {
      assert list'[i] == list[i + 1];
    }
  }

  class Kmem {
    const end: nat
    var freelist: nat
    // The first word of each page, which holds the link while the page is free.
    var next: map<nat, nat>
    var ref: seq<nat>

    ghost var list: seq<nat>
    ghost var place: map<nat, nat>

    ghost predicate Shaped()
      reads this
    {
      KernelEnd(end) && |ref| == NREF && Listed(end, freelist, next, list, place)
    }

    /** The free list has no page twice and exactly the pages with count 0. */
    ghost predicate Valid()
      reads this
    {
      Shaped() && Counted(end, ref, place)
    }

    ghost function CountOf(pa: nat): nat
      reads this
    {
      Count(end, ref, pa)
    }

    /** The push at the end of kfree. */
    method Push(pa: nat)
      requires Shaped() && IsPage(end, pa) && pa !in place
      modifies this`freelist, this`next, this`list, this`place
      ensures Shaped() && list == [pa] + old(list) && place.Keys == old(place.Keys) + {pa}
    {
      ListedPush(end, freelist, next, list, place, pa);
      next := next[pa := freelist];
      freelist := pa;
      list, place := [pa] + list, Shift(place)[pa := 0];
    }

    method SetCount(pa: nat, n: nat)
      requires KernelEnd(end) && |ref| == NREF && IsPage(end, pa)
      modifies this`ref
      ensures |ref| == NREF && CountOf(pa) == n
      ensures forall pb {:trigger CountOf(pb)} {:trigger Count(end, ref, pb)} :: IsPage(end, pb) && pb != pa ==>
                CountOf(pb) == old(CountOf(pb))
    {
      CountSet(end, ref, pa, n, pa);
      ghost var ref' := ref[RefIndex(end, pa) := n];
      forall pb | IsPage(end, pb) && pb != pa ensures Count(end, ref', pb) == Count(end, ref, pb) {
        CountSet(end, ref, pa, n, pb);
      }
      ref := ref[RefIndex(end, pa) := n];
    }

    /** Gives up a reference; false where the source panics. The last one puts the page on the list. */
    method Kfree(pa: nat) returns (ok: bool)
      requires Shaped() && (IsPage(end, pa) && CountOf(pa) <= 1 ==> pa !in place)
      modifies this
      ensures Shaped() && (ok <==> IsPage(end, pa))
      ensures forall pb {:trigger CountOf(pb)} :: IsPage(end, pb) && pb != pa ==> CountOf(pb) == old(CountOf(pb))
      ensures ok ==> CountOf(pa) == Decremented(old(CountOf(pa)))
      ensures if ok && old(CountOf(pa)) <= 1 then list == [pa] + old(list) && place.Keys == old(place.Keys) + {pa}
              else list == old(list) && place == old(place)
    {
      hide Listed, RefIndex;
      ok := pa % PGSIZE == 0 && end <= pa < PHYSTOP;
      if ok {
        RefIndexOwn(end, pa, pa);
        var n := ref[RefIndex(end, pa)];
        if n > 1 {
          SetCount(pa, n - 1);
        } else {
          SetCount(pa, Decremented(n));
          Push(pa);
        }
      }
    }

    method IsFree(pa: nat) returns (r: bool)
      requires KernelEnd(end) && |ref| == NREF && IsPage(end, pa)
      ensures r <==> CountOf(pa) == 0
    {
      RefIndexOwn(end, pa, pa);
      r := ref[RefIndex(end, pa)] == 0;
    }

    /** Gives up a reference to a page in use. */
    method Drop(pa: nat)
      requires Valid() && IsPage(end, pa) && CountOf(pa) > 0
      modifies this
      ensures Valid() && CountOf(pa) == old(CountOf(pa)) - 1
      ensures forall pb {:trigger CountOf(pb)} :: IsPage(end, pb) && pb != pa ==> CountOf(pb) == old(CountOf(pb))
    {
      hide Listed, RefIndex, Count;
      assert Count(end, ref, pa) > 0;
      var ok := Kfree(pa);
      forall pb | IsPage(end, pb) ensures Count(end, ref, pb) == 0 <==> pb in place {
        assert CountOf(pb) == Count(end, ref, pb);
        assert old(CountOf(pb)) == 0 <==> pb in old(place);
        assert pb in place <==> pb in place.Keys;
        assert pb in old(place) <==> pb in old(place.Keys);
      }
    }

    method Inckref(pa: nat)
      requires Valid() && IsPage(end, pa) && CountOf(pa) < UINT64
      modifies this`ref
      ensures Shaped() && CountOf(pa) == (old(CountOf(pa)) + 1) % UINT64
      ensures forall pb {:trigger CountOf(pb)} :: IsPage(end, pb) && pb != pa ==> CountOf(pb) == old(CountOf(pb))
      // A page on the free list would stay there with a reference, and a count that wraps would leave one off it.
      ensures Valid() <==> 0 < old(CountOf(pa)) < UINT64 - 1
    {
      hide Listed, RefIndex;
      RefIndexOwn(end, pa, pa);
      SetCount(pa, (ref[RefIndex(end, pa)] + 1) % UINT64);
      assert old(CountOf(pa)) == 0 <==> pa in place;
      assert CountOf(pa) == Count(end, ref, pa);
      if 0 < old(CountOf(pa)) < UINT64 - 1 {
        forall pb | IsPage(end, pb) ensures Count(end, ref, pb) == 0 <==> pb in place {
          assert CountOf(pb) == Count(end, ref, pb);
          assert old(CountOf(pb)) == 0 <==> pb in place;
        }
      }
    }

    /** A free page, now with one reference; 0 exactly when every page is in use. */
    method Kalloc() returns (pa: nat)
      requires Valid()
      modifies this
      ensures Valid()
      ensures pa == 0 <==> old(list) == []
      ensures pa == 0 ==> ref == old(ref) && list == old(list)
      ensures pa != 0 ==> IsPage(end, pa) && old(CountOf(pa)) == 0 && CountOf(pa) == 1 && list == old(list)[1..]
      ensures forall pb {:trigger CountOf(pb)} :: IsPage(end, pb) && pb != pa ==> CountOf(pb) == old(CountOf(pb))
    {
      pa := freelist;
      if pa != 0 {
        assert list != [];
        ListedPop(end, freelist, next, list, place);
        assert IsPage(end, list[0]);
        assert Count(end, ref, pa) == 0;
        freelist := next[pa];
        list, place := list[1..], map pb | pb in place && pb != pa :: place[pb] - 1;
        RefIndexOwn(end, pa, pa);
        SetCount(pa, (ref[RefIndex(end, pa)] + 1) % UINT64);
        forall pb | IsPage(end, pb) ensures Count(end, ref, pb) == 0 <==> pb in place {
          assert CountOf(pb) == Count(end, ref, pb);
          assert old(CountOf(pb)) == 0 <==> pb in old(place);
        }
      }
    }

    /** kinit: every page from the kernel's end up is freed once, and its count then set to 0. */
    constructor (end: nat)
      requires KernelEnd(end)
      ensures Valid() && this.end == end
      ensures forall pa: nat {:trigger CountOf(pa)} :: IsPage(end, pa) ==> CountOf(pa) == 0
    {
      this.end := end;
      freelist, next, ref := 0, map[], seq(NREF, _ => 0);
      list, place := [], map[];
      new;
      forall pa | IsPage(end, pa) ensures CountOf(pa) == 0 {
        RefIndexOwn(end, pa, pa);
      }
      FreeRange();
      RefInit();
    }

    method FreeRange()
      requires Shaped() && list == [] && place == map[]
      requires forall pa: nat {:trigger CountOf(pa)} :: IsPage(end, pa) ==> CountOf(pa) == 0
      modifies this
      ensures Shaped() && forall pa: nat {:trigger IsPage(end, pa)} :: IsPage(end, pa) ==> pa in place
    {
      hide Listed, Count;
      var p := RoundUp(end);
      while p + PGSIZE <= PHYSTOP
        invariant Shaped() && p % PGSIZE == 0 && end <= p < PHYSTOP + PGSIZE
        invariant forall pa: nat {:trigger IsPage(end, pa)} :: IsPage(end, pa) ==> (pa in place.Keys <==> pa < p)
        invariant forall pa: nat {:trigger CountOf(pa)} :: IsPage(end, pa) && p <= pa ==> CountOf(pa) == 0
      {
        assert IsPage(end, p);
        var ok := Kfree(p);
        p := p + PGSIZE;
      }
    }

    method RefInit()
      requires Shaped() && forall pa: nat {:trigger IsPage(end, pa)} :: IsPage(end, pa) ==> pa in place
      modifies this`ref
      ensures Valid() && forall pa: nat {:trigger CountOf(pa)} :: IsPage(end, pa) ==> CountOf(pa) == 0
    {
      hide Listed, Count;
      var p := RoundUp(end);
      while p + PGSIZE <= PHYSTOP
        invariant Shaped() && p % PGSIZE == 0 && end <= p < PHYSTOP + PGSIZE
        invariant forall pa: nat {:trigger CountOf(pa)} :: IsPage(end, pa) && pa < p ==> CountOf(pa) == 0
      {
        SetCount(p, 0);
        forall pa: nat | IsPage(end, pa) && pa < p + PGSIZE ensures CountOf(pa) == 0 {
          PageBelow(pa, p);
        }
        p := p + PGSIZE;
      }
      forall pa: nat | IsPage(end, pa) ensures Count(end, ref, pa) == 0 {
        LastPage(pa, p);
        assert CountOf(pa) == Count(end, ref, pa);
      }
    }
  }
}
