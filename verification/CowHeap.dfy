/** The paged heap with dirty-page tracking (aeon-vm/src/cowheap.rs). */
module CowHeap {
  import opened Words
  import opened Ordered

  const PAGE_SIZE := 4096

  type Page = p: seq<u8> | |p| == PAGE_SIZE witness seq(PAGE_SIZE, _ => 0)

  datatype HeapPageDelta = HeapPageDelta(index: nat, bytes: seq<u8>)

  datatype HeapError =
    | RangeOverflows(addr: nat, len: nat)
    | RangeExceeds(start: nat, end: nat, heapLen: nat)
    | PageOutOfRange(index: nat)
    | BadPageSize(page: nat, size: nat)

  /** What a heap means: a flat byte array and the set of pages written since the last clear. */
  datatype Heap = Heap(bytes: seq<u8>, dirty: set<nat>)

  function PageCount(len: nat): nat { (len + PAGE_SIZE - 1) / PAGE_SIZE }

  /** Page `p` shares a byte with the range of `n` bytes at `addr`. */
  predicate Covers(p: nat, addr: nat, n: nat) {
    0 < n && p * PAGE_SIZE < addr + n && addr < (p + 1) * PAGE_SIZE
  }

  function Touched(addr: nat, n: nat): set<nat> {
    set p: nat | p < PageCount(addr + n) && Covers(p, addr, n)
  }

  lemma TouchedOnePage(addr: nat, n: nat)
    requires 0 < n && addr % PAGE_SIZE + n <= PAGE_SIZE
    ensures Touched(addr, n) == {addr / PAGE_SIZE}
  {
    assert Covers(addr / PAGE_SIZE, addr, n);
  }

  lemma TouchedSplit(addr: nat, m: nat, n: nat)
    ensures Touched(addr, m + n) == Touched(addr, m) + Touched(addr + m, n)
  {
    forall p: nat
      ensures p in Touched(addr, m + n) <==> p in Touched(addr, m) || p in Touched(addr + m, n)
    {
      assert p in Touched(addr, m + n) <==> Covers(p, addr, m + n);
      assert p in Touched(addr, m) <==> Covers(p, addr, m);
      assert p in Touched(addr + m, n) <==> Covers(p, addr + m, n);
    }
  }

  /** How far a copy starting at `cursor` gets before the page or the data ends. */
  function Take(cursor: nat, remaining: nat): (take: nat)
    requires 0 < remaining
    ensures 0 < take <= remaining && cursor % PAGE_SIZE + take <= PAGE_SIZE
  {
    var left := PAGE_SIZE - cursor % PAGE_SIZE;
    if left < remaining then left else remaining
  }

  function CheckRange(heapLen: usize, addr: usize, n: usize): (r: Result<(), HeapError>)
    ensures r.Ok? <==> addr + n <= heapLen
  {
    if addr + n >= TWO64 then Err(RangeOverflows(addr, n))
    else if addr + n > heapLen then Err(RangeExceeds(addr, addr + n, heapLen))
    else Ok(())
  }

  /** Replace the bytes at `addr` and mark the pages they lie on. */
  function Update(h: Heap, addr: nat, data: seq<u8>): (r: Heap)
    requires addr + |data| <= |h.bytes|
    ensures |r.bytes| == |h.bytes|
  {
    Heap(h.bytes[..addr] + data + h.bytes[addr + |data|..], h.dirty + Touched(addr, |data|))
  }

  lemma UpdateNothing(h: Heap, addr: nat)
    requires addr <= |h.bytes|
    ensures Update(h, addr, []) == h
  {
    assert Update(h, addr, []).bytes == h.bytes;
    assert Touched(addr, 0) == {};
  }

  lemma UpdateTwice(h: Heap, addr: nat, x: seq<u8>, y: seq<u8>)
    requires addr + |x| + |y| <= |h.bytes|
    ensures Update(Update(h, addr, x), addr + |x|, y) == Update(h, addr, x + y)
  {
    TouchedSplit(addr, |x|, |y|);
    var twice, once := Update(Update(h, addr, x), addr + |x|, y), Update(h, addr, x + y);
    assert twice.bytes == once.bytes;
    assert twice.dirty == once.dirty;
  }

  /** Overwrite the part of page `index` that lies inside the heap. */
  function PutPage(h: Heap, index: nat, page: Page): (r: Heap)
    ensures |r.bytes| == |h.bytes|
  {
    Heap(seq(|h.bytes|, i requires 0 <= i < |h.bytes| =>
               if i / PAGE_SIZE == index then page[i % PAGE_SIZE] else h.bytes[i]),
         h.dirty + {index})
  }

  /** Pages are put one by one; the first bad one stops the loop and keeps what was put before it. */
  function PutPages(h: Heap, ps: seq<HeapPageDelta>): (r: (Heap, Result<(), HeapError>))
    ensures |r.0.bytes| == |h.bytes|
    decreases |ps|
  {
    if ps == [] then (h, Ok(()))
    else if ps[0].index >= PageCount(|h.bytes|) then (h, Err(PageOutOfRange(ps[0].index)))
    else if |ps[0].bytes| != PAGE_SIZE then (h, Err(BadPageSize(ps[0].index, |ps[0].bytes|)))
    else PutPages(PutPage(h, ps[0].index, ps[0].bytes), ps[1..])
  }

  function Flat(pages: seq<Page>, len: nat): (bs: seq<u8>)
    requires PageCount(len) == |pages|
    ensures |bs| == len
  {
    seq(len, i requires 0 <= i < len => pages[i / PAGE_SIZE][i % PAGE_SIZE])
  }

  /** Writing inside one page is a slice update of the flat bytes. */
  lemma FlatSplice(pages: seq<Page>, len: nat, page: nat, offset: nat, part: seq<u8>)
    requires PageCount(len) == |pages| && page < |pages|
    requires offset + |part| <= PAGE_SIZE && page * PAGE_SIZE + offset + |part| <= len
    ensures var c := page * PAGE_SIZE + offset;
            Flat(pages[page := pages[page][..offset] + part + pages[page][offset + |part|..]], len)
            == Flat(pages, len)[..c] + part + Flat(pages, len)[c + |part|..]
  {
    var c := page * PAGE_SIZE + offset;
    var next := Flat(pages[page := pages[page][..offset] + part + pages[page][offset + |part|..]], len);
    forall i | 0 <= i < len
      ensures next[i] == (Flat(pages, len)[..c] + part + Flat(pages, len)[c + |part|..])[i]
    {
      if i / PAGE_SIZE == page {
        assert c <= i < c + |part| <==> offset <= i % PAGE_SIZE < offset + |part|;
      }
    }
  }

  class COWHeap {
    var pages: seq<Page>
    var dirty: set<nat>
    const len: usize

    ghost predicate Valid()
      reads this
    {
      |pages| == PageCount(len) && forall p :: p in dirty ==> p < |pages|
    }

    ghost function View(): (h: Heap)
      reads this
      requires Valid()
      ensures |h.bytes| == len
    {
      Heap(Flat(pages, len), dirty)
    }

    constructor (len: usize)
      ensures Valid() && View() == Heap(seq(len, _ => 0), {})
    {
      var zero: Page := seq(PAGE_SIZE, _ => 0);
      this.pages := seq(PageCount(len), _ => zero);
      this.dirty := {};
      this.len := len;
      new;
      assert Flat(pages, len) == seq(len, _ => 0);
    }

    static method FromBytes(bytes: seq<u8>) returns (h: COWHeap)
      requires |bytes| < TWO64
      ensures fresh(h) && h.Valid() && h.View() == Heap(bytes, {})
    {
      h := new COWHeap(|bytes|);
      var r := h.Write(0, bytes);
      assert h.View().bytes == bytes;
      h.ClearDirty();
    }

    method Get(addr: usize) returns (r: Result<u8, HeapError>)
      requires Valid()
      ensures addr < len ==> r == Ok(View().bytes[addr])
      ensures addr >= len ==> r.Err?
    {
      var c := if addr == TWO64 - 1 then Err(RangeOverflows(addr, 1)) else CheckRange(len, addr, 1);
      if c.Err? {
        return Err(c.error);
      }
      r := Ok(pages[addr / PAGE_SIZE][addr % PAGE_SIZE]);
    }

    method Set(addr: usize, value: u8) returns (r: Result<(), HeapError>)
      requires Valid()
      modifies this
      ensures Valid()
      ensures r.Ok? <==> addr < len
      ensures View() == if addr < len then Update(old(View()), addr, [value]) else old(View())
    {
      var c := CheckRange(len, addr, 1);
      if c.Err? {
        return c;
      }
      var page := addr / PAGE_SIZE;
      FlatSplice(pages, len, page, addr % PAGE_SIZE, [value]);
      TouchedOnePage(addr, 1);
      pages := pages[page := pages[page][addr % PAGE_SIZE := value]];
      dirty := dirty + {page};
      assert pages[page] == old(pages)[page][..addr % PAGE_SIZE] + [value] + old(pages)[page][addr % PAGE_SIZE + 1..];
      r := Ok(());
    }

    method Read(addr: usize, n: usize) returns (r: Result<seq<u8>, HeapError>)
      requires Valid()
      ensures r.Ok? <==> addr + n <= len
      ensures r.Ok? ==> r.value == View().bytes[addr..addr + n]
    {
      var c := CheckRange(len, addr, n);
      if c.Err? {
        return Err(c.error);
      }
      var out := [];
      var cursor := addr;
      var end := addr + n;
      while cursor < end
        invariant addr <= cursor <= end
        invariant out == View().bytes[addr..cursor]
      {
        var page, offset := cursor / PAGE_SIZE, cursor % PAGE_SIZE;
        var take := Take(cursor, end - cursor);
        assert pages[page][offset..offset + take] == View().bytes[cursor..cursor + take];
        out := out + pages[page][offset..offset + take];
        cursor := cursor + take;
      }
      r := Ok(out);
    }

    method Write(addr: usize, bytes: seq<u8>) returns (r: Result<(), HeapError>)
      requires Valid() && |bytes| < TWO64
      modifies this
      ensures Valid()
      ensures r.Ok? <==> addr + |bytes| <= len
      ensures View() == if addr + |bytes| <= len then Update(old(View()), addr, bytes) else old(View())
    {
      hide *;
      var c := CheckRange(len, addr, |bytes|);
      if c.Err? {
        return c;
      }
      UpdateNothing(View(), addr);
      var written := 0;
      assert bytes[..written] == [];
      while written < |bytes|
        invariant Valid() && 0 <= written <= |bytes|
        invariant View() == Update(old(View()), addr, bytes[..written])
      {
        var take := WriteNext(addr, bytes, written, old(View()));
        written := written + take;
      }
      assert bytes[..written] == bytes;
      r := Ok(());
    }

    /** One turn of the write loop: as many bytes as fit on the page at the cursor. */
    method WriteNext(addr: usize, bytes: seq<u8>, written: nat, ghost h: Heap) returns (take: nat)
      requires Valid() && written < |bytes| && addr + |bytes| <= len == |h.bytes|
      requires View() == Update(h, addr, bytes[..written])
      modifies this
      ensures Valid() && 0 < take <= |bytes| - written
      ensures View() == Update(h, addr, bytes[..written + take])
    {
      hide *;
      take := Take(addr + written, |bytes| - written);
      var part := bytes[written..written + take];
      UpdateTwice(h, addr, bytes[..written], part);
      assert bytes[..written] + part == bytes[..written + take];
      WritePart(addr + written, part);
    }

    method WritePart(cursor: usize, part: seq<u8>)
      requires Valid() && part != [] && cursor + |part| <= len
      requires cursor % PAGE_SIZE + |part| <= PAGE_SIZE
      modifies this
      ensures Valid() && View() == Update(old(View()), cursor, part)
    {
      var page, offset := cursor / PAGE_SIZE, cursor % PAGE_SIZE;
      FlatSplice(pages, len, page, offset, part);
      TouchedOnePage(cursor, |part|);
      pages := pages[page := pages[page][..offset] + part + pages[page][offset + |part|..]];
      dirty := dirty + {page};
    }

    method ToVec() returns (out: seq<u8>)
      requires Valid()
      ensures out == View().bytes
    {
      out := [];
      var i := 0;
      while i < |pages|
        invariant 0 <= i <= |pages|
        invariant out == View().bytes[..if i * PAGE_SIZE < len then i * PAGE_SIZE else len]
      {
        var remaining := len - |out|;
        if remaining == 0 {
          break;
        }
        var take := if remaining < PAGE_SIZE then remaining else PAGE_SIZE;
        assert pages[i][..take] == View().bytes[i * PAGE_SIZE..i * PAGE_SIZE + take];
        out := out + pages[i][..take];
        i := i + 1;
      }
    }

    /** The dirty pages in ascending order, each with its current contents. */
    method DirtyPages() returns (ps: seq<HeapPageDelta>)
      requires Valid()
      ensures IsDirtyList(View(), ps)
    {
      var order := Sorted(dirty);
      ps := [];
      var i := 0;
      while i < |order|
        invariant 0 <= i <= |order| && |ps| == i
        invariant forall k :: 0 <= k < i ==> ps[k] == HeapPageDelta(order[k], pages[order[k]])
      {
        assert order[i] in order;
        ps := ps + [HeapPageDelta(order[i], pages[order[i]])];
        i := i + 1;
      }
      assert Indices(ps) == order;
    }

    method ClearDirty()
      requires Valid()
      modifies this`dirty
      ensures Valid() && View() == Heap(old(View()).bytes, {})
    {
      dirty := {};
    }

    method ApplyPages(ps: seq<HeapPageDelta>) returns (r: Result<(), HeapError>)
      requires Valid()
      modifies this
      ensures Valid()
      ensures (View(), r) == PutPages(old(View()), ps)
    {
      var i := 0;
      while i < |ps|
        invariant Valid() && 0 <= i <= |ps|
        invariant PutPages(View(), ps[i..]) == PutPages(old(View()), ps)
      {
        var page := ps[i];
        assert ps[i..][1..] == ps[i + 1..];
        if page.index >= |pages| {
          return Err(PageOutOfRange(page.index));
        }
        if |page.bytes| != PAGE_SIZE {
          return Err(BadPageSize(page.index, |page.bytes|));
        }
        ghost var before := View();
        pages := pages[page.index := page.bytes];
        dirty := dirty + {page.index};
        assert View().bytes == PutPage(before, page.index, page.bytes).bytes;
        i := i + 1;
      }
      r := Ok(());
    }
  }

  function Indices(ps: seq<HeapPageDelta>): seq<nat> {
    seq(|ps|, i requires 0 <= i < |ps| => ps[i].index)
  }

  /** `ps` lists exactly the dirty pages of `h`, in ascending order and with the bytes `h` holds there. */
  ghost predicate IsDirtyList(h: Heap, ps: seq<HeapPageDelta>) {
    && StrictlyAscending(Indices(ps))
    && (forall p :: p in Indices(ps) <==> p in h.dirty)
    && (forall k :: 0 <= k < |ps| ==> PageMatches(h, ps[k]))
  }

  ghost predicate PageMatches(h: Heap, d: HeapPageDelta) {
    && |d.bytes| == PAGE_SIZE
    && forall i :: 0 <= i < |h.bytes| && i / PAGE_SIZE == d.index ==> d.bytes[i % PAGE_SIZE] == h.bytes[i]
  }

  /** Dirty tracking covers every difference from `base`: clean pages still hold the base bytes. */
  ghost predicate CleanPagesEqual(h: Heap, base: seq<u8>) {
    && |h.bytes| == |base|
    && (forall p :: p in h.dirty ==> p < PageCount(|base|))
    && (forall i :: 0 <= i < |base| && i / PAGE_SIZE !in h.dirty ==> h.bytes[i] == base[i])
  }

  /** Every write keeps the cover, whatever pages it spans. */
  lemma UpdateKeepsCover(h: Heap, base: seq<u8>, addr: nat, data: seq<u8>)
    requires CleanPagesEqual(h, base) && addr + |data| <= |h.bytes|
    ensures CleanPagesEqual(Update(h, addr, data), base)
  {
    var r := Update(h, addr, data);
    forall i | 0 <= i < |base| && i / PAGE_SIZE !in r.dirty
      ensures r.bytes[i] == base[i]
    {
      assert !Covers(i / PAGE_SIZE, addr, |data|);
    }
  }

  /** Putting a dirty list over the base rebuilds the heap it was taken from. */
  lemma DirtyListRebuilds(h: Heap, base: seq<u8>, ps: seq<HeapPageDelta>)
    requires CleanPagesEqual(h, base) && IsDirtyList(h, ps)
    ensures PutPages(Heap(base, {}), ps) == (h, Ok(()))
  {
    assert forall k :: 0 <= k < |ps| ==> ps[k].index == Indices(ps)[k];
    assert forall k :: 0 <= k < |ps| ==> Indices(ps)[k] in h.dirty;
    PutPagesPrefix(h, Heap(base, {}), ps);
    var (r, ok) := PutPages(Heap(base, {}), ps);
    forall i | 0 <= i < |base|
      ensures r.bytes[i] == h.bytes[i]
    {
      if i / PAGE_SIZE in h.dirty {
        assert i / PAGE_SIZE in Indices(ps);
      }
    }
    assert r.bytes == h.bytes;
    assert r.dirty == h.dirty;
  }

  lemma {:induction false} PutPagesPrefix(h: Heap, b: Heap, ps: seq<HeapPageDelta>)
    requires |h.bytes| == |b.bytes|
    requires forall k :: 0 <= k < |ps| ==> PageMatches(h, ps[k]) && ps[k].index < PageCount(|b.bytes|)
    ensures PutPages(b, ps).1 == Ok(())
    ensures forall p :: p in PutPages(b, ps).0.dirty <==> p in b.dirty || p in Indices(ps)
    ensures forall i :: 0 <= i < |b.bytes| ==>
                          PutPages(b, ps).0.bytes[i] == if i / PAGE_SIZE in Indices(ps) then h.bytes[i] else b.bytes[i]
    decreases |ps|
  {
    if ps != [] {
      var b' := PutPage(b, ps[0].index, ps[0].bytes);
      PutPagesPrefix(h, b', ps[1..]);
      assert Indices(ps) == [ps[0].index] + Indices(ps[1..]);
      assert forall p :: p in Indices(ps) <==> p == ps[0].index || p in Indices(ps[1..]);
      assert PageMatches(h, ps[0]);
    }
  }

  // ----- putting any list of pages -----

  /** A page that cannot be put into a heap of that length. */
  predicate BadPageFor(len: nat, d: HeapPageDelta) { d.index * PAGE_SIZE >= len || |d.bytes| != PAGE_SIZE }

  /** Byte `i` afterwards is that of the last page put over it, or the one before when there is none. */
  ghost predicate PagesShow(ps: seq<HeapPageDelta>, before: seq<u8>, after: seq<u8>, i: nat)
    requires i < |before| == |after|
  {
    if ps == [] then after[i] == before[i]
    else
      var n := |ps| - 1;
      if ps[n].index == i / PAGE_SIZE then |ps[n].bytes| == PAGE_SIZE && after[i] == ps[n].bytes[i % PAGE_SIZE]
      else PagesShow(ps[..n], before, after, i)
  }

  lemma {:induction false} PutPagesAppend(h: Heap, a: seq<HeapPageDelta>, b: seq<HeapPageDelta>)
    requires PutPages(h, a).1.Ok?
    ensures PutPages(h, a + b) == PutPages(PutPages(h, a).0, b)
    decreases |a|
  {
    if a == [] {
      assert a + b == b;
    } else {
      assert (a + b)[0] == a[0] && (a + b)[1..] == a[1..] + b;
      PutPagesAppend(PutPage(h, a[0].index, a[0].bytes), a[1..], b);
    }
  }

  lemma {:induction false} ShowsSame(ps: seq<HeapPageDelta>, before: seq<u8>, a: seq<u8>, b: seq<u8>, i: nat)
    requires i < |before| == |a| == |b| && PagesShow(ps, before, a, i) && a[i] == b[i]
    ensures PagesShow(ps, before, b, i)
    decreases |ps|
  {
    if ps != [] && ps[|ps| - 1].index != i / PAGE_SIZE {
      ShowsSame(ps[..|ps| - 1], before, a, b, i);
    }
  }

  /** Putting pages fails exactly when one of them is bad, naming the first; otherwise later pages win. */
  lemma {:induction false} PutPagesMeans(h: Heap, ps: seq<HeapPageDelta>)
    ensures PutPages(h, ps).1.Err? <==> exists k :: 0 <= k < |ps| && BadPageFor(|h.bytes|, ps[k])
    ensures PutPages(h, ps).1.Ok? ==> forall i :: 0 <= i < |h.bytes| ==> PagesShow(ps, h.bytes, PutPages(h, ps).0.bytes, i)
    decreases |ps|
  {
    if ps != [] {
      var n := |ps| - 1;
      var front := ps[..n];
      PutPagesMeans(h, front);
      assert ps == front + [ps[n]];
      if PutPages(h, front).1.Ok? {
        var mid := PutPages(h, front).0;
        PutPagesAppend(h, front, [ps[n]]);
        PutOnePage(mid, ps[n]);
        if PutPages(h, ps).1.Ok? {
          forall i | 0 <= i < |h.bytes| ensures PagesShow(ps, h.bytes, PutPages(h, ps).0.bytes, i) {
            if ps[n].index != i / PAGE_SIZE { ShowsSame(front, h.bytes, mid.bytes, PutPages(h, ps).0.bytes, i); }
          }
        }
      } else {
        PutPagesStops(h, front, [ps[n]]);
      }
      assert forall k :: 0 <= k < n ==> front[k] == ps[k];
    }
  }

  lemma PutOnePage(h: Heap, d: HeapPageDelta)
    ensures PutPages(h, [d]).1.Err? <==> BadPageFor(|h.bytes|, d)
    ensures !BadPageFor(|h.bytes|, d) ==>
              && |d.bytes| == PAGE_SIZE
              && forall i :: 0 <= i < |h.bytes| ==>
                   PutPages(h, [d]).0.bytes[i] == if d.index == i / PAGE_SIZE then d.bytes[i % PAGE_SIZE] else h.bytes[i]
  {
    assert [d][1..] == [];
    assert d.index >= PageCount(|h.bytes|) <==> d.index * PAGE_SIZE >= |h.bytes|;
    assert !BadPageFor(|h.bytes|, d) ==> PutPages(h, [d]) == PutPages(PutPage(h, d.index, d.bytes), []);
  }

  lemma {:induction false} PutPagesStops(h: Heap, a: seq<HeapPageDelta>, b: seq<HeapPageDelta>)
    requires PutPages(h, a).1.Err?
    ensures PutPages(h, a + b) == PutPages(h, a)
    decreases |a|
  {
    assert (a + b)[0] == a[0] && (a + b)[1..] == a[1..] + b;
    if a[0].index < PageCount(|h.bytes|) && |a[0].bytes| == PAGE_SIZE {
      PutPagesStops(PutPage(h, a[0].index, a[0].bytes), a[1..], b);
    }
  }
}
