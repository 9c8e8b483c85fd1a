/** The allocator's state and its invariant, with one lemma for each kind of step
    (runtime/alloc.cpp). */
module AllocState {
  import opened LinkedLists
  import opened PageLists

  const PAGE_SIZE: nat := 8192

  /** A chain of objects for one target heap, linked from `head` to `tail`. */
  datatype Entry = Entry(head: nat, tail: nat)

  /** `grouping`, `exporting` and `importing` are the local variables of `export_objs` and
      `import_objs` of the thread that owns the heap. */
  datatype Heap = Heap(currPage: seq<nat>, pageFreeList: seq<nat>, exportList: nat, exportSize: nat, importList: nat,
                       grouping: nat, exporting: map<nat, Entry>, importing: nat)

  datatype State = State(next: map<nat, nat>, pages: Pages, heaps: map<nat, Heap>,
                         lists: Lists, location: map<nat, Place>, current: Runs, available: Runs)

  function PageOf(o: nat): nat {
    o / PAGE_SIZE
  }

  /** The heap that owns the page of `o`. */
  function Owner(st: State, o: nat): nat
    requires PageOf(o) in st.pages
  {
    st.pages[PageOf(o)].heap
  }

  /** Objects in transit are in the lists of the right heaps. */
  ghost predicate HomeOk(st: State, o: nat, pl: Place) {
    && PageOf(o) in st.pages
    && match pl
       case Held => true
       case Free(p) => p == PageOf(o)
       case ToExport(h) => h in st.heaps && h != Owner(st, o)
       case Grouping(h) => h in st.heaps && h != Owner(st, o)
       case Exporting(h, t) => h in st.heaps && h != t && t == Owner(st, o)
       case ToImport(h) => h == Owner(st, o)
       case Importing(h) => h == Owner(st, o)
  }

  /** The header of a page describes its free list; pages kept for reuse are not empty. */
  ghost predicate PageOk(st: State, numSlots: nat, p: nat)
    requires p in st.pages
  {
    var page, free := st.pages[p], At(st.lists, Free(p));
    && page.freeList == Head(free) && page.numFree == |free|
    && (page.inFreeList ==> page.numFree > 0)
    && page.slot < numSlots && page.heap in st.heaps
  }

  ghost predicate EntryOk(st: State, h: nat, t: nat)
    requires h in st.heaps
  {
    var s := At(st.lists, Exporting(h, t));
    if t in st.heaps[h].exporting then s != [] && st.heaps[h].exporting[t] == Entry(s[0], s[|s| - 1])
    else s == []
  }

  ghost predicate SlotOk(st: State, h: nat, i: nat)
    requires h in st.heaps && i < |st.heaps[h].currPage| && i < |st.heaps[h].pageFreeList|
  {
    && (h, i) in st.current && (h, i) in st.available
    && st.heaps[h].currPage[i] == Head(st.current[(h, i)]) && st.heaps[h].pageFreeList[i] == Head(st.available[(h, i)])
  }

  /** The list heads of a heap. */
  ghost predicate HeapOk(st: State, numSlots: nat, h: nat)
    requires h in st.heaps
  {
    var heap := st.heaps[h];
    && |heap.currPage| == numSlots == |heap.pageFreeList|
    && (forall i :: 0 <= i < numSlots ==> SlotOk(st, h, i))
    && heap.exportList == Head(At(st.lists, ToExport(h))) && heap.exportSize == |At(st.lists, ToExport(h))|
    && heap.grouping == Head(At(st.lists, Grouping(h)))
    && heap.importList == Head(At(st.lists, ToImport(h)))
    && heap.importing == Head(At(st.lists, Importing(h)))
    && forall t: nat :: EntryOk(st, h, t)
  }

  ghost predicate Homes(st: State) {
    forall o :: o in st.location ==> HomeOk(st, o, st.location[o])
  }

  ghost predicate PageHeaders(st: State, numSlots: nat) {
    forall p :: p in st.pages ==> PageOk(st, numSlots, p)
  }

  ghost predicate HeapHeads(st: State, numSlots: nat) {
    && (forall key :: key in st.current ==> key.0 in st.heaps && key.1 < numSlots)
    && forall h :: h in st.heaps ==> HeapOk(st, numSlots, h)
  }

  ghost predicate Inv(st: State, numSlots: nat) {
    && ObjectsOk(st.next, st.lists, st.location)
    && PagesOk(st.pages, st.current, st.available)
    && Homes(st) && PageHeaders(st, numSlots) && HeapHeads(st, numSlots)
  }

  // ---------------------------------------------------------------- what a step leaves alone

  /** Pages and heaps only appear; a page never changes its owner. */
  ghost predicate Grows(st: State, st': State) {
    && (forall p :: p in st.pages ==> p in st'.pages && st'.pages[p].heap == st.pages[p].heap)
    && forall h :: h in st.heaps ==> h in st'.heaps
  }

  lemma {:induction false} HomeMono(st: State, st': State, o: nat, pl: Place)
    requires HomeOk(st, o, pl) && Grows(st, st')
    ensures HomeOk(st', o, pl)
  {
  }

  /** One object changes its place. */
  lemma {:induction false} HomesMove(st: State, st': State, o: nat)
    requires Homes(st) && Grows(st, st') && o in st'.location && HomeOk(st', o, st'.location[o])
    requires forall a :: a in st'.location && a != o ==> a in st.location && st'.location[a] == st.location[a]
    ensures Homes(st')
  {
    forall a | a in st'.location ensures HomeOk(st', a, st'.location[a]) {
      if a != o { HomeMono(st, st', a, st.location[a]); }
    }
  }

  /** A step that touches the header and free list of one page only. */
  lemma {:induction false} HeadersMove(st: State, st': State, numSlots: nat, p: nat)
    requires PageHeaders(st, numSlots) && Grows(st, st') && p in st'.pages && PageOk(st', numSlots, p)
    requires forall q :: q in st'.pages && q != p ==> q in st.pages && st'.pages[q] == st.pages[q]
    requires forall q :: q != p ==> At(st'.lists, Free(q)) == At(st.lists, Free(q))
    ensures PageHeaders(st', numSlots)
  {
    forall q | q in st'.pages ensures PageOk(st', numSlots, q) {
      if q != p { assert PageOk(st, numSlots, q); }
    }
  }

  /** A step that does not touch pages or page free lists. */
  lemma {:induction false} HeadersKept(st: State, st': State, numSlots: nat)
    requires PageHeaders(st, numSlots) && st'.pages == st.pages && Grows(st, st')
    requires forall q :: At(st'.lists, Free(q)) == At(st.lists, Free(q))
    ensures PageHeaders(st', numSlots)
  {
    forall q | q in st'.pages ensures PageOk(st', numSlots, q) {
      assert PageOk(st, numSlots, q);
    }
  }

  /** The lists whose heads are fields of heap `h`. */
  predicate OfHeap(pl: Place, h: nat) {
    pl == ToExport(h) || pl == Grouping(h) || pl == ToImport(h) || pl == Importing(h) || (pl.Exporting? && pl.heap == h)
  }

  /** A step that leaves the lists and fields of one heap alone. */
  lemma {:induction false} HeapKept(st: State, st': State, numSlots: nat, h: nat)
    requires h in st.heaps && HeapOk(st, numSlots, h) && h in st'.heaps && st'.heaps[h] == st.heaps[h]
    requires forall i :: (h, i) in st.current ==> (h, i) in st'.current && st'.current[(h, i)] == st.current[(h, i)]
    requires forall i :: (h, i) in st.available ==> (h, i) in st'.available && st'.available[(h, i)] == st.available[(h, i)]
    requires forall pl: Place :: OfHeap(pl, h) ==> At(st'.lists, pl) == At(st.lists, pl)
    ensures HeapOk(st', numSlots, h)
  {
    forall i | 0 <= i < numSlots ensures SlotOk(st', h, i) {
      assert SlotOk(st, h, i);
    }
    forall t: nat ensures EntryOk(st', h, t) {
      assert EntryOk(st, h, t);
    }
  }

  lemma {:induction false} HeapsKept(st: State, st': State, numSlots: nat)
    requires HeapHeads(st, numSlots)
    requires st'.heaps == st.heaps && st'.current == st.current && st'.available == st.available
    requires forall pl: Place :: !pl.Free? ==> At(st'.lists, pl) == At(st.lists, pl)
    ensures HeapHeads(st', numSlots)
  {
    forall h | h in st'.heaps ensures HeapOk(st', numSlots, h) {
      HeapKept(st, st', numSlots, h);
    }
  }

  /** A step of heap `h` that changes list heads but no page lists. */
  lemma {:induction false} HeadsMove(st: State, st': State, numSlots: nat, h: nat, t: nat)
    requires HeapHeads(st, numSlots) && st'.heaps.Keys == st.heaps.Keys
    requires st'.current == st.current && st'.available == st.available
    requires forall g :: g in st.heaps && g != h && g != t ==> st'.heaps[g] == st.heaps[g]
    requires forall pl: Place, g :: OfHeap(pl, g) && g != h && g != t ==> At(st'.lists, pl) == At(st.lists, pl)
    requires h in st'.heaps && HeapOk(st', numSlots, h) && t in st'.heaps && HeapOk(st', numSlots, t)
    ensures HeapHeads(st', numSlots)
  {
    forall g | g in st'.heaps ensures HeapOk(st', numSlots, g) {
      if g != h && g != t { HeapKept(st, st', numSlots, g); }
    }
  }

  /** The page lists of a heap whose page pointers are the same. */
  lemma {:induction false} SlotsKept(st: State, st': State, numSlots: nat, h: nat)
    requires h in st.heaps && HeapOk(st, numSlots, h) && h in st'.heaps
    requires st'.heaps[h].currPage == st.heaps[h].currPage && st'.heaps[h].pageFreeList == st.heaps[h].pageFreeList
    requires st'.current == st.current && st'.available == st.available
    ensures forall i :: 0 <= i < numSlots ==> SlotOk(st', h, i)
  {
    forall i | 0 <= i < numSlots ensures SlotOk(st', h, i) { assert SlotOk(st, h, i); }
  }

  /** The location of every object stays good when nothing moves. */
  lemma {:induction false} HomesKept(st: State, st': State)
    requires Homes(st) && Grows(st, st') && st'.location == st.location
    ensures Homes(st')
  {
    forall a | a in st'.location ensures HomeOk(st', a, st'.location[a]) {
      HomeMono(st, st', a, st.location[a]);
    }
  }

  /** A whole list moves. */
  lemma {:induction false} HomesRelocate(st: State, st': State, s: seq<nat>, pl: Place)
    requires Homes(st) && Grows(st, st') && st'.location == Relocate(st.location, s, pl)
    requires forall a :: a in st.location && a in s ==> HomeOk(st', a, pl)
    ensures Homes(st')
  {
    forall a | a in st'.location ensures HomeOk(st', a, st'.location[a]) {
      if a !in s { HomeMono(st, st', a, st.location[a]); }
    }
  }

  lemma {:induction false} HomeOfListed(st: State, pl: Place)
    requires ObjectsOk(st.next, st.lists, st.location) && Homes(st)
    ensures forall a :: a in At(st.lists, pl) ==> a in st.location && st.location[a] == pl && HomeOk(st, a, pl)
  {
    assert ListOk(st.next, st.lists, st.location, pl);
  }

  // ---------------------------------------------------------------- objects and page free lists

  /** `push_free_obj` without the move to the other page list. */
  function PushFree(st: State, o: nat): State
    requires PageOf(o) in st.pages
  {
    var p := PageOf(o);
    var s := At(st.lists, Free(p));
    st.(next := st.next[o := Head(s)], pages := st.pages[p := st.pages[p].(freeList := o, numFree := st.pages[p].numFree + 1)],
        lists := st.lists[Free(p) := [o] + s], location := st.location[o := Free(p)])
  }

  lemma {:induction false} PushFreeHomes(st: State, o: nat)
    requires Homes(st) && PageOf(o) in st.pages
    ensures Homes(PushFree(st, o))
  {
    HomesMove(st, PushFree(st, o), o);
  }

  lemma {:induction false} PushFreeHeaders(st: State, numSlots: nat, o: nat)
    requires PageHeaders(st, numSlots) && PageOf(o) in st.pages
    ensures PageHeaders(PushFree(st, o), numSlots)
  {
    assert PageOk(st, numSlots, PageOf(o));
    HeadersMove(st, PushFree(st, o), numSlots, PageOf(o));
  }

  lemma {:induction false} PushFreeObjects(st: State, o: nat)
    requires ObjectsOk(st.next, st.lists, st.location)
    requires o in st.location && st.location[o] == Held && PageOf(o) in st.pages
    ensures ObjectsOk(PushFree(st, o).next, PushFree(st, o).lists, PushFree(st, o).location)
  {
    Push(st.next, st.lists, st.location, Free(PageOf(o)), o);
  }

  lemma {:induction false} PushFreePages(st: State, o: nat)
    requires PagesOk(st.pages, st.current, st.available) && PageOf(o) in st.pages
    ensures PagesOk(PushFree(st, o).pages, st.current, st.available)
  {
    var p, n := PageOf(o), st.pages[PageOf(o)].numFree + 1;
    assert PushFree(st, o).pages == st.pages[p := st.pages[p].(freeList := o, numFree := n)];
    Recount(st.pages, st.current, st.available, p, o, n);
  }

  lemma {:induction false} PushFreeHeads(st: State, numSlots: nat, o: nat)
    requires HeapHeads(st, numSlots) && PageOf(o) in st.pages
    ensures HeapHeads(PushFree(st, o), numSlots)
  {
    HeapsKept(st, PushFree(st, o), numSlots);
  }

  lemma {:induction false} PushFreeInv(st: State, numSlots: nat, o: nat)
    requires Inv(st, numSlots) && o in st.location && st.location[o] == Held
    ensures PageOf(o) in st.pages && Inv(PushFree(st, o), numSlots)
  {
    assert PageOf(o) in st.pages by { assert HomeOk(st, o, Held); }
    PushFreeObjects(st, o);
    PushFreePages(st, o);
    PushFreeHomes(st, o);
    PushFreeHeaders(st, numSlots, o);
    PushFreeHeads(st, numSlots, o);
  }

  /** Take the first free object of a page. */
  function PopFree(st: State, p: nat): State
    requires p in st.pages && At(st.lists, Free(p)) != []
  {
    var s := At(st.lists, Free(p));
    st.(pages := st.pages[p := st.pages[p].(freeList := Head(s[1..]), numFree := |s| - 1)],
        lists := st.lists[Free(p) := s[1..]], location := st.location[s[0] := Held])
  }

  lemma {:induction false} PopFreeHomes(st: State, p: nat)
    requires Homes(st) && p in st.pages && At(st.lists, Free(p)) != [] && PageOf(At(st.lists, Free(p))[0]) == p
    ensures Homes(PopFree(st, p))
  {
    HomesMove(st, PopFree(st, p), At(st.lists, Free(p))[0]);
  }

  lemma {:induction false} PopFreeHeaders(st: State, numSlots: nat, p: nat)
    requires PageHeaders(st, numSlots) && p in st.pages && !st.pages[p].inFreeList && At(st.lists, Free(p)) != []
    ensures PageHeaders(PopFree(st, p), numSlots)
  {
    assert PageOk(st, numSlots, p);
    HeadersMove(st, PopFree(st, p), numSlots, p);
  }

  lemma {:induction false} FreeObject(st: State, numSlots: nat, p: nat)
    requires Inv(st, numSlots) && p in st.pages && At(st.lists, Free(p)) != []
    ensures var o := At(st.lists, Free(p))[0];
      && o in st.next && st.next[o] == Head(At(st.lists, Free(p))[1..]) && PageOf(o) == p
      && o in st.location && st.location[o] == Free(p)
  {
    Pop(st.next, st.lists, st.location, Free(p));
    assert HomeOk(st, At(st.lists, Free(p))[0], Free(p));
  }

  lemma {:induction false} PopFreeLists(st: State, p: nat)
    requires ObjectsOk(st.next, st.lists, st.location) && PagesOk(st.pages, st.current, st.available)
    requires p in st.pages && At(st.lists, Free(p)) != []
    ensures ObjectsOk(st.next, PopFree(st, p).lists, PopFree(st, p).location)
    ensures PagesOk(PopFree(st, p).pages, st.current, st.available)
  {
    var s := At(st.lists, Free(p));
    Pop(st.next, st.lists, st.location, Free(p));
    Recount(st.pages, st.current, st.available, p, Head(s[1..]), |s| - 1);
  }

  lemma {:induction false} PopFreeHeads(st: State, numSlots: nat, p: nat)
    requires HeapHeads(st, numSlots) && p in st.pages && At(st.lists, Free(p)) != []
    ensures HeapHeads(PopFree(st, p), numSlots)
  {
    HeapsKept(st, PopFree(st, p), numSlots);
  }

  lemma {:induction false} PopFreeInv(st: State, numSlots: nat, p: nat)
    requires Inv(st, numSlots) && p in st.pages && !st.pages[p].inFreeList && At(st.lists, Free(p)) != []
    ensures Inv(PopFree(st, p), numSlots)
  {
    FreeObject(st, numSlots, p);
    PopFreeLists(st, p);
    PopFreeHomes(st, p);
    PopFreeHeaders(st, numSlots, p);
    PopFreeHeads(st, numSlots, p);
  }

  // ---------------------------------------------------------------- page lists

  /** The two list heads of slot `i` follow the two lists. */
  function SetSlot(st: State, h: nat, i: nat, cur: seq<nat>, avail: seq<nat>): State
    requires h in st.heaps && i < |st.heaps[h].currPage| && i < |st.heaps[h].pageFreeList|
  {
    var heap := st.heaps[h];
    st.(heaps := st.heaps[h := heap.(currPage := heap.currPage[i := Head(cur)], pageFreeList := heap.pageFreeList[i := Head(avail)])],
        current := st.current[(h, i) := cur], available := st.available[(h, i) := avail])
  }

  lemma {:induction false} SetSlotHeap(st: State, st': State, numSlots: nat, h: nat, i: nat, cur: seq<nat>, avail: seq<nat>)
    requires h in st.heaps && HeapOk(st, numSlots, h) && i < numSlots
    requires var st2 := SetSlot(st, h, i, cur, avail);
      st'.heaps == st2.heaps && st'.current == st2.current && st'.available == st2.available
    requires forall pl: Place :: !pl.Free? ==> At(st'.lists, pl) == At(st.lists, pl)
    ensures HeapOk(st', numSlots, h)
  {
    forall k | 0 <= k < numSlots ensures SlotOk(st', h, k) {
      assert SlotOk(st, h, k);
    }
    forall t: nat ensures EntryOk(st', h, t) {
      assert EntryOk(st, h, t);
    }
  }

  lemma {:induction false} SetSlotHeads(st: State, st': State, numSlots: nat, h: nat, i: nat, cur: seq<nat>, avail: seq<nat>)
    requires HeapHeads(st, numSlots) && h in st.heaps && HeapOk(st, numSlots, h) && i < numSlots
    requires var st2 := SetSlot(st, h, i, cur, avail);
      st'.heaps == st2.heaps && st'.current == st2.current && st'.available == st2.available
    requires forall pl: Place :: !pl.Free? ==> At(st'.lists, pl) == At(st.lists, pl)
    ensures HeapHeads(st', numSlots)
  {
    SetSlotHeap(st, st', numSlots, h, i, cur, avail);
    forall g | g in st'.heaps && g != h ensures HeapOk(st', numSlots, g) {
      HeapKept(st, st', numSlots, g);
    }
    assert HeapOk(st, numSlots, h) && SlotOk(st, h, i);
  }

  /** The pointers that moving a page follows are not null. */
  predicate RecycleDefined(st: State, p: nat, k: nat) {
    && p in st.pages && st.pages[p].heap in st.heaps
    && var h, i := st.pages[p].heap, st.pages[p].slot;
    && i < |st.heaps[h].currPage| && i < |st.heaps[h].pageFreeList|
    && (h, i) in st.current && (h, i) in st.available && k < |st.current[(h, i)]|
    && st.pages[p].prev in st.pages && (st.pages[p].next != 0 ==> st.pages[p].next in st.pages)
    && (Head(st.available[(h, i)]) != 0 ==> Head(st.available[(h, i)]) in st.pages)
  }

  /** A page moves to the list of pages with many free objects. */
  function Recycled(st: State, p: nat, k: nat): State
    requires RecycleDefined(st, p, k)
  {
    var h, i := st.pages[p].heap, st.pages[p].slot;
    var s, a := st.current[(h, i)], st.available[(h, i)];
    SetSlot(st, h, i, s[..k] + s[k + 1..], [p] + a).(pages := MoveToFree(st.pages, Head(a), p))
  }

  /** `p` is the `k`-th current page of its slot, not the first, and has a free object. */
  ghost predicate MayRecycle(st: State, p: nat, k: nat) {
    && p in st.pages && !st.pages[p].inFreeList && st.pages[p].numFree > 0
    && var key := (st.pages[p].heap, st.pages[p].slot);
       key in st.current && 0 < k < |st.current[key]| && st.current[key][k] == p
  }

  lemma {:induction false} RecycledReady(st: State, numSlots: nat, p: nat, k: nat)
    requires PagesOk(st.pages, st.current, st.available) && PageHeaders(st, numSlots) && HeapHeads(st, numSlots) && MayRecycle(st, p, k)
    ensures RecycleDefined(st, p, k) && st.pages[p].slot < numSlots && HeapOk(st, numSlots, st.pages[p].heap)
  {
    assert PageOk(st, numSlots, p);
    var h := st.pages[p].heap;
    assert HeapOk(st, numSlots, h);
    Recycle(st.pages, st.current, st.available, (h, st.pages[p].slot), k);
  }

  lemma {:induction false} RecycledInv(st: State, numSlots: nat, p: nat, k: nat)
    requires Inv(st, numSlots) && MayRecycle(st, p, k)
    ensures RecycleDefined(st, p, k) && Inv(Recycled(st, p, k), numSlots)
  {
    RecycledReady(st, numSlots, p, k);
    var st' := Recycled(st, p, k);
    RecycledPages(st, numSlots, p, k);
    RecycledKeeps(st, numSlots, p, k);
    HomesKept(st, st');
    var h, i := st.pages[p].heap, st.pages[p].slot;
    SetSlotHeads(st, st', numSlots, h, i, st.current[(h, i)][..k] + st.current[(h, i)][k + 1..], [p] + st.available[(h, i)]);
  }

  lemma {:induction false} RecycledPages(st: State, numSlots: nat, p: nat, k: nat)
    requires PagesOk(st.pages, st.current, st.available) && RecycleDefined(st, p, k) && MayRecycle(st, p, k)
    ensures var st' := Recycled(st, p, k); PagesOk(st'.pages, st'.current, st'.available)
  {
    var st', key := Recycled(st, p, k), (st.pages[p].heap, st.pages[p].slot);
    var s, a := st.current[key], st.available[key];
    Recycle(st.pages, st.current, st.available, key, k);
    assert st'.pages == MoveToFree(st.pages, Head(a), p);
    assert st'.current == st.current[key := s[..k] + s[k + 1..]] && st'.available == st.available[key := [p] + a];
  }

  lemma {:induction false} RecycledKeeps(st: State, numSlots: nat, p: nat, k: nat)
    requires PageHeaders(st, numSlots) && RecycleDefined(st, p, k) && MayRecycle(st, p, k)
    ensures var st' := Recycled(st, p, k); Grows(st, st') && PageHeaders(st', numSlots)
  {
    var st', key := Recycled(st, p, k), (st.pages[p].heap, st.pages[p].slot);
    MoveToFreeKeeps(st.pages, Head(st.available[key]), p);
    assert st'.pages == MoveToFree(st.pages, Head(st.available[key]), p);
    assert PageOk(st, numSlots, p);
    forall q | q in st'.pages ensures PageOk(st', numSlots, q) {
      assert PageOk(st, numSlots, q) && At(st'.lists, Free(q)) == At(st.lists, Free(q));
    }
  }

  /** The first page of the list of pages with many free objects becomes the current page. */
  function Reused(st: State, h: nat, i: nat): State
    requires h in st.heaps && i < |st.heaps[h].currPage| && i < |st.heaps[h].pageFreeList|
    requires (h, i) in st.current && (h, i) in st.available && st.available[(h, i)] != []
    requires st.available[(h, i)][0] in st.pages && (Head(st.current[(h, i)]) != 0 ==> Head(st.current[(h, i)]) in st.pages)
  {
    var s, a := st.current[(h, i)], st.available[(h, i)];
    var p := a[0];
    SetSlot(st, h, i, [p] + s, a[1..]).(pages := Insert(st.pages[p := st.pages[p].(inFreeList := false)], Head(s), p))
  }

  lemma {:induction false} ReusedReady(st: State, numSlots: nat, h: nat, i: nat)
    requires PagesOk(st.pages, st.current, st.available) && HeapHeads(st, numSlots) && h in st.heaps && i < numSlots
    requires st.heaps[h].pageFreeList[i] != 0
    ensures HeapOk(st, numSlots, h) && (h, i) in st.current && (h, i) in st.available && st.available[(h, i)] != []
    ensures st.heaps[h].pageFreeList[i] == st.available[(h, i)][0]
    ensures st.available[(h, i)][0] in st.pages && (Head(st.current[(h, i)]) != 0 ==> Head(st.current[(h, i)]) in st.pages)
    ensures st.pages[st.available[(h, i)][0]].next == Head(st.available[(h, i)][1..]) && st.pages[st.available[(h, i)][0]].inFreeList
    ensures st.heaps[h].currPage[i] == Head(st.current[(h, i)])
  {
    assert HeapOk(st, numSlots, h) && SlotOk(st, h, i);
    Reuse(st.pages, st.current, st.available, (h, i));
    assert RunOk(st.pages, st.available[(h, i)], (h, i), true) && st.available[(h, i)][0] in st.available[(h, i)];
  }

  lemma {:induction false} ReusedPages(st: State, h: nat, i: nat)
    requires PagesOk(st.pages, st.current, st.available) && Reused.requires(st, h, i)
    ensures var st' := Reused(st, h, i); PagesOk(st'.pages, st'.current, st'.available)
  {
    var st' := Reused(st, h, i);
    var s, a := st.current[(h, i)], st.available[(h, i)];
    Reuse(st.pages, st.current, st.available, (h, i));
    assert st'.pages == Insert(st.pages[a[0] := st.pages[a[0]].(inFreeList := false)], Head(s), a[0]);
    assert st'.current == st.current[(h, i) := [a[0]] + s] && st'.available == st.available[(h, i) := a[1..]];
  }

  lemma {:induction false} ReusedKeeps(st: State, numSlots: nat, h: nat, i: nat)
    requires PageHeaders(st, numSlots) && Reused.requires(st, h, i)
    ensures var st' := Reused(st, h, i); Grows(st, st') && PageHeaders(st', numSlots)
  {
    var st' := Reused(st, h, i);
    forall q | q in st.pages ensures q in st'.pages && SameHeader(st.pages[q], st'.pages[q]) && (st'.pages[q].inFreeList ==> st.pages[q].inFreeList) { }
    forall q | q in st'.pages ensures PageOk(st', numSlots, q) {
      assert PageOk(st, numSlots, q) && At(st'.lists, Free(q)) == At(st.lists, Free(q));
    }
  }

  /** The page taken for reuse is not empty, so allocation can go on with it. */
  lemma {:induction false} ReusedInv(st: State, numSlots: nat, h: nat, i: nat)
    requires Inv(st, numSlots) && h in st.heaps && i < numSlots && HeapOk(st, numSlots, h) && st.heaps[h].pageFreeList[i] != 0
    ensures Reused.requires(st, h, i) && Inv(Reused(st, h, i), numSlots)
    ensures At(st.lists, Free(st.heaps[h].pageFreeList[i])) != []
  {
    ReusedReady(st, numSlots, h, i);
    var st', p := Reused(st, h, i), st.available[(h, i)][0];
    assert PageOk(st, numSlots, p);
    ReusedPages(st, h, i);
    ReusedKeeps(st, numSlots, h, i);
    HomesKept(st, st');
    SetSlotHeads(st, st', numSlots, h, i, [p] + st.current[(h, i)], st.available[(h, i)][1..]);
  }

  /** A new page with the free objects `s`, linked by `next`. */
  function WithPage(st: State, h: nat, i: nat, p: nat, next: map<nat, nat>, s: seq<nat>): State
    requires h in st.heaps && i < |st.heaps[h].currPage| && i < |st.heaps[h].pageFreeList|
    requires (h, i) in st.current && (h, i) in st.available && (Head(st.current[(h, i)]) != 0 ==> Head(st.current[(h, i)]) in st.pages)
  {
    var page := Page(h, 0, 0, Head(s), |s|, |s|, i, false);
    var cur := st.current[(h, i)];
    SetSlot(st, h, i, [p] + cur, st.available[(h, i)]).(next := next, pages := Insert(st.pages[p := page], Head(cur), p),
      lists := st.lists[Free(p) := s], location := st.location + AllAt(s, Free(p)))
  }

  /** A fresh page and fresh objects inside it. */
  ghost predicate FreshPage(st: State, p: nat, next: map<nat, nat>, s: seq<nat>) {
    && p !in st.pages && p != 0 && Linked(next, s) && NoDup(s) && (forall o :: o in s ==> PageOf(o) == p)
    && forall o :: o in st.location && o in st.next ==> o in next && next[o] == st.next[o]
  }

  lemma {:induction false} NoPageNoObjects(st: State, p: nat)
    requires ObjectsOk(st.next, st.lists, st.location) && Homes(st) && p !in st.pages
    ensures At(st.lists, Free(p)) == [] && forall o :: PageOf(o) == p ==> o !in st.location
  {
    forall o | o in st.location ensures PageOf(o) in st.pages {
      assert HomeOk(st, o, st.location[o]);
    }
    HomeOfListed(st, Free(p));
    Inhabited(At(st.lists, Free(p)));
  }

  lemma {:induction false} Inhabited(s: seq<nat>)
    ensures s == [] || exists a :: a in s
  {
    if s != [] { assert s[0] in s; }
  }

  lemma {:induction false} WithPageObjects(st: State, h: nat, i: nat, p: nat, next: map<nat, nat>, s: seq<nat>)
    requires ObjectsOk(st.next, st.lists, st.location) && Homes(st) && FreshPage(st, p, next, s) && WithPage.requires(st, h, i, p, next, s)
    ensures var st' := WithPage(st, h, i, p, next, s); ObjectsOk(st'.next, st'.lists, st'.location)
  {
    var st' := WithPage(st, h, i, p, next, s);
    NoPageNoObjects(st, p);
    NewList(st.next, st.lists, st.location, next, Free(p), s);
    assert st'.next == next && st'.lists == st.lists[Free(p) := s];
    assert st'.location == st.location + AllAt(s, Free(p));
  }

  /** The page lists with the new page. */
  lemma {:induction false} WithPageParts(st: State, h: nat, i: nat, p: nat, next: map<nat, nat>, s: seq<nat>)
    requires WithPage.requires(st, h, i, p, next, s)
    ensures var st', page := WithPage(st, h, i, p, next, s), Page(h, 0, 0, Head(s), |s|, |s|, i, false);
      && st'.pages == Insert(st.pages[p := page], Head(st.current[(h, i)]), p)
      && st'.current == st.current[(h, i) := [p] + st.current[(h, i)]] && st'.available == st.available
  {
    assert st.available[(h, i) := st.available[(h, i)]] == st.available;
  }

  lemma {:induction false} WithPagePages(st: State, h: nat, i: nat, p: nat, next: map<nat, nat>, s: seq<nat>)
    requires PagesOk(st.pages, st.current, st.available) && FreshPage(st, p, next, s) && WithPage.requires(st, h, i, p, next, s)
    ensures var st' := WithPage(st, h, i, p, next, s); PagesOk(st'.pages, st'.current, st'.available)
  {
    assert p !in st.pages && p != 0;
    hide PagesOk, FreshPage, WithPage, Insert;
    WithPageParts(st, h, i, p, next, s);
    AddPage(st.pages, st.current, st.available, p, Page(h, 0, 0, Head(s), |s|, |s|, i, false));
  }

  lemma {:induction false} WithPageKeeps(st: State, numSlots: nat, h: nat, i: nat, p: nat, next: map<nat, nat>, s: seq<nat>)
    requires PageHeaders(st, numSlots) && FreshPage(st, p, next, s) && WithPage.requires(st, h, i, p, next, s) && i < numSlots
    ensures var st' := WithPage(st, h, i, p, next, s); Grows(st, st') && PageHeaders(st', numSlots)
  {
    var st' := WithPage(st, h, i, p, next, s);
    forall q | q in st.pages ensures q in st'.pages && SameHeader(st.pages[q], st'.pages[q]) && st'.pages[q].inFreeList == st.pages[q].inFreeList { }
    assert st'.pages[p].heap == h && st'.pages[p].slot == i && !st'.pages[p].inFreeList;
    forall q | q in st'.pages ensures PageOk(st', numSlots, q) {
      if q != p { assert PageOk(st, numSlots, q) && At(st'.lists, Free(q)) == At(st.lists, Free(q)); }
    }
  }

  lemma {:induction false} WithPageHomes(st: State, h: nat, i: nat, p: nat, next: map<nat, nat>, s: seq<nat>)
    requires Homes(st) && FreshPage(st, p, next, s) && WithPage.requires(st, h, i, p, next, s)
    requires Grows(st, WithPage(st, h, i, p, next, s))
    ensures Homes(WithPage(st, h, i, p, next, s))
  {
    var st' := WithPage(st, h, i, p, next, s);
    forall a | a in st'.location ensures HomeOk(st', a, st'.location[a]) {
      if a in st.location && a !in s { HomeMono(st, st', a, st.location[a]); }
    }
  }

  lemma {:induction false} WithPageHeads(st: State, numSlots: nat, h: nat, i: nat, p: nat, next: map<nat, nat>, s: seq<nat>)
    requires HeapHeads(st, numSlots) && WithPage.requires(st, h, i, p, next, s) && i < numSlots
    ensures HeapHeads(WithPage(st, h, i, p, next, s), numSlots)
  {
    assert HeapOk(st, numSlots, h);
    SetSlotHeads(st, WithPage(st, h, i, p, next, s), numSlots, h, i, [p] + st.current[(h, i)], st.available[(h, i)]);
  }

  lemma {:induction false} WithPageInv(st: State, numSlots: nat, h: nat, i: nat, p: nat, next: map<nat, nat>, s: seq<nat>)
    requires Inv(st, numSlots) && FreshPage(st, p, next, s) && WithPage.requires(st, h, i, p, next, s) && i < numSlots
    ensures Inv(WithPage(st, h, i, p, next, s), numSlots)
  {
    WithPageObjects(st, h, i, p, next, s);
    WithPagePages(st, h, i, p, next, s);
    WithPageKeeps(st, numSlots, h, i, p, next, s);
    WithPageHomes(st, h, i, p, next, s);
    WithPageHeads(st, numSlots, h, i, p, next, s);
  }

  // ---------------------------------------------------------------- export and import

  /** `dealloc_small_core_cold`: an object of another heap waits for export. */
  function ExportPush(st: State, h: nat, o: nat): State
    requires h in st.heaps
  {
    var pl := ToExport(h);
    var heap := st.heaps[h];
    st.(next := st.next[o := Head(At(st.lists, pl))],
        heaps := st.heaps[h := heap.(exportList := o, exportSize := heap.exportSize + 1)],
        lists := st.lists[pl := [o] + At(st.lists, pl)], location := st.location[o := pl])
  }

  lemma {:induction false} ExportPushHeap(st: State, numSlots: nat, h: nat, o: nat)
    requires HeapHeads(st, numSlots) && h in st.heaps
    ensures HeapOk(ExportPush(st, h, o), numSlots, h)
  {
    var st' := ExportPush(st, h, o);
    assert HeapOk(st, numSlots, h);
    SlotsKept(st, st', numSlots, h);
    forall t: nat ensures EntryOk(st', h, t) { assert EntryOk(st, h, t); }
  }

  lemma {:induction false} ExportPushHeads(st: State, numSlots: nat, h: nat, o: nat)
    requires HeapHeads(st, numSlots) && h in st.heaps
    ensures HeapHeads(ExportPush(st, h, o), numSlots)
  {
    ExportPushHeap(st, numSlots, h, o);
    hide HeapOk;
    HeadsMove(st, ExportPush(st, h, o), numSlots, h, h);
  }

  lemma {:induction false} ExportPushObjects(st: State, h: nat, o: nat)
    requires ObjectsOk(st.next, st.lists, st.location) && h in st.heaps && o in st.location && st.location[o] == Held
    ensures var st' := ExportPush(st, h, o); ObjectsOk(st'.next, st'.lists, st'.location)
  {
    var st', pl := ExportPush(st, h, o), ToExport(h);
    assert st'.next == st.next[o := Head(At(st.lists, pl))] && st'.lists == st.lists[pl := [o] + At(st.lists, pl)];
    assert st'.location == st.location[o := pl];
    Push(st.next, st.lists, st.location, pl, o);
  }

  lemma {:induction false} ExportPushHomes(st: State, numSlots: nat, h: nat, o: nat)
    requires Homes(st) && PageHeaders(st, numSlots) && h in st.heaps && PageOf(o) in st.pages && Owner(st, o) != h
    ensures Homes(ExportPush(st, h, o)) && PageHeaders(ExportPush(st, h, o), numSlots)
  {
    HomesMove(st, ExportPush(st, h, o), o);
    HeadersKept(st, ExportPush(st, h, o), numSlots);
  }

  lemma {:induction false} ExportPushInv(st: State, numSlots: nat, h: nat, o: nat)
    requires Inv(st, numSlots) && h in st.heaps && o in st.location && st.location[o] == Held
    requires PageOf(o) in st.pages && Owner(st, o) != h
    ensures Inv(ExportPush(st, h, o), numSlots)
  {
    ExportPushObjects(st, h, o);
    ExportPushHomes(st, numSlots, h, o);
    ExportPushHeads(st, numSlots, h, o);
  }

  /** `export_objs` takes its list. */
  function GroupBegin(st: State, h: nat): State
    requires h in st.heaps
  {
    var from, to := ToExport(h), Grouping(h);
    var s := At(st.lists, from);
    st.(heaps := st.heaps[h := st.heaps[h].(grouping := st.heaps[h].exportList, exportList := 0, exportSize := 0)],
        lists := st.lists[from := []][to := s], location := Relocate(st.location, s, to))
  }

  lemma {:induction false} GroupBeginHeap(st: State, numSlots: nat, h: nat)
    requires HeapHeads(st, numSlots) && h in st.heaps
    ensures HeapOk(GroupBegin(st, h), numSlots, h)
  {
    var st' := GroupBegin(st, h);
    assert HeapOk(st, numSlots, h);
    SlotsKept(st, st', numSlots, h);
    forall t: nat ensures EntryOk(st', h, t) { assert EntryOk(st, h, t); }
  }

  lemma {:induction false} GroupBeginHeads(st: State, numSlots: nat, h: nat)
    requires HeapHeads(st, numSlots) && h in st.heaps
    ensures HeapHeads(GroupBegin(st, h), numSlots)
  {
    GroupBeginHeap(st, numSlots, h);
    hide HeapOk;
    HeadsMove(st, GroupBegin(st, h), numSlots, h, h);
  }

  lemma {:induction false} GroupBeginObjects(st: State, h: nat)
    requires ObjectsOk(st.next, st.lists, st.location) && h in st.heaps && At(st.lists, Grouping(h)) == []
    ensures var st' := GroupBegin(st, h); ObjectsOk(st'.next, st'.lists, st'.location)
  {
    var st', s := GroupBegin(st, h), At(st.lists, ToExport(h));
    assert st'.lists == st.lists[ToExport(h) := []][Grouping(h) := s] && st'.location == Relocate(st.location, s, Grouping(h));
    MoveAll(st.next, st.lists, st.location, ToExport(h), Grouping(h));
  }

  lemma {:induction false} GroupBeginHomes(st: State, numSlots: nat, h: nat)
    requires Homes(st) && PageHeaders(st, numSlots) && h in st.heaps
    requires forall a :: a in At(st.lists, ToExport(h)) ==> HomeOk(st, a, ToExport(h))
    ensures Homes(GroupBegin(st, h)) && PageHeaders(GroupBegin(st, h), numSlots)
  {
    HomesRelocate(st, GroupBegin(st, h), At(st.lists, ToExport(h)), Grouping(h));
    HeadersKept(st, GroupBegin(st, h), numSlots);
  }

  lemma {:induction false} GroupBeginInv(st: State, numSlots: nat, h: nat)
    requires Inv(st, numSlots) && h in st.heaps && At(st.lists, Grouping(h)) == []
    ensures Inv(GroupBegin(st, h), numSlots)
  {
    HomeOfListed(st, ToExport(h));
    GroupBeginObjects(st, h);
    GroupBeginHomes(st, numSlots, h);
    GroupBeginHeads(st, numSlots, h);
  }

  /** `export_objs` moves the first remaining object to the entry of its owner. */
  function GroupStep(st: State, h: nat, t: nat): State
    requires h in st.heaps && At(st.lists, Grouping(h)) != []
  {
    var s, heap := At(st.lists, Grouping(h)), st.heaps[h];
    var o, pl := s[0], Exporting(h, t);
    st.(next := st.next[o := Head(At(st.lists, pl))],
        heaps := st.heaps[h := heap.(grouping := Head(s[1..]),
          exporting := heap.exporting[t := Entry(o, if t in heap.exporting then heap.exporting[t].tail else o)])],
        lists := st.lists[Grouping(h) := s[1..]][pl := [o] + At(st.lists, pl)], location := st.location[o := Held][o := pl])
  }

  /** The new state, field by field. */
  lemma {:induction false} GroupStepState(st: State, h: nat, t: nat, o: nat, link: nat)
    requires GroupStep.requires(st, h, t) && o == At(st.lists, Grouping(h))[0]
    requires link == Head(At(st.lists, Exporting(h, t)))
    ensures var s, heap, pl := At(st.lists, Grouping(h)), st.heaps[h], Exporting(h, t);
      GroupStep(st, h, t) == State(st.next[o := link], st.pages,
        st.heaps[h := heap.(grouping := Head(s[1..]),
          exporting := heap.exporting[t := Entry(o, if t in heap.exporting then heap.exporting[t].tail else o)])],
        st.lists[Grouping(h) := s[1..]][pl := [o] + At(st.lists, pl)], st.location[o := Held][o := pl], st.current, st.available)
  {
  }

  lemma {:induction false} GroupStepObjects(st: State, h: nat, t: nat)
    requires ObjectsOk(st.next, st.lists, st.location) && h in st.heaps && At(st.lists, Grouping(h)) != []
    ensures var st' := GroupStep(st, h, t); ObjectsOk(st'.next, st'.lists, st'.location)
  {
    var st', s, pl := GroupStep(st, h, t), At(st.lists, Grouping(h)), Exporting(h, t);
    Pop(st.next, st.lists, st.location, Grouping(h));
    var lists1, location1 := st.lists[Grouping(h) := s[1..]], st.location[s[0] := Held];
    assert At(lists1, pl) == At(st.lists, pl);
    Push(st.next, lists1, location1, pl, s[0]);
    assert st'.next == st.next[s[0] := Head(At(lists1, pl))] && st'.lists == lists1[pl := [s[0]] + At(lists1, pl)];
    assert st'.location == location1[s[0] := pl];
  }

  lemma {:induction false} GroupStepHeap(st: State, numSlots: nat, h: nat, t: nat)
    requires HeapHeads(st, numSlots) && h in st.heaps && At(st.lists, Grouping(h)) != []
    ensures HeapOk(GroupStep(st, h, t), numSlots, h)
  {
    var st' := GroupStep(st, h, t);
    assert HeapOk(st, numSlots, h);
    SlotsKept(st, st', numSlots, h);
    forall u: nat ensures EntryOk(st', h, u) { assert EntryOk(st, h, u); }
  }

  lemma {:induction false} GroupStepHeads(st: State, numSlots: nat, h: nat, t: nat)
    requires HeapHeads(st, numSlots) && h in st.heaps && At(st.lists, Grouping(h)) != []
    ensures HeapHeads(GroupStep(st, h, t), numSlots)
  {
    GroupStepHeap(st, numSlots, h, t);
    hide HeapOk;
    HeadsMove(st, GroupStep(st, h, t), numSlots, h, h);
  }

  lemma {:induction false} GroupStepHomes(st: State, h: nat, t: nat)
    requires Homes(st) && GroupStep.requires(st, h, t) && HomeOk(st, At(st.lists, Grouping(h))[0], Grouping(h))
    requires At(st.lists, Grouping(h))[0] in st.location && t == Owner(st, At(st.lists, Grouping(h))[0])
    ensures Homes(GroupStep(st, h, t))
  {
    var st', o := GroupStep(st, h, t), At(st.lists, Grouping(h))[0];
    assert st'.location == st.location[o := Exporting(h, t)];
    HomesMove(st, st', o);
  }

  lemma {:induction false} GroupStepHeaders(st: State, numSlots: nat, h: nat, t: nat)
    requires PageHeaders(st, numSlots) && GroupStep.requires(st, h, t)
    ensures PageHeaders(GroupStep(st, h, t), numSlots)
  {
    HeadersKept(st, GroupStep(st, h, t), numSlots);
  }

  lemma {:induction false} GroupStepReady(st: State, numSlots: nat, h: nat)
    requires Inv(st, numSlots) && h in st.heaps && At(st.lists, Grouping(h)) != []
    ensures var o := At(st.lists, Grouping(h))[0];
      HomeOk(st, o, Grouping(h)) && o in st.location && o in st.next && st.next[o] == Head(At(st.lists, Grouping(h))[1..])
  {
    HomeOfListed(st, Grouping(h));
    Pop(st.next, st.lists, st.location, Grouping(h));
    assert At(st.lists, Grouping(h))[0] in At(st.lists, Grouping(h));
  }

  lemma {:induction false} GroupStepInv(st: State, numSlots: nat, h: nat, t: nat)
    requires Inv(st, numSlots) && h in st.heaps && At(st.lists, Grouping(h)) != []
    requires PageOf(At(st.lists, Grouping(h))[0]) in st.pages && t == Owner(st, At(st.lists, Grouping(h))[0])
    ensures Inv(GroupStep(st, h, t), numSlots)
  {
    GroupStepReady(st, numSlots, h);
    GroupStepObjects(st, h, t);
    GroupStepHomes(st, h, t);
    GroupStepHeaders(st, numSlots, h, t);
    GroupStepHeads(st, numSlots, h, t);
  }

  /** One entry is put in front of the import list of its target, under the target's lock. */
  function Publish(st: State, h: nat, t: nat): State
    requires h in st.heaps && t in st.heaps && At(st.lists, Exporting(h, t)) != []
  {
    var from, to := Exporting(h, t), ToImport(t);
    var s, u := At(st.lists, from), At(st.lists, to);
    var heaps1 := st.heaps[h := st.heaps[h].(exporting := st.heaps[h].exporting - {t})];
    st.(next := st.next[s[|s| - 1] := Head(u)], heaps := heaps1[t := heaps1[t].(importList := s[0])],
        lists := st.lists[from := []][to := s + u], location := Relocate(st.location, s, to))
  }

  lemma {:induction false} PublishSource(st: State, numSlots: nat, h: nat, t: nat)
    requires HeapHeads(st, numSlots) && Publish.requires(st, h, t) && h != t
    ensures HeapOk(Publish(st, h, t), numSlots, h)
  {
    var st' := Publish(st, h, t);
    assert HeapOk(st, numSlots, h);
    SlotsKept(st, st', numSlots, h);
    forall u: nat ensures EntryOk(st', h, u) { assert EntryOk(st, h, u); }
  }

  lemma {:induction false} PublishTarget(st: State, numSlots: nat, h: nat, t: nat)
    requires HeapHeads(st, numSlots) && Publish.requires(st, h, t) && h != t
    ensures HeapOk(Publish(st, h, t), numSlots, t)
  {
    var st' := Publish(st, h, t);
    assert HeapOk(st, numSlots, t);
    SlotsKept(st, st', numSlots, t);
    forall u: nat ensures EntryOk(st', t, u) { assert EntryOk(st, t, u); }
  }

  lemma {:induction false} PublishHeads(st: State, numSlots: nat, h: nat, t: nat)
    requires HeapHeads(st, numSlots) && Publish.requires(st, h, t) && h != t
    ensures HeapHeads(Publish(st, h, t), numSlots)
  {
    PublishSource(st, numSlots, h, t);
    PublishTarget(st, numSlots, h, t);
    HeadsMove(st, Publish(st, h, t), numSlots, h, t);
  }

  lemma {:induction false} PublishObjects(st: State, h: nat, t: nat)
    requires ObjectsOk(st.next, st.lists, st.location) && Publish.requires(st, h, t)
    ensures var st' := Publish(st, h, t); ObjectsOk(st'.next, st'.lists, st'.location)
  {
    var st', s, u := Publish(st, h, t), At(st.lists, Exporting(h, t)), At(st.lists, ToImport(t));
    assert st'.next == st.next[s[|s| - 1] := Head(u)] && st'.location == Relocate(st.location, s, ToImport(t));
    assert st'.lists == st.lists[Exporting(h, t) := []][ToImport(t) := s + u];
    Splice(st.next, st.lists, st.location, Exporting(h, t), ToImport(t));
  }

  lemma {:induction false} PublishHomes(st: State, numSlots: nat, h: nat, t: nat)
    requires Homes(st) && PageHeaders(st, numSlots) && Publish.requires(st, h, t)
    requires forall a :: a in At(st.lists, Exporting(h, t)) ==> HomeOk(st, a, Exporting(h, t))
    ensures Homes(Publish(st, h, t)) && PageHeaders(Publish(st, h, t), numSlots)
  {
    HomesRelocate(st, Publish(st, h, t), At(st.lists, Exporting(h, t)), ToImport(t));
    HeadersKept(st, Publish(st, h, t), numSlots);
  }

  lemma {:induction false} PublishInv(st: State, numSlots: nat, h: nat, t: nat)
    requires Inv(st, numSlots) && Publish.requires(st, h, t)
    ensures Inv(Publish(st, h, t), numSlots)
  {
    HomeOfListed(st, Exporting(h, t));
    assert h != t by { assert HomeOk(st, At(st.lists, Exporting(h, t))[0], Exporting(h, t)); }
    PublishObjects(st, h, t);
    PublishHomes(st, numSlots, h, t);
    PublishHeads(st, numSlots, h, t);
  }

  /** `import_objs` takes the whole import list, under the heap's lock. */
  function Grab(st: State, h: nat): State
    requires h in st.heaps
  {
    var from, to := ToImport(h), Importing(h);
    var s := At(st.lists, from);
    st.(heaps := st.heaps[h := st.heaps[h].(importing := st.heaps[h].importList, importList := 0)],
        lists := st.lists[from := []][to := s], location := Relocate(st.location, s, to))
  }

  lemma {:induction false} GrabHeap(st: State, numSlots: nat, h: nat)
    requires HeapHeads(st, numSlots) && h in st.heaps
    ensures HeapOk(Grab(st, h), numSlots, h)
  {
    var st' := Grab(st, h);
    assert HeapOk(st, numSlots, h);
    SlotsKept(st, st', numSlots, h);
    forall t: nat ensures EntryOk(st', h, t) { assert EntryOk(st, h, t); }
  }

  lemma {:induction false} GrabHeads(st: State, numSlots: nat, h: nat)
    requires HeapHeads(st, numSlots) && h in st.heaps
    ensures HeapHeads(Grab(st, h), numSlots)
  {
    GrabHeap(st, numSlots, h);
    hide HeapOk;
    HeadsMove(st, Grab(st, h), numSlots, h, h);
  }

  lemma {:induction false} GrabObjects(st: State, h: nat)
    requires ObjectsOk(st.next, st.lists, st.location) && h in st.heaps && At(st.lists, Importing(h)) == []
    ensures var st' := Grab(st, h); ObjectsOk(st'.next, st'.lists, st'.location)
  {
    var st', s := Grab(st, h), At(st.lists, ToImport(h));
    assert st'.lists == st.lists[ToImport(h) := []][Importing(h) := s] && st'.location == Relocate(st.location, s, Importing(h));
    MoveAll(st.next, st.lists, st.location, ToImport(h), Importing(h));
  }

  lemma {:induction false} GrabHomes(st: State, numSlots: nat, h: nat)
    requires Homes(st) && PageHeaders(st, numSlots) && h in st.heaps
    requires forall a :: a in At(st.lists, ToImport(h)) ==> HomeOk(st, a, ToImport(h))
    ensures Homes(Grab(st, h)) && PageHeaders(Grab(st, h), numSlots)
  {
    HomesRelocate(st, Grab(st, h), At(st.lists, ToImport(h)), Importing(h));
    HeadersKept(st, Grab(st, h), numSlots);
  }

  lemma {:induction false} GrabInv(st: State, numSlots: nat, h: nat)
    requires Inv(st, numSlots) && h in st.heaps && At(st.lists, Importing(h)) == []
    ensures Inv(Grab(st, h), numSlots)
  {
    HomeOfListed(st, ToImport(h));
    GrabObjects(st, h);
    GrabHomes(st, numSlots, h);
    GrabHeads(st, numSlots, h);
  }

  /** `import_objs` takes the first remaining object in hand. */
  function ImportPop(st: State, h: nat): State
    requires h in st.heaps && At(st.lists, Importing(h)) != []
  {
    var s := At(st.lists, Importing(h));
    st.(heaps := st.heaps[h := st.heaps[h].(importing := Head(s[1..]))],
        lists := st.lists[Importing(h) := s[1..]], location := st.location[s[0] := Held])
  }

  lemma {:induction false} ImportPopHeap(st: State, numSlots: nat, h: nat)
    requires HeapHeads(st, numSlots) && ImportPop.requires(st, h)
    ensures HeapOk(ImportPop(st, h), numSlots, h)
  {
    var st' := ImportPop(st, h);
    assert HeapOk(st, numSlots, h);
    SlotsKept(st, st', numSlots, h);
    forall t: nat ensures EntryOk(st', h, t) { assert EntryOk(st, h, t); }
  }

  lemma {:induction false} ImportPopHeads(st: State, numSlots: nat, h: nat)
    requires HeapHeads(st, numSlots) && ImportPop.requires(st, h)
    ensures HeapHeads(ImportPop(st, h), numSlots)
  {
    ImportPopHeap(st, numSlots, h);
    hide HeapOk;
    HeadsMove(st, ImportPop(st, h), numSlots, h, h);
  }

  lemma {:induction false} ImportPopReady(st: State, numSlots: nat, h: nat)
    requires Inv(st, numSlots) && ImportPop.requires(st, h)
    ensures var o := At(st.lists, Importing(h))[0];
      && o in st.next && st.next[o] == Head(At(st.lists, Importing(h))[1..])
      && o in st.location && HomeOk(st, o, Importing(h))
  {
    HomeOfListed(st, Importing(h));
    Pop(st.next, st.lists, st.location, Importing(h));
    assert At(st.lists, Importing(h))[0] in At(st.lists, Importing(h));
  }

  lemma {:induction false} ImportPopObjects(st: State, h: nat)
    requires ObjectsOk(st.next, st.lists, st.location) && ImportPop.requires(st, h)
    ensures var st' := ImportPop(st, h); ObjectsOk(st'.next, st'.lists, st'.location)
  {
    var st', s := ImportPop(st, h), At(st.lists, Importing(h));
    assert st'.next == st.next && st'.lists == st.lists[Importing(h) := s[1..]] && st'.location == st.location[s[0] := Held];
    Pop(st.next, st.lists, st.location, Importing(h));
  }

  lemma {:induction false} ImportPopHomes(st: State, numSlots: nat, h: nat)
    requires Homes(st) && PageHeaders(st, numSlots) && ImportPop.requires(st, h)
    requires HomeOk(st, At(st.lists, Importing(h))[0], Importing(h))
    ensures Homes(ImportPop(st, h)) && PageHeaders(ImportPop(st, h), numSlots)
  {
    HomesMove(st, ImportPop(st, h), At(st.lists, Importing(h))[0]);
    HeadersKept(st, ImportPop(st, h), numSlots);
  }

  lemma {:induction false} ImportPopInv(st: State, numSlots: nat, h: nat)
    requires Inv(st, numSlots) && ImportPop.requires(st, h)
    ensures Inv(ImportPop(st, h), numSlots)
  {
    ImportPopReady(st, numSlots, h);
    ImportPopObjects(st, h);
    ImportPopHomes(st, numSlots, h);
    ImportPopHeads(st, numSlots, h);
  }

  // ---------------------------------------------------------------- new heaps

  function EmptyRuns(h: nat, n: nat): Runs {
    map i | 0 <= i < n :: (h, i) := []
  }

  function EmptyHeap(numSlots: nat): Heap {
    Heap(seq(numSlots, _ => 0), seq(numSlots, _ => 0), 0, 0, 0, 0, map[], 0)
  }

  function WithHeap(st: State, numSlots: nat, h: nat): State {
    st.(heaps := st.heaps[h := EmptyHeap(numSlots)], current := st.current + EmptyRuns(h, numSlots),
        available := st.available + EmptyRuns(h, numSlots))
  }

  lemma {:induction false} EmptyRunsNone(runs: Runs, h: nat)
    ensures runs + EmptyRuns(h, 0) == runs
  {
  }

  lemma {:induction false} EmptyRunsNext(runs: Runs, h: nat, n: nat)
    ensures (h, n) in runs + EmptyRuns(h, n) ==> (h, n) in runs
    ensures runs + EmptyRuns(h, n + 1) == (runs + EmptyRuns(h, n))[(h, n) := []]
  {
    forall key ensures key in EmptyRuns(h, n + 1) <==> key in EmptyRuns(h, n) || key == (h, n) {
      assert key in EmptyRuns(h, n + 1) <==> key.0 == h && 0 <= key.1 < n + 1;
    }
  }

  lemma {:induction false} AddKeyAfter(pages: Pages, current: Runs, available: Runs, current': Runs, available': Runs, key: (nat, nat))
    requires PagesOk(pages, current, available) && key !in current
    requires current' == current[key := []] && available' == available[key := []]
    ensures PagesOk(pages, current', available')
  {
    AddKey(pages, current, available, key);
  }

  lemma {:induction false} AddRuns(pages: Pages, current: Runs, available: Runs, h: nat, n: nat)
    requires PagesOk(pages, current, available) && forall i :: (h, i) !in current
    ensures PagesOk(pages, current + EmptyRuns(h, n), available + EmptyRuns(h, n))
  {
    hide PagesOk, EmptyRuns;
    if n == 0 {
      EmptyRunsNone(current, h);
      EmptyRunsNone(available, h);
    } else {
      var m := n - 1;
      AddRuns(pages, current, available, h, m);
      EmptyRunsNext(current, h, m);
      EmptyRunsNext(available, h, m);
      AddKeyAfter(pages, current + EmptyRuns(h, m), available + EmptyRuns(h, m), current + EmptyRuns(h, n), available + EmptyRuns(h, n), (h, m));
    }
  }

  lemma {:induction false} NoHeapNoLists(st: State, numSlots: nat, h: nat)
    requires Inv(st, numSlots) && h !in st.heaps
    ensures forall pl: Place :: OfHeap(pl, h) ==> At(st.lists, pl) == []
  {
    forall pl: Place | OfHeap(pl, h) ensures At(st.lists, pl) == [] {
      HomeOfListed(st, pl);
      forall a ensures a !in At(st.lists, pl) {
        if a in At(st.lists, pl) { HeapOfHome(st, numSlots, a, pl, h); }
      }
      Inhabited(At(st.lists, pl));
    }
  }

  lemma {:induction false} HeapOfHome(st: State, numSlots: nat, a: nat, pl: Place, h: nat)
    requires PageHeaders(st, numSlots) && HomeOk(st, a, pl) && OfHeap(pl, h)
    ensures h in st.heaps
  {
    assert PageOk(st, numSlots, PageOf(a));
  }

  lemma {:induction false} NewHeapOk(st: State, numSlots: nat, h: nat)
    requires forall pl: Place :: OfHeap(pl, h) ==> At(st.lists, pl) == []
    ensures HeapOk(WithHeap(st, numSlots, h), numSlots, h)
  {
    var st' := WithHeap(st, numSlots, h);
    forall i | 0 <= i < numSlots ensures SlotOk(st', h, i) { }
    forall t: nat ensures EntryOk(st', h, t) { }
  }

  lemma {:induction false} WithHeapHeads(st: State, numSlots: nat, h: nat)
    requires Inv(st, numSlots) && h !in st.heaps
    ensures HeapHeads(WithHeap(st, numSlots, h), numSlots)
  {
    var st' := WithHeap(st, numSlots, h);
    NoHeapNoLists(st, numSlots, h);
    NewHeapOk(st, numSlots, h);
    forall g | g in st.heaps ensures HeapOk(st', numSlots, g) {
      HeapKept(st, st', numSlots, g);
    }
  }

  lemma {:induction false} WithHeapInv(st: State, numSlots: nat, h: nat)
    requires Inv(st, numSlots) && h !in st.heaps
    ensures Inv(WithHeap(st, numSlots, h), numSlots)
  {
    var st' := WithHeap(st, numSlots, h);
    AddRuns(st.pages, st.current, st.available, h, numSlots);
    HomesKept(st, st');
    HeadersKept(st, st', numSlots);
    WithHeapHeads(st, numSlots, h);
  }

  function NoState(): State {
    State(map[], map[], map[], map[], map[], map[], map[])
  }

  lemma {:induction false} NoStateInv(numSlots: nat)
    ensures Inv(NoState(), numSlots)
  {
    var st := NoState();
    forall pl ensures ListOk(st.next, st.lists, st.location, pl) { }
  }

  // ---------------------------------------------------------------- what other threads see

  /** A list that only the thread of its heap touches, and that heap is not `h`. */
  ghost predicate PrivateToOther(st: State, pl: Place, h: nat) {
    match pl
    case Held => false
    case Free(p) => p in st.pages && st.pages[p].heap != h
    case ToExport(g) => g != h
    case Grouping(g) => g != h
    case Exporting(g, _) => g != h
    case ToImport(_) => false
    case Importing(g) => g != h
  }

  /** A step of heap `h` leaves the private data of all other heaps alone; their import lists,
      which are guarded by a lock, only grow at the front. */
  ghost predicate PrivateKept(st: State, st': State, h: nat) {
    && Grows(st, st')
    && (forall g :: g in st.heaps && g != h ==> st'.heaps[g].(importList := st.heaps[g].importList) == st.heaps[g])
    && (forall p :: p in st.pages && st.pages[p].heap != h ==> st'.pages[p] == st.pages[p])
    && (forall pl :: PrivateToOther(st, pl, h) ==> At(st'.lists, pl) == At(st.lists, pl))
    && forall g :: g != h ==> Extends(At(st.lists, ToImport(g)), At(st'.lists, ToImport(g)))
  }

  ghost predicate Extends(s: seq<nat>, t: seq<nat>) {
    |s| <= |t| && t[|t| - |s|..] == s
  }

  lemma {:induction false} PrivateTrans(a: State, b: State, c: State, h: nat)
    requires PrivateKept(a, b, h) && PrivateKept(b, c, h)
    ensures PrivateKept(a, c, h)
  {
    forall pl | PrivateToOther(a, pl, h) ensures At(c.lists, pl) == At(a.lists, pl) {
      assert PrivateToOther(b, pl, h);
    }
    forall g | g != h ensures Extends(At(a.lists, ToImport(g)), At(c.lists, ToImport(g))) {
      var s, t, u := At(a.lists, ToImport(g)), At(b.lists, ToImport(g)), At(c.lists, ToImport(g));
      assert Extends(s, t) && Extends(t, u);
      assert u[|u| - |t|..][|t| - |s|..] == u[|u| - |s|..];
    }
  }

  lemma {:induction false} SameImports(st: State, st': State, h: nat)
    requires forall g :: g != h ==> At(st'.lists, ToImport(g)) == At(st.lists, ToImport(g))
    ensures forall g :: g != h ==> Extends(At(st.lists, ToImport(g)), At(st'.lists, ToImport(g)))
  {
  }

  lemma {:induction false} PushFreeOthers(st: State, o: nat, h: nat)
    requires PageOf(o) in st.pages && Owner(st, o) == h
    ensures PrivateKept(st, PushFree(st, o), h)
  {
    SameImports(st, PushFree(st, o), h);
  }

  lemma {:induction false} PopFreeOthers(st: State, p: nat, h: nat)
    requires PopFree.requires(st, p) && st.pages[p].heap == h
    ensures PrivateKept(st, PopFree(st, p), h)
  {
    SameImports(st, PopFree(st, p), h);
  }

  /** A step on the page lists of `h` that changes no list of objects of another heap. */
  lemma {:induction false} SlotOthers(st: State, st': State, h: nat)
    requires h in st.heaps && Grows(st, st')
    requires forall g :: g in st.heaps && g != h ==> st'.heaps[g] == st.heaps[g]
    requires forall p :: p in st.pages && st.pages[p].heap != h ==> st'.pages[p] == st.pages[p]
    requires forall pl: Place :: (pl.Free? && pl.page !in st.pages) || At(st'.lists, pl) == At(st.lists, pl)
    ensures PrivateKept(st, st', h)
  {
    SameImports(st, st', h);
  }

  lemma {:induction false} MovedOthers(pages: Pages, s: seq<nat>, a: seq<nat>, k: nat, key: (nat, nat))
    requires RunOk(pages, s, key, false) && RunOk(pages, a, key, true) && 0 < k < |s| && 0 !in pages
    requires MoveToFree.requires(pages, Head(a), s[k])
    ensures forall q :: q in pages && pages[q].heap != key.0 ==> q in MoveToFree(pages, Head(a), s[k]) && MoveToFree(pages, Head(a), s[k])[q] == pages[q]
  {
    RecycleParts(pages, s, a, k, key);
  }

  lemma {:induction false} RecycledOthers(st: State, p: nat, k: nat, h: nat)
    requires PagesOk(st.pages, st.current, st.available) && RecycleDefined(st, p, k) && MayRecycle(st, p, k) && st.pages[p].heap == h
    requires Grows(st, Recycled(st, p, k))
    ensures PrivateKept(st, Recycled(st, p, k), h)
  {
    var st', key := Recycled(st, p, k), (h, st.pages[p].slot);
    var s, a := st.current[key], st.available[key];
    assert RunOk(st.pages, s, key, false) && RunOk(st.pages, a, key, true);
    MovedOthers(st.pages, s, a, k, key);
    assert st'.pages == MoveToFree(st.pages, Head(a), p);
    SlotOthers(st, st', h);
  }

  lemma {:induction false} ReusedOthers(st: State, h: nat, i: nat)
    requires PagesOk(st.pages, st.current, st.available) && Reused.requires(st, h, i) && Grows(st, Reused(st, h, i))
    ensures PrivateKept(st, Reused(st, h, i), h)
  {
    var st', s, a := Reused(st, h, i), st.current[(h, i)], st.available[(h, i)];
    assert RunOk(st.pages, s, (h, i), false) && RunOk(st.pages, a, (h, i), true) && a[0] in a;
    var pages1 := st.pages[a[0] := st.pages[a[0]].(inFreeList := false)];
    InsertKeeps(pages1, s, a[0]);
    assert st'.pages == Insert(pages1, Head(s), a[0]);
    SlotOthers(st, st', h);
  }

  lemma {:induction false} WithPageOthers(st: State, h: nat, i: nat, p: nat, next: map<nat, nat>, s: seq<nat>)
    requires PagesOk(st.pages, st.current, st.available) && FreshPage(st, p, next, s) && WithPage.requires(st, h, i, p, next, s)
    requires Grows(st, WithPage(st, h, i, p, next, s))
    ensures PrivateKept(st, WithPage(st, h, i, p, next, s), h)
  {
    var st', cur := WithPage(st, h, i, p, next, s), st.current[(h, i)];
    assert RunOk(st.pages, cur, (h, i), false);
    var pages1 := st.pages[p := Page(h, 0, 0, Head(s), |s|, |s|, i, false)];
    InsertKeeps(pages1, cur, p);
    assert st'.pages == Insert(pages1, Head(cur), p);
    SlotOthers(st, st', h);
  }

  lemma {:induction false} ExportPushOthers(st: State, h: nat, o: nat)
    requires h in st.heaps
    ensures PrivateKept(st, ExportPush(st, h, o), h)
  {
    SameImports(st, ExportPush(st, h, o), h);
  }

  lemma {:induction false} GroupBeginOthers(st: State, h: nat)
    requires h in st.heaps
    ensures PrivateKept(st, GroupBegin(st, h), h)
  {
    SameImports(st, GroupBegin(st, h), h);
  }

  lemma {:induction false} GroupStepOthers(st: State, h: nat, t: nat)
    requires GroupStep.requires(st, h, t)
    ensures PrivateKept(st, GroupStep(st, h, t), h)
  {
    SameImports(st, GroupStep(st, h, t), h);
  }

  lemma {:induction false} PublishOthers(st: State, h: nat, t: nat)
    requires Publish.requires(st, h, t) && h != t
    ensures PrivateKept(st, Publish(st, h, t), h)
  {
    var st' := Publish(st, h, t);
    forall g | g != h ensures Extends(At(st.lists, ToImport(g)), At(st'.lists, ToImport(g))) {
      if g == t {
        var s, u := At(st.lists, Exporting(h, t)), At(st.lists, ToImport(t));
        assert At(st'.lists, ToImport(t)) == s + u && (s + u)[|s|..] == u;
      }
    }
  }

  lemma {:induction false} GrabOthers(st: State, h: nat)
    requires h in st.heaps
    ensures PrivateKept(st, Grab(st, h), h)
  {
    SameImports(st, Grab(st, h), h);
  }

  lemma {:induction false} ImportPopOthers(st: State, h: nat)
    requires ImportPop.requires(st, h)
    ensures PrivateKept(st, ImportPop(st, h), h)
  {
    SameImports(st, ImportPop(st, h), h);
  }

  // ---------------------------------------------------------------- what is never lost

  /** Cut into objects in the same way. */
  predicate SameCut(a: Page, b: Page) {
    a.slot == b.slot && a.maxFree == b.maxFree
  }

  /** No page and no object appears or disappears. */
  ghost predicate SameObjects(st: State, st': State) {
    && (forall p :: p in st'.pages <==> p in st.pages)
    && (forall p :: p in st.pages && p in st'.pages ==> SameCut(st.pages[p], st'.pages[p]))
    && forall o :: o in st'.location <==> o in st.location
  }

  /** No page and no object disappears, and objects appear only with new pages. */
  ghost predicate Conserved(st: State, st': State) {
    && (forall p :: p in st.pages ==> p in st'.pages && SameCut(st.pages[p], st'.pages[p]))
    && (forall o :: o in st.location ==> o in st'.location)
    && forall o :: o in st'.location && o !in st.location ==> PageOf(o) !in st.pages
  }

  lemma {:induction false} ConservedTrans(a: State, b: State, c: State)
    requires Conserved(a, b) && Conserved(b, c)
    ensures Conserved(a, c)
  {
    forall o | o in c.location && o !in a.location ensures PageOf(o) !in a.pages {
      if o !in b.location { assert PageOf(o) !in b.pages; }
    }
  }

  /** A step of heap `h`, seen by the others: their private data is left alone and nothing is lost. */
  ghost predicate OthersKept(st: State, st': State, h: nat) {
    PrivateKept(st, st', h) && Conserved(st, st')
  }

  lemma {:induction false} OthersTrans(a: State, b: State, c: State, h: nat)
    requires OthersKept(a, b, h) && OthersKept(b, c, h)
    ensures OthersKept(a, c, h)
  {
    hide PrivateKept, Conserved;
    PrivateTrans(a, b, c, h);
    ConservedTrans(a, b, c);
  }

  lemma {:induction false} OthersIntro(st: State, st': State, h: nat)
    requires PrivateKept(st, st', h) && SameObjects(st, st')
    ensures OthersKept(st, st', h)
  {
    hide PrivateKept;
  }

  lemma {:induction false} OthersConserved(st: State, st': State, h: nat)
    requires OthersKept(st, st', h)
    ensures Conserved(st, st')
  {
  }

  lemma {:induction false} NothingKept(st: State, h: nat)
    ensures OthersKept(st, st, h)
  {
  }

  lemma {:induction false} PushFreeSame(st: State, o: nat)
    requires PageOf(o) in st.pages && o in st.location
    ensures SameObjects(st, PushFree(st, o))
  {
  }

  lemma {:induction false} PopFreeSame(st: State, p: nat)
    requires PopFree.requires(st, p) && At(st.lists, Free(p))[0] in st.location
    ensures SameObjects(st, PopFree(st, p))
  {
  }

  lemma {:induction false} RecycledSame(st: State, p: nat, k: nat)
    requires RecycleDefined(st, p, k) && MayRecycle(st, p, k)
    ensures SameObjects(st, Recycled(st, p, k))
  {
    var key := (st.pages[p].heap, st.pages[p].slot);
    MoveToFreeKeeps(st.pages, Head(st.available[key]), p);
    assert Recycled(st, p, k).pages == MoveToFree(st.pages, Head(st.available[key]), p);
  }

  lemma {:induction false} ReusedSame(st: State, h: nat, i: nat)
    requires Reused.requires(st, h, i)
    ensures SameObjects(st, Reused(st, h, i))
  {
  }

  lemma {:induction false} ExportPushSame(st: State, h: nat, o: nat)
    requires h in st.heaps && o in st.location
    ensures SameObjects(st, ExportPush(st, h, o))
  {
  }

  lemma {:induction false} GroupBeginSame(st: State, h: nat)
    requires h in st.heaps
    ensures SameObjects(st, GroupBegin(st, h))
  {
  }

  lemma {:induction false} GroupStepSame(st: State, h: nat, t: nat)
    requires GroupStep.requires(st, h, t) && At(st.lists, Grouping(h))[0] in st.location
    ensures SameObjects(st, GroupStep(st, h, t))
  {
  }

  lemma {:induction false} PublishSame(st: State, h: nat, t: nat)
    requires Publish.requires(st, h, t)
    ensures SameObjects(st, Publish(st, h, t))
  {
  }

  lemma {:induction false} GrabSame(st: State, h: nat)
    requires h in st.heaps
    ensures SameObjects(st, Grab(st, h))
  {
  }

  lemma {:induction false} ImportPopSame(st: State, h: nat)
    requires ImportPop.requires(st, h) && At(st.lists, Importing(h))[0] in st.location
    ensures SameObjects(st, ImportPop(st, h))
  {
  }

  lemma {:induction false} WithHeapSame(st: State, numSlots: nat, h: nat)
    ensures SameObjects(st, WithHeap(st, numSlots, h))
  {
  }

  /** The objects of a new page are the only ones that appear. */
  lemma {:induction false} WithPageConserved(st: State, h: nat, i: nat, p: nat, next: map<nat, nat>, s: seq<nat>)
    requires FreshPage(st, p, next, s) && WithPage.requires(st, h, i, p, next, s)
    ensures Conserved(st, WithPage(st, h, i, p, next, s))
  {
  }

  // ---------------------------------------------------------------- reading the invariant

  lemma {:induction false} PageFacts(st: State, numSlots: nat, p: nat)
    requires Inv(st, numSlots) && p in st.pages
    ensures PageOk(st, numSlots, p)
  {
  }

  lemma {:induction false} HeapFacts(st: State, numSlots: nat, h: nat)
    requires Inv(st, numSlots) && h in st.heaps
    ensures HeapOk(st, numSlots, h)
  {
  }

  /** A page outside the list of pages with many free objects is a current page of its slot. */
  lemma {:induction false} PageIndex(st: State, numSlots: nat, p: nat) returns (k: nat)
    requires Inv(st, numSlots) && p in st.pages && !st.pages[p].inFreeList
    ensures var key := (st.pages[p].heap, st.pages[p].slot);
      key in st.current && k < |st.current[key]| && st.current[key][k] == p && key.1 < numSlots && key.0 in st.heaps
      && key.1 < |st.heaps[key.0].currPage| && key.1 < |st.heaps[key.0].pageFreeList| && SlotOk(st, key.0, key.1)
  {
    var key := (st.pages[p].heap, st.pages[p].slot);
    assert PageListed(st.pages, st.current, st.available, p) && PageOk(st, numSlots, p);
    k :| 0 <= k < |st.current[key]| && st.current[key][k] == p;
    assert HeapOk(st, numSlots, key.0) && SlotOk(st, key.0, key.1);
  }

  lemma {:induction false} HeadNull(st: State, numSlots: nat, pl: Place)
    requires Inv(st, numSlots) && Head(At(st.lists, pl)) == 0
    ensures At(st.lists, pl) == []
  {
    assert ListOk(st.next, st.lists, st.location, pl);
    HeadNotNull(st.next, At(st.lists, pl));
  }

  lemma {:induction false} HeadNotNull(next: map<nat, nat>, s: seq<nat>)
    requires Linked(next, s)
    ensures s == [] || Head(s) != 0
  {
    if s != [] { assert LinkAt(next, s, 0); }
  }

  /** Moving a list in transit hands out nothing and takes nothing back. */
  lemma {:induction false} HeldRelocate(st: State, numSlots: nat, from: Place, to: Place)
    requires Inv(st, numSlots) && from != Held && to != Held
    ensures HeldIn(Relocate(st.location, At(st.lists, from), to)) == HeldIn(st.location)
  {
    assert ListOk(st.next, st.lists, st.location, from);
  }

  /** The objects that are handed out. */
  function HeldIn(location: map<nat, Place>): set<nat> {
    set o | o in location && location[o] == Held
  }

  /** No list of pages becomes empty. */
  ghost predicate RunsFilled(current: Runs, current': Runs) {
    forall key :: key in current && current[key] != [] ==> key in current' && current'[key] != []
  }

  lemma {:induction false} RecycledFilled(st: State, numSlots: nat, p: nat, k: nat)
    requires Inv(st, numSlots) && MayRecycle(st, p, k)
    ensures RecycleDefined(st, p, k) && RunsFilled(st.current, Recycled(st, p, k).current)
    ensures Recycled(st, p, k).heaps[st.pages[p].heap].currPage == st.heaps[st.pages[p].heap].currPage
  {
    hide PagesOk, Homes, PageHeaders, ObjectsOk;
    RecycledReady(st, numSlots, p, k);
    var h, i := st.pages[p].heap, st.pages[p].slot;
    var s := st.current[(h, i)];
    assert SlotOk(st, h, i) && (s[..k] + s[k + 1..])[0] == s[0];
  }

  /** The new state, field by field: the current head stays where it is. */
  lemma {:induction false} RecycledState(st: State, p: nat, k: nat)
    requires RecycleDefined(st, p, k) && MayRecycle(st, p, k) && SlotOk(st, st.pages[p].heap, st.pages[p].slot)
    ensures var h, i := st.pages[p].heap, st.pages[p].slot;
      var s, a := st.current[(h, i)], st.available[(h, i)];
      Recycled(st, p, k) == st.(pages := MoveToFree(st.pages, st.heaps[h].pageFreeList[i], p),
        heaps := st.heaps[h := st.heaps[h].(pageFreeList := st.heaps[h].pageFreeList[i := p])],
        current := st.current[(h, i) := s[..k] + s[k + 1..]], available := st.available[(h, i) := [p] + a])
  {
    var h, i := st.pages[p].heap, st.pages[p].slot;
    var s := st.current[(h, i)];
    assert (s[..k] + s[k + 1..])[0] == s[0];
    assert st.heaps[h].currPage[i := Head(s[..k] + s[k + 1..])] == st.heaps[h].currPage;
  }

  /** All that one step of heap `h` is about: the invariant, other threads, and what is handed out. */
  lemma {:induction false} RecycleStep(st: State, numSlots: nat, p: nat, k: nat)
    requires Inv(st, numSlots) && MayRecycle(st, p, k)
    ensures RecycleDefined(st, p, k) && Inv(Recycled(st, p, k), numSlots) && OthersKept(st, Recycled(st, p, k), st.pages[p].heap)
    ensures SameObjects(st, Recycled(st, p, k))
    ensures Recycled(st, p, k).pages.Keys == st.pages.Keys && Recycled(st, p, k).heaps.Keys == st.heaps.Keys
    ensures RunsFilled(st.current, Recycled(st, p, k).current)
    ensures Recycled(st, p, k).heaps[st.pages[p].heap].currPage == st.heaps[st.pages[p].heap].currPage
  {
    hide PagesOk, Homes, PageHeaders, HeapHeads, ObjectsOk, OthersKept, PrivateKept, SameObjects, RunsFilled;
    RecycledFilled(st, numSlots, p, k);
    RecycledInv(st, numSlots, p, k);
    RecycledKeeps(st, numSlots, p, k);
    RecycledOthers(st, p, k, st.pages[p].heap);
    RecycledSame(st, p, k);
    OthersIntro(st, Recycled(st, p, k), st.pages[p].heap);
    MoveToFreeKeeps(st.pages, Head(st.available[(st.pages[p].heap, st.pages[p].slot)]), p);
  }

  lemma {:induction false} PushFreeStep(st: State, numSlots: nat, o: nat)
    requires Inv(st, numSlots) && o in st.location && st.location[o] == Held && PageOf(o) in st.pages
    ensures Inv(PushFree(st, o), numSlots) && OthersKept(st, PushFree(st, o), Owner(st, o))
    ensures SameObjects(st, PushFree(st, o))
    ensures PushFree(st, o).pages.Keys == st.pages.Keys && Owner(st, o) in st.heaps
    ensures st.pages[PageOf(o)].freeList == Head(At(st.lists, Free(PageOf(o))))
  {
    PageFacts(st, numSlots, PageOf(o));
    PushFreeInv(st, numSlots, o);
    PushFreeOthers(st, o, Owner(st, o));
    PushFreeSame(st, o);
    OthersIntro(st, PushFree(st, o), Owner(st, o));
  }

  lemma {:induction false} GrabStep(st: State, numSlots: nat, h: nat)
    requires Inv(st, numSlots) && h in st.heaps && st.heaps[h].importing == 0
    ensures Inv(Grab(st, h), numSlots) && OthersKept(st, Grab(st, h), h) && HeldIn(Grab(st, h).location) == HeldIn(st.location)
    ensures Grab(st, h).heaps.Keys == st.heaps.Keys && SameObjects(st, Grab(st, h))
  {
    HeapFacts(st, numSlots, h);
    HeadNull(st, numSlots, Importing(h));
    hide Inv, PrivateKept, OthersKept, SameObjects;
    GrabInv(st, numSlots, h);
    GrabOthers(st, h);
    GrabSame(st, h);
    OthersIntro(st, Grab(st, h), h);
    HeldRelocate(st, numSlots, ToImport(h), Importing(h));
  }

  lemma {:induction false} ImportHead(st: State, numSlots: nat, h: nat)
    requires Inv(st, numSlots) && h in st.heaps && st.heaps[h].importing != 0
    ensures At(st.lists, Importing(h)) != [] && st.heaps[h].importing == At(st.lists, Importing(h))[0]
    ensures var o := st.heaps[h].importing;
      && o in st.next && st.next[o] == Head(At(st.lists, Importing(h))[1..])
      && o in st.location && PageOf(o) in st.pages && Owner(st, o) == h && st.location[o] == Importing(h)
  {
    hide PagesOk;
    HeapFacts(st, numSlots, h);
    HomeOfListed(st, Importing(h));
    assert At(st.lists, Importing(h))[0] in At(st.lists, Importing(h));
    ImportPopReady(st, numSlots, h);
  }

  lemma {:induction false} ImportPopStep(st: State, numSlots: nat, h: nat)
    requires Inv(st, numSlots) && h in st.heaps && st.heaps[h].importing != 0
    ensures At(st.lists, Importing(h)) != []
    ensures Inv(ImportPop(st, h), numSlots) && OthersKept(st, ImportPop(st, h), h)
    ensures ImportPop(st, h).heaps.Keys == st.heaps.Keys && SameObjects(st, ImportPop(st, h))
  {
    hide Inv, OthersKept, PrivateKept, SameObjects;
    ImportHead(st, numSlots, h);
    ImportPopInv(st, numSlots, h);
    ImportPopOthers(st, h);
    ImportPopSame(st, h);
    OthersIntro(st, ImportPop(st, h), h);
  }

  lemma {:induction false} ExportPushStep(st: State, numSlots: nat, h: nat, o: nat)
    requires Inv(st, numSlots) && h in st.heaps && o in st.location && st.location[o] == Held
    requires PageOf(o) in st.pages && Owner(st, o) != h
    ensures Inv(ExportPush(st, h, o), numSlots) && OthersKept(st, ExportPush(st, h, o), h)
    ensures st.heaps[h].exportList == Head(At(st.lists, ToExport(h))) && ExportPush(st, h, o).heaps.Keys == st.heaps.Keys
    ensures SameObjects(st, ExportPush(st, h, o))
  {
    HeapFacts(st, numSlots, h);
    hide Inv, PrivateKept, OthersKept, SameObjects;
    ExportPushInv(st, numSlots, h, o);
    ExportPushOthers(st, h, o);
    ExportPushSame(st, h, o);
    OthersIntro(st, ExportPush(st, h, o), h);
  }

  lemma {:induction false} GroupBeginStep(st: State, numSlots: nat, h: nat)
    requires Inv(st, numSlots) && h in st.heaps && st.heaps[h].grouping == 0
    ensures Inv(GroupBegin(st, h), numSlots) && OthersKept(st, GroupBegin(st, h), h)
    ensures HeldIn(GroupBegin(st, h).location) == HeldIn(st.location) && GroupBegin(st, h).heaps.Keys == st.heaps.Keys
    ensures SameObjects(st, GroupBegin(st, h))
  {
    HeapFacts(st, numSlots, h);
    HeadNull(st, numSlots, Grouping(h));
    hide Inv, PrivateKept, OthersKept, SameObjects;
    GroupBeginInv(st, numSlots, h);
    GroupBeginOthers(st, h);
    GroupBeginSame(st, h);
    OthersIntro(st, GroupBegin(st, h), h);
    HeldRelocate(st, numSlots, ToExport(h), Grouping(h));
  }

  lemma {:induction false} GroupEntry(st: State, numSlots: nat, h: nat)
    requires Inv(st, numSlots) && h in st.heaps && st.heaps[h].grouping != 0
    ensures At(st.lists, Grouping(h)) != [] && st.heaps[h].grouping == At(st.lists, Grouping(h))[0]
    ensures var o := st.heaps[h].grouping;
      && PageOf(o) in st.pages && o in st.next && st.next[o] == Head(At(st.lists, Grouping(h))[1..])
      && o in st.location && st.location[o] == Grouping(h)
    ensures var t := Owner(st, st.heaps[h].grouping);
      Head(At(st.lists, Exporting(h, t))) == (if t in st.heaps[h].exporting then st.heaps[h].exporting[t].head else 0)
  {
    hide PagesOk;
    HeapFacts(st, numSlots, h);
    GroupStepReady(st, numSlots, h);
    var o := st.heaps[h].grouping;
    assert EntryOk(st, h, Owner(st, o));
    HomeOfListed(st, Grouping(h));
    assert o in At(st.lists, Grouping(h));
  }

  lemma {:induction false} GroupOneStep(st: State, numSlots: nat, h: nat)
    requires Inv(st, numSlots) && h in st.heaps && st.heaps[h].grouping != 0
    ensures At(st.lists, Grouping(h)) != [] && PageOf(st.heaps[h].grouping) in st.pages
    ensures var t := Owner(st, st.heaps[h].grouping);
      && Inv(GroupStep(st, h, t), numSlots) && OthersKept(st, GroupStep(st, h, t), h)
      && GroupStep(st, h, t).heaps.Keys == st.heaps.Keys && HeldIn(GroupStep(st, h, t).location) == HeldIn(st.location)
      && SameObjects(st, GroupStep(st, h, t))
  {
    hide Inv, OthersKept, PrivateKept, SameObjects;
    GroupEntry(st, numSlots, h);
    var t := Owner(st, st.heaps[h].grouping);
    GroupStepInv(st, numSlots, h, t);
    GroupStepOthers(st, h, t);
    GroupStepSame(st, h, t);
    OthersIntro(st, GroupStep(st, h, t), h);
  }

  lemma {:induction false} PublishEntry(st: State, numSlots: nat, h: nat, t: nat)
    requires Inv(st, numSlots) && h in st.heaps && t in st.heaps[h].exporting
    ensures t in st.heaps && h != t && At(st.lists, Exporting(h, t)) != []
    ensures var s := At(st.lists, Exporting(h, t)); st.heaps[h].exporting[t] == Entry(s[0], s[|s| - 1])
    ensures st.heaps[t].importList == Head(At(st.lists, ToImport(t)))
  {
    hide PagesOk;
    HeapFacts(st, numSlots, h);
    assert EntryOk(st, h, t);
    HomeOfListed(st, Exporting(h, t));
    var o := At(st.lists, Exporting(h, t))[0];
    assert o in At(st.lists, Exporting(h, t)) && HomeOk(st, o, Exporting(h, t));
    PageFacts(st, numSlots, PageOf(o));
    HeapFacts(st, numSlots, t);
  }

  lemma {:induction false} PublishStep(st: State, numSlots: nat, h: nat, t: nat)
    requires Inv(st, numSlots) && h in st.heaps && t in st.heaps[h].exporting
    ensures Publish.requires(st, h, t) && Inv(Publish(st, h, t), numSlots) && OthersKept(st, Publish(st, h, t), h)
    ensures HeldIn(Publish(st, h, t).location) == HeldIn(st.location) && Publish(st, h, t).heaps.Keys == st.heaps.Keys
    ensures SameObjects(st, Publish(st, h, t))
  {
    hide Inv, OthersKept, PrivateKept, SameObjects;
    PublishEntry(st, numSlots, h, t);
    PublishInv(st, numSlots, h, t);
    PublishOthers(st, h, t);
    PublishSame(st, h, t);
    OthersIntro(st, Publish(st, h, t), h);
    HeldRelocate(st, numSlots, Exporting(h, t), ToImport(t));
  }

  lemma {:induction false} HeldSwap(location: map<nat, Place>, o: nat, pl: Place)
    requires o in location && location[o] != Held && pl != Held
    ensures HeldIn(location[o := Held][o := pl]) == HeldIn(location)
  {
  }

  lemma {:induction false} PageSlot(st: State, numSlots: nat, p: nat)
    requires Inv(st, numSlots) && p in st.pages
    ensures st.pages[p].slot < numSlots && st.pages[p].heap in st.heaps
  {
    assert PageOk(st, numSlots, p);
  }

  lemma {:induction false} SlotFacts(st: State, numSlots: nat, h: nat, i: nat)
    requires Inv(st, numSlots) && h in st.heaps && i < numSlots
    ensures i < |st.heaps[h].currPage| && i < |st.heaps[h].pageFreeList| && SlotOk(st, h, i)
    ensures Head(st.current[(h, i)]) != 0 ==> Head(st.current[(h, i)]) in st.pages
  {
    HeapFacts(st, numSlots, h);
    assert SlotOk(st, h, i);
    assert RunOk(st.pages, st.current[(h, i)], (h, i), false);
    if st.current[(h, i)] != [] { assert st.current[(h, i)][0] in st.current[(h, i)]; }
  }

  lemma {:induction false} WithPageStep(st: State, numSlots: nat, h: nat, i: nat, p: nat, next: map<nat, nat>, s: seq<nat>)
    requires Inv(st, numSlots) && FreshPage(st, p, next, s) && WithPage.requires(st, h, i, p, next, s) && i < numSlots
    ensures Inv(WithPage(st, h, i, p, next, s), numSlots) && OthersKept(st, WithPage(st, h, i, p, next, s), h)
    ensures HeldIn(WithPage(st, h, i, p, next, s).location) == HeldIn(st.location)
  {
    hide PagesOk, HeapHeads, PageHeaders, Homes, ObjectsOk, PrivateKept, Conserved, FreshPage, Grows, WithPage;
    WithPageInv(st, numSlots, h, i, p, next, s);
    WithPageKeeps(st, numSlots, h, i, p, next, s);
    WithPageOthers(st, h, i, p, next, s);
    WithPageConserved(st, h, i, p, next, s);
    WithPageHeld(st, h, i, p, next, s);
  }

  /** The new state, field by field. */
  lemma {:induction false} WithPageState(st: State, h: nat, i: nat, p: nat, next: map<nat, nat>, s: seq<nat>)
    requires WithPage.requires(st, h, i, p, next, s) && SlotOk(st, h, i)
    ensures WithPage(st, h, i, p, next, s) == State(next,
        Insert(st.pages[p := Page(h, 0, 0, Head(s), |s|, |s|, i, false)], st.heaps[h].currPage[i], p),
        st.heaps[h := st.heaps[h].(currPage := st.heaps[h].currPage[i := p])], st.lists[Free(p) := s],
        st.location + AllAt(s, Free(p)), st.current[(h, i) := [p] + st.current[(h, i)]], st.available)
    ensures WithPage(st, h, i, p, next, s).pages.Keys == st.pages.Keys + {p} && WithPage(st, h, i, p, next, s).heaps.Keys == st.heaps.Keys
    ensures WithPage(st, h, i, p, next, s).pages[p].freeList == Head(s)
    ensures RunsFilled(st.current, WithPage(st, h, i, p, next, s).current)
  {
    assert st.available[(h, i) := st.available[(h, i)]] == st.available;
    assert st.heaps[h].pageFreeList[i := Head(st.available[(h, i)])] == st.heaps[h].pageFreeList;
  }

  lemma {:induction false} WithPageHeld(st: State, h: nat, i: nat, p: nat, next: map<nat, nat>, s: seq<nat>)
    requires ObjectsOk(st.next, st.lists, st.location) && Homes(st) && FreshPage(st, p, next, s) && WithPage.requires(st, h, i, p, next, s)
    ensures HeldIn(WithPage(st, h, i, p, next, s).location) == HeldIn(st.location)
  {
    NoPageNoObjects(st, p);
  }

  /** The first current page belongs to the heap and slot. */
  lemma {:induction false} CurrentPage(st: State, numSlots: nat, h: nat, i: nat)
    requires Inv(st, numSlots) && h in st.heaps && i < numSlots && (h, i) in st.current && st.current[(h, i)] != []
    ensures i < |st.heaps[h].currPage| && st.heaps[h].currPage[i] == st.current[(h, i)][0]
    ensures var p := st.heaps[h].currPage[i];
      p in st.pages && st.pages[p].heap == h && st.pages[p].slot == i && !st.pages[p].inFreeList
  {
    SlotFacts(st, numSlots, h, i);
    var s := st.current[(h, i)];
    assert RunOk(st.pages, s, (h, i), false) && s[0] in s;
  }

  lemma {:induction false} PopFreeStep(st: State, numSlots: nat, p: nat)
    requires Inv(st, numSlots) && p in st.pages && !st.pages[p].inFreeList && st.pages[p].freeList != 0
    ensures At(st.lists, Free(p)) != [] && st.pages[p].freeList == At(st.lists, Free(p))[0]
    ensures Inv(PopFree(st, p), numSlots) && OthersKept(st, PopFree(st, p), st.pages[p].heap)
    ensures PopFree(st, p).pages.Keys == st.pages.Keys && st.pages[p].numFree == |At(st.lists, Free(p))|
    ensures SameObjects(st, PopFree(st, p))
    ensures var o := st.pages[p].freeList;
      && o in st.next && st.next[o] == Head(At(st.lists, Free(p))[1..]) && PageOf(o) == p
      && o in st.location && st.location[o] == Free(p)
      && HeldIn(st.location[o := Held]) == HeldIn(st.location) + {o}
  {
    hide PagesOk, HeapHeads, Homes, ObjectsOk, OthersKept, PrivateKept, SameObjects;
    PageFacts(st, numSlots, p);
    FreeObject(st, numSlots, p);
    PopFreeInv(st, numSlots, p);
    PopFreeOthers(st, p, st.pages[p].heap);
    PopFreeSame(st, p);
    OthersIntro(st, PopFree(st, p), st.pages[p].heap);
  }

  lemma {:induction false} ReuseStep(st: State, numSlots: nat, h: nat, i: nat)
    requires Inv(st, numSlots) && h in st.heaps && i < numSlots && i < |st.heaps[h].pageFreeList| && st.heaps[h].pageFreeList[i] != 0
    ensures Reused.requires(st, h, i) && Inv(Reused(st, h, i), numSlots) && OthersKept(st, Reused(st, h, i), h)
    ensures SameObjects(st, Reused(st, h, i))
  {
    hide PagesOk, Homes, ObjectsOk, OthersKept, PrivateKept, SameObjects, Grows, Reused;
    HeapFacts(st, numSlots, h);
    ReusedInv(st, numSlots, h, i);
    ReusedKeeps(st, numSlots, h, i);
    ReusedOthers(st, h, i);
    ReusedSame(st, h, i);
    OthersIntro(st, Reused(st, h, i), h);
  }

  /** The new state, field by field; the page is not empty. */
  lemma {:induction false} ReusedState(st: State, numSlots: nat, h: nat, i: nat)
    requires Inv(st, numSlots) && h in st.heaps && i < numSlots && i < |st.heaps[h].pageFreeList| && st.heaps[h].pageFreeList[i] != 0
    requires Reused.requires(st, h, i)
    ensures var s, a, p := st.current[(h, i)], st.available[(h, i)], st.heaps[h].pageFreeList[i];
      && p == a[0] && p in st.pages && st.pages[p].next == Head(a[1..]) && i < |st.heaps[h].currPage| && st.heaps[h].currPage[i] == Head(s)
      && (Head(s) != 0 ==> Head(s) in st.pages)
      && Reused(st, h, i) == st.(pages := Insert(st.pages[p := st.pages[p].(inFreeList := false)], Head(s), p),
           heaps := st.heaps[h := st.heaps[h].(currPage := st.heaps[h].currPage[i := p], pageFreeList := st.heaps[h].pageFreeList[i := Head(a[1..])])],
           current := st.current[(h, i) := [p] + s], available := st.available[(h, i) := a[1..]])
      && Reused(st, h, i).pages.Keys == st.pages.Keys && Reused(st, h, i).heaps.Keys == st.heaps.Keys
      && RunsFilled(st.current, Reused(st, h, i).current) && Reused(st, h, i).pages[p].freeList == st.pages[p].freeList != 0
  {
    hide PagesOk, Homes, ObjectsOk;
    ReusedReady(st, numSlots, h, i);
    ReusedInv(st, numSlots, h, i);
    var p := st.heaps[h].pageFreeList[i];
    PageFacts(st, numSlots, p);
    FreeObject(st, numSlots, p);
    FreeHead(st, p);
  }

  lemma {:induction false} FreeHead(st: State, p: nat)
    requires ObjectsOk(st.next, st.lists, st.location) && At(st.lists, Free(p)) != []
    ensures Head(At(st.lists, Free(p))) != 0
  {
    assert ListOk(st.next, st.lists, st.location, Free(p));
    HeadNotNull(st.next, At(st.lists, Free(p)));
  }

  lemma {:induction false} HeldHome(st: State, numSlots: nat, o: nat)
    requires Inv(st, numSlots) && o in st.location
    ensures PageOf(o) in st.pages
  {
    assert HomeOk(st, o, st.location[o]);
  }

  lemma {:induction false} WithHeapStep(st: State, numSlots: nat, h: nat)
    requires Inv(st, numSlots) && h !in st.heaps
    ensures Inv(WithHeap(st, numSlots, h), numSlots) && OthersKept(st, WithHeap(st, numSlots, h), h)
    ensures WithHeap(st, numSlots, h).heaps.Keys == st.heaps.Keys + {h}
    ensures RunsFilled(st.current, WithHeap(st, numSlots, h).current) && SameObjects(st, WithHeap(st, numSlots, h))
  {
    hide Inv, PrivateKept, OthersKept, SameObjects;
    WithHeapInv(st, numSlots, h);
    NewHeapRuns(st, numSlots, h);
    WithHeapOthers(st, numSlots, h);
    WithHeapSame(st, numSlots, h);
    OthersIntro(st, WithHeap(st, numSlots, h), h);
  }

  lemma {:induction false} WithHeapOthers(st: State, numSlots: nat, h: nat)
    requires h !in st.heaps
    ensures PrivateKept(st, WithHeap(st, numSlots, h), h)
  {
    SameImports(st, WithHeap(st, numSlots, h), h);
  }

  /** A new heap is in no list yet. */
  lemma {:induction false} NewHeapRuns(st: State, numSlots: nat, h: nat)
    requires Inv(st, numSlots) && h !in st.heaps
    ensures RunsFilled(st.current, WithHeap(st, numSlots, h).current)
  {
    assert forall key :: key in st.current ==> key.0 in st.heaps;
  }

  /** Everything a new page changes and keeps. */
  lemma {:induction false} NewPageStep(st: State, st': State, numSlots: nat, h: nat, i: nat, p: nat, s: seq<nat>)
    requires Inv(st, numSlots) && h in st.heaps && i < numSlots && FreshPage(st, p, st'.next, s) && s != []
    requires WithPage.requires(st, h, i, p, st'.next, s) && SlotOk(st, h, i) && st' == WithPage(st, h, i, p, st'.next, s)
    ensures Inv(st', numSlots) && OthersKept(st, st', h) && HeldIn(st'.location) == HeldIn(st.location)
    ensures st'.pages.Keys == st.pages.Keys + {p} && st'.heaps.Keys == st.heaps.Keys && RunsFilled(st.current, st'.current)
    ensures p in st'.pages && st'.pages[p].freeList != 0 && (h, i) in st'.current && st'.current[(h, i)] != []
  {
    hide Inv, OthersKept, SlotOk, RunsFilled;
    WithPageStep(st, numSlots, h, i, p, st'.next, s);
    WithPageState(st, h, i, p, st'.next, s);
    HeadNotNull(st'.next, s);
  }
}
