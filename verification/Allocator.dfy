/** The small-object allocator: heaps of pages, one heap per thread, with export and import of
    objects freed by other threads (runtime/alloc.cpp). Each method is a step of the thread that
    owns the heap it is given; `Run` interleaves steps of all heaps arbitrarily. */
module Allocator {
  import opened LinkedLists
  import opened PageLists
  import opened AllocState
  import opened AllocLayout

  const MAX_TO_EXPORT_OBJS: nat := 1024

  function MaxNat(a: nat, b: nat): nat {
    if a >= b then a else b
  }

  predicate HasManyFree(p: Page) {
    p.numFree > p.maxFree / 4
  }

  /** What a thread may do next. */
  datatype Step =
    | StartThread
    | Alloc(heap: nat, slot: nat)
    | Dealloc(heap: nat, object: nat)
    | StartExport(heap: nat)
    | NextExport(heap: nat)
    | SendExport(heap: nat, target: nat)
    | StartImport(heap: nat)
    | NextImport(heap: nat)
    | EndThread(heap: nat)

  /** Page and heap numbers in use are below the next free ones. */
  ghost predicate NumbersOk(pageNums: set<nat>, heapNums: set<nat>, top: nat, nextHeap: nat) {
    (forall p :: p in pageNums ==> p < top) && forall h :: h in heapNums ==> 0 < h < nextHeap
  }

  /** The list of orphan heaps. */
  ghost predicate OrphansOk(nextOrphan: map<nat, nat>, orphans: nat, orphanList: seq<nat>, ready: set<nat>) {
    && Linked(nextOrphan, orphanList) && NoDup(orphanList) && orphans == Head(orphanList)
    && forall h :: h in orphanList ==> h in ready
  }

  /** A heap that is ready has a current page for every slot. */
  ghost predicate ReadyOk(heapNums: set<nat>, current: Runs, numSlots: nat, ready: set<nat>) {
    forall h :: h in ready ==> h in heapNums && forall i :: 0 <= i < numSlots ==> (h, i) in current && current[(h, i)] != []
  }

  lemma {:induction false} ReadyKept(heapNums: set<nat>, current: Runs, numSlots: nat, ready: set<nat>, current': Runs)
    requires ReadyOk(heapNums, current, numSlots, ready)
    requires RunsFilled(current, current')
    ensures ReadyOk(heapNums, current', numSlots, ready)
  {
  }

  lemma {:induction false} FreshNumber(pageNums: set<nat>, heapNums: set<nat>, p: nat, top: nat, nextHeap: nat)
    requires NumbersOk(pageNums, heapNums, top, nextHeap) && p >= top
    ensures p !in pageNums && NumbersOk(pageNums + {p}, heapNums, p + 1, nextHeap)
  {
  }

  lemma {:induction false} FreshHeap(pageNums: set<nat>, heapNums: set<nat>, top: nat, nextHeap: nat, current: Runs, numSlots: nat, ready: set<nat>)
    requires NumbersOk(pageNums, heapNums, top, nextHeap) && 0 < nextHeap && ReadyOk(heapNums, current, numSlots, ready)
    ensures nextHeap !in heapNums && nextHeap !in ready && NumbersOk(pageNums, heapNums + {nextHeap}, top, nextHeap + 1)
    ensures ReadyOk(heapNums + {nextHeap}, current, numSlots, ready)
  {
  }

  lemma {:induction false} MoreReady(nextOrphan: map<nat, nat>, orphans: nat, orphanList: seq<nat>, ready: set<nat>, h: nat)
    requires OrphansOk(nextOrphan, orphans, orphanList, ready)
    ensures OrphansOk(nextOrphan, orphans, orphanList, ready + {h})
    ensures h !in ready ==> h !in orphanList
  {
  }

  class Memory {
    const numSlots: nat
    const delta: nat
    const header: nat
    var next: map<nat, nat>
    var pages: Pages
    var heaps: map<nat, Heap>
    var orphans: nat
    var nextOrphan: map<nat, nat>
    /** Page numbers from `top` on and heap numbers from `nextHeap` on were never used. */
    var top: nat
    var nextHeap: nat
    ghost var lists: Lists
    ghost var location: map<nat, Place>
    ghost var current: Runs
    ghost var available: Runs
    ghost var orphanList: seq<nat>
    ghost var ready: set<nat>

    ghost function St(): State
      reads this
    {
      State(next, pages, heaps, lists, location, current, available)
    }

    ghost predicate Valid()
      reads this
    {
      && 0 < delta && 0 < header && header + numSlots * delta <= PAGE_SIZE && 0 < top && 0 < nextHeap
      && Inv(St(), numSlots) && Laid(St(), delta, header)
      && NumbersOk(pages.Keys, heaps.Keys, top, nextHeap)
      && OrphansOk(nextOrphan, orphans, orphanList, ready)
      && ReadyOk(heaps.Keys, current, numSlots, ready)
    }

    /** Heap `h` belongs to a running thread. */
    ghost predicate Owned(h: nat)
      reads this
    {
      h in ready && h !in orphanList
    }

    /** No export or import is in progress. */
    predicate Idle(h: nat)
      requires h in heaps
      reads this
    {
      heaps[h].grouping == 0 && heaps[h].exporting == map[] && heaps[h].importing == 0
    }

    ghost function HeldObjects(): set<nat>
      reads this
    {
      HeldIn(location)
    }

    constructor (numSlots: nat, delta: nat, header: nat)
      requires 0 < delta && 0 < header && header + numSlots * delta <= PAGE_SIZE
      ensures Valid() && HeldObjects() == {} && ready == {} && orphanList == []
    {
      this.numSlots, this.delta, this.header := numSlots, delta, header;
      next, pages, heaps, orphans, nextOrphan, top, nextHeap := map[], map[], map[], 0, map[], 1, 1;
      lists, location, current, available, orphanList, ready := map[], map[], map[], map[], [], {};
      new;
      assert St() == NoState();
      NoStateInv(numSlots);
    }

    // -------------------------------------------------------------- page lists

    method PageListInsert(head: nat, p: nat) returns (newHead: nat)
      requires (head != 0 ==> head in pages) && p in pages
      modifies this`pages
      ensures newHead == p && pages == Insert(old(pages), head, p)
    {
      if head != 0 {
        pages := SetPrev(pages, head, p);
      }
      pages := SetNext(pages, p, head);
      newHead := p;
    }

    method PageListRemove(head: nat, p: nat) returns (newHead: nat)
      requires p in pages && pages[p].prev in pages && (pages[p].next != 0 ==> pages[p].next in pages)
      modifies this`pages
      ensures newHead == (if head == p then old(pages)[p].next else head) && pages == Remove(old(pages), p)
    {
      newHead := head;
      if head == p {
        newHead := pages[p].next;
      }
      var prev := pages[p].prev;
      var nxt := pages[p].next;
      if nxt != 0 {
        pages := SetNext(pages, prev, nxt);
        pages := SetPrev(pages, nxt, prev);
      } else {
        pages := SetNext(pages, prev, 0);
      }
    }

    ghost predicate SameLists(was: Lists)
      reads this
    {
      forall pl: Place :: !pl.Free? ==> At(lists, pl) == At(was, pl)
    }

    /** Unlink a page from its current list and put it in front of the list of pages with many free
        objects. */
    method MovePage(p: nat)
      requires p in pages && pages[p].heap in heaps && pages[p].prev in pages && (pages[p].next != 0 ==> pages[p].next in pages)
      requires var heap, i := heaps[pages[p].heap], pages[p].slot;
        i < |heap.currPage| && i < |heap.pageFreeList| && heap.currPage[i] != p
        && (heap.pageFreeList[i] != 0 ==> heap.pageFreeList[i] in pages)
      modifies this`pages, this`heaps
      ensures var g, i := old(pages[p].heap), old(pages[p].slot);
        && pages == MoveToFree(old(pages), old(heaps[g].pageFreeList)[i], p)
        && heaps == old(heaps)[g := old(heaps[g]).(pageFreeList := old(heaps[g].pageFreeList)[i := p])]
    {
      var g, i := pages[p].heap, pages[p].slot;
      var heap := heaps[g];
      pages := pages[p := pages[p].(inFreeList := true)];
      var currHead := PageListRemove(heap.currPage[i], p);
      assert heap.currPage[i := currHead] == heap.currPage;
      var freeHead := PageListInsert(heap.pageFreeList[i], p);
      heaps := heaps[g := heap.(currPage := heap.currPage[i := currHead], pageFreeList := heap.pageFreeList[i := freeHead])];
    }

    /** The flag of page `p` is set if `recycled`; no other flag changes. */
    static ghost predicate FlagSet(was: Pages, now: Pages, p: nat, recycled: bool) {
      now.Keys == was.Keys && forall q :: q in was ==> now[q].inFreeList == (was[q].inFreeList || (q == p && recycled))
    }

    /** Move a page that is not the first of its current list. */
    method RecyclePage(p: nat, ghost h: nat)
      requires Valid() && p in pages && !pages[p].inFreeList && pages[p].numFree > 0 && pages[p].heap == h
      modifies this`pages, this`heaps, this`current, this`available
      ensures Valid() && OthersKept(old(St()), St(), h) && pages.Keys == old(pages.Keys) && heaps.Keys == old(heaps.Keys)
      ensures h in heaps && heaps[h].currPage == old(heaps[h].currPage) && old(pages[p].slot) < |heaps[h].currPage|
      ensures FlagSet(old(pages), pages, p, p != heaps[h].currPage[old(pages[p].slot)])
    {
      hide Inv, Laid, SameObjects, OthersKept, NumbersOk, OrphansOk, ReadyOk, RunsFilled, MoveToFree;
      ghost var st := St();
      ghost var k := PageIndex(st, numSlots, p);
      ghost var key := (h, pages[p].slot);
      if p != heaps[pages[p].heap].currPage[pages[p].slot] {
        RecycleStep(st, numSlots, p, k);
        LaidKept(st, Recycled(st, p, k), delta, header);
        RecycledState(st, p, k);
        MoveFlags(st.pages, st.heaps[h].pageFreeList[st.pages[p].slot], p);
        MovePage(p);
        current, available := current[key := current[key][..k] + current[key][k + 1..]], available[key := [p] + available[key]];
        assert St() == Recycled(st, p, k);
        ReadyKept(heaps.Keys, st.current, numSlots, ready, current);
      } else {
        NothingKept(st, h);
      }
    }

    /** Put an object in front of the free list of its page and count it. */
    method LinkFree(o: nat)
      requires Valid() && o in location && location[o] == Held && PageOf(o) in pages
      modifies this`next, this`pages, this`lists, this`location
      ensures Valid() && St() == PushFree(old(St()), o)
    {
      hide Inv, Laid, SameObjects, OthersKept, NumbersOk, OrphansOk, ReadyOk, PushFree;
      ghost var st := St();
      PushFreeStep(st, numSlots, o);
      LaidKept(st, PushFree(st, o), delta, header);
      WriteFree(o);
    }

    method WriteFree(o: nat)
      requires PageOf(o) in pages && pages[PageOf(o)].freeList == Head(At(lists, Free(PageOf(o))))
      modifies this`next, this`pages, this`lists, this`location
      ensures St() == PushFree(old(St()), o) && pages.Keys == old(pages.Keys)
    {
      var p := PageOf(o);
      next := next[o := pages[p].freeList];
      pages := pages[p := pages[p].(freeList := o, numFree := pages[p].numFree + 1)];
      lists, location := lists[Free(p) := [o] + At(lists, Free(p))], location[o := Free(p)];
    }

    /** `push_free_obj`: a page with many free objects moves to the list of such pages, unless it is
        the one objects are taken from. */
    method PushFreeObj(o: nat, ghost h: nat)
      requires Valid() && o in location && location[o] == Held && PageOf(o) in pages && Owner(St(), o) == h
      modifies this`next, this`pages, this`heaps, this`lists, this`location, this`current, this`available
      ensures Valid() && OthersKept(old(St()), St(), h) && pages.Keys == old(pages.Keys) && heaps.Keys == old(heaps.Keys)
      ensures location == old(location)[o := Free(PageOf(o))] && SameLists(old(lists))
      ensures h in heaps && heaps[h].currPage == old(heaps[h].currPage)
      ensures Recycles(old(St()), pages, PageOf(o), h)
    {
      hide Inv, Laid, SameObjects, OthersKept, NumbersOk, OrphansOk, ReadyOk;
      ghost var st := St();
      PushFreeStep(st, numSlots, o);
      var p := PageOf(o);
      HomeSlot(st, p, h);
      LinkFree(o);
      ghost var mid := St();
      if !pages[p].inFreeList && HasManyFree(pages[p]) {
        RecyclePage(p, h);
        OthersTrans(st, mid, St(), h);
      }
    }

    lemma {:induction false} HomeSlot(st: State, p: nat, h: nat)
      requires Inv(st, numSlots) && p in st.pages && st.pages[p].heap == h
      ensures h in st.heaps && st.pages[p].slot < |st.heaps[h].currPage|
    {
      hide Inv;
      PageSlot(st, numSlots, p);
      SlotFacts(st, numSlots, h, st.pages[p].slot);
    }

    /** With one more free object page `p` goes to the list of pages with many free ones if it has
        enough of them and is not the page objects are taken from; no other page changes lists. */
    static ghost predicate Recycles(st: State, now: Pages, p: nat, h: nat) {
      && p in st.pages && h in st.heaps && st.pages[p].slot < |st.heaps[h].currPage|
      && FlagSet(st.pages, now, p, (st.pages[p].numFree + 1) > st.pages[p].maxFree / 4 && p != st.heaps[h].currPage[st.pages[p].slot])
    }

    // -------------------------------------------------------------- import

    /** Take the import list, under the heap's lock. */
    method GrabImports(h: nat)
      requires Valid() && h in heaps && heaps[h].importing == 0
      modifies this`heaps, this`lists, this`location
      ensures Valid() && OthersKept(old(St()), St(), h) && HeldObjects() == old(HeldObjects())
      ensures heaps.Keys == old(heaps.Keys) && heaps[h].currPage == old(heaps[h].currPage)
      ensures Received(old(St()), St(), h) && At(lists, ToImport(h)) == []
    {
      hide Inv, Laid, SameObjects, OthersKept, NumbersOk, OrphansOk, ReadyOk;
      ghost var st := St();
      GrabStep(st, numSlots, h);
      LaidKept(st, Grab(st, h), delta, header);
      GrabReceived(st, numSlots, h);
      heaps := heaps[h := heaps[h].(importing := heaps[h].importList, importList := 0)];
      ghost var s := At(lists, ToImport(h));
      lists, location := lists[ToImport(h) := []][Importing(h) := s], Relocate(location, s, Importing(h));
      assert St() == Grab(st, h);
    }

    /** Take the next imported object in hand. */
    method TakeImport(h: nat) returns (o: nat)
      requires Valid() && h in heaps && heaps[h].importing != 0
      modifies this`heaps, this`lists, this`location
      ensures Valid() && OthersKept(old(St()), St(), h) && At(old(lists), Importing(h)) != [] && St() == ImportPop(old(St()), h)
      ensures o in location && location[o] == Held && PageOf(o) in pages && Owner(St(), o) == h
      ensures o in old(location) && old(location)[o] == Importing(h) && location == old(location)[o := Held]
      ensures heaps.Keys == old(heaps.Keys) && heaps[h].currPage == old(heaps[h].currPage)
      ensures |At(lists, Importing(h))| + 1 == |old(At(lists, Importing(h)))| && At(lists, ToImport(h)) == old(At(lists, ToImport(h)))
    {
      hide Inv, Laid, SameObjects, OthersKept, NumbersOk, OrphansOk, ReadyOk;
      ghost var st := St();
      ImportHead(st, numSlots, h);
      ImportPopStep(st, numSlots, h);
      LaidKept(st, ImportPop(st, h), delta, header);
      o := heaps[h].importing;
      heaps := heaps[h := heaps[h].(importing := next[o])];
      lists, location := lists[Importing(h) := At(lists, Importing(h))[1..]], location[o := Held];
      assert St() == ImportPop(st, h);
    }

    /** Return the next imported object to its page. */
    method ImportOne(h: nat)
      requires Valid() && h in heaps && heaps[h].importing != 0
      modifies this`next, this`pages, this`heaps, this`lists, this`location, this`current, this`available
      ensures Valid() && OthersKept(old(St()), St(), h) && HeldObjects() == old(HeldObjects())
      ensures heaps.Keys == old(heaps.Keys) && heaps[h].currPage == old(heaps[h].currPage) && pages.Keys == old(pages.Keys)
      ensures |At(lists, Importing(h))| + 1 == |old(At(lists, Importing(h)))|
      ensures Received(old(St()), St(), h) && At(lists, ToImport(h)) == old(At(lists, ToImport(h)))
    {
      hide Inv, Laid, SameObjects, OthersKept, NumbersOk, OrphansOk, ReadyOk, Received, HeldIn, Valid;
      ghost var st := St();
      var o := TakeImport(h);
      ghost var mid := St();
      PushFreeObj(o, h);
      OthersTrans(st, mid, St(), h);
      HeldSwap(st.location, o, Free(PageOf(o)));
      OneReceived(st, St(), h, o);
    }

    /** `import_objs`: every object on the import list returns to its page, nothing else moves, and the
        first current page of every slot stays the same. */
    method ImportObjs(h: nat)
      requires Valid() && h in heaps && heaps[h].importing == 0
      modifies this`next, this`pages, this`heaps, this`lists, this`location, this`current, this`available
      ensures Valid() && OthersKept(old(St()), St(), h) && HeldObjects() == old(HeldObjects())
      ensures heaps.Keys == old(heaps.Keys) && heaps[h].currPage == old(heaps[h].currPage) && heaps[h].importing == 0
      ensures pages.Keys == old(pages.Keys) && Returned(old(St()), St(), h)
    {
      hide Inv, Laid, SameObjects, OthersKept, NumbersOk, OrphansOk, ReadyOk, Received, Returned;
      ghost var st := St();
      GrabImports(h);
      while heaps[h].importing != 0
        invariant Valid() && h in heaps && OthersKept(st, St(), h) && HeldObjects() == old(HeldObjects())
        invariant heaps.Keys == old(heaps.Keys) && heaps[h].currPage == old(heaps[h].currPage) && pages.Keys == old(pages.Keys)
        invariant Received(st, St(), h) && At(lists, ToImport(h)) == []
        decreases |At(lists, Importing(h))|
      {
        ghost var mid := St();
        ImportOne(h);
        OthersTrans(st, mid, St(), h);
        ReceivedTrans(st, mid, St(), h);
      }
      ReceivedAll(st, St(), numSlots, h);
    }

    // -------------------------------------------------------------- export

    /** `export_objs` takes the objects to be exported. */
    method GroupExports(h: nat)
      requires Valid() && h in heaps && heaps[h].grouping == 0
      modifies this`heaps, this`lists, this`location
      ensures Valid() && OthersKept(old(St()), St(), h) && HeldObjects() == old(HeldObjects())
      ensures heaps.Keys == old(heaps.Keys) && heaps[h].exportList == 0 && heaps[h].exportSize == 0
      ensures heaps[h].importing == old(heaps[h].importing) && heaps[h].exporting == old(heaps[h].exporting)
      ensures Sent(old(St()), St(), h)
    {
      hide Inv, Laid, SameObjects, OthersKept, NumbersOk, OrphansOk, ReadyOk;
      ghost var st := St();
      GroupBeginStep(st, numSlots, h);
      LaidKept(st, GroupBegin(st, h), delta, header);
      GroupBeginSent(st, numSlots, h);
      heaps := heaps[h := heaps[h].(grouping := heaps[h].exportList, exportList := 0, exportSize := 0)];
      ghost var s := At(lists, ToExport(h));
      lists, location := lists[ToExport(h) := []][Grouping(h) := s], Relocate(location, s, Grouping(h));
      assert St() == GroupBegin(st, h);
    }

    /** Put an object into the entry of heap `t`, a new entry if need be; `link` is what it is linked
        to. */
    method AddToEntry(entries: map<nat, Entry>, t: nat, o: nat) returns (link: nat, r: map<nat, Entry>)
      ensures link == (if t in entries then entries[t].head else 0)
      ensures r == entries[t := Entry(o, if t in entries then entries[t].tail else o)]
    {
      if t in entries {
        link := entries[t].head;
        r := entries[t := entries[t].(head := o)];
      } else {
        link := 0;
        r := entries[t := Entry(o, o)];
      }
    }

    /** Move the next object to the entry of the heap that owns it. */
    method GroupOne(h: nat)
      requires Valid() && h in heaps && heaps[h].grouping != 0
      modifies this`next, this`heaps, this`lists, this`location
      ensures Valid() && OthersKept(old(St()), St(), h) && HeldObjects() == old(HeldObjects())
      ensures heaps.Keys == old(heaps.Keys) && |At(lists, Grouping(h))| + 1 == |old(At(lists, Grouping(h)))|
      ensures heaps[h].exportList == old(heaps[h].exportList) && heaps[h].exportSize == old(heaps[h].exportSize)
      ensures heaps[h].importing == old(heaps[h].importing) && Sent(old(St()), St(), h)
    {
      hide Inv, Laid, SameObjects, OthersKept, NumbersOk, OrphansOk, ReadyOk, Sent, GroupStep, HeldIn;
      ghost var st := St();
      GroupEntry(st, numSlots, h);
      var o := heaps[h].grouping;
      var n := next[o];
      var t := pages[PageOf(o)].heap;
      GroupOneStep(st, numSlots, h);
      LaidKept(st, GroupStep(st, h, t), delta, header);
      GroupStepSent(st, numSlots, h, t);
      MoveToEntry(h, t, o, n);
    }

    /** Take the object `o`, which is followed by `n`, out of the list and put it into its entry. */
    method MoveToEntry(h: nat, t: nat, o: nat, n: nat)
      requires GroupStep.requires(St(), h, t) && o == At(lists, Grouping(h))[0] && n == Head(At(lists, Grouping(h))[1..])
      requires Head(At(lists, Exporting(h, t))) == (if t in heaps[h].exporting then heaps[h].exporting[t].head else 0)
      modifies this`next, this`heaps, this`lists, this`location
      ensures St() == GroupStep(old(St()), h, t)
      ensures heaps[h].exportList == old(heaps[h].exportList) && heaps[h].exportSize == old(heaps[h].exportSize)
      ensures heaps[h].importing == old(heaps[h].importing)
      ensures |At(lists, Grouping(h))| + 1 == |old(At(lists, Grouping(h)))|
    {
      var link, entries := AddToEntry(heaps[h].exporting, t, o);
      GroupStepState(St(), h, t, o, link);
      next := next[o := link];
      heaps := heaps[h := heaps[h].(grouping := n, exporting := entries)];
      ghost var s, pl := At(lists, Grouping(h)), Exporting(h, t);
      lists, location := lists[Grouping(h) := s[1..]][pl := [o] + At(lists, pl)], location[o := Held][o := pl];
    }

    /** Append an entry to the import list of its heap, under that heap's lock. */
    method PublishOne(h: nat, t: nat)
      requires Valid() && h in heaps && t in heaps[h].exporting
      modifies this`next, this`heaps, this`lists, this`location
      ensures Valid() && OthersKept(old(St()), St(), h) && HeldObjects() == old(HeldObjects())
      ensures heaps.Keys == old(heaps.Keys) && heaps[h].exporting == old(heaps[h].exporting) - {t}
      ensures heaps[h].(exporting := old(heaps[h].exporting)) == old(heaps[h]) && Sent(old(St()), St(), h)
    {
      hide Inv, Laid, SameObjects, OthersKept, NumbersOk, OrphansOk, ReadyOk;
      ghost var st := St();
      PublishEntry(st, numSlots, h, t);
      PublishStep(st, numSlots, h, t);
      LaidKept(st, Publish(st, h, t), delta, header);
      PublishSent(st, numSlots, h, t);
      AppendEntry(h, t);
    }

    /** One pointer write links the entry in front of the import list. */
    method AppendEntry(h: nat, t: nat)
      requires Publish.requires(St(), h, t) && h != t && t in heaps[h].exporting
      requires var s := At(lists, Exporting(h, t)); heaps[h].exporting[t] == Entry(s[0], s[|s| - 1])
      requires heaps[t].importList == Head(At(lists, ToImport(t)))
      modifies this`next, this`heaps, this`lists, this`location
      ensures St() == Publish(old(St()), h, t)
      ensures heaps[h] == old(heaps[h]).(exporting := old(heaps[h].exporting) - {t})
    {
      var e := heaps[h].exporting[t];
      next := next[e.tail := heaps[t].importList];
      heaps := heaps[h := heaps[h].(exporting := heaps[h].exporting - {t})];
      heaps := heaps[t := heaps[t].(importList := e.head)];
      ghost var s, u := At(lists, Exporting(h, t)), At(lists, ToImport(t));
      lists, location := lists[Exporting(h, t) := []][ToImport(t) := s + u], Relocate(location, s, ToImport(t));
    }

    /** `export_objs`: every object on the export list ends up on the import list of the heap that
        owns it, and nothing else moves. */
    method ExportObjs(h: nat)
      requires Valid() && h in heaps && Idle(h)
      modifies this`next, this`heaps, this`lists, this`location
      ensures Valid() && OthersKept(old(St()), St(), h) && HeldObjects() == old(HeldObjects())
      ensures heaps.Keys == old(heaps.Keys) && Idle(h) && heaps[h].exportList == 0 && heaps[h].exportSize == 0
      ensures Delivered(old(St()), St(), h)
    {
      hide Inv, Laid, SameObjects, OthersKept, NumbersOk, OrphansOk, ReadyOk, Sent, Delivered;
      ghost var st := St();
      GroupExports(h);
      while heaps[h].grouping != 0
        invariant Valid() && h in heaps && OthersKept(st, St(), h) && HeldObjects() == old(HeldObjects())
        invariant heaps.Keys == old(heaps.Keys) && heaps[h].exportList == 0 && heaps[h].exportSize == 0 && heaps[h].importing == 0
        invariant Sent(st, St(), h)
        decreases |At(lists, Grouping(h))|
      {
        ghost var mid := St();
        GroupOne(h);
        SentTrans(st, mid, St(), h);
        OthersTrans(st, mid, St(), h);
      }
      while heaps[h].exporting.Keys != {}
        invariant Valid() && h in heaps && OthersKept(st, St(), h) && HeldObjects() == old(HeldObjects())
        invariant heaps.Keys == old(heaps.Keys) && heaps[h].exportList == 0 && heaps[h].exportSize == 0 && heaps[h].importing == 0
        invariant heaps[h].grouping == 0 && Sent(st, St(), h)
        decreases heaps[h].exporting.Keys
      {
        ghost var mid := St();
        var t :| t in heaps[h].exporting.Keys;
        PublishOne(h, t);
        SentTrans(st, mid, St(), h);
        OthersTrans(st, mid, St(), h);
      }
      SentAll(st, St(), numSlots, h);
    }

    // -------------------------------------------------------------- allocation

    /** Carve a new page into as many objects of its slot size as fit, linked from the last to the
        first. */
    method CarvePage(p: nat, slot: nat) returns (first: nat, num: nat, ghost s: seq<nat>)
      requires Valid() && p !in pages && p != 0 && slot < numSlots
      modifies this`next
      ensures FreshPage(old(St()), p, next, s) && first == Head(s) && num == |s| && num > 0
      ensures Cut(s, p, header, SlotSize(delta, slot)) && Fills(header, SlotSize(delta, slot), num)
    {
      hide Inv, Laid, NumbersOk, OrphansOk, ReadyOk, Cut;
      var objSize := delta * (slot + 1);
      SlotFits(slot);
      ghost var st := St();
      var currFree := p * PAGE_SIZE + header;
      var end := (p + 1) * PAGE_SIZE;
      next := next[currFree := 0];
      s := [currFree];
      num := 1;
      var nextFree := currFree + objSize;
      CutFirst(p, header, objSize);
      while nextFree + objSize <= end
        invariant 0 < objSize && num == |s| && num > 0 && s[0] == currFree && nextFree == currFree + objSize <= end
        invariant Cut(s, p, header, objSize) && Linked(next, s) && NoDup(s)
        invariant forall o :: o in st.next && PageOf(o) != p ==> o in next && next[o] == st.next[o]
        decreases end - nextFree
      {
        CutNext(s, p, header, objSize);
        LinkedCons(next, nextFree, s);
        next := next[nextFree := currFree];
        s := [nextFree] + s;
        currFree := nextFree;
        nextFree := nextFree + objSize;
        num := num + 1;
      }
      first := currFree;
      CutNext(s, p, header, objSize);
      CutFits(s, p, header, objSize);
      CutPlaces(s, p, header, objSize);
      NothingThere(st, p);
      assert FreshPage(st, p, next, s);
    }

    lemma {:induction false} NothingThere(st: State, p: nat)
      requires Inv(st, numSlots) && p !in st.pages
      ensures forall o :: PageOf(o) == p ==> o !in st.location
    {
      NoPageNoObjects(st, p);
    }

    lemma {:induction false} SlotFits(slot: nat)
      requires 0 < delta && slot < numSlots && header + numSlots * delta <= PAGE_SIZE
      ensures 0 < delta * (slot + 1) <= PAGE_SIZE - header
    {
      assert delta * (slot + 1) <= delta * numSlots;
    }

    /** Page `p` becomes the current page of a slot; the rest of the heap stays. */
    ghost predicate CurrentSet(a: Heap, b: Heap, slot: nat, p: nat) {
      slot < |a.currPage| && b == a.(currPage := a.currPage[slot := p])
    }

    /** Enter the header of a carved page and make it the first current page of its slot. */
    method PlacePage(h: nat, slot: nat, p: nat, first: nat, num: nat, ghost st: State, ghost s: seq<nat>)
      requires h in heaps && slot < |heaps[h].currPage| && slot < |heaps[h].pageFreeList| && SlotOk(St(), h, slot)
      requires (heaps[h].currPage[slot] != 0 ==> heaps[h].currPage[slot] in pages) && first == Head(s) && num == |s|
      requires st == St().(next := st.next)
      modifies this`pages, this`heaps, this`lists, this`location, this`current
      ensures WithPage.requires(st, h, slot, p, next, s) && St() == WithPage(st, h, slot, p, next, s)
      ensures CurrentSet(old(heaps[h]), heaps[h], slot, p)
    {
      assert SlotOk(st, h, slot);
      hide WithPage, Insert;
      WithPageState(st, h, slot, p, next, s);
      pages := pages[p := Page(h, 0, 0, first, num, num, slot, false)];
      var newHead := PageListInsert(heaps[h].currPage[slot], p);
      heaps := heaps[h := heaps[h].(currPage := heaps[h].currPage[slot := newHead])];
      current := current[(h, slot) := [p] + current[(h, slot)]];
      lists, location := lists[Free(p) := s], location + AllAt(s, Free(p));
    }

    /** Carve a page and put it in front of the current pages of its slot. */
    method BuildPage(h: nat, slot: nat, p: nat) returns (ghost s: seq<nat>)
      requires Valid() && h in heaps && slot < numSlots && p !in pages && p != 0
      modifies this`next, this`pages, this`heaps, this`lists, this`location, this`current
      ensures FreshPage(old(St()), p, next, s) && s != [] && WithPage.requires(old(St()), h, slot, p, next, s)
      ensures St() == WithPage(old(St()), h, slot, p, next, s) && SlotOk(old(St()), h, slot)
      ensures CurrentSet(old(heaps[h]), heaps[h], slot, p)
      ensures Cut(s, p, header, SlotSize(delta, slot)) && Fills(header, SlotSize(delta, slot), |s|)
    {
      hide Inv, Laid, SameObjects, OthersKept, NumbersOk, OrphansOk, ReadyOk, WithPage, SlotOk, FreshPage, Cut, Fills;
      ghost var st := St();
      SlotFacts(st, numSlots, h, slot);
      var first, num;
      first, num, s := CarvePage(p, slot);
      SlotMoved(st, St(), h, slot);
      PlacePage(h, slot, p, first, num, st, s);
    }

    /** A new page, cut into free objects of the size of its slot, becomes the first current page of
        the slot; objects of other pages stay where they are. */
    method AllocPage(h: nat, slot: nat) returns (p: nat)
      requires Valid() && h in heaps && slot < numSlots
      modifies this`next, this`pages, this`heaps, this`top, this`lists, this`location, this`current, this`available
      ensures Valid() && OthersKept(old(St()), St(), h) && HeldObjects() == old(HeldObjects()) && heaps.Keys == old(heaps.Keys)
      ensures p in pages && pages[p].freeList != 0 && CurrentSet(old(heaps[h]), heaps[h], slot, p)
      ensures RunsFilled(old(current), current) && (h, slot) in current && current[(h, slot)] != []
      ensures pages.Keys == old(pages.Keys) + {p} && NewPage(old(St()), St(), delta, header, h, slot, p)
    {
      hide Inv, Laid, SameObjects, OthersKept, NumbersOk, OrphansOk, ReadyOk, RunsFilled, WithPage, SlotOk, FreshPage, Cut, Fills, NewPage;
      ghost var st := St();
      var gap: nat :| true;
      p := top + gap;
      FreshNumber(pages.Keys, heaps.Keys, p, top, nextHeap);
      ghost var s := BuildPage(h, slot, p);
      NewPageStep(st, St(), numSlots, h, slot, p, s);
      WithPageNew(st, St(), numSlots, delta, header, h, slot, p, s);
      ReadyKept(heaps.Keys, st.current, numSlots, ready, current);
      top := p + 1;
    }

    lemma {:induction false} SlotMoved(st: State, st': State, h: nat, i: nat)
      requires h in st.heaps && i < |st.heaps[h].currPage| && i < |st.heaps[h].pageFreeList| && SlotOk(st, h, i)
      requires st == st'.(next := st.next)
      ensures SlotOk(st', h, i) && st.heaps[h].currPage[i] == Head(st.current[(h, i)])
    {
    }

    /** Take the first free object of the first current page. */
    method TakeFree(h: nat, slot: nat) returns (r: nat)
      requires Valid() && h in heaps && slot < numSlots && slot < |heaps[h].currPage| && heaps[h].currPage[slot] in pages
      requires pages[heaps[h].currPage[slot]].freeList != 0
      requires (h, slot) in current && current[(h, slot)] != []
      modifies this`pages, this`lists, this`location
      ensures Valid() && OthersKept(old(St()), St(), h) && pages.Keys == old(pages.Keys)
      ensures r == old(pages[heaps[h].currPage[slot]].freeList) && PageOf(r) == heaps[h].currPage[slot]
      ensures pages[PageOf(r)].heap == h && pages[PageOf(r)].slot == slot
      ensures r in old(location) && old(location)[r] == Free(PageOf(r)) && location == old(location)[r := Held]
      ensures r in location && r !in old(HeldObjects()) && HeldObjects() == old(HeldObjects()) + {r}
    {
      hide Inv, Laid, SameObjects, OthersKept, NumbersOk, OrphansOk, ReadyOk;
      ghost var st := St();
      var p := heaps[h].currPage[slot];
      CurrentPage(st, numSlots, h, slot);
      PopFreeStep(st, numSlots, p);
      LaidKept(st, PopFree(st, p), delta, header);
      r := pages[p].freeList;
      pages := pages[p := pages[p].(freeList := next[r], numFree := pages[p].numFree - 1)];
      ghost var s := At(lists, Free(p));
      lists, location := lists[Free(p) := s[1..]], location[r := Held];
      assert St() == PopFree(st, p);
    }

    /** `lean_alloc_small`: the result was not handed out before and has the size of its slot; it was
        free, or came in by an import, or is on a new page. The cold path imports, keeps the current
        page if that helped, and otherwise adds a page; or it continues with a page that has many
        free objects. A new page is used exactly when the current page is used up, none is kept for
        reuse, and nothing incoming belongs to the current page. */
    method AllocSmall(h: nat, slot: nat) returns (r: nat)
      requires Valid() && Owned(h) && slot < numSlots && heaps[h].importing == 0
      modifies this`next, this`pages, this`heaps, this`top, this`lists, this`location, this`current, this`available
      ensures Valid() && OthersKept(old(St()), St(), h) && heaps.Keys == old(heaps.Keys)
      ensures r in location && r !in old(HeldObjects()) && HeldObjects() == old(HeldObjects()) + {r}
      ensures PageOf(r) in pages && pages[PageOf(r)].heap == h && pages[PageOf(r)].slot == slot
      ensures TakenOne(old(St()), St(), h, r)
      ensures h in old(heaps) && slot < |old(heaps[h]).currPage| && slot < |old(heaps[h]).pageFreeList|
      ensures old(heaps[h]).currPage[slot] in old(pages) && Serves(old(St()), St(), h, slot, r)
      ensures r in old(location) ==> old(location)[r] == Free(PageOf(r)) || Incoming(old(location)[r], h)
    {
      hide Inv, Laid, SameObjects, OthersKept, NumbersOk, OrphansOk, Received, TakenOne, ColdPage;
      ghost var st := St();
      CurrentReady(h, slot);
      var p := heaps[h].currPage[slot];
      NothingKept(st, h);
      NothingMoved(st, h);
      if pages[p].freeList == 0 {
        AllocCold(h, slot, p);
      }
      ghost var mid := St();
      r := TakeFree(h, slot);
      if st.pages[p].freeList == 0 { ServedCold(st, mid, St(), h, slot, r); }
      OthersTrans(st, mid, St(), h);
      TakenAfter(st, mid, St(), h, r);
      TakenFrom(st, mid, h, r);
    }

    lemma {:induction false} NothingMoved(st: State, h: nat)
      ensures Received(st, st, h)
    {
      StillReceived(st, st, h);
    }

    lemma {:induction false} CurrentReady(h: nat, slot: nat)
      requires Valid() && h in ready && slot < numSlots
      ensures h in heaps && slot < |heaps[h].currPage| && slot < |heaps[h].pageFreeList|
      ensures heaps[h].currPage[slot] in pages && (h, slot) in current && current[(h, slot)] != []
    {
      SlotFacts(St(), numSlots, h, slot);
      CurrentPage(St(), numSlots, h, slot);
    }

    /** `page_list_pop` and `page_list_insert`. */
    method TakeAvailable(h: nat, slot: nat)
      requires h in heaps && slot < |heaps[h].currPage| && slot < |heaps[h].pageFreeList| && heaps[h].pageFreeList[slot] in pages
      requires heaps[h].currPage[slot] != 0 ==> heaps[h].currPage[slot] in pages
      modifies this`pages, this`heaps
      ensures var heap := old(heaps[h]); var p := heap.pageFreeList[slot];
        && pages == Insert(old(pages)[p := old(pages)[p].(inFreeList := false)], heap.currPage[slot], p)
        && heaps == old(heaps)[h := heap.(currPage := heap.currPage[slot := p], pageFreeList := heap.pageFreeList[slot := old(pages)[p].next])]
    {
      var p := heaps[h].pageFreeList[slot];
      heaps := heaps[h := heaps[h].(pageFreeList := heaps[h].pageFreeList[slot := pages[p].next])];
      pages := pages[p := pages[p].(inFreeList := false)];
      var newHead := PageListInsert(heaps[h].currPage[slot], p);
      heaps := heaps[h := heaps[h].(currPage := heaps[h].currPage[slot := newHead])];
    }

    /** A page with many free objects becomes the first current page; it is never empty. */
    method ReusePage(h: nat, slot: nat)
      requires Valid() && h in heaps && slot < numSlots
      requires slot < |heaps[h].currPage| && slot < |heaps[h].pageFreeList| && heaps[h].pageFreeList[slot] != 0
      modifies this`pages, this`heaps, this`current, this`available
      ensures Valid() && OthersKept(old(St()), St(), h) && heaps.Keys == old(heaps.Keys)
      ensures slot < |heaps[h].currPage| && heaps[h].currPage[slot] in pages
      ensures pages[heaps[h].currPage[slot]].freeList != 0 && (h, slot) in current && current[(h, slot)] != []
      ensures location == old(location) && heaps[h].currPage[slot] == old(heaps[h].pageFreeList[slot])
    {
      hide Inv, Laid, SameObjects, OthersKept, NumbersOk, OrphansOk, ReadyOk, RunsFilled, Insert;
      ghost var st := St();
      ReuseStep(st, numSlots, h, slot);
      LaidKept(st, Reused(st, h, slot), delta, header);
      ReusedState(st, numSlots, h, slot);
      TakeAvailable(h, slot);
      ghost var a := available[(h, slot)];
      current, available := current[(h, slot) := [a[0]] + current[(h, slot)]], available[(h, slot) := a[1..]];
      assert St() == Reused(st, h, slot);
      ReadyKept(heaps.Keys, st.current, numSlots, ready, current);
    }

    /** The cold path up to the point where the first current page has a free object. */
    method AllocCold(h: nat, slot: nat, p: nat)
      requires Valid() && Owned(h) && slot < numSlots && heaps[h].importing == 0
      requires h in heaps && slot < |heaps[h].currPage| && slot < |heaps[h].pageFreeList|
      requires heaps[h].currPage[slot] == p && p in pages && pages[p].freeList == 0
      modifies this`next, this`pages, this`heaps, this`top, this`lists, this`location, this`current, this`available
      ensures Valid() && OthersKept(old(St()), St(), h) && heaps.Keys == old(heaps.Keys) && HeldObjects() == old(HeldObjects())
      ensures h in ready && slot < |heaps[h].currPage| && heaps[h].currPage[slot] in pages
      ensures pages[heaps[h].currPage[slot]].freeList != 0 && (h, slot) in current && current[(h, slot)] != []
      ensures Received(old(St()), St(), h) && ColdPage(old(St()), St(), h, slot, heaps[h].currPage[slot])
    {
      hide Inv, Laid, SameObjects, OthersKept, NumbersOk, OrphansOk, Received, Returned, Unmoved, NewPage, Awaited;
      ghost var st := St();
      if heaps[h].pageFreeList[slot] == 0 {
        ImportObjs(h);
        ReturnedReceived(st, St(), h);
        CurrentReady(h, slot);
        assert heaps[h].currPage[slot] == p;
        RefilledByImport(st, St(), numSlots, h, p);
        if pages[p].freeList == 0 {
          ghost var mid := St();
          var page := AllocPage(h, slot);
          OthersTrans(st, mid, St(), h);
          NewPageUnmoved(mid, St(), delta, header, h, slot, page);
          UnmovedReceived(st, mid, St(), h);
          UnmovedReturned(st, mid, St(), h);
        }
      } else {
        ReusePage(h, slot);
        SamePlaces(st, St(), h);
      }
    }

    lemma {:induction false} SamePlaces(st: State, st': State, h: nat)
      requires st'.location == st.location
      ensures Received(st, st', h) && Unmoved(st, st')
    {
      StillReceived(st, st', h);
    }

    // -------------------------------------------------------------- deallocation

    /** Put an object in front of the export list. */
    method LinkExport(h: nat, o: nat)
      requires Valid() && h in heaps && o in location && location[o] == Held && PageOf(o) in pages && Owner(St(), o) != h
      modifies this`next, this`heaps, this`lists, this`location
      ensures Valid() && OthersKept(old(St()), St(), h) && heaps.Keys == old(heaps.Keys)
      ensures HeldObjects() == old(HeldObjects()) - {o} && location == old(location)[o := ToExport(h)]
      ensures heaps[h] == old(heaps[h]).(exportList := o, exportSize := old(heaps[h]).exportSize + 1)
    {
      hide Inv, Laid, SameObjects, OthersKept, NumbersOk, OrphansOk, ReadyOk;
      ghost var st := St();
      ExportPushStep(st, numSlots, h, o);
      LaidKept(st, ExportPush(st, h, o), delta, header);
      next := next[o := heaps[h].exportList];
      heaps := heaps[h := heaps[h].(exportList := o, exportSize := heaps[h].exportSize + 1)];
      ghost var pl := ToExport(h);
      lists, location := lists[pl := [o] + At(lists, pl)], location[o := pl];
      assert St() == ExportPush(st, h, o);
    }

    /** An object of another heap waits for export; a long list is exported at once. */
    method DeallocCold(h: nat, o: nat)
      requires Valid() && h in heaps && Idle(h) && o in location && location[o] == Held
      requires PageOf(o) in pages && Owner(St(), o) != h
      modifies this`next, this`heaps, this`lists, this`location
      ensures Valid() && OthersKept(old(St()), St(), h) && heaps.Keys == old(heaps.Keys)
      ensures HeldObjects() == old(HeldObjects()) - {o} && Idle(h)
      ensures heaps[h].exportSize <= MaxNat(old(heaps[h].exportSize), MAX_TO_EXPORT_OBJS)
      ensures old(heaps[h].exportSize) < MAX_TO_EXPORT_OBJS ==> location == old(location)[o := ToExport(h)]
      ensures old(heaps[h].exportSize) >= MAX_TO_EXPORT_OBJS ==> DeliveredWith(old(St()), St(), h, o)
    {
      hide Inv, Laid, SameObjects, OthersKept, NumbersOk, OrphansOk, ReadyOk, Delivered, DeliveredWith;
      ghost var st := St();
      LinkExport(h, o);
      ghost var mid := St();
      if heaps[h].exportSize > MAX_TO_EXPORT_OBJS {
        ExportObjs(h);
        OthersTrans(st, mid, St(), h);
        AllHomes(st, numSlots);
        DeliveredAfter(st, mid, St(), h, o);
      }
    }

    /** `dealloc_small_core` by the thread of heap `h`: an object of its own goes back to its page, one
        of another heap to the export list, and from a full export list everything to its owners. */
    method Dealloc(h: nat, o: nat)
      requires Valid() && Owned(h) && h in heaps && Idle(h) && o in location && location[o] == Held
      modifies this`next, this`pages, this`heaps, this`lists, this`location, this`current, this`available
      ensures Valid() && OthersKept(old(St()), St(), h) && heaps.Keys == old(heaps.Keys)
      ensures HeldObjects() == old(HeldObjects()) - {o}
      ensures PageOf(o) in old(pages)
      ensures old(pages)[PageOf(o)].heap == h ==> location == old(location)[o := Free(PageOf(o))] && Recycles(old(St()), pages, PageOf(o), h)
      ensures old(pages)[PageOf(o)].heap != h && old(heaps[h].exportSize) < MAX_TO_EXPORT_OBJS ==> location == old(location)[o := ToExport(h)]
      ensures old(pages)[PageOf(o)].heap != h && old(heaps[h].exportSize) >= MAX_TO_EXPORT_OBJS ==> DeliveredWith(old(St()), St(), h, o)
    {
      hide Inv, Laid, SameObjects, OthersKept, NumbersOk, OrphansOk, ReadyOk, DeliveredWith;
      HeldHome(St(), numSlots, o);
      if pages[PageOf(o)].heap == h {
        PushFreeObj(o, h);
      } else {
        DeallocCold(h, o);
      }
    }

    // -------------------------------------------------------------- threads

    /** A finished thread exports, imports and leaves its heap to a later thread: what it was to export
        is with the owners, what it was to import is back on its pages. */
    method FinalizeHeap(h: nat)
      requires Valid() && Owned(h) && h in heaps && Idle(h)
      modifies this
      ensures Valid() && OthersKept(old(St()), St(), h) && HeldObjects() == old(HeldObjects())
      ensures !Owned(h) && orphanList == [h] + old(orphanList) && ready == old(ready)
      ensures Flushed(old(St()), St(), h)
    {
      hide Inv, Laid, SameObjects, OthersKept, NumbersOk, ReadyOk, OrphansOk, Delivered, Returned, Flushed;
      ghost var st := St();
      ExportObjs(h);
      ghost var mid := St();
      ImportObjs(h);
      OthersTrans(st, mid, St(), h);
      FlushedAfter(st, mid, St(), numSlots, h);
      PushOrphan(h);
    }

    method PushOrphan(h: nat)
      requires Valid() && Owned(h) && h in heaps
      modifies this`orphans, this`nextOrphan, this`orphanList
      ensures Valid() && orphanList == [h] + old(orphanList)
    {
      hide Inv, Laid, ReadyOk;
      LinkedCons(nextOrphan, h, orphanList);
      nextOrphan := nextOrphan[h := orphans];
      orphans := h;
      orphanList := [h] + orphanList;
    }

    /** Reuse the heap that became an orphan last. */
    method PopOrphan() returns (h: nat)
      requires Valid() && orphans != 0
      modifies this`orphans, this`orphanList
      ensures Valid() && old(orphanList) == [h] + orphanList && h !in orphanList && h in ready && h in heaps
    {
      hide Inv, Laid;
      h := orphans;
      LinkedTail(nextOrphan, orphanList);
      orphans := nextOrphan[h];
      orphanList := orphanList[1..];
    }

    /** A new heap with empty lists. */
    method NewHeap() returns (h: nat)
      requires Valid()
      modifies this`heaps, this`nextHeap, this`current, this`available
      ensures Valid() && h !in old(heaps) && h in heaps && Idle(h) && OthersKept(old(St()), St(), h)
      ensures h !in ready && location == old(location)
    {
      hide Inv, Laid, SameObjects, OthersKept, OrphansOk, RunsFilled, NumbersOk, ReadyOk;
      ghost var st := St();
      h := nextHeap;
      FreshHeap(pages.Keys, heaps.Keys, top, nextHeap, current, numSlots, ready);
      WithHeapStep(st, numSlots, h);
      LaidKept(st, WithHeap(st, numSlots, h), delta, header);
      heaps := heaps[h := EmptyHeap(numSlots)];
      current, available := current + EmptyRuns(h, numSlots), available + EmptyRuns(h, numSlots);
      assert St() == WithHeap(st, numSlots, h);
      ReadyKept(heaps.Keys, st.current, numSlots, ready, current);
      nextHeap := h + 1;
    }

    /** `init_heap`: reuse an orphan heap, or make a new one with a page for every slot. */
    method InitHeap() returns (h: nat)
      requires Valid()
      modifies this
      ensures Valid() && Owned(h) && h in heaps && HeldObjects() == old(HeldObjects())
      ensures if old(orphanList) != [] then old(orphanList) == [h] + orphanList else h !in old(heaps) && orphanList == []
      ensures forall g :: g != h ==> (Owned(g) <==> old(Owned(g)))
      ensures OthersKept(old(St()), St(), h) && Unmoved(old(St()), St())
    {
      hide Inv, Laid, SameObjects, OthersKept, NumbersOk, OrphansOk, Unmoved;
      ghost var st := St();
      SamePlaces(st, st, 0);
      if orphans != 0 {
        h := PopOrphan();
        NothingKept(st, h);
      } else {
        NoOrphans();
        h := NewHeap();
        SamePlaces(st, St(), h);
        FillSlots(h, st);
        MoreReady(nextOrphan, orphans, orphanList, ready, h);
        ready := ready + {h};
      }
    }

    lemma {:induction false} OrphanNumbers()
      requires Valid()
      ensures forall i :: 0 <= i < |orphanList| ==> orphanList[i] != 0
    {
      hide Inv, Laid;
      forall i | 0 <= i < |orphanList| ensures orphanList[i] != 0 { assert orphanList[i] in orphanList; }
    }

    lemma {:induction false} NoOrphans()
      requires Valid() && orphans == 0
      ensures orphanList == []
    {
      hide Inv, Laid;
      OrphanNumbers();
    }

    /** A page for every slot of a new heap. */
    method FillSlots(h: nat, ghost st: State)
      requires Valid() && h in heaps && OthersKept(st, St(), h) && Unmoved(st, St())
      modifies this`next, this`pages, this`heaps, this`top, this`lists, this`location, this`current, this`available
      ensures Valid() && h in heaps && OthersKept(st, St(), h) && HeldObjects() == old(HeldObjects()) && Unmoved(st, St())
      ensures forall i :: 0 <= i < numSlots ==> (h, i) in current && current[(h, i)] != []
    {
      hide Inv, Laid, SameObjects, OthersKept, NumbersOk, OrphansOk, ReadyOk, Unmoved, NewPage;
      var i := 0;
      while i < numSlots
        invariant 0 <= i <= numSlots && Valid() && h in heaps && OthersKept(st, St(), h) && HeldObjects() == old(HeldObjects())
        invariant forall k :: 0 <= k < i ==> (h, k) in current && current[(h, k)] != []
        invariant Unmoved(st, St())
      {
        ghost var mid := St();
        SlotFacts(mid, numSlots, h, i);
        if heaps[h].currPage[i] == 0 {
          var page := AllocPage(h, i);
          OthersTrans(st, mid, St(), h);
          NewPageUnmoved(mid, St(), delta, header, h, i, page);
          UnmovedTrans(st, mid, St());
        }
        i := i + 1;
      }
    }

    // -------------------------------------------------------------- runs

    /** `held` are the objects handed out, `running` the heaps with a thread. */
    ghost predicate Tracks(held: set<nat>, running: set<nat>)
      reads this
    {
      held == HeldObjects() && forall h :: h in running <==> Owned(h)
    }

    /** No two objects of `held` overlap, and each lies inside its page, behind the header. */
    ghost predicate Separate(held: set<nat>)
      reads this
    {
      && (forall o :: o in held ==> Inside(o))
      && forall a, b :: a in held && b in held && a != b ==> Apart(a, b)
    }

    ghost predicate Inside(o: nat)
      reads this
    {
      PageOf(o) in pages && PageOf(o) * PAGE_SIZE + header <= o && o + SizeOf(St(), delta, o) <= (PageOf(o) + 1) * PAGE_SIZE
    }

    ghost predicate Apart(a: nat, b: nat)
      reads this
    {
      PageOf(a) in pages && PageOf(b) in pages && Disjoint(a, SizeOf(St(), delta, a), b, SizeOf(St(), delta, b))
    }

    /** In every reachable state the objects handed out do not overlap. */
    lemma {:induction false} HeldSeparate()
      requires Valid()
      ensures Separate(HeldObjects())
    {
      hide Inv, Laid, NumbersOk, OrphansOk, ReadyOk, Disjoint;
      forall o | o in HeldObjects() ensures Inside(o) {
        var k := ObjectOfPage(St(), numSlots, delta, header, o);
      }
      forall a, b | a in HeldObjects() && b in HeldObjects() && a != b ensures Apart(a, b) {
        ObjectsDisjoint(St(), numSlots, delta, header, a, b);
      }
    }

    /** Any interleaving of steps of any number of threads, at the granularity of the locks: a step
        that is not possible is skipped.  No page and no object is lost, objects appear only with new
        pages, and the objects handed out do not overlap. */
    method Run(script: seq<Step>) returns (held: set<nat>, running: set<nat>)
      requires Valid() && Tracks({}, {})
      modifies this
      ensures Valid() && Tracks(held, running) && Conserved(old(St()), St()) && Separate(held)
    {
      held, running := {}, {};
      ghost var st := St();
      hide Inv, Laid, Conserved, NumbersOk, OrphansOk, ReadyOk;
      NothingLost(st);
      for i := 0 to |script|
        invariant Valid() && Tracks(held, running) && Conserved(st, St())
      {
        ghost var mid := St();
        held, running := Perform(script[i], held, running);
        ConservedTrans(st, mid, St());
      }
      HeldSeparate();
    }

    lemma {:induction false} NothingLost(st: State)
      ensures Conserved(st, st)
    {
    }

    /** One step of one thread. */
    method Perform(step: Step, held0: set<nat>, running0: set<nat>) returns (held: set<nat>, running: set<nat>)
      requires Valid() && Tracks(held0, running0)
      modifies this
      ensures Valid() && Tracks(held, running) && Conserved(old(St()), St()) && Separate(held)
    {
      hide Inv, Laid, SameObjects, OthersKept, NumbersOk, OrphansOk, ReadyOk, Conserved, Separate;
      hide Unmoved, Flushed, TakenOne, DeliveredWith;
      ghost var st := St();
      NothingLost(st);
      held, running := held0, running0;
      match step {
        case StartThread =>
          var h := InitHeap();
          OthersConserved(st, St(), h);
          running := running + {h};
        case EndThread(h) =>
          if h in running && h in heaps && Idle(h) {
            FinalizeHeap(h);
            OthersConserved(st, St(), h);
            running := running - {h};
          }
        case Alloc(h, slot) =>
          if h in running && h in heaps && slot < numSlots && heaps[h].importing == 0 {
            var r := AllocSmall(h, slot);
            OthersConserved(st, St(), h);
            held := held + {r};
          }
        case Dealloc(h, o) =>
          if h in running && h in heaps && Idle(h) && o in held {
            Dealloc(h, o);
            OthersConserved(st, St(), h);
            held := held - {o};
          }
        case _ =>
          Transfer(step);
      }
      HeldSeparate();
    }

    /** One step of an export or import. */
    method Transfer(step: Step)
      requires Valid()
      modifies this`next, this`pages, this`heaps, this`lists, this`location, this`current, this`available
      ensures Valid() && HeldObjects() == old(HeldObjects()) && Conserved(old(St()), St())
    {
      hide Inv, Laid, SameObjects, OthersKept, NumbersOk, OrphansOk, ReadyOk, Conserved, Sent, Received;
      ghost var st, h := St(), 0;
      NothingKept(st, h);
      if step.StartExport? && step.heap in heaps && heaps[step.heap].grouping == 0 {
        GroupExports(step.heap);
        h := step.heap;
      } else if step.NextExport? && step.heap in heaps && heaps[step.heap].grouping != 0 {
        GroupOne(step.heap);
        h := step.heap;
      } else if step.SendExport? && step.heap in heaps && step.target in heaps[step.heap].exporting {
        PublishOne(step.heap, step.target);
        h := step.heap;
      } else if step.StartImport? && step.heap in heaps && heaps[step.heap].importing == 0 {
        GrabImports(step.heap);
        h := step.heap;
      } else if step.NextImport? && step.heap in heaps && heaps[step.heap].importing != 0 {
        ImportOne(step.heap);
        h := step.heap;
      }
      OthersConserved(st, St(), h);
    }
  }
}
