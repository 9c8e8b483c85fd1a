/** Which objects there are: pages cut into objects of one size, none of them ever lost, and where
    exported and imported objects go (runtime/alloc.cpp, lines 221-318). */
module AllocLayout {
  import opened LinkedLists
  import opened PageLists
  import opened AllocState

  // ---------------------------------------------------------------- pages cut into objects

  /** The `k`-th object of page `p`, behind a header of `header` bytes. */
  function ObjectAt(p: nat, header: nat, size: nat, k: nat): nat {
    p * PAGE_SIZE + header + k * size
  }

  function PageObjects(p: nat, header: nat, size: nat, n: nat): set<nat> {
    set k | 0 <= k < n :: ObjectAt(p, header, size, k)
  }

  /** Objects of slot `i` have `i + 1` times the smallest size. */
  function SlotSize(delta: nat, slot: nat): nat {
    delta * (slot + 1)
  }

  /** `n` objects fit behind the header, and no more. */
  predicate Fills(header: nat, size: nat, n: nat) {
    0 < n && header + n * size <= PAGE_SIZE < header + (n + 1) * size
  }

  /** Page `p` consists of the objects that fit, and all of them are accounted for. */
  ghost predicate PageLaid(st: State, delta: nat, header: nat, p: nat)
    requires p in st.pages
  {
    var n, size := st.pages[p].maxFree, SlotSize(delta, st.pages[p].slot);
    Fills(header, size, n) && forall o :: PageOf(o) == p ==> (o in st.location <==> o in PageObjects(p, header, size, n))
  }

  ghost predicate Laid(st: State, delta: nat, header: nat) {
    forall p :: p in st.pages ==> PageLaid(st, delta, header, p)
  }

  lemma {:induction false} LaidKept(st: State, st': State, delta: nat, header: nat)
    requires Laid(st, delta, header) && SameObjects(st, st')
    ensures Laid(st', delta, header)
  {
    forall p | p in st'.pages ensures PageLaid(st', delta, header, p) {
      assert p in st.pages && PageLaid(st, delta, header, p) && SameCut(st.pages[p], st'.pages[p]);
    }
  }

  /** Products with consecutive indices. */
  lemma {:induction false} MulStep(j: nat, k: nat, size: nat)
    requires j < k
    ensures j * size + size <= k * size
  {
    assert (j + 1) * size == j * size + size;
    var d := k - (j + 1);
    assert k * size == (j + 1) * size + d * size;
  }

  lemma {:induction false} ObjectInPage(p: nat, header: nat, size: nat, n: nat, k: nat)
    requires header + n * size <= PAGE_SIZE && k < n && 0 < size
    ensures PageOf(ObjectAt(p, header, size, k)) == p
    ensures p * PAGE_SIZE + header <= ObjectAt(p, header, size, k)
    ensures ObjectAt(p, header, size, k) + size <= (p + 1) * PAGE_SIZE
  {
    MulStep(k, n, size);
    var r := header + k * size;
    assert 0 <= r < PAGE_SIZE;
    assert (p * PAGE_SIZE + r) / PAGE_SIZE == p;
  }

  lemma {:induction false} ObjectIndex(p: nat, header: nat, size: nat, n: nat, o: nat) returns (k: nat)
    requires o in PageObjects(p, header, size, n)
    ensures k < n && o == ObjectAt(p, header, size, k)
  {
    k :| 0 <= k < n && o == ObjectAt(p, header, size, k);
  }

  function SizeOf(st: State, delta: nat, o: nat): nat
    requires PageOf(o) in st.pages
  {
    SlotSize(delta, st.pages[PageOf(o)].slot)
  }

  /** Every tracked object is one of the objects of its page. */
  lemma {:induction false} ObjectOfPage(st: State, numSlots: nat, delta: nat, header: nat, o: nat) returns (k: nat)
    requires Inv(st, numSlots) && Laid(st, delta, header) && o in st.location && 0 < delta
    ensures PageOf(o) in st.pages && k < st.pages[PageOf(o)].maxFree
    ensures o == ObjectAt(PageOf(o), header, SizeOf(st, delta, o), k)
    ensures PageOf(o) * PAGE_SIZE + header <= o && o + SizeOf(st, delta, o) <= (PageOf(o) + 1) * PAGE_SIZE
  {
    hide Inv, Fills;
    HeldHome(st, numSlots, o);
    var p := PageOf(o);
    assert PageLaid(st, delta, header, p);
    var n, size := st.pages[p].maxFree, SlotSize(delta, st.pages[p].slot);
    k := ObjectIndex(p, header, size, n, o);
    FillsFits(header, size, n);
    SizePositive(delta, st.pages[p].slot);
    ObjectInPage(p, header, size, n, k);
  }

  lemma {:induction false} FillsFits(header: nat, size: nat, n: nat)
    requires Fills(header, size, n)
    ensures header + n * size <= PAGE_SIZE
  {
  }

  lemma {:induction false} SizePositive(delta: nat, slot: nat)
    requires 0 < delta
    ensures 0 < SlotSize(delta, slot)
  {
    assert delta * (slot + 1) == delta * slot + delta;
  }

  /** `a` ends before `b` starts, or the other way round. */
  predicate Disjoint(a: nat, aSize: nat, b: nat, bSize: nat) {
    a + aSize <= b || b + bSize <= a
  }

  /** Different objects do not overlap. */
  lemma {:induction false} ObjectsDisjoint(st: State, numSlots: nat, delta: nat, header: nat, a: nat, b: nat)
    requires Inv(st, numSlots) && Laid(st, delta, header) && 0 < delta && a in st.location && b in st.location && a != b
    ensures PageOf(a) in st.pages && PageOf(b) in st.pages && Disjoint(a, SizeOf(st, delta, a), b, SizeOf(st, delta, b))
  {
    hide Inv, Laid;
    var i := ObjectOfPage(st, numSlots, delta, header, a);
    var j := ObjectOfPage(st, numSlots, delta, header, b);
    if PageOf(a) == PageOf(b) {
      if i < j { MulStep(i, j, SizeOf(st, delta, a)); } else { MulStep(j, i, SizeOf(st, delta, a)); }
    }
  }

  /** Every object cut out of a page is in exactly one place. */
  lemma {:induction false} OnePlace(st: State, numSlots: nat, delta: nat, header: nat, p: nat, k: nat, pl: Place)
    requires Inv(st, numSlots) && Laid(st, delta, header) && 0 < delta && p in st.pages && k < st.pages[p].maxFree
    ensures var o := ObjectAt(p, header, SlotSize(delta, st.pages[p].slot), k);
      && o in st.location && (st.location[o] == Held || o in At(st.lists, st.location[o]))
      && (o in At(st.lists, pl) <==> st.location[o] == pl && pl != Held)
  {
    var n, size := st.pages[p].maxFree, SlotSize(delta, st.pages[p].slot);
    var o := ObjectAt(p, header, size, k);
    assert PageLaid(st, delta, header, p);
    SizePositive(delta, st.pages[p].slot);
    ObjectInPage(p, header, size, n, k);
    assert o in PageObjects(p, header, size, n);
    ListedPlace(st, numSlots, o, pl);
  }

  lemma {:induction false} ListedPlace(st: State, numSlots: nat, o: nat, pl: Place)
    requires Inv(st, numSlots) && o in st.location
    ensures st.location[o] == Held || o in At(st.lists, st.location[o])
    ensures o in At(st.lists, pl) <==> st.location[o] == pl && pl != Held
  {
    assert ListOk(st.next, st.lists, st.location, pl);
  }

  // ---------------------------------------------------------------- counting free objects

  lemma {:induction false} PageObjectsSize(p: nat, header: nat, size: nat, n: nat)
    ensures |PageObjects(p, header, size, n)| <= n
  {
    if n == 0 {
      assert PageObjects(p, header, size, n) == {};
    } else {
      PageObjectsSize(p, header, size, n - 1);
      assert PageObjects(p, header, size, n) == PageObjects(p, header, size, n - 1) + {ObjectAt(p, header, size, n - 1)};
    }
  }

  lemma {:induction false} NoDupSize(s: seq<nat>, t: set<nat>)
    requires NoDup(s) && forall o :: o in s ==> o in t
    ensures |s| <= |t|
  {
    if s != [] {
      var r, o := s[1..], s[0];
      forall a | a in r ensures a in t - {o} {
        var i :| 0 <= i < |r| && r[i] == a;
        assert s[i + 1] == a;
      }
      NoDupSize(r, t - {o});
      assert o in t;
    }
  }

  /** A page never has more free objects than it was cut into. */
  lemma {:induction false} FreeBound(st: State, numSlots: nat, delta: nat, header: nat, p: nat)
    requires Inv(st, numSlots) && Laid(st, delta, header) && p in st.pages
    ensures st.pages[p].numFree <= st.pages[p].maxFree
  {
    var n, size, free := st.pages[p].maxFree, SlotSize(delta, st.pages[p].slot), At(st.lists, Free(p));
    PageFacts(st, numSlots, p);
    HomeOfListed(st, Free(p));
    assert PageLaid(st, delta, header, p);
    assert ListOk(st.next, st.lists, st.location, Free(p));
    hide Inv, Laid, PageObjects;
    forall o | o in free ensures o in PageObjects(p, header, size, n) { assert PageOf(o) == p; }
    NoDupSize(free, PageObjects(p, header, size, n));
    PageObjectsSize(p, header, size, n);
  }

  // ---------------------------------------------------------------- new pages

  /** `s` lists the first `|s|` objects of page `p`, the last one first. */
  ghost predicate Cut(s: seq<nat>, p: nat, header: nat, size: nat) {
    header + |s| * size <= PAGE_SIZE && forall i :: 0 <= i < |s| ==> s[i] == ObjectAt(p, header, size, |s| - 1 - i)
  }

  lemma {:induction false} CutFirst(p: nat, header: nat, size: nat)
    requires header + size <= PAGE_SIZE
    ensures Cut([p * PAGE_SIZE + header], p, header, size)
  {
    assert ObjectAt(p, header, size, 0) == p * PAGE_SIZE + header;
    assert 1 * size == size;
  }

  /** The next object, if it fits. */
  lemma {:induction false} CutNext(s: seq<nat>, p: nat, header: nat, size: nat)
    requires Cut(s, p, header, size) && s != [] && 0 < size
    ensures s[0] + size == ObjectAt(p, header, size, |s|) && s[0] + size !in s
    ensures s[0] + size + size <= (p + 1) * PAGE_SIZE <==> header + (|s| + 1) * size <= PAGE_SIZE
    ensures s[0] + size + size <= (p + 1) * PAGE_SIZE ==> Cut([s[0] + size] + s, p, header, size) && PageOf(s[0] + size) == p
  {
    var n := |s|;
    assert s[0] == ObjectAt(p, header, size, n - 1);
    assert (n - 1) * size + size == n * size && n * size + size == (n + 1) * size;
    forall i | 0 <= i < n ensures s[i] < s[0] + size { MulStep(n - 1 - i, n, size); }
    if s[0] + size + size <= (p + 1) * PAGE_SIZE { ObjectInPage(p, header, size, n + 1, n); }
  }

  /** When the next object does not fit the page is full. */
  lemma {:induction false} CutFits(s: seq<nat>, p: nat, header: nat, size: nat)
    requires Cut(s, p, header, size) && s != [] && header + (|s| + 1) * size > PAGE_SIZE
    ensures Fills(header, size, |s|)
  {
  }

  lemma {:induction false} CutPlaces(s: seq<nat>, p: nat, header: nat, size: nat)
    requires Cut(s, p, header, size) && 0 < size
    ensures NoDup(s) && forall o :: o in s <==> o in PageObjects(p, header, size, |s|)
    ensures forall o :: o in s ==> PageOf(o) == p
  {
    var n := |s|;
    forall i, j | 0 <= i < j < n ensures s[i] != s[j] { MulStep(n - 1 - j, n - 1 - i, size); }
    forall o | o in s ensures o in PageObjects(p, header, size, n) && PageOf(o) == p {
      var i :| 0 <= i < n && s[i] == o;
      ObjectInPage(p, header, size, n, n - 1 - i);
    }
    forall o | o in PageObjects(p, header, size, n) ensures o in s {
      var k := ObjectIndex(p, header, size, n, o);
      assert s[n - 1 - k] == o;
    }
  }

  /** A new page that is cut up completely. */
  lemma {:induction false} LaidWithPage(st: State, st': State, delta: nat, header: nat, h: nat, i: nat, p: nat, s: seq<nat>)
    requires Laid(st, delta, header) && Homes(st) && p !in st.pages && 0 < delta
    requires WithPage.requires(st, h, i, p, st'.next, s) && st' == WithPage(st, h, i, p, st'.next, s)
    requires Cut(s, p, header, SlotSize(delta, i)) && Fills(header, SlotSize(delta, i), |s|)
    ensures Laid(st', delta, header)
  {
    SizePositive(delta, i);
    CutPlaces(s, p, header, SlotSize(delta, i));
    WithPageCut(st, st', h, i, p, s);
    forall o | o in st.location ensures PageOf(o) != p { assert HomeOk(st, o, st.location[o]); }
    forall q | q in st'.pages ensures PageLaid(st', delta, header, q) {
      if q != p {
        assert PageLaid(st, delta, header, q);
      }
    }
  }

  /** A new page `p` of slot `i`, cut up completely, whose objects are all free; the rest stays. */
  ghost predicate NewPage(st: State, st': State, delta: nat, header: nat, h: nat, i: nat, p: nat) {
    && p !in st.pages && p in st'.pages && st'.pages[p].slot == i && st'.pages[p].heap == h
    && PageLaid(st', delta, header, p) && Unmoved(st, st')
    && forall o :: o in st'.location && PageOf(o) == p ==> st'.location[o] == Free(p)
  }

  lemma {:induction false} WithPagePlaces(st: State, st': State, numSlots: nat, h: nat, i: nat, p: nat, s: seq<nat>)
    requires Inv(st, numSlots) && p !in st.pages && forall o :: o in s ==> PageOf(o) == p
    requires WithPage.requires(st, h, i, p, st'.next, s) && st' == WithPage(st, h, i, p, st'.next, s)
    ensures Unmoved(st, st') && p in st'.pages && st'.pages[p].heap == h
    ensures forall o :: o in st'.location && PageOf(o) == p ==> st'.location[o] == Free(p)
  {
    hide Inv, WithPage;
    AllHomes(st, numSlots);
    WithPageLocation(st, st', h, i, p, s);
    AddedPlaces(st.location, s, p);
  }

  lemma {:induction false} AddedPlaces(location: map<nat, Place>, s: seq<nat>, p: nat)
    requires (forall o :: o in s ==> PageOf(o) == p) && forall o :: o in location ==> PageOf(o) != p
    ensures var r := location + AllAt(s, Free(p));
      && (forall o :: o in location ==> o in r && r[o] == location[o])
      && forall o :: o in r && PageOf(o) == p ==> r[o] == Free(p)
  {
  }

  lemma {:induction false} WithPageLocation(st: State, st': State, h: nat, i: nat, p: nat, s: seq<nat>)
    requires WithPage.requires(st, h, i, p, st'.next, s) && st' == WithPage(st, h, i, p, st'.next, s)
    ensures st'.location == st.location + AllAt(s, Free(p))
    ensures p in st'.pages && st'.pages[p].heap == h
  {
  }

  lemma {:induction false} WithPageNew(st: State, st': State, numSlots: nat, delta: nat, header: nat, h: nat, i: nat, p: nat, s: seq<nat>)
    requires Inv(st, numSlots) && Laid(st, delta, header) && p !in st.pages && 0 < delta
    requires WithPage.requires(st, h, i, p, st'.next, s) && st' == WithPage(st, h, i, p, st'.next, s)
    requires Cut(s, p, header, SlotSize(delta, i)) && Fills(header, SlotSize(delta, i), |s|)
    ensures Laid(st', delta, header) && NewPage(st, st', delta, header, h, i, p)
  {
    SizePositive(delta, i);
    CutPlaces(s, p, header, SlotSize(delta, i));
    assert Homes(st);
    hide Inv, Cut, Fills, WithPage, PageLaid, Unmoved;
    LaidWithPage(st, st', delta, header, h, i, p, s);
    WithPageCut(st, st', h, i, p, s);
    WithPagePlaces(st, st', numSlots, h, i, p, s);
  }

  lemma {:induction false} NewPageUnmoved(st: State, st': State, delta: nat, header: nat, h: nat, i: nat, p: nat)
    requires NewPage(st, st', delta, header, h, i, p)
    ensures Unmoved(st, st') && p !in st.pages
  {
  }

  lemma {:induction false} WithPageCut(st: State, st': State, h: nat, i: nat, p: nat, s: seq<nat>)
    requires WithPage.requires(st, h, i, p, st'.next, s) && st' == WithPage(st, h, i, p, st'.next, s)
    ensures p in st'.pages && st'.pages[p].slot == i && st'.pages[p].maxFree == |s|
    ensures forall q :: q in st'.pages && q != p ==> q in st.pages && SameCut(st.pages[q], st'.pages[q])
    ensures forall o :: o in st'.location <==> o in st.location || o in s
  {
  }

  // ---------------------------------------------------------------- where objects go

  /** On its way out of heap `h`. */
  predicate Outgoing(pl: Place, h: nat) {
    pl == ToExport(h) || pl == Grouping(h) || (pl.Exporting? && pl.heap == h)
  }

  /** On its way into heap `h`. */
  predicate Incoming(pl: Place, h: nat) {
    pl == ToImport(h) || pl == Importing(h)
  }

  /** While `h` exports, outgoing objects stay so or reach the import list of their owner. */
  ghost predicate SentAt(st: State, st': State, h: nat, o: nat)
    requires o in st.location
  {
    && PageOf(o) in st.pages && o in st'.location
    && if Outgoing(st.location[o], h) then
         Owner(st, o) != h && (Outgoing(st'.location[o], h) || st'.location[o] == ToImport(Owner(st, o)))
       else st'.location[o] == st.location[o]
  }

  ghost predicate Sent(st: State, st': State, h: nat) {
    forall o :: o in st.location ==> SentAt(st, st', h, o)
  }

  /** Every outgoing object has reached the import list of its owner; all others stay. */
  ghost predicate Delivered(st: State, st': State, h: nat) {
    forall o :: o in st.location ==> DeliveredAt(st, st', h, o)
  }

  ghost predicate DeliveredAt(st: State, st': State, h: nat, o: nat)
    requires o in st.location
  {
    && PageOf(o) in st.pages && o in st'.location
    && st'.location[o] == if Outgoing(st.location[o], h) then ToImport(Owner(st, o)) else st.location[o]
  }

  /** While `h` imports, incoming objects stay so or return to their page. */
  ghost predicate ReceivedAt(st: State, st': State, h: nat, o: nat)
    requires o in st.location
  {
    && o in st'.location
    && if Incoming(st.location[o], h) then Incoming(st'.location[o], h) || st'.location[o] == Free(PageOf(o))
       else st'.location[o] == st.location[o]
  }

  ghost predicate Received(st: State, st': State, h: nat) {
    forall o :: o in st.location ==> ReceivedAt(st, st', h, o)
  }

  /** Every incoming object has returned to its page; all others stay. */
  ghost predicate Returned(st: State, st': State, h: nat) {
    forall o :: o in st.location ==> ReturnedAt(st, st', h, o)
  }

  ghost predicate ReturnedAt(st: State, st': State, h: nat, o: nat)
    requires o in st.location
  {
    o in st'.location && st'.location[o] == if Incoming(st.location[o], h) then Free(PageOf(o)) else st.location[o]
  }

  /** The object `o` is freed by another heap and everything outgoing is delivered at once. */
  ghost predicate DeliveredWith(st: State, st': State, h: nat, o: nat) {
    forall a :: a in st.location ==> PageOf(a) in st.pages && a in st'.location && DeliveredWithAt(st, st', h, o, a)
  }

  ghost predicate DeliveredWithAt(st: State, st': State, h: nat, o: nat, a: nat)
    requires a in st.location && PageOf(a) in st.pages && a in st'.location
  {
    st'.location[a] == if a == o || Outgoing(st.location[a], h) then ToImport(Owner(st, a)) else st.location[a]
  }

  /** Everything outgoing is delivered and everything incoming is back; the rest stays. */
  ghost predicate Flushed(st: State, st': State, h: nat) {
    forall o :: o in st.location ==> PageOf(o) in st.pages && o in st'.location && FlushedAt(st, st', h, o)
  }

  ghost predicate FlushedAt(st: State, st': State, h: nat, o: nat)
    requires o in st.location && PageOf(o) in st.pages && o in st'.location
  {
    st'.location[o] ==
      if Outgoing(st.location[o], h) then ToImport(Owner(st, o))
      else if Incoming(st.location[o], h) then Free(PageOf(o))
      else st.location[o]
  }

  /** Of the objects there were only `r` moves, but for incoming ones that return to their pages. */
  ghost predicate TakenOne(st: State, st': State, h: nat, r: nat) {
    forall o :: o in st.location && o != r ==> ReceivedAt(st, st', h, o)
  }

  lemma {:induction false} TakenAfter(a: State, b: State, c: State, h: nat, r: nat)
    requires Received(a, b, h) && c.location == b.location[r := Held]
    ensures TakenOne(a, c, h, r)
  {
    forall o | o in a.location && o != r ensures ReceivedAt(a, c, h, o) { assert ReceivedAt(a, b, h, o); }
  }

  /** An object taken from the free list of its page was there before, or came in, or is new. */
  lemma {:induction false} TakenFrom(a: State, b: State, h: nat, r: nat)
    requires Received(a, b, h) && r in b.location && b.location[r] == Free(PageOf(r))
    ensures r in a.location ==> a.location[r] == Free(PageOf(r)) || Incoming(a.location[r], h)
  {
    if r in a.location { assert ReceivedAt(a, b, h, r); }
  }

  lemma {:induction false} DeliveredAfter(a: State, b: State, c: State, h: nat, o: nat)
    requires o in a.location && b.location == a.location[o := ToExport(h)] && Delivered(b, c, h) && OthersKept(a, b, h)
    requires PageOf(o) in a.pages && forall q :: q in a.location ==> PageOf(q) in a.pages
    ensures DeliveredWith(a, c, h, o)
  {
    forall q | q in a.location ensures q in c.location && DeliveredWithAt(a, c, h, o, q) { assert DeliveredAt(b, c, h, q); }
  }

  lemma {:induction false} FlushedAfter(a: State, b: State, c: State, numSlots: nat, h: nat)
    requires Inv(a, numSlots) && Delivered(a, b, h) && Returned(b, c, h)
    ensures Flushed(a, c, h)
  {
    hide Inv;
    forall o | o in a.location ensures PageOf(o) in a.pages && o in c.location && FlushedAt(a, c, h, o) {
      OutgoingHome(a, numSlots, h, o);
      assert DeliveredAt(a, b, h, o) && ReturnedAt(b, c, h, o);
    }
  }

  lemma {:induction false} UnmovedTrans(a: State, b: State, c: State)
    requires Unmoved(a, b) && Unmoved(b, c)
    ensures Unmoved(a, c)
  {
  }

  lemma {:induction false} AllHomes(st: State, numSlots: nat)
    requires Inv(st, numSlots)
    ensures forall o :: o in st.location ==> PageOf(o) in st.pages
  {
    hide Inv;
    forall o | o in st.location ensures PageOf(o) in st.pages { HeldHome(st, numSlots, o); }
  }

  ghost predicate Unmoved(st: State, st': State) {
    forall o :: o in st.location ==> o in st'.location && st'.location[o] == st.location[o]
  }

  lemma {:induction false} SentTrans(a: State, b: State, c: State, h: nat)
    requires Sent(a, b, h) && Sent(b, c, h) && OthersKept(a, b, h)
    ensures Sent(a, c, h)
  {
    forall o | o in a.location ensures SentAt(a, c, h, o) {
      assert SentAt(a, b, h, o) && SentAt(b, c, h, o);
      assert Owner(b, o) == Owner(a, o);
    }
  }

  lemma {:induction false} ReceivedTrans(a: State, b: State, c: State, h: nat)
    requires Received(a, b, h) && Received(b, c, h)
    ensures Received(a, c, h)
  {
    forall o | o in a.location ensures ReceivedAt(a, c, h, o) {
      assert ReceivedAt(a, b, h, o) && ReceivedAt(b, c, h, o);
    }
  }

  /** Outgoing objects belong to other heaps. */
  lemma {:induction false} OutgoingHome(st: State, numSlots: nat, h: nat, o: nat)
    requires Inv(st, numSlots) && o in st.location
    ensures PageOf(o) in st.pages && (Outgoing(st.location[o], h) ==> Owner(st, o) != h)
    ensures forall t :: st.location[o] == Exporting(h, t) ==> t == Owner(st, o)
  {
    assert HomeOk(st, o, st.location[o]);
  }

  lemma {:induction false} GroupBeginSent(st: State, numSlots: nat, h: nat)
    requires Inv(st, numSlots) && h in st.heaps
    ensures Sent(st, GroupBegin(st, h), h)
  {
    hide Inv;
    forall o | o in st.location ensures SentAt(st, GroupBegin(st, h), h, o) {
      OutgoingHome(st, numSlots, h, o);
      ListedPlace(st, numSlots, o, ToExport(h));
    }
  }

  lemma {:induction false} GroupStepSent(st: State, numSlots: nat, h: nat, t: nat)
    requires Inv(st, numSlots) && GroupStep.requires(st, h, t)
    ensures Sent(st, GroupStep(st, h, t), h)
  {
    hide Inv;
    forall o | o in st.location ensures SentAt(st, GroupStep(st, h, t), h, o) {
      OutgoingHome(st, numSlots, h, o);
      ListedPlace(st, numSlots, o, Grouping(h));
    }
  }

  lemma {:induction false} PublishSent(st: State, numSlots: nat, h: nat, t: nat)
    requires Inv(st, numSlots) && Publish.requires(st, h, t)
    ensures Sent(st, Publish(st, h, t), h)
  {
    hide Inv;
    forall o | o in st.location ensures SentAt(st, Publish(st, h, t), h, o) {
      OutgoingHome(st, numSlots, h, o);
      ListedPlace(st, numSlots, o, Exporting(h, t));
    }
  }

  /** When the lists of `h` are empty everything has arrived. */
  lemma {:induction false} SentAll(st: State, st': State, numSlots: nat, h: nat)
    requires Sent(st, st', h) && Inv(st', numSlots) && h in st'.heaps
    requires st'.heaps[h].exportList == 0 && st'.heaps[h].grouping == 0 && st'.heaps[h].exporting == map[]
    ensures Delivered(st, st', h)
  {
    hide Inv;
    forall o | o in st.location ensures DeliveredAt(st, st', h, o) {
      assert SentAt(st, st', h, o);
      NothingOutgoing(st', numSlots, h, o);
    }
  }

  lemma {:induction false} NoEntry(st: State, numSlots: nat, h: nat, t: nat)
    requires Inv(st, numSlots) && h in st.heaps && t !in st.heaps[h].exporting
    ensures At(st.lists, Exporting(h, t)) == []
  {
    hide Inv;
    HeapFacts(st, numSlots, h);
    assert EntryOk(st, h, t);
  }

  lemma {:induction false} NothingOutgoing(st: State, numSlots: nat, h: nat, o: nat)
    requires Inv(st, numSlots) && h in st.heaps && o in st.location
    requires st.heaps[h].exportList == 0 && st.heaps[h].grouping == 0 && st.heaps[h].exporting == map[]
    ensures !Outgoing(st.location[o], h)
  {
    hide Inv;
    HeapFacts(st, numSlots, h);
    HeadNull(st, numSlots, ToExport(h));
    HeadNull(st, numSlots, Grouping(h));
    NoEntry(st, numSlots, h, if st.location[o].Exporting? then st.location[o].target else 0);
    ListedPlace(st, numSlots, o, st.location[o]);
  }

  lemma {:induction false} GrabReceived(st: State, numSlots: nat, h: nat)
    requires Inv(st, numSlots) && h in st.heaps
    ensures Received(st, Grab(st, h), h)
  {
    hide Inv;
    forall o | o in st.location ensures ReceivedAt(st, Grab(st, h), h, o) { ListedPlace(st, numSlots, o, ToImport(h)); }
  }

  lemma {:induction false} OneReceived(st: State, st': State, h: nat, o: nat)
    requires o in st.location && Incoming(st.location[o], h) && st'.location == st.location[o := Held][o := Free(PageOf(o))]
    ensures Received(st, st', h)
  {
    forall a | a in st.location ensures ReceivedAt(st, st', h, a) { }
  }

  lemma {:induction false} ReceivedAll(st: State, st': State, numSlots: nat, h: nat)
    requires Received(st, st', h) && Inv(st', numSlots) && h in st'.heaps
    requires st'.heaps[h].importing == 0 && At(st'.lists, ToImport(h)) == []
    ensures Returned(st, st', h)
  {
    hide Inv;
    forall o | o in st.location ensures ReturnedAt(st, st', h, o) {
      assert ReceivedAt(st, st', h, o);
      NothingIncoming(st', numSlots, h, o);
    }
  }

  lemma {:induction false} NothingIncoming(st: State, numSlots: nat, h: nat, o: nat)
    requires Inv(st, numSlots) && h in st.heaps && o in st.location
    requires st.heaps[h].importing == 0 && At(st.lists, ToImport(h)) == []
    ensures !Incoming(st.location[o], h)
  {
    hide Inv;
    HeapFacts(st, numSlots, h);
    HeadNull(st, numSlots, Importing(h));
    ListedPlace(st, numSlots, o, st.location[o]);
  }

  lemma {:induction false} ReturnedReceived(st: State, st': State, h: nat)
    requires Returned(st, st', h)
    ensures Received(st, st', h)
  {
    forall o | o in st.location ensures ReceivedAt(st, st', h, o) { assert ReturnedAt(st, st', h, o); }
  }

  lemma {:induction false} StillReceived(st: State, st': State, h: nat)
    requires Unmoved(st, st')
    ensures Received(st, st', h)
  {
    forall o | o in st.location ensures ReceivedAt(st, st', h, o) { }
  }

  // ---------------------------------------------------------------- where an allocation is served

  /** Some incoming object belongs to page `p`. */
  ghost predicate Awaited(st: State, h: nat, p: nat) {
    exists o :: o in st.location && AwaitedOn(st, h, p, o)
  }

  ghost predicate AwaitedOn(st: State, h: nat, p: nat, o: nat)
    requires o in st.location
  {
    Incoming(st.location[o], h) && PageOf(o) == p
  }

  /** The page that serves slot `i` when its current page is used up: one kept for reuse, else the
      current page once everything incoming has returned, and only else a new one. */
  ghost predicate ColdPage(st: State, st': State, h: nat, i: nat, c: nat)
    requires h in st.heaps && i < |st.heaps[h].currPage| && i < |st.heaps[h].pageFreeList|
  {
    var p, q := st.heaps[h].currPage[i], st.heaps[h].pageFreeList[i];
    if q != 0 then c == q && st'.location == st.location
    else Returned(st, st', h) && (if Awaited(st, h, p) then c == p else c !in st.pages)
  }

  /** The object that serves slot `i`: the first free one of the current page if there is one. */
  ghost predicate Serves(st: State, st': State, h: nat, i: nat, r: nat)
    requires h in st.heaps && i < |st.heaps[h].currPage| && i < |st.heaps[h].pageFreeList|
    requires st.heaps[h].currPage[i] in st.pages
  {
    var p, q := st.heaps[h].currPage[i], st.heaps[h].pageFreeList[i];
    if st.pages[p].freeList != 0 then r == st.pages[p].freeList && st'.location == st.location[r := Held]
    else if q != 0 then PageOf(r) == q && st'.location == st.location[r := Held]
    else
      && (if Awaited(st, h, p) then PageOf(r) == p else PageOf(r) !in st.pages)
      && forall o :: o in st.location && o != r ==> ReturnedAt(st, st', h, o)
  }

  lemma {:induction false} FreeListFilled(st: State, numSlots: nat, p: nat)
    requires Inv(st, numSlots) && p in st.pages
    ensures st.pages[p].freeList != 0 <==> exists o :: o in st.location && st.location[o] == Free(p)
  {
    assert PageOk(st, numSlots, p);
    var s := At(st.lists, Free(p));
    assert ListOk(st.next, st.lists, st.location, Free(p));
    if s != [] { assert s[0] in s; }
  }

  /** An empty page gets a free object exactly when one is on its way back to it. */
  lemma {:induction false} RefilledByImport(st: State, st': State, numSlots: nat, h: nat, p: nat)
    requires Inv(st, numSlots) && Inv(st', numSlots) && Returned(st, st', h) && OthersKept(st, st', h)
    requires p in st.pages && p in st'.pages && st.pages[p].freeList == 0
    ensures st'.pages[p].freeList != 0 <==> Awaited(st, h, p)
  {
    hide Inv;
    FreeListFilled(st, numSlots, p);
    FreeListFilled(st', numSlots, p);
    OthersConserved(st, st', h);
    AllHomes(st', numSlots);
    if st'.pages[p].freeList != 0 {
      var o :| o in st'.location && st'.location[o] == Free(p);
      FreeHome(st', numSlots, o, p);
      assert ReturnedAt(st, st', h, o);
      assert AwaitedOn(st, h, p, o);
    }
    if Awaited(st, h, p) {
      var o :| o in st.location && AwaitedOn(st, h, p, o);
      assert ReturnedAt(st, st', h, o);
    }
  }

  lemma {:induction false} FreeHome(st: State, numSlots: nat, o: nat, p: nat)
    requires Inv(st, numSlots) && o in st.location && st.location[o] == Free(p)
    ensures PageOf(o) == p
  {
    assert HomeOk(st, o, st.location[o]);
  }

  lemma {:induction false} UnmovedReturned(a: State, b: State, c: State, h: nat)
    requires Returned(a, b, h) && Unmoved(b, c)
    ensures Returned(a, c, h)
  {
    forall o | o in a.location ensures ReturnedAt(a, c, h, o) { assert ReturnedAt(a, b, h, o); }
  }

  lemma {:induction false} ServedCold(st: State, mid: State, st': State, h: nat, i: nat, r: nat)
    requires h in st.heaps && i < |st.heaps[h].currPage| && i < |st.heaps[h].pageFreeList| && st.heaps[h].currPage[i] in st.pages
    requires st.pages[st.heaps[h].currPage[i]].freeList == 0
    requires ColdPage(st, mid, h, i, PageOf(r)) && st'.location == mid.location[r := Held]
    ensures Serves(st, st', h, i, r)
  {
    if st.heaps[h].pageFreeList[i] == 0 {
      forall o | o in st.location && o != r ensures ReturnedAt(st, st', h, o) { assert ReturnedAt(st, mid, h, o); }
    }
  }

  lemma {:induction false} UnmovedReceived(a: State, b: State, c: State, h: nat)
    requires Received(a, b, h) && Unmoved(b, c)
    ensures Received(a, c, h)
  {
    forall o | o in a.location ensures ReceivedAt(a, c, h, o) { assert ReceivedAt(a, b, h, o); }
  }
}
