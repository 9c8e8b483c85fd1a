/** The two page lists of each heap and slot: current pages, whose back links matter because pages
    leave from the middle, and pages with many free objects, used first in last out. */
module PageLists {
  import opened LinkedLists

  datatype Page = Page(heap: nat, next: nat, prev: nat, freeList: nat, maxFree: nat, numFree: nat, slot: nat, inFreeList: bool)

  type Pages = map<nat, Page>

  /** Page numbers by heap and slot. */
  type Runs = map<(nat, nat), seq<nat>>

  ghost predicate PageLink(pages: Pages, s: seq<nat>, i: nat, back: bool)
    requires i < |s|
  {
    && s[i] != 0 && s[i] in pages && pages[s[i]].next == Head(s[i + 1..])
    && (back && i > 0 ==> pages[s[i]].prev == s[i - 1])
  }

  ghost predicate Run(pages: Pages, s: seq<nat>, back: bool) {
    forall i :: 0 <= i < |s| ==> PageLink(pages, s, i, back)
  }

  ghost predicate RunOk(pages: Pages, s: seq<nat>, key: (nat, nat), inFreeList: bool) {
    && Run(pages, s, !inFreeList) && NoDup(s)
    && forall p :: p in s ==> p in pages && (pages[p].heap, pages[p].slot) == key && pages[p].inFreeList == inFreeList
  }

  /** Each page is in exactly one list of its heap and slot, as its flag says. */
  ghost predicate PageListed(pages: Pages, current: Runs, available: Runs, p: nat)
    requires p in pages
  {
    var key := (pages[p].heap, pages[p].slot);
    key in current && key in available && p in (if pages[p].inFreeList then available[key] else current[key])
  }

  ghost predicate PagesOk(pages: Pages, current: Runs, available: Runs) {
    && current.Keys == available.Keys && 0 !in pages
    && (forall key :: key in current ==> RunOk(pages, current[key], key, false))
    && (forall key :: key in available ==> RunOk(pages, available[key], key, true))
    && forall p :: p in pages ==> PageListed(pages, current, available, p)
  }

  // ---------------------------------------------------------------- pointer operations

  function SetNext(pages: Pages, p: nat, n: nat): Pages
    requires p in pages
  {
    pages[p := pages[p].(next := n)]
  }

  function SetPrev(pages: Pages, p: nat, n: nat): Pages
    requires p in pages
  {
    pages[p := pages[p].(prev := n)]
  }

  /** `page_list_insert`; the new head is `p`. */
  function Insert(pages: Pages, head: nat, p: nat): (r: Pages)
    requires (head != 0 ==> head in pages) && p in pages
    ensures r.Keys == pages.Keys
  {
    SetNext(if head != 0 then SetPrev(pages, head, p) else pages, p, head)
  }

  /** `page_list_remove` of a page that is not the head. */
  function Remove(pages: Pages, p: nat): (r: Pages)
    requires p in pages && pages[p].prev in pages && (pages[p].next != 0 ==> pages[p].next in pages)
    ensures r.Keys == pages.Keys
  {
    var prev, next := pages[p].prev, pages[p].next;
    if next != 0 then SetPrev(SetNext(pages, prev, next), next, prev) else SetNext(pages, prev, 0)
  }

  /** A page with many free objects leaves its current list for the free list starting at `head`. */
  function MoveToFree(pages: Pages, head: nat, p: nat): (r: Pages)
    requires p in pages && pages[p].prev in pages && (pages[p].next != 0 ==> pages[p].next in pages)
    requires head != 0 ==> head in pages
  {
    Insert(Remove(pages[p := pages[p].(inFreeList := true)], p), head, p)
  }

  /** Moving a page changes the flag of that page only. */
  lemma {:induction false} MoveFlags(pages: Pages, head: nat, p: nat)
    requires p in pages && pages[p].prev in pages && (pages[p].next != 0 ==> pages[p].next in pages)
    requires head != 0 ==> head in pages
    ensures var r := MoveToFree(pages, head, p);
      r.Keys == pages.Keys && forall q :: q in pages ==> r[q].inFreeList == (q == p || pages[q].inFreeList)
  {
  }

  // ---------------------------------------------------------------- single lists

  lemma {:induction false} RunFrame(pages: Pages, pages': Pages, s: seq<nat>, back: bool)
    requires Run(pages, s, back)
    requires forall p :: p in s && p in pages ==> p in pages' && pages'[p].next == pages[p].next && pages'[p].prev == pages[p].prev
    ensures Run(pages', s, back)
  {
    forall i | 0 <= i < |s| ensures PageLink(pages', s, i, back) {
      assert PageLink(pages, s, i, back) && s[i] in s;
    }
  }

  lemma {:induction false} RunCons(pages: Pages, s: seq<nat>, p: nat, back: bool)
    requires Run(pages, s, back) && NoDup(s) && p !in s && p != 0 && p in pages
    ensures (Head(s) != 0 ==> Head(s) in pages)
    ensures Run(Insert(pages, Head(s), p), [p] + s, back) && NoDup([p] + s)
  {
    if s != [] { assert PageLink(pages, s, 0, back); }
    var t, pages' := [p] + s, Insert(pages, Head(s), p);
    forall i | 0 <= i < |t| ensures PageLink(pages', t, i, back) {
      if i == 0 {
        assert t[1..] == s;
      } else {
        assert PageLink(pages, s, i - 1, back) && s[i - 1] in s;
        assert t[i + 1..] == s[i..];
      }
    }
  }

  lemma {:induction false} RunTail(pages: Pages, s: seq<nat>, back: bool)
    requires Run(pages, s, back) && NoDup(s) && s != []
    ensures s[0] in pages && pages[s[0]].next == Head(s[1..]) && Run(pages, s[1..], back) && NoDup(s[1..]) && s[0] !in s[1..]
  {
    assert PageLink(pages, s, 0, back);
    forall i | 0 <= i < |s[1..]| ensures PageLink(pages, s[1..], i, back) {
      assert PageLink(pages, s, i + 1, back);
      assert s[1..][i + 1..] == s[i + 2..];
    }
  }

  lemma {:induction false} RunRemove(pages: Pages, s: seq<nat>, k: nat)
    requires Run(pages, s, true) && NoDup(s) && 0 < k < |s|
    ensures s[k] in pages && pages[s[k]].prev == s[k - 1] && s[k - 1] in pages && pages[s[k]].next == Head(s[k + 1..])
    ensures k + 1 < |s| ==> s[k + 1] in pages
    ensures Run(Remove(pages, s[k]), s[..k] + s[k + 1..], true) && NoDup(s[..k] + s[k + 1..])
  {
    assert PageLink(pages, s, k, true) && PageLink(pages, s, k - 1, true);
    if k + 1 < |s| { assert PageLink(pages, s, k + 1, true); }
    var t, pages' := s[..k] + s[k + 1..], Remove(pages, s[k]);
    forall i | 0 <= i < |t| ensures PageLink(pages', t, i, true) {
      var j := if i < k then i else i + 1;
      assert t[i] == s[j] && PageLink(pages, s, j, true);
      if i + 1 < k {
        assert t[i + 1..][0] == s[i + 1..][0];
      } else if i + 1 == k {
        assert t[i + 1..] == s[k + 1..];
      } else {
        assert t[i + 1..] == s[j + 1..];
      }
    }
  }

  // ---------------------------------------------------------------- all lists together

  lemma {:induction false} RunsFrame(pages: Pages, pages': Pages, s: seq<nat>, key: (nat, nat), inFreeList: bool)
    requires RunOk(pages, s, key, inFreeList)
    requires forall p :: p in s && p in pages ==> p in pages' && pages'[p] == pages[p]
    ensures RunOk(pages', s, key, inFreeList)
  {
    RunFrame(pages, pages', s, !inFreeList);
  }

  /** Free lists and counters do not matter for the page lists. */
  lemma {:induction false} Recount(pages: Pages, current: Runs, available: Runs, p: nat, freeList: nat, numFree: nat)
    requires PagesOk(pages, current, available) && p in pages
    ensures PagesOk(pages[p := pages[p].(freeList := freeList, numFree := numFree)], current, available)
  {
    var pages' := pages[p := pages[p].(freeList := freeList, numFree := numFree)];
    forall key | key in current ensures RunOk(pages', current[key], key, false) && RunOk(pages', available[key], key, true) {
      RunFrame(pages, pages', current[key], true);
      RunFrame(pages, pages', available[key], false);
    }
    forall q | q in pages' ensures PageListed(pages', current, available, q) {
      assert PageListed(pages, current, available, q);
    }
  }

  /** An operation on the two lists of one heap and slot leaves all other lists alone. */
  lemma {:induction false} Rebuild(pages: Pages, current: Runs, available: Runs, pages': Pages, key: (nat, nat), cur: seq<nat>, avail: seq<nat>)
    requires PagesOk(pages, current, available) && key in current && 0 !in pages'
    requires RunOk(pages', cur, key, false) && RunOk(pages', avail, key, true)
    requires forall q :: q in pages && q !in current[key] && q !in available[key] ==> q in pages' && pages'[q] == pages[q]
    requires forall q :: q in pages' ==> q in pages || q in cur || q in avail
    requires forall q :: q in current[key] || q in available[key] ==> q in cur || q in avail
    ensures PagesOk(pages', current[key := cur], available[key := avail])
  {
    var current', available' := current[key := cur], available[key := avail];
    forall k | k in current' ensures RunOk(pages', current'[k], k, false) && RunOk(pages', available'[k], k, true) {
      assert RunOk(pages, current[k], k, false) && RunOk(pages, available[k], k, true);
      if k != key {
        OtherList(pages, current, available, key, current[k], k, false);
        OtherList(pages, current, available, key, available[k], k, true);
        RunsFrame(pages, pages', current[k], k, false);
        RunsFrame(pages, pages', available[k], k, true);
      }
    }
    forall q | q in pages' ensures PageListed(pages', current', available', q) {
      if q in pages { assert PageListed(pages, current, available, q); }
    }
  }

  lemma {:induction false} OtherList(pages: Pages, current: Runs, available: Runs, key: (nat, nat), s: seq<nat>, k: (nat, nat), inFreeList: bool)
    requires PagesOk(pages, current, available) && key in current && k != key && RunOk(pages, s, k, inFreeList)
    ensures forall q :: q in s ==> q in pages && q !in current[key] && q !in available[key]
  {
    assert RunOk(pages, current[key], key, false) && RunOk(pages, available[key], key, true);
  }

  /** Only links change. */
  ghost predicate SameButLinks(pages: Pages, pages': Pages) {
    && pages'.Keys == pages.Keys
    && forall q :: q in pages ==> pages'[q] == pages[q].(next := pages'[q].next, prev := pages'[q].prev)
  }

  /** Inserting writes to the old head and the new one only, and only their links. */
  lemma {:induction false} InsertKeeps(pages: Pages, s: seq<nat>, p: nat)
    requires p in pages && (Head(s) != 0 ==> Head(s) in pages)
    ensures SameButLinks(pages, Insert(pages, Head(s), p))
    ensures forall q :: q in pages && q != p && q !in s ==> Insert(pages, Head(s), p)[q] == pages[q]
  {
    if s != [] { assert s[0] in s; }
  }

  lemma {:induction false} RemoveKeeps(pages: Pages, s: seq<nat>, k: nat)
    requires 0 < k < |s| && s[k] in pages && s[k - 1] in pages && pages[s[k]].prev == s[k - 1]
    requires pages[s[k]].next == Head(s[k + 1..]) && (k + 1 < |s| ==> s[k + 1] in pages)
    ensures SameButLinks(pages, Remove(pages, s[k]))
    ensures forall q :: q in pages && q !in s ==> Remove(pages, s[k])[q] == pages[q]
  {
    assert s[k - 1] in s && (k + 1 < |s| ==> s[k + 1] in s);
  }

  /** A list whose pages keep their heap, slot and flag. */
  lemma {:induction false} RunMembers(pages: Pages, pages': Pages, s: seq<nat>, t: seq<nat>, key: (nat, nat), inFreeList: bool)
    requires forall p :: p in s ==> p in pages && (pages[p].heap, pages[p].slot) == key && pages[p].inFreeList == inFreeList
    requires SameButLinks(pages, pages') && Run(pages', t, !inFreeList) && NoDup(t) && forall p :: p in t ==> p in s
    ensures RunOk(pages', t, key, inFreeList)
  {
  }

  lemma {:induction false} AddPageRun(pages: Pages, s: seq<nat>, p: nat, page: Page, key: (nat, nat))
    requires RunOk(pages, s, key, false) && p !in pages && p != 0 && !page.inFreeList && key == (page.heap, page.slot) && 0 !in pages
    ensures Head(s) != 0 ==> Head(s) in pages
    ensures RunOk(Insert(pages[p := page], Head(s), p), [p] + s, key, false)
    ensures SameButLinks(pages[p := page], Insert(pages[p := page], Head(s), p))
    ensures forall q :: q in pages && q !in s ==> Insert(pages[p := page], Head(s), p)[q] == pages[q]
  {
    var pages1 := pages[p := page];
    RunFrame(pages, pages1, s, true);
    RunCons(pages1, s, p, true);
    InsertKeeps(pages1, s, p);
    hide Insert, Run;
    RunMembers(pages1, Insert(pages1, Head(s), p), [p] + s, [p] + s, key, false);
  }

  /** A new page becomes the head of its current list. */
  lemma {:induction false} AddPage(pages: Pages, current: Runs, available: Runs, p: nat, page: Page)
    requires PagesOk(pages, current, available) && p !in pages && p != 0 && !page.inFreeList
    requires (page.heap, page.slot) in current
    ensures var key := (page.heap, page.slot);
      && (Head(current[key]) != 0 ==> Head(current[key]) in pages)
      && PagesOk(Insert(pages[p := page], Head(current[key]), p), current[key := [p] + current[key]], available)
  {
    hide Insert, PagesOk, Run, NoDup;
    var key := (page.heap, page.slot);
    var s := current[key];
    SlotRuns(pages, current, available, key);
    AddPageRun(pages, s, p, page, key);
    var pages' := Insert(pages[p := page], Head(s), p);
    RunsFrame(pages, pages', available[key], key, true);
    Rebuild(pages, current, available, pages', key, [p] + s, available[key]);
    assert available[key := available[key]] == available;
  }

  lemma {:induction false} SlotRuns(pages: Pages, current: Runs, available: Runs, key: (nat, nat))
    requires PagesOk(pages, current, available) && key in current
    ensures key in available && 0 !in pages && RunOk(pages, current[key], key, false) && RunOk(pages, available[key], key, true)
  {
    hide Run, NoDup;
    assert RunOk(pages, current[key], key, false) && RunOk(pages, available[key], key, true);
  }

  lemma {:induction false} RecycleParts(pages: Pages, s: seq<nat>, a: seq<nat>, k: nat, key: (nat, nat))
    requires RunOk(pages, s, key, false) && RunOk(pages, a, key, true) && 0 < k < |s| && 0 !in pages
    ensures s[k] in pages && pages[s[k]].prev in pages && (pages[s[k]].next != 0 ==> pages[s[k]].next in pages)
    ensures Head(a) != 0 ==> Head(a) in pages
    ensures MoveToFree(pages, Head(a), s[k]).Keys == pages.Keys
    ensures RunOk(MoveToFree(pages, Head(a), s[k]), s[..k] + s[k + 1..], key, false)
    ensures RunOk(MoveToFree(pages, Head(a), s[k]), [s[k]] + a, key, true)
    ensures forall q :: q in pages && q !in s && q !in a ==> MoveToFree(pages, Head(a), s[k])[q] == pages[q]
  {
    var p := s[k];
    RunRemove(pages, s, k);
    var pages1 := pages[p := pages[p].(inFreeList := true)];
    RunFrame(pages, pages1, s, true);
    RunRemove(pages1, s, k);
    RemoveKeeps(pages1, s, k);
    RecycleInsert(pages, pages1, Remove(pages1, p), s, a, k, key);
  }

  lemma {:induction false} RemovedCovers(s: seq<nat>, k: nat, q: nat)
    requires k < |s| && q in s && q != s[k]
    ensures q in s[..k] + s[k + 1..]
  {
    assert s == s[..k] + [s[k]] + s[k + 1..];
  }

  /** A current page other than the head moves to the list of pages with many free objects. */
  lemma {:induction false} Recycle(pages: Pages, current: Runs, available: Runs, key: (nat, nat), k: nat)
    requires PagesOk(pages, current, available) && key in current && 0 < k < |current[key]|
    ensures var s, a, p := current[key], available[key], current[key][k];
      && p in pages && pages[p].prev in pages && (pages[p].next != 0 ==> pages[p].next in pages)
      && (Head(a) != 0 ==> Head(a) in pages)
      && PagesOk(MoveToFree(pages, Head(a), p), current[key := s[..k] + s[k + 1..]], available[key := [p] + a])
  {
    var s, a, p := current[key], available[key], current[key][k];
    assert RunOk(pages, s, key, false) && RunOk(pages, a, key, true);
    RecycleParts(pages, s, a, k, key);
    forall q | q in s && q != p ensures q in s[..k] + s[k + 1..] {
      RemovedCovers(s, k, q);
    }
    Rebuild(pages, current, available, MoveToFree(pages, Head(a), p), key, s[..k] + s[k + 1..], [p] + a);
  }

  lemma {:induction false} RecycleInsert(pages: Pages, pages1: Pages, pages2: Pages, s: seq<nat>, a: seq<nat>, k: nat, key: (nat, nat))
    requires 0 < k < |s| && RunOk(pages, s, key, false) && RunOk(pages, a, key, true) && 0 !in pages
    requires s[k] in pages && pages1 == pages[s[k] := pages[s[k]].(inFreeList := true)] && SameButLinks(pages1, pages2)
    requires forall q :: q in pages && q !in s ==> pages2[q] == pages1[q]
    requires Run(pages2, s[..k] + s[k + 1..], true) && NoDup(s[..k] + s[k + 1..])
    ensures (Head(a) != 0 ==> Head(a) in pages2) && SameButLinks(pages2, Insert(pages2, Head(a), s[k]))
    ensures RunOk(Insert(pages2, Head(a), s[k]), s[..k] + s[k + 1..], key, false)
    ensures RunOk(Insert(pages2, Head(a), s[k]), [s[k]] + a, key, true)
    ensures forall q :: q in pages && q !in s && q !in a ==> Insert(pages2, Head(a), s[k])[q] == pages[q]
  {
    hide Run, Insert;
    var p, cur := s[k], s[..k] + s[k + 1..];
    RunFrame(pages, pages2, a, false);
    RunCons(pages2, a, p, false);
    InsertKeeps(pages2, a, p);
    var pages3 := Insert(pages2, Head(a), p);
    assert p !in cur && forall q :: q in cur ==> q in s;
    RunFrame(pages2, pages3, cur, true);
  }

  /** The first page with many free objects becomes the current page. */
  lemma {:induction false} Reuse(pages: Pages, current: Runs, available: Runs, key: (nat, nat))
    requires PagesOk(pages, current, available) && key in current && available[key] != []
    ensures var s, a, p := current[key], available[key], available[key][0];
      && p in pages && pages[p].next == Head(a[1..]) && (Head(s) != 0 ==> Head(s) in pages)
      && PagesOk(Insert(pages[p := pages[p].(inFreeList := false)], Head(s), p), current[key := [p] + s], available[key := a[1..]])
  {
    var s, a, p := current[key], available[key], available[key][0];
    assert RunOk(pages, s, key, false) && RunOk(pages, a, key, true) && p in a;
    RunTail(pages, a, false);
    var pages1 := pages[p := pages[p].(inFreeList := false)];
    RunFrame(pages, pages1, s, true);
    RunCons(pages1, s, p, true);
    InsertKeeps(pages1, s, p);
    var pages' := Insert(pages1, Head(s), p);
    RunMembers(pages1, pages', [p] + s, [p] + s, key, false);
    assert a == [p] + a[1..];
    RunFrame(pages, pages', a[1..], false);
    Rebuild(pages, current, available, pages', key, [p] + s, a[1..]);
  }

  /** New heaps start with empty lists. */
  lemma {:induction false} AddKey(pages: Pages, current: Runs, available: Runs, key: (nat, nat))
    requires PagesOk(pages, current, available) && key !in current
    ensures PagesOk(pages, current[key := []], available[key := []])
  {
    var current', available' := current[key := []], available[key := []];
    forall k | k in current' ensures RunOk(pages, current'[k], k, false) && RunOk(pages, available'[k], k, true) {
      if k != key { assert RunOk(pages, current[k], k, false) && RunOk(pages, available[k], k, true); }
    }
    forall q | q in pages ensures PageListed(pages, current', available', q) {
      assert PageListed(pages, current, available, q);
    }
  }

  /** Equal but for links and the flag. */
  predicate SameHeader(a: Page, b: Page) {
    a.heap == b.heap && a.slot == b.slot && a.freeList == b.freeList && a.numFree == b.numFree && a.maxFree == b.maxFree
  }

  /** Moving a page changes links, and the flag of that page only. */
  lemma {:induction false} MoveToFreeKeeps(pages: Pages, head: nat, p: nat)
    requires MoveToFree.requires(pages, head, p)
    ensures MoveToFree(pages, head, p).Keys == pages.Keys
    ensures forall q :: q in pages ==> SameHeader(pages[q], MoveToFree(pages, head, p)[q])
    ensures forall q :: q in pages && q != p ==> MoveToFree(pages, head, p)[q].inFreeList == pages[q].inFreeList
  {
    var pages1 := pages[p := pages[p].(inFreeList := true)];
    var pages2 := Remove(pages1, p);
    assert forall q :: q in pages ==> SameHeader(pages[q], pages2[q]) && (q != p ==> pages2[q].inFreeList == pages[q].inFreeList);
  }
}
