/** The object compactor: copies an acyclic object graph into one buffer with maximal sharing,
    driven by a stack of objects still to be written (runtime/compact.cpp, `object_compactor`). */
module Compactor {
  import opened CompactFormat
  import opened CompactHeaders
  import opened CompactSharing

  /** The object table maps source objects to the addresses of equal region objects. */
  ghost predicate TableOk(heap: seq<Shape>, layout: seq<Shape>, base: nat, index: Index, objTable: map<nat, Word>) {
    GraphOk(heap) && GraphOk(layout) && Fits(layout, base) && IndexOk(heap, layout, index) && AddressesOk(layout, base, index, objTable)
  }

  ghost predicate AddressesOk(layout: seq<Shape>, base: nat, index: Index, objTable: map<nat, Word>) {
    && objTable.Keys == index.Keys
    && forall id :: id in index ==> index[id] <= |layout| && objTable[id] == base + 8 * Place(layout, index[id])
  }

  lemma {:induction false} AddressAdded(layout: seq<Shape>, base: nat, index: Index, objTable: map<nat, Word>, o: nat, j: nat, w: Word)
    requires AddressesOk(layout, base, index, objTable) && j <= |layout| && w == base + 8 * Place(layout, j)
    ensures AddressesOk(layout, base, index[o := j], objTable[o := w])
  {
    hide Place;
    assert index[o := j].Keys == index.Keys + {o} && objTable[o := w].Keys == objTable.Keys + {o};
  }

  /** The sharing table knows every object of the region. */
  ghost predicate SharingOk(layout: seq<Shape>, sharing: set<(nat, nat)>) {
    && (forall i :: 0 <= i < |layout| ==> KeyOf(layout, i) in sharing)
    && forall key :: key in sharing ==> exists i :: 0 <= i < |layout| && key == KeyOf(layout, i)
  }

  /** Where object `i` starts and how long it is. */
  function KeyOf(layout: seq<Shape>, i: nat): (nat, nat)
    requires i < |layout|
  {
    (Place(layout, i), Words(layout[i]))
  }

  /** The region with all objects not yet in it takes no more room than the source, and the address
      space has that room. */
  ghost predicate RoomOk(heap: seq<Shape>, layout: seq<Shape>, base: nat, index: Index) {
    && Fits(heap, base)
    && Place(layout, |layout|) + Remaining(heap, index.Keys, |heap|) <= Place(heap, |heap|)
  }

  /** `w` is the word of field `k`, whose object is in the region. */
  ghost predicate Looked(layout: seq<Shape>, base: nat, index: Index, k: Kid, w: Word)
    requires Fits(layout, base)
  {
    KidReady(k, index) && KidOk(MapKid(k, index), |layout|) && w == KidWord(layout, base, MapKid(k, index))
  }

  lemma {:induction false} LookUp(heap: seq<Shape>, layout: seq<Shape>, base: nat, index: Index, objTable: map<nat, Word>, k: Kid)
    requires TableOk(heap, layout, base, index, objTable) && KidOk(k, |heap|)
    ensures k.Boxed? ==> Looked(layout, base, index, k, 2 * k.n + 1) && 2 * k.n + 1 != NULL_OFFSET
    ensures k.Ref? && k.j in objTable ==> Looked(layout, base, index, k, objTable[k.j]) && objTable[k.j] != NULL_OFFSET
  {
    if k.Ref? && k.j in objTable { KidWordInjective(layout, base, MapKid(k, index), MapKid(k, index)); }
  }

  /** All fields from `i` on have been looked up. */
  ghost predicate AllLooked(layout: seq<Shape>, base: nat, index: Index, kids: seq<Kid>, offsets: seq<Word>, i: nat) {
    && Fits(layout, base) && |offsets| == |kids|
    && forall k :: i <= k < |kids| ==> Looked(layout, base, index, kids[k], offsets[k])
  }

  /** Objects that `kids` refer to were pushed on the stack. */
  ghost predicate Pushed(was: seq<nat>, now: seq<nat>, n: nat, kids: seq<Kid>) {
    was <= now && forall i :: |was| <= i < |now| ==> now[i] < n && Ref(now[i]) in kids
  }

  lemma {:induction false} NothingLooked(layout: seq<Shape>, base: nat, index: Index, kids: seq<Kid>, offsets: seq<Word>, todo: seq<nat>, n: nat)
    requires |offsets| == |kids|
    ensures Fits(layout, base) ==> AllLooked(layout, base, index, kids, offsets, |kids|)
    ensures Pushed(todo, todo, n, kids)
  {
  }

  lemma {:induction false} LookedOneMore(layout: seq<Shape>, base: nat, index: Index, kids: seq<Kid>, offsets: seq<Word>, i: nat, c: Word)
    requires AllLooked(layout, base, index, kids, offsets, i + 1) && i < |kids| && Looked(layout, base, index, kids[i], c)
    ensures AllLooked(layout, base, index, kids, offsets[i := c], i)
  {
  }

  lemma {:induction false} NothingPushed(todo: seq<nat>, n: nat, kids: seq<Kid>)
    ensures Pushed(todo, todo, n, kids)
  {
  }

  /** An object with a smaller number that is not in the region is on top of the stack now. */
  ghost predicate TopMissing(was: seq<nat>, now: seq<nat>, id: nat, index: Index) {
    now != was && now != [] && now[|now| - 1] < id && now[|now| - 1] !in index
  }

  lemma {:induction false} PushedMore(was: seq<nat>, now: seq<nat>, kids: seq<Kid>, j: nat, id: nat, n: nat, index: Index)
    requires Pushed(was, now, n, kids) && Ref(j) in kids && j < id < n && j !in index
    ensures Pushed(was, now + [j], n, kids) && TopMissing(was, now + [j], id, index)
  {
  }

  // ---------------------------------------------------------------- what gets stored

  /** `id` is `k` references away from `root`. */
  ghost predicate ReachedIn(heap: seq<Shape>, k: nat, root: nat, id: nat) {
    if k == 0 then id == root else exists m :: 0 <= m < |heap| && ReachedIn(heap, k - 1, root, m) && Ref(id) in Kids(heap[m])
  }

  ghost predicate Reached(heap: seq<Shape>, root: nat, id: nat) {
    exists k: nat :: ReachedIn(heap, k, root, id)
  }

  ghost predicate AllReached(heap: seq<Shape>, root: nat, ids: set<nat>) {
    forall id :: id in ids ==> Reached(heap, root, id)
  }

  ghost function Elements(todo: seq<nat>): set<nat> {
    set i | 0 <= i < |todo| :: todo[i]
  }

  /** Every stored object was stored for some source object. */
  ghost predicate Onto(layout: seq<Shape>, index: Index) {
    forall j :: 0 <= j < |layout| ==> StoredFor(index, j)
  }

  ghost predicate StoredFor(index: Index, j: nat) {
    exists id :: id in index && index[id] == j
  }

  lemma {:induction false} OntoKept(layout: seq<Shape>, index: Index, o: nat, j: nat)
    requires o !in index
    ensures Onto(layout, index) ==> Onto(layout, index[o := j])
  {
    if Onto(layout, index) {
      var index' := index[o := j];
      forall i | 0 <= i < |layout| ensures StoredFor(index', i) {
        assert StoredFor(index, i);
        var id :| id in index && index[id] == i;
        assert id in index' && index'[id] == i;
      }
    }
  }

  lemma {:induction false} OntoMore(layout: seq<Shape>, index: Index, o: nat, x: Shape)
    requires o !in index
    ensures Onto(layout, index) ==> Onto(layout + [x], index[o := |layout|])
  {
    hide StoredFor;
    OntoKept(layout, index, o, |layout|);
    LastStored(index, o, |layout|);
  }

  lemma {:induction false} LastStored(index: Index, o: nat, j: nat)
    ensures StoredFor(index[o := j], j)
  {
    var index' := index[o := j];
    assert o in index' && index'[o] == j;
  }

  lemma {:induction false} NothingYet(heap: seq<Shape>, root: nat)
    ensures Onto([], map[]) && AllReached(heap, root, {}) && AllReached(heap, root, Elements([root]))
  {
    assert ReachedIn(heap, 0, root, root);
  }

  lemma {:induction false} OntoNothing()
    ensures Onto([], map[])
  {
  }

  lemma {:induction false} KidReached(heap: seq<Shape>, root: nat, m: nat, id: nat)
    requires Reached(heap, root, m) && m < |heap| && Ref(id) in Kids(heap[m])
    ensures Reached(heap, root, id)
  {
    var k: nat :| ReachedIn(heap, k, root, m);
    assert ReachedIn(heap, k + 1, root, id);
  }

  /** A step of the worklist stays below the root. */
  lemma {:induction false} StillReached(heap: seq<Shape>, root: nat, was: seq<nat>, now: seq<nat>, known: set<nat>, known': set<nat>)
    requires was != [] && was[|was| - 1] < |heap| && known' <= known + {was[|was| - 1]}
    requires AllReached(heap, root, known) && AllReached(heap, root, Elements(was))
    requires now == was[..|was| - 1] || Pushed(was, now, |heap|, Kids(heap[was[|was| - 1]]))
    ensures AllReached(heap, root, known') && AllReached(heap, root, Elements(now))
  {
    hide Reached;
    var top := was[|was| - 1];
    assert top in Elements(was);
    forall id | id in Elements(now) ensures Reached(heap, root, id) {
      var i :| 0 <= i < |now| && now[i] == id;
      if i < |was| {
        assert was[i] == id && id in Elements(was);
      } else {
        KidReached(heap, root, top, id);
      }
    }
  }

  /** Everything stored has the value of an object below the root. */
  ghost predicate OnlyBelow(heap: seq<Shape>, layout: seq<Shape>, root: Kid)
    requires GraphOk(heap) && GraphOk(layout)
  {
    forall j :: 0 <= j < |layout| ==> BelowAt(heap, layout, root, j)
  }

  ghost predicate BelowAt(heap: seq<Shape>, layout: seq<Shape>, root: Kid, j: nat)
    requires GraphOk(heap) && GraphOk(layout) && j < |layout|
  {
    root.Ref? && exists id :: 0 <= id < |heap| && Reached(heap, root.j, id) && ValueOf(layout, j) == ValueOf(heap, id)
  }

  lemma {:induction false} StoredBelow(heap: seq<Shape>, layout: seq<Shape>, base: nat, index: Index, objTable: map<nat, Word>, root: Kid)
    requires TableOk(heap, layout, base, index, objTable) && Onto(layout, index)
    requires if root.Ref? then AllReached(heap, root.j, index.Keys) else layout == []
    ensures OnlyBelow(heap, layout, root)
  {
    hide Reached, ValueOf, AddressesOk, Fits;
    forall j | 0 <= j < |layout| ensures BelowAt(heap, layout, root, j) {
      assert StoredFor(index, j);
      var id :| id in index && index[id] == j;
      assert Reached(heap, root.j, id);
    }
  }

  /** The lexicographic order. */
  predicate Less(a: (nat, nat, nat), b: (nat, nat, nat)) {
    a.0 < b.0 || (a.0 == b.0 && (a.1 < b.1 || (a.1 == b.1 && a.2 < b.2)))
  }

  lemma {:induction false} LongerStack(was: seq<nat>, now: seq<nat>, n: nat, kids: seq<Kid>)
    requires Pushed(was, now, n, kids) && now != was
    ensures |was| < |now| && was <= now
  {
  }

  class ObjectCompactor {
    const heap: seq<Shape>
    const base: nat
    var buf: array<Word>
    var end: nat
    var objTable: map<nat, Word>
    /** The start and length of every object in the buffer. */
    var sharing: set<(nat, nat)>
    var todo: seq<nat>
    ghost var layout: seq<Shape>
    ghost var index: Index

    ghost function Content(): seq<Word>
      reads this, buf
      requires end <= buf.Length
    {
      buf[..end]
    }

    ghost predicate Tables()
      reads this
    {
      TableOk(heap, layout, base, index, objTable)
    }

    ghost predicate Valid()
      reads this, buf
    {
      && Tables() && SharingOk(layout, sharing) && RoomOk(heap, layout, base, index) && Distinct(layout)
      && (forall i :: 0 <= i < |todo| ==> todo[i] < |heap|)
      && end <= buf.Length && 0 < buf.Length && Stored(layout, base, Content())
    }

    // -------------------------------------------------------------- the buffer

    /** A buffer of twice the size with the same content. */
    method Grow()
      requires end <= buf.Length && 0 < buf.Length
      modifies this`buf
      ensures fresh(buf) && buf.Length == 2 * old(buf.Length) && Content() == old(Content())
    {
      var newBuf := new Word[2 * buf.Length](_ => 0);
      for i := 0 to end
        modifies newBuf
        invariant newBuf[..i] == buf[..i]
      {
        newBuf[i] := buf[i];
      }
      buf := newBuf;
    }

    /** Room for `n` zero words at the end, in a larger buffer if need be. */
    method Alloc(n: nat) returns (r: nat)
      requires end <= buf.Length && 0 < buf.Length
      modifies this`buf, this`end, buf
      ensures end <= buf.Length && 0 < buf.Length && (buf == old(buf) || fresh(buf))
      ensures r == old(end) && end == r + n && Content() == old(Content()) + seq(n, _ => 0)
    {
      while end + n > buf.Length
        modifies this`buf
        invariant 0 < buf.Length && end <= buf.Length && (buf == old(buf) || fresh(buf)) && Content() == old(Content())
        decreases end + n - buf.Length
      {
        Grow();
      }
      r := end;
      for i := 0 to n
        modifies buf
        invariant buf[..end] == old(Content()) && buf[end..end + i] == seq(i, _ => 0)
      {
        buf[end + i] := 0;
      }
      end := end + n;
      assert Content() == buf[..r] + buf[r..r + n];
      assert buf[..r] == old(Content()) && buf[r..r + n] == seq(n, _ => 0);
    }

    /** Copy `words` to the end of the region. */
    method Append(words: seq<Word>) returns (r: nat)
      requires end <= buf.Length && 0 < buf.Length
      modifies this`buf, this`end, buf
      ensures end <= buf.Length && 0 < buf.Length && (buf == old(buf) || fresh(buf))
      ensures r == old(end) && end == r + |words| && Content() == old(Content()) + words
    {
      r := Alloc(|words|);
      ghost var was := old(Content());
      assert buf[..r] == was by { assert Content()[..r] == was; }
      for i := 0 to |words|
        modifies buf
        invariant buf[..r] == was && buf[r..r + i] == words[..i]
      {
        buf[r + i] := words[i];
      }
      assert Content() == buf[..r] + buf[r..r + |words|];
      assert buf[..r] == was && buf[r..r + |words|] == words;
    }

    // -------------------------------------------------------------- references

    /** `to_offset`: an object that is not in the region yet is put on the stack. */
    method ToOffset(k: Kid) returns (w: Word)
      requires Tables() && KidOk(k, |heap|)
      modifies this`todo
      ensures w != NULL_OFFSET ==> todo == old(todo) && Looked(layout, base, index, k, w)
      ensures w == NULL_OFFSET ==> k.Ref? && k.j !in index && todo == old(todo) + [k.j]
    {
      LookUp(heap, layout, base, index, objTable, k);
      match k
      case Boxed(n) => w := 2 * n + 1;
      case Ref(j) =>
        if j in objTable {
          w := objTable[j];
        } else {
          w := NULL_OFFSET;
          todo := todo + [j];
        }
    }

    /** Look up all fields, last one first. */
    method Offsets(kids: seq<Kid>, id: nat) returns (missing: bool, offsets: seq<Word>)
      requires Tables() && id < |heap| && forall k :: 0 <= k < |kids| ==> KidOk(kids[k], id)
      modifies this`todo
      ensures |offsets| == |kids| && Pushed(old(todo), todo, |heap|, kids)
      ensures !missing ==> todo == old(todo) && AllLooked(layout, base, index, kids, offsets, 0)
      ensures missing ==> TopMissing(old(todo), todo, id, index)
    {
      assert Fits(layout, base);
      hide TableOk, Looked, AllLooked, Pushed, TopMissing;
      missing := false;
      offsets := seq(|kids|, _ => 0);
      NothingLooked(layout, base, index, kids, offsets, todo, |heap|);
      var i := |kids|;
      while i > 0
        invariant 0 <= i <= |kids| && |offsets| == |kids| && Pushed(old(todo), todo, |heap|, kids)
        invariant !missing ==> todo == old(todo) && AllLooked(layout, base, index, kids, offsets, i)
        invariant missing ==> TopMissing(old(todo), todo, id, index)
      {
        i := i - 1;
        ghost var was := todo;
        var c := ToOffset(kids[i]);
        if c == NULL_OFFSET {
          missing := true;
          assert kids[i] in kids;
          PushedMore(old(todo), was, kids, kids[i].j, id, |heap|, index);
        } else if !missing {
          LookedOneMore(layout, base, index, kids, offsets, i, c);
        }
        offsets := offsets[i := c];
      }
    }

    // -------------------------------------------------------------- sharing

    /** `save_max_sharing`: an object whose words are in the region already is dropped again. */
    method SaveMaxSharing(o: nat, r: nat, n: nat, ghost x: Shape)
      requires Tables() && SharingOk(layout, sharing) && RoomOk(heap, layout, base, index) && Distinct(layout)
      requires end <= buf.Length && end == r + n && Stored(layout, base, buf[..r]) && o < |heap| && o !in index
      requires Ready(heap[o], index) && x == MapShape(heap[o], index) && ShapeOk(x, |layout|) && Fits(layout, base)
      requires buf[r..end] == Encode(x, KidWords(layout, base, Kids(x)))
      modifies this`end, this`sharing, this`objTable, this`layout, this`index
      ensures Tables() && SharingOk(layout, sharing) && RoomOk(heap, layout, base, index) && Distinct(layout)
      ensures end <= buf.Length && Stored(layout, base, buf[..end]) && index.Keys == old(index.Keys) + {o}
      ensures Onto(old(layout), old(index)) ==> Onto(layout, index)
    {
      hide TableOk, SharingOk, RoomOk, Stored, Distinct, Encode, KidWords, ShapeOk, Ready, Onto;
      ghost var words := buf[r..end];
      var place := r;
      var found, p := FindSame(r, n);
      if found {
        ghost var j := FoundObject(heap, layout, base, index, objTable, sharing, buf[..r], o, x, (p, n));
        end := r;
        place := p;
        OntoKept(layout, index, o, j);
        index := index[o := j];
      } else {
        NewObject(heap, layout, base, index, objTable, sharing, buf[..r], words, o, x);
        assert buf[..end] == buf[..r] + words;
        sharing := sharing + {(r, n)};
        OntoMore(layout, index, o, x);
        index, layout := index[o := |layout|], layout + [x];
      }
      objTable := objTable[o := base + 8 * place];
    }

    /** Write one object, if all objects it refers to are in the region. */
    method Insert(id: nat) returns (done: bool)
      requires Valid() && id < |heap| && id !in index
      modifies this, buf
      ensures Valid() && (buf == old(buf) || fresh(buf)) && Pushed(old(todo), todo, |heap|, Kids(heap[id]))
      ensures Onto(old(layout), old(index)) ==> Onto(layout, index)
      ensures done ==> index.Keys == old(index.Keys) + {id} && todo == old(todo)
      ensures !done ==> index == old(index) && TopMissing(old(todo), todo, id, index)
    {
      assert Fits(layout, base) && ShapeOk(heap[id], id) && TableOk(heap, layout, base, index, objTable);
      hide TableOk, SharingOk, RoomOk, Stored, Pushed, AllLooked, Onto;
      var missing, offsets := Offsets(Kids(heap[id]), id);
      if missing {
        return false;
      }
      LookedWords(layout, base, index, heap[id], offsets);
      var words := Encode(heap[id], offsets);
      ghost var was := Content();
      var r := Append(words);
      assert buf[..r] == was && buf[r..end] == words by { assert Content()[..r] == was && Content()[r..] == words; }
      SaveMaxSharing(id, r, |words|, MapShape(heap[id], index));
      NothingPushed(todo, |heap|, Kids(heap[id]));
      done := true;
    }

    /** An earlier object with the same words as the `n` words from `r` on. */
    method FindSame(r: nat, n: nat) returns (found: bool, p: nat)
      requires r + n <= buf.Length
      ensures found ==> (p, n) in sharing && p + n <= r && buf[..r][p..p + n] == buf[r..r + n]
      ensures !found ==> forall key :: key in sharing && key.1 == n && key.0 + key.1 <= r ==> buf[..r][key.0..key.0 + key.1] != buf[r..r + n]
    {
      var mem, words := buf[..r], buf[r..r + n];
      found, p := false, 0;
      if exists key :: key in sharing && key.1 == n && key.0 + key.1 <= r && mem[key.0..key.0 + key.1] == words {
        var key :| key in sharing && key.1 == n && key.0 + key.1 <= r && mem[key.0..key.0 + key.1] == words;
        found, p := true, key.0;
      }
    }

    // -------------------------------------------------------------- the main loop

    constructor (heap: seq<Shape>, base: nat, capacity: nat)
      requires GraphOk(heap) && Fits(heap, base) && 0 < capacity
      ensures this.heap == heap && this.base == base && fresh(buf) && layout == [] && index == map[] && todo == []
      ensures end == 0 && 0 < buf.Length && objTable == map[] && sharing == {}
    {
      this.heap, this.base := heap, base;
      buf, end, objTable, sharing, todo := new Word[capacity](_ => 0), 0, map[], {}, [];
      layout, index := [], map[];
    }

    /** What is left to do: words not in the region, then objects on the stack that are, then how
        deep the search for an object without missing parts can still go. */
    ghost function Left(): (nat, nat, nat)
      reads this
      requires forall i :: 0 <= i < |todo| ==> todo[i] < |heap|
    {
      var missing := Remaining(heap, index.Keys, |heap|);
      if todo == [] then (missing, 0, 0)
      else if todo[|todo| - 1] in index then (missing, 1, |todo|)
      else (missing, 0, todo[|todo| - 1])
    }

    /** One turn of the main loop makes progress. */
    method Step()
      requires Valid() && todo != []
      modifies this, buf
      ensures Valid() && (buf == old(buf) || fresh(buf)) && Less(Left(), old(Left()))
      ensures forall id :: id in old(index) ==> id in index
      ensures todo == old(todo)[..|old(todo)| - 1] || (|old(todo)| < |todo| && old(todo) <= todo)
      ensures todo == old(todo)[..|old(todo)| - 1] ==> old(todo)[|old(todo)| - 1] in index
      ensures index.Keys <= old(index.Keys) + {old(todo)[|old(todo)| - 1]}
      ensures old(todo)[|old(todo)| - 1] < |heap|
      ensures todo == old(todo)[..|old(todo)| - 1] || Pushed(old(todo), todo, |heap|, Kids(heap[old(todo)[|old(todo)| - 1]]))
      ensures Onto(old(layout), old(index)) ==> Onto(layout, index)
    {
      hide TableOk, SharingOk, RoomOk, Stored, Remaining, Onto;
      var curr := todo[|todo| - 1];
      TableKeys();
      if curr in objTable {
        todo := todo[..|todo| - 1];
      } else {
        RemainingInsert(heap, index.Keys, |heap|, curr);
        var r := Insert(curr);
        if r {
          todo := todo[..|todo| - 1];
        } else {
          LongerStack(old(todo), todo, |heap|, Kids(heap[curr]));
        }
      }
    }

    /** Empty the stack. It always terminates on acyclic graphs, and then the root is in the region. */
    method Drain(root: nat)
      requires Valid() && todo == [root]
      modifies this, buf
      requires layout == [] && index == map[]
      ensures Valid() && root in index && (buf == old(buf) || fresh(buf))
      ensures Onto(layout, index) && AllReached(heap, root, index.Keys)
    {
      hide TableOk, SharingOk, RoomOk, Stored, Remaining, Onto, AllReached;
      NothingYet(heap, root);
      assert index.Keys == {};
      while todo != []
        invariant Valid() && (buf == old(buf) || fresh(buf)) && (root in index || (todo != [] && todo[0] == root))
        invariant Onto(layout, index) && AllReached(heap, root, index.Keys) && AllReached(heap, root, Elements(todo))
        decreases Left().0, Left().1, Left().2
      {
        ghost var was, known := todo, index.Keys;
        Step();
        StillReached(heap, root, was, todo, known, index.Keys);
      }
    }

    lemma {:induction false} TableKeys()
      requires Tables()
      ensures objTable.Keys == index.Keys
    {
    }

    /** The word of the root goes into the space kept for it. */
    method StoreRoot(root: Kid, rootOffset: nat) returns (ghost r: Kid)
      requires Valid() && todo == [] && KidOk(root, |heap|) && (root.Ref? ==> root.j in index) && rootOffset == 0
      modifies this`todo, buf
      ensures Stored(layout, base, Content())
      ensures KidOk(r, |layout|) && KidValue(layout, r, |layout|) == KidValue(heap, root, |heap|)
      ensures buf[0] == KidWord(layout, base, r) && Place(layout, |layout|) <= Place(heap, |heap|)
    {
      hide Stored;
      var w := ToOffset(root);
      r := MapKid(root, index);
      ghost var mem := Content();
      RootStored(layout, base, mem, w);
      buf[rootOffset] := w;
      assert Content() == mem[0 := w];
    }

    /** The whole run on an empty compactor: the region holds each value once, and its first word
        refers to an object with the value of the root. */
    method Compact(root: Kid) returns (ghost r: Kid)
      requires GraphOk(heap) && Fits(heap, base)
      requires layout == [] && index == map[] && todo == [] && end == 0 && 0 < buf.Length && objTable == map[] && sharing == {}
      requires KidOk(root, |heap|)
      modifies this, buf
      ensures end <= buf.Length && Stored(layout, base, Content()) && Distinct(layout)
      ensures ObjectsFrom(Content(), 1) && OnlyBelow(heap, layout, root)
      ensures KidOk(r, |layout|) && KidValue(layout, r, |layout|) == KidValue(heap, root, |heap|)
      ensures buf[0] == KidWord(layout, base, r) && Place(layout, |layout|) <= Place(heap, |heap|)
    {
      hide Stored, TableOk, SharingOk, RoomOk, Distinct, Onto, AllReached;
      OntoNothing();
      var rootOffset := Alloc(1);
      EmptyRegion(heap, base, Content());
      if root.Ref? {
        todo := [root.j];
        Drain(root.j);
      }
      todo := [];
      StoredBelow(heap, layout, base, index, objTable, root);
      r := StoreRoot(root, rootOffset);
      StoredObjects(layout, base, Content(), 0);
    }
  }

  lemma {:induction false} EmptyRegion(heap: seq<Shape>, base: nat, mem: seq<Word>)
    requires GraphOk(heap) && Fits(heap, base) && |mem| == 1
    ensures TableOk(heap, [], base, map[], map[]) && SharingOk([], {}) && RoomOk(heap, [], base, map[]) && Stored([], base, mem) && Distinct([])
  {
    RemainingNone(heap, |heap|);
    var none: Index := map[];
    assert none.Keys == {};
  }

  lemma {:induction false} RootStored(layout: seq<Shape>, base: nat, mem: seq<Word>, w: Word)
    requires Stored(layout, base, mem)
    ensures |mem| > 0 && Stored(layout, base, mem[0 := w])
  {
    var mem' := mem[0 := w];
    forall i | 0 <= i < |layout| ensures StoredAt(layout, base, mem', i) {
      assert StoredAt(layout, base, mem, i);
      var p, n := Place(layout, i), Words(layout[i]);
      assert mem'[p..p + n] == mem[p..p + n];
    }
  }

  lemma {:induction false} LookedWords(layout: seq<Shape>, base: nat, index: Index, s: Shape, offsets: seq<Word>)
    requires AllLooked(layout, base, index, Kids(s), offsets, 0) && EncodeOk(s)
    ensures Ready(s, index) && ShapeOk(MapShape(s, index), |layout|)
    ensures offsets == KidWords(layout, base, Kids(MapShape(s, index)))
    ensures Encode(s, offsets) == Encode(MapShape(s, index), offsets)
  {
    forall k | 0 <= k < |Kids(s)| ensures KidReady(Kids(s)[k], index) {
      assert Looked(layout, base, index, Kids(s)[k], offsets[k]);
    }
    var t := MapShape(s, index);
    forall k | 0 <= k < |Kids(s)| ensures KidOk(Kids(t)[k], |layout|) && offsets[k] == KidWord(layout, base, Kids(t)[k]) {
      assert Looked(layout, base, index, Kids(s)[k], offsets[k]);
    }
  }

  /** The object found by its words is the object looked for. */
  lemma {:induction false} FindObject(layout: seq<Shape>, base: nat, sharing: set<(nat, nat)>, mem: seq<Word>, x: Shape, key: (nat, nat))
    returns (j: nat)
    requires SharingOk(layout, sharing) && Stored(layout, base, mem) && Fits(layout, base)
    requires ShapeOk(x, |layout|) && key in sharing && key.0 + key.1 <= |mem|
    requires mem[key.0..key.0 + key.1] == Encode(x, KidWords(layout, base, Kids(x)))
    ensures j < |layout| && layout[j] == x && key.0 == Place(layout, j)
  {
    j :| 0 <= j < |layout| && key == KeyOf(layout, j);
    hide Stored, SharingOk, Encode;
    StoredWords(layout, base, mem, j);
    SameWords(layout, base, layout[j], x);
  }

  lemma {:induction false} FoundTables(heap: seq<Shape>, layout: seq<Shape>, base: nat, index: Index, objTable: map<nat, Word>, o: nat, j: nat)
    requires TableOk(heap, layout, base, index, objTable) && o < |heap| && o !in index && Ready(heap[o], index)
    requires j < |layout| && layout[j] == MapShape(heap[o], index)
    ensures base + 8 * Place(layout, j) < 0x1_0000_0000_0000_0000
    ensures TableOk(heap, layout, base, index[o := j], objTable[o := base + 8 * Place(layout, j)])
  {
    hide GraphOk, IndexOk, AddressesOk, Ready, MapShape;
    PlaceMono(layout, j, |layout|);
    FoundIndex(heap, layout, index, o, j);
    AddressAdded(layout, base, index, objTable, o, j, base + 8 * Place(layout, j));
  }

  lemma {:induction false} FoundIndex(heap: seq<Shape>, layout: seq<Shape>, index: Index, o: nat, j: nat)
    requires GraphOk(heap) && GraphOk(layout) && IndexOk(heap, layout, index) && o < |heap| && Ready(heap[o], index)
    requires j < |layout| && layout[j] == MapShape(heap[o], index)
    ensures IndexOk(heap, layout, index[o := j])
  {
    hide GraphOk;
    MappedValue(heap, layout, index, o, j);
  }

  lemma {:induction false} FoundRoom(heap: seq<Shape>, layout: seq<Shape>, base: nat, index: Index, o: nat, j: nat)
    requires RoomOk(heap, layout, base, index) && o < |heap| && o !in index
    ensures RoomOk(heap, layout, base, index[o := j])
  {
    assert index[o := j].Keys == index.Keys + {o};
    RemainingInsert(heap, index.Keys, |heap|, o);
  }

  lemma {:induction false} FoundObject(heap: seq<Shape>, layout: seq<Shape>, base: nat, index: Index, objTable: map<nat, Word>,
      sharing: set<(nat, nat)>, mem: seq<Word>, o: nat, x: Shape, key: (nat, nat)) returns (j: nat)
    requires TableOk(heap, layout, base, index, objTable) && SharingOk(layout, sharing) && RoomOk(heap, layout, base, index)
    requires Stored(layout, base, mem) && o < |heap| && o !in index && Ready(heap[o], index) && x == MapShape(heap[o], index)
    requires ShapeOk(x, |layout|) && key in sharing && key.0 + key.1 <= |mem| && Fits(layout, base)
    requires mem[key.0..key.0 + key.1] == Encode(x, KidWords(layout, base, Kids(x)))
    ensures key.0 < |mem| && Stored(layout, base, mem) && base + 8 * key.0 < 0x1_0000_0000_0000_0000
    ensures TableOk(heap, layout, base, index[o := j], objTable[o := base + 8 * key.0]) && RoomOk(heap, layout, base, index[o := j])
  {
    hide TableOk, SharingOk, RoomOk, Stored;
    j := FindObject(layout, base, sharing, mem, x, key);
    StoredWords(layout, base, mem, j);
    FoundTables(heap, layout, base, index, objTable, o, j);
    FoundRoom(heap, layout, base, index, o, j);
  }

  /** An object whose words are not in the region is new, and its value is right. */
  lemma {:induction false} NewObject(heap: seq<Shape>, layout: seq<Shape>, base: nat, index: Index, objTable: map<nat, Word>,
      sharing: set<(nat, nat)>, mem: seq<Word>, words: seq<Word>, o: nat, x: Shape)
    requires TableOk(heap, layout, base, index, objTable) && SharingOk(layout, sharing) && RoomOk(heap, layout, base, index)
    requires Stored(layout, base, mem) && o < |heap| && o !in index && Ready(heap[o], index) && x == MapShape(heap[o], index)
    requires ShapeOk(x, |layout|) && Fits(layout, base) && words == Encode(x, KidWords(layout, base, Kids(x))) && Distinct(layout)
    requires forall key :: key in sharing && key.1 == |words| && key.0 + key.1 <= |mem| ==> mem[key.0..key.0 + key.1] != words
    ensures Distinct(layout + [x]) && SharingOk(layout + [x], sharing + {(|mem|, |words|)})
    ensures base + 8 * |mem| < 0x1_0000_0000_0000_0000
    ensures TableOk(heap, layout + [x], base, index[o := |layout|], objTable[o := base + 8 * |mem|])
    ensures RoomOk(heap, layout + [x], base, index[o := |layout|]) && Stored(layout + [x], base, mem + words)
  {
    hide TableOk, SharingOk;
    NewRoom(heap, layout, base, index, o, x);
    NewDistinct(layout, base, sharing, mem, words, x);
    StoreOne(layout, x, base, mem);
    NewSharing(layout, sharing, x);
    NewTables(heap, layout, base, index, objTable, o, x);
  }

  lemma {:induction false} NewDistinct(layout: seq<Shape>, base: nat, sharing: set<(nat, nat)>, mem: seq<Word>, words: seq<Word>, x: Shape)
    requires Stored(layout, base, mem) && SharingOk(layout, sharing) && Distinct(layout) && ShapeOk(x, |layout|) && Fits(layout, base)
    requires words == Encode(x, KidWords(layout, base, Kids(x)))
    requires forall key :: key in sharing && key.1 == |words| && key.0 + key.1 <= |mem| ==> mem[key.0..key.0 + key.1] != words
    ensures Distinct(layout + [x])
  {
    hide Stored, Encode;
    forall j | 0 <= j < |layout| ensures layout[j] != x {
      StoredWords(layout, base, mem, j);
      var key := KeyOf(layout, j);
      assert key in sharing;
      DifferentWords(layout, base, mem, words, x, j);
    }
  }

  lemma {:induction false} DifferentWords(layout: seq<Shape>, base: nat, mem: seq<Word>, words: seq<Word>, x: Shape, j: nat)
    requires Stored(layout, base, mem) && Fits(layout, base) && ShapeOk(x, |layout|) && j < |layout|
    requires words == Encode(x, KidWords(layout, base, Kids(x))) && |words| == Words(x)
    requires KeyOf(layout, j).1 == |words| && KeyOf(layout, j).0 + KeyOf(layout, j).1 <= |mem| ==>
               mem[KeyOf(layout, j).0..KeyOf(layout, j).0 + KeyOf(layout, j).1] != words
    ensures layout[j] != x
  {
    hide Stored;
    StoredWords(layout, base, mem, j);
  }

  lemma {:induction false} KeyKept(layout: seq<Shape>, x: Shape, i: nat)
    requires i < |layout|
    ensures KeyOf(layout + [x], i) == KeyOf(layout, i)
  {
    assert (layout + [x])[..i] == layout[..i] && (layout + [x])[i] == layout[i];
    PlacePrefix(layout + [x], layout, i);
  }

  lemma {:induction false} NewSharing(layout: seq<Shape>, sharing: set<(nat, nat)>, x: Shape)
    requires SharingOk(layout, sharing)
    ensures SharingOk(layout + [x], sharing + {(Place(layout, |layout|), Words(x))})
  {
    var l2, n := layout + [x], |layout|;
    PlaceSnoc(layout, x);
    assert KeyOf(l2, n) == (Place(layout, n), Words(x));
    hide KeyOf;
    forall i | 0 <= i < n ensures KeyOf(l2, i) == KeyOf(layout, i) {
      KeyKept(layout, x, i);
    }
    forall key | key in sharing ensures exists i :: 0 <= i < |l2| && key == KeyOf(l2, i) {
      var i :| 0 <= i < n && key == KeyOf(layout, i);
      assert key == KeyOf(l2, i);
    }
  }

  lemma {:induction false} NewRoom(heap: seq<Shape>, layout: seq<Shape>, base: nat, index: Index, o: nat, x: Shape)
    requires RoomOk(heap, layout, base, index) && o < |heap| && o !in index && Words(x) == Words(heap[o])
    ensures RoomOk(heap, layout + [x], base, index[o := |layout|]) && Fits(layout + [x], base)
  {
    assert index[o := |layout|].Keys == index.Keys + {o};
    RemainingInsert(heap, index.Keys, |heap|, o);
    PlaceSnoc(layout, x);
  }

  lemma {:induction false} NewTables(heap: seq<Shape>, layout: seq<Shape>, base: nat, index: Index, objTable: map<nat, Word>, o: nat, x: Shape)
    requires TableOk(heap, layout, base, index, objTable) && o < |heap| && o !in index && Ready(heap[o], index)
    requires x == MapShape(heap[o], index) && ShapeOk(x, |layout|) && Fits(layout + [x], base) && GraphOk(layout + [x])
    ensures base + 8 * Place(layout, |layout|) < 0x1_0000_0000_0000_0000
    ensures TableOk(heap, layout + [x], base, index[o := |layout|], objTable[o := base + 8 * Place(layout, |layout|)])
  {
    hide GraphOk, IndexOk, AddressesOk, Ready, MapShape;
    var l2 := layout + [x];
    PlaceSnoc(layout, x);
    IndexKept(heap, layout, x, index);
    FoundIndex(heap, l2, index, o, |layout|);
    PlacesKept(heap, layout, x, index);
    AddressesGrow(layout, x, base, index, objTable);
    assert l2[..|layout|] == layout[..|layout|];
    PlacePrefix(l2, layout, |layout|);
    AddressAdded(l2, base, index, objTable, o, |layout|, base + 8 * Place(layout, |layout|));
  }

  lemma {:induction false} AddressesGrow(layout: seq<Shape>, x: Shape, base: nat, index: Index, objTable: map<nat, Word>)
    requires AddressesOk(layout, base, index, objTable)
    requires forall id :: id in index ==> index[id] < |layout| && Place(layout + [x], index[id]) == Place(layout, index[id])
    ensures AddressesOk(layout + [x], base, index, objTable)
  {
  }

  lemma {:induction false} PlacesKept(heap: seq<Shape>, layout: seq<Shape>, x: Shape, index: Index)
    requires GraphOk(heap) && GraphOk(layout) && IndexOk(heap, layout, index)
    ensures forall id :: id in index ==> index[id] < |layout| && Place(layout + [x], index[id]) == Place(layout, index[id])
  {
    forall id | id in index ensures index[id] < |layout| && Place(layout + [x], index[id]) == Place(layout, index[id]) {
      IndexBound(heap, layout, index, id);
      assert (layout + [x])[..index[id]] == layout[..index[id]];
      PlacePrefix(layout + [x], layout, index[id]);
    }
  }

  lemma {:induction false} IndexBound(heap: seq<Shape>, layout: seq<Shape>, index: Index, id: nat)
    requires GraphOk(heap) && GraphOk(layout) && IndexOk(heap, layout, index) && id in index
    ensures index[id] < |layout|
  {
  }

  lemma {:induction false} IndexKept(heap: seq<Shape>, layout: seq<Shape>, x: Shape, index: Index)
    requires GraphOk(heap) && GraphOk(layout) && GraphOk(layout + [x]) && IndexOk(heap, layout, index)
    ensures IndexOk(heap, layout + [x], index)
  {
    forall id | id in index ensures ValueOf(layout + [x], index[id]) == ValueOf(layout, index[id]) {
      assert (layout + [x])[..index[id] + 1] == layout[..index[id] + 1];
      ValuePrefix(layout + [x], layout, index[id]);
    }
  }
}
