/** Building a region object by object: values are preserved, equal objects are stored once. */
module CompactSharing {
  import opened CompactFormat

  /** The numbers that source objects have got in the region. */
  type Index = map<nat, nat>

  predicate KidReady(k: Kid, index: Index) {
    k.Ref? ==> k.j in index
  }

  predicate Ready(s: Shape, index: Index) {
    forall k :: 0 <= k < |Kids(s)| ==> KidReady(Kids(s)[k], index)
  }

  function MapKid(k: Kid, index: Index): Kid
    requires KidReady(k, index)
  {
    if k.Ref? then Ref(index[k.j]) else k
  }

  /** The object with its references renumbered. */
  function MapShape(s: Shape, index: Index): (r: Shape)
    requires Ready(s, index)
    ensures |Kids(r)| == |Kids(s)| && Words(r) == Words(s) && (EncodeOk(s) ==> EncodeOk(r))
    ensures forall k :: 0 <= k < |Kids(s)| ==> Kids(r)[k] == MapKid(Kids(s)[k], index)
  {
    var kids := seq(|Kids(s)|, k requires 0 <= k < |Kids(s)| => MapKid(Kids(s)[k], index));
    match s
    case Ctor(tag, _, scalars) => Ctor(tag, kids, scalars)
    case Array(_) => Array(kids)
    case _ => s
  }

  /** The region object of a source object has the same value. */
  ghost predicate IndexOk(heap: seq<Shape>, layout: seq<Shape>, index: Index)
    requires GraphOk(heap) && GraphOk(layout)
  {
    forall id :: id in index ==> id < |heap| && index[id] < |layout| && ValueOf(layout, index[id]) == ValueOf(heap, id)
  }

  lemma {:induction false} ValuePrefix(g: seq<Shape>, h: seq<Shape>, i: nat)
    requires GraphOk(g) && GraphOk(h) && i < |g| && i < |h| && g[..i + 1] == h[..i + 1]
    ensures ValueOf(g, i) == ValueOf(h, i)
    decreases i, 1
  {
    assert g[i] == g[..i + 1][i] == h[..i + 1][i] == h[i];
    assert g[..i] == g[..i + 1][..i] == h[..i + 1][..i] == h[..i];
    assert ShapeOk(g[i], i);
    KidsPrefix(g, h, Kids(g[i]), i);
  }

  lemma {:induction false} KidsPrefix(g: seq<Shape>, h: seq<Shape>, kids: seq<Kid>, i: nat)
    requires GraphOk(g) && GraphOk(h) && i <= |g| && i <= |h| && g[..i] == h[..i]
    requires forall k :: 0 <= k < |kids| ==> KidOk(kids[k], i)
    ensures KidValues(g, kids, i) == KidValues(h, kids, i)
    decreases i, 0
  {
    forall k | 0 <= k < |kids| ensures KidValues(g, kids, i)[k] == KidValues(h, kids, i)[k] {
      KidValuesAt(g, kids, i, k);
      KidValuesAt(h, kids, i, k);
      if kids[k].Ref? {
        var j := kids[k].j;
        assert g[..j + 1] == g[..i][..j + 1] == h[..i][..j + 1] == h[..j + 1];
        ValuePrefix(g, h, j);
      }
    }
  }

  /** An object equal to the renumbered source object has the value of the source object. */
  lemma {:induction false} MappedValue(heap: seq<Shape>, layout: seq<Shape>, index: Index, id: nat, j: nat)
    requires GraphOk(heap) && GraphOk(layout) && IndexOk(heap, layout, index) && id < |heap| && Ready(heap[id], index)
    requires j < |layout| && layout[j] == MapShape(heap[id], index)
    ensures ValueOf(layout, j) == ValueOf(heap, id)
  {
    var s, t := heap[id], layout[j];
    assert ShapeOk(s, id) && ShapeOk(t, j);
    var vs, ws := KidValues(heap, Kids(s), id), KidValues(layout, Kids(t), j);
    forall k | 0 <= k < |vs| ensures ws[k] == vs[k] {
      KidValuesAt(heap, Kids(s), id, k);
      KidValuesAt(layout, Kids(t), j, k);
      assert KidReady(Kids(s)[k], index) && KidOk(Kids(t)[k], j);
    }
    assert vs == ws;
  }

  ghost predicate Distinct(layout: seq<Shape>) {
    forall i, j :: 0 <= i < j < |layout| ==> layout[i] != layout[j]
  }

  /** Maximal sharing: if no object is stored twice, no value is stored twice. */
  lemma {:induction false} ValuesDistinct(layout: seq<Shape>, i: nat, j: nat)
    requires GraphOk(layout) && Distinct(layout) && i < |layout| && j < |layout| && ValueOf(layout, i) == ValueOf(layout, j)
    ensures i == j
    decreases i
  {
    var s, t := layout[i], layout[j];
    assert ShapeOk(s, i) && ShapeOk(t, j);
    var vs, ws := KidValues(layout, Kids(s), i), KidValues(layout, Kids(t), j);
    assert vs == ws;
    forall k | 0 <= k < |Kids(s)| ensures Kids(s)[k] == Kids(t)[k] {
      KidValuesAt(layout, Kids(s), i, k);
      KidValuesAt(layout, Kids(t), j, k);
      assert KidOk(Kids(s)[k], i) && KidOk(Kids(t)[k], j);
      if Kids(s)[k].Ref? && Kids(t)[k].Ref? { ValuesDistinct(layout, Kids(s)[k].j, Kids(t)[k].j); }
    }
    assert Kids(s) == Kids(t);
    SameShape(layout, i, j);
  }

  lemma {:induction false} SameShape(layout: seq<Shape>, i: nat, j: nat)
    requires GraphOk(layout) && i < |layout| && j < |layout| && ValueOf(layout, i) == ValueOf(layout, j)
    requires Kids(layout[i]) == Kids(layout[j])
    ensures layout[i] == layout[j]
  {
    assert ShapeOk(layout[i], i) && ShapeOk(layout[j], j);
  }

  // ---------------------------------------------------------------- growing a region

  lemma {:induction false} KidWordsPrefix(g: seq<Shape>, x: Shape, base: nat, kids: seq<Kid>)
    requires Fits(g, base) && Fits(g + [x], base) && forall k :: 0 <= k < |kids| ==> KidOk(kids[k], |g|)
    ensures forall k :: 0 <= k < |kids| ==> KidOk(kids[k], |g + [x]|)
    ensures KidWords(g + [x], base, kids) == KidWords(g, base, kids)
  {
    forall k | 0 <= k < |kids| ensures KidOk(kids[k], |g + [x]|) && KidWord(g + [x], base, kids[k]) == KidWord(g, base, kids[k]) {
      if kids[k].Ref? {
        var j := kids[k].j;
        assert (g + [x])[..j] == g[..j];
        PlacePrefix(g + [x], g, j);
      }
    }
  }

  lemma {:induction false} PlaceSnoc(g: seq<Shape>, x: Shape)
    ensures Place(g + [x], |g|) == Place(g, |g|) && Place(g + [x], |g| + 1) == Place(g, |g|) + Words(x)
  {
    assert (g + [x])[..|g|] == g[..|g|];
    PlacePrefix(g + [x], g, |g|);
  }

  lemma {:induction false} BehindWords(mem: seq<Word>, enc: seq<Word>)
    ensures (mem + enc)[|mem|..|mem| + |enc|] == enc
  {
  }

  /** Writing one more object behind a stored region. */
  lemma {:induction false} StoreOne(g: seq<Shape>, x: Shape, base: nat, mem: seq<Word>)
    requires Stored(g, base, mem) && ShapeOk(x, |g|) && Fits(g + [x], base)
    ensures Stored(g + [x], base, mem + Encode(x, KidWords(g, base, Kids(x))))
  {
    var h, enc := g + [x], Encode(x, KidWords(g, base, Kids(x)));
    var mem' := mem + enc;
    PlaceSnoc(g, x);
    forall i | 0 <= i < |h| ensures ShapeOk(h[i], i) {
      if i < |g| { assert ShapeOk(g[i], i); }
    }
    forall i | 0 <= i < |h| ensures StoredAt(h, base, mem', i) {
      if i < |g| {
        assert StoredAt(g, base, mem, i) && ShapeOk(g[i], i);
        StoredKept(g, x, base, mem, enc, i);
      } else {
        KidWordsPrefix(g, x, base, Kids(x));
        BehindWords(mem, enc);
      }
    }
  }

  lemma {:induction false} StoredKept(g: seq<Shape>, x: Shape, base: nat, mem: seq<Word>, enc: seq<Word>, i: nat)
    requires GraphOk(g) && GraphOk(g + [x]) && Fits(g, base) && Fits(g + [x], base) && i < |g| && StoredAt(g, base, mem, i)
    ensures StoredAt(g + [x], base, mem + enc, i)
  {
    assert ShapeOk(g[i], i);
    var p, n := Place(g, i), Words(g[i]);
    assert (g + [x])[..i] == g[..i] && (g + [x])[i] == g[i];
    PlacePrefix(g + [x], g, i);
    KidWordsPrefix(g, x, base, Kids(g[i]));
    assert (mem + enc)[p..p + n] == mem[p..p + n];
  }

  // ---------------------------------------------------------------- room for all objects

  /** The words still needed for source objects below `n` that are not in the region yet. */
  ghost function Remaining(heap: seq<Shape>, done: set<nat>, n: nat): nat
    requires n <= |heap|
  {
    if n == 0 then 0 else Remaining(heap, done, n - 1) + (if n - 1 in done then 0 else Words(heap[n - 1]))
  }

  lemma {:induction false} RemainingInsert(heap: seq<Shape>, done: set<nat>, n: nat, id: nat)
    requires n <= |heap| && id !in done && id < |heap|
    ensures Remaining(heap, done, n) == Remaining(heap, done + {id}, n) + (if id < n then Words(heap[id]) else 0)
  {
    if n > 0 { RemainingInsert(heap, done, n - 1, id); }
  }

  lemma {:induction false} RemainingNone(heap: seq<Shape>, n: nat)
    requires n <= |heap|
    ensures Remaining(heap, {}, n) + 1 == Place(heap, n)
  {
    if n > 0 { RemainingNone(heap, n - 1); }
  }
}
