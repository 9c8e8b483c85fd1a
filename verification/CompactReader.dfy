/** Reading a compacted region back: relocation in place, object by object (runtime/compact.cpp,
    `compacted_region::read`). */
module CompactReader {
  import opened Prelude
  import opened CompactFormat
  import opened CompactHeaders
  import opened CompactSharing

  /** Objects before number `i` have been relocated from `base` to `begin`. */
  ghost predicate Mixed(g: seq<Shape>, base: nat, begin: nat, mem: seq<Word>, i: nat) {
    && GraphOk(g) && Fits(g, base) && Fits(g, begin) && |mem| == Place(g, |g|) && i <= |g|
    && (forall k :: 0 <= k < i ==> StoredAt(g, begin, mem, k))
    && forall k :: i <= k < |g| ==> StoredAt(g, base, mem, k)
  }

  /** `fix_object_ptr`. */
  function FixPtr(w: Word, base: nat, begin: nat): Word
    requires w % 2 == 1 || (base <= w && begin + (w - base) < 0x1_0000_0000_0000_0000)
  {
    if w % 2 == 1 then w else begin + (w - base)
  }

  lemma {:induction false} FixKid(g: seq<Shape>, base: nat, begin: nat, k: Kid)
    requires Fits(g, base) && Fits(g, begin) && KidOk(k, |g|)
    ensures var w := KidWord(g, base, k);
      && (w % 2 == 1 || (base <= w && begin + (w - base) < 0x1_0000_0000_0000_0000))
      && FixPtr(w, base, begin) == KidWord(g, begin, k)
  {
    if k.Ref? {
      PlaceMono(g, k.j, |g|);
      hide Place;
      AddressEven(base, Place(g, k.j));
    } else {
      OddScalar(k.n);
    }
  }

  lemma {:induction false} AddressEven(base: nat, p: nat)
    requires base % 8 == 0
    ensures (base + 8 * p) % 2 == 0
  {
    var m := 4 * (base / 8) + 4 * p;
    assert base + 8 * p == 2 * m;
    EvenTwice(m);
  }

  lemma {:induction false} EvenTwice(m: nat)
    ensures (2 * m) % 2 == 0
  {
  }

  lemma {:induction false} OddScalar(n: nat)
    ensures (2 * n + 1) % 2 == 1
  {
  }

  /** What the reader learns from the first words of object `i`. */
  lemma {:induction false} ReadHeader(g: seq<Shape>, base: nat, mem: seq<Word>, i: nat)
    requires GraphOk(g) && Fits(g, base) && i < |g| && StoredAt(g, base, mem, i)
    ensures var p, s := Place(g, i), g[i];
      && p < |mem| && p + Words(s) <= |mem|
      && (s.Ctor? <==> TagOf(mem[p]) <= MAX_CTOR_TAG) && (s.Ctor? ==> OtherOf(mem[p]) == |Kids(s)|)
      && (s.Array? <==> TagOf(mem[p]) == TAG_ARRAY) && (!s.Ctor? ==> p + 1 < |mem|)
      && (s.Array? ==> mem[p + 1] == |Kids(s)|) && ObjectWords(mem, p) == Words(s)
  {
    var p, s := Place(g, i), g[i];
    assert ShapeOk(s, i);
    var ks := KidWords(g, base, Kids(s));
    HeaderOf(s, ks);
    assert mem[p] == Encode(s, ks)[0];
    if !s.Ctor? { assert mem[p + 1] == Encode(s, ks)[1]; }
  }

  class Region {
    var mem: array<Word>
    /** The address of the first word now, and the one the words were written for. */
    const begin: nat
    const base: nat
    var next: nat
    var end: nat

    constructor (mem: array<Word>, begin: nat, base: nat)
      ensures this.mem == mem && this.begin == begin && this.base == base && next == 0 && end == mem.Length
    {
      this.mem, this.begin, this.base, next, end := mem, begin, base, 0, mem.Length;
    }

    /** Relocate `n` fields from word `q` on. */
    method FixFields(q: nat, n: nat, ghost g: seq<Shape>, ghost kids: seq<Kid>)
      requires q + n <= mem.Length && n == |kids| && Fits(g, base) && Fits(g, begin)
      requires forall k :: 0 <= k < n ==> KidOk(kids[k], |g|)
      requires mem[q..q + n] == KidWords(g, base, kids)
      modifies mem
      ensures mem[q..q + n] == KidWords(g, begin, kids)
      ensures mem[..q] == old(mem[..q]) && mem[q + n..] == old(mem[q + n..])
    {
      ghost var ws, vs := KidWords(g, base, kids), KidWords(g, begin, kids);
      for i := 0 to n
        invariant mem[q..q + i] == vs[..i] && mem[q + i..q + n] == ws[i..]
        invariant mem[..q] == old(mem[..q]) && mem[q + n..] == old(mem[q + n..])
      {
        ghost var rest := mem[q + i..q + n];
        FixKid(g, base, begin, kids[i]);
        assert mem[q + i] == rest[0] == ws[i];
        mem[q + i] := FixPtr(mem[q + i], base, begin);
        assert mem[q + i + 1..q + n] == rest[1..];
      }
    }

    /** Relocate the fields of one constructor or array. */
    method FixKids(q: nat, n: nat, ghost g: seq<Shape>, ghost i: nat)
      requires i < |g| && GraphOk(g) && Fits(g, base) && Fits(g, begin) && StoredAt(g, base, mem[..], i)
      requires (g[i].Ctor? || g[i].Array?) && q == Place(g, i) + FieldStart(g[i]) && n == |Kids(g[i])|
      modifies mem
      ensures FieldsFixed(g, begin, old(mem[..]), mem[..], i)
    {
      ghost var was := mem[..];
      FieldsOf(g, base, was, i);
      assert mem[q..q + n] == was[q..q + n];
      FixFields(q, n, g, Kids(g[i]));
      assert mem[..][..q] == mem[..q] && mem[..][q + n..] == mem[q + n..] && mem[..][q..q + n] == mem[q..q + n];
      assert was[..q] == old(mem[..q]) && was[q + n..] == old(mem[q + n..]);
    }

    /** Relocate one object and go on to the next. */
    method FixObject(ghost g: seq<Shape>, ghost i: nat)
      requires i < |g| && Mixed(g, base, begin, mem[..], i) && next == Place(g, i)
      modifies this`next, mem
      ensures Mixed(g, base, begin, mem[..], i + 1) && next == Place(g, i + 1)
    {
      ghost var was := mem[..];
      assert StoredAt(g, base, was, i) && ShapeOk(g[i], i);
      ReadHeader(g, base, was, i);
      hide Mixed, StoredAt, Stored;
      var p := next;
      var tag := TagOf(mem[p]);
      var words := ObjectWords(mem[..], p);
      if tag <= MAX_CTOR_TAG {
        FixKids(p + 1, OtherOf(mem[p]), g, i);
      } else if tag == TAG_ARRAY {
        FixKids(p + 3, mem[p + 1], g, i);
      }
      Relocated(g, base, begin, was, mem[..], i);
      next := p + words;
    }

    /** The region holds the objects `g` and nothing has been read yet. */
    ghost predicate Unread(g: seq<Shape>, root: Kid)
      reads this, mem
    {
      && Stored(g, base, mem[..]) && Fits(g, begin) && KidOk(root, |g|)
      && next == 0 && end == mem.Length && mem[0] == KidWord(g, base, root)
    }

    /** `read` on a region of one part: afterwards memory is what the compactor would have written
        for the address it is at, and the root unfolds to the original value.  A region that has
        been read has no further root. */
    method Read(ghost g: seq<Shape>, ghost root: Kid) returns (res: Option<Word>)
      requires next == end || Unread(g, root)
      modifies this, mem
      ensures mem == old(mem) && next == end && (res.None? <==> old(next == end))
      ensures res.None? ==> mem[..] == old(mem[..]) && end == old(end)
      ensures res.Some? ==> Stored(g, begin, mem[..]) && KidOk(root, |g|) && res.value == KidWord(g, begin, root)
      ensures res.Some? ==> Unfold(mem[..], begin, res.value, mem.Length) == Some(KidValue(g, root, |g|))
    {
      if next == end {
        return None;
      }
      FixKid(g, base, begin, root);
      var r := FixPtr(mem[0], base, begin);
      res := Some(r);
      next := 1;
      if begin == base {
        end := next;
        UnfoldKid(g, begin, mem[..], root, |g|);
        return;
      }
      ghost var i := 0;
      while next < end
        invariant mem == old(mem) && end == mem.Length && i <= |g| && Mixed(g, base, begin, mem[..], i) && next == Place(g, i)
        decreases |g| - i
      {
        ObjectsLeft(g, i);
        FixObject(g, i);
        i := i + 1;
      }
      ObjectsLeft(g, i);
      UnfoldKid(g, begin, mem[..], root, |g|);
    }
  }

  lemma {:induction false} ObjectsLeft(g: seq<Shape>, i: nat)
    requires i <= |g|
    ensures Place(g, i) < Place(g, |g|) <==> i < |g|
    ensures Place(g, i) <= Place(g, |g|)
  {
    if i < |g| { PlaceMono(g, i, |g|); }
  }

  /** Where the fields of a constructor or an array are. */
  function FieldStart(s: Shape): nat {
    if s.Ctor? then 1 else 3
  }

  /** The words before, of and after the fields of an object. */
  lemma {:induction false} EncodeParts(s: Shape, ks: seq<Word>)
    requires EncodeOk(s) && |ks| == |Kids(s)| && (s.Ctor? || s.Array?)
    ensures FieldStart(s) + |ks| <= Words(s) && Encode(s, ks)[FieldStart(s)..FieldStart(s) + |ks|] == ks
  {
    match s
    case Ctor(tag, _, scalars) => MidSlice([Header(8 * (1 + |ks| + |scalars|), |ks|, tag)], ks, scalars);
    case Array(_) =>
      MidSlice([Header(1, 0, TAG_ARRAY), |ks|, |ks|], ks, []);
      assert Encode(s, ks) == Encode(s, ks) + [];
  }

  lemma {:induction false} FieldsOf(g: seq<Shape>, base: nat, mem: seq<Word>, i: nat)
    requires GraphOk(g) && Fits(g, base) && i < |g| && StoredAt(g, base, mem, i) && (g[i].Ctor? || g[i].Array?)
    ensures var q, kids := Place(g, i) + FieldStart(g[i]), Kids(g[i]);
      && q + |kids| <= |mem| && (forall k :: 0 <= k < |kids| ==> KidOk(kids[k], |g|))
      && mem[q..q + |kids|] == KidWords(g, base, kids)
  {
    assert ShapeOk(g[i], i);
    var f, kids := FieldStart(g[i]), Kids(g[i]);
    EncodeParts(g[i], KidWords(g, base, kids));
    SubSlice(mem, Place(g, i), Place(g, i) + Words(g[i]), f, f + |kids|);
  }

  /** Only the fields of object `i` changed, and they are relocated. */
  ghost predicate FieldsFixed(g: seq<Shape>, begin: nat, was: seq<Word>, mem: seq<Word>, i: nat)
    requires i < |g| && Fits(g, begin)
  {
    var q, kids := Place(g, i) + FieldStart(g[i]), Kids(g[i]);
    if !g[i].Ctor? && !g[i].Array? then mem == was
    else
      && |mem| == |was| && q + |kids| <= |mem| && (forall k :: 0 <= k < |kids| ==> KidOk(kids[k], |g|))
      && mem[..q] == was[..q] && mem[q + |kids|..] == was[q + |kids|..] && mem[q..q + |kids|] == KidWords(g, begin, kids)
  }

  /** Words outside the object are untouched. */
  lemma {:induction false} OthersUntouched(g: seq<Shape>, addr: nat, begin: nat, was: seq<Word>, mem: seq<Word>, i: nat, k: nat)
    requires GraphOk(g) && Fits(g, addr) && Fits(g, begin) && i < |g| && k < |g| && k != i && FieldsFixed(g, begin, was, mem, i)
    requires StoredAt(g, addr, was, k)
    ensures StoredAt(g, addr, mem, k)
  {
    assert ShapeOk(g[k], k);
    if k < i { PlaceMono(g, k, i); } else { PlaceMono(g, i, k); }
    SameSlice(was, mem, Place(g, i) + FieldStart(g[i]), |Kids(g[i])|, Place(g, k), Words(g[k]), g[i].Ctor? || g[i].Array?);
  }

  lemma {:induction false} SameSlice(was: seq<Word>, mem: seq<Word>, q: nat, m: nat, p: nat, n: nat, changed: bool)
    requires |was| == |mem| && p + n <= |mem| && (p + n <= q || q + m <= p || !changed) && (changed ==> q + m <= |mem|)
    requires if changed then mem[..q] == was[..q] && mem[q + m..] == was[q + m..] else mem == was
    ensures mem[p..p + n] == was[p..p + n]
  {
    if changed && p + n <= q {
      SubSlice(mem, 0, q, p, p + n);
      SubSlice(was, 0, q, p, p + n);
      assert mem[0..q] == mem[..q] && was[0..q] == was[..q];
    } else if changed {
      SubSlice(mem, q + m, |mem|, p - q - m, p - q - m + n);
      SubSlice(was, q + m, |was|, p - q - m, p - q - m + n);
    }
  }

  lemma {:induction false} ThisRelocated(g: seq<Shape>, base: nat, begin: nat, was: seq<Word>, mem: seq<Word>, i: nat)
    requires GraphOk(g) && Fits(g, base) && Fits(g, begin) && i < |g| && FieldsFixed(g, begin, was, mem, i) && StoredAt(g, base, was, i)
    ensures StoredAt(g, begin, mem, i)
  {
    assert ShapeOk(g[i], i);
    var p, n, f, kids := Place(g, i), Words(g[i]), FieldStart(g[i]), Kids(g[i]);
    var ks, vs := KidWords(g, base, kids), KidWords(g, begin, kids);
    if g[i].Ctor? || g[i].Array? {
      EncodeReplace(g[i], ks, vs);
      assert was[p..p + n] == Encode(g[i], ks) && mem[p + f..p + f + |kids|] == vs;
      hide Encode, KidWords, FieldsFixed;
      SpliceObject(was, mem, p, n, f, |kids|);
    } else {
      assert kids == [] && ks == vs;
    }
  }

  /** The same object with other field words. */
  lemma {:induction false} EncodeReplace(s: Shape, ks: seq<Word>, vs: seq<Word>)
    requires EncodeOk(s) && |ks| == |vs| == |Kids(s)| && (s.Ctor? || s.Array?)
    ensures var f, e := FieldStart(s), FieldStart(s) + |ks|;
      e <= Words(s) && Encode(s, vs) == Encode(s, ks)[..f] + vs + Encode(s, ks)[e..]
  {
  }

  lemma {:induction false} SpliceObject(was: seq<Word>, mem: seq<Word>, p: nat, n: nat, f: nat, m: nat)
    requires |mem| == |was| && p + n <= |mem| && f + m <= n
    requires mem[..p + f] == was[..p + f] && mem[p + f + m..] == was[p + f + m..]
    ensures mem[p..p + n] == was[p..p + n][..f] + mem[p + f..p + f + m] + was[p..p + n][f + m..]
  {
    var x, y := mem[p..p + n], was[p..p + n];
    forall k | 0 <= k < n && !(f <= k < f + m) ensures x[k] == y[k] {
      if k < f { assert mem[..p + f][p + k] == was[..p + f][p + k]; }
      else { assert mem[p + f + m..][k - f - m] == was[p + f + m..][k - f - m]; }
    }
  }

  /** After the fields of object `i` are relocated, one more object is. */
  lemma {:induction false} Relocated(g: seq<Shape>, base: nat, begin: nat, was: seq<Word>, mem: seq<Word>, i: nat)
    requires i < |g| && Mixed(g, base, begin, was, i) && |mem| == |was| && FieldsFixed(g, begin, was, mem, i)
    ensures Mixed(g, base, begin, mem, i + 1)
  {
    hide StoredAt, FieldsFixed;
    forall k | 0 <= k < i ensures StoredAt(g, begin, mem, k) {
      OthersUntouched(g, begin, begin, was, mem, i, k);
    }
    ThisRelocated(g, base, begin, was, mem, i);
    forall k | i < k < |g| ensures StoredAt(g, base, mem, k) {
      OthersUntouched(g, base, begin, was, mem, i, k);
    }
  }
}
