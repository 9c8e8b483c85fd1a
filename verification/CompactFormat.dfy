/** The layout of a compacted region: objects as sequences of 64-bit words, one behind the other
    (runtime/compact.cpp, object headers of include/theorem_ai/theorem_ai.h). */
module CompactFormat {
  import opened Prelude

  type Word = x: int | 0 <= x < 0x1_0000_0000_0000_0000

  type Byte = x: int | 0 <= x < 256

  const MAX_CTOR_TAG: nat := 243
  const TAG_ARRAY: nat := 246
  const TAG_SARRAY: nat := 248
  const TAG_STRING: nat := 249
  const NULL_OFFSET: Word := 0xFFFF_FFFF_FFFF_FFFE

  /** A field: a boxed scalar, or a reference to the object with that number. */
  datatype Kid = Boxed(n: nat) | Ref(j: nat)

  datatype Shape =
    | Ctor(tag: nat, kids: seq<Kid>, scalars: seq<Word>)
    | Array(kids: seq<Kid>)
    | SArray(elemSize: nat, size: nat, data: seq<Byte>)
    | Str(data: seq<Byte>, length: nat)

  function Kids(s: Shape): seq<Kid> {
    if s.Ctor? || s.Array? then s.kids else []
  }

  predicate KidOk(k: Kid, n: nat) {
    match k
    case Boxed(v) => 2 * v + 1 < 0x1_0000_0000_0000_0000
    case Ref(j) => j < n
  }

  /** The limits of the object formats. */
  predicate EncodeOk(s: Shape) {
    match s
    case Ctor(tag, kids, scalars) => tag <= MAX_CTOR_TAG && |kids| < 256 && 8 * (1 + |kids| + |scalars|) < 65536
    case Array(kids) => |kids| < 0x1000_0000_0000_0000
    case SArray(e, n, data) => e < 256 && n < 0x1000_0000_0000_0000 && |data| == e * n
    case Str(data, length) => |data| < 0x1000_0000_0000_0000 && length < 0x1000_0000_0000_0000
  }

  /** Within the limits, and references go to objects before number `n`. */
  predicate ShapeOk(s: Shape, n: nat) {
    EncodeOk(s) && forall i :: 0 <= i < |Kids(s)| ==> KidOk(Kids(s)[i], n)
  }

  /** An acyclic object graph: objects refer to objects with smaller numbers. */
  predicate GraphOk(g: seq<Shape>) {
    forall i :: 0 <= i < |g| ==> ShapeOk(g[i], i)
  }

  // ---------------------------------------------------------------- values

  datatype Value =
    | VScalar(n: nat)
    | VCtor(tag: nat, fields: seq<Value>, scalars: seq<Word>)
    | VArray(elems: seq<Value>)
    | VSArray(elemSize: nat, size: nat, data: seq<Byte>)
    | VStr(data: seq<Byte>, length: nat)

  /** The value of object `i`, sharing forgotten. */
  ghost function ValueOf(g: seq<Shape>, i: nat): Value
    requires GraphOk(g) && i < |g|
    decreases i, 1
  {
    assert ShapeOk(g[i], i);
    match g[i]
    case Ctor(tag, _, scalars) => VCtor(tag, KidValues(g, Kids(g[i]), i), scalars)
    case Array(_) => VArray(KidValues(g, Kids(g[i]), i))
    case SArray(e, n, data) => VSArray(e, n, data)
    case Str(data, length) => VStr(data, length)
  }

  ghost function KidValues(g: seq<Shape>, kids: seq<Kid>, i: nat): (r: seq<Value>)
    requires GraphOk(g) && i <= |g| && forall k :: 0 <= k < |kids| ==> KidOk(kids[k], i)
    ensures |r| == |kids|
    decreases i, 0, |kids|
  {
    if kids == [] then []
    else
      var rest := kids[1..];
      assert forall k :: 0 <= k < |rest| ==> rest[k] == kids[k + 1];
      [KidValue(g, kids[0], i)] + KidValues(g, rest, i)
  }

  ghost function KidValue(g: seq<Shape>, k: Kid, i: nat): Value
    requires GraphOk(g) && i <= |g| && KidOk(k, i)
    decreases i, 0, 0
  {
    match k
    case Boxed(n) => VScalar(n)
    case Ref(j) => ValueOf(g, j)
  }

  lemma {:induction false} KidValuesAt(g: seq<Shape>, kids: seq<Kid>, i: nat, k: nat)
    requires GraphOk(g) && i <= |g| && (forall k :: 0 <= k < |kids| ==> KidOk(kids[k], i)) && k < |kids|
    ensures KidValues(g, kids, i)[k] == KidValue(g, kids[k], i)
    decreases |kids|
  {
    if k > 0 {
      assert kids[1..][k - 1] == kids[k];
      KidValuesAt(g, kids[1..], i, k - 1);
    }
  }

  // ---------------------------------------------------------------- words

  /** The header of an object outside the heap: no reference count, a size field, `other`, `tag`. */
  function Header(size: nat, other: nat, tag: nat): Word
    requires size < 65536 && other < 256 && tag < 256
  {
    (size + 65536 * other + 16777216 * tag) * 0x1_0000_0000
  }

  function TagOf(w: Word): nat {
    w / 0x100_0000_0000_0000
  }

  function OtherOf(w: Word): nat {
    (w / 0x1_0000_0000_0000) % 256
  }

  function SizeOf(w: Word): nat {
    (w / 0x1_0000_0000) % 65536
  }

  lemma {:induction false} HeaderFields(size: nat, other: nat, tag: nat)
    requires size < 65536 && other < 256 && tag < 256
    ensures TagOf(Header(size, other, tag)) == tag
    ensures OtherOf(Header(size, other, tag)) == other
    ensures SizeOf(Header(size, other, tag)) == size
  {
    var w, x := Header(size, other, tag), size + 65536 * other + 16777216 * tag;
    assert w / 0x1_0000_0000 == x;
    assert w / 0x1_0000_0000_0000 == other + 256 * tag;
    assert w / 0x100_0000_0000_0000 == tag;
  }

  /** Eight bytes to a word, least significant first; the last word is padded with zeros. */
  function Pack(data: seq<Byte>): (r: seq<Word>)
    ensures |r| == (|data| + 7) / 8
  {
    if data == [] then []
    else if |data| <= 8 then [PackWord(data)]
    else [PackWord(data[..8])] + Pack(data[8..])
  }

  function PackWord(data: seq<Byte>): (r: Word)
    requires |data| <= 8
    ensures r < Power256(|data|)
  {
    if data == [] then 0 else data[0] + 256 * PackWord(data[1..])
  }

  function Power256(n: nat): (r: nat)
    requires n <= 8
    ensures 1 <= r <= 0x1_0000_0000_0000_0000
    ensures n < 8 ==> r <= 0x100_0000_0000_0000
    ensures n < 7 ==> r <= 0x1_0000_0000_0000
    ensures n < 6 ==> r <= 0x100_0000_0000
    ensures n < 5 ==> r <= 0x1_0000_0000
    ensures n < 4 ==> r <= 0x100_0000
    ensures n < 3 ==> r <= 0x1_0000
    ensures n < 2 ==> r <= 0x100
    ensures n < 1 ==> r <= 1
  {
    if n == 0 then 1 else 256 * Power256(n - 1)
  }

  lemma {:induction false} PackWordInjective(a: seq<Byte>, b: seq<Byte>)
    requires |a| == |b| <= 8 && PackWord(a) == PackWord(b)
    ensures a == b
  {
    if a != [] {
      PackWordInjective(a[1..], b[1..]);
      assert a == [a[0]] + a[1..] && b == [b[0]] + b[1..];
    }
  }

  lemma {:induction false} PackInjective(a: seq<Byte>, b: seq<Byte>)
    requires |a| == |b| && Pack(a) == Pack(b)
    ensures a == b
  {
    if a == [] {
    } else if |a| <= 8 {
      assert Pack(a)[0] == PackWord(a) && Pack(b)[0] == PackWord(b);
      PackWordInjective(a, b);
    } else {
      assert Pack(a)[0] == PackWord(a[..8]) && Pack(b)[0] == PackWord(b[..8]);
      assert Pack(a)[1..] == Pack(a[8..]) && Pack(b)[1..] == Pack(b[8..]);
      PackWordInjective(a[..8], b[..8]);
      PackInjective(a[8..], b[8..]);
      assert a == a[..8] + a[8..] && b == b[..8] + b[8..];
    }
  }

  // ---------------------------------------------------------------- the size and place of objects

  /** The number of words of an object. */
  function Words(s: Shape): (r: nat)
    ensures r > 0
  {
    match s
    case Ctor(_, kids, scalars) => 1 + |kids| + |scalars|
    case Array(kids) => 3 + |kids|
    case SArray(_, _, data) => 3 + (|data| + 7) / 8
    case Str(data, _) => 4 + (|data| + 7) / 8
  }

  /** The word at which object `i` starts; word 0 holds the root. */
  function Place(g: seq<Shape>, i: nat): (r: nat)
    requires i <= |g|
    ensures r > 0
  {
    if i == 0 then 1 else Place(g, i - 1) + Words(g[i - 1])
  }

  lemma {:induction false} PlaceMono(g: seq<Shape>, i: nat, j: nat)
    requires i < j <= |g|
    ensures Place(g, i) + Words(g[i]) <= Place(g, j)
  {
    if i + 1 < j { PlaceMono(g, i, j - 1); }
  }

  lemma {:induction false} PlacePrefix(g: seq<Shape>, h: seq<Shape>, i: nat)
    requires i <= |g| && i <= |h| && g[..i] == h[..i]
    ensures Place(g, i) == Place(h, i)
  {
    if i > 0 {
      assert g[..i - 1] == g[..i][..i - 1] == h[..i][..i - 1] == h[..i - 1];
      assert g[i - 1] == g[..i][i - 1] == h[..i][i - 1] == h[i - 1];
      PlacePrefix(g, h, i - 1);
    }
  }

  /** The whole region fits behind `base` in the address space. */
  predicate Fits(g: seq<Shape>, base: nat) {
    base % 8 == 0 && base + 8 * Place(g, |g|) < 0x1_0000_0000_0000_0000
  }

  function KidWord(g: seq<Shape>, base: nat, k: Kid): Word
    requires KidOk(k, |g|) && Fits(g, base)
  {
    match k
    case Boxed(n) => 2 * n + 1
    case Ref(j) => PlaceMono(g, j, |g|); base + 8 * Place(g, j)
  }

  function KidWords(g: seq<Shape>, base: nat, kids: seq<Kid>): (r: seq<Word>)
    requires Fits(g, base) && forall k :: 0 <= k < |kids| ==> KidOk(kids[k], |g|)
    ensures |r| == |kids|
  {
    seq(|kids|, k requires 0 <= k < |kids| => KidWord(g, base, kids[k]))
  }

  /** Different fields have different words, none of them the null offset. */
  lemma {:induction false} KidWordInjective(g: seq<Shape>, base: nat, a: Kid, b: Kid)
    requires Fits(g, base) && KidOk(a, |g|) && KidOk(b, |g|)
    ensures KidWord(g, base, a) == KidWord(g, base, b) ==> a == b
    ensures KidWord(g, base, a) != NULL_OFFSET
  {
    if a.Ref? && b.Ref? {
      if a.j < b.j { PlaceMono(g, a.j, b.j); } else if b.j < a.j { PlaceMono(g, b.j, a.j); }
    }
    if a.Ref? { assert KidWord(g, base, a) % 8 == 0; }
  }

  /** The words of an object whose fields are already words. */
  function Encode(s: Shape, kids: seq<Word>): (r: seq<Word>)
    requires EncodeOk(s) && |kids| == |Kids(s)|
    ensures |r| == Words(s)
  {
    match s
    case Ctor(tag, _, scalars) => [Header(8 * (1 + |kids| + |scalars|), |kids|, tag)] + kids + scalars
    case Array(_) => [Header(1, 0, TAG_ARRAY), |kids|, |kids|] + kids
    case SArray(e, n, data) => [Header(1, e, TAG_SARRAY), n, n] + Pack(data)
    case Str(data, length) => [Header(1, 0, TAG_STRING), |data|, |data|, length] + Pack(data)
  }

  /** Equal words come from equal objects. */
  lemma {:induction false} EncodeInjective(s: Shape, ks: seq<Word>, t: Shape, ts: seq<Word>)
    requires EncodeOk(s) && |ks| == |Kids(s)| && EncodeOk(t) && |ts| == |Kids(t)| && Encode(s, ks) == Encode(t, ts)
    ensures ks == ts && (s.Ctor? <==> t.Ctor?) && (s.Array? <==> t.Array?)
    ensures s.Ctor? ==> s.tag == t.tag && s.scalars == t.scalars
    ensures !s.Ctor? && !s.Array? ==> s == t
  {
    var x, y := Encode(s, ks), Encode(t, ts);
    assert x[0] == y[0];
    HeaderOf(s, ks);
    HeaderOf(t, ts);
    match s
    case Ctor(tag, _, scalars) =>
      assert t.Ctor?;
      assert x[1..1 + |ks|] == ks && y[1..1 + |ks|] == ts;
      assert x[1 + |ks|..] == scalars && y[1 + |ks|..] == t.scalars;
    case Array(_) =>
      assert t.Array? && x[1] == y[1];
      assert x[3..] == ks && y[3..] == ts;
    case SArray(e, n, data) =>
      assert t.SArray? && x[1] == y[1];
      assert x[3..] == Pack(data) && y[3..] == Pack(t.data);
      PackInjective(data, t.data);
    case Str(data, length) =>
      assert t.Str? && x[1] == y[1] && x[3] == y[3];
      assert x[4..] == Pack(data) && y[4..] == Pack(t.data);
      PackInjective(data, t.data);
  }

  lemma {:induction false} HeaderOf(s: Shape, ks: seq<Word>)
    requires EncodeOk(s) && |ks| == |Kids(s)|
    ensures var h := Encode(s, ks)[0];
      match s
      case Ctor(tag, kids, scalars) => TagOf(h) == tag && OtherOf(h) == |kids| && SizeOf(h) == 8 * (1 + |kids| + |scalars|)
      case Array(_) => TagOf(h) == TAG_ARRAY
      case SArray(e, _, _) => TagOf(h) == TAG_SARRAY && OtherOf(h) == e
      case Str(_, _) => TagOf(h) == TAG_STRING
  {
    match s
    case Ctor(tag, kids, scalars) => HeaderFields(8 * (1 + |kids| + |scalars|), |kids|, tag);
    case Array(_) => HeaderFields(1, 0, TAG_ARRAY);
    case SArray(e, _, _) => HeaderFields(1, e, TAG_SARRAY);
    case Str(_, _) => HeaderFields(1, 0, TAG_STRING);
  }

  lemma {:induction false} KidWordsInjective(g: seq<Shape>, base: nat, a: seq<Kid>, b: seq<Kid>)
    requires Fits(g, base) && (forall k :: 0 <= k < |a| ==> KidOk(a[k], |g|)) && (forall k :: 0 <= k < |b| ==> KidOk(b[k], |g|))
    requires KidWords(g, base, a) == KidWords(g, base, b)
    ensures a == b
  {
    assert |a| == |KidWords(g, base, a)| == |b|;
    forall k | 0 <= k < |a| ensures a[k] == b[k] {
      assert KidWords(g, base, a)[k] == KidWord(g, base, a[k]) && KidWords(g, base, b)[k] == KidWord(g, base, b[k]);
      KidWordInjective(g, base, a[k], b[k]);
    }
  }

  /** Two objects over the same region are equal exactly when their words are. */
  lemma {:induction false} SameWords(g: seq<Shape>, base: nat, s: Shape, t: Shape)
    requires Fits(g, base) && ShapeOk(s, |g|) && ShapeOk(t, |g|)
    ensures Encode(s, KidWords(g, base, Kids(s))) == Encode(t, KidWords(g, base, Kids(t))) <==> s == t
  {
    var ks, ts := KidWords(g, base, Kids(s)), KidWords(g, base, Kids(t));
    if Encode(s, ks) == Encode(t, ts) {
      EncodeInjective(s, ks, t, ts);
      KidWordsInjective(g, base, Kids(s), Kids(t));
    }
  }

  // ---------------------------------------------------------------- regions

  ghost predicate StoredAt(g: seq<Shape>, base: nat, mem: seq<Word>, i: nat)
    requires GraphOk(g) && Fits(g, base) && i < |g|
  {
    assert ShapeOk(g[i], i);
    var p := Place(g, i);
    p + Words(g[i]) <= |mem| && mem[p..p + Words(g[i])] == Encode(g[i], KidWords(g, base, Kids(g[i])))
  }

  /** `mem` holds the objects of `g` one behind the other, with addresses from `base` on. */
  ghost predicate Stored(g: seq<Shape>, base: nat, mem: seq<Word>) {
    && GraphOk(g) && Fits(g, base) && |mem| == Place(g, |g|)
    && forall i :: 0 <= i < |g| ==> StoredAt(g, base, mem, i)
  }

  lemma {:induction false} StoredWords(layout: seq<Shape>, base: nat, mem: seq<Word>, j: nat)
    requires Stored(layout, base, mem) && j < |layout|
    ensures GraphOk(layout) && Fits(layout, base) && Place(layout, j) + Words(layout[j]) <= |mem| && ShapeOk(layout[j], |layout|) && ShapeOk(layout[j], j)
    ensures mem[Place(layout, j)..Place(layout, j) + Words(layout[j])] == Encode(layout[j], KidWords(layout, base, Kids(layout[j])))
  {
    assert StoredAt(layout, base, mem, j) && ShapeOk(layout[j], j);
  }

  // ---------------------------------------------------------------- reading memory

  function UnpackWord(w: Word, n: nat): (r: seq<Byte>)
    requires n <= 8
    ensures |r| == n
  {
    if n == 0 then [] else [w % 256] + UnpackWord(w / 256, n - 1)
  }

  function Unpack(words: seq<Word>, n: nat): (r: seq<Byte>)
    requires |words| == (n + 7) / 8
    ensures |r| == n
  {
    if n == 0 then []
    else if n <= 8 then UnpackWord(words[0], n)
    else UnpackWord(words[0], 8) + Unpack(words[1..], n - 8)
  }

  lemma {:induction false} UnpackPackWord(data: seq<Byte>)
    requires |data| <= 8
    ensures UnpackWord(PackWord(data), |data|) == data
  {
    if data != [] {
      UnpackPackWord(data[1..]);
      assert PackWord(data) % 256 == data[0] && PackWord(data) / 256 == PackWord(data[1..]);
    }
  }

  lemma {:induction false} UnpackPack(data: seq<Byte>)
    ensures Unpack(Pack(data), |data|) == data
  {
    if data == [] {
    } else if |data| <= 8 {
      UnpackPackWord(data);
    } else {
      UnpackPackWord(data[..8]);
      UnpackPack(data[8..]);
      assert Pack(data)[1..] == Pack(data[8..]);
    }
  }

  /** The value a word stands for, by following addresses in memory that starts at `begin`;
      `None` when the memory is not well formed before word `limit`. */
  ghost function Unfold(mem: seq<Word>, begin: nat, w: Word, limit: nat): Option<Value>
    requires limit <= |mem|
    decreases limit, 0, 0
  {
    if w % 2 == 1 then Some(VScalar(w / 2))
    else if w < begin || (w - begin) % 8 != 0 || (w - begin) / 8 >= limit then None
    else UnfoldObject(mem, begin, (w - begin) / 8)
  }

  ghost function UnfoldObject(mem: seq<Word>, begin: nat, p: nat): Option<Value>
    requires p < |mem|
    decreases p, 1
  {
    var tag, other := TagOf(mem[p]), OtherOf(mem[p]);
    if tag <= MAX_CTOR_TAG then
      var words := SizeOf(mem[p]) / 8;
      if words < 1 + other || p + words > |mem| then None
      else
        var kids := UnfoldAll(mem, begin, mem[p + 1..p + 1 + other], p);
        if kids.None? then None else Some(VCtor(tag, kids.value, mem[p + 1 + other..p + words]))
    else if tag == TAG_ARRAY && p + 3 <= |mem| && p + 3 + mem[p + 1] <= |mem| then
      var kids := UnfoldAll(mem, begin, mem[p + 3..p + 3 + mem[p + 1]], p);
      if kids.None? then None else Some(VArray(kids.value))
    else if tag == TAG_SARRAY && p + 3 <= |mem| then
      var bytes: nat := ByteCount(other, mem[p + 1]);
      if p + 3 + (bytes + 7) / 8 > |mem| then None
      else Some(VSArray(other, mem[p + 1], Unpack(mem[p + 3..p + 3 + (bytes + 7) / 8], bytes)))
    else if tag == TAG_STRING && p + 4 <= |mem| then
      var bytes: nat := ByteCount(1, mem[p + 1]);
      if p + 4 + (bytes + 7) / 8 > |mem| then None
      else Some(VStr(Unpack(mem[p + 4..p + 4 + (bytes + 7) / 8], bytes), mem[p + 3]))
    else None
  }

  function ByteCount(elemSize: nat, n: nat): nat {
    elemSize * n
  }

  ghost function UnfoldAll(mem: seq<Word>, begin: nat, ws: seq<Word>, limit: nat): Option<seq<Value>>
    requires limit <= |mem|
    decreases limit, 0, |ws| + 1
  {
    if ws == [] then Some([])
    else
      var v, vs := Unfold(mem, begin, ws[0], limit), UnfoldAll(mem, begin, ws[1..], limit);
      if v.None? || vs.None? then None else Some([v.value] + vs.value)
  }

  lemma {:induction false} SubSlice(s: seq<Word>, a: nat, b: nat, c: nat, d: nat)
    requires a <= b <= |s| && c <= d <= b - a
    ensures s[a..b][c..d] == s[a + c..a + d]
  {
    var x, y := s[a..b][c..d], s[a + c..a + d];
    assert |x| == |y| == d - c;
    forall k | 0 <= k < d - c ensures x[k] == y[k] {
      assert x[k] == s[a..b][c + k] == s[a + c + k] == y[k];
    }
  }

  lemma {:induction false} MidSlice(a: seq<Word>, b: seq<Word>, c: seq<Word>)
    ensures (a + b + c)[|a|..|a| + |b|] == b && (a + b + c)[|a| + |b|..|a| + |b| + |c|] == c
  {
    var s, i, j := a + b + c, |a|, |a| + |b|;
    forall k | 0 <= k < |b| ensures s[i..j][k] == b[k] {
      assert s[i + k] == (a + b)[i + k] == b[k];
    }
    assert |s[i..j]| == |b|;
    forall k | 0 <= k < |c| ensures s[j..j + |c|][k] == c[k] {
      assert s[j + k] == c[k];
    }
  }

  lemma {:induction false} UnfoldCtor(mem: seq<Word>, begin: nat, p: nat, tag: nat, ks: seq<Word>, scalars: seq<Word>, vs: seq<Value>)
    requires tag <= MAX_CTOR_TAG && |ks| < 256 && 8 * (1 + |ks| + |scalars|) < 65536 && p + 1 + |ks| + |scalars| <= |mem|
    requires mem[p..p + 1 + |ks| + |scalars|] == [Header(8 * (1 + |ks| + |scalars|), |ks|, tag)] + ks + scalars
    requires UnfoldAll(mem, begin, ks, p) == Some(vs)
    ensures UnfoldObject(mem, begin, p) == Some(VCtor(tag, vs, scalars))
  {
    hide Header, Unfold, UnfoldAll, TagOf, OtherOf, SizeOf;
    var n, m := |ks|, |scalars|;
    var h := Header(8 * (1 + n + m), n, tag);
    HeaderFields(8 * (1 + n + m), n, tag);
    MidSlice([h], ks, scalars);
    SubSlice(mem, p, p + 1 + n + m, 1, 1 + n);
    SubSlice(mem, p, p + 1 + n + m, 1 + n, 1 + n + m);
    assert mem[p] == mem[p..p + 1 + n + m][0];
  }

  lemma {:induction false} UnfoldArray(mem: seq<Word>, begin: nat, p: nat, ks: seq<Word>, vs: seq<Value>)
    requires |ks| < 0x1000_0000_0000_0000 && p + 3 + |ks| <= |mem|
    requires mem[p..p + 3 + |ks|] == [Header(1, 0, TAG_ARRAY), |ks|, |ks|] + ks
    requires UnfoldAll(mem, begin, ks, p) == Some(vs)
    ensures UnfoldObject(mem, begin, p) == Some(VArray(vs))
  {
    var enc := mem[p..p + 3 + |ks|];
    HeaderFields(1, 0, TAG_ARRAY);
    assert mem[p] == enc[0] && mem[p + 1] == enc[1];
    assert mem[p + 3..p + 3 + |ks|] == enc[3..] == ks;
  }

  lemma {:induction false} UnfoldSArray(mem: seq<Word>, begin: nat, p: nat, e: nat, n: nat, data: seq<Byte>)
    requires e < 256 && n < 0x1000_0000_0000_0000 && |data| == e * n && p + 3 + (|data| + 7) / 8 <= |mem|
    requires mem[p..p + 3 + (|data| + 7) / 8] == [Header(1, e, TAG_SARRAY), n, n] + Pack(data)
    ensures UnfoldObject(mem, begin, p) == Some(VSArray(e, n, data))
  {
    var enc := mem[p..p + 3 + (|data| + 7) / 8];
    HeaderFields(1, e, TAG_SARRAY);
    assert mem[p] == enc[0] && mem[p + 1] == enc[1];
    assert mem[p + 3..p + 3 + (|data| + 7) / 8] == enc[3..] == Pack(data);
    UnpackPack(data);
  }

  lemma {:induction false} UnfoldStr(mem: seq<Word>, begin: nat, p: nat, data: seq<Byte>, length: nat)
    requires |data| < 0x1000_0000_0000_0000 && length < 0x1000_0000_0000_0000 && p + 4 + (|data| + 7) / 8 <= |mem|
    requires mem[p..p + 4 + (|data| + 7) / 8] == [Header(1, 0, TAG_STRING), |data|, |data|, length] + Pack(data)
    ensures UnfoldObject(mem, begin, p) == Some(VStr(data, length))
  {
    var enc := mem[p..p + 4 + (|data| + 7) / 8];
    HeaderFields(1, 0, TAG_STRING);
    assert mem[p] == enc[0] && mem[p + 1] == enc[1] && mem[p + 3] == enc[3];
    assert mem[p + 4..p + 4 + (|data| + 7) / 8] == enc[4..] == Pack(data);
    UnpackPack(data);
  }

  lemma {:induction false} UnfoldBoxed(mem: seq<Word>, begin: nat, n: nat, limit: nat)
    requires limit <= |mem| && 2 * n + 1 < 0x1_0000_0000_0000_0000
    ensures Unfold(mem, begin, 2 * n + 1, limit) == Some(VScalar(n))
  {
  }

  lemma {:induction false} UnfoldRef(mem: seq<Word>, begin: nat, q: nat, limit: nat)
    requires q < limit <= |mem| && begin % 8 == 0 && begin + 8 * q < 0x1_0000_0000_0000_0000
    ensures Unfold(mem, begin, begin + 8 * q, limit) == UnfoldObject(mem, begin, q)
  {
    assert (begin + 8 * q) % 8 == 0;
  }

  /** The value of an object whose fields have the values `vs`. */
  function ValueWith(s: Shape, vs: seq<Value>): Value {
    match s
    case Ctor(tag, _, scalars) => VCtor(tag, vs, scalars)
    case Array(_) => VArray(vs)
    case SArray(e, n, data) => VSArray(e, n, data)
    case Str(data, length) => VStr(data, length)
  }

  /** Reading the words of one object. */
  lemma {:induction false} UnfoldEncoded(s: Shape, mem: seq<Word>, base: nat, p: nat, ks: seq<Word>, vs: seq<Value>)
    requires EncodeOk(s) && |ks| == |Kids(s)| && p + Words(s) <= |mem| && mem[p..p + Words(s)] == Encode(s, ks)
    requires UnfoldAll(mem, base, ks, p) == Some(vs)
    ensures UnfoldObject(mem, base, p) == Some(ValueWith(s, vs))
  {
    hide UnfoldObject, UnfoldAll, Header, Pack;
    match s
    case Ctor(tag, _, scalars) => UnfoldCtor(mem, base, p, tag, ks, scalars, vs);
    case Array(_) => UnfoldArray(mem, base, p, ks, vs);
    case SArray(e, n, data) => UnfoldSArray(mem, base, p, e, n, data);
    case Str(data, length) => UnfoldStr(mem, base, p, data, length);
  }

  /** Reading a stored region gives back the values of its objects, at any address. */
  lemma {:induction false} UnfoldStored(g: seq<Shape>, base: nat, mem: seq<Word>, i: nat)
    requires Stored(g, base, mem) && i < |g|
    ensures Place(g, i) < |mem| && UnfoldObject(mem, base, Place(g, i)) == Some(ValueOf(g, i))
    decreases i, 1
  {
    hide Stored, StoredAt, UnfoldObject, UnfoldAll, Fits, KidWords, Encode, Place;
    StoredWords(g, base, mem, i);
    UnfoldKids(g, base, mem, Kids(g[i]), i);
    UnfoldEncoded(g[i], mem, base, Place(g, i), KidWords(g, base, Kids(g[i])), KidValues(g, Kids(g[i]), i));
  }

  lemma {:induction false} UnfoldRefKid(g: seq<Shape>, base: nat, mem: seq<Word>, j: nat, i: nat)
    requires Stored(g, base, mem) && j < i <= |g|
    ensures Place(g, i) <= |mem| && Unfold(mem, base, KidWord(g, base, Ref(j)), Place(g, i)) == Some(ValueOf(g, j))
    decreases i, 0, 0
  {
    hide UnfoldObject, StoredAt;
    if i < |g| { PlaceMono(g, i, |g|); }
    PlaceMono(g, j, i);
    UnfoldStored(g, base, mem, j);
    UnfoldRef(mem, base, Place(g, j), Place(g, i));
  }

  lemma {:induction false} UnfoldKid(g: seq<Shape>, base: nat, mem: seq<Word>, kid: Kid, i: nat)
    requires Stored(g, base, mem) && i <= |g| && KidOk(kid, i)
    ensures KidOk(kid, |g|) && Place(g, i) <= |mem|
    ensures Unfold(mem, base, KidWord(g, base, kid), Place(g, i)) == Some(KidValue(g, kid, i))
    decreases i, 0, 1
  {
    if i < |g| { PlaceMono(g, i, |g|); }
    hide UnfoldObject;
    match kid
    case Boxed(n) => UnfoldBoxed(mem, base, n, Place(g, i));
    case Ref(j) => UnfoldRefKid(g, base, mem, j, i);
  }

  lemma {:induction false} UnfoldKids(g: seq<Shape>, base: nat, mem: seq<Word>, kids: seq<Kid>, i: nat)
    requires Stored(g, base, mem) && i < |g| && (forall k :: 0 <= k < |kids| ==> KidOk(kids[k], i))
    ensures forall k :: 0 <= k < |kids| ==> KidOk(kids[k], |g|)
    ensures Place(g, i) < |mem| && UnfoldAll(mem, base, KidWords(g, base, kids), Place(g, i)) == Some(KidValues(g, kids, i))
    decreases i, 0, |kids| + 1
  {
    PlaceMono(g, i, |g|);
    if kids != [] {
      var rest := kids[1..];
      assert forall k :: 0 <= k < |rest| ==> rest[k] == kids[k + 1];
      assert KidWords(g, base, kids)[1..] == KidWords(g, base, rest);
      UnfoldKids(g, base, mem, rest, i);
      UnfoldKid(g, base, mem, kids[0], i);
    }
  }
}
