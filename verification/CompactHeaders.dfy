/** What the words of a region say beside the values they stand for: headers without a reference
    count, capacities, padding (`lean_set_non_heap_header`, runtime/compact.cpp). */
module CompactHeaders {
  import opened Prelude
  import opened CompactFormat

  /** The size of an object in words, from its header and its size field. */
  function ObjectWords(mem: seq<Word>, p: nat): nat
    requires p + 1 < |mem| || (p < |mem| && TagOf(mem[p]) <= MAX_CTOR_TAG)
  {
    var tag := TagOf(mem[p]);
    if tag <= MAX_CTOR_TAG then SizeOf(mem[p]) / 8
    else if tag == TAG_ARRAY then 3 + mem[p + 1]
    else if tag == TAG_SARRAY then 3 + (ByteCount(OtherOf(mem[p]), mem[p + 1]) + 7) / 8
    else 4 + (ByteCount(1, mem[p + 1]) + 7) / 8
  }

  /** The low half of a header is the reference count; zero marks an object outside the heap. */
  predicate NoRefCount(w: Word) {
    w % 0x1_0000_0000 == 0
  }

  /** The unused bytes of the last of the words for `bytes` bytes are zero. */
  predicate Padded(words: seq<Word>, bytes: nat)
    requires |words| == (bytes + 7) / 8
  {
    bytes % 8 != 0 ==> words[|words| - 1] < Power256(bytes % 8)
  }

  /** A small object gives its whole size in bytes, a big one says 1 and has its size and its
      capacity, which are equal, in the next two words. */
  predicate ObjectOk(mem: seq<Word>, p: nat)
    requires p < |mem|
  {
    var tag, other := TagOf(mem[p]), OtherOf(mem[p]);
    && NoRefCount(mem[p])
    && if tag <= MAX_CTOR_TAG then SizeOf(mem[p]) % 8 == 0 && SizeOf(mem[p]) >= 8 * (1 + other)
       else
         && (tag == TAG_ARRAY || tag == TAG_SARRAY || tag == TAG_STRING) && (tag != TAG_SARRAY ==> other == 0)
         && SizeOf(mem[p]) == 1 && p + 2 < |mem| && mem[p + 2] == mem[p + 1]
  }

  /** The data of a scalar array or a string. */
  predicate DataOk(mem: seq<Word>, p: nat)
    requires p < |mem| && ObjectOk(mem, p)
  {
    var tag := TagOf(mem[p]);
    if tag == TAG_SARRAY || tag == TAG_STRING then
      var elem, start := if tag == TAG_SARRAY then OtherOf(mem[p]) else 1, if tag == TAG_SARRAY then p + 3 else p + 4;
      var bytes: nat := ByteCount(elem, mem[p + 1]);
      start + (bytes + 7) / 8 <= |mem| && Padded(mem[start..start + (bytes + 7) / 8], bytes)
    else true
  }

  /** From word `p` on the region consists of such objects, one behind the other, up to its end. */
  ghost predicate ObjectsFrom(mem: seq<Word>, p: nat)
    decreases |mem| - p
  {
    p == |mem|
    || (p < |mem| && ObjectOk(mem, p) && DataOk(mem, p)
        && var n := ObjectWords(mem, p); n > 0 && p + n <= |mem| && ObjectsFrom(mem, p + n))
  }

  // ---------------------------------------------------------------- encoded objects

  lemma {:induction false} HeaderNoRefCount(size: nat, other: nat, tag: nat)
    requires size < 65536 && other < 256 && tag < 256
    ensures NoRefCount(Header(size, other, tag))
  {
    var x := size + 65536 * other + 16777216 * tag;
    assert Header(size, other, tag) == x * 0x1_0000_0000;
  }

  lemma {:induction false} ShortPadded(data: seq<Byte>)
    requires |data| <= 8
    ensures Padded(Pack(data), |data|)
  {
    hide Power256;
    if 0 < |data| < 8 { assert |data| % 8 == |data|; }
  }

  lemma {:induction false} LongPack(data: seq<Byte>)
    requires |data| > 8
    ensures Pack(data) == [PackWord(data[..8])] + Pack(data[8..]) && |data| % 8 == (|data| - 8) % 8
  {
  }

  lemma {:induction false} PackPadded(data: seq<Byte>)
    ensures Padded(Pack(data), |data|)
  {
    hide Pack, PackWord, Power256;
    if |data| <= 8 {
      ShortPadded(data);
    } else {
      PackPadded(data[8..]);
      LongPack(data);
      var words, rest := Pack(data), Pack(data[8..]);
      if |data| % 8 != 0 { assert words[|words| - 1] == rest[|rest| - 1]; }
    }
  }

  /** The header words of a big object. */
  lemma {:induction false} BigWords(mem: seq<Word>, p: nat, other: nat, tag: nat, n: Word)
    requires tag == TAG_ARRAY || tag == TAG_SARRAY || tag == TAG_STRING
    requires other < 256 && (tag != TAG_SARRAY ==> other == 0)
    requires p + 2 < |mem| && mem[p] == Header(1, other, tag) && mem[p + 1] == n && mem[p + 2] == n
    ensures ObjectOk(mem, p) && TagOf(mem[p]) == tag && OtherOf(mem[p]) == other
  {
    hide Header, NoRefCount, TagOf, OtherOf, SizeOf;
    HeaderFields(1, other, tag);
    HeaderNoRefCount(1, other, tag);
  }

  /** The words of one object, wherever they are. */
  lemma {:induction false} EncodedOk(s: Shape, ks: seq<Word>, mem: seq<Word>, p: nat)
    requires EncodeOk(s) && |ks| == |Kids(s)| && p + Words(s) <= |mem| && mem[p..p + Words(s)] == Encode(s, ks)
    ensures p < |mem| && ObjectOk(mem, p) && DataOk(mem, p) && ObjectWords(mem, p) == Words(s)
  {
    hide Header, NoRefCount, TagOf, OtherOf, SizeOf, Pack, Padded;
    var enc, n := Encode(s, ks), Words(s);
    assert mem[p] == mem[p..p + n][0] == enc[0];
    if !s.Ctor? { assert mem[p + 1] == mem[p..p + n][1] == enc[1] && mem[p + 2] == mem[p..p + n][2] == enc[2]; }
    match s
    case Ctor(tag, _, scalars) =>
      HeaderFields(8 * (1 + |ks| + |scalars|), |ks|, tag);
      HeaderNoRefCount(8 * (1 + |ks| + |scalars|), |ks|, tag);
    case Array(_) => BigWords(mem, p, 0, TAG_ARRAY, |ks|);
    case SArray(e, size, data) =>
      BigWords(mem, p, e, TAG_SARRAY, size);
      PackPadded(data);
      SubSlice(mem, p, p + n, 3, n);
      assert enc[3..n] == Pack(data);
    case Str(data, _) =>
      BigWords(mem, p, 0, TAG_STRING, |data|);
      PackPadded(data);
      SubSlice(mem, p, p + n, 4, n);
      assert enc[4..n] == Pack(data);
  }

  lemma {:induction false} StoredEnd(g: seq<Shape>, base: nat, mem: seq<Word>)
    requires Stored(g, base, mem)
    ensures |mem| == Place(g, |g|)
  {
  }

  /** A stored region consists of objects without reference counts, from its second word to its end. */
  lemma {:induction false} StoredObjects(g: seq<Shape>, base: nat, mem: seq<Word>, i: nat)
    requires Stored(g, base, mem) && i <= |g|
    ensures ObjectsFrom(mem, Place(g, i))
    decreases |g| - i
  {
    hide Stored, Encode, ObjectOk, DataOk, ObjectWords, KidWords, Fits;
    if i == |g| {
      StoredEnd(g, base, mem);
    } else {
      StoredWords(g, base, mem, i);
      EncodedOk(g[i], KidWords(g, base, Kids(g[i])), mem, Place(g, i));
      StoredObjects(g, base, mem, i + 1);
    }
  }

  /** No object of a stored region has a reference count, and capacities equal sizes. */
  lemma {:induction false} StoredHeader(g: seq<Shape>, base: nat, mem: seq<Word>, i: nat)
    requires Stored(g, base, mem) && i < |g|
    ensures var p := Place(g, i);
      && p < |mem| && mem[p] % 0x1_0000_0000 == 0
      && (!g[i].Ctor? ==> p + 2 < |mem| && mem[p + 2] == mem[p + 1])
  {
    StoredWords(g, base, mem, i);
    EncodedOk(g[i], KidWords(g, base, Kids(g[i])), mem, Place(g, i));
    var p, s := Place(g, i), g[i];
    var enc := Encode(s, KidWords(g, base, Kids(s)));
    if !s.Ctor? {
      assert mem[p..p + Words(s)][1] == enc[1] && mem[p..p + Words(s)][2] == enc[2];
    }
  }
}
