/** Writing a region and reading it back, at any address (runtime/compact.cpp). */
module CompactRoundTrip {
  import opened Prelude
  import opened CompactFormat
  import opened CompactHeaders
  import opened Compactor
  import opened CompactReader

  /** The objects below `root` are compacted for the address `base` and read at the address `begin`:
      the word read unfolds to the value of `root`. */
  method CompactAndRead(heap: seq<Shape>, root: Kid, base: nat, begin: nat, capacity: nat) returns (mem: array<Word>, w: Word)
    requires GraphOk(heap) && Fits(heap, base) && Fits(heap, begin) && KidOk(root, |heap|) && 0 < capacity
    ensures mem.Length <= Place(heap, |heap|)
    ensures ObjectsFrom(mem[..], 1)
    ensures Unfold(mem[..], begin, w, mem.Length) == Some(KidValue(heap, root, |heap|))
  {
    var c := new ObjectCompactor(heap, base, capacity);
    ghost var r := c.Compact(root);
    var words := c.buf[..c.end];
    mem := new Word[c.end](i requires 0 <= i < |words| => words[i]);
    assert mem[..] == words;
    hide Stored, Unfold, KidValue;
    StoredRoom(c.layout, base, words);
    var region := new Region(mem, begin, base);
    var res := region.Read(c.layout, r);
    w := res.value;
    StoredObjects(c.layout, begin, mem[..], 0);
  }

  lemma {:induction false} StoredRoom(g: seq<Shape>, base: nat, mem: seq<Word>)
    requires Stored(g, base, mem)
    ensures GraphOk(g) && Fits(g, base) && |mem| == Place(g, |g|) > 0
  {
  }
}
