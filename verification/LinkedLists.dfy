/** Intrusive linked lists in a flat memory. Address 0 is the null pointer. Every object is in at
    most one list; `lists` and `location` are the abstract view of the pointers in `next`. */
module LinkedLists {
  /** Where an object is: handed out, in the free list of a page, or on its way home. */
  datatype Place =
    | Held
    | Free(page: nat)
    | ToExport(heap: nat)
    | Grouping(heap: nat)
    | Exporting(heap: nat, target: nat)
    | ToImport(heap: nat)
    | Importing(heap: nat)

  type Lists = map<Place, seq<nat>>

  function Head(s: seq<nat>): nat {
    if s == [] then 0 else s[0]
  }

  function At(lists: Lists, pl: Place): seq<nat> {
    if pl in lists then lists[pl] else []
  }

  ghost predicate LinkAt(next: map<nat, nat>, s: seq<nat>, i: nat)
    requires i < |s|
  {
    s[i] != 0 && s[i] in next && next[s[i]] == Head(s[i + 1..])
  }

  /** The `next` pointers run through `s` and end in null. */
  ghost predicate Linked(next: map<nat, nat>, s: seq<nat>) {
    forall i :: 0 <= i < |s| ==> LinkAt(next, s, i)
  }

  ghost predicate NoDup(s: seq<nat>) {
    forall i, j :: 0 <= i < j < |s| ==> s[i] != s[j]
  }

  ghost predicate ListOk(next: map<nat, nat>, lists: Lists, location: map<nat, Place>, pl: Place) {
    var s := At(lists, pl);
    && Linked(next, s) && NoDup(s) && (pl == Held ==> s == [])
    && forall o :: o in s ==> o in location && location[o] == pl
  }

  /** Each object is listed exactly where `location` says. */
  ghost predicate ObjectsOk(next: map<nat, nat>, lists: Lists, location: map<nat, Place>) {
    && (forall pl :: ListOk(next, lists, location, pl))
    && (forall o :: o in location && location[o] != Held ==> o in At(lists, location[o]))
    && forall o :: o in location ==> o != 0
  }

  lemma {:induction false} LinkedCons(next: map<nat, nat>, o: nat, s: seq<nat>)
    requires Linked(next, s) && o !in s && o != 0 && NoDup(s)
    ensures Linked(next[o := Head(s)], [o] + s) && NoDup([o] + s)
  {
    var t, next' := [o] + s, next[o := Head(s)];
    forall i | 0 <= i < |t| ensures LinkAt(next', t, i) {
      if i == 0 {
        assert t[1..] == s;
      } else {
        assert LinkAt(next, s, i - 1);
        assert t[i + 1..] == s[i..];
      }
    }
  }

  lemma {:induction false} LinkedTail(next: map<nat, nat>, s: seq<nat>)
    requires Linked(next, s) && NoDup(s) && s != []
    ensures s[0] in next && next[s[0]] == Head(s[1..]) && Linked(next, s[1..]) && NoDup(s[1..]) && s[0] !in s[1..]
  {
    assert LinkAt(next, s, 0);
    forall i | 0 <= i < |s[1..]| ensures LinkAt(next, s[1..], i) {
      assert LinkAt(next, s, i + 1);
      assert s[1..][i + 1..] == s[i + 2..];
    }
  }

  lemma {:induction false} LinkedFrame(next: map<nat, nat>, next': map<nat, nat>, s: seq<nat>)
    requires Linked(next, s)
    requires forall o :: o in s && o in next ==> o in next' && next'[o] == next[o]
    ensures Linked(next', s)
  {
    forall i | 0 <= i < |s| ensures LinkAt(next', s, i) {
      assert LinkAt(next, s, i);
    }
  }

  /** Push a held object onto a list. */
  lemma {:induction false} Push(next: map<nat, nat>, lists: Lists, location: map<nat, Place>, pl: Place, o: nat)
    requires ObjectsOk(next, lists, location) && o in location && location[o] == Held && pl != Held
    ensures ObjectsOk(next[o := Head(At(lists, pl))], lists[pl := [o] + At(lists, pl)], location[o := pl])
  {
    var s := At(lists, pl);
    var next', lists', location' := next[o := Head(s)], lists[pl := [o] + s], location[o := pl];
    forall q ensures ListOk(next', lists', location', q) {
      assert ListOk(next, lists, location, q);
      if q == pl {
        LinkedCons(next, o, s);
      } else {
        LinkedFrame(next, next', At(lists, q));
      }
    }
    forall a | a in location' && location'[a] != Held ensures a in At(lists', location'[a]) { }
  }

  /** Pop the first object of a list; it is held afterwards. */
  lemma {:induction false} Pop(next: map<nat, nat>, lists: Lists, location: map<nat, Place>, pl: Place)
    requires ObjectsOk(next, lists, location) && At(lists, pl) != []
    ensures var s := At(lists, pl);
      && s[0] in next && s[0] in location && location[s[0]] == pl && next[s[0]] == Head(s[1..])
      && ObjectsOk(next, lists[pl := s[1..]], location[s[0] := Held])
  {
    var s := At(lists, pl);
    var o := s[0];
    var lists', location' := lists[pl := s[1..]], location[o := Held];
    assert ListOk(next, lists, location, pl);
    LinkedTail(next, s);
    forall q ensures ListOk(next, lists', location', q) {
      assert ListOk(next, lists, location, q);
    }
    forall a | a in location' && location'[a] != Held ensures a in At(lists', location'[a]) {
      if location[a] == pl {
        assert a in s && a != s[0];
        assert s == [s[0]] + s[1..];
      }
    }
  }

  /** The contents of two places move to the second one, the first list in front. */
  function Relocate(location: map<nat, Place>, s: seq<nat>, pl: Place): map<nat, Place> {
    map o | o in location :: if o in s then pl else location[o]
  }

  lemma {:induction false} LinkedConcat(next: map<nat, nat>, s: seq<nat>, t: seq<nat>)
    requires Linked(next, s) && Linked(next, t) && NoDup(s) && NoDup(t) && s != []
    requires forall o :: o in s ==> o !in t
    ensures Linked(next[s[|s| - 1] := Head(t)], s + t) && NoDup(s + t)
  {
    var u, next' := s + t, next[s[|s| - 1] := Head(t)];
    forall i | 0 <= i < |u| ensures LinkAt(next', u, i) {
      if i < |s| - 1 {
        assert LinkAt(next, s, i);
        assert u[i] == s[i] != s[|s| - 1];
        assert u[i + 1..][0] == s[i + 1..][0];
      } else if i == |s| - 1 {
        assert LinkAt(next, s, i);
        assert u[i + 1..] == t;
      } else {
        assert LinkAt(next, t, i - |s|);
        assert s[|s| - 1] in s && u[i] == t[i - |s|] && u[i] in t;
        assert u[i + 1..] == t[i - |s| + 1..];
      }
    }
    forall i, j | 0 <= i < j < |u| ensures u[i] != u[j] {
      if i < |s| <= j { assert s[i] in s && t[j - |s|] in t; }
    }
  }

  /** Append the list at `to` behind the non-empty list at `from`, by one pointer write. */
  lemma {:induction false} Splice(next: map<nat, nat>, lists: Lists, location: map<nat, Place>, from: Place, to: Place)
    requires ObjectsOk(next, lists, location) && from != to && to != Held && At(lists, from) != []
    ensures var s, t := At(lists, from), At(lists, to);
      ObjectsOk(next[s[|s| - 1] := Head(t)], lists[from := []][to := s + t], Relocate(location, s, to))
  {
    var s, t := At(lists, from), At(lists, to);
    var next', lists', location' := next[s[|s| - 1] := Head(t)], lists[from := []][to := s + t], Relocate(location, s, to);
    assert ListOk(next, lists, location, from) && ListOk(next, lists, location, to);
    LinkedConcat(next, s, t);
    forall q ensures ListOk(next', lists', location', q) {
      assert ListOk(next, lists, location, q);
      if q != from && q != to { LinkedFrame(next, next', At(lists, q)); }
    }
    forall a | a in location' && location'[a] != Held ensures a in At(lists', location'[a]) {
      assert a in location;
    }
  }

  /** Move a whole list to an empty place. */
  lemma {:induction false} MoveAll(next: map<nat, nat>, lists: Lists, location: map<nat, Place>, from: Place, to: Place)
    requires ObjectsOk(next, lists, location) && from != to && from != Held && to != Held && At(lists, to) == []
    ensures ObjectsOk(next, lists[from := []][to := At(lists, from)], Relocate(location, At(lists, from), to))
  {
    var s := At(lists, from);
    var lists', location' := lists[from := []][to := s], Relocate(location, s, to);
    forall q ensures ListOk(next, lists', location', q) {
      assert ListOk(next, lists, location, q);
      assert ListOk(next, lists, location, from);
    }
    forall a | a in location' && location'[a] != Held ensures a in At(lists', location'[a]) {
      assert a in location;
    }
  }

  /** All objects of `s` at one place. */
  function AllAt(s: seq<nat>, pl: Place): map<nat, Place> {
    map o | o in s :: pl
  }

  /** A list of new objects. */
  lemma {:induction false} NewList(next: map<nat, nat>, lists: Lists, location: map<nat, Place>, next': map<nat, nat>, pl: Place, s: seq<nat>)
    requires ObjectsOk(next, lists, location) && At(lists, pl) == [] && pl != Held
    requires Linked(next', s) && NoDup(s) && forall o :: o in s ==> o !in location
    requires forall o :: o in location && o in next ==> o in next' && next'[o] == next[o]
    ensures ObjectsOk(next', lists[pl := s], location + AllAt(s, pl))
  {
    var lists', location' := lists[pl := s], location + AllAt(s, pl);
    forall q ensures ListOk(next', lists', location', q) {
      assert ListOk(next, lists, location, q);
      if q != pl { LinkedFrame(next, next', At(lists, q)); }
    }
    forall a | a in location' ensures a != 0 && (location'[a] != Held ==> a in At(lists', location'[a])) {
      if a in s {
        var i :| 0 <= i < |s| && s[i] == a;
        assert LinkAt(next', s, i);
      } else {
        assert a in location;
      }
    }
  }
}
