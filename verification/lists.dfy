/**
 * The array operations the store mutations are built from, on sequences:
 * `findIndex`/`find` by id, `filter` dropping an id, replacement of the first
 * match, and the pair of `splice` calls that moves one element.
 * Elements are identified through an accessor `idOf`, so the same
 * definitions serve tasks and projects.
 */
module Lists {

  datatype Option<T> = None | Some(value: T)

  /** `i` is the position `findIndex` stops at when looking for `id`. */
  ghost predicate FirstMatch<T>(s: seq<T>, idOf: T -> int, id: int, i: int) {
    0 <= i < |s| && idOf(s[i]) == id && forall j :: 0 <= j < i ==> idOf(s[j]) != id
  }

  /** `s.findIndex(x => idOf(x) === id)`: the first matching index, or -1. */
  function FindIndex<T>(s: seq<T>, idOf: T -> int, id: int): (r: int)
    ensures -1 <= r < |s|
    ensures r == -1 <==> forall i :: 0 <= i < |s| ==> idOf(s[i]) != id
    ensures r != -1 ==> FirstMatch(s, idOf, id, r)
  {
    if s == [] then -1
    else if idOf(s[0]) == id then 0
    else
      var k := FindIndex(s[1..], idOf, id);
      if k == -1 then -1 else k + 1
  }

  /** `s.find(x => idOf(x) === id)`: the first matching element, or nothing. */
  function Find<T>(s: seq<T>, idOf: T -> int, id: int): (r: Option<T>)
    ensures r.None? <==> forall i :: 0 <= i < |s| ==> idOf(s[i]) != id
    ensures r.Some? ==> idOf(r.value) == id
    ensures r.Some? ==> exists i :: FirstMatch(s, idOf, id, i) && s[i] == r.value
  {
    var k := FindIndex(s, idOf, id);
    if k == -1 then None else Some(s[k])
  }

  /**
   * `const i = s.findIndex(x => idOf(x) === idOf(x')); if (i !== -1) s[i] = x'`:
   * the first element with the id of `x` is replaced by `x`; nothing else moves.
   */
  function ReplaceFirst<T>(s: seq<T>, idOf: T -> int, x: T): (r: seq<T>)
    ensures |r| == |s|
    ensures (forall i :: 0 <= i < |s| ==> idOf(s[i]) != idOf(x)) ==> r == s
    ensures forall i :: FirstMatch(s, idOf, idOf(x), i) ==> r == s[i := x]
  {
    var k := FindIndex(s, idOf, idOf(x));
    if k == -1 then s else s[k := x]
  }

  /** `s.filter(x => idOf(x) !== id)`. */
  function RemoveAll<T(!new)>(s: seq<T>, idOf: T -> int, id: int): (r: seq<T>)
    ensures |r| <= |s|
    ensures forall i :: 0 <= i < |r| ==> idOf(r[i]) != id
    ensures multiset(r) <= multiset(s)
  {
    if s == [] then []
    else
      assert s == [s[0]] + s[1..];
      (if idOf(s[0]) == id then [] else [s[0]]) + RemoveAll(s[1..], idOf, id)
  }

  /**
   * The index `splice` actually starts at for a relative `start`: a negative
   * value counts back from the end, and the result is clamped to [0, len].
   */
  function SpliceStart(len: nat, start: int): (r: nat)
    ensures r <= len
    ensures 0 <= start <= len ==> r == start
    ensures start > len ==> r == len
    ensures start < 0 && 0 <= len as int + start ==> r == len as int + start
    ensures len as int + start < 0 ==> r == 0
  {
    if start < 0 then (if len + start < 0 then 0 else len + start)
    else if start < len then start
    else len
  }

  /** `s.splice(i, 1)` for an index inside the sequence: what remains. */
  function RemoveAt<T>(s: seq<T>, i: nat): (r: seq<T>)
    requires i < |s|
    ensures |r| == |s| - 1
  {
    s[..i] + s[i + 1..]
  }

  /** `s.splice(i, 0, x)` for a clamped index: `x` inserted before position `i`. */
  function InsertAt<T>(s: seq<T>, i: nat, x: T): (r: seq<T>)
    requires i <= |s|
    ensures |r| == |s| + 1 && r[i] == x
  {
    s[..i] + [x] + s[i..]
  }

  /**
   * `const [m] = s.splice(from, 1); s.splice(to, 0, m)`: the element at the
   * (relative) index `from` is taken out and put back at the (relative)
   * index `to` of the shortened sequence. `from` must name an element.
   */
  function Move<T>(s: seq<T>, from: int, to: int): (r: seq<T>)
    requires -|s| <= from < |s|
    ensures |r| == |s|
    ensures r[SpliceStart(|s| - 1, to)] == s[SpliceStart(|s|, from)]
  {
    var f := SpliceStart(|s|, from);
    InsertAt(RemoveAt(s, f), SpliceStart(|s| - 1, to), s[f])
  }

  // ---------------------------------------------------------------------
  // Lemmas about replacement

  /** Replacing never changes which id sits at which position. */
  lemma ReplaceFirstKeepsIds<T>(s: seq<T>, idOf: T -> int, x: T)
    ensures var r := ReplaceFirst(s, idOf, x);
      forall i :: 0 <= i < |s| ==> idOf(r[i]) == idOf(s[i])
  {
  }

  /** After a replacement a lookup of that id finds the new element, if the id was there at all. */
  lemma FindAfterReplaceFirst<T>(s: seq<T>, idOf: T -> int, x: T)
    ensures Find(ReplaceFirst(s, idOf, x), idOf, idOf(x)) ==
      if Find(s, idOf, idOf(x)).Some? then Some(x) else None
  {
  }

  /** A lookup of any other id is unaffected by a replacement. */
  lemma FindOtherAfterReplaceFirst<T>(s: seq<T>, idOf: T -> int, x: T, id: int)
    requires id != idOf(x)
    ensures Find(ReplaceFirst(s, idOf, x), idOf, id) == Find(s, idOf, id)
  {
    var r := ReplaceFirst(s, idOf, x);
    ReplaceFirstKeepsIds(s, idOf, x);
    var k := FindIndex(s, idOf, id);
    var k' := FindIndex(r, idOf, id);
    if k != -1 {
      assert FirstMatch(s, idOf, id, k);
      assert FirstMatch(r, idOf, id, k);
      assert k' == k;
      var m := FindIndex(s, idOf, idOf(x));
      if m != -1 {
        assert FirstMatch(s, idOf, idOf(x), m);
        assert r == s[m := x];
        assert m != k;
      }
    }
  }

  // ---------------------------------------------------------------------
  // Lemmas about filtering

  /** Filtering distributes over concatenation: the kept elements stay in their order. */
  lemma {:induction false} RemoveAllAppend<T(!new)>(a: seq<T>, b: seq<T>, idOf: T -> int, id: int)
    ensures RemoveAll(a + b, idOf, id) == RemoveAll(a, idOf, id) + RemoveAll(b, idOf, id)
  {
    if a == [] {
      assert a + b == b;
    } else {
      var head := if idOf(a[0]) == id then [] else [a[0]];
      assert (a + b)[0] == a[0];
      assert (a + b)[1..] == a[1..] + b;
      RemoveAllAppend(a[1..], b, idOf, id);
      calc {
        RemoveAll(a + b, idOf, id);
        head + RemoveAll(a[1..] + b, idOf, id);
        head + (RemoveAll(a[1..], idOf, id) + RemoveAll(b, idOf, id));
        (head + RemoveAll(a[1..], idOf, id)) + RemoveAll(b, idOf, id);
      }
    }
  }

  /** Filtering keeps every occurrence of every element whose id differs, and none of the others. */
  lemma {:induction false} RemoveAllCount<T(!new)>(s: seq<T>, idOf: T -> int, id: int, x: T)
    ensures multiset(RemoveAll(s, idOf, id))[x] == if idOf(x) == id then 0 else multiset(s)[x]
  {
    if s != [] {
      assert s == [s[0]] + s[1..];
      RemoveAllCount(s[1..], idOf, id, x);
    }
  }

  /** With no element carrying `id`, filtering it out changes nothing. */
  lemma {:induction false} RemoveAllAbsent<T(!new)>(s: seq<T>, idOf: T -> int, id: int)
    requires forall i :: 0 <= i < |s| ==> idOf(s[i]) != id
    ensures RemoveAll(s, idOf, id) == s
  {
    if s != [] {
      RemoveAllAbsent(s[1..], idOf, id);
    }
  }

  /** Deleting an id twice is the same as deleting it once. */
  lemma RemoveAllIdempotent<T(!new)>(s: seq<T>, idOf: T -> int, id: int)
    ensures RemoveAll(RemoveAll(s, idOf, id), idOf, id) == RemoveAll(s, idOf, id)
  {
    RemoveAllAbsent(RemoveAll(s, idOf, id), idOf, id);
  }

  /** Deleting an element whose id was fresh when it was appended restores the sequence. */
  lemma RemoveAllUndoesAppend<T(!new)>(s: seq<T>, idOf: T -> int, x: T)
    requires forall i :: 0 <= i < |s| ==> idOf(s[i]) != idOf(x)
    ensures RemoveAll(s + [x], idOf, idOf(x)) == s
  {
    RemoveAllAppend(s, [x], idOf, idOf(x));
    RemoveAllAbsent(s, idOf, idOf(x));
    assert RemoveAll([x], idOf, idOf(x)) == [];
  }

  // ---------------------------------------------------------------------
  // Lemmas about moving

  /** Removing what was just inserted gives back the sequence. */
  lemma RemoveAtInsertAt<T>(s: seq<T>, i: nat, x: T)
    requires i <= |s|
    ensures RemoveAt(InsertAt(s, i, x), i) == s
  {
  }

  /** Putting a removed element back where it was gives back the sequence. */
  lemma InsertAtRemoveAt<T>(s: seq<T>, i: nat)
    requires i < |s|
    ensures InsertAt(RemoveAt(s, i), i, s[i]) == s
  {
  }

  /** Taking the moved element back out of the result leaves the same shortened sequence. */
  lemma MoveKeepsOthersInOrder<T>(s: seq<T>, from: int, to: int)
    requires -|s| <= from < |s|
    ensures RemoveAt(Move(s, from, to), SpliceStart(|s| - 1, to)) == RemoveAt(s, SpliceStart(|s|, from))
  {
  }

  /** Moving only rearranges: the result holds the same elements, each as often as before. */
  lemma MovePermutes<T>(s: seq<T>, from: int, to: int)
    requires -|s| <= from < |s|
    ensures multiset(Move(s, from, to)) == multiset(s)
  {
    var f := SpliceStart(|s|, from);
    var u := RemoveAt(s, f);
    var t := SpliceStart(|s| - 1, to);
    assert s == s[..f] + [s[f]] + s[f + 1..];
    assert multiset(u) + multiset{s[f]} == multiset(s);
    assert u == u[..t] + u[t..];
    assert multiset(InsertAt(u, t, s[f])) == multiset(u) + multiset{s[f]};
  }

  /** A target index at or beyond the end appends the moved element. */
  lemma MovePastEndAppends<T>(s: seq<T>, from: int, to: int)
    requires -|s| <= from < |s|
    requires to >= |s| - 1
    ensures Move(s, from, to) == RemoveAt(s, SpliceStart(|s|, from)) + [s[SpliceStart(|s|, from)]]
  {
  }

  /** Moving an element from `from` to `to` and back again restores the sequence. */
  lemma MoveBack<T>(s: seq<T>, from: int, to: int)
    requires 0 <= from < |s| && 0 <= to < |s|
    ensures Move(Move(s, from, to), to, from) == s
  {
    var r := Move(s, from, to);
    assert SpliceStart(|s|, from) == from && SpliceStart(|s| - 1, from) == from;
    assert SpliceStart(|s|, to) == to && SpliceStart(|s| - 1, to) == to;
    RemoveAtInsertAt(RemoveAt(s, from), to, s[from]);
    assert Move(r, to, from) == InsertAt(RemoveAt(s, from), from, s[from]);
    InsertAtRemoveAt(s, from);
  }
}
