/**
 * The comparator `sortTasks` hands to `Array.prototype.sort`, and the sort
 * itself. A field is read by name; two strings are compared with a string
 * order, anything else by subtraction; a subtraction that is not a number
 * (a name that is no field of a task) counts as "equal", as ECMAScript's
 * SortCompare does with NaN. The sort is stable, as ECMAScript requires.
 */
module TaskOrder {
  import opened Types

  datatype SortOrder = Asc | Desc

  /** What `task[key]` yields: a number, a string, or `undefined`. */
  datatype FieldValue = Num(n: int) | Str(s: string) | Undefined

  function FieldOf(t: Task, key: string): (r: FieldValue)
    ensures r.Num? <==> key == "id" || key == "projectId"
    ensures r.Str? <==> key in ["title", "assignee", "status", "dueDate"]
    ensures key == "status" ==> r == Str(t.status.Name())
    ensures r.Num? ==> r.n == if key == "id" then t.id else t.projectId
  {
    if key == "id" then Num(t.id)
    else if key == "projectId" then Num(t.projectId)
    else if key == "title" then Str(t.title)
    else if key == "assignee" then Str(t.assignee)
    else if key == "status" then Str(t.status.Name())
    else if key == "dueDate" then Str(t.dueDate)
    else Undefined
  }

  /**
   * The string order standing in for `localeCompare`: code-point
   * lexicographic order, negative, zero or positive.
   */
  function StrCompare(a: string, b: string): (r: int)
    ensures -1 <= r <= 1
    ensures r == 0 <==> a == b
  {
    if a == [] && b == [] then 0
    else if a == [] then -1
    else if b == [] then 1
    else if a[0] < b[0] then -1
    else if b[0] < a[0] then 1
    else
      assert a == [a[0]] + a[1..] && b == [b[0]] + b[1..];
      StrCompare(a[1..], b[1..])
  }

  lemma {:induction false} StrCompareFlip(a: string, b: string)
    ensures StrCompare(b, a) == -StrCompare(a, b)
  {
    if a != [] && b != [] && a[0] == b[0] {
      StrCompareFlip(a[1..], b[1..]);
    }
  }

  lemma {:induction false} StrCompareTransitive(a: string, b: string, c: string)
    requires StrCompare(a, b) <= 0 && StrCompare(b, c) <= 0
    ensures StrCompare(a, c) <= 0
  {
    if a != [] && b != [] && c != [] && a[0] == b[0] == c[0] {
      StrCompareTransitive(a[1..], b[1..], c[1..]);
    }
  }

  /** The comparator of `sortTasks`: negative puts `a` first, positive puts `b` first. */
  function Compare(a: Task, b: Task, key: string, order: SortOrder): (r: int)
    ensures FieldOf(a, key).Str? && FieldOf(b, key).Str? ==>
      var c := StrCompare(FieldOf(a, key).s, FieldOf(b, key).s);
      r == if order == Asc then c else -c
    ensures FieldOf(a, key).Num? && FieldOf(b, key).Num? ==>
      var d := FieldOf(a, key).n - FieldOf(b, key).n;
      r == if order == Asc then d else -d
    ensures FieldOf(a, key).Undefined? ==> r == 0
  {
    match (FieldOf(a, key), FieldOf(b, key))
    case (Str(x), Str(y)) =>
      StrCompareFlip(x, y);
      if order == Asc then StrCompare(x, y) else StrCompare(y, x)
    case (Num(x), Num(y)) => if order == Asc then x - y else y - x
    case _ => 0
  }

  /** Whether `a` may stand before `b` in a list sorted by `key` and `order`. */
  predicate Precedes(a: Task, b: Task, key: string, order: SortOrder) {
    Compare(a, b, key, order) <= 0
  }

  /** Non-decreasing order of the field named `key`: string order for text, `<=` for numbers. */
  predicate FieldLe(a: Task, b: Task, key: string) {
    match (FieldOf(a, key), FieldOf(b, key))
    case (Str(x), Str(y)) => StrCompare(x, y) <= 0
    case (Num(x), Num(y)) => x <= y
    case _ => true
  }

  lemma PrecedesTotal(a: Task, b: Task, key: string, order: SortOrder)
    ensures Precedes(a, b, key, order) || Precedes(b, a, key, order)
  {
    match (FieldOf(a, key), FieldOf(b, key))
    case (Str(x), Str(y)) => StrCompareFlip(x, y);
    case _ =>
  }

  lemma PrecedesTransitive(a: Task, b: Task, c: Task, key: string, order: SortOrder)
    requires Precedes(a, b, key, order) && Precedes(b, c, key, order)
    ensures Precedes(a, c, key, order)
  {
    match (FieldOf(a, key), FieldOf(b, key), FieldOf(c, key))
    case (Str(x), Str(y), Str(z)) =>
      if order == Asc { StrCompareTransitive(x, y, z); } else { StrCompareTransitive(z, y, x); }
    case _ =>
  }

  /** Ascending means the field never decreases, descending that it never increases. */
  lemma PrecedesMeansFieldOrder(a: Task, b: Task, key: string, order: SortOrder)
    ensures Precedes(a, b, key, order) <==> if order == Asc then FieldLe(a, b, key) else FieldLe(b, a, key)
  {
  }

  ghost predicate SortedBy(s: seq<Task>, key: string, order: SortOrder) {
    forall i, j :: 0 <= i < j < |s| ==> Precedes(s[i], s[j], key, order)
  }

  /** Inserts `x` before the first element it strictly precedes. */
  function Insert(x: Task, s: seq<Task>, key: string, order: SortOrder): (r: seq<Task>)
    ensures |r| == |s| + 1
  {
    if s == [] then [x]
    else if Compare(x, s[0], key, order) <= 0 then [x] + s
    else [s[0]] + Insert(x, s[1..], key, order)
  }

  /** The list `tasks.sort(comparator)` leaves behind. */
  function SortBy(s: seq<Task>, key: string, order: SortOrder): (r: seq<Task>)
    ensures |r| == |s|
  {
    if s == [] then []
    else Insert(s[0], SortBy(s[1..], key, order), key, order)
  }

  lemma {:induction false} InsertPermutes(x: Task, s: seq<Task>, key: string, order: SortOrder)
    ensures multiset(Insert(x, s, key, order)) == multiset(s) + multiset{x}
  {
    if s != [] && Compare(x, s[0], key, order) > 0 {
      InsertPermutes(x, s[1..], key, order);
      assert s == [s[0]] + s[1..];
    }
  }

  /** Sorting only rearranges: the result holds the same tasks, each as often as before. */
  lemma {:induction false} SortByPermutes(s: seq<Task>, key: string, order: SortOrder)
    ensures multiset(SortBy(s, key, order)) == multiset(s)
  {
    if s != [] {
      SortByPermutes(s[1..], key, order);
      InsertPermutes(s[0], SortBy(s[1..], key, order), key, order);
      assert s == [s[0]] + s[1..];
    }
  }

  /** `y` may stand before every element of `s`. */
  ghost predicate LowerBound(y: Task, s: seq<Task>, key: string, order: SortOrder) {
    forall j :: 0 <= j < |s| ==> Precedes(y, s[j], key, order)
  }

  lemma SortedCons(y: Task, s: seq<Task>, key: string, order: SortOrder)
    requires LowerBound(y, s, key, order) && SortedBy(s, key, order)
    ensures SortedBy([y] + s, key, order)
  {
  }

  lemma {:induction false} InsertKeepsLowerBound(y: Task, x: Task, s: seq<Task>, key: string, order: SortOrder)
    requires Precedes(y, x, key, order) && LowerBound(y, s, key, order)
    ensures LowerBound(y, Insert(x, s, key, order), key, order)
  {
    if s != [] && Compare(x, s[0], key, order) > 0 {
      assert LowerBound(y, s[1..], key, order) by {
        forall j | 0 <= j < |s[1..]| ensures Precedes(y, s[1..][j], key, order) {
          assert s[1..][j] == s[j + 1];
        }
      }
      InsertKeepsLowerBound(y, x, s[1..], key, order);
      var r := Insert(x, s, key, order);
      var tail := Insert(x, s[1..], key, order);
      assert r == [s[0]] + tail;
      forall j | 0 <= j < |r| ensures Precedes(y, r[j], key, order) {
        if j > 0 {
          assert r[j] == tail[j - 1];
        }
      }
    }
  }

  lemma {:induction false} InsertSorted(x: Task, s: seq<Task>, key: string, order: SortOrder)
    requires SortedBy(s, key, order)
    ensures SortedBy(Insert(x, s, key, order), key, order)
  {
    if s == [] {
    } else if Compare(x, s[0], key, order) <= 0 {
      forall j | 0 <= j < |s| ensures Precedes(x, s[j], key, order) {
        if j > 0 {
          PrecedesTransitive(x, s[0], s[j], key, order);
        }
      }
      SortedCons(x, s, key, order);
    } else {
      PrecedesTotal(x, s[0], key, order);
      SortedTail(s, key, order);
      InsertSorted(x, s[1..], key, order);
      assert LowerBound(s[0], s[1..], key, order) by {
        forall j | 0 <= j < |s[1..]| ensures Precedes(s[0], s[1..][j], key, order) {
          assert s[1..][j] == s[j + 1];
        }
      }
      InsertKeepsLowerBound(s[0], x, s[1..], key, order);
      SortedCons(s[0], Insert(x, s[1..], key, order), key, order);
    }
  }

  /**
   * The sorted list is a permutation of the input in which the named field
   * never decreases (ascending) or never increases (descending).
   */
  lemma {:induction false} SortByOrdersField(s: seq<Task>, key: string, order: SortOrder)
    ensures var r := SortBy(s, key, order);
      && |r| == |s|
      && multiset(r) == multiset(s)
      && (order == Asc ==> forall i, j :: 0 <= i < j < |r| ==> FieldLe(r[i], r[j], key))
      && (order == Desc ==> forall i, j :: 0 <= i < j < |r| ==> FieldLe(r[j], r[i], key))
  {
    SortBySorted(s, key, order);
    SortByPermutes(s, key, order);
    var r := SortBy(s, key, order);
    forall i, j | 0 <= i < j < |r| ensures if order == Asc then FieldLe(r[i], r[j], key) else FieldLe(r[j], r[i], key) {
      PrecedesMeansFieldOrder(r[i], r[j], key, order);
    }
  }

  lemma {:induction false} SortBySorted(s: seq<Task>, key: string, order: SortOrder)
    ensures SortedBy(SortBy(s, key, order), key, order)
  {
    if s != [] {
      SortBySorted(s[1..], key, order);
      InsertSorted(s[0], SortBy(s[1..], key, order), key, order);
    }
  }

  /** A list that is already sorted is left as it is; in particular sorting twice equals sorting once. */
  lemma {:induction false} SortBySortedIsIdentity(s: seq<Task>, key: string, order: SortOrder)
    requires SortedBy(s, key, order)
    ensures SortBy(s, key, order) == s
  {
    if s != [] {
      var tail := s[1..];
      SortedTail(s, key, order);
      SortBySortedIsIdentity(tail, key, order);
      assert SortBy(s, key, order) == Insert(s[0], tail, key, order);
      if tail != [] {
        assert tail[0] == s[1];
        assert Precedes(s[0], s[1], key, order);
      }
      InsertBeforeHead(s[0], tail, key, order);
      assert s == [s[0]] + tail;
    }
  }

  lemma InsertBeforeHead(x: Task, s: seq<Task>, key: string, order: SortOrder)
    requires s == [] || Precedes(x, s[0], key, order)
    ensures Insert(x, s, key, order) == [x] + s
  {
  }

  lemma SortedTail(s: seq<Task>, key: string, order: SortOrder)
    requires s != [] && SortedBy(s, key, order)
    ensures SortedBy(s[1..], key, order)
  {
  }

  lemma SortByIdempotent(s: seq<Task>, key: string, order: SortOrder)
    ensures SortBy(SortBy(s, key, order), key, order) == SortBy(s, key, order)
  {
    SortBySorted(s, key, order);
    SortBySortedIsIdentity(SortBy(s, key, order), key, order);
  }

  /** `sortTasks('title', 'desc')` on tasks titled B, A, C gives C, B, A. */
  lemma SortExample(a: Task, b: Task, c: Task)
    requires a.title == "A" && b.title == "B" && c.title == "C"
    ensures SortBy([b, a, c], "title", Desc) == [c, b, a]
  {
    var key, order := "title", Desc;
    assert !Precedes(a, c, key, order) by {
      assert FieldOf(a, key) == Str("A") && FieldOf(c, key) == Str("C");
      assert StrCompare("C", "A") == 1;
    }
    assert !Precedes(b, c, key, order) by {
      assert FieldOf(b, key) == Str("B") && FieldOf(c, key) == Str("C");
      assert StrCompare("C", "B") == 1;
    }
    assert Precedes(b, a, key, order) by {
      assert FieldOf(b, key) == Str("B") && FieldOf(a, key) == Str("A");
      assert StrCompare("A", "B") == -1;
    }
    assert [c][1..] == [] && [c, a][1..] == [a];
    assert Insert(a, [c], key, order) == [c, a];
    assert Insert(b, [c, a], key, order) == [c, b, a];
    assert [b, a, c][1..] == [a, c] && [a, c][1..] == [c];
    assert SortBy([c], key, order) == [c];
    assert SortBy([a, c], key, order) == [c, a];
  }

  // ---------------------------------------------------------------------
  // Stability

  /** The tasks of `s` the comparator ranks equal to `x`, in their order in `s`. */
  function Ties(s: seq<Task>, x: Task, key: string, order: SortOrder): seq<Task> {
    if s == [] then []
    else (if Compare(s[0], x, key, order) == 0 then [s[0]] else []) + Ties(s[1..], x, key, order)
  }

  lemma {:induction false} InsertTies(y: Task, r: seq<Task>, x: Task, key: string, order: SortOrder)
    ensures Ties(Insert(y, r, key, order), x, key, order) ==
      (if Compare(y, x, key, order) == 0 then [y] else []) + Ties(r, x, key, order)
  {
    if r != [] && Compare(y, r[0], key, order) > 0 {
      InsertTies(y, r[1..], x, key, order);
      assert Insert(y, r, key, order)[1..] == Insert(y, r[1..], key, order);
      if Compare(y, x, key, order) == 0 {
        assert Compare(r[0], x, key, order) != 0;
      }
    }
  }

  /**
   * The sort is stable: the tasks ranked equal to any given task appear in
   * the sorted list in the order they had before.
   */
  lemma {:induction false} SortByStable(s: seq<Task>, x: Task, key: string, order: SortOrder)
    ensures Ties(SortBy(s, key, order), x, key, order) == Ties(s, x, key, order)
  {
    if s != [] {
      SortByStable(s[1..], x, key, order);
      InsertTies(s[0], SortBy(s[1..], key, order), x, key, order);
    }
  }

  /** Sorting by a name that is no field of a task leaves the list as it was. */
  lemma {:induction false} SortByUnknownKey(s: seq<Task>, key: string, order: SortOrder)
    requires key !in ["id", "projectId", "title", "assignee", "status", "dueDate"]
    ensures SortBy(s, key, order) == s
  {
    if s != [] {
      SortByUnknownKey(s[1..], key, order);
      assert SortBy(s, key, order) == Insert(s[0], s[1..], key, order);
    }
  }
}
