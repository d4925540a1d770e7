/** Generic operations on a table held as a sequence of rows in storage order. */
module Tables {
  import opened Wrappers

  /** Primary keys are text columns. */
  type Key = string

  /** No two rows share a key: the primary-key constraint. */
  ghost predicate Unique<T>(rows: seq<T>, key: T -> Key) {
    forall i, j :: 0 <= i < j < |rows| ==> key(rows[i]) != key(rows[j])
  }

  ghost predicate HasKey<T>(rows: seq<T>, key: T -> Key, k: Key) {
    exists x :: x in rows && key(x) == k
  }

  /** Index of the first row satisfying `matches`, if any. */
  function FirstIndex<T>(rows: seq<T>, matches: T -> bool): (r: Option<nat>)
    ensures r.Some? ==> r.value < |rows| && matches(rows[r.value])
    ensures r.Some? ==> forall j :: 0 <= j < r.value ==> !matches(rows[j])
    ensures r.None? <==> forall x :: x in rows ==> !matches(x)
  {
    if |rows| == 0 then None
    else if matches(rows[0]) then Some(0)
    else match FirstIndex(rows[1..], matches)
      case None => None
      case Some(i) => Some(i + 1)
  }

  /** The first row satisfying `matches`: a filtered select followed by `.at(0)`,
      or an array `find`. */
  function Find<T>(rows: seq<T>, matches: T -> bool): (r: Option<T>)
    ensures r.Some? ==> r.value in rows && matches(r.value)
    ensures r.Some? ==> exists i :: 0 <= i < |rows| && rows[i] == r.value
                                    && forall j :: 0 <= j < i ==> !matches(rows[j])
    ensures r.None? <==> forall x :: x in rows ==> !matches(x)
  {
    match FirstIndex(rows, matches)
    case None => None
    case Some(i) => Some(rows[i])
  }

  /** The row whose key is `k`; under the primary-key constraint it is the only one. */
  function Lookup<T>(rows: seq<T>, key: T -> Key, k: Key): (r: Option<T>)
    ensures r.Some? ==> r.value in rows && key(r.value) == k
    ensures r.None? <==> !HasKey(rows, key, k)
    ensures Unique(rows, key) ==> forall x :: x in rows && key(x) == k ==> r == Some(x)
  {
    Find(rows, x => key(x) == k)
  }

  /** The rows satisfying `keep`, in their original order: a filtered select,
      or an array `filter`. */
  function Filter<T(!new)>(rows: seq<T>, keep: T -> bool): (r: seq<T>)
    ensures forall x :: multiset(r)[x] == if keep(x) then multiset(rows)[x] else 0
    ensures forall x :: x in r <==> x in rows && keep(x)
  {
    if |rows| == 0 then []
    else
      assert rows == [rows[0]] + rows[1..];
      (if keep(rows[0]) then [rows[0]] else []) + Filter(rows[1..], keep)
  }

  /** Filtering distributes over concatenation, so it keeps the relative order of rows. */
  lemma {:induction false} FilterAppend<T(!new)>(a: seq<T>, b: seq<T>, keep: T -> bool)
    ensures Filter(a + b, keep) == Filter(a, keep) + Filter(b, keep)
  {
    if |a| == 0 {
      assert a + b == b;
    } else {
      assert (a + b)[1..] == a[1..] + b;
      FilterAppend(a[1..], b, keep);
    }
  }

  /** Removing rows never breaks the primary-key constraint. */
  lemma {:induction false} FilterUnique<T(!new)>(rows: seq<T>, key: T -> Key, keep: T -> bool)
    requires Unique(rows, key)
    ensures Unique(Filter(rows, keep), key)
  {
    if |rows| > 0 {
      var tail := Filter(rows[1..], keep);
      FilterUnique(rows[1..], key, keep);
      if keep(rows[0]) {
        forall y | y in tail ensures key(y) != key(rows[0]) {
          var j :| 0 <= j < |rows[1..]| && rows[1..][j] == y;
          assert rows[j + 1] == y;
        }
        UniqueCons(rows[0], tail, key);
      }
    }
  }

  /** A row can be put in front of a keyed table when its key is new there. */
  lemma UniqueCons<T>(x: T, rows: seq<T>, key: T -> Key)
    requires Unique(rows, key)
    requires forall y :: y in rows ==> key(y) != key(x)
    ensures Unique([x] + rows, key)
  {
  }

  /** All the groups, one after another. */
  function Concat<T>(groups: seq<seq<T>>): seq<T> {
    if |groups| == 0 then [] else groups[0] + Concat(groups[1..])
  }

  /** Six groups concatenated. */
  lemma ConcatSix<T>(groups: seq<seq<T>>)
    requires |groups| == 6
    ensures Concat(groups) == groups[0] + groups[1] + groups[2] + groups[3] + groups[4] + groups[5]
  {
    var g := groups;
    assert Concat(g[6..]) == [];
    assert Concat(g[5..]) == g[5];
    assert Concat(g[4..]) == g[4] + g[5];
    assert Concat(g[3..]) == g[3] + (g[4] + g[5]);
    assert Concat(g[2..]) == g[2] + (g[3] + (g[4] + g[5]));
    assert Concat(g[1..]) == g[1] + (g[2] + (g[3] + (g[4] + g[5])));
    assert Concat(g) == g[0] + (g[1] + (g[2] + (g[3] + (g[4] + g[5]))));
  }
}
