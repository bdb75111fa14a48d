/** Small sequence vocabulary shared by the converter model: an optional value,
    the order-preserving filter that Python's `[c for c in cols if p(c)]` performs,
    the position of a name in a list of names, and distinctness. */
module Common {

  datatype Option<T> = None | Some(value: T)

  /** The list of names contains no name twice. */
  predicate Distinct<T(==)>(s: seq<T>) {
    forall i, j | 0 <= i < j < |s| :: s[i] != s[j]
  }

  /** Position of the first occurrence of `v` in `s`. */
  function IndexOf<T(==)>(s: seq<T>, v: T): (i: nat)
    requires v in s
    ensures i < |s| && s[i] == v
  {
    if s[0] == v then 0 else 1 + IndexOf(s[1..], v)
  }

  /** The elements of `s` that satisfy `p`, kept in their order in `s`
      (a list comprehension with an `if` filter). */
  function Keep<T>(s: seq<T>, p: T -> bool): (r: seq<T>)
    ensures |r| <= |s|
    ensures forall v | v in r :: v in s
  {
    if s == [] then []
    else
      var init, last := s[..|s| - 1], s[|s| - 1];
      assert s == init + [last];
      Keep(init, p) + (if p(last) then [last] else [])
  }

  /** The filter keeps exactly the elements that satisfy `p`. */
  lemma {:induction false} KeepSpec<T>(s: seq<T>, p: T -> bool)
    ensures forall v | v in Keep(s, p) :: p(v)
    ensures forall v | v in s && p(v) :: v in Keep(s, p)
  {
    if s != [] {
      var init, last := s[..|s| - 1], s[|s| - 1];
      assert s == init + [last];
      KeepSpec(init, p);
    }
  }

  /** Filtering a prefix one element longer appends at most that element:
      the shape of a loop that appends to a list as it goes. */
  lemma KeepSnoc<T>(s: seq<T>, p: T -> bool, k: nat)
    requires k < |s|
    ensures Keep(s[..k + 1], p) == Keep(s[..k], p) + (if p(s[k]) then [s[k]] else [])
  {
    assert s[..k + 1][..k] == s[..k];
  }

  /** In a list without repeats, the first occurrence of an element of a
      prefix lies in that prefix. */
  lemma {:induction false} IndexOfPrefix<T>(s: seq<T>, k: nat, v: T)
    requires k <= |s| && v in s[..k]
    ensures IndexOf(s, v) == IndexOf(s[..k], v)
  {
    if s[0] != v {
      assert s[..k][0] == s[0];
      assert s[..k][1..] == s[1..][..k - 1];
      IndexOfPrefix(s[1..], k - 1, v);
    }
  }

  /** Filtering a list without repeats yields a list without repeats whose
      elements keep the relative order they had in the original. */
  lemma {:induction false} KeepKeepsOrder<T>(s: seq<T>, p: T -> bool)
    requires Distinct(s)
    ensures Distinct(Keep(s, p))
    ensures forall i, j | 0 <= i < j < |Keep(s, p)| ::
              IndexOf(s, Keep(s, p)[i]) < IndexOf(s, Keep(s, p)[j])
  {
    if s != [] {
      var n := |s|;
      var init, last := s[..n - 1], s[n - 1];
      assert Distinct(init);
      KeepKeepsOrder(init, p);
      var r0 := Keep(init, p);
      var r := Keep(s, p);
      assert r == r0 + (if p(last) then [last] else []);
      assert last !in init;
      assert IndexOf(s, last) == n - 1;
      forall v | v in r0
        ensures IndexOf(s, v) == IndexOf(init, v) < n - 1
      {
        IndexOfPrefix(s, n - 1, v);
      }
      forall i, j | 0 <= i < j < |r|
        ensures r[i] != r[j] && IndexOf(s, r[i]) < IndexOf(s, r[j])
      {
        assert r[i] == r0[i];
        assert r0[i] in r0;
        if j < |r0| {
          assert r[j] == r0[j] && r0[j] in r0;
        }
      }
    }
  }

  /** The rows' elements, one row after another (appending each row's list to
      one output list). */
  function Flatten<T>(rows: seq<seq<T>>): seq<T> {
    if rows == [] then [] else Flatten(rows[..|rows| - 1]) + rows[|rows| - 1]
  }

  /** Element `k` of row `i` sits after the elements of the rows before it. */
  lemma {:induction false} FlattenAt<T>(rows: seq<seq<T>>, i: nat, k: nat)
    requires i < |rows| && k < |rows[i]|
    ensures |Flatten(rows[..i])| + k < |Flatten(rows)|
    ensures Flatten(rows)[|Flatten(rows[..i])| + k] == rows[i][k]
  {
    var n := |rows|;
    var init := rows[..n - 1];
    if i < n - 1 {
      assert init[..i] == rows[..i];
      FlattenAt(init, i, k);
    }
  }

  /** Every element of the flattened rows is an element of one of the rows. */
  lemma {:induction false} FlattenSource<T>(rows: seq<seq<T>>, m: nat) returns (i: nat, k: nat)
    requires m < |Flatten(rows)|
    ensures i < |rows| && k < |rows[i]| && Flatten(rows)[m] == rows[i][k]
  {
    var n := |rows|;
    var init := rows[..n - 1];
    if m < |Flatten(init)| {
      i, k := FlattenSource(init, m);
    } else {
      i, k := n - 1, m - |Flatten(init)|;
    }
  }
}
