/** Generic facts about tables held as sequences of rows: the
    first-match lookup of `FirstOrDefaultAsync`, the row filter of `Where`,
    and unique-key constraints. */
module Tables {
  import opened Wrappers

  /** Index of the first row satisfying `p`, or None when no row does. */
  function FirstIndex<T>(s: seq<T>, p: T -> bool): (r: Option<nat>)
    ensures r.Some? ==> r.value < |s| && p(s[r.value])
    ensures r.Some? ==> forall j :: 0 <= j < r.value ==> !p(s[j])
    ensures r.None? <==> forall j :: 0 <= j < |s| ==> !p(s[j])
  {
    if s == [] then None
    else if p(s[0]) then Some(0)
    else match FirstIndex(s[1..], p)
      case None => None
      case Some(k) => Some(k + 1)
  }

  /** The rows satisfying `p`, in table order. */
  function Filter<T(!new)>(s: seq<T>, p: T -> bool): (r: seq<T>)
    ensures |r| <= |s|
    ensures forall x :: x in r <==> x in s && p(x)
    ensures forall x {:trigger multiset(r)[x]} :: multiset(r)[x] == if p(x) then multiset(s)[x] else 0
  {
    if s == [] then []
    else
      assert s == [s[0]] + s[1..];
      if p(s[0]) then [s[0]] + Filter(s[1..], p)
      else Filter(s[1..], p)
  }

  /** No two rows share a key: a primary key or a unique index. */
  predicate KeysDistinct<T, K(==)>(s: seq<T>, key: T -> K)
  {
    forall i, j :: 0 <= i < j < |s| ==> key(s[i]) != key(s[j])
  }

  /** No row carries key `k`. */
  predicate KeyAbsent<T, K(==)>(s: seq<T>, key: T -> K, k: K)
  {
    forall i :: 0 <= i < |s| ==> key(s[i]) != k
  }

  /** The table without its row at index `i`. */
  function RemoveAt<T>(s: seq<T>, i: nat): (r: seq<T>)
    requires i < |s|
    ensures |r| == |s| - 1
    ensures forall j :: 0 <= j < i ==> r[j] == s[j]
    ensures forall j :: i <= j < |r| ==> r[j] == s[j + 1]
  {
    s[..i] + s[i + 1..]
  }

  lemma AppendKeepsDistinct<T, K>(s: seq<T>, key: T -> K, x: T)
    requires KeysDistinct(s, key) && KeyAbsent(s, key, key(x))
    ensures KeysDistinct(s + [x], key)
  {
  }

  lemma UpdateKeepsDistinct<T, K>(s: seq<T>, key: T -> K, i: nat, x: T)
    requires KeysDistinct(s, key) && i < |s| && key(x) == key(s[i])
    ensures KeysDistinct(s[i := x], key)
  {
  }

  lemma RemoveAtKeepsDistinct<T, K>(s: seq<T>, key: T -> K, i: nat)
    requires KeysDistinct(s, key) && i < |s|
    ensures KeysDistinct(RemoveAt(s, i), key)
  {
    var r := RemoveAt(s, i);
    forall a, b | 0 <= a < b < |r| ensures key(r[a]) != key(r[b]) {
      var a' := if a < i then a else a + 1;
      var b' := if b < i then b else b + 1;
      assert r[a] == s[a'] && r[b] == s[b'] && a' < b';
    }
  }

  /** Once the row at `i` is removed, its key occurs nowhere. */
  lemma RemoveAtDropsKey<T, K>(s: seq<T>, key: T -> K, i: nat)
    requires KeysDistinct(s, key) && i < |s|
    ensures KeyAbsent(RemoveAt(s, i), key, key(s[i]))
  {
    var r := RemoveAt(s, i);
    forall j | 0 <= j < |r| ensures key(r[j]) != key(s[i]) {
      if j < i {
        assert r[j] == s[j];
      } else {
        assert r[j] == s[j + 1];
      }
    }
  }

  lemma {:induction false} FilterKeepsDistinct<T(!new), K>(s: seq<T>, p: T -> bool, key: T -> K)
    requires KeysDistinct(s, key)
    ensures KeysDistinct(Filter(s, p), key)
  {
    if s != [] {
      var tail := s[1..];
      assert KeysDistinct(tail, key) by {
        forall a, b | 0 <= a < b < |tail| ensures key(tail[a]) != key(tail[b]) {
          assert tail[a] == s[a + 1] && tail[b] == s[b + 1];
        }
      }
      FilterKeepsDistinct(tail, p, key);
      if p(s[0]) {
        var rest := Filter(tail, p);
        var r := [s[0]] + rest;
        forall j | 0 <= j < |rest| ensures key(s[0]) != key(rest[j]) {
          assert rest[j] in tail;
          var m :| 0 <= m < |tail| && tail[m] == rest[j];
          assert tail[m] == s[m + 1];
        }
        forall a, b | 0 <= a < b < |r| ensures key(r[a]) != key(r[b]) {
          assert r[b] == rest[b - 1];
          if a > 0 {
            assert r[a] == rest[a - 1];
          }
        }
      }
    }
  }
}
