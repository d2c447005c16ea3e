/** Small helpers shared by every table and route of the booking server. */
module Common {

  datatype Option<T> = None | Some(value: T)

  /** One property of a partial-update body: `Keep` is a property left
      `undefined`, `Put(v)` a property that was supplied. */
  datatype Patch<T> = Keep | Put(value: T)

  /** The column's value after a partial update. */
  function Or<T>(p: Patch<T>, current: T): T
  {
    if p.Put? then p.value else current
  }

  function Max(a: int, b: int): (r: int)
    ensures r >= a && r >= b && (r == a || r == b)
  {
    if a >= b then a else b
  }

  function Min(a: int, b: int): (r: int)
    ensures r <= a && r <= b && (r == a || r == b)
  {
    if a <= b then a else b
  }

  /** JavaScript truthiness of an optional id or count: `undefined`, `null`
      and `0` are falsy. */
  predicate TruthyInt(x: Option<int>)
  {
    x.Some? && x.value != 0
  }

  /** JavaScript truthiness of an optional string: `undefined`, `null` and
      the empty string are falsy. */
  predicate TruthyStr(x: Option<string>)
  {
    x.Some? && x.value != ""
  }

  /** The keys of `m` in [1, bound), ascending: the primary-key order of a
      table whose ids come from an auto-increment counter that is now at
      `bound`. */
  function Ids<T>(m: map<int, T>, bound: int): (r: seq<int>)
    decreases bound
    ensures forall i, j :: 0 <= i < j < |r| ==> r[i] < r[j]
    ensures forall k :: k in r <==> k in m && 1 <= k < bound
  {
    if bound <= 1 then []
    else
      var prefix := Ids(m, bound - 1);
      assert forall i :: 0 <= i < |prefix| ==> prefix[i] in prefix && prefix[i] < bound - 1;
      prefix + (if bound - 1 in m then [bound - 1] else [])
  }

  /** The rows of a table in primary-key order. */
  function Rows<T>(m: map<int, T>, bound: int): (r: seq<T>)
    ensures |r| == |Ids(m, bound)|
    ensures forall i :: 0 <= i < |r| ==> r[i] == m[Ids(m, bound)[i]]
  {
    var ids := Ids(m, bound);
    seq(|ids|, i requires 0 <= i < |ids| => m[ids[i]])
  }

  /** The elements of `s` that satisfy `p`, in their original order. */
  function Where<T(!new)>(s: seq<T>, p: T -> bool): (r: seq<T>)
    ensures forall x {:trigger multiset(r)[x]} :: multiset(r)[x] == if p(x) then multiset(s)[x] else 0
    ensures forall x :: x in r <==> x in s && p(x)
  {
    if s == [] then []
    else
      assert s == [s[0]] + s[1..];
      (if p(s[0]) then [s[0]] else []) + Where(s[1..], p)
  }

  /** Filtering distributes over appending one element, so `Where` keeps
      the order of `s`. */
  lemma {:induction false} WhereAppend<T(!new)>(s: seq<T>, x: T, p: T -> bool)
    ensures Where(s + [x], p) == Where(s, p) + (if p(x) then [x] else [])
  {
    var t := s + [x];
    if s == [] {
      assert t[1..] == [];
    } else {
      assert t[0] == s[0] && t[1..] == s[1..] + [x];
      WhereAppend(s[1..], x, p);
    }
  }

  /** Every key of `m` lies in [1, bound). */
  ghost predicate KeysBelow<T>(m: map<int, T>, bound: int)
  {
    forall k :: k in m ==> 1 <= k < bound
  }

  /** When every key is below the counter, the primary-key listing holds
      exactly the stored rows. */
  lemma RowsAreValues<T>(m: map<int, T>, bound: int)
    requires KeysBelow(m, bound)
    ensures forall x :: x in Rows(m, bound) <==> x in m.Values
  {
    var rows := Rows(m, bound);
    var ids := Ids(m, bound);
    forall x | x in m.Values ensures x in rows {
      var k :| k in m && m[k] == x;
      assert k in ids;
      var i :| 0 <= i < |ids| && ids[i] == k;
      assert rows[i] == x;
    }
  }

  /** No element of `s` occurs twice. */
  ghost predicate Distinct<T>(s: seq<T>)
  {
    forall i, j :: 0 <= i < j < |s| ==> s[i] != s[j]
  }

  /** A sequence without repeats holds each value at most once. */
  lemma {:induction false} DistinctAtMostOnce<T>(s: seq<T>, x: T)
    requires Distinct(s)
    ensures multiset(s)[x] <= 1
  {
    if s != [] {
      assert s == [s[0]] + s[1..];
      assert Distinct(s[1..]) by {
        forall i, j | 0 <= i < j < |s[1..]| ensures s[1..][i] != s[1..][j] {
          assert s[1..][i] == s[i + 1] && s[1..][j] == s[j + 1];
        }
      }
      DistinctAtMostOnce(s[1..], x);
      if s[0] == x {
        forall i | 0 <= i < |s[1..]| ensures s[1..][i] != x {
          assert s[1..][i] == s[i + 1];
        }
        assert x !in s[1..];
      }
    }
  }

  /** A value found at two positions occurs at least twice. */
  lemma SeenTwice<T>(s: seq<T>, i: int, j: int)
    requires 0 <= i < j < |s| && s[i] == s[j]
    ensures multiset(s)[s[i]] >= 2
  {
    assert s == s[..j] + s[j..];
    assert s[i] == s[..j][i];
    assert s[j] == s[j..][0];
    assert s[i] in multiset(s[..j]) && s[i] in multiset(s[j..]);
  }

  /** When every row carries its key as `id`, the primary-key listing of a
      table has no repeats. */
  lemma RowsDistinct<T>(m: map<int, T>, bound: int, id: T -> int)
    requires forall k :: k in m ==> id(m[k]) == k
    ensures Distinct(Rows(m, bound))
  {
    var rows := Rows(m, bound);
    var ids := Ids(m, bound);
    forall i, j | 0 <= i < j < |rows| ensures rows[i] != rows[j] {
      assert ids[i] in ids && ids[j] in ids;
      assert id(rows[i]) == ids[i] && id(rows[j]) == ids[j];
    }
  }
}
