/** Generic helpers for a table kept as a sequence of rows in ascending primary-key order
    (the order an identity column hands out keys in), with the LINQ operators the data access
    classes use: `FirstOrDefault` by key, `Where`, `OrderByDescending(key)`, `Skip`, `Take`. */
module Rows {
  import opened Common

  ghost predicate Ascending<R>(s: seq<R>, key: R -> int) {
    forall i, j :: 0 <= i < j < |s| ==> key(s[i]) < key(s[j])
  }

  ghost predicate Descending<R>(s: seq<R>, key: R -> int) {
    forall i, j :: 0 <= i < j < |s| ==> key(s[i]) > key(s[j])
  }

  /** The table invariant: keys are positive, strictly ascending and below the next key to hand out. */
  ghost predicate WellKeyed<R>(s: seq<R>, key: R -> int, next: int) {
    Ascending(s, key) && forall i :: 0 <= i < |s| ==> 0 < key(s[i]) < next
  }

  /** The position of the first row whose key is `id`. */
  function IndexOf<R>(s: seq<R>, key: R -> int, id: int): (r: Option<nat>)
    ensures r.Some? ==> r.value < |s| && key(s[r.value]) == id
    ensures r.Some? ==> forall j :: 0 <= j < r.value ==> key(s[j]) != id
    ensures r.None? ==> forall j :: 0 <= j < |s| ==> key(s[j]) != id
  {
    if s == [] then None
    else if key(s[0]) == id then Some(0)
    else match IndexOf(s[1..], key, id)
      case None => None
      case Some(k) => Some(k + 1)
  }

  /** The position of the first row that satisfies `p`. */
  function IndexWhere<R>(s: seq<R>, p: R -> bool): (r: Option<nat>)
    ensures r.Some? ==> r.value < |s| && p(s[r.value])
    ensures r.Some? ==> forall j :: 0 <= j < r.value ==> !p(s[j])
    ensures r.None? ==> forall j :: 0 <= j < |s| ==> !p(s[j])
  {
    if s == [] then None
    else if p(s[0]) then Some(0)
    else match IndexWhere(s[1..], p)
      case None => None
      case Some(k) => Some(k + 1)
  }

  /** `FirstOrDefaultAsync(r => r.Id == id)`: the first row with key `id`, if any. */
  function Find<R>(s: seq<R>, key: R -> int, id: int): (r: Option<R>)
    ensures r.Some? ==> r.value in s && key(r.value) == id
    ensures r.None? ==> forall j :: 0 <= j < |s| ==> key(s[j]) != id
  {
    match IndexOf(s, key, id)
    case None => None
    case Some(i) => Some(s[i])
  }

  /** The abstract value of a table: its rows by key. */
  ghost function TableOf<R>(s: seq<R>, key: R -> int): map<int, R>
  {
    if s == [] then map[] else TableOf(s[..|s| - 1], key)[key(s[|s| - 1]) := s[|s| - 1]]
  }

  /** Every key of the table view belongs to some row. */
  lemma {:induction false} TableOfKeys<R>(s: seq<R>, key: R -> int, id: int)
    requires id in TableOf(s, key)
    ensures exists i :: 0 <= i < |s| && key(s[i]) == id
  {
    var n := |s|;
    if key(s[n - 1]) != id {
      TableOfKeys(s[..n - 1], key, id);
      var i :| 0 <= i < n - 1 && key(s[..n - 1][i]) == id;
      assert key(s[i]) == id;
    }
  }

  /** In a table with distinct keys, every row is what the view holds under its key. */
  lemma {:induction false} TableOfAt<R>(s: seq<R>, key: R -> int, i: int)
    requires Ascending(s, key) && 0 <= i < |s|
    ensures key(s[i]) in TableOf(s, key) && TableOf(s, key)[key(s[i])] == s[i]
  {
    var n := |s|;
    if i < n - 1 {
      assert key(s[i]) < key(s[n - 1]);
      TableOfAt(s[..n - 1], key, i);
    }
  }

  /** Looking a key up in the rows agrees with the table view. */
  lemma FindInTable<R>(s: seq<R>, key: R -> int, id: int)
    requires Ascending(s, key)
    ensures Find(s, key, id) == if id in TableOf(s, key) then Some(TableOf(s, key)[id]) else None
  {
    match IndexOf(s, key, id)
    case Some(i) => TableOfAt(s, key, i);
    case None =>
      if id in TableOf(s, key) {
        TableOfKeys(s, key, id);
      }
  }

  /** No row of the table has a key at or above `next`. */
  lemma NotInTable<R>(s: seq<R>, key: R -> int, next: int)
    requires WellKeyed(s, key, next)
    ensures next !in TableOf(s, key)
  {
    if next in TableOf(s, key) {
      TableOfKeys(s, key, next);
    }
  }

  /** Appending a row adds it to the view under its key. */
  lemma TableOfAppend<R>(s: seq<R>, key: R -> int, x: R)
    ensures TableOf(s + [x], key) == TableOf(s, key)[key(x) := x]
  {
    assert (s + [x])[..|s|] == s;
  }

  /** Replacing a row by one with the same key replaces it in the view. */
  lemma {:induction false} TableOfUpdate<R>(s: seq<R>, key: R -> int, i: int, x: R)
    requires Ascending(s, key) && 0 <= i < |s| && key(x) == key(s[i])
    ensures TableOf(s[i := x], key) == TableOf(s, key)[key(x) := x]
  {
    var n := |s|;
    if i == n - 1 {
      assert s[i := x][..n - 1] == s[..n - 1];
    } else {
      assert s[i := x][..n - 1] == s[..n - 1][i := x];
      TableOfUpdate(s[..n - 1], key, i, x);
      assert key(s[i]) < key(s[n - 1]);
    }
  }

  /** Removing a row removes its key from the view and nothing else. */
  lemma {:induction false} TableOfRemove<R>(s: seq<R>, key: R -> int, i: int)
    requires Ascending(s, key) && 0 <= i < |s|
    ensures TableOf(s[..i] + s[i + 1..], key) == TableOf(s, key) - {key(s[i])}
  {
    var n := |s|;
    var p := s[..n - 1];
    var last := s[n - 1];
    assert TableOf(s, key) == TableOf(p, key)[key(last) := last];
    if i == n - 1 {
      assert s[..i] + s[i + 1..] == p;
      if key(s[i]) in TableOf(p, key) {
        TableOfKeys(p, key, key(s[i]));
      }
    } else {
      AscendingPrefix(s, key);
      var q := p[..i] + p[i + 1..];
      RemoveBeforeLast(s, i);
      TableOfAppend(q, key, last);
      TableOfRemove(p, key, i);
      assert key(s[i]) < key(last);
      MapRemoveUpdate(TableOf(p, key), key(s[i]), key(last), last);
    }
  }

  /** Removing a row before the last one is removing it from the rows before the last, then
      putting the last one back. */
  lemma RemoveBeforeLast<R>(s: seq<R>, i: int)
    requires 0 <= i < |s| - 1
    ensures var p := s[..|s| - 1]; s[..i] + s[i + 1..] == (p[..i] + p[i + 1..]) + [s[|s| - 1]]
  {
    var p := s[..|s| - 1];
    assert p[..i] == s[..i];
    assert p[i + 1..] + [s[|s| - 1]] == s[i + 1..];
  }

  /** Dropping the last row keeps a table ascending. */
  lemma AscendingPrefix<R>(s: seq<R>, key: R -> int)
    requires Ascending(s, key) && s != []
    ensures Ascending(s[..|s| - 1], key)
  {
  }

  /** Removing one key and updating another commute. */
  lemma MapRemoveUpdate<R>(m: map<int, R>, k: int, j: int, v: R)
    requires k != j
    ensures (m - {k})[j := v] == m[j := v] - {k}
  {
  }

  /** `FirstOrDefault(r => r.Id == id) ?? default`: what a lookup by key returns, the row the
      table view holds under `id` or the default row. */
  function Lookup<R>(s: seq<R>, key: R -> int, id: int, default: R): (r: R)
    requires Ascending(s, key)
    ensures id in TableOf(s, key) ==> r == TableOf(s, key)[id]
    ensures id !in TableOf(s, key) ==> r == default
  {
    FindInTable(s, key, id);
    match Find(s, key, id)
    case None => default
    case Some(x) => x
  }

  /** Appending a row under the next key keeps the table well keyed. */
  lemma AppendWellKeyed<R>(s: seq<R>, key: R -> int, next: int, x: R)
    requires WellKeyed(s, key, next) && key(x) == next && next > 0
    ensures WellKeyed(s + [x], key, next + 1)
  {
  }

  /** Replacing a row by one with the same key keeps the table well keyed. */
  lemma UpdateWellKeyed<R>(s: seq<R>, key: R -> int, next: int, i: int, x: R)
    requires WellKeyed(s, key, next) && 0 <= i < |s| && key(x) == key(s[i])
    ensures WellKeyed(s[i := x], key, next)
  {
  }

  /** Removing a row keeps the table well keyed. */
  lemma RemoveWellKeyed<R>(s: seq<R>, key: R -> int, next: int, i: int)
    requires WellKeyed(s, key, next) && 0 <= i < |s|
    ensures WellKeyed(s[..i] + s[i + 1..], key, next)
  {
    var t := s[..i] + s[i + 1..];
    forall a, b | 0 <= a < b < |t| ensures key(t[a]) < key(t[b]) {
      var a', b' := if a < i then a else a + 1, if b < i then b else b + 1;
      assert t[a] == s[a'] && t[b] == s[b'];
    }
    forall a | 0 <= a < |t| ensures 0 < key(t[a]) < next {
      assert t[a] == s[if a < i then a else a + 1];
    }
  }

  /** The keys of a well-keyed table are positive, so a lookup of key 0 finds nothing. */
  lemma KeysPositive<R>(s: seq<R>, key: R -> int, next: int, id: int)
    requires WellKeyed(s, key, next) && id in TableOf(s, key)
    ensures 0 < id < next
  {
    TableOfKeys(s, key, id);
  }

  /** What a well-keyed table holds under a key has that key, and the key is positive. */
  lemma TableOfKeyed<R>(s: seq<R>, key: R -> int, next: int, id: int)
    requires WellKeyed(s, key, next)
    ensures id in TableOf(s, key) ==> 0 < id < next && key(TableOf(s, key)[id]) == id
  {
    if id in TableOf(s, key) {
      TableOfKeys(s, key, id);
      var i :| 0 <= i < |s| && key(s[i]) == id;
      TableOfAt(s, key, i);
    }
  }

  /** A sequence in strictly ascending key order has no repeated row, so it has as many
      distinct rows as elements. */
  lemma {:induction false} AscendingCard<R>(s: seq<R>, key: R -> int)
    requires Ascending(s, key)
    ensures |set i | 0 <= i < |s| :: s[i]| == |s|
  {
    if s != [] {
      var t := s[1..];
      AscendingCard(t, key);
      var all := set i | 0 <= i < |s| :: s[i];
      var rest := set i | 0 <= i < |t| :: t[i];
      assert all == {s[0]} + rest by {
        forall x | x in all ensures x in {s[0]} + rest {
          var i :| 0 <= i < |s| && s[i] == x;
          if i > 0 { assert t[i - 1] == x; }
        }
      }
      assert s[0] !in rest;
    }
  }

  /** `Where(p)`: the rows that satisfy `p`, in table order. */
  function Filter<R>(s: seq<R>, p: R -> bool): (r: seq<R>)
    ensures |r| <= |s|
    ensures forall i :: 0 <= i < |r| ==> r[i] in s && p(r[i])
    ensures forall i :: 0 <= i < |s| && p(s[i]) ==> s[i] in r
  {
    if s == [] then [] else (if p(s[0]) then [s[0]] else []) + Filter(s[1..], p)
  }

  /** Filtering works row by row, so it distributes over concatenation. */
  lemma {:induction false} FilterConcat<R>(a: seq<R>, b: seq<R>, p: R -> bool)
    ensures Filter(a + b, p) == Filter(a, p) + Filter(b, p)
  {
    if a == [] {
      assert a + b == b;
    } else {
      assert (a + b)[0] == a[0] && (a + b)[1..] == a[1..] + b;
      FilterConcat(a[1..], b, p);
      var h := if p(a[0]) then [a[0]] else [];
      assert h + (Filter(a[1..], p) + Filter(b, p)) == (h + Filter(a[1..], p)) + Filter(b, p);
    }
  }

  /** Filtering keeps the rows in their order. */
  lemma {:induction false} FilterAscending<R>(s: seq<R>, key: R -> int, p: R -> bool)
    requires Ascending(s, key)
    ensures Ascending(Filter(s, p), key)
  {
    if s != [] {
      FilterAscending(s[1..], key, p);
      var rest := Filter(s[1..], p);
      forall x | x in rest ensures key(s[0]) < key(x) {
        var j :| 0 <= j < |s[1..]| && s[1..][j] == x;
        assert s[j + 1] == x;
      }
    }
  }

  function Reverse<R>(s: seq<R>): (r: seq<R>)
    ensures |r| == |s|
    ensures forall i :: 0 <= i < |s| ==> r[i] == s[|s| - 1 - i]
  {
    if s == [] then [] else Reverse(s[1..]) + [s[0]]
  }

  /** Reversing keeps the same elements. */
  lemma ReverseElements<R>(s: seq<R>)
    ensures forall x :: x in Reverse(s) <==> x in s
  {
    var r := Reverse(s);
    forall x | x in s ensures x in r {
      var k :| 0 <= k < |s| && s[k] == x;
      assert r[|s| - 1 - k] == x;
    }
  }

  /** Reversing an ascending sequence gives a descending one. */
  lemma ReverseDescending<R>(s: seq<R>, key: R -> int)
    requires Ascending(s, key)
    ensures Descending(Reverse(s), key)
  {
    var r := Reverse(s);
    forall i, j | 0 <= i < j < |r| ensures key(r[i]) > key(r[j]) {
      assert r[i] == s[|s| - 1 - i] && r[j] == s[|s| - 1 - j];
    }
  }

  function Max0(n: int): nat {
    if n < 0 then 0 else n
  }

  /** LINQ `Skip(n)`: a count at or below zero skips nothing. */
  function Skip<R>(s: seq<R>, n: int): seq<R> {
    if n <= 0 then s else if n >= |s| then [] else s[n..]
  }

  /** LINQ `Take(n)`: a count at or below zero takes nothing. */
  function Take<R>(s: seq<R>, n: int): seq<R> {
    if n <= 0 then [] else if n >= |s| then s else s[..n]
  }

  /** The page size the data access classes use: `take == 0 ? 10 : take`. */
  function EffectiveTake(take: int): int {
    if take == 0 then 10 else take
  }

  /** `Skip(skip).Take(EffectiveTake(take))`: the window of at most `take` rows (ten when `take`
      is 0) that starts `skip` rows in. */
  function Page<R>(s: seq<R>, take: int, skip: int): (r: seq<R>)
    ensures |r| == if Max0(skip) >= |s| then 0 else Min(Max0(EffectiveTake(take)), |s| - Max0(skip))
    ensures forall i :: 0 <= i < |r| ==> Max0(skip) + i < |s| && r[i] == s[Max0(skip) + i]
  {
    Take(Skip(s, skip), EffectiveTake(take))
  }

  function Min(a: int, b: int): int {
    if a <= b then a else b
  }

  /** A page of a descending sequence is descending. */
  lemma PageDescending<R>(s: seq<R>, key: R -> int, take: int, skip: int)
    requires Descending(s, key)
    ensures Descending(Page(s, take, skip), key)
  {
    var r := Page(s, take, skip);
    forall i, j | 0 <= i < j < |r| ensures key(r[i]) > key(r[j]) {
      assert r[i] == s[Max0(skip) + i] && r[j] == s[Max0(skip) + j];
    }
  }

  /** The rows the endpoints skip to reach page `pageNumber` (counted from 1) of `pageSize`
      rows: none for the first page, a negative count before it. */
  function SearchSkip(pageNumber: int, pageSize: int): (r: int)
    ensures pageNumber == 1 ==> r == 0
    ensures pageNumber >= 1 && pageSize >= 0 ==> r >= 0
    ensures pageNumber < 1 && pageSize > 0 ==> r < 0
  {
    (pageNumber - 1) * pageSize
  }

  /** The sizes of two adjacent windows of `size` rows add up to the window of twice the size. */
  lemma AdjacentSizes(n: int, k: int, size: int)
    requires n >= 0 && k >= 0 && size > 0
    ensures PageSize(n, size, k) + PageSize(n, size, k + size) == PageSize(n, 2 * size, k)
  {
    assert EffectiveTake(size) == size && EffectiveTake(2 * size) == 2 * size;
    if k + size >= n {
      assert PageSize(n, size, k + size) == 0;
    } else {
      assert PageSize(n, size, k) == size;
    }
  }

  /** Two windows of `size` rows side by side are the window of twice the size. */
  lemma AdjacentWindows<R>(s: seq<R>, k: int, size: int)
    requires k >= 0 && size > 0
    ensures Page(s, size, k) + Page(s, size, k + size) == Page(s, 2 * size, k)
  {
    var a := Page(s, size, k);
    var b := Page(s, size, k + size);
    var w := Page(s, 2 * size, k);
    AdjacentSizes(|s|, k, size);
    assert |a| == PageSize(|s|, size, k) && |b| == PageSize(|s|, size, k + size);
    assert |a + b| == |w|;
    forall i | 0 <= i < |w| ensures (a + b)[i] == w[i] {
      if i >= |a| {
        assert |a| == size;
        assert b[i - size] == s[k + i];
      }
    }
  }


  /** The next page starts one page further on. */
  lemma NextPageSkip(pageNumber: int, pageSize: int)
    ensures SearchSkip(pageNumber + 1, pageSize) == SearchSkip(pageNumber, pageSize) + pageSize
  {
    var m := pageNumber - 1;
    assert (m + 1) * pageSize == m * pageSize + pageSize;
  }

  /** Pages follow one another: page `p` and page `p + 1` together are the window of twice the
      size that starts where page `p` starts. */
  lemma ConsecutivePages<R>(s: seq<R>, pageNumber: int, pageSize: int)
    requires pageNumber >= 1 && pageSize > 0
    ensures Page(s, pageSize, SearchSkip(pageNumber, pageSize)) + Page(s, pageSize, SearchSkip(pageNumber + 1, pageSize))
            == Page(s, 2 * pageSize, SearchSkip(pageNumber, pageSize))
  {
    NextPageSkip(pageNumber, pageSize);
    AdjacentWindows(s, SearchSkip(pageNumber, pageSize), pageSize);
  }

  /** The size of the page `Page(s, take, skip)` of a sequence of `n` rows. */
  function PageSize(n: int, take: int, skip: int): int {
    if Max0(skip) >= n then 0 else Min(Max0(EffectiveTake(take)), n - Max0(skip))
  }

  /** `OrderByDescending(key).Skip(skip).Take(take == 0 ? 10 : take)` of rows kept in ascending
      key order: the `skip`-th and following rows counted from the largest key. */
  function DescendingPage<R>(q: seq<R>, key: R -> int, take: int, skip: int): (r: seq<R>)
    requires Ascending(q, key)
    ensures Descending(r, key)
    ensures |r| == PageSize(|q|, take, skip)
    ensures forall i :: 0 <= i < |r| ==> Max0(skip) + i < |q| && r[i] == Reverse(q)[Max0(skip) + i]
    ensures forall i :: 0 <= i < |r| ==> r[i] in q
  {
    ReverseDescending(q, key);
    PageDescending(Reverse(q), key, take, skip);
    var r := Page(Reverse(q), take, skip);
    assert forall i :: 0 <= i < |r| ==> r[i] in q by {
      forall i | 0 <= i < |r| ensures r[i] in q {
        assert r[i] == q[|q| - 1 - (Max0(skip) + i)];
      }
    }
    r
  }
}
