/** How the services read a table: filter the rows by a `where` predicate,
    order them newest first, count the matches and cut out one page. The
    store itself is not modelled; these are the query semantics the services
    rely on. */
module Query {

  import opened Wrappers

  // ---------- sequences ----------

  function Filter<T>(s: seq<T>, keep: T -> bool): (r: seq<T>)
    ensures |r| <= |s|
    ensures forall i :: 0 <= i < |r| ==> r[i] in s && keep(r[i])
    ensures forall i :: 0 <= i < |s| && keep(s[i]) ==> s[i] in r
  {
    if s == [] then []
    else (if keep(s[0]) then [s[0]] else []) + Filter(s[1..], keep)
  }

  /** The filter keeps each accepted row exactly as often as it occurs and
      drops every other row. */
  lemma {:induction false} FilterCount<T>(s: seq<T>, keep: T -> bool)
    ensures forall v :: v in s ==> multiset(Filter(s, keep))[v] == if keep(v) then multiset(s)[v] else 0
    ensures forall v :: v in Filter(s, keep) ==> v in s
  {
    if s != [] {
      FilterCount(s[1..], keep);
      var rest := Filter(s[1..], keep);
      var head: seq<T> := if keep(s[0]) then [s[0]] else [];
      assert s == [s[0]] + s[1..];
      assert multiset(s) == multiset([s[0]]) + multiset(s[1..]);
      assert multiset(Filter(s, keep)) == multiset(head) + multiset(rest);
      forall v | v in s
        ensures multiset(Filter(s, keep))[v] == if keep(v) then multiset(s)[v] else 0
      {
        if v !in s[1..] {
          assert multiset(s[1..])[v] == 0;
          assert v !in rest;
        }
      }
    }
  }

  ghost predicate Distinct<T>(s: seq<T>) {
    forall i, j :: 0 <= i < j < |s| ==> s[i] != s[j]
  }

  lemma {:induction false} FilterDistinct<T>(s: seq<T>, keep: T -> bool)
    requires Distinct(s)
    ensures Distinct(Filter(s, keep))
  {
    if s != [] {
      assert Distinct(s[1..]);
      FilterDistinct(s[1..], keep);
      var rest := Filter(s[1..], keep);
      assert s[0] !in s[1..];
      assert s[0] !in rest;
    }
  }

  /** A sequence without repetitions has as many elements as its set. */
  lemma {:induction false} DistinctCard<T>(s: seq<T>)
    requires Distinct(s)
    ensures |set x | x in s| == |s|
  {
    if s != [] {
      assert Distinct(s[1..]);
      DistinctCard(s[1..]);
      assert s[0] !in s[1..];
      assert (set x | x in s) == (set x | x in s[1..]) + {s[0]};
    }
  }

  predicate SortedDesc<T>(s: seq<T>, key: T -> int) {
    forall i, j :: 0 <= i < j < |s| ==> key(s[i]) >= key(s[j])
  }

  function Insert<T>(x: T, s: seq<T>, key: T -> int): seq<T> {
    if s == [] || key(x) >= key(s[0]) then [x] + s
    else [s[0]] + Insert(x, s[1..], key)
  }

  /** A row no smaller than every row of a descending list may go in
      front of it. */
  lemma ConsSorted<T>(h: T, t: seq<T>, key: T -> int)
    requires SortedDesc(t, key)
    requires forall i :: 0 <= i < |t| ==> key(h) >= key(t[i])
    ensures SortedDesc([h] + t, key)
  {
    var r := [h] + t;
    forall i, j | 0 <= i < j < |r| ensures key(r[i]) >= key(r[j]) {
      assert r[j] == t[j - 1];
      if i > 0 {
        assert r[i] == t[i - 1];
      }
    }
  }

  /** Inserting adds exactly the new row. */
  lemma {:induction false} InsertCount<T>(x: T, s: seq<T>, key: T -> int)
    ensures multiset(Insert(x, s, key)) == multiset(s) + multiset{x}
    ensures forall v :: v in Insert(x, s, key) ==> v == x || v in s
  {
    var r := Insert(x, s, key);
    if s == [] || key(x) >= key(s[0]) {
      assert multiset(r) == multiset{x} + multiset(s);
    } else {
      var t := s[1..];
      InsertCount(x, t, key);
      assert s == [s[0]] + t;
      assert multiset(r) == multiset{s[0]} + multiset(Insert(x, t, key));
    }
    forall v | v in r ensures v == x || v in s {
      assert v in multiset(r);
    }
  }

  lemma {:induction false} InsertSorted<T>(x: T, s: seq<T>, key: T -> int)
    requires SortedDesc(s, key)
    ensures SortedDesc(Insert(x, s, key), key)
  {
    if s == [] || key(x) >= key(s[0]) {
      forall i | 0 <= i < |s| ensures key(x) >= key(s[i]) {
        assert key(s[0]) >= key(s[i]);
      }
      ConsSorted(x, s, key);
    } else {
      var t := s[1..];
      InsertSorted(x, t, key);
      InsertCount(x, t, key);
      var rest := Insert(x, t, key);
      forall i | 0 <= i < |rest| ensures key(s[0]) >= key(rest[i]) {
        if rest[i] != x {
          assert rest[i] in rest;
          var j :| 0 <= j < |t| && t[j] == rest[i];
          assert s[j + 1] == t[j];
        }
      }
      ConsSorted(s[0], rest, key);
    }
  }

  /** `orderBy: { <key>: 'desc' }` (ties in any order). */
  function SortDesc<T>(s: seq<T>, key: T -> int): (r: seq<T>)
    ensures SortedDesc(r, key)
    ensures multiset(r) == multiset(s)
  {
    if s == [] then []
    else
      assert s == [s[0]] + s[1..];
      InsertSorted(s[0], SortDesc(s[1..], key), key);
      InsertCount(s[0], SortDesc(s[1..], key), key);
      Insert(s[0], SortDesc(s[1..], key), key)
  }

  // ---------- tables ----------

  /** The ids of the rows a `where` predicate selects. */
  ghost function Matching<K, V>(table: map<K, V>, keep: V -> bool): set<K> {
    set k | k in table && keep(table[k])
  }

  /** The ids of a table as a sequence without repetitions. */
  method Keys<K, V>(table: map<K, V>) returns (ks: seq<K>)
    ensures Distinct(ks)
    ensures forall k :: k in ks <==> k in table
  {
    ks := [];
    var left := table.Keys;
    while left != {}
      invariant left <= table.Keys
      invariant Distinct(ks)
      invariant forall k :: k in ks <==> k in table && k !in left
      decreases |left|
    {
      var k :| k in left;
      ks := ks + [k];
      left := left - {k};
    }
  }

  /** `findMany({ where, orderBy: desc })` without paging: the selected
      rows, newest first, and exactly as many as the predicate matches. */
  method Select<K, V>(table: map<K, V>, keep: V -> bool, key: V -> int) returns (rows: seq<V>)
    ensures |rows| == |Matching(table, keep)|
    ensures forall v :: v in rows <==> Selected(table, keep, v)
    ensures SortedDesc(rows, key)
  {
    var ks := Keys(table);
    var hit := Filter(ks, k => k in table && keep(table[k]));
    FilterDistinct(ks, k => k in table && keep(table[k]));
    HitIsMatching(table, keep, ks, hit);
    DistinctCard(hit);
    var picked := seq(|hit|, i requires 0 <= i < |hit| => table[hit[i]]);
    PickedAreSelected(table, keep, hit, picked);
    rows := SortDesc(picked, key);
    SameMembers(rows, picked);
  }

  ghost predicate Selected<K, V>(table: map<K, V>, keep: V -> bool, v: V) {
    exists k :: k in table && table[k] == v && keep(v)
  }

  /** `rows` is an ordering of the selection: every selected row, once per
      matching id, newest first. Rows with equal keys may come in any
      order. */
  ghost predicate Selection<K, V>(table: map<K, V>, keep: V -> bool, key: V -> int, rows: seq<V>) {
    && |rows| == |Matching(table, keep)|
    && (forall i :: 0 <= i < |rows| ==> Selected(table, keep, rows[i]))
    && (forall k :: k in table && keep(table[k]) ==> table[k] in rows)
    && SortedDesc(rows, key)
  }

  lemma HitIsMatching<K, V>(table: map<K, V>, keep: V -> bool, ks: seq<K>, hit: seq<K>)
    requires forall k :: k in ks <==> k in table
    requires hit == Filter(ks, k => k in table && keep(table[k]))
    ensures (set k | k in hit) == Matching(table, keep)
    ensures forall k :: k in hit <==> k in table && keep(table[k])
  {
    forall k | k in hit ensures k in table && keep(table[k]) {
      var i :| 0 <= i < |hit| && hit[i] == k;
    }
    forall k | k in table && keep(table[k]) ensures k in hit {
      var i :| 0 <= i < |ks| && ks[i] == k;
    }
  }

  lemma PickedAreSelected<K, V>(table: map<K, V>, keep: V -> bool, hit: seq<K>, picked: seq<V>)
    requires forall k :: k in hit <==> k in table && keep(table[k])
    requires |picked| == |hit| && forall i :: 0 <= i < |hit| ==> picked[i] == table[hit[i]]
    ensures forall v :: v in picked <==> Selected(table, keep, v)
  {
    forall v ensures v in picked <==> Selected(table, keep, v) {
      if v in picked {
        var i :| 0 <= i < |picked| && picked[i] == v;
        assert hit[i] in hit;
      }
      if Selected(table, keep, v) {
        var k :| k in table && table[k] == v && keep(v);
        assert k in hit;
        var i :| 0 <= i < |hit| && hit[i] == k;
        assert picked[i] == v;
      }
    }
  }

  lemma SameMembers<T>(a: seq<T>, b: seq<T>)
    requires multiset(a) == multiset(b)
    ensures |a| == |b|
    ensures forall v :: v in a <==> v in b
  {
    assert |multiset(a)| == |multiset(b)|;
    forall v ensures v in a <==> v in b {
      assert v in a <==> v in multiset(a);
      assert v in b <==> v in multiset(b);
    }
  }
}

/** The paging arithmetic every list endpoint repeats:
    `take = Number(limit) || 10`, `skip = (page - 1) * take`,
    `totalPages = Math.ceil(totalItems / take)`. */
module Pagination {

  import opened Wrappers
  import Query

  datatype Meta = Meta(page: int, limit: int, totalItems: nat, totalPages: nat)

  datatype Page<T> = Page(items: seq<T>, meta: Meta)

  /** `Number(limit) || 10`; a supplied limit is a non-negative integer. */
  function Take(limit: Option<int>): (take: int)
    requires limit.Some? ==> limit.value >= 0
    ensures take >= 1
    ensures limit.Some? && limit.value != 0 ==> take == limit.value
  {
    if limit.None? || limit.value == 0 then 10 else limit.value
  }

  /** `Math.ceil(n / d)`. */
  function CeilDiv(n: nat, d: int): (q: nat)
    requires d >= 1
    ensures q * d >= n
    ensures q > 0 ==> (q - 1) * d < n
  {
    var q := (n + d - 1) / d;
    var r := (n + d - 1) % d;
    assert q * d + r == n + d - 1;
    assert (q - 1) * d == q * d - d;
    q
  }

  function MetaOf(page: int, limit: Option<int>, totalItems: nat): (m: Meta)
    requires limit.Some? ==> limit.value >= 0
    ensures m.limit == Take(limit) && m.page == page && m.totalItems == totalItems
    ensures m.totalPages * m.limit >= totalItems
    ensures m.totalPages > 0 ==> (m.totalPages - 1) * m.limit < totalItems
  {
    Meta(page, Take(limit), totalItems, CeilDiv(totalItems, Take(limit)))
  }

  /** `skip = (page - 1) * take`. */
  function Skip(page: int, take: int): (skip: nat)
    requires page >= 1 && take >= 1
  {
    MulMono(0, page - 1, take);
    (page - 1) * take
  }

  /** The rows from position `skip` on, at most `take` of them. */
  function Window<T>(s: seq<T>, skip: nat, take: nat): (w: seq<T>)
    ensures |w| == if skip >= |s| then 0 else if skip + take <= |s| then take else |s| - skip
    ensures forall i :: 0 <= i < |w| ==> w[i] == s[skip + i]
  {
    if skip >= |s| then []
    else if skip + take <= |s| then s[skip..skip + take]
    else s[skip..]
  }

  /** `findMany({ skip, take })` over the ordered matches together with
      `count({ where })`: the page holds the matches from position
      `(page - 1) * take` on, at most `take` of them, and the meta counts
      every match, not just the page. */
  function Paginate<T>(matches: seq<T>, page: int, limit: Option<int>): (p: Page<T>)
    requires page >= 1
    requires limit.Some? ==> limit.value >= 0
    ensures p.meta == MetaOf(page, limit, |matches|)
    ensures |p.items| <= p.meta.limit
    ensures var skip := (page - 1) * p.meta.limit;
      && (skip < |matches| ==> |p.items| == if skip + p.meta.limit <= |matches| then p.meta.limit else |matches| - skip)
      && (skip >= |matches| ==> p.items == [])
      && forall i :: 0 <= i < |p.items| ==> p.items[i] == matches[skip + i]
  {
    Page(Window(matches, Skip(page, Take(limit)), Take(limit)), MetaOf(page, limit, |matches|))
  }

  lemma MulMono(a: int, b: int, c: int)
    requires a <= b && c >= 0
    ensures a * c <= b * c
  {
  }

  /** Euclidean division of a position by the page size. */
  lemma DivMod(k: nat, take: int)
    requires take >= 1
    ensures (k / take) * take + k % take == k
    ensures 0 <= k % take < take
    ensures k / take >= 0
  {
  }

  /** Every match appears on exactly the page its position says, so walking
      the pages 1..totalPages visits all matches. */
  lemma PageHolds<T>(matches: seq<T>, limit: Option<int>, k: nat)
    requires limit.Some? ==> limit.value >= 0
    requires k < |matches|
    ensures var take := Take(limit);
      var page := k / take + 1;
      && 1 <= page <= MetaOf(1, limit, |matches|).totalPages
      && |Paginate(matches, page, limit).items| > k % take
      && Paginate(matches, page, limit).items[k % take] == matches[k]
  {
    var take := Take(limit);
    var q := k / take;
    var r := k % take;
    DivMod(k, take);
    var page := q + 1;
    var total := CeilDiv(|matches|, take);
    if page > total {
      MulMono(total, q, take);
      assert false;
    }
    var skip := Skip(page, take);
    assert skip == q * take;
    var w := Window(matches, skip, take);
    assert |w| > r && w[r] == matches[k];
  }

  /** A page past the last one is empty, and a page up to the last one is
      not. */
  lemma PageEmptyIffPastEnd<T>(matches: seq<T>, page: int, limit: Option<int>)
    requires page >= 1
    requires limit.Some? ==> limit.value >= 0
    ensures Paginate(matches, page, limit).items == [] <==> page > MetaOf(page, limit, |matches|).totalPages
  {
    var take := Take(limit);
    var total := CeilDiv(|matches|, take);
    if page > total {
      MulMono(total, page - 1, take);
    } else {
      MulMono(page - 1, total - 1, take);
    }
  }

  /** A page of an ordered list is ordered, and holds only entries of the
      list. */
  lemma PageOfSorted<T>(matches: seq<T>, page: int, limit: Option<int>, key: T -> int)
    requires page >= 1
    requires limit.Some? ==> limit.value >= 0
    requires Query.SortedDesc(matches, key)
    ensures Query.SortedDesc(Paginate(matches, page, limit).items, key)
    ensures forall v :: v in Paginate(matches, page, limit).items ==> v in matches
  {
    WindowSorted(matches, Skip(page, Take(limit)), Take(limit), key);
  }

  /** A window of a descending list is descending and holds only entries of
      the list. */
  lemma WindowSorted<T>(s: seq<T>, skip: nat, take: nat, key: T -> int)
    requires Query.SortedDesc(s, key)
    ensures Query.SortedDesc(Window(s, skip, take), key)
    ensures forall v :: v in Window(s, skip, take) ==> v in s
  {
    var t := Window(s, skip, take);
    forall i, k | 0 <= i < k < |t| ensures key(t[i]) >= key(t[k]) {
      assert t[i] == s[skip + i] && t[k] == s[skip + k];
    }
    forall v | v in t ensures v in s {
      var i :| 0 <= i < |t| && t[i] == v;
      assert s[skip + i] == v;
    }
  }

  /** A paginated list endpoint: the rows the `where` selects, newest first,
      cut to the requested page, with meta counting every selected row.
      `rows` is the ordered selection the page is cut from. */
  method ListPage<K, V(==)>(table: map<K, V>, keep: V -> bool, key: V -> int, page: int, limit: Option<int>)
    returns (p: Page<V>, ghost rows: seq<V>)
    requires page >= 1
    requires limit.Some? ==> limit.value >= 0
    ensures Query.Selection(table, keep, key, rows)
    ensures p == Paginate(rows, page, limit)
    ensures forall v :: v in p.items ==> v in table.Values && keep(v)
    ensures Query.SortedDesc(p.items, key)
    ensures p.meta == MetaOf(page, limit, |Query.Matching(table, keep)|)
  {
    var selected := Query.Select(table, keep, key);
    rows := selected;
    p := Paginate(selected, page, limit);
    PageOfSorted(selected, page, limit, key);
    forall v | v in p.items
      ensures v in table.Values && keep(v)
    {
      assert Query.Selected(table, keep, v);
    }
  }
}
