/** `ORDER BY <text column> ASC`, ties in row order. */
module Sorting {
  import opened Text

  /** The rows a WHERE clause keeps, in row order. */
  function Selected(keep: seq<bool>, n: nat): (ids: seq<nat>)
    requires n <= |keep|
    ensures forall i :: 0 <= i < |ids| ==> ids[i] < n && keep[ids[i]]
    ensures forall id: nat :: id < n && keep[id] ==> id in ids
    ensures forall i, j :: 0 <= i < j < |ids| ==> ids[i] < ids[j]
  {
    if n == 0 then []
    else
      var rest := Selected(keep, n - 1);
      if keep[n - 1] then rest + [n - 1] else rest
  }

  /** The sort key of a row. */
  function KeyOf(keys: seq<string>, id: nat): string {
    if id < |keys| then keys[id] else ""
  }

  function Insert(keys: seq<string>, x: nat, ids: seq<nat>): (r: seq<nat>)
    ensures multiset(r) == multiset(ids) + multiset{x}
  {
    if ids == [] then [x]
    else if LexAtMost(KeyOf(keys, x), KeyOf(keys, ids[0])) then [x] + ids
    else
      assert ids == [ids[0]] + ids[1..];
      [ids[0]] + Insert(keys, x, ids[1..])
  }

  function SortIds(keys: seq<string>, ids: seq<nat>): (r: seq<nat>)
    ensures multiset(r) == multiset(ids)
  {
    if ids == [] then []
    else
      assert ids == [ids[0]] + ids[1..];
      Insert(keys, ids[0], SortIds(keys, ids[1..]))
  }

  predicate Sorted(keys: seq<string>, ids: seq<nat>) {
    forall i, j :: 0 <= i < j < |ids| ==> LexAtMost(KeyOf(keys, ids[i]), KeyOf(keys, ids[j]))
  }

  lemma AtMostTransitive(a: string, b: string, c: string)
    requires LexAtMost(a, b) && LexAtMost(b, c)
    ensures LexAtMost(a, c)
  {
    if LexLess(c, a) {
      LexTotal(a, b);
      LexTotal(b, c);
      if a != b && b != c {
        LexTransitive(a, b, c);
        LexTotal(a, c);
      }
    }
  }

  lemma {:induction false} InsertSorted(keys: seq<string>, x: nat, ids: seq<nat>)
    requires Sorted(keys, ids)
    ensures Sorted(keys, Insert(keys, x, ids))
  {
    if ids != [] {
      var head := ids[0];
      if LexAtMost(KeyOf(keys, x), KeyOf(keys, head)) {
        forall j | 0 <= j < |ids|
          ensures LexAtMost(KeyOf(keys, x), KeyOf(keys, ids[j]))
        {
          if j > 0 {
            AtMostTransitive(KeyOf(keys, x), KeyOf(keys, head), KeyOf(keys, ids[j]));
          }
        }
      } else {
        var rest := Insert(keys, x, ids[1..]);
        InsertSorted(keys, x, ids[1..]);
        LexTotal(KeyOf(keys, x), KeyOf(keys, head));
        forall j | 0 <= j < |rest|
          ensures LexAtMost(KeyOf(keys, head), KeyOf(keys, rest[j]))
        {
          assert rest[j] in multiset(rest);
          if rest[j] != x {
            assert rest[j] in ids[1..];
          }
        }
      }
    }
  }

  lemma {:induction false} SortIdsSorted(keys: seq<string>, ids: seq<nat>)
    ensures Sorted(keys, SortIds(keys, ids))
  {
    if ids != [] {
      SortIdsSorted(keys, ids[1..]);
      InsertSorted(keys, ids[0], SortIds(keys, ids[1..]));
    }
  }

  /** In key order, and in row order where the keys agree. */
  predicate Precedes(keys: seq<string>, x: nat, y: nat) {
    LexLess(KeyOf(keys, x), KeyOf(keys, y)) || (KeyOf(keys, x) == KeyOf(keys, y) && x < y)
  }

  predicate StablySorted(keys: seq<string>, ids: seq<nat>) {
    forall i, j :: 0 <= i < j < |ids| ==> Precedes(keys, ids[i], ids[j])
  }

  lemma PrecedesTransitive(keys: seq<string>, x: nat, y: nat, z: nat)
    requires Precedes(keys, x, y) && Precedes(keys, y, z)
    ensures Precedes(keys, x, z)
  {
    hide LexLess, KeyOf;
    if LexLess(KeyOf(keys, x), KeyOf(keys, y)) && LexLess(KeyOf(keys, y), KeyOf(keys, z)) {
      LexTransitive(KeyOf(keys, x), KeyOf(keys, y), KeyOf(keys, z));
    }
  }

  lemma {:induction false} InsertStable(keys: seq<string>, x: nat, ids: seq<nat>)
    requires StablySorted(keys, ids) && forall i :: 0 <= i < |ids| ==> x < ids[i]
    ensures StablySorted(keys, Insert(keys, x, ids))
  {
    hide LexLess, KeyOf, Precedes;
    if ids != [] {
      var head := ids[0];
      HeadFirst(keys, x, head);
      if LexAtMost(KeyOf(keys, x), KeyOf(keys, head)) {
        forall j | 0 <= j < |ids|
          ensures Precedes(keys, x, ids[j])
        {
          if j > 0 {
            PrecedesTransitive(keys, x, head, ids[j]);
          }
        }
      } else {
        var rest := Insert(keys, x, ids[1..]);
        InsertStable(keys, x, ids[1..]);
        forall j | 0 <= j < |rest|
          ensures Precedes(keys, head, rest[j])
        {
          assert rest[j] in multiset(rest);
          if rest[j] != x {
            assert rest[j] in ids[1..];
          }
        }
      }
    }
  }

  lemma HeadFirst(keys: seq<string>, x: nat, head: nat)
    requires x < head
    ensures if LexAtMost(KeyOf(keys, x), KeyOf(keys, head)) then Precedes(keys, x, head) else Precedes(keys, head, x)
  {
    LexTotal(KeyOf(keys, x), KeyOf(keys, head));
  }

  /** Sorting rows that come in row order leaves equal keys in row order. */
  lemma {:induction false} SortIdsStable(keys: seq<string>, ids: seq<nat>)
    requires forall i, j :: 0 <= i < j < |ids| ==> ids[i] < ids[j]
    ensures StablySorted(keys, SortIds(keys, ids))
  {
    hide Precedes, Insert;
    if ids != [] {
      var rest := SortIds(keys, ids[1..]);
      SortIdsStable(keys, ids[1..]);
      forall i | 0 <= i < |rest|
        ensures ids[0] < rest[i]
      {
        assert rest[i] in multiset(rest);
        assert rest[i] in ids[1..];
      }
      InsertStable(keys, ids[0], rest);
    }
  }

  predicate Distinct(ids: seq<nat>) {
    forall i, j :: 0 <= i < j < |ids| ==> ids[i] != ids[j]
  }

  lemma {:induction false} DistinctCounts(ids: seq<nat>)
    ensures Distinct(ids) <==> forall id :: multiset(ids)[id] <= 1
  {
    if ids != [] {
      var n := |ids| - 1;
      DistinctCounts(ids[..n]);
      assert ids == ids[..n] + [ids[n]];
      assert multiset(ids) == multiset(ids[..n]) + multiset{ids[n]};
      if forall id :: multiset(ids)[id] <= 1 {
        assert multiset(ids)[ids[n]] <= 1;
        assert ids[n] !in multiset(ids[..n]);
        forall i | 0 <= i < n
          ensures ids[i] != ids[n]
        {
          assert ids[..n][i] in multiset(ids[..n]);
        }
        assert forall id :: multiset(ids[..n])[id] <= multiset(ids)[id];
      }
      if Distinct(ids) {
        assert Distinct(ids[..n]);
        assert ids[n] !in ids[..n];
        forall id
          ensures multiset(ids)[id] <= 1
        {
          assert id in multiset(ids[..n]) <==> id in ids[..n];
        }
      }
    }
  }

  lemma SortIdsDistinct(keys: seq<string>, ids: seq<nat>)
    requires Distinct(ids)
    ensures Distinct(SortIds(keys, ids))
    ensures forall id :: id in SortIds(keys, ids) <==> id in ids
  {
    DistinctCounts(ids);
    DistinctCounts(SortIds(keys, ids));
    forall id
      ensures id in SortIds(keys, ids) <==> id in ids
    {
      assert id in SortIds(keys, ids) <==> id in multiset(SortIds(keys, ids));
      assert id in ids <==> id in multiset(ids);
    }
  }
}
