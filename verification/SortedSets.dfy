/** `util.SortedSet`: a set kept as a strictly increasing list, over any total order. */
module SortedSets {
  import opened Seqs

  ghost predicate TotalOrder<T(!new)>(less: (T, T) -> bool) {
    && (forall x :: !less(x, x))
    && (forall x, y, z :: less(x, y) && less(y, z) ==> less(x, z))
    && (forall x, y :: less(x, y) || less(y, x) || x == y)
  }

  ghost predicate Increasing<T>(less: (T, T) -> bool, s: seq<T>) {
    forall i, j :: 0 <= i < j < |s| ==> less(s[i], s[j])
  }

  /** An increasing list is determined by its set, so list equality is set equality. */
  lemma {:induction false} Canonical<T(!new)>(less: (T, T) -> bool, s: seq<T>, t: seq<T>)
    requires TotalOrder(less) && Increasing(less, s) && Increasing(less, t) && Elems(s) == Elems(t)
    ensures s == t
  {
    IncreasingCount(less, s);
    IncreasingCount(less, t);
    if s != [] {
      assert s[0] in Elems(t) && t[0] in Elems(s);
      var i :| 0 <= i < |t| && t[i] == s[0];
      var j :| 0 <= j < |s| && s[j] == t[0];
      assert i == 0;
      HeadApart(less, s);
      HeadApart(less, t);
      Canonical(less, s[1..], t[1..]);
    }
  }

  lemma HeadApart<T(!new)>(less: (T, T) -> bool, s: seq<T>)
    requires TotalOrder(less) && Increasing(less, s) && s != []
    ensures Increasing(less, s[1..]) && Elems(s[1..]) == Elems(s) - {s[0]}
  {
    var tail := s[1..];
    forall x | x in tail ensures x != s[0] {
      var i :| 0 <= i < |tail| && tail[i] == x;
      assert less(s[0], s[i + 1]);
    }
    assert s == [s[0]] + tail;
    ElemsConcat([s[0]], tail);
  }

  /** i is where x belongs: what is before is less, what is from there on is not. */
  ghost predicate Splits<T>(less: (T, T) -> bool, s: seq<T>, x: T, i: nat) {
    && i <= |s|
    && (forall k :: 0 <= k < i ==> less(s[k], x))
    && (forall k :: i <= k < |s| ==> !less(s[k], x))
  }

  /** `bisect_left(s, x, from)`: a correct lower bound makes it the search of the whole. */
  method BisectLeft<T(!new)>(less: (T, T) -> bool, s: seq<T>, x: T, from: nat) returns (i: nat)
    requires TotalOrder(less) && Increasing(less, s)
    requires from <= |s| && forall k :: 0 <= k < from ==> less(s[k], x)
    ensures Splits(less, s, x, i) && from <= i
  {
    var lo, hi := from, |s|;
    while lo < hi
      invariant from <= lo <= hi <= |s|
      invariant forall k :: 0 <= k < lo ==> less(s[k], x)
      invariant forall k :: hi <= k < |s| ==> !less(s[k], x)
    {
      var mid := (lo + hi) / 2;
      if less(s[mid], x) { lo := mid + 1; } else { hi := mid; }
    }
    i := lo;
  }

  lemma SplitDecides<T(!new)>(less: (T, T) -> bool, s: seq<T>, x: T, i: nat)
    requires TotalOrder(less) && Increasing(less, s) && Splits(less, s, x, i)
    ensures x in s <==> i < |s| && s[i] == x
  {
    if x in s {
      var k :| 0 <= k < |s| && s[k] == x;
      assert !less(x, x);
    }
  }

  lemma InsertAt<T(!new)>(less: (T, T) -> bool, s: seq<T>, x: T, i: nat)
    requires TotalOrder(less) && Increasing(less, s) && Splits(less, s, x, i) && x !in s
    ensures Increasing(less, s[..i] + [x] + s[i..])
    ensures Elems(s[..i] + [x] + s[i..]) == Elems(s) + {x}
  {
    var t := s[..i] + [x] + s[i..];
    forall k, m | 0 <= k < m < |t| ensures less(t[k], t[m]) {
      if m == i {
        assert less(s[k], x);
      } else if k == i {
        assert !less(s[m - 1], x) && s[m - 1] != x;
      }
    }
    assert s == s[..i] + s[i..];
    ElemsConcat(s[..i], s[i..]);
    ElemsAppend(s[..i], x);
    ElemsConcat(s[..i] + [x], s[i..]);
  }

  lemma RemoveAt<T(!new)>(less: (T, T) -> bool, s: seq<T>, i: nat)
    requires TotalOrder(less) && Increasing(less, s) && i < |s|
    ensures Increasing(less, s[..i] + s[i + 1..])
    ensures Elems(s[..i] + s[i + 1..]) == Elems(s) - {s[i]}
  {
    var t := s[..i] + s[i + 1..];
    forall k, m | 0 <= k < m < |t| ensures less(t[k], t[m]) {
      assert t[k] == s[if k < i then k else k + 1] && t[m] == s[if m < i then m else m + 1];
    }
    forall x ensures x in t <==> x in s && x != s[i] {
      if x in t {
        var k :| 0 <= k < |t| && t[k] == x;
        assert t[k] == s[if k < i then k else k + 1];
        assert k < i ==> less(s[k], s[i]);
        assert k >= i ==> less(s[i], s[k + 1]);
      }
      if x in s && x != s[i] {
        var k :| 0 <= k < |s| && s[k] == x;
        assert t[if k < i then k else k - 1] == x;
      }
    }
  }

  lemma AppendLast<T(!new)>(less: (T, T) -> bool, s: seq<T>, x: T)
    requires TotalOrder(less) && Increasing(less, s) && forall k :: 0 <= k < |s| ==> less(s[k], x)
    ensures Increasing(less, s + [x]) && Elems(s + [x]) == Elems(s) + {x}
  {
    ElemsAppend(s, x);
  }

  class SortedSet<T(==, !new)> {
    const less: (T, T) -> bool
    var items: seq<T>

    ghost predicate Valid()
      reads this
    {
      TotalOrder(less) && Increasing(less, items)
    }

    ghost function Contents(): set<T>
      reads this
    {
      Elems(items)
    }

    constructor (less: (T, T) -> bool)
      requires TotalOrder(less)
      ensures Valid() && items == [] && this.less == less
    {
      this.less := less;
      this.items := [];
    }

    method Contains(item: T) returns (found: bool)
      requires Valid()
      ensures found <==> item in Contents()
    {
      var i := BisectLeft(less, items, item, 0);
      SplitDecides(less, items, item, i);
      found := i < |items| && items[i] == item;
    }

    method Add(item: T)
      requires Valid()
      modifies this
      ensures Valid() && Contents() == old(Contents()) + {item}
    {
      hide TotalOrder, Increasing, Splits, Elems;
      var i := BisectLeft(less, items, item, 0);
      SplitDecides(less, items, item, i);
      SplitInRange(less, items, item, i);
      if i < |items| {
        if items[i] != item {
          InsertAt(less, items, item, i);
          items := items[..i] + [item] + items[i..];
        } else {
          AlreadyIn(items, item);
        }
      } else {
        InsertAt(less, items, item, i);
        assert items[..i] + [item] + items[i..] == items + [item];
        items := items + [item];
      }
    }

    method Update(iterable: seq<T>)
      requires Valid()
      modifies this
      ensures Valid() && Contents() == old(Contents()) + Elems(iterable)
    {
      for k := 0 to |iterable|
        invariant Valid() && Contents() == old(Contents()) + Elems(iterable[..k])
      {
        Add(iterable[k]);
        assert iterable[..k + 1] == iterable[..k] + [iterable[k]];
        ElemsAppend(iterable[..k], iterable[k]);
      }
      assert iterable[..|iterable|] == iterable;
    }

    /** `remove`: false is the KeyError. */
    method Remove(item: T) returns (ok: bool)
      requires Valid()
      modifies this
      ensures Valid() && Contents() == old(Contents()) - {item}
      ensures ok <==> item in old(Contents())
    {
      var i := BisectLeft(less, items, item, 0);
      SplitDecides(less, items, item, i);
      ok := i < |items| && items[i] == item;
      if ok {
        RemoveAt(less, items, i);
        items := items[..i] + items[i + 1..];
      }
    }

    /** `pop`: the greatest item; nothing is the KeyError. */
    method Pop() returns (item: Option<T>)
      requires Valid()
      modifies this
      ensures Valid()
      ensures item.None? <==> old(Contents()) == {}
      ensures item.None? ==> Contents() == {}
      ensures item.Some? ==> item.value in old(Contents()) && Contents() == old(Contents()) - {item.value}
      ensures item.Some? ==> forall x :: x in Contents() ==> less(x, item.value)
    {
      if items == [] {
        item := None;
      } else {
        var last := |items| - 1;
        assert items[last] in Elems(items);
        RemoveAt(less, items, last);
        assert items[..last] + items[last + 1..] == items[..last];
        item := Some(items[last]);
        items := items[..last];
      }
    }

    method Copy() returns (copy: SortedSet<T>)
      requires Valid()
      ensures fresh(copy) && copy.Valid() && copy.less == less && copy.items == items
    {
      copy := new SortedSet(less);
      copy.items := items;
    }

    /** `union` with a sorted set: the merge with a moving lower bound. */
    method Union(other: SortedSet<T>) returns (union: SortedSet<T>)
      requires Valid() && other.Valid() && other.less == less
      ensures fresh(union) && union.Valid() && union.less == less
      ensures union.Contents() == Contents() + other.Contents()
    {
      union := Copy();
      var i: nat := 0;
      for k := 0 to |other.items|
        invariant union.Valid() && union.less == less
        invariant union.Contents() == Contents() + Elems(other.items[..k])
        invariant i <= |union.items|
        invariant forall j, m :: 0 <= j < i && k <= m < |other.items| ==> less(union.items[j], other.items[m])
      {
        var item := other.items[k];
        i := union.Merge(item, i);
        assert other.items[..k + 1] == other.items[..k] + [item];
        ElemsAppend(other.items[..k], item);
      }
      assert other.items[..|other.items|] == other.items;
    }

    /** One turn of the merge: find the item's place from the lower bound on, and put it there
        unless it is there already. */
    method Merge(item: T, from: nat) returns (i: nat)
      requires Valid() && from <= |items| && forall j :: 0 <= j < from ==> less(items[j], item)
      modifies this
      ensures Valid() && Contents() == old(Contents()) + {item}
      ensures i <= |items| && forall j :: 0 <= j < i ==> less(items[j], item)
    {
      i := BisectLeft(less, items, item, from);
      SplitDecides(less, items, item, i);
      if i < |items| {
        if items[i] != item {
          InsertAt(less, items, item, i);
          items := items[..i] + [item] + items[i..];
        } else {
          AlreadyIn(items, item);
        }
      } else {
        InsertAt(less, items, item, i);
        assert items[..i] + [item] + items[i..] == items + [item];
        items := items + [item];
      }
    }

    /** `_diff` with a sorted set. */
    method Difference(other: SortedSet<T>) returns (diff: SortedSet<T>)
      requires Valid() && other.Valid() && other.less == less
      ensures fresh(diff) && diff.Valid() && diff.less == less
      ensures diff.Contents() == Contents() - other.Contents()
    {
      diff := new SortedSet(less);
      var i := 0;
      for k := 0 to |items|
        invariant diff.Valid() && diff.less == less && i <= |other.items|
        invariant diff.Contents() == Elems(items[..k]) - other.Contents()
        invariant forall j, m :: 0 <= j < i && k <= m < |items| ==> less(other.items[j], items[m])
        invariant forall j, m :: 0 <= j < |diff.items| && k <= m < |items| ==> less(diff.items[j], items[m])
      {
        var item := items[k];
        i := BisectLeft(less, other.items, item, i);
        SplitDecides(less, other.items, item, i);
        NextItems(less, items, k);
        if i < |other.items| {
          if item != other.items[i] {
            AppendLast(less, diff.items, item);
            diff.items := diff.items + [item];
          }
        } else {
          AppendLast(less, diff.items, item);
          diff.items := diff.items + [item];
        }
      }
      assert items[..|items|] == items;
    }

    /** `_intersect` with a sorted set: once the other set is passed, nothing more can match. */
    method Intersection(other: SortedSet<T>) returns (isect: SortedSet<T>)
      requires Valid() && other.Valid() && other.less == less
      ensures fresh(isect) && isect.Valid() && isect.less == less
      ensures isect.Contents() == Contents() * other.Contents()
    {
      isect := new SortedSet(less);
      var i, k := 0, 0;
      while k < |items|
        invariant 0 <= k <= |items|
        invariant isect.Valid() && isect.less == less && i <= |other.items|
        invariant isect.Contents() == Elems(items[..k]) * other.Contents()
        invariant forall j, m :: 0 <= j < i && k <= m < |items| ==> less(other.items[j], items[m])
        invariant forall j, m :: 0 <= j < |isect.items| && k <= m < |items| ==> less(isect.items[j], items[m])
      {
        var item := items[k];
        i := BisectLeft(less, other.items, item, i);
        SplitDecides(less, other.items, item, i);
        NextItems(less, items, k);
        if i < |other.items| {
          if item == other.items[i] {
            AppendLast(less, isect.items, item);
            isect.items := isect.items + [item];
          }
        } else {
          NoneLeft(less, items, k, other.items);
          return;
        }
        k := k + 1;
      }
      assert items[..|items|] == items;
    }

    method SymmetricDifference(other: SortedSet<T>) returns (result: SortedSet<T>)
      requires Valid() && other.Valid() && other.less == less
      ensures fresh(result) && result.Valid() && result.less == less
      ensures result.Contents() == (Contents() - other.Contents()) + (other.Contents() - Contents())
    {
      var mine := Difference(other);
      var theirs := other.Difference(this);
      result := mine.Union(theirs);
    }

    method IsSubset(other: SortedSet<T>) returns (subset: bool)
      requires Valid() && other.Valid() && other.less == less
      ensures subset <==> Contents() <= other.Contents()
    {
      var isect := Intersection(other);
      IncreasingCount(less, isect.items);
      IncreasingCount(less, items);
      subset := |isect.items| == |items|;
      if subset {
        SubsetOfSameSize(isect.Contents(), Contents());
      } else {
        SubsetSize(isect.Contents(), Contents());
      }
    }
  }

  lemma SplitInRange<T>(less: (T, T) -> bool, s: seq<T>, x: T, i: nat)
    requires Splits(less, s, x, i)
    ensures i <= |s|
  {
  }

  lemma AlreadyIn<T>(s: seq<T>, x: T)
    requires x in s
    ensures Elems(s) == Elems(s) + {x}
  {
  }

  lemma IncreasingCount<T(!new)>(less: (T, T) -> bool, s: seq<T>)
    requires TotalOrder(less) && Increasing(less, s)
    ensures |Elems(s)| == |s|
  {
    forall i, j | 0 <= i < j < |s| ensures s[i] != s[j] { assert less(s[i], s[j]); }
    DistinctCardinality(s);
  }

  /** Everything before an item of an increasing list is less than everything after it. */
  lemma NextItems<T(!new)>(less: (T, T) -> bool, s: seq<T>, k: nat)
    requires TotalOrder(less) && Increasing(less, s) && k < |s|
    ensures Elems(s[..k + 1]) == Elems(s[..k]) + {s[k]}
    ensures forall x, m :: less(x, s[k]) && k < m < |s| ==> less(x, s[m])
    ensures forall m :: k < m < |s| ==> less(s[k], s[m])
  {
    assert s[..k + 1] == s[..k] + [s[k]];
    ElemsAppend(s[..k], s[k]);
  }

  lemma NoneLeft<T(!new)>(less: (T, T) -> bool, s: seq<T>, k: nat, t: seq<T>)
    requires TotalOrder(less) && Increasing(less, s) && k < |s| && forall j :: 0 <= j < |t| ==> less(t[j], s[k])
    ensures Elems(s[..k]) * Elems(t) == Elems(s) * Elems(t)
  {
    forall x | x in Elems(s) && x in Elems(t) ensures x in Elems(s[..k]) {
      var i :| 0 <= i < |s| && s[i] == x;
      var j :| 0 <= j < |t| && t[j] == x;
      assert less(t[j], s[k]);
      assert s[..k][i] == x;
    }
  }
}
