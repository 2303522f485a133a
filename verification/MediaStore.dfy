/** The god-mode media store: image payloads by id, bounded in characters, oldest out first. */
module MediaStore {
  datatype Item = Item(id: string, mime: string, payload: string)

  /** The image types that are accepted. */
  const ALLOWED: set<string> := {"image/png", "image/jpeg", "image/webp", "image/gif", "image/avif", "image/bmp"}

  function Total(items: seq<Item>): nat {
    if items == [] then 0 else |items[0].payload| + Total(items[1..])
  }

  predicate DistinctIds(items: seq<Item>) {
    forall i, j :: 0 <= i < j < |items| ==> items[i].id != items[j].id
  }

  function Without(items: seq<Item>, id: string): seq<Item> {
    if items == [] then [] else if items[0].id == id then items[1..] else [items[0]] + Without(items[1..], id)
  }

  /** The suffix from `k` is within the budget, or is the newest item alone. */
  predicate Fits(items: seq<Item>, k: nat, budget: int) {
    k < |items| && (k == |items| - 1 || Total(items[k..]) <= budget)
  }

  /** `kept` is the longest suffix of `items` that fits. */
  ghost predicate LongestFitting(items: seq<Item>, kept: seq<Item>, budget: int) {
    exists k: nat :: Fits(items, k, budget) && kept == items[k..] && forall j: nat :: j < k ==> !Fits(items, j, budget)
  }

  lemma DistinctParts(items: seq<Item>)
    requires items != []
    ensures DistinctIds(items) <==> DistinctIds(items[1..]) && forall x :: x in items[1..] ==> x.id != items[0].id
  {
    var tail := items[1..];
    assert forall i :: 0 < i < |items| ==> items[i] == tail[i - 1] && items[i] in tail;
    assert forall i, j :: 0 < i < j < |items| ==> items[i] == tail[i - 1] && items[j] == tail[j - 1];
  }

  lemma {:induction false} WithoutMembers(items: seq<Item>, id: string)
    requires DistinctIds(items)
    ensures forall x :: x in Without(items, id) <==> x in items && x.id != id
  {
    if items != [] {
      DistinctParts(items);
      hide DistinctIds;
      WithoutMembers(items[1..], id);
      assert items == [items[0]] + items[1..];
    }
  }

  lemma {:induction false} WithoutDistinct(items: seq<Item>, id: string)
    requires DistinctIds(items)
    ensures DistinctIds(Without(items, id))
  {
    if items != [] {
      DistinctParts(items);
      hide DistinctIds;
      WithoutDistinct(items[1..], id);
      WithoutMembers(items[1..], id);
      var rest := Without(items, id);
      if items[0].id != id {
        assert rest[1..] == Without(items[1..], id);
        DistinctParts(rest);
      }
    }
  }

  lemma {:induction false} WithoutTotal(items: seq<Item>, id: string, x: Item)
    requires DistinctIds(items) && x in items && x.id == id
    ensures Total(Without(items, id)) == Total(items) - |x.payload|
  {
    DistinctParts(items);
    hide DistinctIds;
    assert items == [items[0]] + items[1..];
    if items[0].id != id {
      WithoutTotal(items[1..], id, x);
      assert Without(items, id)[1..] == Without(items[1..], id);
    }
  }

  lemma {:induction false} WithoutAbsent(items: seq<Item>, id: string)
    requires forall x :: x in items ==> x.id != id
    ensures Without(items, id) == items
  {
    if items != [] {
      WithoutAbsent(items[1..], id);
    }
  }

  lemma {:induction false} TotalAppend(items: seq<Item>, x: Item)
    ensures Total(items + [x]) == Total(items) + |x.payload|
  {
    if items == [] {
      assert items + [x] == [x] && [x][1..] == [];
    } else {
      assert (items + [x])[1..] == items[1..] + [x];
      TotalAppend(items[1..], x);
    }
  }

  lemma AppendKeepsDistinct(items: seq<Item>, x: Item)
    requires DistinctIds(items) && forall y :: y in items ==> y.id != x.id
    ensures DistinctIds(items + [x])
  {
  }

  class MediaStore {
    const budget: int
    const maxItem: int
    var items: seq<Item>
    var total: int

    ghost predicate Valid()
      reads this
    {
      DistinctIds(items) && total == Total(items)
    }

    constructor (budget: int, maxItem: int)
      ensures Valid() && items == [] && this.budget == budget && this.maxItem == maxItem
    {
      this.budget, this.maxItem, items, total := budget, maxItem, [], 0;
    }

    /** A payload of an unlisted type or over the item limit changes nothing. Otherwise the item becomes
        the newest, replacing its old self, and what is kept is the longest suffix within the budget. */
    method Put(x: Item) returns (stored: bool)
      requires Valid()
      modifies this
      ensures Valid()
      ensures stored <==> x.mime in ALLOWED && |x.payload| <= maxItem
      ensures !stored ==> items == old(items)
      ensures stored ==> LongestFitting(Without(old(items), x.id) + [x], items, budget) && items[|items| - 1] == x
    {
      hide DistinctIds, Total, Without, LongestFitting;
      if x.mime !in ALLOWED || |x.payload| > maxItem {
        return false;
      }
      Drop(x.id);
      TotalAppend(items, x);
      AppendKeepsDistinct(items, x);
      items := items + [x];
      total := total + |x.payload|;
      EvictOldest();
      return true;
    }

    /** `pop(media_id, None)`: at most one item carries the id. */
    method Drop(id: string)
      requires Valid()
      modifies this
      ensures Valid() && items == Without(old(items), id)
      ensures forall y :: y in items ==> y.id != id
    {
      hide DistinctIds, Total, Without;
      WithoutDistinct(items, id);
      WithoutMembers(items, id);
      if i :| 0 <= i < |items| && items[i].id == id {
        assert items[i] in items;
        WithoutTotal(items, id, items[i]);
        total := total - |items[i].payload|;
      } else {
        WithoutAbsent(items, id);
      }
      items := Without(items, id);
    }

    method EvictOldest()
      requires Valid() && items != []
      modifies this
      ensures Valid() && items != [] && LongestFitting(old(items), items, budget)
      ensures items[|items| - 1] == old(items)[|old(items)| - 1]
    {
      hide DistinctIds, Total;
      ghost var all, k := items, 0;
      while |items| > 1 && total > budget
        invariant k < |all| && items == all[k..]
        invariant Valid()
        invariant forall j: nat :: j < k ==> !Fits(all, j, budget)
        decreases |items|
      {
        HeadDropped(items);
        assert items[1..] == all[k + 1..];
        total := total - |items[0].payload|;
        items := items[1..];
        k := k + 1;
      }
      assert Fits(all, k, budget);
    }
  }

  lemma HeadDropped(items: seq<Item>)
    requires DistinctIds(items) && items != []
    ensures DistinctIds(items[1..]) && Total(items[1..]) == Total(items) - |items[0].payload|
  {
  }

  /** Neither the budget nor the newest item is ever given up for an older one: what a put leaves is over
      the budget only if the newest item is so by itself. */
  lemma OverBudgetMeansAlone(items: seq<Item>, kept: seq<Item>, budget: int)
    requires items != [] && LongestFitting(items, kept, budget)
    ensures Total(kept) > budget ==> kept == [items[|items| - 1]]
    ensures |kept| < |items| ==> Total(items[|items| - |kept| - 1..]) > budget
  {
    var k: nat :| Fits(items, k, budget) && kept == items[k..] && forall j: nat :: j < k ==> !Fits(items, j, budget);
    if k > 0 {
      assert !Fits(items, k - 1, budget);
    }
  }

  /** The characters of all payloads together. */
  function Characters(items: seq<Item>): nat {
    if items == [] then 0 else Characters(items[..|items| - 1]) + |items[|items| - 1].payload|
  }

  lemma {:induction false} CharactersAreTotal(items: seq<Item>)
    ensures Characters(items) == Total(items)
  {
    if items != [] {
      var n := |items| - 1;
      CharactersAreTotal(items[..n]);
      TotalAppend(items[..n], items[n]);
      assert items[..n] + [items[n]] == items;
    }
  }

  /** What is kept in plain terms: the newest items, within the budget unless it is one alone; one item more
      would be over it. */
  lemma KeptInPlainTerms(items: seq<Item>, kept: seq<Item>, budget: int)
    requires LongestFitting(items, kept, budget)
    ensures 1 <= |kept| <= |items| && kept == items[|items| - |kept|..]
    ensures |kept| == 1 || Characters(kept) <= budget
    ensures |kept| < |items| ==> Characters(items[|items| - |kept| - 1..]) > budget
  {
    CharactersAreTotal(kept);
    OverBudgetMeansAlone(items, kept, budget);
    if |kept| < |items| { CharactersAreTotal(items[|items| - |kept| - 1..]); }
    hide Total, Characters;
  }

  /** What is accepted, written out. */
  lemma AllowedTypes(mime: string)
    ensures mime in ALLOWED <==>
      || mime == "image/png" || mime == "image/jpeg" || mime == "image/webp" || mime == "image/gif"
      || mime == "image/avif" || mime == "image/bmp"
  {
  }

  /** What is left once an id has been taken out: everything else, in its order. */
  lemma {:induction false} WithoutInOrder(a: seq<Item>, x: Item, b: seq<Item>)
    requires forall y :: y in a ==> y.id != x.id
    ensures Without(a + [x] + b, x.id) == a + b
  {
    var all := a + [x] + b;
    if a == [] {
      assert all[1..] == b == a + b;
    } else {
      assert all[1..] == a[1..] + [x] + b;
      WithoutInOrder(a[1..], x, b);
      assert [a[0]] + (a[1..] + b) == a + b;
    }
  }
}
