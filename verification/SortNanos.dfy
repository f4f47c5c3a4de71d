// Sorting the tag-length-value items of an ECM by tag (dvbapi_sort_nanos, module-dvbapi.c).
module SortNanos {
  import opened Bytes

  // The length of an item by its length byte
  function Span(b: Byte): (n: nat)
    ensures n == b + 2
  {
    var n: nat := b;
    n + 2
  }

  // A tag byte, a length byte, and as many bytes as that says
  type Item = s: seq<Byte> | |s| >= 2 && |s| == Span(s[1]) witness [0, 0]

  // The items starting before len end within the memory at hand. The last one may run past len;
  // the code reads it all the same.
  predicate Readable(src: seq<Byte>, len: nat, j: nat)
    decreases |src| - j
  {
    j >= len || (j + 1 < |src| && j + Span(src[j + 1]) <= |src| && Readable(src, len, j + Span(src[j + 1])))
  }

  // The items from offset j on
  function Items(src: seq<Byte>, len: nat, j: nat): seq<Item>
    requires Readable(src, len, j)
    decreases |src| - j
  {
    if j >= len then []
    else
      var l := Span(src[j + 1]);
      [src[j..j + l]] + Items(src, len, j + l)
  }

  function Flat(items: seq<Item>): seq<Byte>
    decreases |items|
  {
    if items == [] then [] else Flat(items[..|items| - 1]) + items[|items| - 1]
  }

  function WithTag(items: seq<Item>, tag: int): (r: seq<Item>)
    decreases |items|
  {
    if items == [] then []
    else
      var x := items[|items| - 1];
      WithTag(items[..|items| - 1], tag) + if x[0] == tag then [x] else []
  }

  // The items with tags below c, in the order of their tags
  function Below(items: seq<Item>, c: nat): seq<Item>
  {
    if c == 0 then [] else Below(items, c - 1) + WithTag(items, c - 1)
  }

  function Sorted(items: seq<Item>): seq<Item> { Below(items, 256) }

  // ---------------------------------------------------------------- a stable sort

  lemma {:induction false} WithTagMembers(items: seq<Item>, tag: int)
    ensures forall x :: x in WithTag(items, tag) <==> x in items && x[0] == tag
    decreases |items|
  {
    if items != [] {
      WithTagMembers(items[..|items| - 1], tag);
      assert items == items[..|items| - 1] + [items[|items| - 1]];
    }
  }

  lemma {:induction false} WithTagBoth(a: seq<Item>, b: seq<Item>, tag: int)
    ensures WithTag(a + b, tag) == WithTag(a, tag) + WithTag(b, tag)
    decreases |b|
  {
    if b == [] {
      assert a + b == a;
    } else {
      assert (a + b)[..|a + b| - 1] == a + b[..|b| - 1];
      WithTagBoth(a, b[..|b| - 1], tag);
    }
  }

  lemma {:induction false} WithTagTwice(items: seq<Item>, tag: int, other: int)
    ensures WithTag(WithTag(items, tag), other) == if other == tag then WithTag(items, tag) else []
    decreases |items|
  {
    if items != [] {
      var init, x := items[..|items| - 1], items[|items| - 1];
      WithTagTwice(init, tag, other);
      if x[0] == tag {
        WithTagBoth(WithTag(init, tag), [x], other);
        assert [x][..0] == [];
        assert WithTag([x], other) == if x[0] == other then [x] else [];
      } else {
        assert WithTag(items, tag) == WithTag(init, tag);
      }
    }
  }

  lemma {:induction false} BelowIsStable(items: seq<Item>, c: nat, tag: int)
    ensures WithTag(Below(items, c), tag) == if 0 <= tag < c then WithTag(items, tag) else []
  {
    hide WithTag;
    if c > 0 {
      BelowIsStable(items, c - 1, tag);
      WithTagBoth(Below(items, c - 1), WithTag(items, c - 1), tag);
      WithTagTwice(items, c - 1, tag);
    } else {
      WithTagNothing(tag);
    }
  }

  lemma WithTagNothing(tag: int)
    ensures WithTag([], tag) == []
  {
  }

  lemma {:induction false} BelowIsSorted(items: seq<Item>, c: nat)
    ensures forall i, j :: 0 <= i < j < |Below(items, c)| ==> Below(items, c)[i][0] <= Below(items, c)[j][0]
    ensures forall x :: x in Below(items, c) ==> x[0] < c
  {
    if c > 0 {
      BelowIsSorted(items, c - 1);
      WithTagMembers(items, c - 1);
      var a, b := Below(items, c - 1), WithTag(items, c - 1);
      forall i, j | 0 <= i < j < |a + b| ensures (a + b)[i][0] <= (a + b)[j][0] {
        assert i < |a| ==> a[i] in a;
        assert j >= |a| ==> b[j - |a|] in b;
        assert i >= |a| ==> b[i - |a|] in b;
      }
    }
  }

  function TagCount(items: seq<Item>, x: Item): nat { multiset(WithTag(items, x[0]))[x] }

  lemma {:induction false} CountByTag(items: seq<Item>, x: Item)
    ensures TagCount(items, x) == multiset(items)[x]
    decreases |items|
  {
    if items != [] {
      CountByTag(items[..|items| - 1], x);
      assert items == items[..|items| - 1] + [items[|items| - 1]];
    }
  }

  // Sorted is a permutation of the items, ascending by tag, and keeps the order of equal tags.
  lemma SortedIsStableSort(items: seq<Item>)
    ensures multiset(Sorted(items)) == multiset(items)
    ensures forall i, j :: 0 <= i < j < |Sorted(items)| ==> Sorted(items)[i][0] <= Sorted(items)[j][0]
    ensures forall tag :: WithTag(Sorted(items), tag) == WithTag(items, tag)
  {
    BelowIsSorted(items, 256);
    forall tag: int ensures WithTag(Sorted(items), tag) == WithTag(items, tag) {
      BelowIsStable(items, 256, tag);
      WithTagMembers(items, tag);
      if !(0 <= tag < 256) && WithTag(items, tag) != [] {
        assert WithTag(items, tag)[0] in WithTag(items, tag);
      }
    }
    forall x: Item ensures multiset(Sorted(items))[x] == multiset(items)[x] {
      CountByTag(items, x);
      CountByTag(Sorted(items), x);
    }
  }

  lemma {:induction false} FlatBoth(a: seq<Item>, b: seq<Item>)
    ensures Flat(a + b) == Flat(a) + Flat(b)
    decreases |b|
  {
    if b == [] {
      assert a + b == a;
    } else {
      assert (a + b)[..|a + b| - 1] == a + b[..|b| - 1];
      FlatBoth(a, b[..|b| - 1]);
    }
  }

  // The input is its items one after the other.
  lemma {:induction false} ItemsTile(src: seq<Byte>, len: nat, j: nat)
    requires Readable(src, len, j) && j <= |src|
    ensures j + |Flat(Items(src, len, j))| <= |src|
    ensures Flat(Items(src, len, j)) == src[j..j + |Flat(Items(src, len, j))|]
    ensures j <= len ==> j + |Flat(Items(src, len, j))| >= len
    decreases |src| - j
  {
    hide Flat, Items, Readable;
    if j >= len {
      ItemsEnd(src, len, j);
    } else {
      ItemsAt(src, len, j);
      var l := Span(src[j + 1]);
      ItemsTile(src, len, j + l);
      FlatBoth([src[j..j + l]], Items(src, len, j + l));
      FlatStep([], src[j..j + l]);
      assert [] + [src[j..j + l]] == [src[j..j + l]];
      ItemsEnd(src, len, len);
    }
  }

  // ---------------------------------------------------------------- in place

  // What dvbapi_sort_nanos is to leave in the first len bytes of dest
  function SortedNanos(src: seq<Byte>, len: nat): seq<Byte>
    requires Readable(src, len, 0)
  {
    var items := Items(src, len, 0);
    if |Flat(items)| == len then Flat(Sorted(items)) else seq(len, _ => 0)
  }

  // The smallest tag above c among the items, 0x100 if there is none
  predicate IsNext(items: seq<Item>, c: int, n: int) {
    && c < n <= 0x100
    && (n < 0x100 ==> exists k :: 0 <= k < |items| && items[k][0] == n)
    && (forall k :: 0 <= k < |items| && items[k][0] > c ==> items[k][0] >= n)
  }

  lemma ItemsAt(src: seq<Byte>, len: nat, j: nat)
    requires Readable(src, len, j) && j < len
    ensures j + 1 < |src| && j + Span(src[j + 1]) <= |src| && Readable(src, len, j + Span(src[j + 1]))
    ensures Items(src, len, j) == [src[j..j + Span(src[j + 1])]] + Items(src, len, j + Span(src[j + 1]))
  {
  }

  lemma FlatStep(done: seq<Item>, x: Item)
    ensures Flat(done + [x]) == Flat(done) + x
  {
    FlatBoth(done, [x]);
    assert [x][..0] == [];
  }

  lemma WithTagStep(done: seq<Item>, x: Item, tag: int)
    ensures WithTag(done + [x], tag) == WithTag(done, tag) + if x[0] == tag then [x] else []
  {
    assert (done + [x])[..|done|] == done;
  }

  lemma {:induction false} SameSize(a: seq<Item>, b: seq<Item>)
    requires multiset(a) == multiset(b)
    ensures |Flat(a)| == |Flat(b)|
    decreases |a|
  {
    if a == [] {
      assert |multiset(b)| == |b|;
    } else {
      var n := |a| - 1;
      var x := a[n];
      assert a == a[..n] + [x];
      assert x in multiset(b);
      var k :| 0 <= k < |b| && b[k] == x;
      var rest := b[..k] + b[k + 1..];
      var one: seq<Item> := [x];
      assert b == b[..k] + one + b[k + 1..];
      assert multiset(a) == multiset(a[..n]) + multiset(one);
      assert multiset(b) == multiset(rest) + multiset(one);
      assert multiset(a[..n]) == multiset(a) - multiset(one) == multiset(b) - multiset(one) == multiset(rest);
      SameSize(a[..n], rest);
      FlatStep(b[..k], x);
      FlatBoth(b[..k] + [x], b[k + 1..]);
      FlatBoth(b[..k], b[k + 1..]);
    }
  }

  lemma {:induction false} WithTagPrefix(items: seq<Item>, m: nat, tag: int)
    requires m <= |items|
    ensures WithTag(items[..m], tag) <= WithTag(items, tag)
    decreases |items|
  {
    if m < |items| {
      assert items[..|items| - 1][..m] == items[..m];
      WithTagPrefix(items[..|items| - 1], m, tag);
    } else {
      assert items[..m] == items;
    }
  }

  lemma {:induction false} BelowPrefix(items: seq<Item>, c: nat, d: nat)
    requires c <= d
    ensures Below(items, c) <= Below(items, d)
    decreases d
  {
    if c < d {
      BelowPrefix(items, c, d - 1);
    }
  }

  // The items copied when pass c has seen m of them; the first pass, -1, copies none.
  function Copied(items: seq<Item>, c: int, m: nat): seq<Item>
    requires m <= |items|
  {
    if c < 0 then [] else Below(items, c) + WithTag(items[..m], c)
  }

  lemma CopiedFits(items: seq<Item>, c: int, m: nat)
    requires m <= |items| && 0 <= c < 256
    ensures |Flat(Copied(items, c, m))| <= |Flat(items)|
  {
    hide Flat, Below, WithTag;
    WithTagPrefix(items, m, c);
    BelowStep(items, c);
    BelowPrefix(items, c + 1, 256);
    var part, all := Copied(items, c, m), Sorted(items);
    assert part <= all;
    assert all == part + all[|part|..];
    FlatBoth(part, all[|part|..]);
    SortedIsStableSort(items);
    SameSize(all, items);
  }

  lemma BelowStep(items: seq<Item>, c: nat)
    ensures Below(items, c + 1) == Below(items, c) + WithTag(items, c)
  {
  }

  // No tags from c + 1 up to n: nothing to copy for them.
  lemma {:induction false} BelowSkips(items: seq<Item>, c: int, n: nat)
    requires -1 <= c < n && forall k :: 0 <= k < |items| && items[k][0] > c ==> items[k][0] >= n
    ensures Below(items, n) == Below(items, c + 1)
    decreases n
  {
    hide WithTag;
    if c + 1 < n {
      BelowSkips(items, c, n - 1);
      WithTagMembers(items, n - 1);
      if WithTag(items, n - 1) != [] {
        assert WithTag(items, n - 1)[0] in WithTag(items, n - 1);
      }
    }
  }

  // memcpy(&dest[w], item, l)
  method Put(dest: array<Byte>, w: nat, item: seq<Byte>)
    requires w + |item| <= dest.Length
    modifies dest
    ensures dest[..w + |item|] == old(dest[..w]) + item
    ensures forall k :: w + |item| <= k < dest.Length ==> dest[k] == old(dest[k])
  {
    for i := 0 to |item|
      invariant forall k :: 0 <= k < dest.Length ==> dest[k] == if w <= k < w + i then item[k - w] else old(dest[k])
    {
      dest[w + i] := item[i];
    }
  }

  method Zero(dest: array<Byte>, len: nat)
    requires len <= dest.Length
    modifies dest
    ensures dest[..len] == seq(len, _ => 0)
    ensures forall k :: len <= k < dest.Length ==> dest[k] == old(dest[k])
  {
    for i := 0 to len
      invariant forall k :: 0 <= k < dest.Length ==> dest[k] == if k < i then 0 else old(dest[k])
    {
      dest[i] := 0;
    }
  }

  lemma CopiedStep(items: seq<Item>, c: int, m: nat)
    requires m < |items| && -1 <= c < 256
    ensures Copied(items, c, m + 1) ==
      if items[m][0] == c then Copied(items, c, m) + [items[m]] else Copied(items, c, m)
  {
    hide Below;
    assert items[..m + 1] == items[..m] + [items[m]];
    if c >= 0 {
      WithTagStep(items[..m], items[m], c);
    }
  }

  lemma CopiedBounds(items: seq<Item>, c: int)
    requires c >= -1
    ensures Copied(items, c, 0) == if c < 0 then [] else Below(items, c)
    ensures Copied(items, c, |items|) == Below(items, c + 1)
  {
    assert items[..|items|] == items;
  }

  // One pass: copies the items with tag c behind the first w bytes and finds the next tag. It
  // fails, and zeroes, only when the items are longer than len together.
  method Sweep(dest: array<Byte>, src: seq<Byte>, len: nat, c: int, start: nat) returns (w: nat, n: int, ok: bool)
    requires len <= dest.Length && Readable(src, len, 0) && -1 <= c < 256
    requires var items := Items(src, len, 0); start <= len && dest[..start] == Flat(Copied(items, c, 0))
    modifies dest
    ensures forall k :: len <= k < dest.Length ==> dest[k] == old(dest[k])
    ensures var items := Items(src, len, 0);
      if ok then w <= len && dest[..w] == Flat(Copied(items, c, |items|)) && IsNext(items, c, n)
      else |Flat(items)| > len && dest[..len] == seq(len, _ => 0)
  {
    hide Flat, Below, WithTag, Copied, Items, Readable;
    w, n, ok := start, 0x100, true;
    ghost var items, m := Items(src, len, 0), 0;
    var j := 0;
    while j < len
      invariant Readable(src, len, j) && m <= |items| && items[m..] == Items(src, len, j)
      invariant w <= len && dest[..w] == Flat(Copied(items, c, m)) && IsNext(items[..m], c, n)
      invariant forall k :: len <= k < dest.Length ==> dest[k] == old(dest[k])
      decreases |src| - j
    {
      ItemsAt(src, len, j);
      var l := Span(src[j + 1]);
      ghost var x := items[m];
      assert x == src[j..j + l] && x[0] == src[j];
      assert items[m + 1..] == items[m..][1..];
      CopiedStep(items, c, m);
      NextStep(items, c, n, m);
      if src[j] == c {
        CopiedFits(items, c, m + 1);
        FlatStep(Copied(items, c, m), x);
        if w + l > len {
          Zero(dest, len);
          return w, n, false;
        }
        Put(dest, w, src[j..j + l]);
        w := w + l;
      } else if src[j] > c && src[j] < n {
        n := src[j];
      }
      j, m := j + l, m + 1;
    }
    ItemsEnd(src, len, j);
    assert m == |items| && items[..m] == items;
  }

  lemma ItemsEnd(src: seq<Byte>, len: nat, j: nat)
    requires j >= len
    ensures Readable(src, len, j) && Items(src, len, j) == [] && Flat([]) == []
  {
  }

  lemma NextStep(items: seq<Item>, c: int, n: int, m: nat)
    requires m < |items| && IsNext(items[..m], c, n)
    ensures IsNext(items[..m + 1], c, if c < items[m][0] < n then items[m][0] else n)
  {
    var a, b := items[..m], items[..m + 1];
    assert forall k :: 0 <= k < m ==> b[k] == a[k];
    assert b[m] == items[m];
    if n < 0x100 {
      var k :| 0 <= k < m && a[k][0] == n;
      assert b[k][0] == n;
    }
  }

  // dvbapi_sort_nanos: the items in a stable order by tag if they tile len bytes exactly, zeros if
  // the last one runs past them.
  method DvbapiSortNanos(dest: array<Byte>, src: seq<Byte>, len: nat)
    requires len <= dest.Length && Readable(src, len, 0)
    modifies dest
    ensures dest[..len] == SortedNanos(src, len) && dest[len..] == old(dest[len..])
  {
    hide Flat, Below, WithTag, Copied, Items, Readable;
    var w: nat, c := 0, -1;
    ghost var items := Items(src, len, 0);
    CopiedBounds(items, -1);
    ItemsEnd(src, len, len);
    while true
      invariant -1 <= c < 256 && w <= len && dest[..w] == Flat(Copied(items, c, 0))
      invariant forall k :: len <= k < dest.Length ==> dest[k] == old(dest[k])
      decreases 256 - c
    {
      var n: int, ok: bool;
      w, n, ok := Sweep(dest, src, len, c, w);
      if !ok {
        return;
      }
      CopiedBounds(items, c);
      CopiedBounds(items, n);
      BelowSkips(items, c, n);
      if n == 0x100 {
        break;
      }
      c := n;
    }
    SortedIsStableSort(items);
    SameSize(Sorted(items), items);
    ItemsTile(src, len, 0);
    assert w == |dest[..w]|;
  }
}
