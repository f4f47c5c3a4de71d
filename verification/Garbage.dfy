// The deferred-free queue (oscam-garbage.c): sixteen linked queues of pointers, filled by
// add_garbage and emptied by the collector once an entry is more than five seconds old. The
// collector is active and debug mode is off; every call holds the bucket's lock, so it is one
// step. Pointers are numbers, 0 is NULL, and the clock reading of a step is its input.
module Garbage {
  import opened Sequences

  type Ptr = nat

  const HASH_BUCKETS: nat := 16
  const DELAY: int := 5

  // struct cs_garbage
  class Entry {
    const time: int
    const data: Ptr
    var next: Entry?

    constructor (time: int, data: Ptr, next: Entry?)
      ensures this.time == time && this.data == data && this.next == next
    {
      this.time, this.data, this.next := time, data, next;
    }
  }

  // What a queue entry records.
  datatype Item = Item(time: int, data: Ptr)

  predicate Old(i: Item, now: int) { now > i.time + DELAY }

  // One bucket of garbage_first.
  class Queue {
    var first: Entry?
    ghost var entries: seq<Entry>
    ghost var Repr: set<Entry>

    ghost predicate Valid()
      reads this, Repr
    {
      && (forall e :: e in entries ==> e in Repr)
      && first == (if entries == [] then null else entries[0])
      && (forall i {:trigger entries[i].next} :: 0 <= i < |entries| - 1 ==> entries[i].next == entries[i + 1])
      && (entries != [] ==> entries[|entries| - 1].next == null)
      && (forall i, j :: 0 <= i < j < |entries| ==> entries[i] != entries[j])
    }

    ghost function Items(): (s: seq<Item>)
      reads this
    {
      ItemsOf(entries)
    }

    constructor ()
      ensures Valid() && Items() == [] && Repr == {}
    {
      first, entries, Repr := null, [], {};
    }

    // add_garbage, once the bucket is chosen and locked
    method Add(data: Ptr, now: int)
      requires Valid()
      modifies this, Repr
      ensures Valid() && forall e :: e in Repr - old(Repr) ==> fresh(e)
      ensures Items() == Added(old(Items()), data, now)
    {
      var check := first;
      ghost var k := 0;
      while check != null
        invariant k <= |entries| && check == if k == |entries| then null else entries[k]
        invariant forall i :: 0 <= i < k ==> entries[i].data != data
        decreases |entries| - k
      {
        if check.data == data {
          assert Items()[k].data == data;
          break;
        }
        check := check.next;
        k := k + 1;
      }
      if check == null {
        assert forall i :: 0 <= i < |Items()| ==> Items()[i].data != data;
        ghost var was := Items();
        first := new Entry(now, data, first);
        entries, Repr := [first] + entries, Repr + {first};
        assert Items() == [Item(now, data)] + was;
      }
    }

    // Takes entry i out of the chain; prev is the entry before it, if any.
    method Unlink(garbage: Entry, prev: Entry?, ghost i: nat)
      requires Valid() && i < |entries| && garbage == entries[i]
      requires prev == if i == 0 then null else entries[i - 1]
      modifies this, Repr
      ensures Valid() && Repr == old(Repr) && entries == old(entries)[..i] + old(entries)[i + 1..]
      ensures garbage.next == old(garbage.next)
    {
      if prev != null {
        prev.next := garbage.next;
      } else {
        first := garbage.next;
      }
      entries := entries[..i] + entries[i + 1..];
    }

    // The sweep has dealt with the first k entries of the original queue N.
    ghost predicate Swept(N: seq<Entry>, K: seq<bool>, k: nat)
      reads this, Repr
    {
      && k <= |N| == |K| && Valid() && entries == Kept(N[..k], K[..k]) + N[k..]
    }

    ghost function LastKept(N: seq<Entry>, K: seq<bool>, k: nat): Entry?
      requires k <= |N| == |K|
    {
      var kept := Kept(N[..k], K[..k]);
      if kept == [] then null else kept[|kept| - 1]
    }

    // One entry of the sweep: prev and the entry after it.
    method Judge(garbage: Entry, prev: Entry?, now: int, ghost N: seq<Entry>, ghost K: seq<bool>, ghost k: nat)
      returns (prev': Entry?, next: Entry?)
      requires Swept(N, K, k) && k < |N| && garbage == N[k] && prev == LastKept(N, K, k)
      requires K[k] == !(now > garbage.time + DELAY)
      modifies this, Repr
      ensures Swept(N, K, k + 1) && Repr == old(Repr) && prev' == LastKept(N, K, k + 1)
      ensures next == if k + 1 == |N| then null else N[k + 1]
    {
      hide Kept, Valid;
      ghost var kept := Kept(N[..k], K[..k]);
      NextEntry(N, K, k);
      SpliceKept(kept, N, k);
      next := garbage.next;
      if now > garbage.time + DELAY {
        Unlink(garbage, prev, |kept|);
        prev' := prev;
      } else {
        prev' := garbage;
      }
      NextKept(N, K, k);
    }

    lemma NextEntry(N: seq<Entry>, K: seq<bool>, k: nat)
      requires Swept(N, K, k) && k < |N|
      ensures var n := |Kept(N[..k], K[..k])|;
              n < |entries| && entries[n] == N[k] && LastKept(N, K, k) == if n == 0 then null else entries[n - 1]
      ensures N[k].next == if k + 1 == |N| then null else N[k + 1]
    {
      hide Kept;
      var kept := Kept(N[..k], K[..k]);
      assert entries[|kept|] == N[k] && |entries| == |kept| + |N| - k;
      assert k + 1 < |N| ==> entries[|kept| + 1] == N[k + 1];
    }

    // One bucket's turn in garbage_collector: what it frees, in queue order.
    method Sweep(now: int) returns (freed: seq<Ptr>)
      requires Valid()
      modifies this, Repr
      ensures Valid() && Repr == old(Repr)
      ensures Items() == Collected(old(Items()), now)
      ensures freed == Pointers(Freed(old(Items()), now))
    {
      hide Kept, Dropped, Valid, Swept;
      ghost var N, K := entries, Young(Items(), now);
      var prev: Entry? := null;
      var garbage := first;
      ghost var k := 0;
      freed := [];
      Beginning(N, K);
      while garbage != null
        invariant k <= |N| == |K| && Swept(N, K, k) && Repr == old(Repr)
        invariant prev == LastKept(N, K, k) && garbage == if k == |N| then null else N[k]
        invariant freed == Pointers(ItemsOf(Dropped(N[..k], K[..k])))
        decreases |N| - k
      {
        NextKept(N, K, k);
        if now > garbage.time + DELAY {
          freed := freed + [garbage.data];
        }
        prev, garbage := Judge(garbage, prev, now, N, K, k);
        k := k + 1;
      }
      Finished(N, K, now);
    }

    lemma Beginning(N: seq<Entry>, K: seq<bool>)
      requires Valid() && N == entries && |K| == |N|
      ensures Swept(N, K, 0) && LastKept(N, K, 0) == null && Dropped(N[..0], K[..0]) == []
      ensures first == if 0 == |N| then null else N[0]
    {
      assert N[..0] == [] && K[..0] == [] && [] + N[0..] == N;
    }

    lemma Finished(N: seq<Entry>, K: seq<bool>, now: int)
      requires Swept(N, K, |N|) && K == Young(ItemsOf(N), now)
      ensures Valid() && Items() == Collected(ItemsOf(N), now)
      ensures ItemsOf(Dropped(N[..|N|], K[..|N|])) == Freed(ItemsOf(N), now)
    {
      assert N[..|N|] == N && K[..|N|] == K && N[|N|..] == [];
      PickItems(N, K);
    }
  }

  // Picking entries and reading them off commute.
  lemma {:induction false} PickItems(N: seq<Entry>, K: seq<bool>)
    requires |N| == |K|
    ensures ItemsOf(Kept(N, K)) == Kept(ItemsOf(N), K) && ItemsOf(Dropped(N, K)) == Dropped(ItemsOf(N), K)
    decreases |N|
  {
    if N != [] {
      var n := |N| - 1;
      PickItems(N[..n], K[..n]);
      assert ItemsOf(N)[..n] == ItemsOf(N[..n]);
    }
  }

  function Pointers(items: seq<Item>): (p: seq<Ptr>)
    ensures |p| == |items|
  {
    seq(|items|, i requires 0 <= i < |items| => items[i].data)
  }

  ghost function ItemsOf(entries: seq<Entry>): (s: seq<Item>)
    ensures |s| == |entries|
  {
    seq(|entries|, i requires 0 <= i < |entries| => Item(entries[i].time, entries[i].data))
  }

  // ---------------------------------------------------------------- one bucket, as a value

  predicate Queued(q: seq<Item>, data: Ptr) { exists i :: 0 <= i < |q| && q[i].data == data }

  function Added(q: seq<Item>, data: Ptr, now: int): seq<Item> {
    if Queued(q, data) then q else [Item(now, data)] + q
  }

  function Young(q: seq<Item>, now: int): (k: seq<bool>)
    ensures |k| == |q|
  {
    seq(|q|, i requires 0 <= i < |q| => !Old(q[i], now))
  }

  function Collected(q: seq<Item>, now: int): seq<Item> { Kept(q, Young(q, now)) }
  function Freed(q: seq<Item>, now: int): seq<Item> { Dropped(q, Young(q, now)) }

  // ---------------------------------------------------------------- all buckets, over a run

  datatype Release = Release(item: Item, now: int)

  // The queues, and what happened so far: every accepted addition and every pointer freed.
  datatype State = State(buckets: seq<seq<Item>>, accepted: seq<Item>, freed: seq<Release>)

  datatype Event = Add(data: Ptr, now: int) | Sweep(bucket: nat, now: int)

  function BucketOf(data: Ptr): (b: nat)
    ensures b < HASH_BUCKETS
  {
    data / 16 % HASH_BUCKETS
  }

  function Step(s: State, e: Event): (r: State)
    requires |s.buckets| == HASH_BUCKETS && (e.Sweep? ==> e.bucket < HASH_BUCKETS)
    ensures |r.buckets| == HASH_BUCKETS
  {
    match e
    case Add(data, now) =>
      if data == 0 || Queued(s.buckets[BucketOf(data)], data) then s
      else
        var b := BucketOf(data);
        s.(buckets := s.buckets[b := Added(s.buckets[b], data, now)], accepted := s.accepted + [Item(now, data)])
    case Sweep(b, now) =>
      s.(buckets := s.buckets[b := Collected(s.buckets[b], now)],
        freed := s.freed + Releases(Freed(s.buckets[b], now), now))
  }

  function Releases(items: seq<Item>, now: int): (r: seq<Release>)
    ensures |r| == |items|
  {
    seq(|items|, i requires 0 <= i < |items| => Release(items[i], now))
  }

  function ReleasedItems(r: seq<Release>): (s: seq<Item>)
    ensures |s| == |r|
  {
    seq(|r|, i requires 0 <= i < |r| => r[i].item)
  }

  function Run(events: seq<Event>): (s: State)
    requires forall e :: e in events && e.Sweep? ==> e.bucket < HASH_BUCKETS
    ensures |s.buckets| == HASH_BUCKETS
    decreases |events|
  {
    if events == [] then State(seq(HASH_BUCKETS, _ => []), [], [])
    else Step(Run(events[..|events| - 1]), events[|events| - 1])
  }

  function StillQueued(buckets: seq<seq<Item>>): multiset<Item>
    decreases |buckets|
  {
    if buckets == [] then multiset{}
    else StillQueued(buckets[..|buckets| - 1]) + multiset(buckets[|buckets| - 1])
  }

  // A pointer sits in its own bucket, at most once.
  ghost predicate Sound(q: seq<Item>, b: nat) {
    && (forall i :: 0 <= i < |q| ==> q[i].data != 0 && BucketOf(q[i].data) == b)
    && (forall i, j :: 0 <= i < j < |q| ==> q[i].data != q[j].data)
  }

  ghost predicate Inv(s: State) {
    && |s.buckets| == HASH_BUCKETS
    && (forall b :: 0 <= b < HASH_BUCKETS ==> Sound(s.buckets[b], b))
    && multiset(s.accepted) == StillQueued(s.buckets) + multiset(ReleasedItems(s.freed))
    && (forall r :: r in s.freed ==> Old(r.item, r.now))
  }

  lemma {:induction false} QueuedUpdate(buckets: seq<seq<Item>>, b: nat, q: seq<Item>)
    requires b < |buckets|
    ensures StillQueued(buckets[b := q]) + multiset(buckets[b]) == StillQueued(buckets) + multiset(q)
    decreases |buckets|
  {
    var n := |buckets| - 1;
    if b == n {
      assert buckets[b := q][..n] == buckets[..n];
    } else {
      assert buckets[b := q][..n] == buckets[..n][b := q] && buckets[b := q][n] == buckets[n];
      QueuedUpdate(buckets[..n], b, q);
      var a, a', l := StillQueued(buckets[..n]), StillQueued(buckets[..n][b := q]), multiset(buckets[n]);
      assert a' + multiset(buckets[b]) == a + multiset(q);
      assert (a' + l) + multiset(buckets[b]) == (a' + multiset(buckets[b])) + l;
      assert (a + l) + multiset(q) == (a + multiset(q)) + l;
    }
  }

  lemma {:induction false} NothingQueued(n: nat)
    ensures StillQueued(seq(n, _ => [])) == multiset{}
    decreases n
  {
    if n != 0 {
      var s: seq<seq<Item>> := seq(n, _ => []);
      assert s[..n - 1] == seq(n - 1, _ => []);
      NothingQueued(n - 1);
    }
  }

  lemma Cancel(x: multiset<Item>, q: multiset<Item>, s: multiset<Item>, i: multiset<Item>)
    requires x + q == s + (i + q)
    ensures x == s + i
  {
    forall e: Item
      ensures x[e] == (s + i)[e]
    {
      assert (x + q)[e] == (s + (i + q))[e];
    }
  }

  lemma AddKeeps(s: State, data: Ptr, now: int)
    requires Inv(s)
    ensures Inv(Step(s, Add(data, now)))
  {
    hide StillQueued;
    var b := BucketOf(data);
    var q := s.buckets[b];
    if data != 0 && !Queued(q, data) {
      QueuedUpdate(s.buckets, b, [Item(now, data)] + q);
      assert multiset([Item(now, data)] + q) == multiset{Item(now, data)} + multiset(q);
      assert multiset(s.accepted + [Item(now, data)]) == multiset(s.accepted) + multiset{Item(now, data)};
      var s' := Step(s, Add(data, now));
      Cancel(StillQueued(s'.buckets), multiset(q), StillQueued(s.buckets), multiset{Item(now, data)});
      assert Sound([Item(now, data)] + q, b);
    }
  }

  lemma {:induction false} KeptSound(q: seq<Item>, keep: seq<bool>, b: nat)
    requires |q| == |keep| && Sound(q, b)
    ensures Sound(Kept(q, keep), b)
    decreases |q|
  {
    if q != [] {
      var n := |q| - 1;
      KeptSound(q[..n], keep[..n], b);
      forall x | x in Kept(q[..n], keep[..n])
        ensures x.data != q[n].data
      {
        KeptMembers(q[..n], keep[..n], x);
      }
    }
  }

  lemma ReleasesAdd(r: seq<Release>, items: seq<Item>, now: int)
    ensures ReleasedItems(r + Releases(items, now)) == ReleasedItems(r) + items
  {}

  lemma FreedAreOld(q: seq<Item>, now: int)
    ensures forall r :: r in Releases(Freed(q, now), now) ==> Old(r.item, r.now)
  {
    hide Dropped;
    forall r | r in Releases(Freed(q, now), now)
      ensures Old(r.item, r.now)
    {
      assert r.item in Freed(q, now);
      DroppedMembers(q, Young(q, now), r.item);
    }
  }

  lemma SweepKeeps(s: State, b: nat, now: int)
    requires Inv(s) && b < HASH_BUCKETS
    ensures Inv(Step(s, Sweep(b, now)))
  {
    hide StillQueued, Kept, Dropped;
    var q := s.buckets[b];
    QueuedUpdate(s.buckets, b, Collected(q, now));
    KeptAndDropped(q, Young(q, now));
    KeptSound(q, Young(q, now), b);
    ReleasesAdd(s.freed, Freed(q, now), now);
    FreedAreOld(q, now);
    var s' := Step(s, Sweep(b, now));
    var f := multiset(Freed(q, now));
    assert multiset(ReleasedItems(s'.freed)) == multiset(ReleasedItems(s.freed)) + f;
    var t', c := StillQueued(s'.buckets), multiset(Collected(q, now));
    assert (t' + f) + c == t' + (c + f) && multiset{} + c == c;
    Cancel(t' + f, c, StillQueued(s.buckets), multiset{});
    assert StillQueued(s.buckets) + multiset{} == StillQueued(s.buckets);
    assert t' + (multiset(ReleasedItems(s.freed)) + f) == (t' + f) + multiset(ReleasedItems(s.freed));
  }

  lemma {:induction false} RunInv(events: seq<Event>)
    requires forall e :: e in events && e.Sweep? ==> e.bucket < HASH_BUCKETS
    ensures Inv(Run(events))
    decreases |events|
  {
    hide Step, Inv;
    if events == [] {
      StartInv();
    } else {
      var before, e := events[..|events| - 1], events[|events| - 1];
      assert e in events;
      RunInv(before);
      match e
      case Add(data, now) => AddKeeps(Run(before), data, now);
      case Sweep(b, now) => SweepKeeps(Run(before), b, now);
    }
  }

  lemma StartInv()
    ensures Inv(Run([]))
  {
    NothingQueued(HASH_BUCKETS);
    assert ReleasedItems([]) == [];
  }

  // Over any run of additions and sweeps with any clock readings: no pointer is queued twice in
  // any bucket, nothing is freed unless more than five seconds passed since it was queued, and
  // every accepted addition is either still queued or was freed exactly once.
  lemma {:induction false} CollectorConserves(events: seq<Event>)
    requires forall e :: e in events && e.Sweep? ==> e.bucket < HASH_BUCKETS
    ensures var s := Run(events);
            && multiset(s.accepted) == StillQueued(s.buckets) + multiset(ReleasedItems(s.freed))
            && (forall r :: r in s.freed ==> r.now > r.item.time + 5)
            && (forall b, c, i, j | 0 <= b < HASH_BUCKETS && 0 <= c < HASH_BUCKETS &&
              0 <= i < |s.buckets[b]| && 0 <= j < |s.buckets[c]| ::
                  s.buckets[b][i].data == s.buckets[c][j].data ==> b == c && i == j)
  {
    hide Run, StillQueued;
    RunInv(events);
    var s := Run(events);
    assert forall b :: 0 <= b < HASH_BUCKETS ==> Sound(s.buckets[b], b);
  }

  // ---------------------------------------------------------------- when, exactly

  // A sweep frees what was queued more than five seconds before, and keeps the rest.
  lemma SweptIff(q: seq<Item>, now: int, x: Item)
    ensures x in Freed(q, now) <==> x in q && now > x.time + 5
    ensures x in Collected(q, now) <==> x in q && now <= x.time + 5
  {
    KeptMembers(q, Young(q, now), x);
    DroppedMembers(q, Young(q, now), x);
    if x in q {
      var i :| 0 <= i < |q| && q[i] == x;
      assert Young(q, now)[i] == !Old(x, now);
    }
  }

  // After any run an addition is accepted if and only if the pointer is not NULL and not queued in
  // any bucket, and then it is first in its own.
  lemma AcceptedIff(events: seq<Event>, data: Ptr, now: int)
    requires forall e :: e in events && e.Sweep? ==> e.bucket < HASH_BUCKETS
    ensures var s, t := Run(events), Step(Run(events), Add(data, now));
      if data != 0 && forall b, i :: 0 <= b < HASH_BUCKETS && 0 <= i < |s.buckets[b]| ==> s.buckets[b][i].data != data
      then t.accepted == s.accepted + [Item(now, data)] && t.freed == s.freed &&
        t.buckets == s.buckets[data / 16 % HASH_BUCKETS := [Item(now, data)] + s.buckets[data / 16 % HASH_BUCKETS]]
      else t == s
  {
    hide Run;
    RunInv(events);
    var s := Run(events);
    assert forall b :: 0 <= b < HASH_BUCKETS ==> Sound(s.buckets[b], b);
  }
}
