// The singly linked list with iterators that stay usable while it changes
// (module-datastruct-llist.c). Objects are non-zero numbers standing for pointers; 0 is NULL.
// Each call runs under the list lock, so it is one step here. An iterator may be anywhere: on a
// node that another one removed, or with a predecessor that is no longer one.
module LinkedList {
  import opened Sequences

  type Ptr = nat

  class Node {
    const obj: Ptr
    var nxt: Node?
    var flag: nat         // unsigned char; non-zero once the node was removed or moved
    ghost var hits: nat   // how often flag was incremented

    constructor (obj: Ptr)
      ensures this.obj == obj && nxt == null && flag == 0 && hits == 0
    {
      this.obj := obj;
      nxt, flag, hits := null, 0, 0;
    }
  }

  // LL_ITER
  class Iter {
    var cur: Node?
    var prv: Node?

    constructor ()
      ensures cur == null && prv == null
    {
      cur, prv := null, null;
    }
  }

  // Where an iterator stands: before the first node, on node i, or past the end for good.
  datatype Place = Fresh | At(i: nat) | Ended

  ghost predicate Distinct(s: seq<Node>) {
    forall i, j :: 0 <= i < j < |s| ==> s[i] != s[j]
  }

  // Where the iterator goes from the last kept node: to node k, unless the list is used up.
  lemma NextPlace(kept: seq<Node>, s: seq<Node>, k: nat)
    requires k <= |s|
    ensures After(LastOf(kept), |kept + s[k..]|) ==
            if k < |s| then At(|kept|) else if kept == [] then Fresh else Ended
    ensures k < |s| ==> (kept + s[k..])[|kept|] == s[k]
  {}

  // An iterator on the last of the nodes kept so far.
  ghost function LastOf(kept: seq<Node>): Place {
    if kept == [] then Fresh else At(|kept| - 1)
  }

  // Where ll_iter_next takes an iterator on a list of n nodes.
  ghost function After(p: Place, n: nat): Place {
    match p
    case Fresh => if n == 0 then Fresh else At(0)
    case At(i) => if i + 1 < n then At(i + 1) else Ended
    case Ended => Ended
  }

  // ---------------------------------------------------------------- the pointers, as values

  // The fields of a list and the nxt pointers of its nodes
  datatype Form = Form(initial: Node?, last: Node?, count: int, nxt: map<Node, Node?>)

  // The nodes s are what is reachable: `count` is their number and `last` the final one.
  ghost predicate Spans(f: Form, s: seq<Node>) {
    && (forall m :: m in s ==> m in f.nxt)
    && f.count == |s| && Distinct(s)
    && (s == [] ==> f.initial == null && f.last == null)
    && (s != [] ==> f.initial == s[0] && f.last == s[|s| - 1] && f.nxt[s[|s| - 1]] == null)
    && (forall i :: 0 <= i < |s| - 1 ==> f.nxt[s[i]] == s[i + 1])
  }

  // The first k nodes from n on
  ghost function Walked(f: Form, n: Node?, k: nat): seq<Node> {
    if k == 0 || n == null || n !in f.nxt then [] else [n] + Walked(f, f.nxt[n], k - 1)
  }

  ghost predicate Right(f: Form) { f.count >= 0 && Spans(f, Walked(f, f.initial, f.count)) }

  lemma {:induction false} WalkedFrom(f: Form, s: seq<Node>, k: nat)
    requires Spans(f, s) && k < |s|
    ensures Walked(f, s[k], |s| - k) == s[k..]
    decreases |s| - k
  {
    if k < |s| - 1 {
      WalkedFrom(f, s, k + 1);
    } else {
      assert Walked(f, s[k], 1) == [s[k]] + Walked(f, f.nxt[s[k]], 0);
    }
  }

  // So right means that some nodes are reachable as they should be, and these are all there are.
  lemma SpansRight(f: Form, s: seq<Node>)
    requires Spans(f, s)
    ensures Right(f) && Walked(f, f.initial, f.count) == s
  {
    if s != [] {
      WalkedFrom(f, s, 0);
    }
  }

  ghost predicate Knows(f: Form, n: Node?) { n != null ==> n in f.nxt }

  // The pointer changes of ll_iter_remove ...
  ghost function Bypassed(f: Form, del: Node, prv: Node?): Form
    requires del in f.nxt && Knows(f, prv)
  {
    if prv != null then f.(nxt := f.nxt[prv := f.nxt[del]]) else f.(initial := f.nxt[del])
  }

  ghost function Cut(f: Form, del: Node, prv: Node?): Form
    requires del in f.nxt && Knows(f, prv)
  {
    var g := Bypassed(f, del, prv);
    g.(last := if g.initial == null then null else if del == g.last then prv else g.last, count := g.count - 1)
  }

  // ... of ll_iter_move_first ...
  ghost function Topped(f: Form, move: Node, prv: Node?): Form
    requires move in f.nxt && Knows(f, prv)
  {
    var g := Bypassed(f, move, prv);
    g.(last := if prv != null && g.last == move then prv else g.last,
       nxt := g.nxt[move := g.initial], initial := move)
  }

  // ... and of the second branch of ll_iter_insert
  ghost function Inserted(f: Form, cur: Node, n: Node): Form
    requires cur in f.nxt
  {
    f.(nxt := f.nxt[n := f.nxt[cur]][cur := n], count := f.count + 1)
  }

  // Following the pointers from the start
  ghost predicate Path(f: Form, t: seq<Node>) {
    && t != [] && t[0] == f.initial && (forall m :: m in t ==> m in f.nxt)
    && (forall i :: 0 <= i < |t| - 1 ==> f.nxt[t[i]] == t[i + 1])
  }

  lemma {:induction false} PathIsPrefix(f: Form, s: seq<Node>, t: seq<Node>, k: nat)
    requires Spans(f, s) && Path(f, t) && k < |t|
    ensures k < |s| && s[k] == t[k]
    decreases k
  {
    if k > 0 {
      PathIsPrefix(f, s, t, k - 1);
      assert f.nxt[t[k - 1]] == t[k];
    }
  }

  lemma StepOf(f: Form, s: seq<Node>, k: nat)
    requires Spans(f, s) && k < |s|
    ensures f.nxt[s[k]] == if k < |s| - 1 then s[k + 1] else null
  {
  }

  // A path that ends is all there is, so `count` must be its length.
  lemma EndedPath(f: Form, t: seq<Node>)
    requires Path(f, t) && f.nxt[t[|t| - 1]] == null && f.count != |t|
    ensures !Right(f)
  {
    if Right(f) {
      var s := Walked(f, f.initial, f.count);
      PathIsPrefix(f, s, t, |t| - 1);
      StepOf(f, s, |t| - 1);
      assert false;
    }
  }

  // A path that comes back never ends.
  lemma LoopedPath(f: Form, t: seq<Node>, m: nat)
    requires Path(f, t) && m < |t| && f.nxt[t[|t| - 1]] == t[m]
    ensures !Right(f)
  {
    if Right(f) {
      var s := Walked(f, f.initial, f.count);
      PathIsPrefix(f, s, t, |t| - 1);
      PathIsPrefix(f, s, t, m);
      StepOf(f, s, |t| - 1);
      assert false;
    }
  }

  lemma EmptyStart(f: Form)
    requires f.initial == null && f.count != 0
    ensures !Right(f)
  {
  }

  ghost predicate Precedes(s: seq<Node>, i: nat, prv: Node?)
    requires i < |s|
  {
    if i == 0 then prv == null else prv == s[i - 1]
  }

  lemma CutSpans(f: Form, s: seq<Node>, i: nat, prv: Node?)
    requires Spans(f, s) && i < |s| && Knows(f, prv) && Precedes(s, i, prv)
    ensures Spans(Cut(f, s[i], prv), s[..i] + s[i + 1..])
  {
    var g, n, rest := Cut(f, s[i], prv), |s|, s[..i] + s[i + 1..];
    assert forall k :: 0 <= k < |rest| ==> rest[k] == s[if k < i then k else k + 1];
    StepOf(f, s, i);
    if rest != [] {
      assert rest[0] == if i == 0 then s[1] else s[0];
      assert rest[n - 2] == if i == n - 1 then s[n - 2] else s[n - 1];
      assert g.nxt[rest[n - 2]] == null;
    }
    forall k | 0 <= k < |rest| - 1 ensures g.nxt[rest[k]] == rest[k + 1] {
      StepOf(f, s, if k < i then k else k + 1);
    }
  }

  // After ll_iter_remove of a node in the list, `count`, `last` and the chain are right if and
  // only if the iterator's predecessor is the node's.
  lemma CutRightIff(f: Form, s: seq<Node>, i: nat, prv: Node?)
    requires Spans(f, s) && i < |s| && Knows(f, prv)
    ensures Right(Cut(f, s[i], prv)) <==> Precedes(s, i, prv)
  {
    var g, n := Cut(f, s[i], prv), |s|;
    if Precedes(s, i, prv) {
      CutSpans(f, s, i, prv);
      SpansRight(g, s[..i] + s[i + 1..]);
    } else if prv == null {
      if i == n - 1 {
        EmptyStart(g);
      } else {
        EndedPath(g, s[i + 1..]);
      }
    } else if prv in s {
      var j :| 0 <= j < n && s[j] == prv;
      CutAtOther(f, s, i, j);
    } else {
      EndedPath(g, s);
    }
  }

  lemma CutAtOther(f: Form, s: seq<Node>, i: nat, j: nat)
    requires Spans(f, s) && i < |s| && j < |s| && j + 1 != i
    ensures !Right(Cut(f, s[i], s[j]))
  {
    var g := Cut(f, s[i], s[j]);
    StepOf(f, s, i);
    if j < i {
      var t := s[..j + 1] + s[i + 1..];
      assert forall k :: 0 <= k < |t| ==> t[k] == s[if k <= j then k else k + i - j];
      forall k | 0 <= k < |t| - 1 ensures g.nxt[t[k]] == t[k + 1] {
        StepOf(f, s, if k <= j then k else k + i - j);
      }
      EndedPath(g, t);
    } else if j == i {
      EndedPath(g, s);
    } else {
      LoopedPath(g, s[..j + 1], i + 1);
    }
  }

  lemma ToppedSpans(f: Form, s: seq<Node>, i: nat, prv: Node?)
    requires Spans(f, s) && i < |s| && Knows(f, prv) && Precedes(s, i, prv)
    ensures Spans(Topped(f, s[i], prv), [s[i]] + s[..i] + s[i + 1..])
  {
    var g, n, t := Topped(f, s[i], prv), |s|, [s[i]] + s[..i] + s[i + 1..];
    assert forall k :: 0 <= k < n ==> t[k] == s[if k == 0 then i else if k <= i then k - 1 else k];
    StepOf(f, s, i);
    assert t[n - 1] == if i == n - 1 && i > 0 then s[n - 2] else s[n - 1];
    forall k | 0 <= k < n - 1 ensures g.nxt[t[k]] == t[k + 1] {
      StepOf(f, s, if k == 0 then i else if k <= i then k - 1 else k);
    }
  }

  // The same for ll_iter_move_first.
  lemma ToppedRightIff(f: Form, s: seq<Node>, i: nat, prv: Node?)
    requires Spans(f, s) && i < |s| && Knows(f, prv)
    ensures Right(Topped(f, s[i], prv)) <==> Precedes(s, i, prv)
  {
    var g := Topped(f, s[i], prv);
    if Precedes(s, i, prv) {
      ToppedSpans(f, s, i, prv);
      SpansRight(g, [s[i]] + s[..i] + s[i + 1..]);
    } else if prv == null {
      EndedPath(g, s[i..]);
    } else if prv in s[..i] {
      var j :| 0 <= j < i && s[j] == prv;
      ToppedSkips(f, s, i, j);
    } else {
      ToppedLoops(f, s, i, prv);
    }
  }

  lemma ToppedSkips(f: Form, s: seq<Node>, i: nat, j: nat)
    requires Spans(f, s) && j + 1 < i < |s|
    ensures !Right(Topped(f, s[i], s[j]))
  {
    hide Right;
    var g, t := Topped(f, s[i], s[j]), [s[i]] + s[..j + 1] + s[i + 1..];
    assert forall k :: 0 <= k < |t| ==> t[k] == s[if k == 0 then i else if k <= j + 1 then k - 1 else k + i - j - 1];
    StepOf(f, s, i);
    forall k | 0 <= k < |t| - 1 ensures g.nxt[t[k]] == t[k + 1] {
      StepOf(f, s, if k == 0 then i else if k <= j + 1 then k - 1 else k + i - j - 1);
    }
    EndedPath(g, t);
  }

  lemma ToppedLoops(f: Form, s: seq<Node>, i: nat, prv: Node)
    requires Spans(f, s) && i < |s| && prv in f.nxt && prv !in s[..i]
    ensures !Right(Topped(f, s[i], prv))
  {
    var g, t := Topped(f, s[i], prv), [s[i]] + s[..i];
    assert forall k :: 0 <= k < i ==> s[k] in s[..i];
    assert forall k :: 0 < k < |t| ==> t[k] == s[k - 1];
    forall k | 0 <= k < |t| - 1 ensures g.nxt[t[k]] == t[k + 1] {
      if k > 0 {
        StepOf(f, s, k - 1);
      }
    }
    LoopedPath(g, t, 0);
  }

  lemma InsertedSpans(f: Form, s: seq<Node>, i: nat, n: Node)
    requires Spans(f, s) && i < |s| - 1 && n !in f.nxt
    ensures Spans(Inserted(f, s[i], n), s[..i + 1] + [n] + s[i + 1..])
  {
    var g, t := Inserted(f, s[i], n), s[..i + 1] + [n] + s[i + 1..];
    assert forall k :: 0 <= k < |t| ==> t[k] == if k <= i then s[k] else if k == i + 1 then n else s[k - 1];
    forall k | 0 <= k < |t| - 1 ensures g.nxt[t[k]] == t[k + 1] {
      StepOf(f, s, if k <= i then k else k - 1);
    }
  }

  // ll_iter_insert behind a node that is not the last keeps them right if and only if the node is
  // in the list; the predecessor does not matter.
  lemma InsertedRightIff(f: Form, s: seq<Node>, cur: Node, n: Node)
    requires Spans(f, s) && cur in f.nxt && f.nxt[cur] != null && n !in f.nxt
    ensures Right(Inserted(f, cur, n)) <==> cur in s
    ensures forall i :: 0 <= i < |s| && s[i] == cur ==> Spans(Inserted(f, cur, n), s[..i + 1] + [n] + s[i + 1..])
  {
    var g := Inserted(f, cur, n);
    forall i | 0 <= i < |s| && s[i] == cur ensures Spans(g, s[..i + 1] + [n] + s[i + 1..]) && Right(g) {
      InsertedSpans(f, s, i, n);
      SpansRight(g, s[..i + 1] + [n] + s[i + 1..]);
    }
    if cur !in s {
      if s == [] {
        EmptyStart(g);
      } else {
        EndedPath(g, s);
      }
    }
  }

  // The node goes last, ...
  ghost function Appended(f: Form, n: Node): Form {
    var nxt := if f.last != null then f.nxt[f.last := n] else f.nxt;
    Form(if f.last != null then f.initial else n, n, f.count + 1, nxt[n := null])
  }

  // ... or first.
  ghost function Prepended(f: Form, n: Node): Form {
    Form(n, if f.last == null then n else f.last, f.count + 1, f.nxt[n := f.initial])
  }

  lemma AppendedSpans(f: Form, s: seq<Node>, n: Node)
    requires Spans(f, s) && n !in f.nxt
    ensures Spans(Appended(f, n), s + [n])
  {
    var g, t := Appended(f, n), s + [n];
    forall k | 0 <= k < |t| - 1 ensures g.nxt[t[k]] == t[k + 1] {
      StepOf(f, s, k);
    }
  }

  lemma PrependedSpans(f: Form, s: seq<Node>, n: Node)
    requires Spans(f, s) && n !in f.nxt
    ensures Spans(Prepended(f, n), [n] + s)
  {
    var g, t := Prepended(f, n), [n] + s;
    forall k | 0 <= k < |t| - 1 ensures g.nxt[t[k]] == t[k + 1] {
      if k > 0 {
        StepOf(f, s, k - 1);
      }
    }
  }

  lemma InsertedMembers(s: seq<Node>, i: nat, n: Node)
    requires i < |s|
    ensures forall m :: m in s || m == n <==> m in s[..i + 1] + [n] + s[i + 1..]
  {
    assert s == s[..i + 1] + s[i + 1..];
  }

  lemma MovedMembers(s: seq<Node>, i: nat)
    requires i < |s|
    ensures forall m :: m in s <==> m in [s[i]] + s[..i] + s[i + 1..]
  {
    assert s == s[..i] + [s[i]] + s[i + 1..];
  }

  lemma OncePer256(g: nat, h: nat)
    requires 256 * g <= h + 255
    ensures 256 * g <= (h + 1) + 255 && (h % 256 == 0 ==> 256 * (g + 1) <= (h + 1) + 255)
    ensures (h + 1) % 256 == (h % 256 + 1) % 256
  {
    var q := h / 256;
    assert h == 256 * q + h % 256 && g <= q + 1;
  }

  // Where a node of the list is
  ghost function PlaceOf(f: Form, s: seq<Node>, m: Node): (i: nat)
    requires Spans(f, s) && m in s
    ensures i < |s| && s[i] == m && forall j :: 0 <= j < |s| && s[j] == m ==> j == i
  {
    var i :| 0 <= i < |s| && s[i] == m;
    i
  }

  // ---------------------------------------------------------------- the list

  class LList {
    var initial: Node?
    var last: Node?
    var count: int
    ghost var nodes: seq<Node>    // the reachable nodes
    ghost var Repr: set<Node>     // these and the nodes that were reachable once
    ghost var garbage: seq<Node>  // the nodes handed to add_garbage

    ghost function Fields(): (f: Form)
      reads this`initial, this`last, this`count, this`Repr, Repr`nxt
      ensures f.nxt.Keys == Repr && f.count == count && f.initial == initial && f.last == last
      ensures forall m :: m in Repr ==> f.nxt[m] == m.nxt
    {
      Form(initial, last, count, map m | m in Repr :: m.nxt)
    }

    // The pointers lead to nodes the list has or had.
    ghost predicate Closed()
      reads this`initial, this`last, this`Repr, Repr`nxt
    {
      && (initial != null ==> initial in Repr) && (last != null ==> last in Repr)
      && (forall m :: m in Repr && m.nxt != null ==> m.nxt in Repr)
    }

    // Every flag counts increments modulo 256, and a node was handed to add_garbage at most once
    // for every 256 of them.
    ghost predicate Ledger()
      reads this`garbage, this`Repr, Repr`flag, Repr`hits
    {
      && (forall m :: m in garbage ==> m in Repr)
      && (forall m :: m in Repr ==> m.obj != 0 && m.flag == m.hits % 256)
      && (forall m :: m in Repr ==> 256 * multiset(garbage)[m] <= m.hits + 255)
    }

    // `count`, `last` and the chain are right, and nodes that left the list were flagged.
    ghost predicate Valid()
      reads this, Repr
    {
      Closed() && Ledger() && Spans(Fields(), nodes) && Flagged()
    }

    lemma Parts()
      ensures Valid() <==> Closed() && Ledger() && Spans(Fields(), nodes) && Flagged()
    {
    }

    // What a list that is right looks like from its fields
    lemma Links()
      requires Valid()
      ensures (forall m :: m in nodes ==> m in Repr && m.obj != 0) && Distinct(nodes)
      ensures count == |nodes| && (nodes == [] <==> initial == null) && (nodes == [] <==> last == null)
      ensures nodes != [] ==> initial == nodes[0] && last == nodes[|nodes| - 1] && last.nxt == null
      ensures forall i {:trigger nodes[i].nxt} :: 0 <= i < |nodes| - 1 ==> nodes[i].nxt == nodes[i + 1]
    {
      forall i {:trigger nodes[i].nxt} | 0 <= i < |nodes| - 1 ensures nodes[i].nxt == nodes[i + 1] {
        StepOf(Fields(), nodes, i);
      }
    }

    // A node is handed over once, until its flag has gone round.
    lemma HandedOnce(m: Node)
      requires Ledger() && m in Repr && m.hits <= 256
      ensures multiset(garbage)[m] <= 1
      ensures m in garbage && m.hits < 256 ==> m.flag != 0
    {
      assert m in garbage <==> multiset(garbage)[m] > 0;
    }

    // The objects in list order.
    ghost function Objs(): seq<Ptr>
      reads this
    {
      ObjsOf(nodes)
    }

    // The iterator's node is one the list has or had.
    ghost predicate Known(it: Iter)
      reads this, it
    {
      it.cur != null ==> it.cur in Repr && (it.prv != null ==> it.prv in Repr)
    }

    // An iterator that nothing has happened to
    ghost predicate Stands(it: Iter, p: Place)
      reads this, it
    {
      match p
      case Fresh => it.cur == null && it.prv == null
      case At(i) => i < |nodes| && it.cur == nodes[i] && Precedes(nodes, i, it.prv)
      case Ended => it.cur == null && it.prv != null
    }

    lemma StandsKnown(it: Iter, p: Place)
      requires Valid() && Stands(it, p)
      ensures Known(it)
    {
      Links();
    }

    constructor ()
      ensures Valid() && nodes == [] && garbage == [] && Repr == {}
    {
      initial, last, count := null, null, 0;
      nodes, garbage, Repr := [], [], {};
    }

    // Pointer changes and new nodes leave the ledger alone.
    twostate lemma LedgerKept()
      requires old(Ledger()) && garbage == old(garbage) && old(Repr) <= Repr
      requires forall m :: m in old(Repr) ==> m.flag == old(m.flag) && m.hits == old(m.hits)
      requires forall m :: m in Repr - old(Repr) ==> m.obj != 0 && m.flag == 0 && m.hits == 0
      ensures Ledger()
    {
      forall m | m in Repr - old(Repr) ensures multiset(garbage)[m] == 0 {
        assert m !in garbage;
      }
    }

    twostate lemma FlaggedKept()
      requires old(Flagged()) && old(Repr) <= Repr &&
        (forall m :: m in old(nodes) || m in Repr - old(Repr) ==> m in nodes)
      requires forall m :: m in old(Repr) ==> m.hits >= old(m.hits)
      ensures Flagged()
    {
    }

    // Nodes that leave the list have been flagged.
    ghost predicate Flagged()
      reads this`nodes, this`Repr, Repr`hits
    {
      forall m :: m in Repr && m !in nodes ==> m.hits >= 1
    }

    // cs_malloc
    method NewNode(obj: Ptr) returns (n: Node)
      requires obj != 0
      ensures fresh(n) && n.obj == obj && n.nxt == null && n.flag == 0 && n.hits == 0
    {
      n := new Node(obj);
    }

    // ll_append_nolock, under ll_append
    method Append(obj: Ptr) returns (n: Node?)
      requires Valid()
      modifies this, Repr`nxt
      ensures Valid() && garbage == old(garbage)
      ensures obj == 0 ==> n == null && nodes == old(nodes) && Repr == old(Repr)
      ensures obj != 0 ==> n != null && fresh(n) && n.obj == obj && n.flag == 0
      ensures obj != 0 ==> nodes == old(nodes) + [n] && Repr == old(Repr) + {n}
    {
      n := null;
      if obj != 0 {
        hide Valid;
        n := NewNode(obj);
        AppendNode(n);
      }
    }

    method AppendNode(n: Node)
      requires Valid() && n !in Repr && n.nxt == null && n.obj != 0 && n.flag == 0 && n.hits == 0
      modifies this`initial, this`last, this`count, this`nodes, this`Repr, Repr`nxt
      ensures Valid() && nodes == old(nodes) + [n] && Repr == old(Repr) + {n}
    {
      hide Spans, Ledger, Closed, Flagged, Fields, Appended, Valid;
      Parts();
      ghost var f, s := Fields(), nodes;
      AppendedSpans(f, s, n);
      PutLast(n);
      nodes := s + [n];
      LedgerKept();
      FlaggedKept();
      Parts();
    }

    method PutLast(n: Node)
      requires Closed() && n.nxt == null && n !in Repr
      modifies this`initial, this`last, this`count, this`Repr, Repr`nxt
      ensures Closed() && Fields() == Appended(old(Fields()), n) && Repr == old(Repr) + {n}
    {
      if last != null {
        last.nxt := n;
      } else {
        initial := n;
      }
      last := n;
      count := count + 1;
      Repr := Repr + {n};
    }

    // ll_prepend
    method Prepend(obj: Ptr) returns (n: Node?)
      requires Valid()
      modifies this
      ensures Valid() && garbage == old(garbage)
      ensures obj == 0 ==> n == null && nodes == old(nodes) && Repr == old(Repr)
      ensures obj != 0 ==> n != null && fresh(n) && n.obj == obj && n.flag == 0
      ensures obj != 0 ==> nodes == [n] + old(nodes) && Repr == old(Repr) + {n}
    {
      n := null;
      if obj != 0 {
        hide Valid;
        n := NewNode(obj);
        PrependNode(n);
      }
    }

    method PrependNode(n: Node)
      requires Valid() && n !in Repr && n.nxt == null && n.obj != 0 && n.flag == 0 && n.hits == 0
      modifies this`initial, this`last, this`count, this`nodes, this`Repr, n`nxt
      ensures Valid() && nodes == [n] + old(nodes) && Repr == old(Repr) + {n}
    {
      hide Spans, Ledger, Closed, Flagged, Fields, Prepended, Valid;
      Parts();
      ghost var f, s := Fields(), nodes;
      PrependedSpans(f, s, n);
      PutFirst(n);
      nodes := [n] + s;
      LedgerKept();
      FlaggedKept();
      Parts();
    }

    method PutFirst(n: Node)
      requires Closed() && n.nxt == null && n !in Repr
      modifies this`initial, this`last, this`count, this`Repr, n`nxt
      ensures Closed() && Fields() == Prepended(old(Fields()), n) && Repr == old(Repr) + {n}
    {
      n.nxt := initial;
      initial := n;
      if last == null {
        last := initial;
      }
      count := count + 1;
      Repr := Repr + {n};
    }

    // ll_iter_next_nolock. From a node of the list it gets to the next one with the right
    // predecessor, whatever predecessor it had before; from any other it follows the pointer.
    method Next(it: Iter, ghost p: Place) returns (obj: Ptr, ghost q: Place)
      requires Valid() && Known(it)
      modifies it
      ensures Known(it) && obj == if it.cur != null then it.cur.obj else 0
      ensures old(it.cur) != null ==> it.prv == old(it.cur) && it.cur == old(it.cur).nxt
      ensures old(it.cur) == null ==> it.prv == old(it.prv) && it.cur == if it.prv == null then initial else null
      ensures forall i :: 0 <= i < |nodes| && old(it.cur) == nodes[i] ==> Stands(it, After(At(i), |nodes|))
      ensures q == After(p, |nodes|) && (old(Stands(it, p)) ==> Stands(it, q))
    {
      Links();
      Advance(it);
      q := After(p, |nodes|);
      obj := if it.cur != null then it.cur.obj else 0;
    }

    // The same for an iterator that nothing has happened to
    method Proceed(it: Iter, ghost p: Place) returns (obj: Ptr, ghost q: Place)
      requires Valid() && Stands(it, p)
      modifies it
      ensures Stands(it, q) && q == After(p, |nodes|) && obj == if q.At? then nodes[q.i].obj else 0
    {
      hide Valid;
      StandsKnown(it, p);
      obj, q := Next(it, p);
    }

    method Advance(it: Iter)
      modifies it
      ensures old(it.cur) != null ==> it.prv == old(it.cur) && it.cur == old(it.cur).nxt
      ensures old(it.cur) == null ==>
        it.prv == old(it.prv) && it.cur == if it.prv == null then initial else null
    {
      if it.cur != null {
        it.prv := it.cur;
        it.cur := it.cur.nxt;
      } else if initial != null && it.prv == null {
        it.cur := initial;
      }
    }

    // ll_iter_reset
    method Reset(it: Iter)
      modifies it
      ensures Stands(it, Fresh)
    {
      it.prv, it.cur := null, null;
    }

    // ll_iter_insert: behind the iterator's node, or at the end of the list. The list stays right
    // unless that node was removed and still has a successor.
    method Insert(it: Iter, obj: Ptr, ghost p: Place) returns (ghost n: Node?)
      requires Valid() && Known(it)
      modifies this, Repr`nxt
      ensures Closed() && Ledger() && garbage == old(garbage)
      ensures obj == 0 ==> Valid() && nodes == old(nodes) && Repr == old(Repr)
      ensures obj != 0 ==> n != null && fresh(n) && n.obj == obj && n.flag == 0 && Repr == old(Repr) + {n}
      ensures obj != 0 ==>
        (Valid() <==> it.cur == null || old(it.cur.nxt) == null || it.cur in old(nodes)) &&
          (Valid() <==> Right(Fields()))
      ensures obj != 0 && (it.cur == null || old(it.cur.nxt) == null) ==> nodes == old(nodes) + [n]
      ensures obj != 0 ==> forall i :: 0 <= i < |old(nodes)| - 1 && it.cur == old(nodes)[i] ==>
        nodes == old(nodes)[..i + 1] + [n] + old(nodes)[i + 1..]
      ensures old(Stands(it, p)) ==> Stands(it, p)
    {
      n := null;
      if obj != 0 {
        Links();
        if it.cur == null || it.cur.nxt == null {
          n := Append(obj);
          SpansRight(Fields(), nodes);
        } else {
          n := Splice(it.cur, obj);
        }
      }
    }

    // The second branch of ll_iter_insert: a node right behind this one, which has a successor
    method Splice(at: Node, obj: Ptr) returns (n: Node)
      requires Valid() && at in Repr && at.nxt != null && obj != 0
      modifies this, Repr`nxt
      ensures Closed() && Ledger() && garbage == old(garbage) && Repr == old(Repr) + {n}
      ensures fresh(n) && n.obj == obj && n.flag == 0
      ensures (Valid() <==> at in old(nodes)) && (Right(Fields()) <==> at in old(nodes))
      ensures forall i :: 0 <= i < |old(nodes)| && at == old(nodes)[i] ==>
        nodes == old(nodes)[..i + 1] + [n] + old(nodes)[i + 1..]
    {
      hide Valid, Spans, Right, Fields, Closed, Ledger;
      n := NewNode(obj);
      SpliceNode(at, n);
    }

    method SpliceNode(at: Node, n: Node)
      requires Valid() && at in Repr && at.nxt != null
      requires n !in Repr && n.nxt == null && n.obj != 0 && n.flag == 0 && n.hits == 0
      modifies this`count, this`nodes, this`Repr, at`nxt, n`nxt
      ensures Closed() && Ledger() && Repr == old(Repr) + {n}
      ensures (Valid() <==> at in old(nodes)) && (Right(Fields()) <==> at in old(nodes))
      ensures forall i :: 0 <= i < |old(nodes)| && at == old(nodes)[i] ==>
        nodes == old(nodes)[..i + 1] + [n] + old(nodes)[i + 1..]
    {
      hide Spans, Right, Ledger, Closed, Fields, Inserted, Valid;
      Parts();
      ghost var f, s := Fields(), nodes;
      InsertedRightIff(f, s, at, n);
      PutIn(at, n);
      if at in s {
        ghost var i := PlaceOf(f, s, at);
        InsertedMembers(s, i, n);
        nodes := s[..i + 1] + [n] + s[i + 1..];
        FlaggedMore(s, n);
        Parts();
      } else {
        ValidIsRight();
      }
    }

    method PutIn(at: Node, n: Node)
      requires Closed() && Ledger() && at in Repr && n !in Repr && n.obj != 0 && n.flag == 0 && n.hits == 0
      modifies this`count, this`Repr, at`nxt, n`nxt
      ensures Closed() && Ledger() && Fields() == Inserted(old(Fields()), at, n) && Repr == old(Repr) + {n}
    {
      hide Ledger, Closed, Fields, Inserted;
      PutBehind(at, n);
      LedgerKept();
    }

    lemma FlaggedMore(s: seq<Node>, n: Node)
      requires forall m :: m in s || m == n <==> m in nodes
      requires forall m :: m in Repr && m != n && m !in s ==> m.hits >= 1
      ensures Flagged()
    {
    }

    method PutBehind(at: Node, n: Node)
      requires Closed() && at in Repr && n !in Repr
      modifies this`count, this`Repr, at`nxt, n`nxt
      ensures Closed() && Fields() == Inserted(old(Fields()), at, n) && Repr == old(Repr) + {n}
    {
      n.nxt := at.nxt;
      at.nxt := n;
      count := count + 1;
      Repr := Repr + {n};
    }

    lemma ValidIsRight()
      ensures Valid() ==> Right(Fields())
    {
      if Valid() {
        SpansRight(Fields(), nodes);
      }
    }

    // flag++, and what add_garbage gets if it was 0
    method Strike(n: Node, ghost hand: bool) returns (first: bool)
      requires Ledger() && n in Repr
      modifies this`garbage, n`flag, n`hits
      ensures Ledger() && first == (old(n.flag) == 0) && n.flag == Bump(old(n.flag)) && n.hits == old(n.hits) + 1
      ensures garbage == old(garbage) + if first && hand then [n] else []
    {
      first := n.flag == 0;
      n.flag := Bump(n.flag);
      n.hits := n.hits + 1;
      garbage := garbage + if first && hand then [n] else [];
      OncePer256(multiset(old(garbage))[n], old(n.hits));
      forall m | m in Repr
        ensures multiset(garbage)[m] == multiset(old(garbage))[m] + if first && hand && m == n then 1 else 0
      {
      }
    }

    // The chain skips the node, seen from prv.
    method Bypass(del: Node, prv: Node?)
      requires Closed() && del in Repr && (prv != null ==> prv in Repr)
      modifies this`initial, Repr`nxt
      ensures Closed() && Fields() == Bypassed(old(Fields()), del, prv)
    {
      if prv != null {
        prv.nxt := del.nxt;
      } else {
        initial := del.nxt;
      }
    }

    // The pointer changes of ll_iter_remove
    method CutOut(del: Node, prv: Node?)
      requires Closed() && del in Repr && (prv != null ==> prv in Repr)
      modifies this`initial, this`last, this`count, Repr`nxt
      ensures Closed() && Fields() == Cut(old(Fields()), del, prv)
    {
      hide Bypassed;
      Bypass(del, prv);
      ghost var g := Fields();
      if initial == null {
        last := null;
      } else if del == last {
        last := prv;
      }
      count := count - 1;
      assert Fields() == g.(last := last, count := count);
    }

    // The same, with what it means for the list
    method TakeOff(del: Node, prv: Node?)
      requires Valid() && del in Repr && (prv != null ==> prv in Repr) && del.hits >= 1
      modifies this`initial, this`last, this`count, this`nodes, Repr`nxt
      ensures Closed() && Ledger() && Fields() == Cut(old(Fields()), del, prv)
      ensures forall i :: 0 <= i < |old(nodes)| && old(nodes)[i] == del ==>
        && (Right(Fields()) <==> Precedes(old(nodes), i, prv)) && (Valid() <==> Precedes(old(nodes), i, prv))
        && (Valid() ==> nodes == old(nodes)[..i] + old(nodes)[i + 1..])
    {
      hide Spans, Right, Ledger, Closed, Fields, Cut, Valid, Precedes;
      Parts();
      ghost var f, s := Fields(), nodes;
      CutOut(del, prv);
      if del in s {
        ghost var i := PlaceOf(f, s, del);
        CutRightIff(f, s, i, prv);
        if Precedes(s, i, prv) {
          CutSpans(f, s, i, prv);
          nodes := s[..i] + s[i + 1..];
          FlaggedLess(s, i);
        }
        ValidIsRight();
        Parts();
      }
    }

    // The node that leaves the list has been flagged.
    lemma FlaggedLess(s: seq<Node>, i: nat)
      requires i < |s| && s[i].hits >= 1 && nodes == s[..i] + s[i + 1..]
      requires forall m :: m in Repr && m !in s ==> m.hits >= 1
      ensures Flagged()
    {
      assert s == s[..i] + [s[i]] + s[i + 1..];
    }

    // The way from the start to prv, or to the end if prv is not on it
    ghost predicate WayTo(t: seq<Node>, prv: Node)
      reads this`initial, t`nxt
    {
      && (if t == [] then initial == null else t[0] == initial)
      && (forall k :: 0 <= k < |t| - 1 ==> t[k].nxt == t[k + 1] && t[k] != prv)
      && (t != [] && t[|t| - 1] != prv ==> t[|t| - 1].nxt == null)
    }

    // Taking a node off changes at most where prv leads to, so the walk back to it ends.
    lemma WayAfterCut(f: Form, s: seq<Node>, del: Node, prv: Node) returns (t: seq<Node>)
      requires Spans(f, s) && del in f.nxt && prv in f.nxt && Fields() == Cut(f, del, prv)
      ensures WayTo(t, prv) && t <= s && (prv in s ==> t != [] && t[|t| - 1] == prv)
    {
      t := s;
      if prv in s {
        t := s[..PlaceOf(f, s, prv) + 1];
      }
      forall k | 0 <= k < |t| - 1 ensures t[k].nxt == t[k + 1] && t[k] != prv {
        StepOf(f, s, k);
      }
      if t != [] {
        StepOf(f, s, |t| - 1);
      }
    }

    // The iterator is reset and walks to prv, if there is one.
    method WalkBack(it: Iter, prv: Node?, ghost t: seq<Node>)
      requires prv != null ==> WayTo(t, prv)
      modifies it
      ensures prv == null ==> it.cur == null && it.prv == null
      ensures prv != null && t != [] && t[|t| - 1] == prv ==> it.cur == prv && Precedes(t, |t| - 1, it.prv)
      ensures prv != null && (t == [] || t[|t| - 1] != prv) ==> it.cur == null
    {
      it.prv, it.cur := null, null;
      ghost var k := 0;
      while prv != null
        invariant k <= |t| && (k == 0 ==> it.cur == null && it.prv == null)
        invariant k > 0 ==> prv != null && it.cur == t[k - 1] != prv && Precedes(t, k - 1, it.prv)
        decreases |t| - k
      {
        Advance(it);
        assert it.cur == if k < |t| then t[k] else null;
        assert k < |t| ==> Precedes(t, k, it.prv);
        if it.cur == null || it.cur == prv {
          break;
        }
        k := k + 1;
      }
    }

    // The flag of a node the list has or had is incremented.
    method StrikeNode(n: Node, ghost hand: bool) returns (first: bool)
      requires Valid() && n in Repr
      modifies this`garbage, n`flag, n`hits
      ensures Valid() && first == (old(n.flag) == 0) && n.flag == Bump(old(n.flag)) && n.hits == old(n.hits) + 1
      ensures garbage == old(garbage) + if first && hand then [n] else []
      ensures old(n.flag) == 0 && old(n.hits) < 256 ==> n in nodes
    {
      hide Spans, Ledger, Closed, Flagged, Fields, Valid;
      Parts();
      StruckBefore(n);
      first := Strike(n, hand);
      FlaggedKept();
      Parts();
    }

    lemma StruckBefore(n: Node)
      requires Ledger() && Flagged() && n in Repr
      ensures n.flag == 0 && n.hits < 256 ==> n in nodes
    {
    }

    // The rest of ll_iter_remove on a node whose flag was 0
    method RemoveStruck(it: Iter)
      requires Valid() && Known(it) && it.cur != null && it.cur.hits >= 1
      modifies this`initial, this`last, this`count, this`nodes, Repr`nxt, it
      ensures Closed() && Ledger() && Known(it) && Fields() == Cut(old(Fields()), old(it.cur), old(it.prv))
      ensures forall i :: 0 <= i < |old(nodes)| && old(nodes)[i] == old(it.cur) ==>
        && (Right(Fields()) <==> Precedes(old(nodes), i, old(it.prv)))
        && (Valid() <==> Precedes(old(nodes), i, old(it.prv)))
        && (Valid() ==>
          nodes == old(nodes)[..i] + old(nodes)[i + 1..] && Stands(it, if i == 0 then Fresh else At(i - 1)))
    {
      hide Spans, Right, Ledger, Closed, Fields, Cut, Valid, WayTo, Flagged;
      Parts();
      ghost var f, s := Fields(), nodes;
      var del, prv := it.cur, it.prv;
      TakeOff(del, prv);
      ghost var t: seq<Node> := [];
      if prv != null {
        t := WayAfterCut(f, s, del, prv);
      }
      WalkBack(it, prv, t);
      SpansKnown(f, s);
    }

    lemma SpansKnown(f: Form, s: seq<Node>)
      requires Spans(f, s)
      ensures (forall m :: m in s ==> m in f.nxt) && Distinct(s)
    {
    }

    // ll_iter_remove, for any iterator whose node the list has or had. A node that is flagged
    // stays where it is and is not handed to add_garbage; so does one that was removed, until its
    // flag has gone round. Taking off a node of the list leaves `count`, `last` and the chain
    // right if and only if the iterator's predecessor is the node's.
    method Remove(it: Iter, ghost p: Place) returns (obj: Ptr, ghost q: Place)
      requires Valid() && Known(it)
      modifies this, Repr, it
      ensures Closed() && Ledger() && Known(it) && Repr == old(Repr)
      ensures old(it.cur) == null || old(it.cur.flag) != 0 ==>
        && Valid() && obj == 0 && nodes == old(nodes) && garbage == old(garbage)
        && Fields() == old(Fields()) && it.cur == old(it.cur) && it.prv == old(it.prv)
      ensures old(it.cur) != null && old(it.cur.flag) == 0 ==>
        && obj == old(it.cur).obj && garbage == old(garbage) + [old(it.cur)]
        && Fields() == Cut(old(Fields()), old(it.cur), old(it.prv))
      ensures old(it.cur) != null && old(it.cur.flag) == 0 && old(it.cur.hits) < 256 ==> old(it.cur) in old(nodes)
      ensures forall i :: 0 <= i < |old(nodes)| && old(nodes)[i] == old(it.cur) && old(it.cur.flag) == 0 ==>
        && (Right(Fields()) <==> Precedes(old(nodes), i, old(it.prv)))
        && (Valid() <==> Precedes(old(nodes), i, old(it.prv)))
        && (Valid() ==>
          nodes == old(nodes)[..i] + old(nodes)[i + 1..] && Stands(it, if i == 0 then Fresh else At(i - 1)))
      ensures forall m :: m in Repr && m != old(it.cur) ==> m.flag == old(m.flag) && m.hits == old(m.hits)
      ensures old(it.cur) != null ==>
        old(it.cur).flag == Bump(old(it.cur.flag)) && old(it.cur).hits == old(it.cur.hits) + 1
      ensures old(Stands(it, p)) ==>
        q == if p.At? && old(it.cur.flag) == 0 then (if p.i == 0 then Fresh else At(p.i - 1)) else p
    {
      hide Spans, Right, Ledger, Closed, Fields, Cut, Flagged, Valid, Precedes;
      obj, q := 0, p;
      Parts();
      var del := it.cur;
      if del != null {
        q := if p.At? && del.flag == 0 then (if p.i == 0 then Fresh else At(p.i - 1)) else p;
        var first := StrikeNode(del, true);
        if first {
          obj := del.obj;
          RemoveStruck(it);
        } else {
          Parts();
        }
      }
    }

    // The pointer changes of ll_iter_move_first
    method PutOnTop(move: Node, prv: Node?)
      requires Closed() && move in Repr && (prv != null ==> prv in Repr)
      modifies this`initial, this`last, Repr`nxt
      ensures Closed() && Fields() == Topped(old(Fields()), move, prv)
    {
      hide Bypassed;
      Bypass(move, prv);
      ghost var g := Fields();
      if prv != null && last == move {
        last := prv;
      }
      assert Fields() == g.(last := last);
      hide Fields, Closed;
      PutAhead(move);
    }

    method PutAhead(move: Node)
      requires Closed() && move in Repr
      modifies this`initial, move`nxt
      ensures Closed() && Fields() == old(Fields()).(nxt := old(Fields()).nxt[move := old(initial)], initial := move)
    {
      move.nxt := initial;
      initial := move;
    }

    // The same, with what it means for the list
    method MoveOn(move: Node, prv: Node?)
      requires Valid() && move in Repr && (prv != null ==> prv in Repr)
      modifies this`initial, this`last, this`nodes, Repr`nxt
      ensures Closed() && Ledger() && Fields() == Topped(old(Fields()), move, prv)
      ensures forall i :: 0 <= i < |old(nodes)| && old(nodes)[i] == move ==>
        && (Right(Fields()) <==> Precedes(old(nodes), i, prv)) && (Valid() <==> Precedes(old(nodes), i, prv))
        && (Valid() ==> nodes == [old(nodes)[i]] + old(nodes)[..i] + old(nodes)[i + 1..])
    {
      hide Spans, Right, Ledger, Closed, Fields, Topped, Valid, Precedes, Flagged;
      Parts();
      ghost var f, s := Fields(), nodes;
      PutOnTop(move, prv);
      if move in s {
        ghost var i := PlaceOf(f, s, move);
        ToppedRightIff(f, s, i, prv);
        if Precedes(s, i, prv) {
          ToppedSpans(f, s, i, prv);
          MovedMembers(s, i);
          nodes := [s[i]] + s[..i] + s[i + 1..];
          FlaggedKept();
        }
        ValidIsRight();
        Parts();
      }
    }

    // ll_iter_move_first, for any iterator whose node the list has or had: an unflagged node goes
    // first, which leaves the list right if and only if the iterator's predecessor is the node's.
    method MoveFirst(it: Iter, ghost p: Place) returns (moved: bool, ghost q: Place)
      requires Valid() && Known(it)
      modifies this, Repr, it
      ensures Closed() && Ledger() && Known(it) && Repr == old(Repr) && garbage == old(garbage)
      ensures moved == (old(it.cur) != null && old(it.cur.flag) == 0)
      ensures !moved ==>
        && Valid() && nodes == old(nodes) && Fields() == old(Fields())
        && it.cur == old(it.cur) && it.prv == old(it.prv)
      ensures moved ==> Fields() == Topped(old(Fields()), old(it.cur), old(it.prv)) && Stands(it, Fresh)
      ensures moved && old(it.cur.hits) < 256 ==> old(it.cur) in old(nodes)
      ensures moved ==> forall i :: 0 <= i < |old(nodes)| && old(nodes)[i] == old(it.cur) ==>
        && (Right(Fields()) <==> Precedes(old(nodes), i, old(it.prv)))
        && (Valid() <==> Precedes(old(nodes), i, old(it.prv)))
        && (Valid() ==> nodes == [old(nodes)[i]] + old(nodes)[..i] + old(nodes)[i + 1..])
      ensures forall m :: m in Repr && m != old(it.cur) ==> m.flag == old(m.flag) && m.hits == old(m.hits)
      ensures old(it.cur) != null ==>
        old(it.cur).flag == Bump(old(it.cur.flag)) && old(it.cur).hits == old(it.cur.hits) + 1
      ensures q == if moved then Fresh else p
    {
      hide Spans, Right, Ledger, Closed, Fields, Topped, Flagged, Valid, Precedes;
      moved, q := false, p;
      Parts();
      var move := it.cur;
      if move != null {
        moved := StrikeNode(move, false);
        if moved {
          MoveOn(move, it.prv);
          Reset(it);
          q := Fresh;
        } else {
          Parts();
        }
      }
    }

    // ll_clear: nodes that were moved keep their flag and are not handed to add_garbage
    method Clear()
      requires Valid()
      modifies this, Repr`flag, Repr`hits
      ensures Valid() && nodes == [] && Repr == old(Repr)
      ensures garbage == old(garbage) + old(Unflagged(nodes))
      ensures forall m :: m in old(nodes) ==> m.flag == Bump(old(m.flag))
    {
      hide Spans, Right, Ledger, Closed, Flagged, Fields, Valid;
      Links();
      var n := initial;
      ghost var k := 0;
      while n != null
        invariant k <= |nodes| && nodes == old(nodes) && n == if k == |nodes| then null else nodes[k]
        invariant Valid() && Repr == old(Repr)
        invariant garbage == old(garbage) + old(Unflagged(nodes[..k]))
        invariant forall i :: 0 <= i < |nodes| ==>
          nodes[i].flag == if i < k then Bump(old(nodes[i].flag)) else old(nodes[i].flag)
        invariant forall i :: 0 <= i < k ==> nodes[i].hits >= 1
        decreases |nodes| - k
      {
        Links();
        assert nodes[..k + 1][..k] == nodes[..k];
        var nxt := n.nxt;
        var first := StrikeNode(n, true);
        n := nxt;
        k := k + 1;
      }
      assert nodes[..k] == nodes;
      Empty();
    }

    method Empty()
      requires Valid() && forall m :: m in nodes ==> m.hits >= 1
      modifies this`initial, this`last, this`count, this`nodes
      ensures Valid() && nodes == []
    {
      hide Ledger;
      count := 0;
      initial := null;
      last := null;
      nodes := [];
    }

    // A traversal has dealt with the first k nodes of the original list N: they are down to those
    // that K marks.
    ghost predicate Swept(N: seq<Node>, K: seq<bool>, k: nat)
      reads this, Repr
    {
      k <= |N| == |K| && Valid() && nodes == Kept(N[..k], K[..k]) + N[k..]
    }

    // ll_iter_next from the last node kept finds node k, or nothing when all nodes were visited.
    method NextOf(it: Iter, ghost N: seq<Node>, ghost K: seq<bool>, ghost k: nat) returns (obj: Ptr)
      requires Swept(N, K, k) && Stands(it, LastOf(Kept(N[..k], K[..k])))
      modifies it
      ensures Swept(N, K, k)
      ensures obj == 0 <==> k == |N|
      ensures k < |N| ==> obj == N[k].obj && Stands(it, At(|Kept(N[..k], K[..k])|))
    {
      hide Kept;
      ghost var kept := Kept(N[..k], K[..k]);
      NextPlace(kept, N, k);
      ghost var q;
      obj, q := Proceed(it, LastOf(kept));
    }

    // ll_iter_remove on that node.
    method Decide(it: Iter, ghost N: seq<Node>, ghost K: seq<bool>, ghost k: nat)
      requires k < |N| == |K| && Swept(N, K, k) && Stands(it, At(|Kept(N[..k], K[..k])|))
      requires K[k] == (N[k].flag != 0)
      modifies this, Repr, it
      ensures Swept(N, K, k + 1) && Stands(it, LastOf(Kept(N[..k + 1], K[..k + 1]))) && Repr == old(Repr)
      ensures garbage == old(garbage) + if K[k] then [] else [N[k]]
      ensures forall m :: m in Repr && m != N[k] ==> m.flag == old(m.flag)
    {
      hide Kept, Valid, Stands;
      ghost var kept := Kept(N[..k], K[..k]);
      SpliceKept(kept, N, k);
      RemoveAt(it, |kept|);
      NextKept(N, K, k);
    }

    // ll_iter_remove, for an iterator that is known to be on node i.
    method RemoveAt(it: Iter, ghost i: nat)
      requires Valid() && i < |nodes| && Stands(it, At(i))
      modifies this, Repr, it
      ensures Valid() && Repr == old(Repr)
      ensures old(nodes[i].flag) != 0 ==> nodes == old(nodes) && garbage == old(garbage) && Stands(it, At(i))
      ensures old(nodes[i].flag) == 0 ==>
                && nodes == old(nodes)[..i] + old(nodes)[i + 1..] && garbage == old(garbage) + [old(nodes)[i]]
                && Stands(it, if i == 0 then Fresh else At(i - 1))
      ensures forall m :: m in Repr && m != old(nodes)[i] ==> m.flag == old(m.flag)
    {
      hide Valid, Spans, Right, Fields, Cut, Closed, Ledger;
      var o;
      ghost var q;
      StandsKnown(it, At(i));
      o, q := Remove(it, At(i));
    }

    lemma StartMidway(it: Iter, N: seq<Node>, K: seq<bool>, choose: seq<bool>)
      requires Valid() && N == nodes && |choose| == |N| && K == Marks(N, choose) && it.cur == null && it.prv == null
      ensures Midway(it, N, K, choose, 0) && Dropped(N[..0], K[..0]) == []
    {
      assert N[..0] == [] && K[..0] == [];
      assert [] + N[0..] == N;
    }

    lemma AllSwept(N: seq<Node>, K: seq<bool>)
      requires Swept(N, K, |N|)
      ensures Valid() && nodes == Kept(N, K) && Dropped(N[..|N|], K[..|N|]) == Dropped(N, K)
    {
      assert N[..|N|] == N && K[..|N|] == K && N[|N|..] == [];
    }

    // The state of a traversal that has visited k nodes and removes those that choose marks.
    ghost predicate Midway(it: Iter, N: seq<Node>, K: seq<bool>, choose: seq<bool>, k: nat)
      reads this, Repr, it, N
    {
      && Swept(N, K, k) && Stands(it, LastOf(Kept(N[..k], K[..k]))) && Agree(N, K, choose, k)
      && forall m :: m in N ==> m in Repr
    }

    // The same right after ll_iter_next, with the iterator on node k.
    ghost predicate OnNode(it: Iter, N: seq<Node>, K: seq<bool>, choose: seq<bool>, k: nat)
      reads this, Repr, it, N
    {
      && k < |N| && Swept(N, K, k) && Stands(it, At(|Kept(N[..k], K[..k])|)) && Agree(N, K, choose, k)
      && forall m :: m in N ==> m in Repr
    }

    method Visit(it: Iter, ghost N: seq<Node>, ghost K: seq<bool>, ghost choose: seq<bool>, ghost k: nat)
        returns (obj: Ptr)
      requires Midway(it, N, K, choose, k)
      modifies it
      ensures obj == 0 <==> k == |N|
      ensures k == |N| ==> Swept(N, K, k)
      ensures k < |N| ==> obj == N[k].obj && OnNode(it, N, K, choose, k)
    {
      hide Kept, Valid;
      obj := NextOf(it, N, K, k);
    }

    method TakeOut(it: Iter, ghost N: seq<Node>, ghost K: seq<bool>, ghost choose: seq<bool>, ghost k: nat)
      requires OnNode(it, N, K, choose, k) && choose[k]
      modifies this, Repr, it
      ensures Midway(it, N, K, choose, k + 1) && Repr == old(Repr)
      ensures garbage == old(garbage) + if K[k] then [] else [N[k]]
    {
      hide Kept, Valid;
      Decide(it, N, K, k);
    }

    // A node that is not chosen stays where it is.
    lemma PassBy(it: Iter, N: seq<Node>, K: seq<bool>, choose: seq<bool>, k: nat)
      requires OnNode(it, N, K, choose, k) && !choose[k]
      ensures Midway(it, N, K, choose, k + 1) && K[k]
    {
      hide Kept, Valid;
      NextKept(N, K, k);
      SpliceKept(Kept(N[..k], K[..k]), N, k);
    }

    // A traversal that calls ll_iter_remove on any nodes it chooses, the k-th visited one if
    // choose[k]: it visits every node of the original list exactly once, in order, and leaves
    // exactly the others.
    method Sweep(choose: seq<bool>) returns (visited: seq<Ptr>)
      requires Valid() && |choose| == |nodes|
      modifies this, Repr
      ensures Valid() && Repr == old(Repr) && visited == old(Objs())
      ensures nodes == Kept(old(nodes), old(Marks(nodes, choose)))
      ensures garbage == old(garbage) + Dropped(old(nodes), old(Marks(nodes, choose)))
    {
      hide Midway, OnNode, Kept, Dropped, Valid, Swept, Stands, Marks;
      ghost var N, K := nodes, Marks(nodes, choose);
      var it := new Iter();
      visited := [];
      StartMidway(it, N, K, choose);
      while true
        invariant |visited| <= |N| == |K|
        invariant fresh(it) && Midway(it, N, K, choose, |visited|) && Repr == old(Repr)
        invariant forall i :: 0 <= i < |visited| ==> visited[i] == N[i].obj
        invariant garbage == old(garbage) + Dropped(N[..|visited|], K[..|visited|])
        decreases |N| - |visited|
      {
        ghost var k := |visited|;
        var obj := Visit(it, N, K, choose, k);
        if obj == 0 {
          break;
        }
        if choose[|visited|] {
          TakeOut(it, N, K, choose, k);
        } else {
          PassBy(it, N, K, choose, k);
        }
        visited := visited + [obj];
        NextKept(N, K, k);
      }
      AllSwept(N, K);
    }

    // ll_remove: every unflagged node that holds the object goes, in one traversal. The count
    // returned is that of the nodes holding it, flagged ones included.
    method RemoveObj(obj: Ptr) returns (n: nat)
      requires Valid()
      modifies this, Repr
      ensures Valid() && Repr == old(Repr)
      ensures nodes == Kept(old(nodes), old(Marks(nodes, Matching(nodes, {obj}))))
      ensures n == Trues(old(Matching(nodes, {obj})))
    {
      hide Midway, OnNode, Kept, Valid, Swept, Stands, Marks;
      ghost var N, choose := nodes, Matching(nodes, {obj});
      ghost var K, k := Marks(N, choose), 0;
      var it := new Iter();
      n := 0;
      StartMidway(it, N, K, choose);
      assert choose[..0] == [];
      while true
        invariant k <= |N| == |K| == |choose| && n == Trues(choose[..k])
        invariant fresh(it) && Midway(it, N, K, choose, k) && Repr == old(Repr)
        decreases |N| - k
      {
        var data := Visit(it, N, K, choose, k);
        if data == 0 {
          break;
        }
        assert choose[..k + 1][..k] == choose[..k];
        if data == obj {
          TakeOut(it, N, K, choose, k);
          n := n + 1;
        } else {
          PassBy(it, N, K, choose, k);
        }
        k := k + 1;
      }
      AllSwept(N, K);
      assert choose[..k] == choose;
    }

    // The inner loop of ll_remove_all.
    method Holds(it: Iter, obj: Ptr) returns (found: bool)
      requires Valid()
      modifies it
      ensures found <==> obj in Elements(nodes)
    {
      hide Valid, Spans;
      ObjsElements(nodes);
      Reset(it);
      ghost var p := Fresh;
      found := false;
      while true
        invariant Stands(it, p)
        invariant p.Ended? ==> obj !in Objs()
        invariant p.At? ==> obj !in Objs()[..p.i + 1]
        decreases match p case Fresh => |nodes| + 1 case At(i) => |nodes| - i case Ended => 0
      {
        var data;
        Links();
        data, p := Proceed(it, p);
        if data == 0 {
          assert obj in Objs() ==> false;
          break;
        }
        if data == obj {
          assert Objs()[p.i] == obj;
          return true;
        }
        assert p.i > 0 ==> Objs()[..p.i + 1] == Objs()[..p.i] + [data];
      }
    }

    // ll_remove_all: an order-preserving difference, except that flagged nodes stay.
    method RemoveAll(other: LList) returns (count: nat)
      requires Valid() && other.Valid() && other != this && Repr !! other.Repr
      modifies this, Repr
      ensures Valid() && Repr == old(Repr)
      ensures nodes == Kept(old(nodes), old(Marks(nodes, Matching(nodes, Elements(other.nodes)))))
      ensures count == Trues(old(Matching(nodes, Elements(other.nodes))))
    {
      hide Midway, OnNode, Kept, Valid, Swept, Stands, Marks;
      ghost var N, choose := nodes, Matching(nodes, Elements(other.nodes));
      ghost var K, k := Marks(N, choose), 0;
      var it1 := new Iter();
      var it2 := new Iter();
      count := 0;
      StartMidway(it1, N, K, choose);
      assert choose[..0] == [];
      while true
        invariant k <= |N| == |K| == |choose| && count == Trues(choose[..k])
        invariant fresh(it1) && fresh(it2) && it1 != it2 && Midway(it1, N, K, choose, k) && Repr == old(Repr)
        invariant other.Valid()
        decreases |N| - k
      {
        var data1 := Visit(it1, N, K, choose, k);
        if data1 == 0 {
          break;
        }
        assert choose[..k + 1][..k] == choose[..k];
        var found := other.Holds(it2, data1);
        if found {
          TakeOut(it1, N, K, choose, k);
          count := count + 1;
        } else {
          PassBy(it1, N, K, choose, k);
        }
        k := k + 1;
      }
      AllSwept(N, K);
      assert choose[..k] == choose;
    }
  }

  ghost function ObjsOf(nodes: seq<Node>): (s: seq<Ptr>)
    ensures |s| == |nodes|
  {
    seq(|nodes|, i requires 0 <= i < |nodes| => nodes[i].obj)
  }

  ghost function Elements(nodes: seq<Node>): set<Ptr> { set n | n in nodes :: n.obj }

  lemma ObjsElements(nodes: seq<Node>)
    ensures forall o :: o in ObjsOf(nodes) <==> o in Elements(nodes)
  {
    forall o | o in Elements(nodes)
      ensures o in ObjsOf(nodes)
    {
      var i :| 0 <= i < |nodes| && nodes[i].obj == o;
      assert ObjsOf(nodes)[i] == o;
    }
  }

  // Which nodes hold an object of the set, and how many there are.
  ghost function Matching(nodes: seq<Node>, objs: set<Ptr>): (m: seq<bool>)
    ensures |m| == |nodes|
  {
    seq(|nodes|, i requires 0 <= i < |nodes| => nodes[i].obj in objs)
  }

  function Trues(m: seq<bool>): nat
    decreases |m|
  {
    if m == [] then 0 else Trues(m[..|m| - 1]) + if m[|m| - 1] then 1 else 0
  }

  // Which nodes a traversal leaves in the list: those not chosen, and those flagged before.
  ghost function Marks(nodes: seq<Node>, choose: seq<bool>): (k: seq<bool>)
    requires |choose| == |nodes|
    reads nodes
    ensures |k| == |nodes|
  {
    seq(|nodes|, i requires 0 <= i < |nodes| reads nodes => !(choose[i] && nodes[i].flag == 0))
  }

  ghost predicate Agree(N: seq<Node>, K: seq<bool>, choose: seq<bool>, k: nat)
    reads N
  {
    |K| == |N| == |choose| && Distinct(N) && forall i :: k <= i < |N| ==> K[i] == !(choose[i] && N[i].flag == 0)
  }

  ghost function Unflagged(nodes: seq<Node>): (s: seq<Node>)
    reads nodes
    decreases |nodes|
  {
    if nodes == [] then []
    else
      var n := nodes[|nodes| - 1];
      Unflagged(nodes[..|nodes| - 1]) + if n.flag == 0 then [n] else []
  }

  // flag++ on an unsigned char
  function Bump(flag: nat): (r: nat) { (flag + 1) % 256 }

  // ---------------------------------------------------------------- two ways to get it wrong

  // Removing the node an iterator stands on after another one was put in front: the one in front
  // is lost, and `count` still counts it.
  method RemoveAfterPrepend(a: Ptr, b: Ptr) returns (l: LList)
    requires a != 0 && b != 0
    ensures l.initial == null && l.count == 1 && !Right(l.Fields())
  {
    hide Spans, Right, LList.Valid;
    l := new LList();
    var it := new Iter();
    var n := l.Append(a);
    ghost var q;
    var o;
    l.Links();
    o, q := l.Next(it, Fresh);
    assert it.cur == n && it.prv == null;
    n := l.Prepend(b);
    l.Links();
    ghost var f := l.Fields();
    assert l.nodes[1] == it.cur && it.cur.nxt == null;
    o, q := l.Remove(it, Fresh);
    assert l.Fields() == Cut(f, l.garbage[0], null);
  }

  // Two iterators on the same node: the second removal is harmless, but what the second iterator
  // removes after that was handed to add_garbage and is still linked.
  method RemoveWithTwoIterators(a: Ptr, b: Ptr, c: Ptr) returns (l: LList)
    requires a != 0 && b != 0 && c != 0
    ensures |l.garbage| == 2 && l.garbage[0].obj == b && l.garbage[1].obj == c
    ensures l.count == 1 && l.initial != null && l.initial.nxt == l.garbage[1] && !Right(l.Fields())
  {
    hide Spans, Right, LList.Valid, LList.Ledger, LList.Closed, LList.Fields;
    ghost var x, y, z;
    l, x, y, z := ThreeNodes(a, b, c);
    var one := new Iter();
    var two := new Iter();
    GoToSecond(l, one);
    GoToSecond(l, two);
    RemoveSecond(l, one, x, y, z);
    TwiceAndOn(l, two, x, y, z);
  }

  method ThreeNodes(a: Ptr, b: Ptr, c: Ptr) returns (l: LList, ghost x: Node, ghost y: Node, ghost z: Node)
    requires a != 0 && b != 0 && c != 0
    ensures fresh(l) && fresh(l.Repr) && l.Valid() && l.nodes == [x, y, z] && l.garbage == []
    ensures y.obj == b && z.obj == c && y.flag == 0 && z.flag == 0
  {
    hide Spans, Right, LList.Valid;
    l := new LList();
    var n := l.Append(a);
    x := n;
    n := l.Append(b);
    y := n;
    n := l.Append(c);
    z := n;
  }

  // What the first iterator does
  method RemoveSecond(l: LList, one: Iter, ghost x: Node, ghost y: Node, ghost z: Node)
    requires l.Valid() && l.nodes == [x, y, z] && l.garbage == [] && l.Stands(one, At(1)) && y.flag == 0 && z.flag == 0
    modifies l, l.Repr, one
    ensures l.Repr == old(l.Repr) && l.Valid() && l.nodes == [x, z] && l.garbage == [y] && y in l.Repr && x in l.Repr
    ensures x != y && y.flag == 1 && y.nxt == z && z.flag == 0
  {
    hide Spans, Right, LList.Valid, LList.Ledger, LList.Closed;
    ghost var f := l.Fields();
    l.Links();
    l.StandsKnown(one, At(1));
    assert l.nodes[1].nxt == l.nodes[2] && l.nodes[0] != l.nodes[1];
    var o;
    ghost var q;
    o, q := l.Remove(one, At(1));
    assert l.Fields() == Cut(f, y, x);
    assert l.Fields().nxt[y] == z;
  }

  // The second iterator's calls, after the first one removed y between x and z
  method TwiceAndOn(l: LList, two: Iter, ghost x: Node, ghost y: Node, ghost z: Node)
    requires l.Valid() && l.nodes == [x, z] && l.garbage == [y] && y in l.Repr && x in l.Repr && x != y
    requires two.cur == y && two.prv == x && y.flag == 1 && y.nxt == z && z.flag == 0
    modifies l, l.Repr, two
    ensures l.garbage == [y, z] && l.count == 1 && l.initial == x && x.nxt == z && !Right(l.Fields())
  {
    hide Spans, Right, LList.Valid, LList.Ledger, LList.Closed;
    var o;
    ghost var q;
    l.Links();
    o, q := l.Remove(two, Fresh);
    l.Links();
    o, q := l.Next(two, Fresh);
    ghost var f := l.Fields();
    assert two.cur == z == l.nodes[1] && two.prv == y && f.nxt[x] == z && f.initial == x;
    o, q := l.Remove(two, Fresh);
    assert l.Fields() == Cut(f, z, y);
    assert l.Fields().nxt[x] == z;
  }

  method GoToSecond(l: LList, it: Iter)
    requires l.Valid() && |l.nodes| >= 2 && it.cur == null && it.prv == null
    modifies it
    ensures l.Stands(it, At(1))
  {
    hide Spans, LList.Valid;
    var o;
    ghost var q;
    l.Links();
    o, q := l.Next(it, Fresh);
    l.StandsKnown(it, q);
    o, q := l.Next(it, q);
  }

  // ---------------------------------------------------------------- what the removals mean

  // After ll_remove and ll_remove_all no unwanted object is left if and only if no node that
  // holds one was flagged before, as ll_iter_move_first leaves the nodes it moves.
  lemma RemovesAllIffUnflagged(nodes: seq<Node>, objs: set<Ptr>)
    ensures (forall m :: m in Kept(nodes, Marks(nodes, Matching(nodes, objs))) ==> m.obj !in objs)
            <==> (forall m :: m in nodes && m.obj in objs ==> m.flag == 0)
  {
    hide Kept;
    var K := Marks(nodes, Matching(nodes, objs));
    forall m | m in nodes && m.obj in objs
      ensures m in Kept(nodes, K) <==> m.flag != 0
    {
      KeptMembers(nodes, K, m);
      var i :| 0 <= i < |nodes| && nodes[i] == m;
      assert K[i] == (m.flag != 0);
    }
    forall m | m in Kept(nodes, K)
      ensures m in nodes
    {
      KeptMembers(nodes, K, m);
    }
  }
}
