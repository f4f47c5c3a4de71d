// Building the list of cards a CCcam server shares: add_card_to_serverlist removes duplicates or
// merges cards, depending on cfg.cc_minimize_cards (module-cccshare.c).
module ServerList {
  import opened ShareList

  const CS_MAXPROV: nat := 32

  // MINIMIZE_CAID, MINIMIZE_HOPS and everything else ("like cccam"); with
  // cc_forward_origin_card set, it is always the last.
  datatype Mode = Caid | Hops | Plain

  // ---------------------------------------------------------------- comparing providers

  function NumSame(a: seq<nat>, b: seq<nat>): (n: nat)
    ensures n <= |a|
    decreases |a|
  {
    if a == [] then 0 else NumSame(a[..|a| - 1], b) + if a[|a| - 1] in b then 1 else 0
  }

  predicate EqualProviders(a: seq<nat>, b: seq<nat>) {
    |a| == |b| && forall i :: 0 <= i < |a| ==> a[i] in b
  }

  // dst with the elements of src it lacks appended in order
  function Merge<T(==)>(dst: seq<T>, src: seq<T>): (r: seq<T>)
    decreases |src|
  {
    if src == [] then dst
    else
      var r := Merge(dst, src[..|src| - 1]);
      var x := src[|src| - 1];
      if x in r then r else r + [x]
  }

  predicate Matches(mode: Mode, c: Body, d: Body) {
    match mode
    case Caid => SameCard2(c, d) && |c.providers| - NumSame(c.providers, d.providers) + |d.providers| <= CS_MAXPROV
    case Hops => SameCard2(c, d) && EqualProviders(c.providers, d.providers)
    case Plain => SameCard(c, d)
  }

  function FindMatch(mode: Mode, cards: seq<Body>, c: Body): (i: nat)
    ensures i <= |cards| && (i < |cards| ==> Matches(mode, c, cards[i]))
    ensures forall j :: 0 <= j < i ==> !Matches(mode, c, cards[j])
    decreases |cards|
  {
    if cards == [] || Matches(mode, c, cards[0]) then 0
    else
      var i := FindMatch(mode, cards[1..], c);
      assert forall j :: 0 < j < i + 1 ==> cards[j] == cards[1..][j - 1];
      i + 1
  }

  // create_card followed by add_card_providers with the remote nodes
  function Copy(c: Body): Body {
    c.(providers := Merge([], c.providers), remoteNodes := Merge([], c.remoteNodes))
  }

  // The list after the call, and whether a card was added. A card that replaces one with more
  // hops takes its place, except that the first card's replacement goes to the end.
  function Add(mode: Mode, cards: seq<Body>, c: Body, own: bool): (seq<Body>, bool) {
    var i := FindMatch(mode, cards, c);
    var new' := if own then c else Copy(c);
    if mode.Caid? then
      if i == |cards| then (cards + [if own then c else new'.(hop := 0)], true)
      else (cards[i := cards[i].(providers := Merge(cards[i].providers, c.providers), remoteNodes := [])], false)
    else if i == |cards| then (cards + [new'], true)
    else if cards[i].hop > c.hop then (if i == 0 then cards[1..] + [new'] else cards[i := new'], true)
    else if mode.Hops? then (cards[i := cards[i].(providers := Merge(cards[i].providers, c.providers))], false)
    else (cards, false)
  }

  // A card offered, and whether the call may keep it (free_card).
  datatype Offer = Offer(card: Body, own: bool)

  function AddAll(mode: Mode, offers: seq<Offer>): seq<Body>
    decreases |offers|
  {
    if offers == [] then []
    else
      var o := offers[|offers| - 1];
      Add(mode, AddAll(mode, offers[..|offers| - 1]), o.card, o.own).0
  }

  // ---------------------------------------------------------------- the calls, in place

  // num_same_providers
  method NumSameProviders(a: seq<nat>, b: seq<nat>) returns (found: nat)
    ensures found == NumSame(a, b)
  {
    found := 0;
    assert a[..0] == [];
    for i := 0 to |a|
      invariant found == NumSame(a[..i], b)
    {
      assert a[..i + 1][..i] == a[..i];
      var j := 0;
      while j < |b| && a[i] != b[j]
        invariant j <= |b| && a[i] !in b[..j]
      {
        j := j + 1;
      }
      if j < |b| {
        found := found + 1;
      }
    }
    assert a[..|a|] == a;
  }

  // equal_providers
  method SameProviders(a: seq<nat>, b: seq<nat>) returns (equal: bool)
    ensures equal <==> EqualProviders(a, b)
  {
    if |a| != |b| {
      return false;
    }
    for i := 0 to |a|
      invariant forall k :: 0 <= k < i ==> a[k] in b
    {
      var j := 0;
      while j < |b| && a[i] != b[j]
        invariant j <= |b| && a[i] !in b[..j]
      {
        j := j + 1;
      }
      if j == |b| {
        assert a[i] !in b;
        return false;
      }
    }
    return true;
  }

  // Either loop of add_card_providers
  method MergeLists<T(==)>(dst: seq<T>, src: seq<T>) returns (r: seq<T>, modified: bool)
    ensures r == Merge(dst, src) && (modified <==> |r| > |dst|)
  {
    r, modified := dst, false;
    assert src[..0] == [];
    for i := 0 to |src|
      invariant r == Merge(dst, src[..i]) && |r| >= |dst| && (modified <==> |r| > |dst|)
    {
      assert src[..i + 1][..i] == src[..i];
      var j := 0;
      while j < |r| && r[j] != src[i]
        invariant j <= |r| && src[i] !in r[..j]
      {
        j := j + 1;
      }
      if j == |r| {
        assert src[i] !in r;
        r, modified := r + [src[i]], true;
      }
    }
    assert src[..|src|] == src;
  }

  // The list update_card_list builds up.
  class ServerCards {
    var cards: seq<Body>

    constructor ()
      ensures cards == []
    {
      cards := [];
    }

    method Same(mode: Mode, c: Body, d: Body) returns (same: bool)
      ensures same <==> Matches(mode, c, d)
    {
      match mode {
        case Caid =>
          var nsame := NumSameProviders(c.providers, d.providers);
          var ndiff := |c.providers| - nsame;
          var nnew := ndiff + |d.providers|;
          same := SameCard2(c, d) && nnew <= CS_MAXPROV;
        case Hops =>
          var equal := SameProviders(c.providers, d.providers);
          same := SameCard2(c, d) && equal;
        case Plain =>
          same := SameCard(c, d);
      }
    }

    method Search(mode: Mode, c: Body) returns (i: nat)
      ensures i == FindMatch(mode, cards, c)
    {
      hide Matches;
      i := 0;
      while i < |cards|
        invariant i <= |cards| && forall j :: 0 <= j < i ==> !Matches(mode, c, cards[j])
      {
        var same := Same(mode, c, cards[i]);
        if same {
          return;
        }
        i := i + 1;
      }
    }

    method MakeCopy(c: Body) returns (d: Body)
      ensures d == Copy(c)
    {
      var p, m1 := MergeLists([], c.providers);
      var n, m2 := MergeLists([], c.remoteNodes);
      d := c.(providers := p, remoteNodes := n);
    }

    // add_card_to_serverlist
    method AddCard(mode: Mode, c: Body, own: bool) returns (modified: bool)
      modifies this
      ensures (cards, modified) == Add(mode, old(cards), c, own)
    {
      hide FindMatch, Merge;
      var i := Search(mode, c);
      var found := i < |cards|;
      ghost var was := cards;
      if mode.Caid? {
        if !found {
          var card2 := c;
          if !own {
            card2 := MakeCopy(c);
            card2 := card2.(hop := 0);
          }
          cards := cards + [card2];
          return true;
        }
        var p, m := MergeLists(cards[i].providers, c.providers);
        cards := cards[i := cards[i].(providers := p, remoteNodes := [])];
        return false;
      }
      var at := |cards|;   // where the list iterator inserts
      if found && cards[i].hop > c.hop {
        // ll_iter_remove leaves the iterator on the card before, or in front of the list
        cards := cards[..i] + cards[i + 1..];
        at := if i == 0 then |cards| else i;
        found := false;
      }
      if !found {
        var card2 := c;
        if !own {
          card2 := MakeCopy(c);
        }
        cards := cards[..at] + [card2] + cards[at..];
        assert i == |was| ==> cards == was + [card2];
        assert i < |was| && i == 0 ==> cards == was[1..] + [card2];
        assert 0 < i < |was| ==> cards == was[i := card2];
        return true;
      }
      if mode.Hops? {
        var p, m := MergeLists(cards[i].providers, c.providers);
        cards := cards[i := cards[i].(providers := p)];
      }
      return false;
    }
  }

  // ---------------------------------------------------------------- merging lists

  predicate NoDup<T(==)>(s: seq<T>) { forall i, j :: 0 <= i < j < |s| ==> s[i] != s[j] }

  lemma {:induction false} MergeMembers<T>(dst: seq<T>, src: seq<T>)
    ensures forall x :: x in Merge(dst, src) <==> x in dst || x in src
    ensures NoDup(dst) ==> NoDup(Merge(dst, src))
    ensures dst <= Merge(dst, src)
    decreases |src|
  {
    if src != [] {
      var init := src[..|src| - 1];
      assert src == init + [src[|src| - 1]];
      MergeMembers(dst, init);
    }
  }

  lemma {:induction false} MergeSubset<T>(dst: seq<T>, src: seq<T>)
    requires forall x :: x in src ==> x in dst
    ensures Merge(dst, src) == dst
    decreases |src|
  {
    if src != [] {
      MergeSubset(dst, src[..|src| - 1]);
    }
  }

  lemma {:induction false} MergeFresh<T>(src: seq<T>)
    requires NoDup(src)
    ensures Merge([], src) == src
    decreases |src|
  {
    if src != [] {
      var init := src[..|src| - 1];
      MergeFresh(init);
      assert src == init + [src[|src| - 1]];
    }
  }

  lemma {:induction false} MergeFirst<T>(src: seq<T>)
    requires src != []
    ensures Merge([], src) != [] && Merge([], src)[0] == src[0]
    decreases |src|
  {
    var init := src[..|src| - 1];
    assert src == init + [src[|src| - 1]];
    if init != [] {
      MergeFirst(init);
    } else {
      assert Merge<T>([], []) == [];
    }
  }

  // add_card_to_serverlist counts the providers a merged card would have before it merges.
  lemma {:induction false} MergeLength(dst: seq<nat>, src: seq<nat>)
    ensures |Merge(dst, src)| <= |dst| + |src| - NumSame(src, dst)
    ensures NoDup(src) ==> |Merge(dst, src)| == |dst| + |src| - NumSame(src, dst)
    decreases |src|
  {
    if src != [] {
      var init := src[..|src| - 1];
      assert src == init + [src[|src| - 1]];
      MergeLength(dst, init);
      MergeMembers(dst, init);
    }
  }

  // ---------------------------------------------------------------- one card per class

  function Elements(s: seq<nat>): set<nat> { set x | x in s }

  lemma {:induction false} ElementsCount(s: seq<nat>)
    ensures |Elements(s)| <= |s|
    ensures NoDup(s) ==> |Elements(s)| == |s|
    decreases |s|
  {
    if s != [] {
      var init, x := s[..|s| - 1], s[|s| - 1];
      assert s == init + [x];
      ElementsCount(init);
      assert Elements(s) == Elements(init) + {x};
    }
  }

  lemma SubsetOfSameSize(a: set<nat>, b: set<nat>)
    requires a <= b && |a| == |b|
    ensures a == b
  {
    assert b == a + (b - a);
    assert |b| == |a| + |b - a|;
  }

  // What a list of duplicate-free cards is keyed by.
  datatype Key = Share(shared: Class) | Group(caid: nat, cardType: nat, sidtab: nat, grp: nat, providers: set<nat>)

  function KeyOf(mode: Mode, b: Body): Key {
    match mode
    case Plain => Share(ClassOf(b))
    case Hops => Group(b.caid, b.cardType, b.sidtab, b.grp, Elements(b.providers))
    case Caid => Group(b.caid, b.cardType, b.sidtab, b.grp, {})
  }

  lemma EqualProvidersIff(a: seq<nat>, b: seq<nat>)
    requires NoDup(a) && NoDup(b)
    ensures EqualProviders(a, b) <==> Elements(a) == Elements(b)
  {
    ElementsCount(a);
    ElementsCount(b);
    if EqualProviders(a, b) {
      SubsetOfSameSize(Elements(a), Elements(b));
    }
    assert forall i :: 0 <= i < |a| ==> a[i] in Elements(a);
  }

  // Where providers are compared, they must not repeat: the comparison looks in one direction.
  ghost predicate Fair(mode: Mode, b: Body) { mode == Hops ==> NoDup(b.providers) }

  lemma MatchesIffKey(mode: Mode, c: Body, d: Body)
    requires mode != Caid && Fair(mode, c) && Fair(mode, d)
    ensures Matches(mode, c, d) <==> KeyOf(mode, c) == KeyOf(mode, d)
  {
    if mode == Plain {
      SameCardIffClass(c, d);
    } else {
      EqualProvidersIff(c.providers, d.providers);
    }
  }

  // What ends up in the list for an offer that is put there.
  function Entered(o: Offer): Body { if o.own then o.card else Copy(o.card) }

  lemma EnteredKeeps(mode: Mode, o: Offer)
    requires Fair(mode, o.card)
    ensures Fair(mode, Entered(o)) && Entered(o).hop == o.card.hop
    ensures KeyOf(mode, Entered(o)) == KeyOf(mode, o.card)
  {
    if mode == Hops {
      MergeFresh(o.card.providers);
    }
    if o.card.remoteNodes != [] {
      MergeFirst(o.card.remoteNodes);
      assert Entered(o).remoteNodes[..1] == o.card.remoteNodes[..1];
    }
  }

  ghost predicate OnePerKey(mode: Mode, cards: seq<Body>) {
    && (forall i :: 0 <= i < |cards| ==> Fair(mode, cards[i]))
    && (forall i, j :: 0 <= i < j < |cards| ==> KeyOf(mode, cards[i]) != KeyOf(mode, cards[j]))
  }

  // The list after a call, by the offer's key only.
  lemma AddByKey(mode: Mode, cards: seq<Body>, o: Offer) returns (i: nat)
    requires mode != Caid && Fair(mode, o.card) && OnePerKey(mode, cards)
    ensures i <= |cards| && forall j :: 0 <= j < |cards| && j != i ==> KeyOf(mode, cards[j]) != KeyOf(mode, o.card)
    ensures i < |cards| ==> KeyOf(mode, cards[i]) == KeyOf(mode, o.card)
    ensures Add(mode, cards, o.card, o.own).0 ==
      if i == |cards| then cards + [Entered(o)]
      else if cards[i].hop <= o.card.hop then cards
      else if i == 0 then cards[1..] + [Entered(o)] else cards[i := Entered(o)]
    ensures Add(mode, cards, o.card, o.own).1 <==> i == |cards| || cards[i].hop > o.card.hop
  {
    hide KeyOf, Copy, FindMatch, SameCard2;
    var c := o.card;
    i := FindMatch(mode, cards, c);
    forall j | 0 <= j < |cards|
      ensures Matches(mode, c, cards[j]) <==> KeyOf(mode, c) == KeyOf(mode, cards[j])
    {
      MatchesIffKey(mode, c, cards[j]);
    }
    if i < |cards| && mode == Hops {
      MergeSubset(cards[i].providers, c.providers) by {
        assert EqualProviders(c.providers, cards[i].providers);
      }
      assert cards[i := cards[i]] == cards;
    }
  }

  lemma OneOut(mode: Mode, cards: seq<Body>, i: nat, e: Body)
    requires OnePerKey(mode, cards) && i <= |cards|
    requires Fair(mode, e)
    requires forall j :: 0 <= j < |cards| && j != i ==> KeyOf(mode, cards[j]) != KeyOf(mode, e)
    ensures i < |cards| ==> OnePerKey(mode, cards[i := e])
    ensures OnePerKey(mode, if i == 0 < |cards| then cards[1..] + [e] else if i < |cards| then cards else cards + [e])
  {
    hide KeyOf, Fair;
  }

  // What a card replaced by another means for the members of the list
  lemma Replaced(cards: seq<Body>, i: nat, e: Body, rest: seq<Body>, r: seq<Body>)
    requires i < |cards| && rest == cards[..i] + cards[i + 1..]
    requires multiset(r) == multiset(rest + [e])
    ensures forall x :: x in cards <==> x in rest || x == cards[i]
    ensures forall x :: x in r <==> x in rest || x == e
    ensures forall x :: x in rest ==> exists j :: 0 <= j < |cards| && j != i && cards[j] == x
  {
    assert cards == cards[..i] + [cards[i]] + cards[i + 1..];
    forall x ensures x in r <==> x in rest || x == e {
      assert x in r <==> x in multiset(r);
      assert x in rest + [e] <==> x in multiset(rest + [e]);
    }
    forall x | x in rest ensures exists j :: 0 <= j < |cards| && j != i && cards[j] == x {
      var n :| 0 <= n < |rest| && rest[n] == x;
      assert cards[if n < i then n else n + 1] == x;
    }
  }

  lemma SameMembers(cards: seq<Body>, i: nat, e: Body)
    requires i < |cards|
    ensures multiset(cards[i := e]) == multiset(cards[..i] + cards[i + 1..] + [e])
    ensures multiset(cards[..i] + cards[i + 1..] + [e]) == multiset(cards[..i] + cards[i + 1..]) + multiset{e}
  {
    assert cards[i := e] == cards[..i] + [e] + cards[i + 1..];
  }

  // The result of a call says whether the list changed; where providers are merged, whether it
  // grew.
  lemma ModifiedIff(mode: Mode, cards: seq<Body>, o: Offer)
    requires mode != Caid ==> Fair(mode, o.card) && OnePerKey(mode, cards)
    ensures mode != Caid ==> (Add(mode, cards, o.card, o.own).1 <==> Add(mode, cards, o.card, o.own).0 != cards)
    ensures mode == Caid ==> (Add(mode, cards, o.card, o.own).1 <==> |Add(mode, cards, o.card, o.own).0| > |cards|)
  {
    hide KeyOf, Copy, Merge, FindMatch, Matches, Fair, OnePerKey;
    if mode != Caid {
      var i := AddByKey(mode, cards, o);
      EnteredKeeps(mode, o);
      if i < |cards| && cards[i].hop > o.card.hop {
        ReplacedDiffers(cards, i, Entered(o));
      } else {
        assert i == |cards| ==> |cards + [Entered(o)]| > |cards|;
      }
    }
  }

  lemma ReplacedDiffers(cards: seq<Body>, i: nat, e: Body)
    requires i < |cards| && cards[i].hop > e.hop
    ensures cards[i := e] != cards && (|cards| == 1 ==> cards[1..] + [e] != cards)
  {
    assert cards[i := e][i] == e;
    assert (cards[1..] + [e])[|cards| - 1] == e;
  }

  // One call: of the cards with the offer's key, exactly one with the smaller hop is left; on a
  // tie the one listed first stays.
  lemma AddStep(mode: Mode, cards: seq<Body>, o: Offer)
    requires mode != Caid && Fair(mode, o.card) && OnePerKey(mode, cards)
    ensures OnePerKey(mode, Add(mode, cards, o.card, o.own).0)
    ensures forall x :: x in Add(mode, cards, o.card, o.own).0 <==>
      if x in cards then KeyOf(mode, x) != KeyOf(mode, o.card) || x.hop <= o.card.hop
      else x == Entered(o) && forall y :: y in cards && KeyOf(mode, y) == KeyOf(mode, o.card) ==> y.hop > o.card.hop
  {
    hide KeyOf, Copy, Entered, Add, Fair, OnePerKey;
    var i := AddByKey(mode, cards, o);
    EnteredKeeps(mode, o);
    var e := Entered(o);
    OneOut(mode, cards, i, e);
    if i < |cards| {
      var rest := cards[..i] + cards[i + 1..];
      SameMembers(cards, i, e);
      assert i == 0 ==> rest == cards[1..];
      Replaced(cards, i, e, rest, if i == 0 then cards[1..] + [e] else cards[i := e]);
      assert forall x :: x in rest ==> KeyOf(mode, x) != KeyOf(mode, o.card);
    }
  }

  // The least hop offered with a key
  ghost predicate IsLeast(mode: Mode, offers: seq<Offer>, k: Key, hop: nat) {
    && (exists o :: o in offers && KeyOf(mode, o.card) == k && o.card.hop == hop)
    && (forall o :: o in offers && KeyOf(mode, o.card) == k ==> hop <= o.card.hop)
  }

  ghost predicate Lists(mode: Mode, cards: seq<Body>, k: Key, hop: nat) {
    exists x :: x in cards && KeyOf(mode, x) == k && x.hop == hop
  }

  ghost predicate FairOffers(mode: Mode, offers: seq<Offer>) { forall o :: o in offers ==> Fair(mode, o.card) }

  ghost predicate Covers(mode: Mode, cards: seq<Body>, o: Offer) {
    exists x :: x in cards && KeyOf(mode, x) == KeyOf(mode, o.card) && x.hop <= o.card.hop
  }

  ghost predicate ComesFrom(offers: seq<Offer>, x: Body) { exists o :: o in offers && x == Entered(o) }

  lemma CoveredStep(mode: Mode, init: seq<Offer>, o: Offer, cards: seq<Body>, r: seq<Body>)
    requires mode != Caid && Fair(mode, o.card) && OnePerKey(mode, cards)
    requires r == Add(mode, cards, o.card, o.own).0
    requires forall x :: x in cards ==> ComesFrom(init, x)
    requires forall p :: p in init ==> Covers(mode, cards, p)
    ensures OnePerKey(mode, r)
    ensures forall x :: x in r ==> ComesFrom(init + [o], x)
    ensures forall p :: p in init + [o] ==> Covers(mode, r, p)
  {
    hide KeyOf, Entered, Add, Fair, OnePerKey, ComesFrom, Covers;
    AddStep(mode, cards, o);
    EnteredKeeps(mode, o);
    forall x | x in r ensures ComesFrom(init + [o], x) {
      ComesStill(init, o, x);
    }
    forall p | p in init + [o] ensures Covers(mode, r, p) {
      StillCovered(mode, cards, o, r, p);
    }
  }

  lemma {:induction false} EveryOfferCovered(mode: Mode, offers: seq<Offer>)
    requires mode != Caid && FairOffers(mode, offers)
    ensures OnePerKey(mode, AddAll(mode, offers))
    ensures forall x :: x in AddAll(mode, offers) ==> ComesFrom(offers, x)
    ensures forall o :: o in offers ==> Covers(mode, AddAll(mode, offers), o)
    decreases |offers|
  {
    hide Add, Fair, OnePerKey, ComesFrom, Covers;
    if offers == [] {
      AddAllEmpty(mode);
    } else {
      var init, o := offers[..|offers| - 1], offers[|offers| - 1];
      assert offers == init + [o];
      EveryOfferCovered(mode, init);
      CoveredStep(mode, init, o, AddAll(mode, init), AddAll(mode, offers));
    }
  }

  lemma ComesStill(init: seq<Offer>, o: Offer, x: Body)
    requires x == Entered(o) || ComesFrom(init, x)
    ensures ComesFrom(init + [o], x)
  {
    hide Entered;
    if x == Entered(o) {
      assert o in init + [o];
    } else {
      var p :| p in init && x == Entered(p);
      assert p in init + [o];
    }
  }

  lemma AddAllEmpty(mode: Mode)
    ensures OnePerKey(mode, AddAll(mode, []))
  {
  }

  lemma StillCovered(mode: Mode, cards: seq<Body>, o: Offer, r: seq<Body>, p: Offer)
    requires KeyOf(mode, Entered(o)) == KeyOf(mode, o.card) && Entered(o).hop == o.card.hop
    requires p == o || Covers(mode, cards, p)
    requires forall x :: x in r <==>
      if x in cards then KeyOf(mode, x) != KeyOf(mode, o.card) || x.hop <= o.card.hop
      else x == Entered(o) && forall y :: y in cards && KeyOf(mode, y) == KeyOf(mode, o.card) ==> y.hop > o.card.hop
    ensures Covers(mode, r, p)
  {
    hide KeyOf, Entered;
    if forall y :: y in cards && KeyOf(mode, y) == KeyOf(mode, o.card) ==> y.hop > o.card.hop {
      assert Entered(o) in r;
    } else {
      var y :| y in cards && KeyOf(mode, y) == KeyOf(mode, o.card) && y.hop <= o.card.hop;
      assert y in r;
    }
    if p != o {
      var x :| x in cards && KeyOf(mode, x) == KeyOf(mode, p.card) && x.hop <= p.card.hop;
      assert x in r || (KeyOf(mode, x) == KeyOf(mode, o.card) && x.hop > o.card.hop);
    }
  }

  // Without provider merging the list holds exactly one card for every class offered, with the
  // least hop it was offered with, and every card in it is one that was offered.
  lemma OneCardPerClass(mode: Mode, offers: seq<Offer>)
    requires mode != Caid && FairOffers(mode, offers)
    ensures OnePerKey(mode, AddAll(mode, offers))
    ensures forall x :: x in AddAll(mode, offers) ==> ComesFrom(offers, x)
    ensures forall k, hop :: Lists(mode, AddAll(mode, offers), k, hop) <==> IsLeast(mode, offers, k, hop)
  {
    hide KeyOf, Copy, Entered, AddAll, Fair;
    EveryOfferCovered(mode, offers);
    forall o | o in offers
      ensures KeyOf(mode, Entered(o)) == KeyOf(mode, o.card) && Entered(o).hop == o.card.hop
    {
      EnteredKeeps(mode, o);
    }
    LeastIfListed(mode, offers, AddAll(mode, offers));
  }

  lemma LeastIfListed(mode: Mode, offers: seq<Offer>, r: seq<Body>)
    requires OnePerKey(mode, r)
    requires forall o :: o in offers ==> KeyOf(mode, Entered(o)) == KeyOf(mode, o.card) && Entered(o).hop == o.card.hop
    requires forall x :: x in r ==> ComesFrom(offers, x)
    requires forall o :: o in offers ==> Covers(mode, r, o)
    ensures forall k, hop :: Lists(mode, r, k, hop) <==> IsLeast(mode, offers, k, hop)
  {
    hide KeyOf, Entered, OnePerKey;
    forall k: Key, hop: nat
      ensures Lists(mode, r, k, hop) <==> IsLeast(mode, offers, k, hop)
    {
      Unique(mode, r, k);
      if Lists(mode, r, k, hop) {
        forall o | o in offers && KeyOf(mode, o.card) == k ensures hop <= o.card.hop {
          assert Covers(mode, r, o);
        }
      }
      if IsLeast(mode, offers, k, hop) {
        var o :| o in offers && KeyOf(mode, o.card) == k && o.card.hop == hop;
        assert Covers(mode, r, o);
      }
    }
  }

  lemma Unique(mode: Mode, cards: seq<Body>, k: Key)
    requires OnePerKey(mode, cards)
    ensures forall x, y :: x in cards && y in cards && KeyOf(mode, x) == k && KeyOf(mode, y) == k ==> x == y
  {
    hide KeyOf, Fair;
    forall i, j | 0 <= i < |cards| && 0 <= j < |cards| && KeyOf(mode, cards[i]) == k && KeyOf(mode, cards[j]) == k
      ensures i == j
    {
    }
  }

  // So the classes and their hops do not depend on the order of the offers, nor on repetition.
  lemma OrderIrrelevant(mode: Mode, offers: seq<Offer>, shuffled: seq<Offer>, k: Key, hop: nat)
    requires mode != Caid && FairOffers(mode, offers)
    requires forall o :: o in offers <==> o in shuffled
    ensures Lists(mode, AddAll(mode, offers), k, hop) <==> Lists(mode, AddAll(mode, shuffled), k, hop)
  {
    hide KeyOf, AddAll, Fair;
    assert FairOffers(mode, shuffled);
    OneCardPerClass(mode, offers);
    OneCardPerClass(mode, shuffled);
    assert IsLeast(mode, offers, k, hop) <==> IsLeast(mode, shuffled, k, hop);
  }

  // ---------------------------------------------------------------- merging providers

  ghost predicate Provides(cards: seq<Body>, b: Body, p: nat) {
    exists x :: x in cards && SameCard2(b, x) && p in x.providers
  }

  ghost predicate Offered(offers: seq<Offer>, b: Body, p: nat) {
    exists o :: o in offers && SameCard2(b, o.card) && p in o.card.providers
  }

  ghost predicate Present(cards: seq<Body>, b: Body) { exists x :: x in cards && SameCard2(b, x) }

  ghost predicate PresentOffer(offers: seq<Offer>, b: Body) { exists o :: o in offers && SameCard2(b, o.card) }

  ghost predicate Small(b: Body) { |b.providers| <= CS_MAXPROV }

  // A list with the card at i replaced by, or at the end extended by, one of its group
  lemma CaidChange(cards: seq<Body>, i: nat, r: seq<Body>, c: Body, e: Body)
    requires i <= |cards| && r == if i == |cards| then cards + [e] else cards[i := e]
    requires SameCard2(c, e) && (i < |cards| ==> SameCard2(c, cards[i]))
    requires forall p :: p in e.providers <==> p in c.providers || (i < |cards| && p in cards[i].providers)
    ensures forall b, p :: Provides(r, b, p) <==> Provides(cards, b, p) || (SameCard2(b, c) && p in c.providers)
    ensures forall b :: Present(r, b) <==> Present(cards, b) || SameCard2(b, c)
  {
    if i < |cards| {
      SameMembers(cards, i, e);
      Replaced(cards, i, e, cards[..i] + cards[i + 1..], r);
    }
    assert e in r;
    forall b, p ensures Provides(r, b, p) <==> Provides(cards, b, p) || (SameCard2(b, c) && p in c.providers) {
      if Provides(cards, b, p) {
        var x :| x in cards && SameCard2(b, x) && p in x.providers;
        assert x in r || p in e.providers;
      }
    }
    forall b ensures Present(r, b) <==> Present(cards, b) || SameCard2(b, c) {
      if Present(cards, b) {
        var x :| x in cards && SameCard2(b, x);
        assert x in r || SameCard2(b, e);
      }
    }
  }

  // One call in provider-merging mode: nothing but the offer's providers is added, to its group.
  lemma CaidStep(cards: seq<Body>, o: Offer)
    ensures forall b, p :: Provides(Add(Caid, cards, o.card, o.own).0, b, p) <==>
      Provides(cards, b, p) || (SameCard2(b, o.card) && p in o.card.providers)
    ensures forall b :: Present(Add(Caid, cards, o.card, o.own).0, b) <==> Present(cards, b) || SameCard2(b, o.card)
    ensures Small(o.card) && (forall x :: x in cards ==> Small(x)) ==>
      forall x :: x in Add(Caid, cards, o.card, o.own).0 ==> Small(x)
  {
    hide FindMatch, Merge, NumSame, Fair, Provides, Present;
    var c := o.card;
    var i := FindMatch(Caid, cards, c);
    var r := Add(Caid, cards, c, o.own).0;
    if i == |cards| {
      MergeMembers([], c.providers);
      MergeLength([], c.providers);
    } else {
      MergeMembers(cards[i].providers, c.providers);
      MergeLength(cards[i].providers, c.providers);
    }
    CaidChange(cards, i, r, c, r[i]);
  }

  // Merging loses no provider of any group and invents none, keeps every group that was offered,
  // and never exceeds the provider limit unless a card offered did.
  lemma {:induction false} MergingLosesNothing(offers: seq<Offer>)
    ensures forall b, p :: Provides(AddAll(Caid, offers), b, p) <==> Offered(offers, b, p)
    ensures forall b :: Present(AddAll(Caid, offers), b) <==>
      PresentOffer(offers, b)
    ensures (forall o :: o in offers ==> Small(o.card)) ==> forall x :: x in AddAll(Caid, offers) ==> Small(x)
    decreases |offers|
  {
    hide Add, Small, SameCard2;
    if offers != [] {
      var init, o := offers[..|offers| - 1], offers[|offers| - 1];
      assert offers == init + [o];
      MergingLosesNothing(init);
      CaidStep(AddAll(Caid, init), o);
      assert forall x :: x in offers <==> x in init || x == o;
    }
  }

  // ---------------------------------------------------------------- how many cards a group gets

  // Cards alike in what a group shares
  predicate Kin(x: Body, b: Body) {
    x.caid == b.caid && x.cardType == b.cardType && x.sidtab == b.sidtab && x.grp == b.grp
  }

  // The cards of the group of b
  function InGroup(cards: seq<Body>, b: Body): nat
    decreases |cards|
  {
    if cards == [] then 0
    else
      var x := cards[|cards| - 1];
      InGroup(cards[..|cards| - 1], b) + if Kin(x, b) then 1 else 0
  }

  // All providers offered for the group of b
  function OfferedProviders(offers: seq<Offer>, b: Body): set<nat>
    decreases |offers|
  {
    if offers == [] then {}
    else
      var c := offers[|offers| - 1].card;
      OfferedProviders(offers[..|offers| - 1], b) + if Kin(c, b) then Elements(c.providers) else {}
  }

  lemma UnionCount(a: seq<nat>, b: seq<nat>)
    requires NoDup(a) && NoDup(b)
    ensures |Elements(a) + Elements(b)| == |b| + |a| - NumSame(a, b)
  {
    MergeLength(b, a);
    MergeMembers(b, a);
    ElementsCount(Merge(b, a));
    assert Elements(Merge(b, a)) == Elements(a) + Elements(b);
  }

  // In the mode that merges providers a card matches one of its group if and only if they have
  // 32 providers at most between them.
  lemma CaidMatchIff(c: Body, d: Body)
    requires NoDup(c.providers) && NoDup(d.providers)
    ensures Matches(Caid, c, d) <==>
      Kin(c, d) && |Elements(c.providers) + Elements(d.providers)| <= 32
  {
    UnionCount(c.providers, d.providers);
  }

  ghost predicate AllNoDup(cards: seq<Body>) { forall i :: 0 <= i < |cards| ==> NoDup(cards[i].providers) }

  lemma {:induction false} CaidNoDup(offers: seq<Offer>)
    requires forall o :: o in offers ==> NoDup(o.card.providers)
    ensures AllNoDup(AddAll(Caid, offers))
    decreases |offers|
  {
    hide NoDup, Merge, FindMatch;
    if offers != [] {
      var n := |offers| - 1;
      CaidNoDup(offers[..n]);
      var cards, c := AddAll(Caid, offers[..n]), offers[n].card;
      assert offers[n] in offers;
      NothingTwice();
      MergeMembers([], c.providers);
      var i := FindMatch(Caid, cards, c);
      if i < |cards| {
        MergeMembers(cards[i].providers, c.providers);
      }
    }
  }

  lemma NothingTwice()
    ensures NoDup<nat>([])
  {
  }

  lemma {:induction false} InGroupUpdate(cards: seq<Body>, i: nat, x: Body, b: Body)
    requires i < |cards| && SameCard2(cards[i], x)
    ensures InGroup(cards[i := x], b) == InGroup(cards, b)
    decreases |cards|
  {
    var n := |cards| - 1;
    if i < n {
      assert cards[i := x][..n] == cards[..n][i := x];
      InGroupUpdate(cards[..n], i, x, b);
    } else {
      assert cards[i := x][..n] == cards[..n];
    }
  }

  // The offer's own group gets a card more if and only if none of its cards has room: together
  // with the offer each would have more than 32 providers. All other groups stay as they are.
  lemma AnotherCardIff(offers: seq<Offer>, o: Offer, b: Body)
    requires NoDup(o.card.providers) && forall p :: p in offers ==> NoDup(p.card.providers)
    ensures InGroup(AddAll(Caid, offers + [o]), b) == InGroup(AddAll(Caid, offers), b) +
      if Kin(o.card, b) && forall x :: x in AddAll(Caid, offers) && Kin(x, b) ==>
           |Elements(o.card.providers) + Elements(x.providers)| > 32
      then 1 else 0
  {
    hide NoDup, Merge, FindMatch, Matches;
    assert (offers + [o])[..|offers|] == offers;
    CaidNoDup(offers);
    var cards, c := AddAll(Caid, offers), o.card;
    var r := Add(Caid, cards, c, o.own).0;
    forall j | 0 <= j < |cards|
      ensures Matches(Caid, c, cards[j]) <==>
        Kin(c, cards[j]) && |Elements(c.providers) + Elements(cards[j].providers)| <= 32
    {
      CaidMatchIff(c, cards[j]);
    }
    var i := FindMatch(Caid, cards, c);
    if i < |cards| {
      InGroupUpdate(cards, i, r[i], b);
      assert cards[i] in cards;
    } else {
      assert r[..|cards|] == cards;
    }
  }

  lemma {:induction false} OfferedProvidersAre(offers: seq<Offer>, b: Body, p: nat)
    ensures p in OfferedProviders(offers, b) <==> Offered(offers, b, p)
    decreases |offers|
  {
    if offers != [] {
      var n := |offers| - 1;
      OfferedProvidersAre(offers[..n], b, p);
      assert offers == offers[..n] + [offers[n]];
    }
  }

  lemma SubsetCount(a: set<nat>, b: set<nat>)
    requires a <= b
    ensures |a| <= |b|
  {
    assert b == a + (b - a);
  }

  lemma {:induction false} InGroupCounts(cards: seq<Body>, b: Body)
    ensures InGroup(cards, b) == 0 <==> forall x :: x in cards ==> !Kin(x, b)
    ensures InGroup(cards, b) == 1 ==> forall x, y :: x in cards && y in cards && Kin(x, b) && Kin(y, b) ==> x == y
    decreases |cards|
  {
    hide Kin;
    if cards != [] {
      var n := |cards| - 1;
      InGroupCounts(cards[..n], b);
      assert cards == cards[..n] + [cards[n]];
    }
  }

  ghost predicate GroupOffered(offers: seq<Offer>, b: Body) { exists o :: o in offers && Kin(o.card, b) }

  // A card's providers were all offered for its group.
  lemma CardProvidersOffered(offers: seq<Offer>, b: Body, x: Body)
    requires x in AddAll(Caid, offers) && Kin(x, b)
    ensures Elements(x.providers) <= OfferedProviders(offers, b)
  {
    hide AddAll, OfferedProviders;
    MergingLosesNothing(offers);
    forall p | p in x.providers ensures p in OfferedProviders(offers, b) {
      OfferedProvidersAre(offers, b, p);
      assert Provides(AddAll(Caid, offers), b, p);
    }
  }

  lemma OneMoreOffered(offers: seq<Offer>, o: Offer, b: Body)
    ensures OfferedProviders(offers + [o], b) ==
      OfferedProviders(offers, b) + if Kin(o.card, b) then Elements(o.card.providers) else {}
    ensures GroupOffered(offers + [o], b) <==> GroupOffered(offers, b) || Kin(o.card, b)
  {
    assert (offers + [o])[..|offers|] == offers;
    assert forall p :: p in offers + [o] <==> p in offers || p == o;
  }

  // A group that is offered, but no more than 32 providers for it in all, has exactly one card.
  lemma {:induction false} OneCardIfFew(offers: seq<Offer>, b: Body)
    requires forall o :: o in offers ==> NoDup(o.card.providers)
    requires |OfferedProviders(offers, b)| <= 32
    ensures InGroup(AddAll(Caid, offers), b) == if GroupOffered(offers, b) then 1 else 0
    decreases |offers|
  {
    hide NoDup, Kin, OfferedProviders, GroupOffered, Add;
    if offers == [] {
      NoOffers(b);
    } else {
      var n := |offers| - 1;
      var init, o := offers[..n], offers[n];
      assert offers == init + [o];
      OneMoreOffered(init, o, b);
      SubsetCount(OfferedProviders(init, b), OfferedProviders(offers, b));
      OneCardIfFew(init, b);
      AnotherCardIff(init, o, b);
      var cards := AddAll(Caid, init);
      InGroupCounts(cards, b);
      if Kin(o.card, b) && GroupOffered(init, b) {
        var x :| x in cards && Kin(x, b);
        CardProvidersOffered(init, b, x);
        var both := Elements(o.card.providers) + Elements(x.providers);
        SubsetCount(both, OfferedProviders(offers, b));
      }
    }
  }

  lemma NoOffers(b: Body)
    ensures InGroup(AddAll(Caid, []), b) == 0 && !GroupOffered([], b)
  {
  }

  // If no card offered has more than 32 providers, a group has exactly one card if and only if
  // it is offered, and no more than 32 providers for it in all.
  lemma OneCardIff(offers: seq<Offer>, b: Body)
    requires forall o :: o in offers ==> NoDup(o.card.providers) && |o.card.providers| <= 32
    ensures InGroup(AddAll(Caid, offers), b) == 1 <==>
      GroupOffered(offers, b) && |OfferedProviders(offers, b)| <= 32
  {
    hide NoDup, AddAll, OfferedProviders;
    var cards := AddAll(Caid, offers);
    if |OfferedProviders(offers, b)| <= 32 {
      OneCardIfFew(offers, b);
    }
    if InGroup(cards, b) == 1 {
      InGroupCounts(cards, b);
      MergingLosesNothing(offers);
      assert Present(cards, b);
      var x :| x in cards && Kin(x, b);
      forall p | p in OfferedProviders(offers, b) ensures p in x.providers {
        OfferedProvidersAre(offers, b, p);
        assert Provides(cards, b, p);
      }
      ElementsCount(x.providers);
      assert forall o :: o in offers ==> Small(o.card);
      assert Small(x);
      SubsetCount(OfferedProviders(offers, b), Elements(x.providers));
      assert PresentOffer(offers, b);
    }
  }
}
