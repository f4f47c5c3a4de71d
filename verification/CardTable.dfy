// The reader's side of the CCcam card list (module-cccam.c): the cards the server announced, the
// counters shown for them, and the requests under way that point at them.
module CardTable {
  import opened ShareList

  type Ptr = nat  // address of a struct cc_card, 0 for NULL

  // A card as the table holds it. The body is what the card message said, with the hop count
  // already incremented.
  datatype Entry = Entry(ptr: Ptr, id: nat, body: Body)

  // struct cc_extended_ecm_idx
  datatype Eei = Eei(sendIdx: nat, ecmIdx: nat, card: Ptr)

  // num_hop1, num_hop2, num_hopx and num_reshare0, 1, 2, x
  datatype Tally = Tally(hop1: int, hop2: int, hopx: int, res0: int, res1: int, res2: int, resx: int)

  const ZERO := Tally(0, 0, 0, 0, 0, 0, 0)

  function Count1(t: Tally, b: Body, d: int): Tally {
    var h := if b.hop == 1 then t.(hop1 := t.hop1 + d)
      else if b.hop == 2 then t.(hop2 := t.hop2 + d)
      else t.(hopx := t.hopx + d);
    if b.reshare == 0 then h.(res0 := h.res0 + d)
    else if b.reshare == 1 then h.(res1 := h.res1 + d)
    else if b.reshare == 2 then h.(res2 := h.res2 + d)
    else h.(resx := h.resx + d)
  }

  datatype Table = Table(cards: seq<Entry>, eeis: seq<Eei>, lastEmm: Ptr, tally: Tally, ecmIdx: nat, heap: Ptr)

  // After a login: no cards, all counters zero. `heap` is the last address handed out.
  function Fresh(heap: Ptr): Table { Table([], [], 0, ZERO, 0, heap) }

  // ---------------------------------------------------------------- the calls, as values

  function Forget(eeis: seq<Eei>, card: Ptr): (r: seq<Eei>)
    decreases |eeis|
  {
    if eeis == [] then []
    else
      var r := Forget(eeis[..|eeis| - 1], card);
      var e := eeis[|eeis| - 1];
      if e.card == card then r else r + [e]
  }

  // One card of cc_card_removed.
  function DropCard(t: Table, i: nat): Table
    requires i < |t.cards|
  {
    var c := t.cards[i];
    t.(cards := Without(t.cards, i), eeis := Forget(t.eeis, c.ptr),
       lastEmm := if t.lastEmm == c.ptr then 0 else t.lastEmm, tally := Count1(t.tally, c.body, -1))
  }

  // cc_card_removed from entry i on.
  function Removed(t: Table, id: nat, i: nat): Table
    decreases |t.cards| - i
  {
    if i >= |t.cards| then t
    else if t.cards[i].id == id then Removed(DropCard(t, i), id, i)
    else Removed(t, id, i + 1)
  }

  function IndexOf(cards: seq<Entry>, card: Ptr): (i: nat)
    ensures i <= |cards| && (i < |cards| ==> cards[i].ptr == card)
    ensures forall j :: 0 <= j < i ==> cards[j].ptr != card
    decreases |cards|
  {
    if cards == [] || cards[0].ptr == card then 0
    else
      var i := IndexOf(cards[1..], card);
      assert forall j :: 0 < j < i + 1 ==> cards[j] == cards[1..][j - 1];
      i + 1
  }

  // move_card_to_end
  function MovedToEnd(t: Table, card: Ptr): Table {
    var i := IndexOf(t.cards, card);
    if i == |t.cards| then t
    else t.(cards := Without(t.cards, i) + [t.cards[i]], eeis := Forget(t.eeis, card))
  }

  predicate Known(t: Table, id: nat, b: Body) {
    exists i :: 0 <= i < |t.cards| && (t.cards[i].id == id || SameCard(t.cards[i].body, b))
  }

  // A MSG_NEW_CARD or MSG_NEW_CARD_SIDINFO that passed the reader's filters; au says whether
  // set_au_data makes it the card for management messages.
  function Announced(t: Table, id: nat, b: Body, au: bool): Table {
    if Known(t, id, b) then t.(heap := t.heap + 1)
    else
      var c := Entry(t.heap + 1, id, b.(hop := (b.hop + 1) % 256));
      t.(cards := t.cards + [c], heap := c.ptr, lastEmm := if au then c.ptr else t.lastEmm,
        tally := Count1(t.tally, c.body, 1))
  }

  // get_extended_ecm_idx
  function FindEei(eeis: seq<Eei>, sendIdx: nat): (i: nat)
    ensures i <= |eeis| && (i < |eeis| ==> eeis[i].sendIdx == sendIdx)
    ensures forall j :: 0 <= j < i ==> eeis[j].sendIdx != sendIdx
    decreases |eeis|
  {
    if eeis == [] || eeis[0].sendIdx == sendIdx then 0
    else
      var i := FindEei(eeis[1..], sendIdx);
      assert forall j :: 0 < j < i + 1 ==> eeis[j] == eeis[1..][j - 1];
      i + 1
  }

  // The index part of cc_send_ecm for the chosen card k.
  function Requested(t: Table, k: nat, extended: bool, ecm: nat, au: bool): Table
    requires k < |t.cards|
  {
    var next := if t.ecmIdx + 1 >= 256 then 1 else t.ecmIdx + 1;
    var sendIdx := if extended then next else 1;
    var i := FindEei(t.eeis, sendIdx);
    var e := Eei(sendIdx, ecm, t.cards[k].ptr);
    t.(ecmIdx := if extended then next else t.ecmIdx,
       eeis := if i < |t.eeis| then t.eeis[i := e] else t.eeis + [e],
       lastEmm := if au then e.card else t.lastEmm)
  }

  // What an answer does to the card it is matched to.
  datatype Verdict = Nothing | ShareGone | ToEnd

  // MSG_CW_NOK1, MSG_CW_NOK2 and MSG_CW_ECM: the entry for the index goes, and with it, or at the
  // end of the list, possibly its card.
  function Answered(t: Table, sendIdx: nat, v: Verdict): Table {
    var i := FindEei(t.eeis, sendIdx);
    if i == |t.eeis| then t
    else
      var card := t.eeis[i].card;
      var t1 := t.(eeis := Without(t.eeis, i));
      var k := IndexOf(t1.cards, card);
      match v
      case Nothing => t1
      case ShareGone => if k == |t1.cards| then t1 else Removed(t1, t1.cards[k].id, 0)
      case ToEnd => MovedToEnd(t1, card)
  }

  datatype Event =
    | NewCard(id: nat, body: Body, au: bool)
    | CardRemoved(id: nat)
    | SendEcm(k: nat, extended: bool, ecm: nat, au: bool)
    | Answer(sendIdx: nat, verdict: Verdict)
    | ServerData

  function Step(t: Table, e: Event): Table {
    match e
    case NewCard(id, b, au) => Announced(t, id, b, au)
    case CardRemoved(id) => Removed(t, id, 0)
    case SendEcm(k, extended, ecm, au) => if k < |t.cards| then Requested(t, k, extended, ecm, au) else t
    case Answer(sendIdx, v) => Answered(t, sendIdx, v)
    case ServerData => Fresh(t.heap).(ecmIdx := t.ecmIdx)
  }

  function Run(heap: Ptr, events: seq<Event>): Table
    decreases |events|
  {
    if events == [] then Fresh(heap) else Step(Run(heap, events[..|events| - 1]), events[|events| - 1])
  }

  // ---------------------------------------------------------------- the calls, in place

  // The fields of struct cc_data the calls below change.
  class CcData {
    var cards: seq<Entry>
    var eeis: seq<Eei>
    var lastEmm: Ptr
    var tally: Tally
    var ecmIdx: nat
    var heap: Ptr

    function Value(): Table
      reads this
    {
      Table(cards, eeis, lastEmm, tally, ecmIdx, heap)
    }

    // cc_cli_connect
    constructor (heap: Ptr)
      ensures Value() == Fresh(heap)
    {
      cards, eeis, lastEmm, tally, ecmIdx := [], [], 0, ZERO, 0;
      this.heap := heap;
    }

    // free_extended_ecm_idx_by_card
    method FreeByCard(card: Ptr)
      modifies this`eeis
      ensures eeis == Forget(old(eeis), card)
    {
      hide Forget;
      ghost var was, k := eeis, 0;
      var i := 0;
      ForgetNone(was, card);
      while i < |eeis|
        invariant k <= |was| && i == |Forget(was[..k], card)| && eeis == Forget(was[..k], card) + was[k..]
        decreases |was| - k
      {
        ForgetTurn(was, card, k, eeis, i);
        if eeis[i].card == card {
          eeis := eeis[..i] + eeis[i + 1..];
        } else {
          i := i + 1;
        }
        k := k + 1;
      }
      assert was[..k] == was;
    }

    // One card of cc_card_removed, in the order the code clears things.
    method Drop(i: nat)
      requires i < |cards|
      modifies this
      ensures Value() == DropCard(old(Value()), i)
    {
      var card := cards[i];
      cards := cards[..i] + cards[i + 1..];
      if lastEmm == card.ptr {
        lastEmm := 0;
      }
      FreeByCard(card.ptr);
      tally := Count1(tally, card.body, -1);
    }

    // cc_card_removed
    method Remove(shareId: nat)
      modifies this
      ensures Value() == Removed(old(Value()), shareId, 0)
    {
      hide DropCard;
      var i := 0;
      while i < |cards|
        invariant Removed(Value(), shareId, i) == Removed(old(Value()), shareId, 0)
        decreases |cards| - i
      {
        if cards[i].id == shareId {
          DropShortens(Value(), i);
          Drop(i);
        } else {
          i := i + 1;
        }
      }
    }

    // Where a card stands in the list, if it does.
    method Search(card: Ptr) returns (i: nat)
      ensures i == IndexOf(cards, card)
    {
      i := 0;
      while i < |cards| && cards[i].ptr != card
        invariant i <= |cards| && forall j :: 0 <= j < i ==> cards[j].ptr != card
      {
        i := i + 1;
      }
    }

    // move_card_to_end
    method MoveToEnd(card: Ptr)
      modifies this
      ensures Value() == MovedToEnd(old(Value()), card)
    {
      var i := Search(card);
      if i < |cards| {
        var c := cards[i];
        cards := cards[..i] + cards[i + 1..];
        FreeByCard(card);
        cards := cards + [c];
      }
    }

    // The card messages of cc_parse_msg, past the filters
    method NewCard(id: nat, b: Body, au: bool)
      modifies this
      ensures Value() == Announced(old(Value()), id, b, au)
    {
      heap := heap + 1;
      var card := Entry(heap, id, b);
      var i := 0;
      while i < |cards|
        invariant i <= |cards| && forall j :: 0 <= j < i ==> !(cards[j].id == id || SameCard(cards[j].body, b))
      {
        if cards[i].id == id || SameCard(cards[i].body, b) {
          return;
        }
        i := i + 1;
      }
      card := card.(body := b.(hop := (b.hop + 1) % 256));
      cards := cards + [card];
      if au {
        lastEmm := card.ptr;
      }
      tally := Count1(tally, card.body, 1);
    }

    method SearchEei(sendIdx: nat) returns (i: nat)
      ensures i == FindEei(eeis, sendIdx)
    {
      i := 0;
      while i < |eeis| && eeis[i].sendIdx != sendIdx
        invariant i <= |eeis| && forall j :: 0 <= j < i ==> eeis[j].sendIdx != sendIdx
      {
        i := i + 1;
      }
    }

    // The index part of cc_send_ecm
    method SendEcm(k: nat, extended: bool, ecm: nat, au: bool)
      requires k < |cards|
      modifies this
      ensures Value() == Requested(old(Value()), k, extended, ecm, au)
    {
      var sendIdx := 1;
      if extended {
        ecmIdx := ecmIdx + 1;
        if ecmIdx >= 256 {
          ecmIdx := 1;
        }
        sendIdx := ecmIdx;
      }
      var i := SearchEei(sendIdx);
      if i < |eeis| {
        eeis := eeis[i := Eei(sendIdx, ecm, cards[k].ptr)];
      } else {
        eeis := eeis + [Eei(sendIdx, ecm, cards[k].ptr)];
      }
      if au {
        lastEmm := cards[k].ptr;
      }
    }

    // The table part of the answers of cc_parse_msg
    method Answer(sendIdx: nat, v: Verdict)
      modifies this
      ensures Value() == Answered(old(Value()), sendIdx, v)
    {
      var i := SearchEei(sendIdx);
      if i == |eeis| {
        return;
      }
      var card := eeis[i].card;
      eeis := eeis[..i] + eeis[i + 1..];
      match v {
        case Nothing =>
        case ShareGone =>
          var k := Search(card);
          if k < |cards| {
            Remove(cards[k].id);
          }
        case ToEnd => MoveToEnd(card);
      }
    }
  }

  lemma ForgetNone(was: seq<Eei>, card: Ptr)
    ensures Forget(was[..0], card) == [] && [] + was[0..] == was
  {
  }

  // One turn of the loop: entry i is number k of the list there was.
  lemma ForgetTurn(was: seq<Eei>, card: Ptr, k: nat, s: seq<Eei>, i: nat)
    requires k < |was| && i == |Forget(was[..k], card)| && s == Forget(was[..k], card) + was[k..]
    ensures i < |s| && s[i] == was[k]
    ensures var next := if was[k].card == card then s[..i] + s[i + 1..] else s;
      next == Forget(was[..k + 1], card) + was[k + 1..]
    ensures |Forget(was[..k + 1], card)| == if was[k].card == card then i else i + 1
  {
    assert was[..k + 1][..k] == was[..k];
  }

  // ---------------------------------------------------------------- what holds after every step

  function CountAll(cards: seq<Entry>): Tally
    decreases |cards|
  {
    if cards == [] then ZERO else Count1(CountAll(cards[..|cards| - 1]), cards[|cards| - 1].body, 1)
  }

  ghost predicate InTable(cards: seq<Entry>, p: Ptr) { exists i :: 0 <= i < |cards| && cards[i].ptr == p }

  ghost predicate Unrelated(a: Entry, b: Entry) { a.ptr != b.ptr && a.id != b.id && !SameCard(a.body, b.body) }

  ghost predicate AllUnrelated(cards: seq<Entry>) {
    forall i, j :: 0 <= i < j < |cards| ==> Unrelated(cards[i], cards[j])
  }

  ghost predicate Addressed(t: Table) {
    forall i :: 0 <= i < |t.cards| ==> 0 < t.cards[i].ptr <= t.heap
  }

  // Every request under way and the card for management messages point into the table, and no
  // send index is used twice.
  ghost predicate Pointing(t: Table) {
    && (forall i :: 0 <= i < |t.eeis| ==> InTable(t.cards, t.eeis[i].card))
    && (t.lastEmm == 0 || InTable(t.cards, t.lastEmm))
    && (forall i, j :: 0 <= i < j < |t.eeis| ==> t.eeis[i].sendIdx != t.eeis[j].sendIdx)
  }

  ghost predicate Inv(t: Table) {
    AllUnrelated(t.cards) && Addressed(t) && Pointing(t) && t.tally == CountAll(t.cards)
  }

  // SameCard ignores the hop count.
  lemma HopIrrelevant(a: Body, b: Body, h: nat)
    ensures SameCard(a, b.(hop := h)) <==> SameCard(a, b)
  {}

  lemma CountSnoc(cards: seq<Entry>, c: Entry)
    ensures CountAll(cards + [c]) == Count1(CountAll(cards), c.body, 1)
  {
    assert (cards + [c])[..|cards|] == cards;
  }

  lemma CountOnceMoreOnceLess(t: Tally, a: Body, b: Body)
    ensures Count1(Count1(t, a, 1), a, -1) == t
    ensures Count1(Count1(t, a, 1), b, -1) == Count1(Count1(t, b, -1), a, 1)
  {}

  lemma {:induction false} CountWithout(cards: seq<Entry>, i: nat)
    requires i < |cards|
    ensures CountAll(Without(cards, i)) == Count1(CountAll(cards), cards[i].body, -1)
    decreases |cards|
  {
    hide Count1;
    var n := |cards| - 1;
    if i == n {
      assert Without(cards, i) == cards[..n];
      CountOnceMoreOnceLess(CountAll(cards[..n]), cards[n].body, cards[n].body);
    } else {
      CountWithout(cards[..n], i);
      assert Without(cards, i) == Without(cards[..n], i) + [cards[n]];
      CountSnoc(Without(cards[..n], i), cards[n]);
      CountOnceMoreOnceLess(CountAll(cards[..n]), cards[n].body, cards[i].body);
    }
  }

  lemma {:induction false} ForgetSpec(eeis: seq<Eei>, card: Ptr)
    ensures forall e :: e in Forget(eeis, card) <==> e in eeis && e.card != card
    ensures (forall i, j :: 0 <= i < j < |eeis| ==> eeis[i].sendIdx != eeis[j].sendIdx) ==>
              forall i, j :: 0 <= i < j < |Forget(eeis, card)| ==>
                Forget(eeis, card)[i].sendIdx != Forget(eeis, card)[j].sendIdx
    decreases |eeis|
  {
    if eeis != [] {
      var n := |eeis| - 1;
      ForgetSpec(eeis[..n], card);
      assert eeis == eeis[..n] + [eeis[n]];
      var f := Forget(eeis[..n], card);
      assert forall j :: 0 <= j < |f| ==> f[j] in eeis[..n];
    }
  }

  lemma WithoutCards(cards: seq<Entry>, i: nat)
    requires i < |cards| && AllUnrelated(cards)
    ensures AllUnrelated(Without(cards, i))
    ensures forall p :: InTable(Without(cards, i), p) <==> InTable(cards, p) && p != cards[i].ptr
  {
    var w := Without(cards, i);
    forall p | InTable(cards, p) && p != cards[i].ptr
      ensures InTable(w, p)
    {
      var j :| 0 <= j < |cards| && cards[j].ptr == p;
      assert w[if j < i then j else j - 1].ptr == p;
    }
    forall p | InTable(w, p)
      ensures InTable(cards, p) && p != cards[i].ptr
    {
      var j :| 0 <= j < |w| && w[j].ptr == p;
      var q := if j < i then j else j + 1;
      assert cards[q].ptr == p;
      assert if q < i then Unrelated(cards[q], cards[i]) else Unrelated(cards[i], cards[q]);
    }
  }

  lemma DropKeeps(t: Table, i: nat)
    requires Inv(t) && i < |t.cards|
    ensures Inv(DropCard(t, i))
  {
    hide Count1, SameCard, Forget;
    WithoutCards(t.cards, i);
    ForgetSpec(t.eeis, t.cards[i].ptr);
    CountWithout(t.cards, i);
    var t' := DropCard(t, i);
    forall j | 0 <= j < |t'.eeis|
      ensures InTable(t'.cards, t'.eeis[j].card)
    {
      assert t'.eeis[j] in t'.eeis;
    }
  }

  lemma {:induction false} RemovedKeeps(t: Table, id: nat, i: nat)
    requires Inv(t)
    ensures Inv(Removed(t, id, i))
    decreases |t.cards| - i
  {
    hide Inv, DropCard;
    if i < |t.cards| {
      if t.cards[i].id == id {
        DropKeeps(t, i);
        DropShortens(t, i);
        RemovedKeeps(DropCard(t, i), id, i);
      } else {
        RemovedKeeps(t, id, i + 1);
      }
    }
  }

  lemma DropShortens(t: Table, i: nat)
    requires i < |t.cards|
    ensures |DropCard(t, i).cards| == |t.cards| - 1
  {}

  function OtherIds(cards: seq<Entry>, id: nat): seq<Entry>
    decreases |cards|
  {
    if cards == [] then [] else (if cards[0].id == id then [] else [cards[0]]) + OtherIds(cards[1..], id)
  }

  // cc_card_removed takes out exactly the cards with that id and keeps the order of the others.
  lemma {:induction false} RemovedTakesOnlyThatId(t: Table, id: nat, i: nat)
    requires i <= |t.cards|
    ensures Removed(t, id, i).cards == t.cards[..i] + OtherIds(t.cards[i..], id)
    decreases |t.cards| - i
  {
    if i < |t.cards| {
      assert t.cards[i..][1..] == t.cards[i + 1..];
      if t.cards[i].id == id {
        var u := DropCard(t, i);
        RemovedTakesOnlyThatId(u, id, i);
        assert u.cards[..i] == t.cards[..i] && u.cards[i..] == t.cards[i + 1..];
      } else {
        RemovedTakesOnlyThatId(t, id, i + 1);
        assert t.cards[..i + 1] == t.cards[..i] + [t.cards[i]];
      }
    } else {
      assert t.cards[i..] == [];
    }
  }

  lemma MovedUnrelated(cards: seq<Entry>, i: nat)
    requires i < |cards| && AllUnrelated(cards)
    ensures AllUnrelated(Without(cards, i) + [cards[i]])
  {
    hide SameCard;
    var w, c := Without(cards, i), cards[i];
    WithoutCards(cards, i);
    forall j | 0 <= j < |w|
      ensures Unrelated(w[j], c)
    {
      assert w[j] == if j < i then cards[j] else cards[j + 1];
      if j >= i { UnrelatedCommutes(c, cards[j + 1]); }
    }
  }

  lemma MovedCards(cards: seq<Entry>, i: nat)
    requires i < |cards| && AllUnrelated(cards)
    ensures var m := Without(cards, i) + [cards[i]];
            && AllUnrelated(m) && CountAll(m) == CountAll(cards)
            && (forall p :: InTable(m, p) <==> InTable(cards, p))
  {
    hide Count1, AllUnrelated, Unrelated, Without, CountAll;
    var w, c := Without(cards, i), cards[i];
    var m := w + [c];
    MovedUnrelated(cards, i);
    WithoutCards(cards, i);
    CountWithout(cards, i);
    CountSnoc(w, c);
    MinusPlus(CountAll(cards), c.body);
    forall p
      ensures InTable(m, p) <==> InTable(w, p) || p == c.ptr
    {
      InSnoc(w, c, p);
    }
    assert InTable(cards, c.ptr);
  }

  lemma InSnoc(w: seq<Entry>, c: Entry, p: Ptr)
    ensures InTable(w + [c], p) <==> InTable(w, p) || p == c.ptr
  {
    var m := w + [c];
    if InTable(w, p) {
      var j :| 0 <= j < |w| && w[j].ptr == p;
      assert m[j].ptr == p;
    }
    assert m[|w|].ptr == c.ptr;
    if InTable(m, p) && p != c.ptr {
      var j :| 0 <= j < |m| && m[j].ptr == p;
      assert w[j].ptr == p;
    }
  }

  lemma MinusPlus(t: Tally, b: Body)
    ensures Count1(Count1(t, b, -1), b, 1) == t
  {}

  lemma UnrelatedCommutes(a: Entry, b: Entry)
    ensures Unrelated(a, b) <==> Unrelated(b, a)
  {}

  lemma MovedKeeps(t: Table, card: Ptr)
    requires Inv(t)
    ensures Inv(MovedToEnd(t, card))
  {
    hide Count1, SameCard, Forget, AllUnrelated, InTable;
    var i := IndexOf(t.cards, card);
    if i < |t.cards| {
      MovedCards(t.cards, i);
      ForgetSpec(t.eeis, card);
      var t' := MovedToEnd(t, card);
      forall j | 0 <= j < |t'.eeis|
        ensures InTable(t'.cards, t'.eeis[j].card)
      {
        assert t'.eeis[j] in t'.eeis;
        assert t'.eeis[j] in t.eeis;
      }
      assert Addressed(t') by {
        assert forall j :: 0 <= j < |t.cards| - 1 ==>
          Without(t.cards, i)[j] == if j < i then t.cards[j] else t.cards[j + 1];
      }
    }
  }

  lemma AnnouncedKeeps(t: Table, id: nat, b: Body, au: bool)
    requires Inv(t)
    ensures Inv(Announced(t, id, b, au))
  {
    hide Count1, SameCard;
    if !Known(t, id, b) {
      var t' := Announced(t, id, b, au);
      var n := |t.cards|;
      CountSnoc(t.cards, t'.cards[n]);
      forall i | 0 <= i < n
        ensures Unrelated(t.cards[i], t'.cards[n])
      {
        HopIrrelevant(t.cards[i].body, b, (b.hop + 1) % 256);
      }
      forall p | InTable(t.cards, p)
        ensures InTable(t'.cards, p)
      {
        var i :| 0 <= i < n && t.cards[i].ptr == p;
        assert t'.cards[i].ptr == p;
      }
      assert t'.cards[n].ptr == t'.heap;
    }
  }

  lemma RequestedKeeps(t: Table, k: nat, extended: bool, ecm: nat, au: bool)
    requires Inv(t) && k < |t.cards|
    ensures Inv(Requested(t, k, extended, ecm, au))
  {
    hide Count1, SameCard;
    assert InTable(t.cards, t.cards[k].ptr);
  }

  lemma AnsweredKeeps(t: Table, sendIdx: nat, v: Verdict)
    requires Inv(t)
    ensures Inv(Answered(t, sendIdx, v))
  {
    hide Count1, SameCard, AllUnrelated;
    var i := FindEei(t.eeis, sendIdx);
    if i < |t.eeis| {
      var t1 := t.(eeis := Without(t.eeis, i));
      assert forall j :: 0 <= j < |t1.eeis| ==> t1.eeis[j] == if j < i then t.eeis[j] else t.eeis[j + 1];
      assert Inv(t1);
      var k := IndexOf(t1.cards, t.eeis[i].card);
      match v
      case Nothing =>
      case ShareGone => if k < |t1.cards| { RemovedKeeps(t1, t1.cards[k].id, 0); }
      case ToEnd => MovedKeeps(t1, t.eeis[i].card);
    }
  }

  lemma StepKeeps(t: Table, e: Event)
    requires Inv(t)
    ensures Inv(Step(t, e))
  {
    hide Announced, Removed, Requested, Answered;
    match e
    case NewCard(id, b, au) => AnnouncedKeeps(t, id, b, au);
    case CardRemoved(id) => RemovedKeeps(t, id, 0);
    case SendEcm(k, extended, ecm, au) => if k < |t.cards| { RequestedKeeps(t, k, extended, ecm, au); }
    case Answer(sendIdx, v) => AnsweredKeeps(t, sendIdx, v);
    case ServerData =>
  }

  // From a login on, after any sequence of server messages and requests: ids are distinct and no
  // two cards are the same, each counter is the number of cards it stands for, every request
  // under way and the card for management messages are in the table, and a send index is used at
  // most once.
  lemma {:induction false} TableStaysSound(heap: Ptr, events: seq<Event>)
    ensures Inv(Run(heap, events))
    decreases |events|
  {
    hide Step, Inv;
    if events == [] {
      FreshInv(heap);
    } else {
      TableStaysSound(heap, events[..|events| - 1]);
      StepKeeps(Run(heap, events[..|events| - 1]), events[|events| - 1]);
    }
  }

  lemma FreshInv(heap: Ptr)
    ensures Inv(Fresh(heap))
  {}

  // What the counters of a sound table say.
  lemma {:induction false} CountersAreCounts(cards: seq<Entry>)
    ensures var t := CountAll(cards);
            && t.hop1 == |Which(cards, (b: Body) => b.hop == 1)|
            && t.hop2 == |Which(cards, (b: Body) => b.hop == 2)|
            && t.hop1 + t.hop2 + t.hopx == |cards|
            && t.res0 == |Which(cards, (b: Body) => b.reshare == 0)|
            && t.res1 == |Which(cards, (b: Body) => b.reshare == 1)|
            && t.res2 == |Which(cards, (b: Body) => b.reshare == 2)|
            && t.res0 + t.res1 + t.res2 + t.resx == |cards|
    decreases |cards|
  {
    if cards != [] {
      CountersAreCounts(cards[..|cards| - 1]);
    }
  }

  ghost function Which(cards: seq<Entry>, p: Body -> bool): seq<Entry>
    decreases |cards|
  {
    if cards == [] then []
    else Which(cards[..|cards| - 1], p) + if p(cards[|cards| - 1].body) then [cards[|cards| - 1]] else []
  }

  // ---------------------------------------------------------------- what each message does

  // A card enters the table, at the end, under a new address and with one hop more, if and only
  // if no card there has its id, or is alike in remote id, caid, type, service table, group and
  // first node.
  lemma CardEntersIff(t: Table, id: nat, b: Body, au: bool)
    ensures var u := Announced(t, id, b, au);
      if exists i :: 0 <= i < |t.cards| && (t.cards[i].id == id || ClassOf(t.cards[i].body) == ClassOf(b))
      then u.cards == t.cards && u.tally == t.tally && u.lastEmm == t.lastEmm && u.eeis == t.eeis
      else
        && u.cards == t.cards + [Entry(t.heap + 1, id, b.(hop := (b.hop + 1) % 256))]
        && u.lastEmm == (if au then t.heap + 1 else t.lastEmm) && u.eeis == t.eeis
  {
    hide ClassOf;
    forall i | 0 <= i < |t.cards|
      ensures SameCard(t.cards[i].body, b) <==> ClassOf(t.cards[i].body) == ClassOf(b)
    {
      SameCardIffClass(t.cards[i].body, b);
    }
  }

  // A request leaves one entry with its send index, for its card: 1, or in extended mode the next
  // number below 256. All other entries stay.
  lemma RequestIsNoted(t: Table, k: nat, extended: bool, ecm: nat, au: bool)
    requires k < |t.cards|
    ensures var u := Requested(t, k, extended, ecm, au);
      var sendIdx := if !extended then 1 else if t.ecmIdx < 255 then t.ecmIdx + 1 else 1;
      && Eei(sendIdx, ecm, t.cards[k].ptr) in u.eeis && u.cards == t.cards && u.tally == t.tally
      && u.lastEmm == (if au then t.cards[k].ptr else t.lastEmm)
      && forall e: Eei :: e.sendIdx != sendIdx ==> (e in u.eeis <==> e in t.eeis)
  {
    var next := if t.ecmIdx + 1 >= 256 then 1 else t.ecmIdx + 1;
    var sendIdx := if extended then next else 1;
    var f, e := FindEei(t.eeis, sendIdx), Eei(sendIdx, ecm, t.cards[k].ptr);
    var u := Requested(t, k, extended, ecm, au);
    if f < |t.eeis| {
      assert u.eeis[f] == e;
      assert t.eeis == t.eeis[..f] + [t.eeis[f]] + t.eeis[f + 1..];
      assert u.eeis == t.eeis[..f] + [e] + t.eeis[f + 1..];
    } else {
      assert u.eeis == t.eeis + [e];
    }
  }

  lemma {:induction false} RemovedForgetsOnly(t: Table, id: nat, i: nat)
    ensures forall e :: e in Removed(t, id, i).eeis ==> e in t.eeis
    decreases |t.cards| - i
  {
    hide Forget, Count1;
    if i < |t.cards| {
      if t.cards[i].id == id {
        ForgetSpec(t.eeis, t.cards[i].ptr);
        RemovedForgetsOnly(DropCard(t, i), id, i);
      } else {
        RemovedForgetsOnly(t, id, i + 1);
      }
    }
  }

  // An answer takes the entry of its send index away, and its card by the verdict: left where it
  // is, gone with all that have its id, or moved to the end.
  lemma AnswerIsDone(t: Table, sendIdx: nat, v: Verdict, f: nat, k: nat)
    requires Inv(t) && f < |t.eeis| && t.eeis[f].sendIdx == sendIdx
    requires k < |t.cards| && t.cards[k].ptr == t.eeis[f].card
    ensures var u := Answered(t, sendIdx, v);
      && (forall e: Eei :: e in u.eeis ==> e.sendIdx != sendIdx && e in t.eeis)
      && (v == Nothing ==> u == t.(eeis := t.eeis[..f] + t.eeis[f + 1..]))
      && (v == ShareGone ==> u.cards == OtherIds(t.cards, t.cards[k].id))
      && (v == ToEnd ==> u.cards == t.cards[..k] + t.cards[k + 1..] + [t.cards[k]] && u.tally == t.tally)
  {
    hide Count1, SameCard, Forget, InTable, Removed, Addressed;
    FoundIs(t, f, k);
    var t1 := t.(eeis := Without(t.eeis, f));
    OthersLeft(t.eeis, f);
    match v
    case Nothing =>
    case ShareGone =>
      RemovedForgetsOnly(t1, t.cards[k].id, 0);
      RemovedTakesOnlyThatId(t1, t.cards[k].id, 0);
      assert t1.cards[0..] == t1.cards;
    case ToEnd => ForgetSpec(t1.eeis, t.cards[k].ptr);
  }

  lemma FoundIs(t: Table, f: nat, k: nat)
    requires Inv(t) && f < |t.eeis| && k < |t.cards|
    ensures FindEei(t.eeis, t.eeis[f].sendIdx) == f && IndexOf(t.cards, t.cards[k].ptr) == k
  {
    hide CountAll, InTable, Addressed;
  }

  lemma OthersLeft(eeis: seq<Eei>, f: nat)
    requires f < |eeis| && forall i, j :: 0 <= i < j < |eeis| ==> eeis[i].sendIdx != eeis[j].sendIdx
    ensures forall e :: e in Without(eeis, f) ==> e in eeis && e.sendIdx != eeis[f].sendIdx
  {
    var w := Without(eeis, f);
    forall e | e in w ensures e in eeis && e.sendIdx != eeis[f].sendIdx {
      var i :| 0 <= i < |w| && w[i] == e;
      assert e == eeis[if i < f then i else i + 1];
    }
  }
}
