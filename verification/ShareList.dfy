// The list of shared cards a CCcam server reports to its clients (module-cccshare.c). Clients
// learn about it only through messages: a card with an id, or the id of a card that is gone.
module ShareList {

  const CT_REMOTECARD: nat := 10
  const FIRST_SHARE_ID: nat := 0x64

  type Node = seq<nat>

  // The parts of struct cc_card that a share update copies without looking at its id.
  datatype Body = Body(
    remoteId: nat, caid: nat, cardType: nat, sidtab: nat, grp: nat, remoteNodes: seq<Node>,
    hop: nat, reshare: nat, providers: seq<nat>, origin: nat, rdrReshare: int)

  datatype Card = Card(id: nat, timeout: int, body: Body)

  // same_first_node, same_card2, same_card
  predicate SameFirstNode(a: Body, b: Body) {
    if a.remoteNodes == [] || b.remoteNodes == [] then a.remoteNodes == b.remoteNodes
    else a.remoteNodes[0] == b.remoteNodes[0]
  }

  predicate SameCard2(a: Body, b: Body) {
    a.caid == b.caid && a.cardType == b.cardType && a.sidtab == b.sidtab && a.grp == b.grp
  }

  predicate SameCard(a: Body, b: Body) {
    a.remoteId == b.remoteId && SameCard2(a, b) && SameFirstNode(a, b)
  }

  // What same_card compares: two cards are the same if and only if they have the same class.
  datatype Class = Class(remoteId: nat, caid: nat, cardType: nat, sidtab: nat, grp: nat, first: seq<Node>)

  function ClassOf(b: Body): Class {
    Class(b.remoteId, b.caid, b.cardType, b.sidtab, b.grp, if b.remoteNodes == [] then [] else b.remoteNodes[..1])
  }

  lemma SameCardIffClass(a: Body, b: Body)
    ensures SameCard(a, b) <==> ClassOf(a) == ClassOf(b)
    ensures SameCard(a, b) <==>
      && a.remoteId == b.remoteId && a.caid == b.caid && a.cardType == b.cardType && a.sidtab == b.sidtab
      && a.grp == b.grp && (|a.remoteNodes| == 0 <==> |b.remoteNodes| == 0)
      && (|a.remoteNodes| > 0 && |b.remoteNodes| > 0 ==> a.remoteNodes[0] == b.remoteNodes[0])
  {
    if a.remoteNodes != [] && b.remoteNodes != [] {
      assert a.remoteNodes[..1] == [a.remoteNodes[0]] && b.remoteNodes[..1] == [b.remoteNodes[0]];
    }
  }

  // card_timed_out
  predicate TimedOut(c: Card, now: int) { c.body.cardType != CT_REMOTECARD && c.timeout < now }

  // Which client may have which card, and with which reshare: card_valid_for_client, and new_reshare
  // in send_card_to_clients. Any two functions of the account and the card will do.
  datatype Rules = Rules(valid: (nat, Body) -> bool, reshare: (nat, Body) -> int)

  predicate Sees(r: Rules, account: nat, b: Body) { r.valid(account, b) && r.reshare(account, b) >= 0 }

  // ---------------------------------------------------------------- clients

  // A card is sent with the client's reshare of it, and with everything else write_card puts in.
  datatype Msg = NewCard(id: nat, reshare: int) | CardRemoved(id: nat)

  // A connected client: the account that decides what it may see, and all messages sent to it.
  datatype Client = Client(account: nat, msgs: seq<Msg>)

  // The ids a client knows from its messages: those added and not removed since.
  function View(msgs: seq<Msg>): set<nat>
    decreases |msgs|
  {
    if msgs == [] then {}
    else
      var v := View(msgs[..|msgs| - 1]);
      match msgs[|msgs| - 1]
      case NewCard(id, _) => v + {id}
      case CardRemoved(id) => v - {id}
  }

  function Tell(c: Client, m: Msg): (r: Client)
    ensures View(r.msgs) == match m
      case NewCard(id, _) => View(c.msgs) + {id}
      case CardRemoved(id) => View(c.msgs) - {id}
    ensures r.account == c.account
  {
    assert (c.msgs + [m])[..|c.msgs|] == c.msgs;
    c.(msgs := c.msgs + [m])
  }

  // ---------------------------------------------------------------- the calls, as values

  datatype State = State(shareId: nat, reported: seq<Card>, clients: seq<Client>)

  // send_card_to_clients with no client named: every client that sees the card is told its id,
  // and the card gets an id when the first of them is found.
  predicate SomeoneSees(r: Rules, clients: seq<Client>, b: Body) {
    exists i :: 0 <= i < |clients| && Sees(r, clients[i].account, b)
  }

  function GivenId(r: Rules, clients: seq<Client>, c: Card, next: nat): nat {
    if c.id == 0 && SomeoneSees(r, clients, c.body) then next else c.id
  }

  function TellNew(r: Rules, c: Client, b: Body, id: nat): (d: Client)
    ensures d.account == c.account
    ensures View(d.msgs) == View(c.msgs) + if Sees(r, c.account, b) then {id} else {}
  {
    if Sees(r, c.account, b) then Tell(c, NewCard(id, r.reshare(c.account, b))) else c
  }

  function ToldNew(r: Rules, clients: seq<Client>, b: Body, id: nat): (s: seq<Client>)
    ensures |s| == |clients|
  {
    seq(|clients|, i requires 0 <= i < |clients| => TellNew(r, clients[i], b, id))
  }

  function SendNew(r: Rules, s: State, k: nat): (t: State)
    requires k < |s.reported|
    ensures |t.reported| == |s.reported| && |t.clients| == |s.clients|
  {
    var c := s.reported[k];
    var id := GivenId(r, s.clients, c, s.shareId);
    State(if id == c.id then s.shareId else s.shareId + 1, s.reported[k := c.(id := id)],
      ToldNew(r, s.clients, c.body, id))
  }

  // send_remove_card_to_clients
  function SendRemoved(r: Rules, clients: seq<Client>, c: Card): (s: seq<Client>)
    ensures |s| == |clients|
  {
    seq(|clients|, i requires 0 <= i < |clients| =>
      if c.id != 0 && r.valid(clients[i].account, c.body) then Tell(clients[i], CardRemoved(c.id)) else clients[i])
  }

  // The first card of the list that find_reported_card accepts for an offered one.
  function Find(list: seq<Card>, b: Body, now: int): (i: nat)
    ensures i <= |list|
    ensures i < |list| ==> SameCard(b, list[i].body) && !TimedOut(list[i], now)
    ensures forall j :: 0 <= j < i ==> !(SameCard(b, list[j].body) && !TimedOut(list[j], now))
    decreases |list|
  {
    if list == [] then 0
    else if SameCard(b, list[0].body) && !TimedOut(list[0], now) then 0
    else
      var i := Find(list[1..], b, now);
      assert forall j :: 0 < j < i + 1 ==> list[j] == list[1..][j - 1];
      i + 1
  }

  function Without<T>(s: seq<T>, i: nat): (r: seq<T>)
    requires i < |s|
    ensures |r| == |s| - 1
  {
    s[..i] + s[i + 1..]
  }

  // The offered cards after report_card, which of them are new, the reported card each of the
  // others replaces, and the reported cards nothing replaces.
  datatype Matching = Matching(cards: seq<Card>, isNew: seq<bool>, from: seq<Card>, left: seq<Card>)

  // find_reported_card found card i of what is left, or nothing.
  function Take(m: Matching, i: nat, c: Card): Matching
    requires i < |m.left|
  {
    var o := m.left[i];
    Matching(m.cards + [c.(id := o.id, timeout := o.timeout)], m.isNew + [false], m.from + [o], Without(m.left, i))
  }

  function Pass(m: Matching, c: Card): Matching {
    Matching(m.cards + [c], m.isNew + [true], m.from + [c], m.left)
  }

  function Match(offers: seq<Card>, was: seq<Card>, now: int): (m: Matching)
    ensures |m.cards| == |m.isNew| == |m.from| == |offers|
    decreases |offers|
  {
    if offers == [] then Matching([], [], [], was)
    else
      var m := Match(offers[..|offers| - 1], was, now);
      var c := offers[|offers| - 1];
      var i := Find(m.left, c.body, now);
      if i < |m.left| then Take(m, i, c) else Pass(m, c)
  }

  // Remove messages for the first n cards that are left over.
  function RemoveAll(r: Rules, clients: seq<Client>, left: seq<Card>): (s: seq<Client>)
    ensures |s| == |clients|
    decreases |left|
  {
    if left == [] then clients else SendRemoved(r, RemoveAll(r, clients, left[..|left| - 1]), left[|left| - 1])
  }

  // New-card messages for those of the first n reported cards that are new.
  function SendAllNew(r: Rules, s: State, isNew: seq<bool>, n: nat): (t: State)
    requires n <= |isNew| == |s.reported|
    ensures |t.reported| == |s.reported| && |t.clients| == |s.clients|
    decreases n
  {
    if n == 0 then s
    else
      var t := SendAllNew(r, s, isNew, n - 1);
      if isNew[n - 1] then SendNew(r, t, n - 1) else t
  }

  // The tail of update_card_list on the cards offered.
  function Update(r: Rules, s: State, offers: seq<Card>, now: int): State {
    var m := Match(offers, s.reported, now);
    SendAllNew(r, State(s.shareId, m.cards, RemoveAll(r, s.clients, m.left)), m.isNew, |offers|)
  }

  // send_card_to_clients with the one client c: card k, numbered if need be, if c may see it.
  function ReportOne(r: Rules, s: State, c: Client, k: nat): (t: (State, Client))
    requires k < |s.reported|
    ensures |t.0.reported| == |s.reported| && t.0.clients == s.clients && t.1.account == c.account
  {
    var card := s.reported[k];
    if !Sees(r, c.account, card.body) then (s, c)
    else
      var id := if card.id == 0 then s.shareId else card.id;
      (s.(shareId := if card.id == 0 then s.shareId + 1 else s.shareId, reported := s.reported[k := card.(id := id)]),
       Tell(c, NewCard(id, r.reshare(c.account, card.body))))
  }

  // cc_srv_report_cards for a client that has just logged in, on the first n reported cards.
  function ReportTo(r: Rules, s: State, account: nat, n: nat): (t: (State, Client))
    requires n <= |s.reported|
    ensures |t.0.reported| == |s.reported| && t.0.clients == s.clients && t.1.account == account
    decreases n
  {
    if n == 0 then (s, Client(account, []))
    else
      var (t, c) := ReportTo(r, s, account, n - 1);
      ReportOne(r, t, c, n - 1)
  }

  function Connect(r: Rules, s: State, account: nat): State {
    var (t, c) := ReportTo(r, s, account, |s.reported|);
    t.(clients := t.clients + [c])
  }

  function Disconnect(s: State, i: nat): State
    requires i < |s.clients|
  {
    s.(clients := Without(s.clients, i))
  }

  // ---------------------------------------------------------------- the calls, in place

  // The globals of module-cccshare.c: cc_share_id, reported_carddatas and the client list.
  class ShareList {
    const rules: Rules
    var shareId: nat
    var reported: seq<Card>
    var clients: seq<Client>

    function Value(): State
      reads this
    {
      State(shareId, reported, clients)
    }

    constructor (rules: Rules)
      ensures this.rules == rules && Value() == State(FIRST_SHARE_ID, [], [])
    {
      this.rules := rules;
      shareId, reported, clients := FIRST_SHARE_ID, [], [];
    }

    // find_reported_card: the first same card goes from the list, its id and timeout carry on
    method FindReportedCard(card1: Card, now: int) returns (found: bool, card: Card)
      modifies this`reported
      ensures var i := Find(old(reported), card1.body, now);
              if i < |old(reported)| then
                found && card == card1.(id := old(reported)[i].id, timeout := old(reported)[i].timeout)
                && reported == Without(old(reported), i)
              else !found && card == card1 && reported == old(reported)
    {
      var i := 0;
      while i < |reported|
        invariant i <= |reported| && reported == old(reported)
        invariant forall j :: 0 <= j < i ==> !(SameCard(card1.body, reported[j].body) && !TimedOut(reported[j], now))
      {
        var card2 := reported[i];
        if SameCard(card1.body, card2.body) && !TimedOut(card2, now) {
          card := card1.(id := card2.id, timeout := card2.timeout);
          reported := reported[..i] + reported[i + 1..];
          return true, card;
        }
        i := i + 1;
      }
      return false, card1;
    }

    // send_card_to_clients(card, NULL) for reported[k]
    method SendCardToClients(k: nat)
      requires k < |reported| && 0 < shareId
      modifies this
      ensures Value() == SendNew(rules, old(Value()), k)
    {
      hide View, Sees;
      var card := reported[k];
      ghost var seen := false;
      for i := 0 to |clients|
        invariant |clients| == |old(clients)|
        invariant card == old(reported)[k].(id := card.id) && reported == old(reported)[k := card]
        invariant seen <==> exists j :: 0 <= j < i && Sees(rules, old(clients)[j].account, card.body)
        invariant if old(reported)[k].id == 0 && seen then card.id == old(shareId) && shareId == old(shareId) + 1
                  else card.id == old(reported)[k].id && shareId == old(shareId)
        invariant clients[..i] == ToldNew(rules, old(clients)[..i], card.body, card.id)
        invariant forall j :: i <= j < |clients| ==> clients[j] == old(clients)[j]
      {
        if Sees(rules, clients[i].account, card.body) {
          if card.id == 0 {
            assert !seen;
            card := card.(id := shareId);
            shareId := shareId + 1;
            reported := reported[k := card];
          }
          seen := true;
          clients :=
            clients[i := Tell(clients[i], NewCard(card.id, rules.reshare(clients[i].account, card.body)))];
        }
      }
      assert seen <==> SomeoneSees(rules, old(clients), card.body);
      assert clients == ToldNew(rules, old(clients), card.body, card.id);
    }

    // send_remove_card_to_clients
    method SendRemoveCardToClients(card: Card)
      modifies this`clients
      ensures clients == SendRemoved(rules, old(clients), card)
    {
      hide View;
      if card.id == 0 {
        assert clients == SendRemoved(rules, old(clients), card);
        return;
      }
      for i := 0 to |clients|
        invariant |clients| == |old(clients)|
        invariant forall j :: 0 <= j < i ==> clients[j] == SendRemoved(rules, old(clients), card)[j]
        invariant forall j :: i <= j < |clients| ==> clients[j] == old(clients)[j]
      {
        if rules.valid(clients[i].account, card.body) {
          clients := clients[i := Tell(clients[i], CardRemoved(card.id))];
        }
      }
    }

    // report_card for every offered card
    method ReportOffers(offers: seq<Card>, now: int) returns (cards: seq<Card>, isNew: seq<bool>)
      modifies this`reported
      ensures var m := Match(offers, old(reported), now); cards == m.cards && isNew == m.isNew && reported == m.left
    {
      hide Find;
      cards, isNew := [], [];
      assert offers[..0] == [];
      for j := 0 to |offers|
        invariant |cards| == |isNew| == j
        invariant var m := Match(offers[..j], old(reported), now);
          cards == m.cards && isNew == m.isNew && reported == m.left
      {
        assert offers[..j + 1][..j] == offers[..j];
        var found, card := FindReportedCard(offers[j], now);
        cards, isNew := cards + [card], isNew + [!found];
      }
      assert offers[..|offers|] == offers;
    }

    // cc_clear_reported_carddata on what is left of the old list
    method RemoveLeft()
      modifies this`clients
      ensures clients == RemoveAll(rules, old(clients), reported)
    {
      hide SendRemoved;
      assert reported[..0] == [];
      for j := 0 to |reported|
        invariant clients == RemoveAll(rules, old(clients), reported[..j])
      {
        assert reported[..j + 1][..j] == reported[..j];
        SendRemoveCardToClients(reported[j]);
      }
      assert reported[..|reported|] == reported;
    }

    method SendNewCards(isNew: seq<bool>)
      requires |isNew| == |reported| && 0 < shareId
      modifies this
      ensures Value() == SendAllNew(rules, old(Value()), isNew, |isNew|)
    {
      hide SendNew;
      for j := 0 to |isNew|
        invariant |reported| == |isNew| && 0 < shareId && Value() == SendAllNew(rules, old(Value()), isNew, j)
      {
        if isNew[j] {
          SendGrows(rules, Value(), j);
          SendCardToClients(j);
        }
      }
    }

    // The tail of update_card_list: report every offered card, then remove, then add
    method UpdateCardList(offers: seq<Card>, now: int)
      requires 0 < shareId
      modifies this
      ensures Value() == Update(rules, old(Value()), offers, now)
    {
      hide Match, RemoveAll, SendAllNew;
      var cards, isNew := ReportOffers(offers, now);
      RemoveLeft();
      reported := cards;
      SendNewCards(isNew);
    }

    // cc_srv_report_cards, for a client that has just logged in
    method ReportCards(account: nat)
      modifies this
      ensures Value() == Connect(rules, old(Value()), account)
    {
      hide View, Sees;
      var c := Client(account, []);
      for j := 0 to |reported|
        invariant |reported| == |old(reported)| && clients == old(clients)
        invariant (Value(), c) == ReportTo(rules, old(Value()), account, j)
      {
        var card := reported[j];
        if Sees(rules, account, card.body) {
          if card.id == 0 {
            card := card.(id := shareId);
            shareId := shareId + 1;
          }
          reported := reported[j := card];
          c := Tell(c, NewCard(card.id, rules.reshare(account, card.body)));
        }
      }
      clients := clients + [c];
    }
  }

  lemma SendGrows(r: Rules, s: State, k: nat)
    requires k < |s.reported|
    ensures s.shareId <= SendNew(r, s, k).shareId
  {}
}
