// Client views track the share list over every run of updates, logins and disconnects.
module ShareListSafety {
  import opened ShareList

  // ---------------------------------------------------------------- ids

  ghost predicate Differ(a: Card, b: Card) { a.id == b.id ==> a.id == 0 }

  ghost predicate AllDiffer(s: seq<Card>) {
    forall i, j :: 0 <= i < j < |s| ==> Differ(s[i], s[j])
  }

  ghost predicate Matched(m: Matching, k: Card)
    requires |m.from| == |m.isNew|
  {
    exists j :: 0 <= j < |m.from| && !m.isNew[j] && m.from[j] == k
  }

  // Every offered card is either new or carries on the id of a same card that had not timed out.
  ghost predicate CarriesOn(m: Matching, offers: seq<Card>, now: int) {
    && |m.cards| == |m.isNew| == |m.from| == |offers|
    && (forall j :: 0 <= j < |offers| ==>
          m.cards[j] == if m.isNew[j] then offers[j] else offers[j].(id := m.from[j].id, timeout := m.from[j].timeout))
    && (forall j :: 0 <= j < |offers| && !m.isNew[j] ==>
      SameCard(offers[j].body, m.from[j].body) && !TimedOut(m.from[j], now))
  }

  // Every card reported before is either replaced or left over.
  ghost predicate Covers(m: Matching, was: seq<Card>) {
    |m.from| == |m.isNew| && forall k :: k in was <==> k in m.left || Matched(m, k)
  }

  ghost predicate StillDiffer(m: Matching) {
    && |m.from| == |m.isNew|
    && AllDiffer(m.left)
    && (forall i, j :: 0 <= i < j < |m.from| && !m.isNew[i] && !m.isNew[j] ==> Differ(m.from[i], m.from[j]))
    && (forall k, j :: k in m.left && 0 <= j < |m.from| && !m.isNew[j] ==> Differ(k, m.from[j]))
  }

  ghost predicate MatchOk(m: Matching, offers: seq<Card>, was: seq<Card>, now: int) {
    CarriesOn(m, offers, now) && Covers(m, was) && StillDiffer(m)
  }

  lemma WithoutMembers<T>(s: seq<T>, i: nat)
    requires i < |s|
    ensures forall x :: x in s <==> x in Without(s, i) || x == s[i]
  {
    forall x | x in s
      ensures x in Without(s, i) || x == s[i]
    {
      var j :| 0 <= j < |s| && s[j] == x;
      if j < i {
        assert Without(s, i)[j] == x;
      } else if j > i {
        assert Without(s, i)[j - 1] == x;
      }
    }
  }

  lemma WithoutDiffers(s: seq<Card>, i: nat)
    requires i < |s| && AllDiffer(s)
    ensures AllDiffer(Without(s, i)) && forall k :: k in Without(s, i) ==> Differ(k, s[i])
  {
    forall k | k in Without(s, i)
      ensures Differ(k, s[i])
    {
      var j :| 0 <= j < |s| - 1 && Without(s, i)[j] == k;
      assert k == if j < i then s[j] else s[j + 1];
    }
  }

  lemma {:induction false} MatchIsOk(offers: seq<Card>, was: seq<Card>, now: int)
    requires AllDiffer(was)
    ensures MatchOk(Match(offers, was, now), offers, was, now)
    decreases |offers|
  {
    if offers != [] {
      var n := |offers| - 1;
      MatchIsOk(offers[..n], was, now);
      var m := Match(offers[..n], was, now);
      MatchStep(m, offers, was, now);
    }
  }

  // The matching after one more offered card.
  lemma MatchStep(m: Matching, offers: seq<Card>, was: seq<Card>, now: int)
    requires offers != [] && m == Match(offers[..|offers| - 1], was, now)
    requires MatchOk(m, offers[..|offers| - 1], was, now)
    ensures MatchOk(Match(offers, was, now), offers, was, now)
  {
    hide Find, SameCard, TimedOut, Without, Covers, StillDiffer;
    var c := offers[|offers| - 1];
    var i := Find(m.left, c.body, now);
    if i < |m.left| {
      TakeKeepsCover(m, was, i, c);
      TakeKeepsDiffer(m, i, c);
    } else {
      PassKeeps(m, was, c);
    }
  }

  lemma TakeKeepsCover(m: Matching, was: seq<Card>, i: nat, c: Card)
    requires Covers(m, was) && i < |m.left|
    ensures Covers(Take(m, i, c), was)
  {
    hide Without;
    WithoutMembers(m.left, i);
    var m', n := Take(m, i, c), |m.from|;
    forall k
      ensures Matched(m', k) <==> Matched(m, k) || k == m.left[i]
    {
      if k == m.left[i] {
        assert m'.from[n] == k && !m'.isNew[n];
      }
      if Matched(m, k) {
        var j :| 0 <= j < n && !m.isNew[j] && m.from[j] == k;
        assert m'.from[j] == k && !m'.isNew[j];
      }
    }
  }

  lemma TakeKeepsDiffer(m: Matching, i: nat, c: Card)
    requires StillDiffer(m) && i < |m.left|
    ensures StillDiffer(Take(m, i, c))
  {
    hide Without;
    WithoutMembers(m.left, i);
    WithoutDiffers(m.left, i);
    assert m.left[i] in m.left;
  }

  lemma PassKeeps(m: Matching, was: seq<Card>, c: Card)
    requires Covers(m, was) && StillDiffer(m)
    ensures Covers(Pass(m, c), was) && StillDiffer(Pass(m, c))
  {
    var m', n := Pass(m, c), |m.from|;
    forall k
      ensures Matched(m', k) <==> Matched(m, k)
    {
      if Matched(m, k) {
        var j :| 0 <= j < n && !m.isNew[j] && m.from[j] == k;
        assert m'.from[j] == k && !m'.isNew[j];
      }
    }
  }

  // ---------------------------------------------------------------- messages

  // The ids of the cards an account may see.
  ghost function Visible(r: Rules, account: nat, cards: seq<Card>): set<nat> {
    set k | k in cards && Sees(r, account, k.body) :: k.id
  }

  // The ids an account is told are gone.
  ghost function Gone(r: Rules, account: nat, left: seq<Card>): set<nat> {
    set k | k in left && k.id != 0 && r.valid(account, k.body) :: k.id
  }

  // The ids of the new cards among the first n an account may see.
  ghost function Fresh(r: Rules, account: nat, cards: seq<Card>, isNew: seq<bool>, n: nat): set<nat>
    requires n <= |cards| == |isNew|
  {
    set j | 0 <= j < n && isNew[j] && Sees(r, account, cards[j].body) :: cards[j].id
  }

  lemma {:induction false} RemoveAllViews(r: Rules, clients: seq<Client>, left: seq<Card>, i: nat)
    requires i < |clients|
    ensures var c := RemoveAll(r, clients, left)[i];
            c.account == clients[i].account && View(c.msgs) == View(clients[i].msgs) - Gone(r, clients[i].account, left)
    decreases |left|
  {
    if left != [] {
      var n := |left| - 1;
      RemoveAllViews(r, clients, left[..n], i);
      var a := clients[i].account;
      assert Gone(r, a, left) == Gone(r, a, left[..n]) +
        (if left[n].id != 0 && r.valid(a, left[n].body) then {left[n].id} else {}) by {
        assert forall k :: k in left <==> k in left[..n] || k == left[n];
      }
    }
  }

  ghost predicate SameAccounts(s: seq<Client>, t: seq<Client>) {
    |s| == |t| && forall i :: 0 <= i < |s| ==> s[i].account == t[i].account
  }

  // What SendAllNew has done to the cards after n of them; s is the state it started from.
  ghost predicate Numbered(r: Rules, s: State, t: State, isNew: seq<bool>, n: nat) {
    && n <= |isNew| == |s.reported| == |t.reported|
    && SameAccounts(s.clients, t.clients) && s.shareId <= t.shareId
    && (forall j :: 0 <= j < |isNew| && !(j < n && isNew[j]) ==> t.reported[j] == s.reported[j])
    && (forall j :: 0 <= j < n && isNew[j] ==>
          && t.reported[j].body == s.reported[j].body
          && (if SomeoneSees(r, s.clients, s.reported[j].body) then s.shareId <= t.reported[j].id < t.shareId
              else t.reported[j].id == 0))
    && (forall i, j :: 0 <= i < j < n && isNew[i] && isNew[j] ==> Differ(t.reported[i], t.reported[j]))
  }

  lemma SomeoneSame(r: Rules, s: seq<Client>, t: seq<Client>, b: Body)
    requires SameAccounts(s, t)
    ensures SomeoneSees(r, s, b) <==> SomeoneSees(r, t, b)
  {
    if SomeoneSees(r, s, b) {
      var i :| 0 <= i < |s| && Sees(r, s[i].account, b);
      assert Sees(r, t[i].account, b);
    }
    if SomeoneSees(r, t, b) {
      var i :| 0 <= i < |t| && Sees(r, t[i].account, b);
      assert Sees(r, s[i].account, b);
    }
  }

  lemma {:induction false} SendAllNumbers(r: Rules, s: State, isNew: seq<bool>, n: nat)
    requires n <= |isNew| == |s.reported| && 0 < s.shareId
    requires forall j :: 0 <= j < |isNew| && isNew[j] ==> s.reported[j].id == 0
    ensures Numbered(r, s, SendAllNew(r, s, isNew, n), isNew, n)
    decreases n
  {
    hide SomeoneSees, Sees, SendNew, Numbered;
    if n == 0 {
      NothingNumbered(r, s, isNew);
    } else {
      SendAllNumbers(r, s, isNew, n - 1);
      var t := SendAllNew(r, s, isNew, n - 1);
      if isNew[n - 1] {
        OneNumbered(r, s, t, isNew, n);
      } else {
        NoneNumbered(r, s, t, isNew, n);
      }
    }
  }

  lemma NothingNumbered(r: Rules, s: State, isNew: seq<bool>)
    requires |isNew| == |s.reported|
    ensures Numbered(r, s, s, isNew, 0)
  {
  }

  lemma NoneNumbered(r: Rules, s: State, t: State, isNew: seq<bool>, n: nat)
    requires 0 < n <= |isNew| && !isNew[n - 1] && Numbered(r, s, t, isNew, n - 1)
    ensures Numbered(r, s, t, isNew, n)
  {
    hide SomeoneSees, Sees;
  }

  // What send_card_to_clients changes but the messages
  lemma SendNewSpec(r: Rules, t: State, k: nat)
    requires k < |t.reported|
    ensures var u := SendNew(r, t, k);
      && SameAccounts(t.clients, u.clients)
      && u.reported == t.reported[k := u.reported[k]] && u.reported[k].body == t.reported[k].body
      && (if t.reported[k].id == 0 && SomeoneSees(r, t.clients, t.reported[k].body)
          then u.reported[k].id == t.shareId && (t.shareId != 0 ==> u.shareId == t.shareId + 1)
          else u.reported[k].id == t.reported[k].id && u.shareId == t.shareId)
  {
    hide SomeoneSees, Sees, View;
  }

  lemma OneNumbered(r: Rules, s: State, t: State, isNew: seq<bool>, n: nat)
    requires 0 < n <= |isNew| && isNew[n - 1] && Numbered(r, s, t, isNew, n - 1)
    requires 0 < s.shareId && s.reported[n - 1].id == 0
    ensures Numbered(r, s, SendNew(r, t, n - 1), isNew, n)
  {
    hide SomeoneSees, Sees, SendNew;
    SendNewSpec(r, t, n - 1);
    SomeoneSame(r, s.clients, t.clients, s.reported[n - 1].body);
  }

  lemma {:induction false} SendAllViews(r: Rules, s: State, isNew: seq<bool>, n: nat, i: nat)
    requires n <= |isNew| == |s.reported| && 0 < s.shareId && i < |s.clients|
    requires forall j :: 0 <= j < |isNew| && isNew[j] ==> s.reported[j].id == 0
    ensures var t := SendAllNew(r, s, isNew, n);
            View(t.clients[i].msgs) == View(s.clients[i].msgs) + Fresh(r, s.clients[i].account, t.reported, isNew, n)
    decreases n
  {
    hide SomeoneSees, Sees, Numbered;
    if n != 0 {
      SendAllViews(r, s, isNew, n - 1, i);
      SendAllNumbers(r, s, isNew, n - 1);
      var t, t' := SendAllNew(r, s, isNew, n - 1), SendAllNew(r, s, isNew, n);
      NewView(r, s, t, isNew, n, i);
    }
  }

  lemma NewView(r: Rules, s: State, t: State, isNew: seq<bool>, n: nat, i: nat)
    requires 0 < n <= |isNew| && Numbered(r, s, t, isNew, n - 1) && i < |s.clients|
    requires View(t.clients[i].msgs) ==
      View(s.clients[i].msgs) + Fresh(r, s.clients[i].account, t.reported, isNew, n - 1)
    ensures var t' := if isNew[n - 1] then SendNew(r, t, n - 1) else t;
            View(t'.clients[i].msgs) == View(s.clients[i].msgs) + Fresh(r, s.clients[i].account, t'.reported, isNew, n)
  {
    hide SomeoneSees, Sees;
    var t' := if isNew[n - 1] then SendNew(r, t, n - 1) else t;
    var a := s.clients[i].account;
    var k := t'.reported[n - 1];
    assert forall j :: 0 <= j < n - 1 ==> t'.reported[j] == t.reported[j];
    assert Fresh(r, a, t'.reported, isNew, n) ==
           Fresh(r, a, t.reported, isNew, n - 1) + (if isNew[n - 1] && Sees(r, a, k.body) then {k.id} else {});
  }

  // The messages themselves: of a new card, exactly the clients that it is valid for and whose
  // reshare is not negative get its id with that reshare; that one is gone is told to exactly the
  // clients it is valid for.
  lemma ClientsTold(r: Rules, s: State, k: nat, i: nat)
    requires k < |s.reported| && i < |s.clients|
    ensures var c, b, a := s.reported[k], s.reported[k].body, s.clients[i].account;
      var news := if r.valid(a, b) && r.reshare(a, b) >= 0
                  then [NewCard(if c.id == 0 then s.shareId else c.id, r.reshare(a, b))] else [];
      SendNew(r, s, k).clients[i] == Client(a, s.clients[i].msgs + news)
    ensures var c, a := s.reported[k], s.clients[i].account;
      var gone := if c.id != 0 && r.valid(a, c.body) then [CardRemoved(c.id)] else [];
      SendRemoved(r, s.clients, c)[i] == Client(a, s.clients[i].msgs + gone)
    ensures var c, b, a := s.reported[k], s.reported[k].body, s.clients[i].account;
      var news := if r.valid(a, b) && r.reshare(a, b) >= 0
                  then [NewCard(if c.id == 0 then s.shareId else c.id, r.reshare(a, b))] else [];
      ReportOne(r, s, s.clients[i], k).1 == Client(a, s.clients[i].msgs + news)
  {
    hide View;
    var c, a := s.reported[k], s.clients[i].account;
    assert Sees(r, a, c.body) ==> SomeoneSees(r, s.clients, c.body);
    assert s.clients[i].msgs + [] == s.clients[i].msgs;
  }

  // ---------------------------------------------------------------- one update

  ghost predicate Ids(s: State) {
    0 < s.shareId && AllDiffer(s.reported) && forall k :: k in s.reported ==> k.id < s.shareId
  }

  // Every client knows exactly the ids of the cards it may see, and those cards all have one.
  ghost predicate InSync(r: Rules, s: State) {
    forall i :: 0 <= i < |s.clients| ==>
      View(s.clients[i].msgs) == Visible(r, s.clients[i].account, s.reported) && 0 !in View(s.clients[i].msgs)
  }

  ghost predicate Offered(offers: seq<Card>) { forall j :: 0 <= j < |offers| ==> offers[j].id == 0 }

  // No connected client gains or loses a share because the card that carries it on is visible to
  // it where the card it replaces was not, or the other way round.
  ghost predicate VisibilityKept(r: Rules, s: State, offers: seq<Card>, now: int) {
    var m := Match(offers, s.reported, now);
    forall i, j :: 0 <= i < |s.clients| && 0 <= j < |offers| && !m.isNew[j] ==>
      (Sees(r, s.clients[i].account, m.from[j].body) <==> Sees(r, s.clients[i].account, offers[j].body))
  }

  // The same for one account.
  ghost predicate KeptFor(r: Rules, account: nat, m: Matching)
    requires |m.cards| == |m.isNew| == |m.from|
  {
    forall j :: 0 <= j < |m.from| && !m.isNew[j] ==>
      (Sees(r, account, m.from[j].body) <==> Sees(r, account, m.cards[j].body))
  }

  // The ids of replaced cards an account could see.
  ghost function Carried(r: Rules, account: nat, m: Matching): set<nat>
    requires |m.cards| == |m.isNew| == |m.from|
  {
    set j | 0 <= j < |m.from| && !m.isNew[j] && Sees(r, account, m.from[j].body) :: m.from[j].id
  }

  // After the remove messages an account knows exactly the carried ids.
  lemma OnlyCarriedLeft(r: Rules, account: nat, m: Matching, was: seq<Card>)
    requires |m.cards| == |m.isNew| == |m.from| && Covers(m, was) && StillDiffer(m)
    requires 0 !in Visible(r, account, was)
    ensures Visible(r, account, was) - Gone(r, account, m.left) == Carried(r, account, m)
  {
    var v, g, c := Visible(r, account, was), Gone(r, account, m.left), Carried(r, account, m);
    forall x | x in v && x !in g
      ensures x in c
    {
      var k :| k in was && Sees(r, account, k.body) && k.id == x;
      assert k !in m.left;
      var j :| 0 <= j < |m.from| && !m.isNew[j] && m.from[j] == k;
    }
    forall x | x in c
      ensures x in v && x !in g
    {
      var j :| 0 <= j < |m.from| && !m.isNew[j] && Sees(r, account, m.from[j].body) && m.from[j].id == x;
      assert Matched(m, m.from[j]);
      assert m.from[j] in was;
      assert forall k :: k in m.left && k.id != 0 ==> k.id != m.from[j].id;
    }
  }

  // What an account should know in the end: the ids of the cards that carry on and it may see,
  // and those of the new ones.
  lemma TargetSplits(r: Rules, account: nat, m: Matching, t: State)
    requires |m.cards| == |m.isNew| == |m.from| == |t.reported|
    requires forall j :: 0 <= j < |m.cards| ==> t.reported[j].body == m.cards[j].body
    requires forall j :: 0 <= j < |m.cards| && !m.isNew[j] ==> t.reported[j].id == m.from[j].id
    ensures forall x :: x in Visible(r, account, t.reported) <==>
              x in Fresh(r, account, t.reported, m.isNew, |m.isNew|)
              || exists j :: 0 <= j < |m.from| && !m.isNew[j] && Sees(r, account, m.cards[j].body) && m.from[j].id == x
  {
    forall x | x in Visible(r, account, t.reported)
      ensures x in Fresh(r, account, t.reported, m.isNew, |m.isNew|)
              || exists j :: 0 <= j < |m.from| && !m.isNew[j] && Sees(r, account, m.cards[j].body) && m.from[j].id == x
    {
      var k :| k in t.reported && Sees(r, account, k.body) && k.id == x;
      var j :| 0 <= j < |t.reported| && t.reported[j] == k;
    }
  }

  // The new ids an account learns are above all old ones.
  lemma FreshAreNew(r: Rules, s: State, t: State, isNew: seq<bool>, i: nat)
    requires Numbered(r, s, t, isNew, |isNew|) && i < |s.clients| && 0 < s.shareId
    ensures forall x :: x in Fresh(r, s.clients[i].account, t.reported, isNew, |isNew|) ==> s.shareId <= x
  {
    forall x | x in Fresh(r, s.clients[i].account, t.reported, isNew, |isNew|)
      ensures s.shareId <= x
    {
      var j :| 0 <= j < |isNew| && isNew[j] && Sees(r, s.clients[i].account, t.reported[j].body) &&
        t.reported[j].id == x;
      assert SomeoneSees(r, s.clients, s.reported[j].body);
    }
  }

  // One account is right after the update if and only if nothing it may see changed hands.
  lemma AccountIff(r: Rules, account: nat, m: Matching, was: seq<Card>, t: State, next: nat, news: set<nat>)
    requires |m.cards| == |m.isNew| == |m.from| == |t.reported| && Covers(m, was) && StillDiffer(m)
    requires 0 < next && forall k :: k in was ==> k.id < next
    requires 0 !in Visible(r, account, was) && forall x :: x in news ==> next <= x
    requires forall x :: x in Visible(r, account, t.reported) <==>
              x in news ||
                exists j :: 0 <= j < |m.from| && !m.isNew[j] && Sees(r, account, m.cards[j].body) && m.from[j].id == x
    ensures Carried(r, account, m) + news == Visible(r, account, t.reported) && 0 !in Visible(r, account, t.reported)
            <==> KeptFor(r, account, m)
  {
    var v, c := Visible(r, account, t.reported), Carried(r, account, m);
    forall j | 0 <= j < |m.from| && !m.isNew[j]
      ensures m.from[j].id < next && (m.from[j].id == 0 ==> !Sees(r, account, m.from[j].body))
    {
      assert Matched(m, m.from[j]);
      assert m.from[j] in was;
    }
    if KeptFor(r, account, m) {
      assert c + news == v;
    }
    if c + news == v && 0 !in v {
      forall j | 0 <= j < |m.from| && !m.isNew[j]
        ensures Sees(r, account, m.from[j].body) <==> Sees(r, account, m.cards[j].body)
      {
        var x := m.from[j].id;
        if Sees(r, account, m.cards[j].body) {
          assert x in v;
        }
        if Sees(r, account, m.from[j].body) {
          assert x in c;
          assert x in v;
        }
      }
    }
  }

  // An update leaves every client knowing exactly the shares it may see if and only if no share
  // that is carried on changes its visibility to a connected client.
  lemma UpdateSyncIff(r: Rules, s: State, offers: seq<Card>, now: int)
    requires Ids(s) && InSync(r, s) && Offered(offers)
    ensures Ids(Update(r, s, offers, now))
    ensures InSync(r, Update(r, s, offers, now)) <==> VisibilityKept(r, s, offers, now)
  {
    hide Visible, Gone, Fresh, Carried, Covers, StillDiffer, Match, SendAllNew, RemoveAll, Numbered, Sees;
    var m := Match(offers, s.reported, now);
    MatchIsOk(offers, s.reported, now);
    var u := State(s.shareId, m.cards, RemoveAll(r, s.clients, m.left));
    var t := SendAllNew(r, u, m.isNew, |offers|);
    SendAllNumbers(r, u, m.isNew, |offers|);
    UpdateIds(r, s, m, u, t);
    forall i | 0 <= i < |s.clients|
      ensures t.clients[i].account == s.clients[i].account
      ensures View(t.clients[i].msgs) == Visible(r, s.clients[i].account, t.reported) && 0 !in View(t.clients[i].msgs)
              <==> KeptFor(r, s.clients[i].account, m)
    {
      UpdateForClient(r, s, offers, now, m, u, t, i);
    }
    KeptForAll(r, s, offers, now, m);
  }

  lemma KeptForAll(r: Rules, s: State, offers: seq<Card>, now: int, m: Matching)
    requires m == Match(offers, s.reported, now) && CarriesOn(m, offers, now)
    ensures VisibilityKept(r, s, offers, now) <==>
      forall i :: 0 <= i < |s.clients| ==> KeptFor(r, s.clients[i].account, m)
  {
    hide Sees, Match;
    assert forall j :: 0 <= j < |offers| ==> m.cards[j].body == offers[j].body;
    if VisibilityKept(r, s, offers, now) {
      forall i | 0 <= i < |s.clients|
        ensures KeptFor(r, s.clients[i].account, m)
      {}
    }
    if forall i :: 0 <= i < |s.clients| ==> KeptFor(r, s.clients[i].account, m) {
      forall i, j | 0 <= i < |s.clients| && 0 <= j < |offers| && !m.isNew[j]
        ensures Sees(r, s.clients[i].account, m.from[j].body) <==> Sees(r, s.clients[i].account, offers[j].body)
      {
        assert KeptFor(r, s.clients[i].account, m);
      }
    }
  }

  lemma UpdateForClient(r: Rules, s: State, offers: seq<Card>, now: int, m: Matching, u: State, t: State, i: nat)
    requires Ids(s) && InSync(r, s) && Offered(offers) && i < |s.clients|
    requires m == Match(offers, s.reported, now) && MatchOk(m, offers, s.reported, now)
    requires u == State(s.shareId, m.cards, RemoveAll(r, s.clients, m.left))
    requires t == SendAllNew(r, u, m.isNew, |offers|) && Numbered(r, u, t, m.isNew, |offers|)
    ensures var a := s.clients[i].account;
            && t.clients[i].account == a
            && (KeptFor(r, a, m) <==>
                  View(t.clients[i].msgs) == Visible(r, a, t.reported) && 0 !in View(t.clients[i].msgs))
  {
    hide Visible, Gone, Fresh, Carried, Covers, StillDiffer, Match, SendAllNew, RemoveAll, Sees;
    var a := s.clients[i].account;
    RemoveAllViews(r, s.clients, m.left, i);
    SendAllViews(r, u, m.isNew, |offers|, i);
    OnlyCarriedLeft(r, a, m, s.reported);
    FreshAreNew(r, u, t, m.isNew, i);
    TargetSplits(r, a, m, t);
    AccountIff(r, a, m, s.reported, t, s.shareId, Fresh(r, a, t.reported, m.isNew, |m.isNew|));
  }

  lemma UpdateIds(r: Rules, s: State, m: Matching, u: State, t: State)
    requires Ids(s) && |m.cards| == |m.isNew| == |m.from|
    requires forall j :: 0 <= j < |m.cards| && !m.isNew[j] ==> m.cards[j].id == m.from[j].id
    requires Covers(m, s.reported) && StillDiffer(m)
    requires u.shareId == s.shareId && u.reported == m.cards && Numbered(r, u, t, m.isNew, |m.isNew|)
    ensures Ids(t)
  {
    hide SomeoneSees;
    forall j | 0 <= j < |m.from| && !m.isNew[j]
      ensures m.from[j].id < s.shareId
    {
      assert Matched(m, m.from[j]);
      assert m.from[j] in s.reported;
    }
  }

  // ---------------------------------------------------------------- login and disconnect

  // What ReportTo has done after n cards.
  ghost predicate Reported(r: Rules, s: State, account: nat, t: State, c: Client, n: nat) {
    && n <= |s.reported| == |t.reported| && t.clients == s.clients && c.account == account && s.shareId <= t.shareId
    && (forall j :: 0 <= j < |s.reported| ==> t.reported[j].body == s.reported[j].body)
    && (forall j :: 0 <= j < |s.reported| ==>
          if j < n && Sees(r, account, s.reported[j].body) && s.reported[j].id == 0
          then s.shareId <= t.reported[j].id < t.shareId
          else t.reported[j].id == s.reported[j].id)
    && AllDiffer(t.reported) && (forall j :: 0 <= j < |t.reported| ==> t.reported[j].id < t.shareId)
    && View(c.msgs) == Told(r, account, t.reported, n)
  }

  ghost function Told(r: Rules, account: nat, cards: seq<Card>, n: nat): set<nat>
    requires n <= |cards|
  {
    set j | 0 <= j < n && Sees(r, account, cards[j].body) :: cards[j].id
  }

  lemma ToldOneMore(r: Rules, account: nat, cards: seq<Card>, cards': seq<Card>, n: nat)
    requires 0 < n <= |cards| == |cards'| && forall j :: 0 <= j < n - 1 ==> cards'[j] == cards[j]
    ensures Told(r, account, cards', n)
            == Told(r, account, cards, n - 1) +
              (if Sees(r, account, cards'[n - 1].body) then {cards'[n - 1].id} else {})
  {}

  lemma ToldAll(r: Rules, account: nat, cards: seq<Card>)
    ensures Told(r, account, cards, |cards|) == Visible(r, account, cards)
  {
    forall x | x in Visible(r, account, cards)
      ensures x in Told(r, account, cards, |cards|)
    {
      var k :| k in cards && Sees(r, account, k.body) && k.id == x;
      var j :| 0 <= j < |cards| && cards[j] == k;
    }
  }

  lemma {:induction false} ReportToSpec(r: Rules, s: State, account: nat, n: nat)
    requires Ids(s) && n <= |s.reported|
    ensures var (t, c) := ReportTo(r, s, account, n); Reported(r, s, account, t, c, n)
    decreases n
  {
    hide Sees;
    assert forall j :: 0 <= j < |s.reported| ==> s.reported[j] in s.reported;
    if n != 0 {
      ReportToSpec(r, s, account, n - 1);
      assert forall j :: 0 <= j < |s.reported| ==> s.reported[j] in s.reported;
      var (t, c) := ReportTo(r, s, account, n - 1);
      ReportOneMore(r, s, account, t, c, n);
    }
  }

  lemma ReportOneMore(r: Rules, s: State, account: nat, t: State, c: Client, n: nat)
    requires 0 < n <= |s.reported| == |t.reported| && Reported(r, s, account, t, c, n - 1)
    ensures var (t', c') := ReportOne(r, t, c, n - 1); Reported(r, s, account, t', c', n)
  {
    hide Sees, Told, View;
    var (t', c') := ReportOne(r, t, c, n - 1);
    ToldOneMore(r, account, t.reported, t'.reported, n);
  }

  lemma ConnectSync(r: Rules, s: State, account: nat)
    requires Ids(s) && InSync(r, s)
    ensures Ids(Connect(r, s, account)) && InSync(r, Connect(r, s, account))
  {
    hide Sees, Told, Visible;
    var n := |s.reported|;
    ReportToSpec(r, s, account, n);
    var (t, c) := ReportTo(r, s, account, n);
    forall i | 0 <= i < |s.clients|
      ensures Visible(r, s.clients[i].account, t.reported) == Visible(r, s.clients[i].account, s.reported)
    {
      SameForOthers(r, s, account, t, c, i);
    }
    ToldAll(r, account, t.reported);
    NewClientNumbered(r, s, account, t, c);
  }

  lemma NewClientNumbered(r: Rules, s: State, account: nat, t: State, c: Client)
    requires Ids(s) && Reported(r, s, account, t, c, |s.reported|)
    ensures Ids(t) && 0 !in View(c.msgs)
  {
    hide Sees;
    assert forall j :: 0 <= j < |s.reported| ==> s.reported[j] in s.reported;
  }

  lemma SameForOthers(r: Rules, s: State, account: nat, t: State, c: Client, i: nat)
    requires Ids(s) && InSync(r, s) && Reported(r, s, account, t, c, |s.reported|) && i < |s.clients|
    ensures Visible(r, s.clients[i].account, t.reported) == Visible(r, s.clients[i].account, s.reported)
  {
    hide Sees;
    var a := s.clients[i].account;
    forall j | 0 <= j < |s.reported| && Sees(r, a, s.reported[j].body)
      ensures t.reported[j].id == s.reported[j].id
    {
      assert s.reported[j] in s.reported;
      assert s.reported[j].id in Visible(r, a, s.reported);
    }
    forall x | x in Visible(r, a, t.reported)
      ensures x in Visible(r, a, s.reported)
    {
      var k :| k in t.reported && Sees(r, a, k.body) && k.id == x;
      var j :| 0 <= j < |t.reported| && t.reported[j] == k;
      assert s.reported[j] in s.reported;
    }
    forall x | x in Visible(r, a, s.reported)
      ensures x in Visible(r, a, t.reported)
    {
      var k :| k in s.reported && Sees(r, a, k.body) && k.id == x;
      var j :| 0 <= j < |s.reported| && s.reported[j] == k;
      assert t.reported[j] in t.reported;
    }
  }

  lemma DisconnectSync(r: Rules, s: State, i: nat)
    requires Ids(s) && InSync(r, s) && i < |s.clients|
    ensures Ids(Disconnect(s, i)) && InSync(r, Disconnect(s, i))
  {}

  // ---------------------------------------------------------------- whole runs

  datatype Event =
    | Refresh(offers: seq<Card>, now: int)
    | Login(account: nat)
    | Logout(client: nat)

  ghost predicate Enabled(s: State, e: Event) {
    match e
    case Refresh(offers, _) => Offered(offers)
    case Login(_) => true
    case Logout(i) => i < |s.clients|
  }

  function Next(r: Rules, s: State, e: Event): State
    requires e.Logout? ==> e.client < |s.clients|
  {
    match e
    case Refresh(offers, now) => Update(r, s, offers, now)
    case Login(account) => Connect(r, s, account)
    case Logout(i) => Disconnect(s, i)
  }

  const START := State(FIRST_SHARE_ID, [], [])

  ghost predicate IsRun(r: Rules, states: seq<State>, events: seq<Event>) {
    && |states| == |events| + 1 && states[0] == START
    && (forall i :: 0 <= i < |events| ==>
      Enabled(states[i], events[i]) && states[i + 1] == Next(r, states[i], events[i]))
  }

  // Every refresh of the run keeps the visibility of the shares it carries on.
  ghost predicate Steady(r: Rules, states: seq<State>, events: seq<Event>)
    requires |states| == |events| + 1
  {
    forall i :: 0 <= i < |events| && events[i].Refresh? ==>
      VisibilityKept(r, states[i], events[i].offers, events[i].now)
  }

  lemma {:induction false} RunIds(r: Rules, states: seq<State>, events: seq<Event>, n: nat)
    requires IsRun(r, states, events) && n < |states|
    ensures Ids(states[n])
    decreases n
  {
    if n != 0 {
      RunIds(r, states, events, n - 1);
      NextIds(r, states[n - 1], events[n - 1]);
    }
  }

  lemma NextIds(r: Rules, s: State, e: Event)
    requires Ids(s) && Enabled(s, e)
    ensures Ids(Next(r, s, e)) && s.shareId <= Next(r, s, e).shareId
  {
    hide Sees;
    match e
    case Refresh(offers, now) => UpdateKeepsIds(r, s, offers, now);
    case Login(account) =>
      ReportToSpec(r, s, account, |s.reported|);
      assert forall j :: 0 <= j < |s.reported| ==> s.reported[j] in s.reported;
    case Logout(_) =>
  }

  lemma UpdateKeepsIds(r: Rules, s: State, offers: seq<Card>, now: int)
    requires Ids(s) && Offered(offers)
    ensures Ids(Update(r, s, offers, now)) && s.shareId <= Update(r, s, offers, now).shareId
  {
    hide Match, SendAllNew, RemoveAll, Covers, StillDiffer, Sees;
    var m := Match(offers, s.reported, now);
    MatchIsOk(offers, s.reported, now);
    var u := State(s.shareId, m.cards, RemoveAll(r, s.clients, m.left));
    SendAllNumbers(r, u, m.isNew, |offers|);
    UpdateIds(r, s, m, u, SendAllNew(r, u, m.isNew, |offers|));
  }

  // In every state of every such run each connected client knows, from its messages alone,
  // exactly the ids of the cards in the reported list that it may see.
  lemma {:induction false} ClientsTrackShares(r: Rules, states: seq<State>, events: seq<Event>, n: nat)
    requires IsRun(r, states, events) && Steady(r, states, events) && n < |states|
    ensures Ids(states[n]) && InSync(r, states[n])
    decreases n
  {
    hide VisibilityKept, Update, Connect;
    if n != 0 {
      ClientsTrackShares(r, states, events, n - 1);
      var s, e := states[n - 1], events[n - 1];
      match e
      case Refresh(offers, now) => UpdateSyncIff(r, s, offers, now);
      case Login(account) => ConnectSync(r, s, account);
      case Logout(i) => DisconnectSync(r, s, i);
    }
  }

  // ---------------------------------------------------------------- ids and classes

  // A numbered card after a step either got a new id or has an id, and the class that goes with
  // it, from the list before.
  ghost predicate FromBefore(s: State, k: Card) {
    k.id == 0 || s.shareId <= k.id || exists o :: o in s.reported && o.id == k.id && ClassOf(o.body) == ClassOf(k.body)
  }

  lemma NextFromBefore(r: Rules, s: State, e: Event, k: Card)
    requires Ids(s) && Enabled(s, e) && k in Next(r, s, e).reported
    ensures FromBefore(s, k)
  {
    hide Sees;
    match e
    case Refresh(offers, now) => UpdateFromBefore(r, s, offers, now, k);
    case Login(account) =>
      ReportToSpec(r, s, account, |s.reported|);
      var t := Connect(r, s, account);
      var j :| 0 <= j < |t.reported| && t.reported[j] == k;
      assert s.reported[j] in s.reported;
    case Logout(_) =>
  }

  lemma UpdateFromBefore(r: Rules, s: State, offers: seq<Card>, now: int, k: Card)
    requires Ids(s) && Offered(offers) && k in Update(r, s, offers, now).reported
    ensures FromBefore(s, k)
  {
    hide Match, SendAllNew, RemoveAll, StillDiffer, Sees, SameCard, ClassOf;
    var m := Match(offers, s.reported, now);
    MatchIsOk(offers, s.reported, now);
    var u := State(s.shareId, m.cards, RemoveAll(r, s.clients, m.left));
    var t := SendAllNew(r, u, m.isNew, |offers|);
    SendAllNumbers(r, u, m.isNew, |offers|);
    var j :| 0 <= j < |t.reported| && t.reported[j] == k;
    if !m.isNew[j] {
      assert Matched(m, m.from[j]);
      assert m.from[j] in s.reported;
      SameCardIffClass(offers[j].body, m.from[j].body);
    }
  }

  // An id in use before some state of the run still stands for a card of that state's list.
  lemma {:induction false} OldIdsGoBack(r: Rules, states: seq<State>, events: seq<Event>, i: nat, n: nat, k: Card)
    requires IsRun(r, states, events) && i <= n < |states| && k in states[n].reported && 0 < k.id < states[i].shareId
    ensures exists o :: o in states[i].reported && o.id == k.id && ClassOf(o.body) == ClassOf(k.body)
    decreases n
  {
    hide ClassOf, Next;
    if i < n {
      RunIds(r, states, events, n - 1);
      ShareIdGrows(r, states, events, i, n - 1);
      NextFromBefore(r, states[n - 1], events[n - 1], k);
      var o :| o in states[n - 1].reported && o.id == k.id && ClassOf(o.body) == ClassOf(k.body);
      OldIdsGoBack(r, states, events, i, n - 1, o);
    }
  }

  lemma {:induction false} ShareIdGrows(r: Rules, states: seq<State>, events: seq<Event>, i: nat, n: nat)
    requires IsRun(r, states, events) && i <= n < |states|
    ensures states[i].shareId <= states[n].shareId
    decreases n
  {
    hide Next;
    if i < n {
      ShareIdGrows(r, states, events, i, n - 1);
      RunIds(r, states, events, n - 1);
      NextIds(r, states[n - 1], events[n - 1]);
    }
  }

  // Over a whole run an id never stands for cards of two different classes, and within one list
  // it stands for one card.
  lemma IdsKeepTheirClass(r: Rules, states: seq<State>, events: seq<Event>, i: nat, n: nat, a: Card, b: Card)
    requires IsRun(r, states, events) && i <= n < |states|
    requires a in states[i].reported && b in states[n].reported && a.id == b.id != 0
    ensures SameCard(a.body, b.body)
  {
    hide ClassOf, Next;
    RunIds(r, states, events, i);
    OldIdsGoBack(r, states, events, i, n, b);
    var o :| o in states[i].reported && o.id == b.id && ClassOf(o.body) == ClassOf(b.body);
    var s := states[i].reported;
    var p :| 0 <= p < |s| && s[p] == o;
    var q :| 0 <= q < |s| && s[q] == a;
    assert p == q;
    SameCardIffClass(a.body, b.body);
  }

  // ---------------------------------------------------------------- a share keeps its id

  // The card find_reported_card takes for the class of b.
  ghost predicate Takes(list: seq<Card>, b: Body, now: int, k: Card) {
    var i := Find(list, b, now);
    i < |list| && list[i] == k
  }

  lemma FindIs(list: seq<Card>, b: Body, now: int, i: nat)
    requires i < |list| && SameCard(b, list[i].body) && !TimedOut(list[i], now)
    requires forall j :: 0 <= j < i ==> !(SameCard(b, list[j].body) && !TimedOut(list[j], now))
    ensures Find(list, b, now) == i
  {
    hide SameCard, TimedOut;
  }

  // Taking a card of another class out of the list does not matter.
  lemma OtherClassGone(list: seq<Card>, b: Body, now: int, k: Card, x: nat)
    requires Takes(list, b, now, k) && x < |list| && !SameCard(b, list[x].body)
    ensures Takes(Without(list, x), b, now, k)
  {
    hide SameCard, TimedOut;
    var i, rest := Find(list, b, now), Without(list, x);
    var i' := if i < x then i else i - 1;
    assert forall j :: 0 <= j < |rest| ==> rest[j] == if j < x then list[j] else list[j + 1];
    FindIs(rest, b, now, i');
  }

  lemma {:induction false} StillTaken(offers: seq<Card>, was: seq<Card>, now: int, b: Body, k: Card)
    requires Takes(was, b, now, k) && forall i :: 0 <= i < |offers| ==> !SameCard(offers[i].body, b)
    ensures Takes(Match(offers, was, now).left, b, now, k)
    decreases |offers|
  {
    if offers != [] {
      var n := |offers| - 1;
      StillTaken(offers[..n], was, now, b, k);
      var m := Match(offers[..n], was, now);
      var x := Find(m.left, offers[n].body, now);
      if x < |m.left| {
        DifferentClasses(offers[n].body, m.left[x].body, b);
        OtherClassGone(m.left, b, now, k, x);
      }
    }
  }

  lemma DifferentClasses(a: Body, c: Body, b: Body)
    requires SameCard(a, c) && !SameCard(a, b)
    ensures !SameCard(b, c)
  {
    SameCardIffClass(a, c);
    SameCardIffClass(a, b);
    SameCardIffClass(b, c);
  }

  lemma {:induction false} EarlierMatchesStand(offers: seq<Card>, was: seq<Card>, now: int, j: nat)
    requires j < |offers|
    ensures var m, m1 := Match(offers, was, now), Match(offers[..j + 1], was, now);
            m.cards[j] == m1.cards[j] && m.isNew[j] == m1.isNew[j]
    decreases |offers|
  {
    if j + 1 < |offers| {
      var n := |offers| - 1;
      EarlierMatchesStand(offers[..n], was, now, j);
      assert offers[..n][..j + 1] == offers[..j + 1];
    } else {
      assert offers[..j + 1] == offers;
    }
  }

  // The first offered card of a class carries on the id of the first reported card of that class
  // that has not timed out.
  lemma OfferedShareKeepsId(r: Rules, s: State, offers: seq<Card>, now: int, p: nat, j: nat)
    requires Ids(s) && Offered(offers) && p < |s.reported| && j < |offers|
    requires SameCard(offers[j].body, s.reported[p].body) && !TimedOut(s.reported[p], now)
    requires forall q :: 0 <= q < p ==> !(SameCard(offers[j].body, s.reported[q].body) && !TimedOut(s.reported[q], now))
    requires forall i :: 0 <= i < j ==> !SameCard(offers[i].body, offers[j].body)
    ensures Update(r, s, offers, now).reported[j] ==
      offers[j].(id := s.reported[p].id, timeout := s.reported[p].timeout)
  {
    hide SameCard, TimedOut, SendAllNew, RemoveAll;
    var b, was := offers[j].body, s.reported;
    FindIs(was, b, now, p);
    StillTaken(offers[..j], was, now, b, was[p]);
    assert offers[..j + 1][..j] == offers[..j];
    EarlierMatchesStand(offers, was, now, j);
    var m := Match(offers, was, now);
    MatchIsOk(offers, was, now);
    SendAllNumbers(r, State(s.shareId, m.cards, RemoveAll(r, s.clients, m.left)), m.isNew, |offers|);
  }

  // The first card of the class of b, or the end of the list
  function FirstSame(cards: seq<Card>, b: Body): (i: nat)
    ensures i <= |cards| && (i < |cards| ==> SameCard(b, cards[i].body))
    ensures forall j :: 0 <= j < i ==> !SameCard(b, cards[j].body)
    decreases |cards|
  {
    if cards == [] || SameCard(b, cards[0].body) then 0
    else
      var i := FirstSame(cards[1..], b);
      assert forall j :: 0 < j < i + 1 ==> cards[j] == cards[1..][j - 1];
      i + 1
  }

  lemma UpdateBodies(r: Rules, s: State, offers: seq<Card>, now: int)
    requires Ids(s) && Offered(offers)
    ensures |Update(r, s, offers, now).reported| == |offers|
    ensures forall j :: 0 <= j < |offers| ==> Update(r, s, offers, now).reported[j].body == offers[j].body
  {
    hide Match, SendAllNew, RemoveAll, Covers, StillDiffer, Sees;
    var m := Match(offers, s.reported, now);
    MatchIsOk(offers, s.reported, now);
    var u := State(s.shareId, m.cards, RemoveAll(r, s.clients, m.left));
    SendAllNumbers(r, u, m.isNew, |offers|);
  }

  lemma FirstSameIs(cards: seq<Card>, b: Body, j: nat)
    requires j < |cards| && SameCard(b, cards[j].body) && forall i :: 0 <= i < j ==> !SameCard(b, cards[i].body)
    ensures FirstSame(cards, b) == j
  {
    hide SameCard, FirstSame;
  }

  lemma SameClass(a: Body, b: Body, c: Body)
    ensures SameCard(a, b) ==> (SameCard(a, c) <==> SameCard(b, c)) && (SameCard(c, a) <==> SameCard(c, b))
    ensures SameCard(a, b) <==> SameCard(b, a)
  {
    SameCardIffClass(a, b);
    SameCardIffClass(b, a);
    SameCardIffClass(a, c);
    SameCardIffClass(b, c);
    SameCardIffClass(c, a);
    SameCardIffClass(c, b);
  }

  // The id of the first card of the class of b, 0 if there is none or it has none
  function IdOf(cards: seq<Card>, b: Body): nat {
    var i := FirstSame(cards, b);
    if i < |cards| then cards[i].id else 0
  }

  // The class of b is offered, and its first reported card has not timed out.
  predicate OfferedInTime(s: State, offers: seq<Card>, now: int, b: Body) {
    && FirstSame(offers, b) < |offers| && FirstSame(s.reported, b) < |s.reported|
    && !TimedOut(s.reported[FirstSame(s.reported, b)], now)
  }

  lemma UpdateKeepsId(r: Rules, s: State, offers: seq<Card>, now: int, b: Body)
    requires Ids(s) && Offered(offers) && OfferedInTime(s, offers, now, b)
    ensures IdOf(Update(r, s, offers, now).reported, b) == IdOf(s.reported, b)
  {
    hide SameCard, TimedOut, Update, FirstSame;
    var p, j := FirstSame(s.reported, b), FirstSame(offers, b);
    SameClass(b, offers[j].body, s.reported[p].body);
    forall q | 0 <= q < p ensures !SameCard(offers[j].body, s.reported[q].body) {
      SameClass(b, offers[j].body, s.reported[q].body);
    }
    forall i | 0 <= i < j ensures !SameCard(offers[i].body, offers[j].body) {
      SameClass(b, offers[j].body, offers[i].body);
      SameClass(offers[i].body, b, b);
      SameClass(offers[j].body, offers[i].body, b);
    }
    OfferedShareKeepsId(r, s, offers, now, p, j);
    UpdateBodies(r, s, offers, now);
    FirstSameIs(Update(r, s, offers, now).reported, b, j);
  }

  lemma LoginKeepsId(r: Rules, s: State, account: nat, b: Body)
    requires Ids(s) && IdOf(s.reported, b) != 0
    ensures IdOf(Connect(r, s, account).reported, b) == IdOf(s.reported, b)
  {
    hide SameCard, FirstSame, ReportTo, Sees, Told;
    ReportToSpec(r, s, account, |s.reported|);
    FirstSameIs(Connect(r, s, account).reported, b, FirstSame(s.reported, b));
  }

  // A share that every refresh of a stretch of the run offers, and that has not timed out at any
  // of them, keeps its id throughout.
  lemma {:induction false} StayingShareKeepsId(
    r: Rules, states: seq<State>, events: seq<Event>, b: Body, m: nat, n: nat)
    requires IsRun(r, states, events) && m <= n < |states| && IdOf(states[m].reported, b) != 0
    requires forall k :: m <= k < n && events[k].Refresh? ==>
      OfferedInTime(states[k], events[k].offers, events[k].now, b)
    ensures IdOf(states[n].reported, b) == IdOf(states[m].reported, b)
    decreases n
  {
    hide IdOf, OfferedInTime, Update, Connect;
    if m < n {
      StayingShareKeepsId(r, states, events, b, m, n - 1);
      RunIds(r, states, events, n - 1);
      match events[n - 1]
      case Refresh(offers, now) => UpdateKeepsId(r, states[n - 1], offers, now, b);
      case Login(account) => LoginKeepsId(r, states[n - 1], account, b);
      case Logout(_) =>
    }
  }

  // A card that came from another server has card type 10 and keeps its id for as long as every
  // refresh offers its class, whatever the clock says.
  lemma {:induction false} RemoteShareKeepsId(
    r: Rules, states: seq<State>, events: seq<Event>, b: Body, m: nat, n: nat)
    requires IsRun(r, states, events) && m <= n < |states| && IdOf(states[m].reported, b) != 0 && b.cardType == 10
    requires forall k :: m <= k < n && events[k].Refresh? ==>
      FirstSame(events[k].offers, b) < |events[k].offers|
    ensures IdOf(states[n].reported, b) == IdOf(states[m].reported, b)
    decreases n
  {
    hide Update, Connect, FirstSame;
    if m < n {
      RemoteShareKeepsId(r, states, events, b, m, n - 1);
      RunIds(r, states, events, n - 1);
      match events[n - 1]
      case Refresh(offers, now) => UpdateKeepsId(r, states[n - 1], offers, now, b);
      case Login(account) => LoginKeepsId(r, states[n - 1], account, b);
      case Logout(_) =>
    }
  }

  // Of a class with one reported card, the first card offered carries the id on if and only if the
  // card has card type 10 or its timeout is not below the clock.
  lemma ShareCarriedIff(r: Rules, s: State, offers: seq<Card>, now: int, p: nat, j: nat)
    requires Ids(s) && Offered(offers) && p < |s.reported| && j < |offers| && s.reported[p].id != 0
    requires SameCard(offers[j].body, s.reported[p].body)
    requires forall q :: 0 <= q < |s.reported| && q != p ==> !SameCard(offers[j].body, s.reported[q].body)
    requires forall i :: 0 <= i < j ==> !SameCard(offers[i].body, offers[j].body)
    ensures |Update(r, s, offers, now).reported| == |offers|
    ensures Update(r, s, offers, now).reported[j].id == s.reported[p].id <==>
      s.reported[p].body.cardType == 10 || s.reported[p].timeout >= now
  {
    hide SameCard, Update;
    UpdateBodies(r, s, offers, now);
    if s.reported[p].body.cardType == 10 || s.reported[p].timeout >= now {
      OfferedShareKeepsId(r, s, offers, now, p, j);
    } else {
      LateShareIsNew(r, s, offers, now, j);
    }
  }

  lemma TakenWasReported(m: Matching, was: seq<Card>, j: nat)
    requires Covers(m, was) && j < |m.from| && !m.isNew[j]
    ensures m.from[j] in was
  {
    assert Matched(m, m.from[j]);
  }

  // An offered card no reported one carries on is new.
  lemma LateShareIsNew(r: Rules, s: State, offers: seq<Card>, now: int, j: nat)
    requires Ids(s) && Offered(offers) && j < |offers|
    requires forall k :: k in s.reported ==> !SameCard(offers[j].body, k.body) || TimedOut(k, now)
    ensures |Update(r, s, offers, now).reported| == |offers|
    ensures var id := Update(r, s, offers, now).reported[j].id; id == 0 || s.shareId <= id
  {
    hide Match, SendAllNew, RemoveAll, StillDiffer, Sees, SameCard, TimedOut;
    var m := Match(offers, s.reported, now);
    MatchIsOk(offers, s.reported, now);
    if !m.isNew[j] {
      TakenWasReported(m, s.reported, j);
      assert false;
    }
    var u := State(s.shareId, m.cards, RemoveAll(r, s.clients, m.left));
    SendAllNumbers(r, u, m.isNew, |offers|);
  }

  // A share that carries on with fewer hops than before becomes visible to a client that is
  // never told: the condition of UpdateSyncIff can fail.
  lemma VisibilityChangeMissed()
    ensures exists r: Rules, s: State, offers: seq<Card> ::
              Ids(s) && InSync(r, s) && Offered(offers) && !InSync(r, Update(r, s, offers, 0))
  {
    hide Update, Match;
    var r := Rules((a: nat, b: Body) => b.hop <= a, (a: nat, b: Body) => 0);
    var far := Body(1, 2, CT_REMOTECARD, 0, 0, [], 2, 1, [], 0, 0);
    var near := far.(hop := 1);
    var s := State(FIRST_SHARE_ID, [Card(0, 0, far)], [Client(1, [])]);
    var offers := [Card(0, 0, near)];
    assert InSync(r, s) by {
      assert Visible(r, 1, s.reported) == {};
    }
    FindIs(s.reported, near, 0, 0);
    MatchOne(offers[0], s.reported, 0);
    assert Sees(r, 1, near) && !Sees(r, 1, far);
    assert !(Sees(r, s.clients[0].account, s.reported[0].body) <==> Sees(r, s.clients[0].account, offers[0].body));
    assert !VisibilityKept(r, s, offers, 0);
    UpdateSyncIff(r, s, offers, 0);
  }

  lemma MatchOne(c: Card, was: seq<Card>, now: int)
    requires Find(was, c.body, now) < |was|
    ensures var m := Match([c], was, now); |m.isNew| == 1 && !m.isNew[0] && m.from[0] == was[Find(was, c.body, now)]
  {
    hide Find;
    assert [c][..0] == [];
  }
}
