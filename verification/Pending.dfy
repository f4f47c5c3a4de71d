// The table of ECM requests a network reader has sent and not seen answered (oscam-reader.c).
module Pending {

  // ecm->rc of a request that waits for its answer
  const WAITING: nat := 10
  const MAX_IDX: nat := 0x1ffe

  // One entry of ecmtask[]. ticket numbers the requests accepted, from 0 on.
  datatype Slot = Slot(rc: nat, idx: nat, caid: nat, digest: seq<nat>, level: int, time: int, cw: seq<nat>, ticket: nat)

  // What ends a request: write_ecm_answer, a timeout, or a connection that is closed.
  datatype Event = Answered(ticket: nat, rc: nat, cw: seq<nat>) | TimedOut(ticket: nat) | Dropped(ticket: nat)

  datatype Request = Request(caid: nat, digest: seq<nat>, level: int, time: int, cw: seq<nat>)

  predicate Waiting(s: Slot) { s.rc >= WAITING }

  predicate SameEcm(s: Slot, caid: nat, digest: seq<nat>) { s.caid == caid && s.digest == digest }

  // ---------------------------------------------------------------- one pass over the table

  // What a loop over all slots does to each of them: casc_check_dcw for the slot named, the loop
  // at the start of casc_process_ecm, and the one in network_tcp_connection_close. patience is
  // the number of seconds after which a request times out.
  datatype Pass =
    | Answer(named: nat, caid: nat, digest: seq<nat>, rc: int, cw: seq<nat>, now: int, patience: int)
    | Expire(now: int, patience: int)
    | Close

  predicate Late(s: Slot, now: int, patience: int) { Waiting(s) && now - s.time > patience }

  predicate Hit(p: Pass, s: Slot) { p.Answer? && Waiting(s) && SameEcm(s, p.caid, p.digest) }

  function After(p: Pass, i: nat, s: Slot): Slot {
    match p
    case Answer(named, caid, digest, rc, cw, now, patience) =>
      if Hit(p, s) then
        if rc == 0 then s.(rc := 0, idx := 0) else s.(rc := if i == named then 1 else 2, cw := cw, idx := 0)
      else if Late(s, now, patience) then s.(rc := 0)
      else s
    case Expire(now, patience) => if Late(s, now, patience) then s.(rc := 0) else s
    case Close => s.(rc := 0, idx := 0)
  }

  function Events(p: Pass, i: nat, s: Slot): seq<Event> {
    match p
    case Answer(_, _, _, _, _, now, patience) =>
      if Hit(p, s) then [Answered(s.ticket, After(p, i, s).rc, After(p, i, s).cw)]
      else if Late(s, now, patience) then [TimedOut(s.ticket)]
      else []
    case Expire(now, patience) => if Late(s, now, patience) then [TimedOut(s.ticket)] else []
    case Close => if Waiting(s) then [Dropped(s.ticket)] else []
  }

  function Passed(p: Pass, slots: seq<Slot>): (r: seq<Slot>)
    ensures |r| == |slots| && forall i :: 0 <= i < |slots| ==> r[i] == After(p, i, slots[i])
    decreases |slots|
  {
    if slots == [] then []
    else Passed(p, slots[..|slots| - 1]) + [After(p, |slots| - 1, slots[|slots| - 1])]
  }

  function PassEvents(p: Pass, slots: seq<Slot>): seq<Event>
    decreases |slots|
  {
    if slots == [] then []
    else PassEvents(p, slots[..|slots| - 1]) + Events(p, |slots| - 1, slots[|slots| - 1])
  }

  function NumWaiting(slots: seq<Slot>): nat
    decreases |slots|
  {
    if slots == [] then 0 else NumWaiting(slots[..|slots| - 1]) + if Waiting(slots[|slots| - 1]) then 1 else 0
  }

  // ---------------------------------------------------------------- the calls, as values

  datatype State = State(slots: seq<Slot>, idx: nat, lastIdx: nat, accepted: nat, log: seq<Event>)

  function Do(p: Pass, s: State): State { s.(slots := Passed(p, s.slots), log := s.log + PassEvents(p, s.slots)) }

  // casc_check_dcw
  function CheckDcw(s: State, n: nat, rc: int, cw: seq<nat>, now: int, patience: int): State
    requires n < |s.slots|
  {
    Do(Answer(n, s.slots[n].caid, s.slots[n].digest, rc, cw, now, patience), s)
  }

  function FirstIdx(slots: seq<Slot>, idx: nat): (i: nat)
    ensures i <= |slots| && (forall j :: 0 <= j < i ==> slots[j].idx != idx) && (i < |slots| ==> slots[i].idx == idx)
    decreases |slots|
  {
    if slots == [] || slots[0].idx == idx then 0
    else
      var i := FirstIdx(slots[1..], idx);
      assert forall j :: 0 < j < i + 1 ==> slots[j] == slots[1..][j - 1];
      i + 1
  }

  // The end of casc_do_sock: idx is what c_recv_chk returned
  function Receive(s: State, idx: int, rc: int, cw: seq<nat>, now: int, patience: int): State {
    if idx < 0 then s
    else
      var i := FirstIdx(s.slots, if idx == 0 then s.lastIdx else idx);
      if i < |s.slots| then CheckDcw(s, i, rc, cw, now, patience) else s
  }

  function FirstFree(slots: seq<Slot>): (i: nat)
    ensures i <= |slots| && (forall j :: 0 <= j < i ==> Waiting(slots[j])) && (i < |slots| ==> !Waiting(slots[i]))
    decreases |slots|
  {
    if slots == [] || !Waiting(slots[0]) then 0
    else
      var i := FirstFree(slots[1..]);
      assert forall j :: 0 < j < i + 1 ==> slots[j] == slots[1..][j - 1];
      i + 1
  }

  // An equal request of this level at least waits already.
  predicate Asked(slots: seq<Slot>, er: Request) {
    exists i :: 0 <= i < |slots| && Waiting(slots[i]) && SameEcm(slots[i], er.caid, er.digest) &&
      er.level <= slots[i].level
  }

  // What is outside the table when a request comes: the Newcamd message id if the reader is one,
  // whether the connection is closed before sending, and whether sending fails.
  datatype Setting = Setting(newcamd: bool, msgid: nat, closes: bool, sendFails: bool, now: int, patience: int)

  function Accept(s: State, n: nat, er: Request, env: Setting): State
    requires n < |s.slots|
  {
    var idx := if env.newcamd then (if env.msgid == 0 then 2 else env.msgid + 1) else if s.idx == 0 then 1 else s.idx;
    s.(slots := s.slots[n := Slot(WAITING, idx, er.caid, er.digest, er.level, er.time, er.cw, s.accepted)],
       idx := if env.newcamd then s.idx else idx + 1, accepted := s.accepted + 1)
  }

  // The request in slot n is sent if sflag says so; a connection idle for too long is closed
  // before that.
  function Sent(s: State, n: nat, sflag: bool, env: Setting): State
    requires n < |s.slots|
  {
    var c := if env.closes then Do(Close, s) else s;
    var d :=
      if !sflag then c
      else if env.sendFails then CheckDcw(c, n, 0, c.slots[n].cw, env.now, env.patience)
      else c.(lastIdx := c.slots[n].idx);
    d.(idx := if d.idx > MAX_IDX then 1 else d.idx)
  }

  // casc_process_ecm up to waiting for the answer: the table after it, whether the request was
  // accepted (it is not when the table overflows), and whether it was sent.
  function Process(s: State, er: Request, env: Setting): (r: (State, bool, bool)) {
    var e := Do(Expire(env.now, env.patience), s);
    var n := FirstFree(e.slots);
    if n == |e.slots| then (e, false, false)
    else
      var sflag := !Asked(e.slots, er);
      var a := Accept(e, n, er, env);
      (Sent(a, n, sflag, env), true, sflag)
  }

  // ---------------------------------------------------------------- conservation

  function CountWaiting(slots: seq<Slot>, ticket: nat): nat
    decreases |slots|
  {
    if slots == [] then 0
    else
      var s := slots[|slots| - 1];
      CountWaiting(slots[..|slots| - 1], ticket) + if Waiting(s) && s.ticket == ticket then 1 else 0
  }

  function CountEnded(log: seq<Event>, ticket: nat): nat
    decreases |log|
  {
    if log == [] then 0
    else CountEnded(log[..|log| - 1], ticket) + if log[|log| - 1].ticket == ticket then 1 else 0
  }

  lemma {:induction false} CountEndedBoth(a: seq<Event>, b: seq<Event>, ticket: nat)
    ensures CountEnded(a + b, ticket) == CountEnded(a, ticket) + CountEnded(b, ticket)
    decreases |b|
  {
    if b == [] {
      assert a + b == a;
    } else {
      assert (a + b)[..|a + b| - 1] == a + b[..|b| - 1];
      CountEndedBoth(a, b[..|b| - 1], ticket);
    }
  }

  lemma SlotConserves(p: Pass, i: nat, s: Slot, ticket: nat)
    ensures CountEnded(Events(p, i, s), ticket) ==
      (if Waiting(s) && s.ticket == ticket then 1 else 0)
      - (if Waiting(After(p, i, s)) && After(p, i, s).ticket == ticket then 1 else 0)
    ensures |Events(p, i, s)| == (if Waiting(s) then 1 else 0) - (if Waiting(After(p, i, s)) then 1 else 0)
    ensures After(p, i, s).ticket == s.ticket && (Waiting(After(p, i, s)) ==> After(p, i, s) == s)
  {
    assert CountEnded([], ticket) == 0;
    var e := Events(p, i, s);
    if e != [] {
      assert e[..0] == [];
      assert e == [e[0]];
    }
  }

  lemma {:induction false} PassConserves(p: Pass, slots: seq<Slot>, ticket: nat)
    ensures CountWaiting(slots, ticket) ==
      CountWaiting(Passed(p, slots), ticket) + CountEnded(PassEvents(p, slots), ticket)
    ensures NumWaiting(slots) == NumWaiting(Passed(p, slots)) + |PassEvents(p, slots)|
    decreases |slots|
  {
    hide Events, After, CountEnded;
    if slots != [] {
      var n := |slots| - 1;
      var init := slots[..n];
      PassConserves(p, init, ticket);
      assert Passed(p, slots)[..n] == Passed(p, init);
      SlotConserves(p, n, slots[n], ticket);
      CountEndedBoth(PassEvents(p, init), Events(p, n, slots[n]), ticket);
    } else {
      assert CountEnded([], ticket) == 0 by { CountEndedEmpty(ticket); }
    }
  }

  lemma CountEndedEmpty(ticket: nat)
    ensures CountEnded([], ticket) == 0
  {
  }

  lemma {:induction false} CountsAfterUpdate(slots: seq<Slot>, n: nat, x: Slot, ticket: nat)
    requires n < |slots| && !Waiting(slots[n]) && Waiting(x)
    ensures CountWaiting(slots[n := x], ticket) == CountWaiting(slots, ticket) + if x.ticket == ticket then 1 else 0
    ensures NumWaiting(slots[n := x]) == NumWaiting(slots) + 1
    decreases |slots|
  {
    var m := |slots| - 1;
    if n < m {
      assert slots[n := x][..m] == slots[..m][n := x];
      CountsAfterUpdate(slots[..m], n, x, ticket);
    } else {
      assert slots[n := x][..m] == slots[..m];
    }
  }

  // Every request accepted so far has ended exactly once, or waits in exactly one slot.
  ghost predicate Conserved(s: State) {
    && (forall t: nat :: CountEnded(s.log, t) + CountWaiting(s.slots, t) == if t < s.accepted then 1 else 0)
    && s.accepted == |s.log| + NumWaiting(s.slots)
  }

  lemma DoConserves(p: Pass, s: State)
    requires Conserved(s)
    ensures Conserved(Do(p, s)) && Do(p, s).accepted == s.accepted && |Do(p, s).slots| == |s.slots|
  {
    hide CountEnded, CountWaiting, NumWaiting, After, Events, PassEvents;
    var d := Do(p, s);
    forall t: nat
      ensures CountEnded(d.log, t) + CountWaiting(d.slots, t) == if t < d.accepted then 1 else 0
    {
      PassConserves(p, s.slots, t);
      CountEndedBoth(s.log, PassEvents(p, s.slots), t);
    }
    PassConserves(p, s.slots, 0);
  }

  lemma AcceptConserves(s: State, n: nat, er: Request, env: Setting)
    requires Conserved(s) && n < |s.slots| && !Waiting(s.slots[n])
    ensures Conserved(Accept(s, n, er, env))
  {
    hide CountEnded, CountWaiting, NumWaiting;
    var a := Accept(s, n, er, env);
    forall t: nat
      ensures CountEnded(a.log, t) + CountWaiting(a.slots, t) == if t < a.accepted then 1 else 0
    {
      CountsAfterUpdate(s.slots, n, a.slots[n], t);
    }
    CountsAfterUpdate(s.slots, n, a.slots[n], 0);
  }

  // A step of the reader. GiveUp is casc_get_dcw's when it has waited long enough for slot n.
  datatype Step =
    | Ask(er: Request, env: Setting)
    | Arrive(idx: int, rc: int, cw: seq<nat>, now: int, patience: int)
    | GiveUp(n: nat, now: int, patience: int)
    | Disconnect

  function Next(s: State, step: Step): State {
    match step
    case Ask(er, env) => Process(s, er, env).0
    case Arrive(idx, rc, cw, now, patience) => Receive(s, idx, rc, cw, now, patience)
    case GiveUp(n, now, patience) =>
      if n < |s.slots| && Waiting(s.slots[n]) then CheckDcw(s, n, 0, s.slots[n].cw, now, patience) else s
    case Disconnect => Do(Close, s)
  }

  function Run(s: State, steps: seq<Step>): State
    decreases |steps|
  {
    if steps == [] then s else Next(Run(s, steps[..|steps| - 1]), steps[|steps| - 1])
  }

  lemma IdxIrrelevant(s: State, idx: nat, lastIdx: nat)
    requires Conserved(s)
    ensures Conserved(s.(idx := idx, lastIdx := lastIdx))
  {
  }

  lemma ProcessConserves(s: State, er: Request, env: Setting)
    requires Conserved(s)
    ensures Conserved(Process(s, er, env).0)
  {
    hide Conserved, Do, Accept;
    var e := Do(Expire(env.now, env.patience), s);
    DoConserves(Expire(env.now, env.patience), s);
    var n := FirstFree(e.slots);
    if n < |e.slots| {
      var a := Accept(e, n, er, env);
      AcceptConserves(e, n, er, env);
      AcceptKeeps(e, n, er, env);
      DoConserves(Close, a);
      var c := if env.closes then Do(Close, a) else a;
      var p := Answer(n, c.slots[n].caid, c.slots[n].digest, 0, c.slots[n].cw, env.now, env.patience);
      DoConserves(p, c);
      var r := Process(s, er, env).0;
      IdxIrrelevant(c, r.idx, r.lastIdx);
      IdxIrrelevant(Do(p, c), r.idx, r.lastIdx);
    }
  }

  lemma AcceptKeeps(s: State, n: nat, er: Request, env: Setting)
    requires n < |s.slots|
    ensures Accept(s, n, er, env).accepted == s.accepted + 1 && Accept(s, n, er, env).log == s.log
    ensures |Accept(s, n, er, env).slots| == |s.slots|
  {
  }

  lemma StepConserves(s: State, step: Step)
    requires Conserved(s)
    ensures Conserved(Next(s, step))
  {
    hide Conserved, Do, Process;
    match step
    case Ask(er, env) => ProcessConserves(s, er, env);
    case Arrive(idx, rc, cw, now, patience) =>
      if idx >= 0 {
        var i := FirstIdx(s.slots, if idx == 0 then s.lastIdx else idx);
        if i < |s.slots| {
          DoConserves(Answer(i, s.slots[i].caid, s.slots[i].digest, rc, cw, now, patience), s);
        }
      }
    case GiveUp(n, now, patience) =>
      if n < |s.slots| {
        DoConserves(Answer(n, s.slots[n].caid, s.slots[n].digest, 0, s.slots[n].cw, now, patience), s);
      }
    case Disconnect => DoConserves(Close, s);
  }

  // From an empty table, after any run: every request accepted was answered, timed out or dropped
  // exactly once, or waits in exactly one slot.
  lemma {:induction false} RunConserves(s: State, steps: seq<Step>)
    requires forall i :: 0 <= i < |s.slots| ==> !Waiting(s.slots[i])
    requires s.accepted == 0 && s.log == []
    ensures Conserved(Run(s, steps))
    decreases |steps|
  {
    hide Next;
    if steps == [] {
      forall t: nat ensures CountWaiting(s.slots, t) == 0 && CountEnded(s.log, t) == 0 {
        NoneWaiting(s.slots, t);
      }
      NoneWaiting(s.slots, 0);
    } else {
      RunConserves(s, steps[..|steps| - 1]);
      StepConserves(Run(s, steps[..|steps| - 1]), steps[|steps| - 1]);
    }
  }

  lemma {:induction false} NoneWaiting(slots: seq<Slot>, ticket: nat)
    requires forall i :: 0 <= i < |slots| ==> !Waiting(slots[i])
    ensures CountWaiting(slots, ticket) == 0 && NumWaiting(slots) == 0
    decreases |slots|
  {
    if slots != [] {
      NoneWaiting(slots[..|slots| - 1], ticket);
    }
  }

  // ---------------------------------------------------------------- who gets an answer

  lemma {:induction false} EventOfSlot(p: Pass, slots: seq<Slot>, i: nat)
    requires i < |slots|
    ensures forall e :: e in Events(p, i, slots[i]) ==> e in PassEvents(p, slots)
    decreases |slots|
  {
    hide Events;
    if i < |slots| - 1 {
      EventOfSlot(p, slots[..|slots| - 1], i);
    }
  }

  lemma {:induction false} SlotOfEvent(p: Pass, slots: seq<Slot>, e: Event) returns (i: nat)
    requires e in PassEvents(p, slots)
    ensures i < |slots| && e in Events(p, i, slots[i])
    decreases |slots|
  {
    hide Events;
    i := |slots| - 1;
    if e !in Events(p, i, slots[i]) {
      i := SlotOfEvent(p, slots[..i], e);
    }
  }

  // What the answer for slot i says when the one that came names slot n.
  function Reply(s: State, n: nat, i: nat, rc: int, cw: seq<nat>): Event
    requires i < |s.slots|
  {
    Answered(s.slots[i].ticket, if rc == 0 then 0 else if i == n then 1 else 2, if rc == 0 then s.slots[i].cw else cw)
  }

  // An answer that names slot n reaches every request that waits with the same caid and digest,
  // and no other; the only other requests it ends are late.
  lemma AnswerReachesEqualOnly(s: State, n: nat, rc: int, cw: seq<nat>, now: int, patience: int, e: Event)
    requires n < |s.slots|
    ensures s.log <= CheckDcw(s, n, rc, cw, now, patience).log
    ensures e in CheckDcw(s, n, rc, cw, now, patience).log[|s.log|..] <==>
      exists i :: 0 <= i < |s.slots| && Waiting(s.slots[i]) &&
        if SameEcm(s.slots[i], s.slots[n].caid, s.slots[n].digest) then e == Reply(s, n, i, rc, cw)
        else Late(s.slots[i], now, patience) && e == TimedOut(s.slots[i].ticket)
  {
    var p := Answer(n, s.slots[n].caid, s.slots[n].digest, rc, cw, now, patience);
    var news := PassEvents(p, s.slots);
    assert CheckDcw(s, n, rc, cw, now, patience).log[|s.log|..] == news;
    if e in news {
      var i := SlotOfEvent(p, s.slots, e);
    }
    forall i | 0 <= i < |s.slots| && e in Events(p, i, s.slots[i]) ensures e in news {
      EventOfSlot(p, s.slots, i);
    }
  }

  // A slot whose request waits, with a code of 10 at least, and was sent more than patience
  // seconds ago
  predicate RunsOut(s: Slot, ticket: nat, now: int, patience: int) {
    s.rc >= 10 && s.ticket == ticket && s.time < now - patience
  }

  // A scan of the table times out the requests sent more than patience seconds ago, and no other;
  // the rest of the table is as it was.
  lemma ScanTimesOutIff(s: State, now: int, patience: int)
    ensures var e := Do(Expire(now, patience), s);
      && s.log <= e.log && |e.slots| == |s.slots|
      && (forall ticket: nat :: TimedOut(ticket) in e.log[|s.log|..] <==>
            exists i :: 0 <= i < |s.slots| && RunsOut(s.slots[i], ticket, now, patience))
      && (forall i :: 0 <= i < |s.slots| ==>
            e.slots[i] == if RunsOut(s.slots[i], s.slots[i].ticket, now, patience) then s.slots[i].(rc := 0)
                          else s.slots[i])
  {
    var p := Expire(now, patience);
    var news := PassEvents(p, s.slots);
    assert Do(p, s).log[|s.log|..] == news;
    forall ticket: nat | TimedOut(ticket) in news
      ensures exists i :: 0 <= i < |s.slots| && RunsOut(s.slots[i], ticket, now, patience)
    {
      var i := SlotOfEvent(p, s.slots, TimedOut(ticket));
      assert RunsOut(s.slots[i], ticket, now, patience);
    }
    forall i | 0 <= i < |s.slots| && RunsOut(s.slots[i], s.slots[i].ticket, now, patience)
      ensures TimedOut(s.slots[i].ticket) in news
    {
      EventOfSlot(p, s.slots, i);
      assert TimedOut(s.slots[i].ticket) in Events(p, i, s.slots[i]);
    }
  }

  // ---------------------------------------------------------------- new requests

  // A request that waits and is not late
  predicate Live(s: Slot, env: Setting) { Waiting(s) && !Late(s, env.now, env.patience) }

  // Slot n, which no live request held, now holds the one with this ticket; no other slot has
  // changed but for late requests that are gone.
  ghost predicate TakesSlot(before: seq<Slot>, n: nat, after: seq<Slot>, er: Request, ticket: nat, env: Setting)
    requires |after| == |before|
  {
    && n < |before| && !Live(before[n], env)
    && Waiting(after[n]) && after[n].ticket == ticket && SameEcm(after[n], er.caid, er.digest)
    && forall i :: 0 <= i < |after| && i != n ==>
      if Live(before[i], env) then after[i] == before[i] else !Waiting(after[i])
  }

  // The slots that go on waiting after the late ones are dropped
  lemma LiveSlots(s: State, env: Setting)
    ensures var e := Do(Expire(env.now, env.patience), s);
      && |e.slots| == |s.slots|
      && (forall i :: 0 <= i < |s.slots| ==> (Waiting(e.slots[i]) <==> Live(s.slots[i], env)))
      && (forall i :: 0 <= i < |s.slots| && Waiting(e.slots[i]) ==> e.slots[i] == s.slots[i])
  {
    hide PassEvents;
  }

  // The table overflows only when every slot is live; otherwise the request is accepted, and sent
  // unless an equal one of its level at least is live.
  lemma NewRequest(s: State, er: Request, env: Setting)
    ensures |Process(s, er, env).0.slots| == |s.slots|
    ensures Process(s, er, env).1 <==> exists i :: 0 <= i < |s.slots| && !Live(s.slots[i], env)
    ensures Process(s, er, env).1 ==>
      (Process(s, er, env).2 <==>
       !exists i :: 0 <= i < |s.slots| && Live(s.slots[i], env) && SameEcm(s.slots[i], er.caid, er.digest) &&
         er.level <= s.slots[i].level)
  {
    hide PassEvents, FirstFree, Live, Late;
    LiveSlots(s, env);
  }

  // An accepted request takes one slot that is not live ...
  lemma RequestTakesSlot(s: State, er: Request, env: Setting)
    requires Process(s, er, env).1 && !env.closes && !(env.sendFails && Process(s, er, env).2)
    ensures |Process(s, er, env).0.slots| == |s.slots|
    ensures exists n :: TakesSlot(s.slots, n, Process(s, er, env).0.slots, er, s.accepted, env)
  {
    hide PassEvents, FirstFree, Live, Late, Asked, CheckDcw;
    LiveSlots(s, env);
    var n := FirstFree(Do(Expire(env.now, env.patience), s).slots);
    assert TakesSlot(s.slots, n, Process(s, er, env).0.slots, er, s.accepted, env);
  }

  // ... unless the connection is closed, which clears all slots.
  lemma ClosingClears(s: State, er: Request, env: Setting)
    requires Process(s, er, env).1 && env.closes
    ensures forall i :: 0 <= i < |Process(s, er, env).0.slots| ==> !Waiting(Process(s, er, env).0.slots[i])
  {
    hide PassEvents, FirstFree, Late, Asked;
  }

  // ---------------------------------------------------------------- which slot an answer names

  // Slots are numbered by the requests accepted, and a number is used once.
  ghost predicate Named(s: State) {
    && (forall i :: 0 <= i < |s.slots| && s.slots[i].idx > 0 ==> s.slots[i].idx <= s.accepted)
    && (forall i, j :: 0 <= i < j < |s.slots| && s.slots[i].idx > 0 ==> s.slots[i].idx != s.slots[j].idx)
    && (forall i :: 0 <= i < |s.slots| && Waiting(s.slots[i]) ==> s.slots[i].idx > 0)
    && s.idx == if s.accepted == 0 then 0 else s.accepted + 1
  }

  lemma DoKeepsNames(p: Pass, s: State)
    requires Named(s)
    ensures Named(Do(p, s)) && |Do(p, s).slots| == |s.slots|
  {
    hide PassEvents;
    var d := Do(p, s);
    assert forall i :: 0 <= i < |s.slots| ==> d.slots[i].idx == 0 || d.slots[i].idx == s.slots[i].idx;
    assert forall i :: 0 <= i < |s.slots| && Waiting(d.slots[i]) ==> d.slots[i] == s.slots[i];
  }

  lemma AcceptKeepsNames(s: State, n: nat, er: Request, env: Setting)
    requires Named(s) && n < |s.slots| && !env.newcamd
    ensures Named(Accept(s, n, er, env))
  {
  }

  // Not a Newcamd reader, and no more requests than there are numbers before they start again
  ghost predicate FewAsks(s: State, step: Step) { step.Ask? ==> !step.env.newcamd && s.accepted + 2 <= MAX_IDX }

  lemma StepKeepsNames(s: State, step: Step)
    requires Named(s) && FewAsks(s, step)
    ensures Named(Next(s, step))
  {
    hide Named, Do, Accept;
    match step
    case Ask(er, env) =>
      var e := Do(Expire(env.now, env.patience), s);
      DoKeepsNames(Expire(env.now, env.patience), s);
      DoAccepts(Expire(env.now, env.patience), s);
      var n := FirstFree(e.slots);
      if n < |e.slots| {
        var a := Accept(e, n, er, env);
        AcceptKeepsNames(e, n, er, env);
        AcceptKeeps(e, n, er, env);
        DoKeepsNames(Close, a);
        DoAccepts(Close, a);
        var c := if env.closes then Do(Close, a) else a;
        var p := Answer(n, c.slots[n].caid, c.slots[n].digest, 0, c.slots[n].cw, env.now, env.patience);
        DoKeepsNames(p, c);
        DoAccepts(p, c);
        NamedIdx(c);
        NamedIdx(Do(p, c));
        LastIdxIrrelevant(c, c.slots[n].idx);
      }
    case Arrive(idx, rc, cw, now, patience) =>
      if idx >= 0 {
        var i := FirstIdx(s.slots, if idx == 0 then s.lastIdx else idx);
        if i < |s.slots| {
          DoKeepsNames(Answer(i, s.slots[i].caid, s.slots[i].digest, rc, cw, now, patience), s);
        }
      }
    case GiveUp(n, now, patience) =>
      if n < |s.slots| {
        DoKeepsNames(Answer(n, s.slots[n].caid, s.slots[n].digest, 0, s.slots[n].cw, now, patience), s);
      }
    case Disconnect => DoKeepsNames(Close, s);
  }

  lemma DoAccepts(p: Pass, s: State)
    ensures Do(p, s).accepted == s.accepted && Do(p, s).idx == s.idx
  {
  }

  lemma NamedIdx(s: State)
    requires Named(s)
    ensures s.idx == if s.accepted == 0 then 0 else s.accepted + 1
  {
  }

  lemma LastIdxIrrelevant(s: State, lastIdx: nat)
    requires Named(s)
    ensures Named(s.(lastIdx := lastIdx))
  {
  }

  lemma {:induction false} RunKeepsNames(s: State, steps: seq<Step>)
    requires forall i :: 0 <= i < |s.slots| ==> s.slots[i].rc == 0 && s.slots[i].idx == 0
    requires s.accepted == 0 && s.idx == 0
    requires forall k :: 0 <= k < |steps| ==> FewAsks(Run(s, steps[..k]), steps[k])
    ensures Named(Run(s, steps)) && |Run(s, steps).slots| == |s.slots|
    decreases |steps|
  {
    hide Next, FewAsks;
    if steps != [] {
      var m := |steps| - 1;
      var init := steps[..m];
      assert forall k :: 0 <= k < m ==> init[..k] == steps[..k];
      RunKeepsNames(s, init);
      StepKeepsNames(Run(s, init), steps[m]);
      StepKeepsSize(Run(s, init), steps[m]);
    }
  }

  lemma StepKeepsSize(s: State, step: Step)
    ensures |Next(s, step).slots| == |s.slots|
  {
    hide PassEvents, FirstFree, Asked;
  }

  // In any table: an answer that carries the number of the request in slot n names that slot if
  // and only if no earlier slot carries it, too, and reaches the request if and only if the first
  // slot that does has its caid and digest.
  lemma AnswerReachesItsRequestIff(s: State, n: nat, rc: int, cw: seq<nat>, now: int, patience: int)
    requires n < |s.slots| && Waiting(s.slots[n]) && s.slots[n].idx > 0
    ensures var f := FirstIdx(s.slots, s.slots[n].idx);
      && (f == n <==> forall j :: 0 <= j < n ==> s.slots[j].idx != s.slots[n].idx)
      && f < |s.slots| && Receive(s, s.slots[n].idx, rc, cw, now, patience) == CheckDcw(s, f, rc, cw, now, patience)
      && (Reply(s, f, n, rc, cw) in Receive(s, s.slots[n].idx, rc, cw, now, patience).log[|s.log|..] &&
          Receive(s, s.slots[n].idx, rc, cw, now, patience).slots[n].idx == 0 <==>
          SameEcm(s.slots[n], s.slots[f].caid, s.slots[f].digest))
  {
    hide PassEvents, Late;
    var f := FirstIdx(s.slots, s.slots[n].idx);
    assert f <= n;
    AnswerReachesEqualOnly(s, f, rc, cw, now, patience, Reply(s, f, n, rc, cw));
  }

  // So with the numbers used once, an answer that carries the number of a waiting request is for
  // that request, and goes to it and its equals.
  lemma AnswerFindsItsRequest(s: State, steps: seq<Step>, n: nat, rc: int, cw: seq<nat>, now: int, patience: int)
    requires forall i :: 0 <= i < |s.slots| ==> s.slots[i].rc == 0 && s.slots[i].idx == 0
    requires s.accepted == 0 && s.idx == 0
    requires forall k :: 0 <= k < |steps| ==> FewAsks(Run(s, steps[..k]), steps[k])
    requires n < |Run(s, steps).slots| && Waiting(Run(s, steps).slots[n])
    ensures var t := Run(s, steps);
      Receive(t, t.slots[n].idx, rc, cw, now, patience) == CheckDcw(t, n, rc, cw, now, patience)
  {
    hide Run, CheckDcw;
    RunKeepsNames(s, steps);
    var t := Run(s, steps);
    var i := FirstIdx(t.slots, t.slots[n].idx);
    assert i <= n;
  }

  // ---------------------------------------------------------------- the calls, in place

  // The fields of s_client that a network reader keeps its requests in. accepted and log record
  // what happened; the code has no such fields.
  class Client {
    const ecmtask: array<Slot>
    var idx: nat
    var lastIdx: nat
    var pending: int
    var accepted: nat
    var log: seq<Event>

    constructor (slots: array<Slot>)
      ensures ecmtask == slots && View() == State(slots[..], 0, 0, 0, [])
    {
      ecmtask, idx, lastIdx, pending, accepted, log := slots, 0, 0, 0, 0, [];
    }

    ghost function View(): State
      reads this, ecmtask
    {
      State(ecmtask[..], idx, lastIdx, accepted, log)
    }

    // The first i slots have been visited.
    ghost predicate Reached(p: Pass, was: seq<Slot>, before: seq<Event>, i: nat)
      reads this`log, ecmtask
    {
      && i <= ecmtask.Length == |was|
      && ecmtask[..] == Passed(p, was[..i]) + was[i..] && log == before + PassEvents(p, was[..i])
    }

    lemma StartOfPass(p: Pass, was: seq<Slot>)
      requires was == ecmtask[..]
      ensures Reached(p, was, log, 0) && Passed(p, was[..0]) == []
    {
    }

    lemma EndOfPass(p: Pass, was: seq<Slot>, before: seq<Event>)
      requires Reached(p, was, before, ecmtask.Length)
      ensures ecmtask[..] == Passed(p, was) && log == before + PassEvents(p, was) && was[..ecmtask.Length] == was
    {
      assert was[..ecmtask.Length] == was;
    }

    // One turn of a loop over the table
    method Visit(p: Pass, ghost was: seq<Slot>, ghost before: seq<Event>, i: nat)
      requires i < ecmtask.Length && Reached(p, was, before, i)
      modifies this`log, ecmtask
      ensures Reached(p, was, before, i + 1) && ecmtask[i] == After(p, i, was[i])
    {
      hide After, Events;
      assert ecmtask[i] == ecmtask[..][i] == was[i];
      assert was[..i + 1][..i] == was[..i];
      log := log + Events(p, i, ecmtask[i]);
      ecmtask[i] := After(p, i, ecmtask[i]);
    }

    // casc_check_dcw
    method CheckDcwCall(n: nat, rc: int, cw: seq<nat>, now: int, patience: int)
      requires n < ecmtask.Length
      modifies this, ecmtask
      ensures View() == CheckDcw(old(View()), n, rc, cw, now, patience)
      ensures pending == NumWaiting(ecmtask[..])
    {
      hide Passed, PassEvents, After, Events, Reached;
      ghost var was, before := ecmtask[..], log;
      var p := Answer(n, ecmtask[n].caid, ecmtask[n].digest, rc, cw, now, patience);
      StartOfPass(p, was);
      var waiting := 0;
      for i := 0 to ecmtask.Length
        invariant Reached(p, was, before, i)
        invariant waiting == NumWaiting(Passed(p, was[..i]))
        invariant idx == old(idx) && lastIdx == old(lastIdx) && accepted == old(accepted)
      {
        Visit(p, was, before, i);
        PassStep(p, was, i);
        if Waiting(ecmtask[i]) {
          waiting := waiting + 1;
        }
      }
      EndOfPass(p, was, before);
      pending := waiting;
    }

    // network_tcp_connection_close: the loop over the table
    method CloseConnection()
      modifies this`log, ecmtask
      ensures View() == Do(Close, old(View()))
    {
      hide Passed, PassEvents, After, Events, Reached;
      ghost var was, before := ecmtask[..], log;
      StartOfPass(Close, was);
      for i := 0 to ecmtask.Length
        invariant Reached(Close, was, before, i)
      {
        Visit(Close, was, before, i);
      }
      EndOfPass(Close, was, before);
    }

    // The end of casc_do_sock
    method DoSock(index: int, rc: int, cw: seq<nat>, now: int, patience: int)
      modifies this, ecmtask
      ensures View() == Receive(old(View()), index, rc, cw, now, patience)
    {
      hide CheckDcw;
      if index < 0 {
        return;
      }
      var want := if index == 0 then lastIdx else index;
      for i := 0 to ecmtask.Length
        invariant View() == old(View())
        invariant forall j :: 0 <= j < i ==> ecmtask[j].idx != want
      {
        if ecmtask[i].idx == want {
          assert i == FirstIdx(ecmtask[..], want);
          pending := pending - 1;
          CheckDcwCall(i, rc, cw, now, patience);
          return;
        }
      }
    }

    // The first loop of casc_process_ecm
    method Scan(er: Request, now: int, patience: int) returns (n: nat, sflag: bool)
      modifies this, ecmtask
      ensures View() == Do(Expire(now, patience), old(View()))
      ensures n == FirstFree(ecmtask[..]) && sflag == !Asked(ecmtask[..], er)
      ensures pending == NumWaiting(ecmtask[..])
    {
      hide Passed, PassEvents, After, Events, Reached, Scanned;
      ghost var was, before := ecmtask[..], log;
      var p := Expire(now, patience);
      StartOfPass(p, was);
      var free, waiting := -1, 0;
      sflag := true;
      NothingScanned(er);
      for i := 0 to ecmtask.Length
        invariant Reached(p, was, before, i) && Scanned(Passed(p, was[..i]), er, free, waiting, sflag)
        invariant idx == old(idx) && lastIdx == old(lastIdx) && accepted == old(accepted)
      {
        Visit(p, was, before, i);
        PassStep(p, was, i);
        var ecm := ecmtask[i];
        ScanStep(Passed(p, was[..i]), er, free, waiting, sflag, ecm);
        if free < 0 && !Waiting(ecm) {
          free := i;
        }
        if Waiting(ecm) && SameEcm(ecm, er.caid, er.digest) && er.level <= ecm.level {
          sflag := false;
        }
        if Waiting(ecm) {
          waiting := waiting + 1;
        }
      }
      EndOfPass(p, was, before);
      ScanDone(ecmtask[..], er, free, waiting, sflag);
      pending := waiting;
      n := if free < 0 then ecmtask.Length else free;
    }

    // casc_process_ecm up to waiting for the answer
    method ProcessEcm(er: Request, env: Setting) returns (taken: bool, sent: bool)
      modifies this, ecmtask
      ensures (View(), taken, sent) == Process(old(View()), er, env)
    {
      hide FirstFree, Asked, Do, CheckDcw;
      var n, sflag := Scan(er, env.now, env.patience);
      if n == ecmtask.Length {
        return false, false;
      }
      Store(n, er, env);
      Send(n, sflag, env);
      return true, sflag;
    }

    // The slot is filled; a Newcamd reader numbers its messages itself.
    method Store(n: nat, er: Request, env: Setting)
      requires n < ecmtask.Length
      modifies this`idx, this`accepted, ecmtask
      ensures View() == Accept(old(View()), n, er, env)
    {
      var index := if env.newcamd then (if env.msgid == 0 then 2 else env.msgid + 1) else if idx == 0 then 1 else idx;
      ecmtask[n] := Slot(WAITING, index, er.caid, er.digest, er.level, er.time, er.cw, accepted);
      idx, accepted := if env.newcamd then idx else index + 1, accepted + 1;
    }

    // The request is sent unless an equal one waits.
    method Send(n: nat, sflag: bool, env: Setting)
      requires n < ecmtask.Length
      modifies this, ecmtask
      ensures View() == Sent(old(View()), n, sflag, env)
    {
      hide Passed, PassEvents;
      if env.closes {
        CloseConnection();
      }
      if sflag {
        if env.sendFails {
          CheckDcwCall(n, 0, ecmtask[n].cw, env.now, env.patience);
        } else {
          lastIdx := ecmtask[n].idx;
        }
      }
      if idx > MAX_IDX {
        idx := 1;
      }
    }
  }

  lemma PassStep(p: Pass, was: seq<Slot>, i: nat)
    requires i < |was|
    ensures Passed(p, was[..i + 1]) == Passed(p, was[..i]) + [After(p, i, was[i])]
    ensures NumWaiting(Passed(p, was[..i + 1])) ==
      NumWaiting(Passed(p, was[..i])) + if Waiting(After(p, i, was[i])) then 1 else 0
  {
    hide After;
    assert was[..i + 1][..i] == was[..i];
    assert Passed(p, was[..i + 1])[..i] == Passed(p, was[..i]);
  }

  lemma FirstFreeStep(slots: seq<Slot>, x: Slot)
    ensures FirstFree(slots + [x]) ==
      if FirstFree(slots) < |slots| || !Waiting(x) then FirstFree(slots) else |slots| + 1
  {
    hide FirstFree;
    var s := slots + [x];
    assert s[|slots|] == x && forall j :: 0 <= j < |slots| ==> s[j] == slots[j];
  }

  // What the loop knows of the slots it has seen
  ghost predicate Scanned(slots: seq<Slot>, er: Request, free: int, waiting: int, sflag: bool) {
    && waiting == NumWaiting(slots) && sflag == !Asked(slots, er)
    && -1 <= free < |slots| && FirstFree(slots) == if free < 0 then |slots| else free
  }

  lemma NothingScanned(er: Request)
    ensures Scanned([], er, -1, 0, true)
  {
  }

  lemma ScanDone(slots: seq<Slot>, er: Request, free: int, waiting: int, sflag: bool)
    requires Scanned(slots, er, free, waiting, sflag)
    ensures waiting == NumWaiting(slots) && sflag == !Asked(slots, er)
    ensures FirstFree(slots) == if free < 0 then |slots| else free
  {
  }

  lemma ScanStep(slots: seq<Slot>, er: Request, free: int, waiting: int, sflag: bool, ecm: Slot)
    requires Scanned(slots, er, free, waiting, sflag)
    ensures Scanned(slots + [ecm], er, if free < 0 && !Waiting(ecm) then |slots| else free,
      if Waiting(ecm) then waiting + 1 else waiting,
      sflag && !(Waiting(ecm) && SameEcm(ecm, er.caid, er.digest) && er.level <= ecm.level))
  {
    hide FirstFree, Asked, Waiting;
    FirstFreeStep(slots, ecm);
    AskedStep(slots, ecm, er);
    assert (slots + [ecm])[..|slots|] == slots;
  }

  lemma AskedStep(slots: seq<Slot>, ecm: Slot, er: Request)
    ensures Asked(slots + [ecm], er) <==>
      Asked(slots, er) || (Waiting(ecm) && SameEcm(ecm, er.caid, er.digest) && er.level <= ecm.level)
  {
    var b := slots + [ecm];
    assert b[|slots|] == ecm && forall j :: 0 <= j < |slots| ==> slots[j] == b[j];
  }
}
