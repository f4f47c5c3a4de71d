// Safety of the control-word exchange over every run of the connection.
module CcExchangeSafety {
  import opened Bytes
  import opened Wrappers
  import opened CcCrypt
  import opened CcChannel
  import opened CcExchange

  // ---------------------------------------------------------------- the invariant

  function Flight(node: NodeId, b: Block, ms: seq<Out>): (r: (Block, seq<Byte>))
    requires Wf(b)
    ensures Wf(r.0)
    decreases |ms|
  {
    if ms == [] then (b, [])
    else
      var (b1, w1) := Send(node, b, ms[0]);
      var (b2, w2) := Flight(node, b1, ms[1..]);
      (b2, w1 + w2)
  }

  function Gots(ms: seq<Out>): seq<Got> { seq(|ms|, i requires 0 <= i < |ms| => GotOf(ms[i])) }

  // Cards asked for by the requests among ms.
  function Requests(ms: seq<Out>): seq<nat>
    decreases |ms|
  {
    if ms == [] then []
    else (if ms[0].Plain? && ms[0].cmd == MSG_CW_ECM then [CardOf(ms[0].payload)] else []) + Requests(ms[1..])
  }

  // Cards answered or refused among ms.
  function Replies(ms: seq<Out>): seq<nat>
    decreases |ms|
  {
    if ms == [] then [] else (if ms[0].Plain? then [] else [ms[0].card]) + Replies(ms[1..])
  }

  ghost predicate FromReader(m: Out) {
    m.Plain? && |m.payload| <= CC_MAXMSGSIZE
  }

  ghost predicate FromServer(m: Out) {
    (m.Plain? ==> Neutral(m.cmd, m.payload)) && (m.Nok? ==> IsNok(m.cmd))
  }

  // Server to reader: the blocks agree up to the state byte, the bytes under way are what the
  // server made of the messages under way, and nothing was lost or altered.
  ghost predicate Down(node: NodeId, s: State) {
    && InStep(s.base, s.rdrDec)
    && Flight(node, s.base, s.flightR) == (s.srvEnc, s.toRdr)
    && (forall m :: m in s.flightR ==> FromServer(m))
    && s.rdrGot + Gots(s.flightR) == s.srvSent
  }

  // Reader to server: the same, with equal blocks.
  ghost predicate Up(node: NodeId, s: State) {
    && Wf(s.srvDec)
    && Flight(node, s.srvDec, s.flightS) == (s.rdrEnc, s.toSrv)
    && (forall m :: m in s.flightS ==> FromReader(m))
    && s.srvGot + Gots(s.flightS) == s.rdrSent
  }

  // At most one request is outstanding, it is somewhere on its way there and back, and while
  // the reader remembers its card, that is the card it was sent for.
  ghost predicate OneRequest(s: State) {
    var out := Requests(s.flightS) + s.asked + Replies(s.flightR);
    && |out| == (if s.busy then 1 else 0)
    && (s.pending.Some? ==> out == [s.pending.value])
  }

  ghost predicate Inv(node: NodeId, s: State) {
    WfState(s) && Down(node, s) && Up(node, s) && OneRequest(s)
  }

  // ---------------------------------------------------------------- messages under way

  lemma {:induction false} FlightSnoc(node: NodeId, b: Block, ms: seq<Out>, m: Out)
    requires Wf(b)
    ensures var (b1, w1) := Flight(node, b, ms);
            var (b2, w2) := Send(node, b1, m);
            Flight(node, b, ms + [m]) == (b2, w1 + w2)
    decreases |ms|
  {
    hide Send;
    if ms == [] {
      assert ms + [m] == [m] && [m][1..] == [];
      var (b2, w2) := Send(node, b, m);
      assert w2 + [] == w2 && [] + w2 == w2;
    } else {
      var (b1, w1) := Send(node, b, ms[0]);
      FlightSnoc(node, b1, ms[1..], m);
      assert (ms + [m])[1..] == ms[1..] + [m];
      var (b2, w2) := Flight(node, b1, ms[1..]);
      var w3 := Send(node, b2, m).1;
      assert w1 + (w2 + w3) == (w1 + w2) + w3;
    }
  }

  lemma {:induction false} RequestsSnoc(ms: seq<Out>, m: Out)
    ensures Requests(ms + [m]) == Requests(ms) + Requests([m])
    decreases |ms|
  {
    if ms == [] {
      assert ms + [m] == [m];
    } else {
      RequestsSnoc(ms[1..], m);
      assert (ms + [m])[1..] == ms[1..] + [m];
    }
  }

  lemma {:induction false} RepliesSnoc(ms: seq<Out>, m: Out)
    ensures Replies(ms + [m]) == Replies(ms) + Replies([m])
    decreases |ms|
  {
    if ms == [] {
      assert ms + [m] == [m];
    } else {
      RepliesSnoc(ms[1..], m);
      assert (ms + [m])[1..] == ms[1..] + [m];
    }
  }

  lemma Single(m: Out)
    ensures Requests([m]) == if m.Plain? && m.cmd == MSG_CW_ECM then [CardOf(m.payload)] else []
    ensures Replies([m]) == if m.Plain? then [] else [m.card]
  {
    assert [m][1..] == [];
  }

  // ---------------------------------------------------------------- sending

  lemma SendingDown(node: NodeId, s: State, m: Out)
    requires WfState(s) && Down(node, s) && FromServer(m)
    ensures Down(node, SrvSend(node, s, m)) && WfState(SrvSend(node, s, m))
  {
    hide Send;
    hide Flight;
    FlightSnoc(node, s.base, s.flightR, m);
    assert s.rdrGot + Gots(s.flightR + [m]) == (s.rdrGot + Gots(s.flightR)) + [GotOf(m)];
  }

  lemma SendingUp(node: NodeId, s: State, m: Out)
    requires WfState(s) && Up(node, s) && FromReader(m)
    ensures Up(node, RdrSend(node, s, m)) && WfState(RdrSend(node, s, m))
  {
    hide Send;
    hide Flight;
    FlightSnoc(node, s.srvDec, s.flightS, m);
    assert s.srvGot + Gots(s.flightS + [m]) == (s.srvGot + Gots(s.flightS)) + [GotOf(m)];
  }

  // ---------------------------------------------------------------- receiving

  function PayloadOf(node: NodeId, m: Out): seq<Byte> {
    match m
    case Plain(_, _, payload) => payload
    case Nok(_, _, _) => []
    case Answer(_, card, cws) => Scramble(node, card, cws)
  }

  function CmdOf(m: Out): Byte { if m.Answer? then MSG_CW_ECM else m.cmd }

  // Taking the next message under way. Blocks in step deliver its command and payload, and the
  // flag byte too when they are equal.
  lemma NextArrives(node: NodeId, b: Block, c: Block, ms: seq<Out>)
    requires InStep(b, c) && ms != [] && |PayloadOf(node, ms[0])| <= CC_MAXMSGSIZE
    ensures var r := Recv(c, Flight(node, b, ms).1, CC_MAXMSGSIZE);
            r.block == Crypt(b, Text(node, ms[0]), Encrypt).0 &&
            r.rest == Flight(node, Send(node, b, ms[0]).0, ms[1..]).1 &&
            r.reply == Message(Xor(ms[0].flag, Xor(b.state, c.state)), CmdOf(ms[0]), PayloadOf(node, ms[0]))
  {
    hide Crypt;
    hide Recv;
    hide Frame;
    var m := ms[0];
    FrameArrives(b, c, m.flag, CmdOf(m), PayloadOf(node, m),
      Flight(node, Send(node, b, m).0, ms[1..]).1, CC_MAXMSGSIZE);
  }

  lemma NothingArrives(c: Block)
    requires Wf(c)
    ensures Recv(c, [], CC_MAXMSGSIZE).reply == Closed
  {}

  // ---------------------------------------------------------------- one step

  lemma GotsHead(ms: seq<Out>)
    requires ms != []
    ensures Gots(ms) == [GotOf(ms[0])] + Gots(ms[1..])
  {}

  // The state after the server takes the first message m under way to it.
  function AfterSrvTake(node: NodeId, s: State): State
    requires Wf(s.srvDec) && s.flightS != []
  {
    var m := s.flightS[0];
    var b := Send(node, s.srvDec, m).0;
    SrvAccept(s, b, Flight(node, b, s.flightS[1..]).1, m.flag, CmdOf(m), PayloadOf(node, m))
  }

  lemma SrvTakeIs(node: NodeId, s: State)
    requires WfState(s) && Up(node, s)
    ensures Step(node, s, SrvTake) == if s.flightS == [] then None else Some(AfterSrvTake(node, s))
  {
    hide Crypt;
    hide Recv;
    if s.flightS == [] {
      NothingArrives(s.srvDec);
    } else {
      assert FromReader(s.flightS[0]);
      NextArrives(node, s.srvDec, s.srvDec, s.flightS);
      XorZero(s.srvDec.state);
      XorZero(s.flightS[0].flag);
    }
  }

  lemma SrvTakeKeepsUp(node: NodeId, s: State)
    requires WfState(s) && Up(node, s) && s.flightS != []
    ensures Up(node, AfterSrvTake(node, s)) && WfState(AfterSrvTake(node, s))
  {
    hide Send;
    assert FromReader(s.flightS[0]);
    GotsHead(s.flightS);
    var m := s.flightS[0];
    assert (s.srvGot + [GotOf(m)]) + Gots(s.flightS[1..]) == s.srvGot + ([GotOf(m)] + Gots(s.flightS[1..]));
  }

  lemma SrvTakeKeepsRequest(node: NodeId, s: State)
    requires Wf(s.srvDec) && s.flightS != [] && s.flightS[0].Plain? && OneRequest(s)
    ensures OneRequest(AfterSrvTake(node, s))
  {
    hide Send;
    hide Flight;
    var m := s.flightS[0];
    if m.cmd == MSG_CW_ECM {
      assert Requests(s.flightS) == [CardOf(m.payload)] + Requests(s.flightS[1..]);
    } else {
      assert Requests(s.flightS) == Requests(s.flightS[1..]);
    }
  }

  // What the reader makes of the first message m under way to it.
  function AfterRdrTake(node: NodeId, s: State): Option<State>
    requires WfState(s) && s.flightR != []
  {
    var m := s.flightR[0];
    RdrAccept(node, s, Crypt(s.base, Text(node, m), Encrypt).0, Flight(node, Send(node, s.base, m).0, s.flightR[1..]).1,
              Xor(m.flag, Xor(s.base.state, s.rdrDec.state)), CmdOf(m), PayloadOf(node, m))
  }

  lemma RdrTakeIs(node: NodeId, s: State)
    requires WfState(s) && Down(node, s)
    ensures Step(node, s, RdrTake) == if s.flightR == [] then None else AfterRdrTake(node, s)
  {
    hide Crypt;
    hide Recv;
    hide RdrAccept;
    if s.flightR == [] {
      NothingArrives(s.rdrDec);
    } else {
      assert FromServer(s.flightR[0]);
      NextArrives(node, s.base, s.rdrDec, s.flightR);
    }
  }

  // An answer under way is matched to a card: the reader still remembers the request.
  ghost predicate Matched(s: State) {
    s.flightR != [] && s.flightR[0].Answer? ==> s.pending.Some?
  }

  lemma AnswerTaken(node: NodeId, s: State)
    requires WfState(s) && Down(node, s) && OneRequest(s)
    requires s.flightR != [] && s.flightR[0].Answer? && s.pending.Some?
    ensures AfterRdrTake(node, s).Some? && WfState(AfterRdrTake(node, s).value)
    ensures Down(node, AfterRdrTake(node, s).value)
  {
    hide Crypt;
    var m := s.flightR[0];
    assert Replies(s.flightR) == [m.card] + Replies(s.flightR[1..]);
    assert m.card in Requests(s.flightS) + s.asked + Replies(s.flightR);
    Unscrambles(node, m.card, m.cws);
    var b := Crypt(s.base, Text(node, m), Encrypt).0;
    LengthKeepsStep(b, Scramble(node, m.card, m.cws), Encrypt, b, m.cws, Encrypt);
    GotsHead(s.flightR);
    assert (s.rdrGot + [GotOf(m)]) + Gots(s.flightR[1..]) == s.rdrGot + ([GotOf(m)] + Gots(s.flightR[1..]));
  }

  lemma OtherTaken(node: NodeId, s: State)
    requires WfState(s) && Down(node, s) && s.flightR != [] && !s.flightR[0].Answer?
    ensures AfterRdrTake(node, s).Some? && WfState(AfterRdrTake(node, s).value)
    ensures Down(node, AfterRdrTake(node, s).value)
  {
    hide Crypt;
    var m := s.flightR[0];
    assert FromServer(m);
    GotsHead(s.flightR);
    assert (s.rdrGot + [GotOf(m)]) + Gots(s.flightR[1..]) == s.rdrGot + ([GotOf(m)] + Gots(s.flightR[1..]));
  }

  lemma RdrTakeKeepsRequest(node: NodeId, s: State)
    requires WfState(s) && s.flightR != [] && FromServer(s.flightR[0]) && OneRequest(s) && AfterRdrTake(node, s).Some?
    ensures OneRequest(AfterRdrTake(node, s).value)
  {
    hide Crypt;
    hide Send;
    hide Flight;
    var m := s.flightR[0];
    if m.Plain? {
      assert Replies(s.flightR) == Replies(s.flightR[1..]);
    } else {
      assert Replies(s.flightR) == [m.card] + Replies(s.flightR[1..]);
    }
  }

  lemma RemoveOne(out: seq<nat>, x: seq<nat>, a: seq<nat>, y: seq<nat>, k: nat)
    requires out == x + a + y && |out| <= 1 && k < |a|
    ensures out == [a[k]] && x == [] && y == [] && a == [a[k]] && Remove(a, k) == []
  {}

  lemma AskKeeps(node: NodeId, s: State, e: Event)
    requires Inv(node, s) && e.Ask? && Step(node, s, e).Some?
    ensures Inv(node, Step(node, s, e).value)
  {
    hide Send;
    hide Flight;
    hide Requests;
    var p := e.front + CardBytes(e.card) + e.tail;
    var m := Plain(s.rdrFlag, MSG_CW_ECM, p);
    CardOfRequest(e.card, e.front, e.tail);
    SendingUp(node, s, m);
    RequestsSnoc(s.flightS, m);
    Single(m);
  }

  lemma RdrSayKeeps(node: NodeId, s: State, e: Event)
    requires Inv(node, s) && e.RdrSay? && Step(node, s, e).Some?
    ensures Inv(node, Step(node, s, e).value)
  {
    hide Send;
    hide Flight;
    hide Requests;
    var m := Plain(s.rdrFlag, e.cmd, e.payload);
    SendingUp(node, s, m);
    RequestsSnoc(s.flightS, m);
    Single(m);
  }

  lemma SrvReplyKeeps(node: NodeId, s: State, e: Event)
    requires Inv(node, s) && (e.SrvAnswer? || e.SrvNok?) && Step(node, s, e).Some?
    ensures Inv(node, Step(node, s, e).value)
  {
    hide Send;
    hide Flight;
    hide Replies;
    var card := s.asked[e.k];
    var m := if e.SrvAnswer? then Answer(s.srvFlag, card, e.cws) else Nok(s.srvFlag, e.cmd, card);
    SendingDown(node, s, m);
    RepliesSnoc(s.flightR, m);
    Single(m);
    RemoveOne(Requests(s.flightS) + s.asked + Replies(s.flightR),
      Requests(s.flightS), s.asked, Replies(s.flightR), e.k);
  }

  lemma SrvSayKeeps(node: NodeId, s: State, e: Event)
    requires Inv(node, s) && e.SrvSay? && Step(node, s, e).Some?
    ensures Inv(node, Step(node, s, e).value)
  {
    hide Send;
    hide Flight;
    hide Replies;
    var m := Plain(s.srvFlag, e.cmd, e.payload);
    SendingDown(node, s, m);
    RepliesSnoc(s.flightR, m);
    Single(m);
  }

  lemma DropKeeps(node: NodeId, s: State)
    requires Inv(node, s)
    ensures Step(node, s, RdrDrop).Some? && Inv(node, Step(node, s, RdrDrop).value)
  {}

  // Every step keeps the invariant, as long as no answer arrives after its request was dropped.
  lemma StepKeeps(node: NodeId, s: State, e: Event)
    requires Inv(node, s) && Step(node, s, e).Some?
    requires e.RdrTake? ==> Matched(s)
    ensures Inv(node, Step(node, s, e).value)
  {
    hide Step;
    match e
    case Ask(_, _, _) => AskKeeps(node, s, e);
    case RdrSay(_, _) => RdrSayKeeps(node, s, e);
    case SrvTake =>
      SrvTakeIs(node, s);
      assert FromReader(s.flightS[0]);
      SrvTakeKeepsUp(node, s);
      SrvTakeKeepsRequest(node, s);
    case SrvAnswer(_, _) => SrvReplyKeeps(node, s, e);
    case SrvNok(_, _) => SrvReplyKeeps(node, s, e);
    case SrvSay(_, _) => SrvSayKeeps(node, s, e);
    case RdrTake =>
      RdrTakeIs(node, s);
      assert FromServer(s.flightR[0]);
      if s.flightR[0].Answer? { AnswerTaken(node, s); } else { OtherTaken(node, s); }
      RdrTakeKeepsRequest(node, s);
    case RdrDrop => DropKeeps(node, s);
  }

  // ---------------------------------------------------------------- whole runs

  // Right after login: mirrored blocks, nothing under way, no request.
  ghost predicate Start(s: State) {
    && WfState(s)
    && s.srvEnc == s.rdrDec == s.base && s.rdrEnc == s.srvDec
    && s.toRdr == [] && s.toSrv == [] && s.asked == [] && s.pending.None? && !s.busy
    && s.srvSent == [] && s.rdrGot == [] && s.rdrSent == [] && s.srvGot == []
    && s.flightR == [] && s.flightS == []
  }

  // The states of a run in which every answer the reader takes is matched to a card. The
  // condition is the reader's own test: an extended_ecm_idx entry exists when the message read
  // is MSG_CW_ECM.
  ghost predicate IsRun(node: NodeId, states: seq<State>, events: seq<Event>) {
    && |states| == |events| + 1
    && (forall i :: 0 <= i < |states| ==> WfState(states[i]))
    && (forall i :: 0 <= i < |events| ==> Step(node, states[i], events[i]) == Some(states[i + 1]))
    && (forall i :: 0 <= i < |events| && events[i].RdrTake? ==> AnswerMatched(states[i]))
  }

  ghost predicate AnswerMatched(s: State)
    requires WfState(s)
  {
    var r := Recv(s.rdrDec, s.toRdr, CC_MAXMSGSIZE);
    r.reply.Message? && r.reply.cmd == MSG_CW_ECM ==> s.pending.Some?
  }

  lemma MatchedIsReadersTest(node: NodeId, s: State)
    requires WfState(s) && Down(node, s)
    ensures AnswerMatched(s) <==> Matched(s)
  {
    hide Crypt;
    hide Recv;
    if s.flightR == [] {
      NothingArrives(s.rdrDec);
    } else {
      assert FromServer(s.flightR[0]);
      NextArrives(node, s.base, s.rdrDec, s.flightR);
    }
  }

  lemma OneMoreStep(node: NodeId, s: State, e: Event, s': State)
    requires Inv(node, s) && WfState(s) && Step(node, s, e) == Some(s')
    requires e.RdrTake? ==> AnswerMatched(s)
    ensures Inv(node, s')
  {
    hide Step;
    hide AnswerMatched;
    MatchedHere(node, s);
    StepKeeps(node, s, e);
  }

  lemma {:induction false} RunKeeps(node: NodeId, states: seq<State>, events: seq<Event>, n: nat)
    requires IsRun(node, states, events) && Start(states[0]) && n < |states|
    ensures Inv(node, states[n])
    decreases n
  {
    hide Step;
    hide Inv;
    hide AnswerMatched;
    hide WfState;
    if n == 0 {
      StartInv(node, states[0]);
    } else {
      RunKeeps(node, states, events, n - 1);
      OneMoreStep(node, states[n - 1], events[n - 1], states[n]);
    }
  }

  lemma MatchedHere(node: NodeId, s: State)
    requires Inv(node, s)
    ensures AnswerMatched(s) <==> Matched(s)
  {
    MatchedIsReadersTest(node, s);
  }

  lemma StartInv(node: NodeId, s: State)
    requires Start(s)
    ensures Inv(node, s)
  {
    assert Gots([]) == [];
    assert s.rdrGot + Gots(s.flightR) == [] && s.srvGot + Gots(s.flightS) == [];
  }

  // In every run in which each answer is matched to a card, both sides have received exactly the
  // commands, payloads and control words the other side sent, in order, up to what is under way;
  // and whatever is under way can be taken by the side it is for.
  lemma {:induction false} EverythingArrives(node: NodeId, states: seq<State>, events: seq<Event>, n: nat)
    requires IsRun(node, states, events) && Start(states[0]) && n < |states|
    ensures var s := states[n];
            && s.rdrGot <= s.srvSent && s.srvGot <= s.rdrSent
            && (s.toRdr == [] ==> s.rdrGot == s.srvSent)
            && (s.toSrv == [] ==> s.srvGot == s.rdrSent)
            && (s.toSrv != [] ==> Step(node, s, SrvTake).Some?)
            && (s.toRdr != [] && AnswerMatched(s) ==> Step(node, s, RdrTake).Some?)
            && (s.toRdr == [] ==> InStep(s.srvEnc, s.rdrDec))
            && (s.toSrv == [] ==> s.rdrEnc == s.srvDec)
  {
    hide Step;
    hide AnswerMatched;
    RunKeeps(node, states, events, n);
    var s := states[n];
    SrvTakeIs(node, s);
    RdrTakeIs(node, s);
    MatchedHere(node, s);
    if s.flightR != [] {
      assert FromServer(s.flightR[0]);
      SomethingUnderWay(node, s.base, s.flightR);
      if !s.flightR[0].Answer? {
        OtherTaken(node, s);
      } else if s.pending.Some? {
        AnswerTaken(node, s);
      }
    }
    if s.flightS != [] {
      SomethingUnderWay(node, s.srvDec, s.flightS);
    }
  }

  lemma SomethingUnderWay(node: NodeId, b: Block, ms: seq<Out>)
    requires Wf(b) && ms != []
    ensures Flight(node, b, ms).1 != []
  {
    hide Crypt;
  }

  lemma TakenIsWf(node: NodeId, s: State)
    requires WfState(s) && s.flightR != [] && AfterRdrTake(node, s).Some?
    ensures WfState(AfterRdrTake(node, s).value)
  {
    hide Crypt;
  }

  // Blocks whose counters differ get no nearer by processing equally many bytes.
  lemma CountersApart(b: Block, x: seq<Byte>, m: Mode, c: Block, y: seq<Byte>, n: Mode)
    requires Wf(b) && Wf(c) && b.counter != c.counter && |x| == |y|
    ensures !InStep(Crypt(b, x, m).0, Crypt(c, y, n).0)
  {
    hide Crypt;
    CounterCounts(b, x, m);
    CounterCounts(c, y, n);
    SameResidue(b.counter, c.counter, |x|);
  }

  lemma SameResidue(a: Byte, b: Byte, n: nat)
    ensures (a + n) % 256 == (b + n) % 256 ==> a == b
  {
  }

  // The condition is exact for every single answer: after the reader has taken it, its block is
  // in step with the server's, then and after any equal number of further bytes on both sides, if
  // and only if the answer was matched.
  lemma InStepIffMatched(node: NodeId, s: State, t: State, x: seq<Byte>, y: seq<Byte>)
    requires Inv(node, s) && s.flightR != [] && s.flightR[0].Answer?
    requires Step(node, s, RdrTake) == Some(t) && |x| == |y|
    ensures WfState(t)
    ensures var b := Send(node, s.base, s.flightR[0]).0;
      InStep(Crypt(b, x, Encrypt).0, Crypt(t.rdrDec, y, Decrypt).0) <==> s.pending.Some?
  {
    hide Crypt;
    hide Step;
    RdrTakeIs(node, s);
    TakenIsWf(node, s);
    var b, c := Send(node, s.base, s.flightR[0]).0, t.rdrDec;
    if s.pending.Some? {
      AnswerTaken(node, s);
      LengthKeepsStep(b, x, Encrypt, c, y, Decrypt);
    } else {
      var m := s.flightR[0];
      CounterCounts(Crypt(s.base, Text(node, m), Encrypt).0, Scramble(node, m.card, m.cws), Encrypt);
      CountersApart(b, x, Encrypt, c, y, Decrypt);
    }
  }

  // An answer under way to a reader that no longer waits for it, and the reader takes it
  ghost predicate MeetsNoRequest(node: NodeId, s: State) {
    && Inv(node, s) && s.flightR != [] && s.flightR[0].Answer? && s.pending.None?
    && Step(node, s, RdrTake).Some?
  }

  lemma AskStep(node: NodeId, s: State)
    requires Start(s)
    ensures var t := Step(node, s, Ask(1, [0, 0, 0, 0, 0, 0], []));
      && t.Some? && WfState(t.value) && t.value.asked == [] && t.value.pending == Some(1)
      && |t.value.flightS| == 1 && t.value.flightR == [] && t.value.flightS[0].Plain?
      && t.value.flightS[0].cmd == MSG_CW_ECM && CardOf(t.value.flightS[0].payload) == 1
  {
    hide Crypt;
    CardOfRequest(1, [0, 0, 0, 0, 0, 0], []);
  }

  lemma TakeStep(node: NodeId, s: State)
    requires Inv(node, s) && |s.flightS| == 1 && s.flightS[0].Plain? && s.flightS[0].cmd == MSG_CW_ECM
    ensures var t := Step(node, s, SrvTake);
      && t.Some? && WfState(t.value) && t.value.asked == s.asked + [CardOf(s.flightS[0].payload)]
      && t.value.flightR == s.flightR && t.value.pending == s.pending
  {
    hide Crypt, Recv, Step;
    SrvTakeIs(node, s);
    SrvTakeKeepsUp(node, s);
  }

  lemma AnswerStep(node: NodeId, s: State, cws: Words)
    requires Inv(node, s) && |s.asked| == 1 && s.flightR == []
    ensures var t := Step(node, s, SrvAnswer(0, cws));
      t.Some? && WfState(t.value) && |t.value.flightR| == 1 && t.value.flightR[0].Answer?
  {
    hide Crypt;
  }

  lemma DropStep(node: NodeId, s: State)
    requires Inv(node, s) && s.flightR != [] && s.flightR[0].Answer?
    ensures Step(node, s, RdrDrop).Some? && WfState(Step(node, s, RdrDrop).value)
    ensures MeetsNoRequest(node, Step(node, s, RdrDrop).value)
  {
    hide Crypt, Recv, Flight;
    DropKeeps(node, s);
    var t := Step(node, s, RdrDrop).value;
    RdrTakeIs(node, t);
  }

  // Runs from every login get there: ask, let the server take and answer the request, and drop
  // it meanwhile.
  lemma AnswerMeetsNoRequest(node: NodeId, s: State, cws: Words)
    requires Start(s)
    ensures exists states, events ::
      IsRun(node, states, events) && states[0] == s && MeetsNoRequest(node, states[|states| - 1])
  {
    hide Step, Crypt, Inv, WfState, MeetsNoRequest, Start;
    var ask := Ask(1, [0, 0, 0, 0, 0, 0], []);
    StartInv(node, s);
    AskStep(node, s);
    OneMoreStep(node, s, ask, Step(node, s, ask).value);
    var s1 := Step(node, s, ask).value;
    TakeStep(node, s1);
    var s2 := Step(node, s1, SrvTake).value;
    OneMoreStep(node, s1, SrvTake, s2);
    AnswerStep(node, s2, cws);
    var s3 := Step(node, s2, SrvAnswer(0, cws)).value;
    OneMoreStep(node, s2, SrvAnswer(0, cws), s3);
    DropStep(node, s3);
    var s4 := Step(node, s3, RdrDrop).value;
    RunOfFour(node, [s, s1, s2, s3, s4], [ask, SrvTake, SrvAnswer(0, cws), RdrDrop]);
  }

  lemma RunOfFour(node: NodeId, states: seq<State>, events: seq<Event>)
    requires |states| == 5 && |events| == 4 && (forall i :: 0 <= i < 5 ==> WfState(states[i]))
    requires forall i :: 0 <= i < 4 ==> Step(node, states[i], events[i]) == Some(states[i + 1])
    requires forall i :: 0 <= i < 4 ==> !events[i].RdrTake?
    ensures IsRun(node, states, events)
  {
  }
}
