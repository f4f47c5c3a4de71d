// The control-word exchange of a CCcam connection that is not in extended mode. Both sides run
// the cipher once more over the words they hold: the server over the scrambled words, the
// reader over the unscrambled ones, so their blocks disagree on the state byte afterwards.
module CcExchange {
  import opened Bytes
  import opened Wrappers
  import opened CcCrypt
  import opened CcChannel

  const MSG_CW_ECM: Byte := 1    // request and answer
  const MSG_CW_NOK1: Byte := 0xfe  // share no more available
  const MSG_CW_NOK2: Byte := 0xff  // no decoding

  // ---------------------------------------------------------------- cc_cw_crypt

  type NodeId = s: seq<Byte> | |s| == 8 witness [0, 0, 0, 0, 0, 0, 0, 0]

  // The first n bytes as a big-endian number (b2ll)
  function Number(node: NodeId, n: nat): (r: nat)
    requires n <= 8
  {
    if n == 0 then 0 else 256 * Number(node, n - 1) + node[n - 1]
  }

  function Shifted(a: nat, n: nat): nat { if n == 0 then a else Shifted(a / 2, n - 1) }

  // (uint8_t)(node_id >> (4 * i)): the shift brings in the sign, four digits of it at most.
  function NodeByte(node: NodeId, i: nat): Byte
    requires i < 16
  {
    Shifted(Number(node, 8) + (if node[0] >= 128 then 15 else 0) * 0x1_0000_0000_0000_0000, 4 * i) % 256
  }

  // (uint8_t)(cardid >> (2 * i))
  function CardByte(card: nat, i: nat): Byte { Shifted(card, 2 * i) % 256 }

  function ScrambleByte(node: NodeId, card: nat, i: nat, w: Byte): Byte
    requires i < 16
  {
    var t := Xor(w, NodeByte(node, i));
    Xor(CardByte(card, i), if i % 2 == 1 then Not(t) else t)
  }

  type Words = s: seq<Byte> | |s| == 16 witness seq(16, _ => 0)

  function Scramble(node: NodeId, card: nat, cws: Words): (r: Words)
    ensures forall i :: 0 <= i < 16 ==> r[i] == ScrambleByte(node, card, i, cws[i])
  {
    seq(16, i requires 0 <= i < 16 => ScrambleByte(node, card, i, cws[i]))
  }

  method CwCrypt(node: NodeId, cws: array<Byte>, card: nat)
    requires cws.Length == 16
    modifies cws
    ensures cws[..] == Scramble(node, card, old(cws[..]))
    ensures forall i, k :: 0 <= i < 16 && 0 <= k < 8 ==> Scrambled(node, card, old(cws[i]), cws[i], i, k)
  {
    for i := 0 to 16
      invariant forall k :: 0 <= k < i ==> cws[k] == ScrambleByte(node, card, k, old(cws[k]))
      invariant forall k :: i <= k < 16 ==> cws[k] == old(cws[k])
    {
      var tmp := Xor(cws[i], NodeByte(node, i));
      if i % 2 == 1 {
        tmp := Not(tmp);
      }
      cws[i] := Xor(CardByte(card, i), tmp);
    }
    forall i, k | 0 <= i < 16 && 0 <= k < 8 ensures Scrambled(node, card, old(cws[i]), cws[i], i, k) {
      ScrambledDigit(node, card, old(cws[i]), i, k);
    }
  }

  // Digit d of the signed 64-bit node id, whose last byte holds the lowest digits
  predicate NodeDigit(node: NodeId, d: nat) {
    if d < 64 then Digit(node[7 - d / 8], d % 8) else Digit(node[0], 7)
  }

  // What the scrambling makes of digit k of word byte i, w becoming r
  ghost predicate Scrambled(node: NodeId, card: nat, w: Byte, r: Byte, i: nat, k: nat) {
    Digit(r, k) <==> (Digit(w, k) != NodeDigit(node, 4 * i + k)) != (Digit(card, 2 * i + k) != (i % 2 == 1))
  }

  // The low n digits of a sum with a multiple of 2^n, and those above
  lemma {:induction false} DigitOfSum(a: nat, b: nat, n: nat, d: nat)
    requires a < Pow2(n)
    ensures Digit(a + b * Pow2(n), d) == if d < n then Digit(a, d) else Digit(b, d - n)
    decreases n
  {
    if n != 0 {
      var p := b * Pow2(n - 1);
      assert b * Pow2(n) == 2 * p;
      assert (a + 2 * p) / 2 == a / 2 + p && (a + 2 * p) % 2 == a % 2;
      if d != 0 {
        DigitOfSum(a / 2, b, n - 1, d - 1);
      }
    }
  }

  lemma {:induction false} DigitOfShifted(a: nat, n: nat, d: nat)
    ensures Digit(Shifted(a, n), d) == Digit(a, n + d)
    decreases n
  {
    if n != 0 {
      DigitOfShifted(a / 2, n - 1, d);
    }
  }

  lemma DigitOfByte(a: nat, k: nat)
    requires k < 8
    ensures Digit(a % 256, k) == Digit(a, k)
  {
    assert Pow2(8) == 256;
    DigitOfSum(a % 256, a / 256, 8, k);
  }

  lemma {:induction false} DigitOfNumber(node: NodeId, n: nat, d: nat)
    requires n <= 8 && d < 8 * n
    ensures Digit(Number(node, n), d) == Digit(node[n - 1 - d / 8], d % 8)
    decreases n
  {
    var last: nat := node[n - 1];
    assert Pow2(8) == 256;
    DigitOfSum(last, Number(node, n - 1), 8, d);
    if d >= 8 {
      DigitOfNumber(node, n - 1, d - 8);
    }
  }

  lemma {:induction false} NumberBound(node: NodeId, n: nat)
    requires n <= 8
    ensures Number(node, n) < Pow2(8 * n)
  {
    if n != 0 {
      NumberBound(node, n - 1);
      PowerOfEight(8 * (n - 1));
    }
  }

  lemma PowerOfEight(m: nat)
    ensures Pow2(m + 8) == 256 * Pow2(m)
  {
    assert Pow2(m + 8) == 2 * Pow2(m + 7) == 4 * Pow2(m + 6) == 8 * Pow2(m + 5) == 16 * Pow2(m + 4);
    assert Pow2(m + 4) == 2 * Pow2(m + 3) == 4 * Pow2(m + 2) == 8 * Pow2(m + 1) == 16 * Pow2(m);
  }

  lemma NodeByteDigit(node: NodeId, i: nat, k: nat)
    requires i < 16 && k < 8
    ensures Digit(NodeByte(node, i), k) == NodeDigit(node, 4 * i + k)
  {
    var sign := if node[0] >= 128 then 15 else 0;
    var d := 4 * i + k;
    var wide := Number(node, 8) + sign * 0x1_0000_0000_0000_0000;
    DigitOfByte(Shifted(wide, 4 * i), k);
    DigitOfShifted(wide, 4 * i, k);
    NumberBound(node, 8);
    TwoTo64();
    DigitOfSum(Number(node, 8), sign, 64, d);
    if d < 64 {
      DigitOfNumber(node, 8, d);
    } else {
      SignDigit(node[0], d - 64);
    }
  }

  lemma TwoTo64()
    ensures Pow2(64) == 0x1_0000_0000_0000_0000
  {
    assert Pow2(0) == 1;
    PowerOfEight(0);
    PowerOfEight(8);
    PowerOfEight(16);
    PowerOfEight(24);
    PowerOfEight(32);
    PowerOfEight(40);
    PowerOfEight(48);
    PowerOfEight(56);
  }

  lemma SignDigit(a: Byte, d: nat)
    requires d < 4
    ensures Digit(if a >= 128 then 15 else 0, d) == Digit(a, 7)
  {
    var n: nat := a;
    assert Pow2(7) == 128;
    DigitOfSum(n % 128, n / 128, 7, 7);
    assert Digit(15, d);
    ZeroDigits(d);
  }

  lemma CardByteDigit(card: nat, i: nat, k: nat)
    requires k < 8
    ensures Digit(CardByte(card, i), k) == Digit(card, 2 * i + k)
  {
    DigitOfByte(Shifted(card, 2 * i), k);
    DigitOfShifted(card, 2 * i, k);
  }

  lemma ScrambledDigit(node: NodeId, card: nat, w: Byte, i: nat, k: nat)
    requires i < 16 && k < 8
    ensures Scrambled(node, card, w, ScrambleByte(node, card, i, w), i, k)
  {
    hide Digit, NodeByte, CardByte;
    NodeByteDigit(node, i, k);
    CardByteDigit(card, i, k);
    var n, c := NodeByte(node, i), CardByte(card, i);
    var t := Xor(w, n);
    XorDigit(w, n, k);
    NotDigit(t, k);
    XorDigit(c, if i % 2 == 1 then Not(t) else t, k);
  }

  lemma XorDigit(a: Byte, b: Byte, k: nat)
    requires k < 8
    ensures Digit(Xor(a, b), k) == (Digit(a, k) != Digit(b, k))
  {
    assert IsXor(a, b, Xor(a, b));
  }

  lemma NotDigit(a: Byte, k: nat)
    requires k < 8
    ensures Digit(Not(a), k) == !Digit(a, k)
  {
    assert Pow2(8) == 256;
    OnesDigits(a, 8, k);
  }

  // Every digit of the scrambled words: the word's, the one 4 i + k places up in the signed 64-bit
  // node id (the lowest in its last byte, the sign from 64 on), the one 2 i + k places up in the
  // card id, and one more on odd bytes, combined by exclusive or.
  lemma ScrambledDigits(node: NodeId, card: nat, cws: Words, i: nat, k: nat)
    requires i < 16 && k < 8
    ensures var d := 4 * i + k;
      var fromNode := if d < 64 then Digit(node[7 - d / 8], d % 8) else Digit(node[0], 7);
      Digit(Scramble(node, card, cws)[i], k) ==
      ((Digit(cws[i], k) != fromNode) != (Digit(card, 2 * i + k) != (i % 2 == 1)))
  {
    hide Digit;
    ScrambledDigit(node, card, cws[i], i, k);
  }

  lemma ScrambleByteTwice(w: Byte, n: Byte, c: Byte)
    ensures Xor(c, Xor(Xor(c, Xor(w, n)), n)) == w
    ensures Xor(c, Not(Xor(Xor(c, Not(Xor(w, n))), n))) == w
  {
    var t := Xor(w, n);
    XorAssociates(c, t, n);
    XorCancels(w, n);
    XorCancels(w, c);
    XorCommutes(c, w);
    XorAssociates(c, Not(t), n);
    NotXor(n, t);
    XorCommutes(Not(t), n);
    XorCommutes(t, n);
    NotXor(c, Not(w));
    NotXor(w, w);
    XorCancels(Not(w), c);
  }

  // Scrambling with the same node and card twice gives the words back.
  lemma Unscrambles(node: NodeId, card: nat, cws: Words)
    ensures Scramble(node, card, Scramble(node, card, cws)) == cws
  {
    forall i | 0 <= i < 16
      ensures Scramble(node, card, Scramble(node, card, cws))[i] == cws[i]
    {
      ScrambleByteTwice(cws[i], NodeByte(node, i), CardByte(card, i));
    }
  }

  // ---------------------------------------------------------------- the two calls

  // Anything either side sends: an ordinary message, a refusal of the request for a card, or
  // the words for that card.
  datatype Out =
    | Plain(flag: Byte, cmd: Byte, payload: seq<Byte>)
    | Nok(flag: Byte, cmd: Byte, card: nat)
    | Answer(flag: Byte, card: nat, cws: Words)

  function Text(node: NodeId, m: Out): seq<Byte> {
    match m
    case Plain(flag, cmd, payload) => Frame(flag, cmd, payload)
    case Nok(flag, cmd, _) => Frame(flag, cmd, [])
    case Answer(flag, card, cws) => Frame(flag, MSG_CW_ECM, Scramble(node, card, cws))
  }

  function Send(node: NodeId, b: Block, m: Out): (r: (Block, seq<Byte>))
    requires Wf(b)
    ensures Wf(r.0)
  {
    var (b1, w) := Crypt(b, Text(node, m), Encrypt);
    (if m.Answer? then Crypt(b1, Scramble(node, m.card, m.cws), Encrypt).0 else b1, w)
  }

  // The found branch of cc_send_dcw
  method SendDcw(ch: Channel, node: NodeId, card: nat, cw: Words) returns (net: seq<Byte>)
    requires ch.Valid()
    modifies ch.enc, ch.enc.keytable
    ensures ch.Valid() && ch.dec.Value() == old(ch.dec.Value())
    ensures (ch.enc.Value(), net) == Send(node, old(ch.enc.Value()), Answer(ch.gFlag, card, cw))
  {
    hide Crypt;
    var buf := new Byte[16](i requires 0 <= i < 16 => cw[i]);
    assert buf[..] == cw;
    CwCrypt(node, buf, card);
    net := ch.CmdSend(buf[..], MSG_CW_ECM);
    assert buf[0..16] == Scramble(node, card, cw);
    ch.enc.CryptInPlace(buf, 0, 16, Encrypt);
  }

  // What the reader does with the payload of an answer for `card`.
  function TakeWords(node: NodeId, b: Block, card: nat, payload: Words): (r: (Block, Words))
    requires Wf(b)
    ensures Wf(r.0)
  {
    var w := Scramble(node, card, payload);
    (Crypt(b, w, Encrypt).0, w)
  }

  // The reader's branch of MSG_CW_ECM, once the request's card is known
  method ReadDcw(ch: Channel, node: NodeId, card: nat, payload: Words) returns (dcw: Words)
    requires ch.Valid()
    modifies ch.dec, ch.dec.keytable
    ensures ch.Valid() && ch.enc.Value() == old(ch.enc.Value())
    ensures (ch.dec.Value(), dcw) == TakeWords(node, old(ch.dec.Value()), card, payload)
  {
    hide Crypt;
    var buf := new Byte[16](i requires 0 <= i < 16 => payload[i]);
    assert buf[..] == payload;
    CwCrypt(node, buf, card);
    dcw := buf[..];
    assert buf[0..16] == dcw;
    ch.dec.CryptInPlace(buf, 0, 16, Encrypt);
  }

  // ---------------------------------------------------------------- the connection

  // What a side has received, leaving out the flag byte.
  datatype Got = GotMsg(cmd: Byte, payload: seq<Byte>) | GotWords(cws: Words)

  datatype State = State(
    // blocks and flags of the two sides
    srvEnc: Block, srvDec: Block, rdrEnc: Block, rdrDec: Block, srvFlag: Byte, rdrFlag: Byte,
    // bytes under way
    toRdr: seq<Byte>, toSrv: seq<Byte>,
    // cards of the requests the server has not answered (extended_ecm_idx of the server)
    asked: seq<nat>,
    // the reader's extended_ecm_idx entry for send index 1, and its ecm_busy lock
    pending: Option<nat>, busy: bool,
    // history: what was sent and received, what is under way, and the server's ENCRYPT block as
    // it was after the last message the reader took; no step looks at these
    srvSent: seq<Got>, rdrGot: seq<Got>, rdrSent: seq<Got>, srvGot: seq<Got>,
    flightR: seq<Out>, flightS: seq<Out>, base: Block)

  datatype Event =
    | Ask(card: nat, front: seq<Byte>, tail: seq<Byte>)  // reader: cc_send_ecm
    | RdrSay(cmd: Byte, payload: seq<Byte>)   // reader: any other cc_cmd_send
    | SrvTake                                 // server: cc_msg_recv and cc_parse_msg
    | SrvAnswer(k: nat, cws: Words)           // server: cc_send_dcw, found
    | SrvNok(k: nat, cmd: Byte)               // server: cc_send_dcw, not found
    | SrvSay(cmd: Byte, payload: seq<Byte>)   // server: any other cc_cmd_send
    | RdrTake                                 // reader: cc_msg_recv and cc_parse_msg
    | RdrDrop                                 // reader: free_extended_ecm_idx_by_card

  function CardBytes(card: nat): (s: seq<Byte>)
    requires card < 0x1_0000_0000
    ensures |s| == 4
  {
    [card / 0x100_0000, card / 0x1_0000 % 256, card / 256 % 256, card % 256]
  }

  // The card id in a request, bytes 6..9 of its payload.
  function CardOf(p: seq<Byte>): nat {
    if |p| < 10 then 0 else 0x100_0000 * (p[6] as int) + 0x1_0000 * (p[7] as int) + 256 * (p[8] as int) + p[9]
  }

  lemma CardOfRequest(card: nat, front: seq<Byte>, tail: seq<Byte>)
    requires card < 0x1_0000_0000 && |front| == 6
    ensures CardOf(front + CardBytes(card) + tail) == card
  {
    var p := front + CardBytes(card) + tail;
    assert p[6] == CardBytes(card)[0] && p[7] == CardBytes(card)[1] &&
      p[8] == CardBytes(card)[2] && p[9] == CardBytes(card)[3];
  }

  predicate IsNok(cmd: Byte) { cmd == MSG_CW_NOK1 || cmd == MSG_CW_NOK2 }

  // Messages that neither ask nor answer.
  predicate Neutral(cmd: Byte, payload: seq<Byte>) {
    cmd != MSG_CW_ECM && !(IsNok(cmd) && payload == []) && |payload| <= CC_MAXMSGSIZE
  }

  function GotOf(m: Out): Got {
    match m
    case Plain(_, cmd, payload) => GotMsg(cmd, payload)
    case Nok(_, cmd, _) => GotMsg(cmd, [])
    case Answer(_, _, cws) => GotWords(cws)
  }

  function RdrSend(node: NodeId, s: State, m: Out): State
    requires Wf(s.rdrEnc)
  {
    var (b, w) := Send(node, s.rdrEnc, m);
    s.(rdrEnc := b, toSrv := s.toSrv + w, rdrSent := s.rdrSent + [GotOf(m)], flightS := s.flightS + [m])
  }

  function SrvSend(node: NodeId, s: State, m: Out): State
    requires Wf(s.srvEnc)
  {
    var (b, w) := Send(node, s.srvEnc, m);
    s.(srvEnc := b, toRdr := s.toRdr + w, srvSent := s.srvSent + [GotOf(m)], flightR := s.flightR + [m])
  }

  function Tail<T>(s: seq<T>): seq<T> { if s == [] then [] else s[1..] }

  // The server has read a message.
  function SrvAccept(s: State, b: Block, rest: seq<Byte>, flag: Byte, cmd: Byte, payload: seq<Byte>): State {
    s.(srvDec := b, toSrv := rest, srvFlag := flag, srvGot := s.srvGot + [GotMsg(cmd, payload)],
      flightS := Tail(s.flightS),
       asked := if cmd == MSG_CW_ECM then s.asked + [CardOf(payload)] else s.asked)
  }

  // The reader has read a message; None where its payload has a length the server never sends.
  function RdrAccept(
      node: NodeId, s: State, b: Block, rest: seq<Byte>, flag: Byte, cmd: Byte, payload: seq<Byte>)
      : Option<State>
    requires Wf(b) && Wf(s.base)
  {
    var t := s.(rdrDec := b, toRdr := rest, rdrFlag := flag, flightR := Tail(s.flightR),
                base := if s.flightR == [] then s.base else Send(node, s.base, s.flightR[0]).0);
    if cmd == MSG_CW_ECM then
      if s.pending.None? then Some(t.(busy := false, rdrGot := s.rdrGot + [GotMsg(cmd, payload)]))
      else if |payload| != 16 then None
      else
        var (b', w) := TakeWords(node, b, s.pending.value, payload);
        Some(t.(rdrDec := b', pending := None, busy := false, rdrGot := s.rdrGot + [GotWords(w)]))
    else if IsNok(cmd) && payload == [] then
      Some(t.(pending := None, busy := false, rdrGot := s.rdrGot + [GotMsg(cmd, payload)]))
    else Some(t.(rdrGot := s.rdrGot + [GotMsg(cmd, payload)]))
  }

  ghost predicate WfState(s: State) {
    Wf(s.srvEnc) && Wf(s.srvDec) && Wf(s.rdrEnc) && Wf(s.rdrDec) && Wf(s.base)
  }

  function Remove<T>(s: seq<T>, k: nat): seq<T>
    requires k < |s|
  {
    s[..k] + s[k + 1..]
  }

  // One atomic step of either side; None if it is not enabled.
  function Step(node: NodeId, s: State, e: Event): Option<State>
    requires WfState(s)
  {
    match e
    case Ask(card, front, tail) =>
      if s.busy || card >= 0x1_0000_0000 || |front| != 6 || |tail| > CC_MAXMSGSIZE - 10 then None
      else Some(RdrSend(node, s, Plain(s.rdrFlag, MSG_CW_ECM, front + CardBytes(card) + tail))
        .(pending := Some(card), busy := true))
    case RdrSay(cmd, payload) =>
      if !Neutral(cmd, payload) then None else Some(RdrSend(node, s, Plain(s.rdrFlag, cmd, payload)))
    case SrvTake =>
      var r := Recv(s.srvDec, s.toSrv, CC_MAXMSGSIZE);
      if !r.reply.Message? then None
      else Some(SrvAccept(s, r.block, r.rest, r.reply.flag, r.reply.cmd, r.reply.payload))
    case SrvAnswer(k, cws) =>
      if k >= |s.asked| then None
      else Some(SrvSend(node, s, Answer(s.srvFlag, s.asked[k], cws)).(asked := Remove(s.asked, k)))
    case SrvNok(k, cmd) =>
      if k >= |s.asked| || !IsNok(cmd) then None
      else Some(SrvSend(node, s, Nok(s.srvFlag, cmd, s.asked[k])).(asked := Remove(s.asked, k)))
    case SrvSay(cmd, payload) =>
      if !Neutral(cmd, payload) then None else Some(SrvSend(node, s, Plain(s.srvFlag, cmd, payload)))
    case RdrTake =>
      var r := Recv(s.rdrDec, s.toRdr, CC_MAXMSGSIZE);
      if !r.reply.Message? then None
      else RdrAccept(node, s, r.block, r.rest, r.reply.flag, r.reply.cmd, r.reply.payload)
    case RdrDrop => Some(s.(pending := None))
  }
}
