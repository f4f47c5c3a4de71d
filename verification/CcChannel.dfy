// Framing of CCcam messages (cc_cmd_send, cc_msg_recv) over the two cipher blocks of a
// connection.
module CcChannel {
  import opened Bytes
  import opened CcCrypt

  const MSG_NO_HEADER: nat := 0xffff
  const CC_MAXMSGSIZE: nat := 0x400

  function Frame(flag: Byte, cmd: Byte, payload: seq<Byte>): (f: seq<Byte>)
    ensures |f| == 4 + |payload|
  {
    [flag, cmd, |payload| / 256 % 256, |payload| % 256] + payload
  }

  function Size(hi: nat, lo: nat): nat { hi * 256 + lo }

  // What cc_msg_recv makes of the stream: the message, or why there is none.
  datatype Reply =
    | Closed                                     // returns -1: the stream ended too early
    | TooBig(flag: Byte, cmd: Byte, size: nat)   // returns 0 and leaves the payload in the stream
    | Message(flag: Byte, cmd: Byte, payload: seq<Byte>)

  // Block afterwards, bytes left in the stream, result.
  datatype Received = Received(block: Block, rest: seq<Byte>, reply: Reply)

  function Recv(b: Block, stream: seq<Byte>, maxlen: nat): (r: Received)
    requires Wf(b)
    ensures Wf(r.block)
  {
    if maxlen < 4 then Received(b, stream, Closed)
    else if |stream| < 4 then Received(b, [], Closed)
    else
      var (b1, h) := Crypt(b, stream[..4], Decrypt);
      RecvBody(b1, h, stream[4..], maxlen)
  }

  // The same call once the header h is decrypted and `more` is still to come.
  function RecvBody(b: Block, h: seq<Byte>, more: seq<Byte>, maxlen: nat): (r: Received)
    requires Wf(b) && |h| == 4
    ensures Wf(r.block)
  {
    var size := Size(h[2], h[3]);
    if size == 0 then Received(b, more, Message(h[0], h[1], []))
    else if size > maxlen then Received(b, more, TooBig(h[0], h[1], size))
    else if |more| < size then Received(b, [], Closed)
    else
      var (b', p) := Crypt(b, more[..size], Decrypt);
      Received(b', more[size..], Message(h[0], h[1], p))
  }

  // cc->g_flag after the call: the first header byte as soon as a header was read.
  function FlagAfter(flag: Byte, b: Block, stream: seq<Byte>, maxlen: nat): Byte
    requires Wf(b)
  {
    if maxlen < 4 || |stream| < 4 then flag else Crypt(b, stream[..4], Decrypt).1[0]
  }

  // The parts of struct cc_data that sending and receiving touch.
  class Channel {
    var gFlag: Byte
    const enc: CryptBlock
    const dec: CryptBlock

    ghost function Repr(): set<object> {
      {this, enc, dec, enc.keytable, dec.keytable}
    }

    ghost predicate Valid()
      reads Repr()
    {
      && enc != dec && enc.keytable != dec.keytable
      && enc.Valid() && dec.Valid()
    }

    constructor ()
      ensures Valid() && fresh(Repr())
    {
      gFlag := 0;
      enc := new CryptBlock();
      dec := new CryptBlock();
    }

    // cc_cmd_send: the bytes handed to send()
    method CmdSend(buf: seq<Byte>, cmd: nat) returns (net: seq<Byte>)
      requires Valid()
      modifies enc, enc.keytable
      ensures Valid() && dec.Value() == old(dec.Value())
      ensures (enc.Value(), net) ==
              Crypt(old(enc.Value()), if cmd == MSG_NO_HEADER then buf else Frame(gFlag, cmd % 256, buf), Encrypt)
    {
      hide Crypt, Frame;
      var plain := if cmd == MSG_NO_HEADER then buf else Frame(gFlag, cmd % 256, buf);
      var netbuf := new Byte[|plain|](i requires 0 <= i < |plain| => plain[i]);
      assert netbuf[0..|plain|] == plain;
      enc.CryptInPlace(netbuf, 0, |plain|, Encrypt);
      net := netbuf[0..|plain|];
    }

    // cc_msg_recv on the bytes that arrive before the peer stops sending
    method MsgRecv(stream: seq<Byte>, maxlen: nat) returns (rest: seq<Byte>, reply: Reply)
      requires Valid()
      modifies this, dec, dec.keytable
      ensures Valid() && enc.Value() == old(enc.Value())
      ensures Received(dec.Value(), rest, reply) == Recv(old(dec.Value()), stream, maxlen)
      ensures gFlag == FlagAfter(old(gFlag), old(dec.Value()), stream, maxlen)
    {
      if maxlen < 4 {
        return stream, Closed;
      }
      if |stream| < 4 {
        return [], Closed;
      }
      var head := new Byte[4](i requires 0 <= i < 4 => stream[i]);
      assert head[0..4] == stream[..4];
      dec.CryptInPlace(head, 0, 4, Decrypt);
      gFlag := head[0];
      rest, reply := MsgBody(head[0..4], stream[4..], maxlen);
    }

    // The rest of cc_msg_recv, after the header.
    method MsgBody(h: seq<Byte>, more: seq<Byte>, maxlen: nat) returns (rest: seq<Byte>, reply: Reply)
      requires Valid() && |h| == 4
      modifies dec, dec.keytable
      ensures Valid() && enc.Value() == old(enc.Value())
      ensures Received(dec.Value(), rest, reply) == RecvBody(old(dec.Value()), h, more, maxlen)
    {
      var size := Size(h[2], h[3]);
      if size == 0 {
        return more, Message(h[0], h[1], []);
      }
      if size > maxlen {
        return more, TooBig(h[0], h[1], size);
      }
      if |more| < size {
        return [], Closed;
      }
      var buf := new Byte[size](i requires 0 <= i < size => more[i]);
      assert buf[0..size] == more[..size];
      dec.CryptInPlace(buf, 0, size, Decrypt);
      return more[size..], Message(h[0], h[1], buf[0..size]);
    }
  }

  // ---------------------------------------------------------------- properties

  ghost predicate Fits(payload: seq<Byte>, maxlen: nat) {
    |payload| < 65536 && |payload| <= maxlen
  }

  // The receiver's view of one frame when the blocks are in step: everything arrives except
  // that the flag byte is off by the difference of the state bytes; afterwards the receiver's
  // block equals the sender's.
  lemma FrameArrives(b: Block, c: Block, flag: Byte, cmd: Byte, payload: seq<Byte>, rest: seq<Byte>, maxlen: nat)
    requires InStep(b, c) && 4 <= maxlen && Fits(payload, maxlen)
    ensures var (b', wire) := Crypt(b, Frame(flag, cmd, payload), Encrypt);
            Recv(c, wire + rest, maxlen) ==
            Received(b', rest, Message(Xor(flag, Xor(b.state, c.state)), cmd, payload))
  {
    hide Crypt;
    hide RecvBody;
    var f := Frame(flag, cmd, payload);
    var (b', wire) := Crypt(b, f, Encrypt);
    StateHeals(b, f, c);
    CryptSplit(c, wire, 4, Decrypt);
    var got := Crypt(c, wire, Decrypt).1;
    assert got[4..] == payload && got[..4] == [got[0], cmd, f[2], f[3]];
    ConcatSplit(wire, rest);
    BodyArrives(Crypt(c, wire[..4], Decrypt).0, got[..4], wire[4..], rest, maxlen, b', payload);
  }

  lemma ConcatSplit(wire: seq<Byte>, rest: seq<Byte>)
    requires 4 <= |wire|
    ensures (wire + rest)[..4] == wire[..4] && (wire + rest)[4..] == wire[4..] + rest
  {}

  lemma BodyArrives(c: Block, h: seq<Byte>, tail: seq<Byte>, rest: seq<Byte>, maxlen: nat, b: Block, payload: seq<Byte>)
    requires Wf(c) && |h| == 4 && Fits(payload, maxlen) && Crypt(c, tail, Decrypt) == (b, payload)
    requires h[2] == |payload| / 256 % 256 && h[3] == |payload| % 256
    ensures RecvBody(c, h, tail + rest, maxlen) == Received(b, rest, Message(h[0], h[1], payload))
  {
    hide Crypt;
    hide Wf;
    SizeField(|payload|);
    assert (tail + rest)[..|payload|] == tail && (tail + rest)[|payload|..] == rest;
    if payload == [] {
      NothingToCrypt(c, Decrypt);
      assert tail == [] && tail + rest == rest;
    }
  }

  lemma SizeField(n: nat)
    ensures Size(n / 256 % 256, n % 256) == n % 65536
  {}

  // Over equal blocks one message is read back exactly as sent if and only if its length fits
  // the 16-bit field and the receiver's limit.
  lemma MessageArrivesIff(b: Block, flag: Byte, cmd: Byte, payload: seq<Byte>, rest: seq<Byte>, maxlen: nat)
    requires Wf(b) && 4 <= maxlen
    ensures Recv(b, Crypt(b, Frame(flag, cmd, payload), Encrypt).1 + rest, maxlen).reply == Message(flag, cmd, payload)
            <==> Fits(payload, maxlen)
  {
    hide Crypt;
    if Fits(payload, maxlen) {
      FrameArrives(b, b, flag, cmd, payload, rest, maxlen);
      XorZero(b.state);
      XorZero(flag);
    } else {
      var f := Frame(flag, cmd, payload);
      var wire := Crypt(b, f, Encrypt).1;
      RoundTrip(b, f, Encrypt);
      CryptSplit(b, wire, 4, Decrypt);
      assert (wire + rest)[..4] == wire[..4];
      SizeField(|payload|);
    }
  }

  // The reply has the flag, command and size of this header, if there is one.
  predicate HasHeader(r: Reply, h: seq<Byte>)
    requires |h| == 4
  {
    match r
    case Closed => true
    case TooBig(f, c, n) => f == h[0] && c == h[1] && n == Size(h[2], h[3])
    case Message(f, c, p) => f == h[0] && c == h[1] && |p| == Size(h[2], h[3])
  }

  lemma NextHeader(c: Block, stream: seq<Byte>, maxlen: nat, h: seq<Byte>)
    requires Wf(c) && 4 <= |stream| && |h| == 4 && Crypt(c, stream[..4], Decrypt).1 == h
    ensures HasHeader(Recv(c, stream, maxlen).reply, h)
  {
    hide Crypt;
  }

  // The header read, with a size that is refused
  lemma HeaderRefused(c: Block, wire: seq<Byte>, rest: seq<Byte>, maxlen: nat, h: seq<Byte>)
    requires Wf(c) && 4 <= maxlen && 4 <= |wire| && |h| == 4 && Crypt(c, wire[..4], Decrypt).1 == h
    requires Size(h[2], h[3]) > maxlen
    ensures Recv(c, wire + rest, maxlen) ==
      Received(Crypt(c, wire[..4], Decrypt).0, wire[4..] + rest, TooBig(h[0], h[1], Size(h[2], h[3])))
  {
    hide Crypt;
    ConcatSplit(wire, rest);
  }

  lemma FrameParts(flag: Byte, cmd: Byte, payload: seq<Byte>)
    requires |payload| < 65536
    ensures var f := Frame(flag, cmd, payload);
      f[..4] == [flag, cmd, f[2], f[3]] && Size(f[2], f[3]) == |payload| && f[4..] == payload
  {
    SizeField(|payload|);
  }

  // A payload that is refused for its size is what the next call reads: its first four bytes are
  // the next header, flag and command included.
  lemma RefusedIsReadNext(b: Block, flag: Byte, cmd: Byte, payload: seq<Byte>, rest: seq<Byte>, maxlen: nat)
    requires Wf(b) && 4 <= maxlen < |payload| < 65536
    ensures var r := Recv(b, Crypt(b, Frame(flag, cmd, payload), Encrypt).1 + rest, maxlen);
      && r.reply == TooBig(flag, cmd, |payload|)
      && |r.rest| == |payload| + |rest| && HasHeader(Recv(r.block, r.rest, maxlen).reply, payload[..4])
  {
    hide Crypt, HasHeader, Frame, Recv;
    var f := Frame(flag, cmd, payload);
    var wire := Crypt(b, f, Encrypt).1;
    FrameParts(flag, cmd, payload);
    RoundTrip(b, f, Encrypt);
    CryptSplit(b, wire, 4, Decrypt);
    HeaderRefused(b, wire, rest, maxlen, f[..4]);
    var c, tail := Crypt(b, wire[..4], Decrypt).0, wire[4..];
    CryptSplit(c, tail, 4, Decrypt);
    assert (tail + rest)[..4] == tail[..4];
    NextHeader(c, tail + rest, maxlen, payload[..4]);
  }

  // ---------------------------------------------------------------- whole streams

  datatype Msg = Msg(flag: Byte, cmd: Byte, payload: seq<Byte>)

  function SendAll(b: Block, ms: seq<Msg>): (r: (Block, seq<Byte>))
    requires Wf(b)
    ensures Wf(r.0)
    decreases |ms|
  {
    if ms == [] then (b, [])
    else
      var (b1, w1) := Crypt(b, Frame(ms[0].flag, ms[0].cmd, ms[0].payload), Encrypt);
      var (b2, w2) := SendAll(b1, ms[1..]);
      (b2, w1 + w2)
  }

  // The first n replies, as long as they are messages.
  function RecvAll(b: Block, stream: seq<Byte>, maxlen: nat, n: nat): (r: (Block, seq<Byte>, seq<Msg>))
    requires Wf(b)
    ensures Wf(r.0)
    decreases n
  {
    if n == 0 then (b, stream, [])
    else
      var r := Recv(b, stream, maxlen);
      match r.reply
      case Message(flag, cmd, payload) =>
        var (b', rest, ms) := RecvAll(r.block, r.rest, maxlen, n - 1);
        (b', rest, [Msg(flag, cmd, payload)] + ms)
      case _ => (r.block, r.rest, [])
  }

  // Any sequence of messages that fit is read back as the same sequence, and the receiver ends
  // on the sender's block and in front of whatever follows.
  lemma {:induction false} StreamRoundTrip(b: Block, ms: seq<Msg>, rest: seq<Byte>, maxlen: nat)
    requires Wf(b) && 4 <= maxlen
    requires forall m :: m in ms ==> Fits(m.payload, maxlen)
    ensures RecvAll(b, SendAll(b, ms).1 + rest, maxlen, |ms|) == (SendAll(b, ms).0, rest, ms)
    decreases |ms|
  {
    hide Crypt, Recv, Frame;
    if ms != [] {
      var m := ms[0];
      var (b1, w1) := Crypt(b, Frame(m.flag, m.cmd, m.payload), Encrypt);
      var (b2, w2) := SendAll(b1, ms[1..]);
      assert (w1 + w2) + rest == w1 + (w2 + rest);
      FrameArrives(b, b, m.flag, m.cmd, m.payload, w2 + rest, maxlen);
      XorZero(b.state);
      XorZero(m.flag);
      StreamRoundTrip(b1, ms[1..], rest, maxlen);
      assert [m] + ms[1..] == ms;
    } else {
      assert [] + rest == rest;
    }
  }
}
