// The byte-stuffed serial framing of Alphastar receivers (module-serial.c).
module Alpha {
  import opened Bytes
  import opened Wrappers

  const BOT: Byte := 0x7E
  const EOT: Byte := 0x7F
  const ESCAPE: Byte := 0x20
  const MAX_ECM: nat := 257

  predicate Special(b: Byte) { b == ESCAPE || b == BOT || b == EOT }

  // b ^ 0x20
  function Flip(b: Byte): (r: Byte)
    ensures Special(b) ==> !Special(r)
  {
    FlipSpecial();
    Xor(b, 0x20)
  }

  lemma FlipSpecial()
    ensures Xor(0x20, 0x20) == 0 && Xor(0x7E, 0x20) == 0x5E && Xor(0x7F, 0x20) == 0x5F
  {
    hide Xor;
    XorZero(0x20);
    XorIs(0x7E, 0x20, 0x5E);
    XorIs(0x7F, 0x20, 0x5F);
  }

  lemma XorIs(a: Byte, b: Byte, r: Byte)
    requires Digit(r, 0) == (Digit(a, 0) != Digit(b, 0)) && Digit(r, 1) == (Digit(a, 1) != Digit(b, 1))
    requires Digit(r, 2) == (Digit(a, 2) != Digit(b, 2)) && Digit(r, 3) == (Digit(a, 3) != Digit(b, 3))
    requires Digit(r, 4) == (Digit(a, 4) != Digit(b, 4)) && Digit(r, 5) == (Digit(a, 5) != Digit(b, 5))
    requires Digit(r, 6) == (Digit(a, 6) != Digit(b, 6)) && Digit(r, 7) == (Digit(a, 7) != Digit(b, 7))
    ensures Xor(a, b) == r
  {
    hide Digit;
    XorExists(a, b);
    XorUnique(a, b);
    forall i | 0 <= i < 8 ensures Digit(r, i) == (Digit(a, i) != Digit(b, i)) {
      assert i == 0 || i == 1 || i == 2 || i == 3 || i == 4 || i == 5 || i == 6 || i == 7;
    }
    assert IsXor(a, b, r);
  }

  lemma FlipTwice(b: Byte)
    ensures Flip(Flip(b)) == b
  {
    XorCancels(b, 0x20);
  }

  // ---------------------------------------------------------------- stuffing

  function Escaped(b: Byte): seq<Byte> { if Special(b) then [ESCAPE, Flip(b)] else [b] }

  function Stuffed(s: seq<Byte>): seq<Byte>
    decreases |s|
  {
    if s == [] then [] else Stuffed(s[..|s| - 1]) + Escaped(s[|s| - 1])
  }

  // An escape that ends the frame is dropped.
  function Unstuffed(s: seq<Byte>): (r: seq<Byte>)
    ensures |r| <= |s|
    decreases |s|
  {
    if s == [] || s == [ESCAPE] then []
    else if s[0] == ESCAPE then [Flip(s[1])] + Unstuffed(s[2..])
    else [s[0]] + Unstuffed(s[1..])
  }

  function Framed(s: seq<Byte>): seq<Byte> { [BOT] + Stuffed(s) + [EOT] }

  // What oscam_ser_alpha_convert leaves in the buffer
  function Converted(s: seq<Byte>): seq<Byte>
    requires |s| >= 1 && (s[0] == BOT ==> |s| >= 2)
  {
    if s[0] == BOT then Unstuffed(s[1..|s| - 1]) else Framed(s)
  }

  lemma UnstuffedEscaped(x: Byte, b: seq<Byte>)
    ensures Unstuffed(Escaped(x) + b) == [x] + Unstuffed(b)
  {
    hide Flip;
    var e := Escaped(x) + b;
    if Special(x) {
      FlipTwice(x);
      assert e[1] == Flip(x) && e[2..] == b;
    } else {
      assert e[0] == x && e[1..] == b;
    }
  }

  lemma {:induction false} UnstuffedBoth(a: seq<Byte>, b: seq<Byte>)
    ensures Unstuffed(Stuffed(a) + b) == a + Unstuffed(b)
    decreases |a|
  {
    hide Unstuffed, Escaped;
    if a == [] {
      assert Stuffed(a) + b == b;
    } else {
      var init, x := a[..|a| - 1], a[|a| - 1];
      var e := Escaped(x) + b;
      assert Stuffed(a) + b == Stuffed(init) + e;
      UnstuffedBoth(init, e);
      UnstuffedEscaped(x, b);
      hide Stuffed;
      assert a == init + [x];
      assert init + ([x] + Unstuffed(b)) == a + Unstuffed(b);
    }
  }

  lemma {:induction false} StuffedIsPlain(s: seq<Byte>)
    ensures BOT !in Stuffed(s) && EOT !in Stuffed(s)
    ensures |s| <= |Stuffed(s)| <= 2 * |s|
    decreases |s|
  {
    if s != [] {
      StuffedIsPlain(s[..|s| - 1]);
    }
  }

  // Converting twice gives back every buffer that does not start like a frame.
  lemma ConvertTwice(s: seq<Byte>)
    requires |s| >= 1 && s[0] != BOT
    ensures Converted(Converted(s)) == s
  {
    hide Stuffed, Unstuffed;
    var f := Framed(s);
    assert f[1..|f| - 1] == Stuffed(s);
    UnstuffedBoth(s, []);
    assert Stuffed(s) + [] == Stuffed(s);
    UnstuffedNothing();
  }

  // The marks are where they should be and nowhere else.
  lemma FrameShape(s: seq<Byte>)
    ensures |Framed(s)| >= 2 + |s|
    ensures forall k :: 0 <= k < |Framed(s)| ==> (Framed(s)[k] == BOT <==> k == 0)
    ensures forall k :: 0 <= k < |Framed(s)| ==> (Framed(s)[k] == EOT <==> k == |Framed(s)| - 1)
  {
    StuffedIsPlain(s);
    var f := Framed(s);
    forall k | 0 < k < |f| - 1 ensures f[k] != BOT && f[k] != EOT {
      assert f[k] == Stuffed(s)[k - 1];
    }
  }

  lemma {:induction false} StuffedFront(x: Byte, s: seq<Byte>)
    ensures Stuffed([x] + s) == Escaped(x) + Stuffed(s)
    decreases |s|
  {
    hide Escaped;
    var t := [x] + s;
    if s == [] {
      assert t[..0] == [];
    } else {
      assert t[..|t| - 1] == [x] + s[..|s| - 1];
      StuffedFront(x, s[..|s| - 1]);
    }
  }

  lemma UnstuffedNothing()
    ensures Unstuffed([]) == []
  {
  }

  // ---------------------------------------------------------------- requests

  datatype Ecm = Ecm(caid: nat, ecm: seq<Byte>)

  predicate IsRequest(m: Ecm) { m.caid < 65536 && |m.ecm| < 65534 }

  function Two(v: nat): (b: seq<Byte>)
    requires v < 65536
    ensures |b| == 2
  {
    [v / 256, v % 256]
  }

  function Number(a: Byte, b: Byte): nat {
    var h: nat := a;
    h * 256 + b
  }

  // The P_ALPHA case of oscam_ser_send_ecm
  function Sent(m: Ecm): seq<Byte>
    requires IsRequest(m)
  {
    Framed([0x80] + Two(2 + |m.ecm|) + Two(m.caid) + m.ecm)
  }

  lemma {:induction false} UnstuffedSize(s: seq<Byte>)
    ensures 2 * |Unstuffed(s)| + 1 >= |s|
    decreases |s|
  {
    hide Flip;
    if s == [] || s == [ESCAPE] {
    } else {
      UnstuffedSize(s[if s[0] == ESCAPE then 2 else 1..]);
    }
  }

  lemma ConvertedIsLong(f: seq<Byte>)
    requires |f| >= 16
    ensures |Converted(f)| >= 5
  {
    hide Stuffed, Unstuffed;
    UnstuffedSize(f[1..|f| - 1]);
    StuffedIsPlain(f);
  }

  // The P_ALPHA case of oscam_ser_check_ecm
  function Checked(f: seq<Byte>): Option<Ecm> {
    if |f| < 16 then None
    else
      ConvertedIsLong(f);
      var d := Converted(f);
      var l := Number(d[1], d[2]) - 2;
      if l != |d| - 5 || l > MAX_ECM then None else Some(Ecm(Number(d[3], d[4]), d[5..]))
  }

  // The server gets the request as it was sent if and only if its frame has 16 bytes or more,
  // which 9 bytes of ECM are enough for, and the ECM no more than 257.
  lemma RequestArrivesIff(m: Ecm)
    requires IsRequest(m)
    ensures Checked(Sent(m)) == Some(m) <==> |Sent(m)| >= 16 && |m.ecm| <= MAX_ECM
    ensures Checked(Sent(m)) == None <==> |Sent(m)| < 16 || |m.ecm| > MAX_ECM
    ensures |m.ecm| >= 9 ==> |Sent(m)| >= 16
    ensures Sent(m)[..2] == [BOT, 0x80]
  {
    hide Stuffed, Unstuffed;
    StuffedFront(0x80, Two(2 + |m.ecm|) + Two(m.caid) + m.ecm);
    assert [0x80] + (Two(2 + |m.ecm|) + Two(m.caid) + m.ecm) == [0x80] + Two(2 + |m.ecm|) + Two(m.caid) + m.ecm;
    var d := [0x80] + Two(2 + |m.ecm|) + Two(m.caid) + m.ecm;
    ConvertTwice(d);
    FrameShape(d);
    assert d[5..] == m.ecm;
    assert Converted(d) == Sent(m);
  }

  // ---------------------------------------------------------------- receiving

  // The bytes up to the first EOT at or after offset n - 1; all of them if there is none
  function FrameEnd(stream: seq<Byte>, n: nat): (e: nat)
    requires 0 < n <= |stream|
    ensures n <= e <= |stream| && (e < |stream| ==> stream[e - 1] == EOT)
    ensures forall k :: n - 1 <= k < e - 1 ==> stream[k] != EOT
    decreases |stream| - n
  {
    if stream[n - 1] == EOT || n == |stream| then n else FrameEnd(stream, n + 1)
  }

  // What oscam_ser_recv takes off the line: three bytes and then all up to EOT
  function Received(stream: seq<Byte>): (seq<Byte>, seq<Byte>)
    requires |stream| >= 3
  {
    var e := FrameEnd(stream, 3);
    (stream[..e], stream[e..])
  }

  lemma FrameReceived(s: seq<Byte>, rest: seq<Byte>)
    requires s != []
    ensures |Framed(s)| >= 3 && Received(Framed(s) + rest) == (Framed(s), rest)
  {
    hide Stuffed;
    FrameShape(s);
    var f := Framed(s);
    var e := FrameEnd(f + rest, 3);
    assert e <= |f| by {
      assert (f + rest)[|f| - 1] == EOT;
    }
    assert forall k :: 0 <= k < |f| ==> (f + rest)[k] == f[k];
  }

  function SentAll(ms: seq<Ecm>): seq<Byte>
    requires forall i :: 0 <= i < |ms| ==> IsRequest(ms[i])
  {
    if ms == [] then [] else Sent(ms[0]) + SentAll(ms[1..])
  }

  function ReceivedAll(stream: seq<Byte>): seq<Option<Ecm>>
    decreases |stream|
  {
    if |stream| < 3 then []
    else
      var r := Received(stream);
      [Checked(r.0)] + ReceivedAll(r.1)
  }

  // Requests sent one after the other arrive one by one.
  lemma {:induction false} RequestsArrive(ms: seq<Ecm>)
    requires forall i :: 0 <= i < |ms| ==> IsRequest(ms[i])
    ensures |ReceivedAll(SentAll(ms))| == |ms|
    ensures forall i :: 0 <= i < |ms| ==> ReceivedAll(SentAll(ms))[i] == Checked(Sent(ms[i]))
    decreases |ms|
  {
    hide Framed, Received, Checked;
    if ms != [] {
      var m := ms[0];
      RequestsArrive(ms[1..]);
      FrameReceived([0x80] + Two(2 + |m.ecm|) + Two(m.caid) + m.ecm, SentAll(ms[1..]));
    }
  }

  // ---------------------------------------------------------------- in place

  // The buffer after memmove(buf + to, buf + start, n)
  function Moved(b: seq<Byte>, to: nat, start: nat, n: nat): (r: seq<Byte>)
    requires to + n <= |b| && start + n <= |b|
    ensures |r| == |b|
    ensures forall k :: 0 <= k < |b| ==> r[k] == if to <= k < to + n then b[start + k - to] else b[k]
  {
    b[..to] + b[start..start + n] + b[to + n..]
  }

  method MemMove(buf: array<Byte>, to: nat, start: nat, n: nat)
    requires to + n <= buf.Length && start + n <= buf.Length
    modifies buf
    ensures buf[..] == Moved(old(buf[..]), to, start, n)
  {
    ghost var was := buf[..];
    var tmp := buf[start..start + n];
    for i := 0 to n
      invariant forall k :: 0 <= k < buf.Length ==> buf[k] == if to <= k < to + i then tmp[k - to] else was[k]
    {
      buf[to + i] := tmp[i];
    }
  }

  lemma EscapeInserted(b: seq<Byte>, i: nat, l: nat, x: Byte)
    requires i < l && i + 1 + l <= |b|
    ensures var r := Moved(b[i := x], i + 1, i, l)[i := ESCAPE];
      r[..i + 2] == b[..i] + [ESCAPE, x] && r[i + 2..l + 1] == b[i + 1..l]
  {
    var m := Moved(b[i := x], i + 1, i, l);
    var r := m[i := ESCAPE];
    forall k | 0 <= k < i ensures r[k] == b[k] {
      assert m[k] == b[k];
    }
    assert m[i + 1] == x;
    forall k | i + 2 <= k < l + 1 ensures r[k] == b[k - 1] {
      assert m[k] == b[k - 1];
    }
  }

  // The special byte at i becomes two.
  method InsertEscape(buf: array<Byte>, i: nat, l: nat)
    requires i < l && i + 1 + l <= buf.Length
    modifies buf
    ensures buf[..i + 2] == old(buf[..i]) + [ESCAPE, Flip(old(buf[i]))]
    ensures buf[i + 2..l + 1] == old(buf[i + 1..l])
  {
    hide Flip, Moved;
    ghost var was := buf[..];
    EscapeInserted(was, i, l, Flip(was[i]));
    buf[i] := Flip(buf[i]);
    assert buf[..] == was[i := Flip(was[i])];
    MemMove(buf, i + 1, i, l);
    buf[i] := ESCAPE;
    ghost var r := Moved(was[i := Flip(was[i])], i + 1, i, l)[i := ESCAPE];
    assert buf[..] == r;
    assert buf[..i + 2] == r[..i + 2] && buf[i + 2..l + 1] == r[i + 2..l + 1];
    assert was[..i] == old(buf[..i]) && was[i + 1..l] == old(buf[i + 1..l]);
  }

  lemma EscapeRemoved(b: seq<Byte>, i: nat, l: nat, x: Byte)
    requires i < l && i + l <= |b| && i < |b|
    ensures var r := Moved(b, i, i + 1, l - 1)[i := x];
      r[..i + 1] == b[..i] + [x] && (i + 1 < l ==> r[i + 1..l - 1] == b[i + 2..l])
    ensures i + 1 < l ==> Moved(b, i, i + 1, l - 1)[i] == b[i + 1]
  {
    var m := Moved(b, i, i + 1, l - 1);
    var r := m[i := x];
    forall k | 0 <= k < i ensures r[k] == b[k] {
      assert m[k] == b[k];
    }
    forall k | i + 1 <= k < l - 1 ensures r[k] == b[k + 1] {
      assert m[k] == b[k + 1];
    }
  }

  // The escape at i and the byte after it become one.
  method RemoveEscape(buf: array<Byte>, i: nat, l: nat)
    requires i < l && i + l <= buf.Length
    modifies buf
    ensures i + 1 < l ==>
      buf[..i + 1] == old(buf[..i]) + [Flip(old(buf[i + 1]))] && buf[i + 1..l - 1] == old(buf[i + 2..l])
    ensures buf[..i] == old(buf[..i])
  {
    hide Flip, Moved;
    ghost var was := buf[..];
    MemMove(buf, i, i + 1, l - 1);
    ghost var x := Flip(buf[i]);
    EscapeRemoved(was, i, l, x);
    buf[i] := Flip(buf[i]);
    ghost var r := Moved(was, i, i + 1, l - 1)[i := x];
    assert buf[..] == r;
    assert buf[..i + 1] == r[..i + 1] && (i + 1 < l ==> buf[i + 1..l - 1] == r[i + 1..l - 1]);
    assert buf[..i] == buf[..i + 1][..i] == was[..i] == old(buf[..i]);
    assert i + 1 < l ==> was[i + 2..l] == old(buf[i + 2..l]);
  }

  lemma StuffedStep(s: seq<Byte>, k: nat)
    requires k < |s|
    ensures Stuffed(s[..k + 1]) == Stuffed(s[..k]) + Escaped(s[k])
    ensures |Stuffed(s[..k])| <= 2 * k
  {
    hide Escaped;
    StuffedIsPlain(s[..k]);
    assert s[..k + 1][..k] == s[..k];
  }

  // k bytes of s are stuffed before offset i, the others follow up to r.
  ghost predicate Between(b: seq<Byte>, s: seq<Byte>, k: nat, i: nat, r: nat) {
    && i <= r <= |b| && k <= |s| && r == i + |s| - k && 1 <= i <= 1 + 2 * k
    && b[..i] == [BOT] + Stuffed(s[..k]) && b[i..r] == s[k..]
  }

  lemma BetweenStart(b: seq<Byte>, s: seq<Byte>)
    requires |s| + 1 <= |b| && b[..1] == [BOT] && b[1..|s| + 1] == s
    ensures Between(b, s, 0, 1, |s| + 1)
  {
    StuffedNothing();
  }

  lemma BetweenEnd(b: seq<Byte>, s: seq<Byte>, k: nat, i: nat, r: nat)
    requires Between(b, s, k, i, r) && i >= r
    ensures b[..r] + [EOT] == Framed(s)
  {
    assert s[..k] == s;
  }

  lemma BetweenBounds(b: seq<Byte>, s: seq<Byte>, k: nat, i: nat, r: nat)
    requires Between(b, s, k, i, r)
    ensures i <= r <= |b| && r == i + |s| - k && 1 <= i <= 1 + 2 * k && k <= |s|
  {
  }

  // Byte i is looked at.
  method FrameByte(buf: array<Byte>, ghost s: seq<Byte>, ghost k: nat, i: nat, r: nat) returns (next: nat, end: nat)
    requires i < r && i + 1 + r <= buf.Length && Between(buf[..], s, k, i, r)
    modifies buf
    ensures Between(buf[..], s, k + 1, next, end)
  {
    hide Flip, Stuffed;
    StuffedStep(s, k);
    ghost var front := buf[..i];
    assert buf[..][..i] == front && buf[..][i..r] == buf[i..r];
    assert buf[i] == buf[i..r][0] == s[k];
    assert buf[i + 1..r] == buf[i..r][1..] == s[k + 1..];
    if Special(buf[i]) {
      InsertEscape(buf, i, r);
      next, end := i + 2, r + 1;
    } else {
      next, end := i + 1, r;
      assert buf[..next] == front + [buf[i]];
    }
    assert front + Escaped(s[k]) == [BOT] + Stuffed(s[..k + 1]);
    assert buf[..][..next] == buf[..next] && buf[..][next..end] == buf[next..end];
  }

  method PutEnd(buf: array<Byte>, r: nat)
    requires r < buf.Length
    modifies buf
    ensures buf[..r + 1] == old(buf[..r]) + [EOT]
  {
    buf[r] := EOT;
  }

  // The loop over the bytes after BOT
  method FrameBytes(buf: array<Byte>, ghost s: seq<Byte>, l: nat) returns (r: nat)
    requires l == |s| && buf.Length >= 4 * l + 4 && Between(buf[..], s, 0, 1, l + 1)
    modifies buf
    ensures r < buf.Length && buf[..][..r] + [EOT] == Framed(s)
  {
    hide Stuffed, Between, Framed;
    r := l + 1;
    var i: nat := 1;
    ghost var k := 0;
    while i < r
      invariant Between(buf[..], s, k, i, r)
      decreases l - k
    {
      BetweenBounds(buf[..], s, k, i, r);
      i, r := FrameByte(buf, s, k, i, r);
      k := k + 1;
    }
    BetweenBounds(buf[..], s, k, i, r);
    BetweenEnd(buf[..], s, k, i, r);
  }

  // "to alphastar". The moves reach beyond the bytes in use, never beyond 4 l + 4.
  method Frame(buf: array<Byte>, l: nat) returns (r: nat)
    requires buf.Length >= 4 * l + 4
    modifies buf
    ensures r <= buf.Length && buf[..r] == Framed(old(buf[..l]))
  {
    hide Stuffed, Between, Framed;
    ghost var s := buf[..l];
    Prepend(buf, l);
    assert buf[..][..1] == buf[..1] && buf[..][1..l + 1] == buf[1..l + 1];
    BetweenStart(buf[..], s);
    r := FrameBytes(buf, s, l);
    assert buf[..][..r] == buf[..r];
    PutEnd(buf, r);
    r := r + 1;
  }

  lemma StuffedNothing()
    ensures Stuffed([]) == []
  {
  }

  // The start of a frame
  method Prepend(buf: array<Byte>, l: nat)
    requires buf.Length >= l + 1
    modifies buf
    ensures buf[..1] == [BOT] && buf[1..l + 1] == old(buf[..l])
  {
    ghost var was := buf[..];
    MemMove(buf, 1, 0, l);
    buf[0] := BOT;
  }

  // Byte i is looked at; done is the result so far, which the rest up to r adds to.
  method UnframeByte(buf: array<Byte>, ghost done: seq<Byte>, i: nat, r: nat) returns (next: nat, end: nat)
    requires i < r && i + r <= buf.Length && buf[..i] == done
    modifies buf
    ensures i <= next <= end <= r && next <= i + 1 && end - next < r - i
    ensures buf[..next] + Unstuffed(buf[next..end]) == done + Unstuffed(old(buf[i..r]))
  {
    hide Flip, Unstuffed;
    ghost var rest := buf[i..r];
    UnstuffedStep(rest);
    assert rest[0] == buf[i] && rest[1..] == buf[i + 1..r];
    if buf[i] == ESCAPE {
      assert i + 1 < r ==> rest[1] == buf[i + 1] && rest[2..] == buf[i + 2..r];
      RemoveEscape(buf, i, r);
      end := r - 1;
      next := if i < end then i + 1 else i;
      if i == end {
        assert buf[next..end] == [];
        UnstuffedNothing();
        assert rest == [ESCAPE];
      }
    } else {
      next, end := i + 1, r;
      assert buf[..next] == done + [buf[i]];
    }
  }

  // "normalize": the byte after an escape is not looked at again.
  method Unframe(buf: array<Byte>, l: nat) returns (r: nat)
    requires 2 <= l && 2 * l <= buf.Length
    modifies buf
    ensures r <= l && buf[..r] == Unstuffed(old(buf[1..l - 1]))
  {
    hide Unstuffed;
    MoveDown(buf, l - 2);
    r := UnframeBytes(buf, l - 2);
  }

  // The loop over the bytes between BOT and EOT
  method UnframeBytes(buf: array<Byte>, l: nat) returns (r: nat)
    requires 2 * l <= buf.Length
    modifies buf
    ensures r <= l && buf[..r] == Unstuffed(old(buf[..l]))
  {
    hide Unstuffed;
    r := l;
    var i: nat := 0;
    ghost var s := buf[..l];
    assert buf[0..r] == s && buf[..0] == [];
    while i < r
      invariant i <= r <= l
      invariant buf[..i] + Unstuffed(buf[i..r]) == Unstuffed(s)
      decreases r - i
    {
      i, r := UnframeByte(buf, buf[..i], i, r);
    }
    UnstuffedNothing();
    assert buf[i..r] == [];
  }

  lemma UnstuffedStep(s: seq<Byte>)
    requires s != []
    ensures Unstuffed(s) == if s == [ESCAPE] then []
                            else if s[0] == ESCAPE then [Flip(s[1])] + Unstuffed(s[2..])
                            else [s[0]] + Unstuffed(s[1..])
  {
  }

  method MoveDown(buf: array<Byte>, l: nat)
    requires l + 1 <= buf.Length
    modifies buf
    ensures buf[..l] == old(buf[1..l + 1])
  {
    MemMove(buf, 0, 1, l);
  }

  // oscam_ser_alpha_convert
  method AlphaConvert(buf: array<Byte>, l: nat) returns (r: nat)
    requires buf.Length >= 4 * l + 4 && l >= 1 && (buf[0] == BOT ==> l >= 2)
    modifies buf
    ensures r <= buf.Length && buf[..r] == Converted(old(buf[..l]))
  {
    hide Stuffed, Unstuffed;
    if buf[0] == BOT {
      assert buf[..l][1..l - 1] == buf[1..l - 1];
      r := Unframe(buf, l);
    } else {
      r := Frame(buf, l);
    }
  }

  // The read-until-EOT loop of oscam_ser_recv; the bytes of the line come from stream.
  method Recv(stream: seq<Byte>) returns (n: nat)
    requires |stream| >= 3
    ensures n <= |stream| && (stream[..n], stream[n..]) == Received(stream)
  {
    n := 3;
    while stream[n - 1] != EOT && n < |stream|
      invariant 3 <= n <= |stream| && FrameEnd(stream, n) == FrameEnd(stream, 3)
      decreases |stream| - n
    {
      n := n + 1;
    }
  }

  // The P_ALPHA case of oscam_ser_check_ecm
  method CheckEcm(buf: array<Byte>, n: nat) returns (m: Option<Ecm>)
    requires buf.Length >= 4 * n + 4
    modifies buf
    ensures m == Checked(old(buf[..n]))
  {
    hide Converted;
    if n < 16 {
      return None;
    }
    ghost var f := buf[..n];
    ConvertedIsLong(f);
    var l := AlphaConvert(buf, n);
    ghost var d := buf[..l];
    assert forall k :: 0 <= k < l ==> d[k] == buf[k];
    var len := Number(buf[1], buf[2]) - 2;
    if len != l - 5 || len > MAX_ECM {
      return None;
    }
    assert buf[5..5 + len] == d[5..];
    m := Some(Ecm(Number(buf[3], buf[4]), buf[5..5 + len]));
  }

  // The P_ALPHA case of oscam_ser_send_ecm: the bytes that go out are the first r of buf.
  method SendEcm(buf: array<Byte>, m: Ecm) returns (r: nat)
    requires IsRequest(m) && buf.Length >= 4 * (5 + |m.ecm|) + 4
    modifies buf
    ensures r <= buf.Length && buf[..r] == Sent(m)
  {
    hide Stuffed;
    var d := [0x80] + Two(2 + |m.ecm|) + Two(m.caid) + m.ecm;
    for i := 0 to |d|
      invariant buf[..i] == d[..i]
    {
      buf[i] := d[i];
    }
    assert buf[..|d|] == d && d[0] == 0x80;
    r := AlphaConvert(buf, |d|);
  }
}
