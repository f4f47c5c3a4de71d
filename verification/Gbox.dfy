// The packet scrambler of the gbox protocol (module-gbox.c): four stages of 32 rounds over an
// 8-byte window with a rotating 4-byte key, and two chains of exclusive ors.
module Gbox {

  type Byte = bv8
  type Key = s: seq<Byte> | |s| == 4 witness [0, 0, 0, 0]
  type Window = s: seq<Byte> | |s| == 8 witness [0, 0, 0, 0, 0, 0, 0, 0]

  const SBOX: seq<Byte> := [
    0x25, 0x38, 0xd4, 0xcd, 0x17, 0x7a, 0x5e, 0x6c,
    0x52, 0x42, 0xfe, 0x68, 0xab, 0x3f, 0xf7, 0xbe,
    0x47, 0x57, 0x71, 0xb0, 0x23, 0xc1, 0x26, 0x6c,
    0x41, 0xce, 0x94, 0x37, 0x45, 0x04, 0xa2, 0xea,
    0x07, 0x58, 0x35, 0x55, 0x08, 0x2a, 0x0f, 0xe7,
    0xac, 0x76, 0xf0, 0xc1, 0xe6, 0x09, 0x10, 0xdd,
    0xc5, 0x8d, 0x2e, 0xd9, 0x03, 0x9c, 0x3d, 0x2c,
    0x4d, 0x41, 0x0c, 0x5e, 0xde, 0xe4, 0x90, 0xae]

  function Sbox(i: Byte): Byte {
    SBOX[(i & 0x3f) as int % 64]
  }

  datatype Stage = One | Two

  // The three lines of a round, forward and backward.
  function Fwd(x: Byte, p: Byte, q: Byte, r: Byte): Byte { Add(Flip(Add(x, p), q), r) }
  function Bwd(x: Byte, p: Byte, q: Byte, r: Byte): Byte { Sub(Flip(Sub(x, r), q), p) }

  function Add(a: Byte, b: Byte): Byte { a + b }
  function Sub(a: Byte, b: Byte): Byte { a - b }
  function Flip(a: Byte, b: Byte): Byte { a ^ b }

  // What an encrypting round makes of byte x, given its left neighbour y and two key bytes.
  function Mix(stage: Stage, x: Byte, y: Byte, ka: Byte, kb: Byte): Byte {
    match stage
    case One => Fwd(x, Sbox((ka ^ y) >> 2) * 2, Sbox(y - ka), kb)
    case Two => Bwd(x, kb, Sbox(y - ka), Sbox(y >> 2))
  }

  function Unmix(stage: Stage, x: Byte, y: Byte, ka: Byte, kb: Byte): Byte {
    match stage
    case One => Bwd(x, Sbox((ka ^ y) >> 2) * 2, Sbox(y - ka), kb)
    case Two => Fwd(x, kb, Sbox(y - ka), Sbox(y >> 2))
  }

  function BitIn(hi: Byte, lo: Byte): Byte { (hi << 7) + (lo >> 1) }
  function BitOut(lo: Byte, hi: Byte): Byte { ((lo & 0x80) >> 7) + hi * 2 }

  // The 32-bit key rotated right and left by one bit.
  function RotR(k: Key): Key {
    [BitIn(k[3], k[0]), BitIn(k[0], k[1]), BitIn(k[1], k[2]), BitIn(k[2], k[3])]
  }

  function RotL(k: Key): Key {
    [BitOut(k[1], k[0]), BitOut(k[2], k[1]), BitOut(k[3], k[2]), BitOut(k[0], k[3])]
  }

  // Round j of a stage: byte j + 1 is mixed with byte j.
  function Round(stage: Stage, w: Window, k: Key, j: nat): Window
    requires j < 8
  {
    w[(j + 1) % 8 := Mix(stage, w[(j + 1) % 8], w[j], k[(j + 1) % 4], k[j % 4])]
  }

  function Unround(stage: Stage, w: Window, k: Key, j: nat): Window
    requires j < 8
  {
    w[(j + 1) % 8 := Unmix(stage, w[(j + 1) % 8], w[j], k[(j + 1) % 4], k[j % 4])]
  }

  // Rounds n-1 down to 0, the key rotated right before each.
  function Encrypting(stage: Stage, w: Window, k: Key, n: nat): (Window, Key)
    decreases n
  {
    if n == 0 then (w, k)
    else
      var k' := RotR(k);
      Encrypting(stage, Round(stage, w, k', (n - 1) % 8), k', n - 1)
  }

  // Rounds 0 up to n-1, the key rotated left after each.
  function Decrypting(stage: Stage, w: Window, k: Key, n: nat): (Window, Key)
    decreases n
  {
    if n == 0 then (w, k)
    else
      var (w', k') := Decrypting(stage, w, k, n - 1);
      (Unround(stage, w', k', (n - 1) % 8), RotL(k'))
  }

  // ---------------------------------------------------------------- the four stages, in place

  ghost predicate OnlyWindow(now: seq<Byte>, before: seq<Byte>, off: nat) {
    |now| == |before| && off + 8 <= |now| && now[..off] == before[..off] && now[off + 8..] == before[off + 8..]
  }

  method RotateRight(key: array<Byte>)
    requires key.Length == 4
    modifies key
    ensures key[..] == RotR(old(key[..]))
  {
    var tmp := key[3];
    for j := 4 downto 1
      invariant forall i :: 0 <= i < j ==> key[i] == old(key[i])
      invariant forall i :: j <= i < 4 ==> key[i] == (old(key[i - 1]) << 7) + (old(key[i]) >> 1)
    {
      key[j] := (key[j - 1] << 7) + (key[j] >> 1);
    }
    key[0] := (tmp << 7) + (key[0] >> 1);
  }

  method RotateLeft(key: array<Byte>)
    requires key.Length == 4
    modifies key
    ensures key[..] == RotL(old(key[..]))
  {
    var tmp := key[0];
    for j := 0 to 3
      invariant forall i :: 0 <= i < j ==> key[i] == ((old(key[i + 1]) & 0x80) >> 7) + old(key[i]) * 2
      invariant forall i :: j <= i < 4 ==> key[i] == old(key[i])
    {
      key[j] := ((key[j + 1] & 0x80) >> 7) + key[j] * 2;
    }
    key[3] := ((tmp & 0x80) >> 7) + key[3] * 2;
  }

  // Writing one byte of a window.
  method Put(buf: array<Byte>, off: nat, b: nat, x: Byte)
    requires off + 8 <= buf.Length && b < 8
    modifies buf
    ensures buf[off..off + 8] == old(buf[off..off + 8])[b := x]
    ensures OnlyWindow(buf[..], old(buf[..]), off)
  {
    buf[off + b] := x;
  }

  // The three lines of a round in each of the four stages.
  method MixStage1(x: Byte, y: Byte, ka: Byte, kb: Byte) returns (r: Byte)
    ensures r == Mix(One, x, y, ka, kb)
  {
    hide Sbox;
    r := x + Sbox((ka ^ y) >> 2) * 2;
    r := r ^ Sbox(y - ka);
    r := r + kb;
  }

  method MixStage2(x: Byte, y: Byte, ka: Byte, kb: Byte) returns (r: Byte)
    ensures r == Mix(Two, x, y, ka, kb)
  {
    hide Sbox;
    r := x - Sbox(y >> 2);
    r := r ^ Sbox(y - ka);
    r := r - kb;
  }

  method UnmixStage1(x: Byte, y: Byte, ka: Byte, kb: Byte) returns (r: Byte)
    ensures r == Unmix(One, x, y, ka, kb)
  {
    hide Sbox;
    r := x - kb;
    r := r ^ Sbox(y - ka);
    r := r - Sbox((ka ^ y) >> 2) * 2;
  }

  method UnmixStage2(x: Byte, y: Byte, ka: Byte, kb: Byte) returns (r: Byte)
    ensures r == Unmix(Two, x, y, ka, kb)
  {
    hide Sbox;
    r := x + kb;
    r := r ^ Sbox(y - ka);
    r := r + Sbox(y >> 2);
  }

  // One round in place.
  method MixInto(stage: Stage, buf: array<Byte>, off: nat, key: array<Byte>, j: nat)
    requires key.Length == 4 && buf != key && off + 8 <= buf.Length && j < 8
    modifies buf
    ensures buf[off..off + 8] == Round(stage, old(buf[off..off + 8]), key[..], j)
    ensures OnlyWindow(buf[..], old(buf[..]), off)
  {
    hide Mix;
    hide OnlyWindow;
    var b := (j + 1) % 8;
    var r;
    if stage.One? {
      r := MixStage1(buf[off + b], buf[off + j], key[(j + 1) % 4], key[j % 4]);
    } else {
      r := MixStage2(buf[off + b], buf[off + j], key[(j + 1) % 4], key[j % 4]);
    }
    Put(buf, off, b, r);
  }

  method UnmixInto(stage: Stage, buf: array<Byte>, off: nat, key: array<Byte>, j: nat)
    requires key.Length == 4 && buf != key && off + 8 <= buf.Length && j < 8
    modifies buf
    ensures buf[off..off + 8] == Unround(stage, old(buf[off..off + 8]), key[..], j)
    ensures OnlyWindow(buf[..], old(buf[..]), off)
  {
    hide Unmix;
    hide OnlyWindow;
    var b := (j + 1) % 8;
    var r;
    if stage.One? {
      r := UnmixStage1(buf[off + b], buf[off + j], key[(j + 1) % 4], key[j % 4]);
    } else {
      r := UnmixStage2(buf[off + b], buf[off + j], key[(j + 1) % 4], key[j % 4]);
    }
    Put(buf, off, b, r);
  }

  // gbox_encrypt_stage1 on buf[off..off+8]
  method EncryptStage1(buf: array<Byte>, off: nat, key: array<Byte>)
    requires key.Length == 4 && buf != key && off + 8 <= buf.Length
    modifies buf, key
    ensures (buf[off..off + 8], key[..]) == Encrypting(One, old(buf[off..off + 8]), old(key[..]), 32)
    ensures OnlyWindow(buf[..], old(buf[..]), off)
  {
    hide Round;
    hide RotR;
    for i := 32 downto 0
      invariant Encrypting(One, buf[off..off + 8], key[..], i)
                == Encrypting(One, old(buf[off..off + 8]), old(key[..]), 32)
      invariant OnlyWindow(buf[..], old(buf[..]), off)
    {
      RotateRight(key);
      MixInto(One, buf, off, key, i % 8);
    }
  }

  // gbox_encrypt_stage2: four times through the window from the last byte to the first
  method EncryptStage2(buf: array<Byte>, off: nat, key: array<Byte>)
    requires key.Length == 4 && buf != key && off + 8 <= buf.Length
    modifies buf, key
    ensures (buf[off..off + 8], key[..]) == Encrypting(Two, old(buf[off..off + 8]), old(key[..]), 32)
    ensures OnlyWindow(buf[..], old(buf[..]), off)
  {
    hide Round;
    hide RotR;
    for i := 0 to 4
      invariant Encrypting(Two, buf[off..off + 8], key[..], 32 - 8 * i)
                == Encrypting(Two, old(buf[off..off + 8]), old(key[..]), 32)
      invariant OnlyWindow(buf[..], old(buf[..]), off)
    {
      for j := 8 downto 0
        invariant Encrypting(Two, buf[off..off + 8], key[..], 32 - 8 * (i + 1) + j)
                  == Encrypting(Two, old(buf[off..off + 8]), old(key[..]), 32)
        invariant OnlyWindow(buf[..], old(buf[..]), off)
      {
        RotateRight(key);
        MixInto(Two, buf, off, key, j);
      }
    }
  }

  // gbox_decrypt_stage1
  method DecryptStage1(buf: array<Byte>, off: nat, key: array<Byte>)
    requires key.Length == 4 && buf != key && off + 8 <= buf.Length
    modifies buf, key
    ensures (buf[off..off + 8], key[..]) == Decrypting(One, old(buf[off..off + 8]), old(key[..]), 32)
    ensures OnlyWindow(buf[..], old(buf[..]), off)
  {
    hide Unround;
    hide RotL;
    for i := 0 to 32
      invariant (buf[off..off + 8], key[..]) == Decrypting(One, old(buf[off..off + 8]), old(key[..]), i)
      invariant OnlyWindow(buf[..], old(buf[..]), off)
    {
      UnmixInto(One, buf, off, key, i % 8);
      RotateLeft(key);
    }
  }

  // gbox_decrypt_stage2
  method DecryptStage2(buf: array<Byte>, off: nat, key: array<Byte>)
    requires key.Length == 4 && buf != key && off + 8 <= buf.Length
    modifies buf, key
    ensures (buf[off..off + 8], key[..]) == Decrypting(Two, old(buf[off..off + 8]), old(key[..]), 32)
    ensures OnlyWindow(buf[..], old(buf[..]), off)
  {
    hide Unround;
    hide RotL;
    for i := 4 downto 0
      invariant (buf[off..off + 8], key[..]) == Decrypting(Two, old(buf[off..off + 8]), old(key[..]), 32 - 8 * i)
      invariant OnlyWindow(buf[..], old(buf[..]), off)
    {
      for j := 0 to 8
        invariant (buf[off..off + 8], key[..])
                  == Decrypting(Two, old(buf[off..off + 8]), old(key[..]), 32 - 8 * (i + 1) + j)
        invariant OnlyWindow(buf[..], old(buf[..]), off)
      {
        UnmixInto(Two, buf, off, key, j);
        RotateLeft(key);
      }
    }
  }

  // ---------------------------------------------------------------- the stages undo each other

  lemma ByteLaws(a: Byte, b: Byte)
    ensures Sub(Add(a, b), b) == a && Add(Sub(a, b), b) == a && Flip(Flip(a, b), b) == a
  {}

  lemma FwdBwd(x: Byte, p: Byte, q: Byte, r: Byte)
    ensures Bwd(Fwd(x, p, q, r), p, q, r) == x && Fwd(Bwd(x, p, q, r), p, q, r) == x
  {
    hide Add;
    hide Sub;
    hide Flip;
    ByteLaws(Flip(Add(x, p), q), r);
    ByteLaws(Add(x, p), q);
    ByteLaws(x, p);
    ByteLaws(Flip(Sub(x, r), q), p);
    ByteLaws(Sub(x, r), q);
    ByteLaws(x, r);
  }

  lemma UnmixMix(stage: Stage, x: Byte, y: Byte, ka: Byte, kb: Byte)
    ensures Unmix(stage, Mix(stage, x, y, ka, kb), y, ka, kb) == x
    ensures Mix(stage, Unmix(stage, x, y, ka, kb), y, ka, kb) == x
  {
    hide Sbox;
    hide Fwd;
    hide Bwd;
    if stage.One? {
      FwdBwd(x, Sbox((ka ^ y) >> 2) * 2, Sbox(y - ka), kb);
    } else {
      FwdBwd(x, kb, Sbox(y - ka), Sbox(y >> 2));
    }
  }

  // A byte of the key survives one rotation and back whatever its neighbours are.
  lemma BitsBack(a: Byte, b: Byte, c: Byte)
    ensures BitOut(BitIn(a, b), BitIn(c, a)) == a && BitIn(BitOut(a, c), BitOut(b, a)) == a
  {}

  lemma RotationsCancel(k: Key)
    ensures RotL(RotR(k)) == k && RotR(RotL(k)) == k
  {
    hide BitIn;
    hide BitOut;
    BitsBack(k[0], k[1], k[3]);
    BitsBack(k[1], k[2], k[0]);
    BitsBack(k[2], k[3], k[1]);
    BitsBack(k[3], k[0], k[2]);
  }

  lemma UnroundRound(stage: Stage, w: Window, k: Key, j: nat)
    requires j < 8
    ensures Unround(stage, Round(stage, w, k, j), k, j) == w && Round(stage, Unround(stage, w, k, j), k, j) == w
  {
    hide Mix;
    hide Unmix;
    UnmixMix(stage, w[(j + 1) % 8], w[j], k[(j + 1) % 4], k[j % 4]);
  }

  // Any number of rounds of a stage is undone by as many of its opposite, the key included.
  lemma {:induction false} DecryptingEncrypting(stage: Stage, w: Window, k: Key, n: nat)
    ensures var (w', k') := Encrypting(stage, w, k, n); Decrypting(stage, w', k', n) == (w, k)
    decreases n
  {
    hide Round;
    hide Unround;
    hide RotR;
    hide RotL;
    if n != 0 {
      var k1 := RotR(k);
      DecryptingEncrypting(stage, Round(stage, w, k1, (n - 1) % 8), k1, n - 1);
      UnroundRound(stage, w, k1, (n - 1) % 8);
      RotationsCancel(k);
    }
  }

  lemma {:induction false} EncryptingDecrypting(stage: Stage, w: Window, k: Key, n: nat)
    ensures var (w', k') := Decrypting(stage, w, k, n); Encrypting(stage, w', k', n) == (w, k)
    decreases n
  {
    hide Round;
    hide Unround;
    hide RotR;
    hide RotL;
    if n != 0 {
      EncryptingDecrypting(stage, w, k, n - 1);
      var (w1, k1) := Decrypting(stage, w, k, n - 1);
      UnroundRound(stage, w1, k1, (n - 1) % 8);
      RotationsCancel(k1);
    }
  }

  function RotRN(k: Key, n: nat): Key
    decreases n
  {
    if n == 0 then k else RotRN(RotR(k), n - 1)
  }

  lemma {:induction false} EncryptingTurnsKey(stage: Stage, w: Window, k: Key, n: nat)
    ensures Encrypting(stage, w, k, n).1 == RotRN(k, n)
    decreases n
  {
    hide Round;
    hide RotR;
    if n != 0 {
      EncryptingTurnsKey(stage, Round(stage, w, RotR(k), (n - 1) % 8), RotR(k), n - 1);
    }
  }

  // Eight one-bit rotations move every byte to the next place.
  lemma EightTurns(k: Key)
    ensures RotR(RotR(RotR(RotR(RotR(RotR(RotR(RotR(k)))))))) == [k[3], k[0], k[1], k[2]]
  {}

  lemma {:induction false} TurnsAdd(k: Key, m: nat, n: nat)
    ensures RotRN(k, m + n) == RotRN(RotRN(k, m), n)
    decreases m
  {
    hide RotR;
    if m != 0 { TurnsAdd(RotR(k), m - 1, n); }
  }

  lemma ByteTurn(k: Key)
    ensures RotRN(k, 8) == [k[3], k[0], k[1], k[2]]
  {
    hide RotR;
    EightTurns(k);
  }

  // A stage leaves the key as it found it.
  lemma KeyReturns(stage: Stage, w: Window, k: Key)
    ensures Encrypting(stage, w, k, 32).1 == k && Decrypting(stage, w, k, 32).1 == k
  {
    hide RotRN;
    EncryptingTurnsKey(stage, w, k, 32);
    FullTurn(k);
    var (w', k') := Decrypting(stage, w, k, 32);
    EncryptingDecrypting(stage, w, k, 32);
    EncryptingTurnsKey(stage, w', k', 32);
    FullTurn(k');
  }

  lemma FullTurn(k: Key)
    ensures RotRN(k, 32) == k
  {
    hide RotRN;
    var k1, k2, k3 := RotRN(k, 8), RotRN(k, 16), RotRN(k, 24);
    TurnsAdd(k, 8, 8);
    TurnsAdd(k, 16, 8);
    TurnsAdd(k, 24, 8);
    ByteTurn(k);
    ByteTurn(k1);
    ByteTurn(k2);
    ByteTurn(k3);
  }

  // ---------------------------------------------------------------- whole packets

  function Enc(stage: Stage, w: Window, k: Key): Window { Encrypting(stage, w, k, 32).0 }
  function Dec(stage: Stage, w: Window, k: Key): Window { Decrypting(stage, w, k, 32).0 }

  // A packet with one of its windows replaced.
  function Put8(b: seq<Byte>, off: nat, w: Window): (r: seq<Byte>)
    requires off + 8 <= |b|
    ensures |r| == |b|
  {
    b[..off] + w + b[off + 8..]
  }

  function At8(b: seq<Byte>, off: nat): Window
    requires off + 8 <= |b|
  {
    b[off..off + 8]
  }

  function EncAt(stage: Stage, b: seq<Byte>, off: nat, k: Key): (r: seq<Byte>)
    requires off + 8 <= |b|
    ensures |r| == |b|
  {
    Put8(b, off, Enc(stage, At8(b, off), k))
  }

  function DecAt(stage: Stage, b: seq<Byte>, off: nat, k: Key): (r: seq<Byte>)
    requires off + 8 <= |b|
    ensures |r| == |b|
  {
    Put8(b, off, Dec(stage, At8(b, off), k))
  }

  // The chain of gbox_encrypt: every byte but the last two is combined with its right neighbour.
  function ChainOut(b: seq<Byte>): (r: seq<Byte>)
    ensures |r| == |b|
  {
    seq(|b|, i requires 0 <= i < |b| => if i < |b| - 2 then b[i] ^ b[i + 1] else b[i])
  }

  // The chain of gbox_decrypt, from byte i on: every byte but the last is combined with its
  // right neighbour, starting from the right.
  function ChainInAt(b: seq<Byte>, i: nat): Byte
    requires i < |b|
    decreases |b| - i
  {
    if i == |b| - 1 then b[i] else b[i] ^ ChainInAt(b, i + 1)
  }

  function ChainIn(b: seq<Byte>): (r: seq<Byte>)
    ensures |r| == |b|
  {
    seq(|b|, i requires 0 <= i < |b| => ChainInAt(b, i))
  }

  function Encrypted(b: seq<Byte>, k: Key): (r: seq<Byte>)
    requires 9 <= |b|
    ensures |r| == |b|
  {
    var b1 := ChainOut(EncAt(One, b, 0, k));
    DecAt(Two, EncAt(Two, b1, 0, k), |b| - 9, k)
  }

  function Decrypted(b: seq<Byte>, k: Key): (r: seq<Byte>)
    requires 9 <= |b|
    ensures |r| == |b|
  {
    var b1 := DecAt(Two, EncAt(Two, b, |b| - 9, k), 0, k);
    DecAt(One, ChainIn(b1), 0, k)
  }

  lemma WindowIs(before: seq<Byte>, now: seq<Byte>, off: nat)
    requires off + 8 <= |before| && OnlyWindow(now, before, off)
    ensures now == Put8(before, off, now[off..off + 8])
  {}

  // A stage on one window of a packet: nothing else changes, and the key is back afterwards.
  method EncryptStage(stage: Stage, buf: array<Byte>, off: nat, key: array<Byte>)
    requires key.Length == 4 && buf != key && off + 8 <= buf.Length
    modifies buf, key
    ensures buf[..] == EncAt(stage, old(buf[..]), off, old(key[..])) && key[..] == old(key[..])
  {
    hide Encrypting;
    hide Decrypting;
    KeyReturns(stage, buf[off..off + 8], key[..]);
    ghost var before := buf[..];
    assert before[off..off + 8] == buf[off..off + 8];
    if stage.One? { EncryptStage1(buf, off, key); } else { EncryptStage2(buf, off, key); }
    assert buf[..][off..off + 8] == buf[off..off + 8];
    WindowIs(before, buf[..], off);
  }

  method DecryptStage(stage: Stage, buf: array<Byte>, off: nat, key: array<Byte>)
    requires key.Length == 4 && buf != key && off + 8 <= buf.Length
    modifies buf, key
    ensures buf[..] == DecAt(stage, old(buf[..]), off, old(key[..])) && key[..] == old(key[..])
  {
    hide Encrypting;
    hide Decrypting;
    KeyReturns(stage, buf[off..off + 8], key[..]);
    ghost var before := buf[..];
    assert before[off..off + 8] == buf[off..off + 8];
    if stage.One? { DecryptStage1(buf, off, key); } else { DecryptStage2(buf, off, key); }
    assert buf[..][off..off + 8] == buf[off..off + 8];
    WindowIs(before, buf[..], off);
  }

  // gbox_encrypt
  method Encrypt(buf: array<Byte>, key: Key)
    requires 9 <= buf.Length
    modifies buf
    ensures buf[..] == Encrypted(old(buf[..]), key)
  {
    hide EncAt;
    hide DecAt;
    var l := buf.Length;
    var tmpKey := new Byte[4](i requires 0 <= i < 4 => key[i]);
    assert tmpKey[..] == key;
    EncryptStage(One, buf, 0, tmpKey);
    ghost var b1 := buf[..];
    for i := 0 to l - 2
      invariant tmpKey[..] == key
      invariant forall k :: 0 <= k < i ==> buf[k] == b1[k] ^ b1[k + 1]
      invariant forall k :: i <= k < l ==> buf[k] == b1[k]
    {
      buf[i] := buf[i] ^ buf[i + 1];
    }
    assert buf[..] == ChainOut(b1);
    EncryptStage(Two, buf, 0, tmpKey);
    DecryptStage(Two, buf, l - 9, tmpKey);
  }

  // gbox_decrypt
  method Decrypt(buf: array<Byte>, key: Key)
    requires 9 <= buf.Length
    modifies buf
    ensures buf[..] == Decrypted(old(buf[..]), key)
  {
    hide EncAt;
    hide DecAt;
    var l := buf.Length;
    var tmpKey := new Byte[4](i requires 0 <= i < 4 => key[i]);
    assert tmpKey[..] == key;
    EncryptStage(Two, buf, l - 9, tmpKey);
    DecryptStage(Two, buf, 0, tmpKey);
    ghost var b1 := buf[..];
    for i := l - 1 downto 0
      invariant tmpKey[..] == key
      invariant forall k :: 0 <= k < i ==> buf[k] == b1[k]
      invariant forall k :: i <= k < l ==> buf[k] == ChainInAt(b1, k)
    {
      buf[i] := buf[i] ^ buf[i + 1];
    }
    assert buf[..] == ChainIn(b1);
    DecryptStage(One, buf, 0, tmpKey);
  }

  // ---------------------------------------------------------------- the packet theorem

  lemma DecEnc(stage: Stage, w: Window, k: Key)
    ensures Dec(stage, Enc(stage, w, k), k) == w && Enc(stage, Dec(stage, w, k), k) == w
  {
    hide Encrypting;
    hide Decrypting;
    KeyReturns(stage, w, k);
    DecryptingEncrypting(stage, w, k, 32);
    EncryptingDecrypting(stage, w, k, 32);
  }

  // On the same window of a packet a stage and its opposite undo each other.
  lemma DecEncAt(stage: Stage, b: seq<Byte>, off: nat, k: Key)
    requires off + 8 <= |b|
    ensures DecAt(stage, EncAt(stage, b, off, k), off, k) == b && EncAt(stage, DecAt(stage, b, off, k), off, k) == b
  {
    hide Enc;
    hide Dec;
    var w := At8(b, off);
    DecEnc(stage, w, k);
    WindowRead(b, off, Enc(stage, w, k));
    WindowRead(b, off, Dec(stage, w, k));
  }

  lemma WindowRead(b: seq<Byte>, off: nat, w: Window)
    requires off + 8 <= |b|
    ensures At8(Put8(b, off, w), off) == w
    ensures forall v: Window :: Put8(Put8(b, off, w), off, v) == Put8(b, off, v)
    ensures Put8(b, off, At8(b, off)) == b
  {}

  // The two chains together combine every byte but the last with the last byte: the first stops
  // one place earlier than the second starts.
  function XorLast(b: seq<Byte>): (r: seq<Byte>)
    requires 0 < |b|
    ensures |r| == |b|
  {
    seq(|b|, i requires 0 <= i < |b| => if i < |b| - 1 then b[i] ^ b[|b| - 1] else b[i])
  }

  lemma {:induction false} ChainsComposeAt(b: seq<Byte>, i: nat)
    requires 2 <= |b| && i < |b| - 1
    ensures ChainInAt(ChainOut(b), i) == b[i] ^ b[|b| - 1]
    decreases |b| - i
  {
    if i < |b| - 2 {
      ChainsComposeAt(b, i + 1);
      XorMiddle(b[i], b[i + 1], b[|b| - 1]);
    }
  }

  lemma XorMiddle(x: Byte, y: Byte, z: Byte)
    ensures (x ^ y) ^ (y ^ z) == x ^ z
  {}

  lemma ChainsCompose(b: seq<Byte>)
    requires 2 <= |b|
    ensures ChainIn(ChainOut(b)) == XorLast(b)
  {
    forall i | 0 <= i < |b|
      ensures ChainIn(ChainOut(b))[i] == XorLast(b)[i]
    {
      if i < |b| - 1 { ChainsComposeAt(b, i); }
    }
  }

  // What decryption makes of an encrypted packet of any length, overlapping windows included.
  lemma DecryptedEncrypted(b: seq<Byte>, k: Key)
    requires 9 <= |b|
    ensures Decrypted(Encrypted(b, k), k) == DecAt(One, XorLast(EncAt(One, b, 0, k)), 0, k)
  {
    hide EncAt;
    hide DecAt;
    var b1 := ChainOut(EncAt(One, b, 0, k));
    var b2 := EncAt(Two, b1, 0, k);
    DecEncAt(Two, b2, |b| - 9, k);
    DecEncAt(Two, b1, 0, k);
    ChainsCompose(EncAt(One, b, 0, k));
  }

  // gbox_decrypt undoes gbox_encrypt exactly on the packets whose last byte is 0.
  lemma RoundTripIffLastZero(b: seq<Byte>, k: Key)
    requires 9 <= |b|
    ensures Decrypted(Encrypted(b, k), k) == b <==> b[|b| - 1] == 0
  {
    hide EncAt;
    hide DecAt;
    DecryptedEncrypted(b, k);
    var e := EncAt(One, b, 0, k);
    DecEncAt(One, b, 0, k);
    DecEncAt(One, XorLast(e), 0, k);
    LastByteKept(b, k);
    if b[|b| - 1] == 0 {
      XorWithZero(e);
    } else {
      XorNotZero(e[0], e[|e| - 1]);
      assert XorLast(e)[0] != e[0];
    }
  }

  lemma LastByteKept(b: seq<Byte>, k: Key)
    requires 9 <= |b|
    ensures EncAt(One, b, 0, k)[|b| - 1] == b[|b| - 1]
  {
    hide Enc;
  }

  lemma XorWithZero(b: seq<Byte>)
    requires 0 < |b| && b[|b| - 1] == 0
    ensures XorLast(b) == b
  {
    forall i | 0 <= i < |b|
      ensures XorLast(b)[i] == b[i]
    {
      assert b[i] ^ 0 == b[i];
    }
  }

  lemma XorNotZero(x: Byte, z: Byte)
    ensures z != 0 ==> x ^ z != x
  {}

  // ---------------------------------------------------------------- what the rounds compute

  // The byte an encrypting round of stage one makes: the table looked up at two places that the
  // left neighbour and the key give, added twice and combined, and a byte of the key added.
  lemma StageOneRound(w: Window, k: Key, j: nat)
    requires j < 8
    ensures var x, y, p, q := w[(j + 1) % 8], w[j], k[(j + 1) % 4], k[j % 4];
      var a, b := Sbox((p ^ y) >> 2), Sbox(y - p);
      Round(One, w, k, j) == w[(j + 1) % 8 := ((x + a + a) ^ b) + q]
  {
    hide Sbox;
    Doubled(Sbox((k[(j + 1) % 4] ^ w[j]) >> 2));
  }

  // The same for stage two: subtracted, combined, subtracted.
  lemma StageTwoRound(w: Window, k: Key, j: nat)
    requires j < 8
    ensures var x, y, p, q := w[(j + 1) % 8], w[j], k[(j + 1) % 4], k[j % 4];
      var a, b := Sbox(y >> 2), Sbox(y - p);
      Round(Two, w, k, j) == w[(j + 1) % 8 := ((x - a) ^ b) - q]
  {
    hide Sbox;
  }

  // Only the low six bits of a place count.
  lemma PlaceIsMasked(u: Byte)
    ensures Sbox(u) == Sbox(u & 0x3f)
  {
    assert (u & 0x3f) & 0x3f == u & 0x3f;
  }

  lemma Doubled(a: Byte)
    ensures a * 2 == a + a
  {
  }

  function Word(k: Key): bv32 {
    ((k[0] as bv32) << 24) | ((k[1] as bv32) << 16) | ((k[2] as bv32) << 8) | (k[3] as bv32)
  }

  // The key is rotated as a 32-bit number.
  lemma KeyIsRotated(k: Key)
    ensures Word(RotR(k)) == (Word(k) >> 1) | (Word(k) << 31) && Word(RotL(k)) == (Word(k) << 1) | (Word(k) >> 31)
  {
  }

  // Between the two windows, bytes are combined with their right neighbours and nothing else; the
  // last byte stays.
  lemma BetweenWindows(b: seq<Byte>, k: Key, i: nat)
    requires 9 <= |b| && i < |b|
    ensures 8 <= i < |b| - 9 ==> Encrypted(b, k)[i] == b[i] ^ b[i + 1]
    ensures i == |b| - 1 ==> Encrypted(b, k)[i] == b[i]
  {
    hide Enc, Dec;
  }
}
