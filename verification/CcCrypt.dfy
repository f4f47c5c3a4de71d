// The CCcam stream cipher (module-cccam.c): key schedule, keyed table, and the state byte
// that feeds plaintext back into the stream.
module CcCrypt {
  import opened Bytes

  // cc_crypt_mode_t
  datatype Mode = Decrypt | Encrypt

  // The value of a struct cc_crypt_block.
  datatype Block = Block(table: seq<Byte>, state: Byte, counter: Byte, sum: Byte)

  ghost predicate Wf(b: Block) { |b.table| == 256 }

  function Identity(): (t: seq<Byte>)
    ensures |t| == 256 && forall i :: 0 <= i < 256 ==> t[i] == i
  {
    seq(256, i requires 0 <= i < 256 => i)
  }

  // SWAPC on two entries of the table
  function Swap(t: seq<Byte>, i: Byte, j: Byte): (r: seq<Byte>)
    requires |t| == 256
    ensures |r| == 256
  {
    t[i := t[j]][j := t[i]]
  }

  // Table and running index after the first n rounds of cc_init_crypt.
  function InitRounds(key: seq<Byte>, n: nat): (r: (seq<Byte>, Byte))
    requires 0 < |key| && n <= 256
    ensures |r.0| == 256
  {
    if n == 0 then (Identity(), 0)
    else
      var (t, j) := InitRounds(key, n - 1);
      var j' := Plus(j, Plus(key[(n - 1) % |key|], t[n - 1]));
      (Swap(t, n - 1, j'), j')
  }

  function Init(key: seq<Byte>): (b: Block)
    requires 0 < |key|
    ensures Wf(b)
  {
    Block(InitRounds(key, 256).0, key[0], 0, 0)
  }

  // What every byte does to the block before it is combined with the data.
  function Advance(b: Block): (r: Block)
    requires Wf(b)
    ensures Wf(r)
  {
    var c := Plus(b.counter, 1);
    var s := Plus(b.sum, b.table[c]);
    Block(Swap(b.table, c, s), b.state, c, s)
  }

  function KeyByte(b: Block): Byte
    requires Wf(b)
  {
    b.table[Plus(b.table[b.counter], b.table[b.sum])]
  }

  function CryptByte(b: Block, z: Byte, mode: Mode): (r: (Block, Byte))
    requires Wf(b)
    ensures Wf(r.0)
  {
    var a := Advance(b);
    var o := Xor(Xor(z, KeyByte(a)), a.state);
    (a.(state := Xor(a.state, if mode.Decrypt? then o else z)), o)
  }

  // cc_crypt over a whole buffer: the block afterwards and the bytes written.
  function Crypt(b: Block, data: seq<Byte>, mode: Mode): (r: (Block, seq<Byte>))
    requires Wf(b)
    ensures Wf(r.0) && |r.1| == |data|
  {
    if data == [] then (b, [])
    else
      var (b', out) := Crypt(b, data[..|data| - 1], mode);
      var (b'', o) := CryptByte(b', data[|data| - 1], mode);
      (b'', out + [o])
  }

  // One byte of cc_rc4_crypt: the same key stream, without the state byte in the output.
  function Rc4Byte(b: Block, z: Byte, mode: Mode): (r: (Block, Byte))
    requires Wf(b)
    ensures Wf(r.0)
  {
    var a := Advance(b);
    var o := Xor(z, KeyByte(a));
    (a.(state := Xor(a.state, if mode.Decrypt? then o else z)), o)
  }

  function Rc4(b: Block, data: seq<Byte>, mode: Mode): (r: (Block, seq<Byte>))
    requires Wf(b)
    ensures Wf(r.0) && |r.1| == |data|
  {
    if data == [] then (b, [])
    else
      var (b', out) := Rc4(b, data[..|data| - 1], mode);
      var (b'', o) := Rc4Byte(b', data[|data| - 1], mode);
      (b'', out + [o])
  }

  // ---------------------------------------------------------------- the C object

  // struct cc_crypt_block
  class CryptBlock {
    const keytable: array<Byte>
    var state: Byte
    var counter: Byte
    var sum: Byte

    ghost predicate Valid()
      reads this
    {
      keytable.Length == 256
    }

    ghost function Value(): (b: Block)
      reads this, keytable
      requires Valid()
      ensures Wf(b)
    {
      Block(keytable[..], state, counter, sum)
    }

    constructor ()
      ensures Valid() && fresh(keytable)
    {
      keytable := new Byte[256](_ => 0);
      state, counter, sum := 0, 0, 0;
    }

    // memcpy of the whole struct
    method CopyFrom(src: CryptBlock)
      requires Valid() && src.Valid() && src.keytable != keytable
      modifies this, keytable
      ensures Valid() && Value() == src.Value()
    {
      forall i | 0 <= i < 256 {
        keytable[i] := src.keytable[i];
      }
      state, counter, sum := src.state, src.counter, src.sum;
      assert keytable[..] == src.keytable[..];
    }

    method SwapEntries(i: Byte, j: Byte)
      requires Valid()
      modifies keytable
      ensures keytable[..] == Swap(old(keytable[..]), i, j)
    {
      var p := keytable[i];
      keytable[i] := keytable[j];
      keytable[j] := p;
    }

    // cc_init_crypt
    method InitCrypt(key: seq<Byte>)
      requires Valid() && 0 < |key|
      modifies this, keytable
      ensures Valid() && Value() == Init(key)
    {
      for i := 0 to 256
        invariant forall k :: 0 <= k < i ==> keytable[k] == k
      {
        keytable[i] := i;
      }
      assert keytable[..] == Identity();
      var j: Byte := 0;
      for i := 0 to 256
        invariant (keytable[..], j) == InitRounds(key, i)
      {
        j := Plus(j, Plus(key[i % |key|], keytable[i]));
        SwapEntries(i, j);
      }
      state, counter, sum := key[0], 0, 0;
    }

    // The three lines both ciphers start a byte with.
    method Step()
      requires Valid()
      modifies this, keytable
      ensures Valid() && Value() == Advance(old(Value()))
    {
      counter := Plus(counter, 1);
      sum := Plus(sum, keytable[counter]);
      SwapEntries(counter, sum);
    }

    method OneByte(z: Byte, mode: Mode) returns (o: Byte)
      requires Valid()
      modifies this, keytable
      ensures Valid() && (Value(), o) == CryptByte(old(Value()), z, mode)
    {
      Step();
      o := Xor(z, keytable[Plus(keytable[counter], keytable[sum])]);
      o := Xor(o, state);
      state := Xor(state, if mode.Decrypt? then o else z);
    }

    // One pass of the loop of cc_crypt, on data[k] == src[i].
    method ByteInPlace(data: array<Byte>, k: nat, mode: Mode, ghost b0: Block, ghost src: seq<Byte>, ghost i: nat,
                       ghost out: seq<Byte>)
      requires Valid() && data != keytable && k < data.Length && i < |src| && src[i] == data[k]
      requires Wf(b0) && (Value(), out) == Crypt(b0, src[..i], mode)
      modifies this, keytable, data
      ensures Valid() && (Value(), out + [data[k]]) == Crypt(b0, src[..i + 1], mode)
      ensures forall j :: 0 <= j < data.Length && j != k ==> data[j] == old(data[j])
    {
      assert src[..i + 1][..i] == src[..i];
      var o := OneByte(data[k], mode);
      data[k] := o;
    }

    // cc_crypt on data[off..off+len], in place
    method CryptInPlace(data: array<Byte>, off: nat, len: nat, mode: Mode)
      requires Valid() && data != keytable && off + len <= data.Length
      modifies this, keytable, data
      ensures Valid()
      ensures (Value(), data[off..off + len]) == Crypt(old(Value()), old(data[off..off + len]), mode)
      ensures forall k :: 0 <= k < off || off + len <= k < data.Length ==> data[k] == old(data[k])
    {
      hide Crypt;
      ghost var src, out, b0 := data[off..off + len], [], Value();
      assert src[..0] == [];
      NothingToCrypt(b0, mode);
      for i := 0 to len
        invariant |out| == i && (Value(), out) == Crypt(b0, src[..i], mode)
        invariant forall k :: 0 <= k < i ==> data[off + k] == out[k]
        invariant forall k :: 0 <= k < off || off + i <= k < data.Length ==> data[k] == old(data[k])
      {
        ByteInPlace(data, off + i, mode, b0, src, i, out);
        out := out + [data[off + i]];
      }
      assert src[..len] == src && data[off..off + len] == out;
    }

    method Rc4OneByte(z: Byte, mode: Mode) returns (o: Byte)
      requires Valid()
      modifies this, keytable
      ensures Valid() && (Value(), o) == Rc4Byte(old(Value()), z, mode)
    {
      Step();
      o := Xor(z, keytable[Plus(keytable[counter], keytable[sum])]);
      state := Xor(state, if mode.Decrypt? then o else z);
    }

    // cc_rc4_crypt on a whole buffer, in place
    method Rc4InPlace(data: array<Byte>, mode: Mode)
      requires Valid() && data != keytable
      modifies this, keytable, data
      ensures Valid() && (Value(), data[..]) == Rc4(old(Value()), old(data[..]), mode)
    {
      hide Rc4, Rc4Byte;
      ghost var src, out, b0 := data[..], [], Value();
      assert src[..0] == [];
      NothingToRc4(b0, mode);
      for i := 0 to data.Length
        invariant |out| == i && (Value(), out) == Rc4(b0, src[..i], mode)
        invariant forall k :: 0 <= k < data.Length ==> data[k] == if k < i then out[k] else src[k]
      {
        Rc4Step(b0, src, i, mode);
        var o := Rc4OneByte(data[i], mode);
        data[i] := o;
        out := out + [o];
      }
      assert src[..data.Length] == src && data[..] == out;
    }
  }

  // ---------------------------------------------------------------- properties

  lemma NothingToCrypt(b: Block, mode: Mode)
    requires Wf(b)
    ensures Crypt(b, [], mode) == (b, [])
  {}

  lemma NothingToRc4(b: Block, mode: Mode)
    requires Wf(b)
    ensures Rc4(b, [], mode) == (b, [])
  {}

  lemma Rc4Step(b: Block, src: seq<Byte>, i: nat, mode: Mode)
    requires Wf(b) && i < |src|
    ensures var (b1, out) := Rc4(b, src[..i], mode);
            var (b2, o) := Rc4Byte(b1, src[i], mode);
            Rc4(b, src[..i + 1], mode) == (b2, out + [o])
  {
    assert src[..i + 1][..i] == src[..i];
  }

  lemma CryptSnoc(b: Block, s: seq<Byte>, z: Byte, mode: Mode)
    requires Wf(b)
    ensures var (b1, out) := Crypt(b, s, mode);
            var (b2, o) := CryptByte(b1, z, mode);
            Crypt(b, s + [z], mode) == (b2, out + [o])
  {
    hide CryptByte;
    assert (s + [z])[..|s|] == s;
  }

  // A buffer may be processed in any two pieces.
  lemma {:induction false} CryptAppend(b: Block, x: seq<Byte>, y: seq<Byte>, mode: Mode)
    requires Wf(b)
    ensures var (b1, o1) := Crypt(b, x, mode);
            var (b2, o2) := Crypt(b1, y, mode);
            Crypt(b, x + y, mode) == (b2, o1 + o2)
    decreases |y|
  {
    hide Crypt, CryptByte;
    var (b1, o1) := Crypt(b, x, mode);
    if y == [] {
      NothingToCrypt(b1, mode);
      assert x + y == x && o1 + [] == o1;
    } else {
      var y', z := y[..|y| - 1], y[|y| - 1];
      assert y == y' + [z] && x + y == (x + y') + [z];
      CryptAppend(b, x, y', mode);
      CryptSnoc(b1, y', z, mode);
      CryptSnoc(b, x + y', z, mode);
      var (b2, o2) := Crypt(b1, y', mode);
      var o := CryptByte(b2, z, mode).1;
      assert o1 + (o2 + [o]) == (o1 + o2) + [o];
    }
  }

  lemma CryptSplit(b: Block, data: seq<Byte>, k: nat, mode: Mode)
    requires Wf(b) && k <= |data|
    ensures var (b1, o1) := Crypt(b, data[..k], mode);
            Crypt(b, data, mode).1[..k] == o1 &&
            Crypt(b1, data[k..], mode) == (Crypt(b, data, mode).0, Crypt(b, data, mode).1[k..])
  {

    hide Crypt;
    var x, y := data[..k], data[k..];
    CryptAppend(b, x, y, mode);
    var (b1, o1) := Crypt(b, x, mode);
    var (b2, o2) := Crypt(b1, y, mode);
    assert x + y == data;
    assert (o1 + o2)[..k] == o1 && (o1 + o2)[k..] == o2;
  }

  // Pieces of any sizes, in any number.
  function Concat(chunks: seq<seq<Byte>>): seq<Byte>
    decreases |chunks|
  {
    if chunks == [] then [] else chunks[0] + Concat(chunks[1..])
  }

  function CryptChunks(b: Block, chunks: seq<seq<Byte>>, mode: Mode): (r: (Block, seq<Byte>))
    requires Wf(b)
    ensures Wf(r.0)
    decreases |chunks|
  {
    if chunks == [] then (b, [])
    else
      var (b1, o1) := Crypt(b, chunks[0], mode);
      var (b2, o2) := CryptChunks(b1, chunks[1..], mode);
      (b2, o1 + o2)
  }

  lemma {:induction false} ChunkingIrrelevant(b: Block, chunks: seq<seq<Byte>>, mode: Mode)
    requires Wf(b)
    ensures CryptChunks(b, chunks, mode) == Crypt(b, Concat(chunks), mode)
    decreases |chunks|
  {
    if chunks != [] {
      ChunkingIrrelevant(Crypt(b, chunks[0], mode).0, chunks[1..], mode);
      CryptAppend(b, chunks[0], Concat(chunks[1..]), mode);
    }
  }

  function Opposite(mode: Mode): Mode { if mode.Encrypt? then Decrypt else Encrypt }

  // Undoing from the block the sender started with gives back the text and the sender's
  // final block, in both directions.
  lemma {:induction false} RoundTrip(b: Block, text: seq<Byte>, mode: Mode)
    requires Wf(b)
    ensures Crypt(b, Crypt(b, text, mode).1, Opposite(mode)) == (Crypt(b, text, mode).0, text)
    decreases |text|
  {
    if text != [] {
      var t, z := text[..|text| - 1], text[|text| - 1];
      RoundTrip(b, t, mode);
      var (b', out) := Crypt(b, t, mode);
      ByteRoundTrip(b', z, mode);
      assert Crypt(b, text, mode).1[..|t|] == out;
      assert t + [z] == text;
    }
  }

  lemma ByteRoundTrip(b: Block, z: Byte, mode: Mode)
    requires Wf(b)
    ensures CryptByte(b, CryptByte(b, z, mode).1, Opposite(mode)) == (CryptByte(b, z, mode).0, z)
  {
    UnmaskByte(z, KeyByte(Advance(b)), b.state, b.state);
    XorZero(z);
    XorZero(b.state);
    XorAssociates(z, b.state, b.state);
  }

  // Masking with k and s, then with k and r, leaves only the difference of s and r.
  lemma UnmaskByte(z: Byte, k: Byte, s: Byte, r: Byte)
    ensures Xor(Xor(Xor(Xor(z, k), s), k), r) == Xor(z, Xor(s, r))
  {
    XorAssociates(Xor(z, k), s, k);
    XorCancels(s, k);
    XorAssociates(Xor(z, k), k, s);
    XorCancels(z, k);
    XorAssociates(z, s, r);
  }

  // For a fixed block and mode, distinct texts give distinct outputs.
  lemma {:induction false} CryptInjective(b: Block, x: seq<Byte>, y: seq<Byte>, mode: Mode)
    requires Wf(b)
    requires Crypt(b, x, mode).1 == Crypt(b, y, mode).1
    ensures x == y
  {
    RoundTrip(b, x, mode);
    RoundTrip(b, y, mode);
  }

  ghost predicate IsPermutation(t: seq<Byte>) {
    |t| == 256 && multiset(t) == multiset(Identity())
  }

  lemma SwapPermutes(t: seq<Byte>, i: Byte, j: Byte)
    requires |t| == 256
    ensures multiset(Swap(t, i, j)) == multiset(t)
  {}

  // The key schedule starts from a permutation of 0..255 and every step of it is a swap.
  lemma {:induction false} InitPermutes(key: seq<Byte>, n: nat)
    requires 0 < |key| && n <= 256
    ensures IsPermutation(InitRounds(key, n).0)
    decreases n
  {
    if n != 0 {
      InitPermutes(key, n - 1);
      var (t, j) := InitRounds(key, n - 1);
      SwapPermutes(t, n - 1, Plus(j, Plus(key[(n - 1) % |key|], t[n - 1])));
    }
  }

  // The key table of a keyed block is a permutation of 0..255 whatever is processed.
  lemma {:induction false} TableStaysPermutation(key: seq<Byte>, data: seq<Byte>, mode: Mode)
    requires 0 < |key|
    ensures IsPermutation(Crypt(Init(key), data, mode).0.table)
    decreases |data|
  {
    if data == [] {
      InitPermutes(key, 256);
    } else {
      var t := data[..|data| - 1];
      TableStaysPermutation(key, t, mode);
      var b := Crypt(Init(key), t, mode).0;
      var c := Plus(b.counter, 1);
      SwapPermutes(b.table, c, Plus(b.sum, b.table[c]));
    }
  }

  // Two blocks that produce the same key stream: everything but the state byte agrees.
  ghost predicate InStep(b: Block, c: Block) {
    Wf(b) && Wf(c) && b.table == c.table && b.counter == c.counter && b.sum == c.sum
  }

  // Staying in step depends on how many bytes were processed and on nothing else.
  lemma {:induction false} LengthKeepsStep(b: Block, x: seq<Byte>, m: Mode, c: Block, y: seq<Byte>, n: Mode)
    requires InStep(b, c) && |x| == |y|
    ensures InStep(Crypt(b, x, m).0, Crypt(c, y, n).0)
    decreases |x|
  {
    if x != [] {
      LengthKeepsStep(b, x[..|x| - 1], m, c, y[..|y| - 1], n);
    }
  }

  // The counter counts bytes, modulo 256.
  lemma {:induction false} CounterCounts(b: Block, data: seq<Byte>, mode: Mode)
    requires Wf(b)
    ensures Crypt(b, data, mode).0.counter == (b.counter + |data|) % 256
    decreases |data|
  {
    if data != [] {
      var t := data[..|data| - 1];
      CounterCounts(b, t, mode);
      OneMore(b.counter, |t|);
      assert Crypt(b, data, mode).0.counter == Plus(Crypt(b, t, mode).0.counter, 1);
    }
  }

  lemma OneMore(c: Byte, n: nat)
    ensures Plus((c + n) % 256, 1) == (c + (n + 1)) % 256
  {}

  // A wrong state byte heals after one decrypted byte: only the first byte comes out wrong,
  // by exactly the difference of the two state bytes, and the blocks end up equal.
  lemma {:induction false} StateHeals(b: Block, text: seq<Byte>, c: Block)
    requires InStep(b, c) && text != []
    ensures var (b', wire) := Crypt(b, text, Encrypt);
            Crypt(c, wire, Decrypt) == (b', [Xor(text[0], Xor(b.state, c.state))] + text[1..])
    decreases |text|
  {
    var z := text[0];
    var (b1, w) := CryptByte(b, z, Encrypt);
    HealByte(z, KeyByte(Advance(b)), b.state, c.state);
    assert CryptByte(c, w, Decrypt) == (b1, Xor(z, Xor(b.state, c.state)));
    SingleByte(b, z, Encrypt);
    SingleByte(c, w, Decrypt);
    CryptAppend(b, [z], text[1..], Encrypt);
    CryptAppend(c, [w], Crypt(b1, text[1..], Encrypt).1, Decrypt);
    RoundTrip(b1, text[1..], Encrypt);
    assert text == [z] + text[1..];
  }

  lemma SingleByte(b: Block, z: Byte, mode: Mode)
    requires Wf(b)
    ensures Crypt(b, [z], mode) == (CryptByte(b, z, mode).0, [CryptByte(b, z, mode).1])
  {
    var data := [z];
    assert data[..|data| - 1] == [] && data[|data| - 1] == z;
    assert Crypt(b, [], mode) == (b, []);
    var (b', o) := CryptByte(b, z, mode);
    assert Crypt(b, data, mode) == (b', [] + [o]);
    assert [] + [o] == [o];
  }

  // What the receiver makes of one byte when its state byte is r instead of s, and the state
  // byte it continues with.
  lemma HealByte(z: Byte, k: Byte, s: Byte, r: Byte)
    ensures Xor(Xor(Xor(Xor(z, k), s), k), r) == Xor(z, Xor(s, r))
    ensures Xor(r, Xor(z, Xor(s, r))) == Xor(s, z)
  {
    UnmaskByte(z, k, s, r);
    XorAssociates(z, s, r);
    XorCancels(Xor(z, s), r);
    XorCancels(z, s);
  }

  // cc_rc4_crypt undoes itself from blocks in step, whatever the two state bytes and modes are.
  lemma {:induction false} Rc4RoundTrip(b: Block, text: seq<Byte>, m: Mode, c: Block, n: Mode)
    requires InStep(b, c)
    ensures var (b', wire) := Rc4(b, text, m);
            var (c', back) := Rc4(c, wire, n);
            back == text && InStep(b', c')
    decreases |text|
  {
    if text != [] {
      var t, z := text[..|text| - 1], text[|text| - 1];
      Rc4RoundTrip(b, t, m, c, n);
      var (b', out) := Rc4(b, t, m);
      assert Rc4(b, text, m).1[..|t|] == out;
      XorCancels(z, KeyByte(Advance(b')));
      assert t + [z] == text;
    }
  }
}
