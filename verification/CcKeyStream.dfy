// What the CCcam stream ciphers compute, from the textbook RC4 key stream: numbers below 256, all
// sums modulo 256, no state byte and no block.
module CcKeyStream {
  import opened Bytes
  import opened CcCrypt

  // A permutation and RC4's two indices
  datatype Rc4State = Rc4State(s: seq<nat>, i: nat, j: nat)

  function Swapped(s: seq<nat>, i: nat, j: nat): (r: seq<nat>)
    requires i < |s| && j < |s|
    ensures |r| == |s| && r[i] == s[j] && r[j] == s[i]
    ensures forall k :: 0 <= k < |s| && k != i && k != j ==> r[k] == s[k]
  {
    s[i := s[j]][j := s[i]]
  }

  // The key schedule after n steps
  function Schedule(key: seq<nat>, n: nat): (r: (seq<nat>, nat))
    requires 0 < |key| && n <= 256
    ensures |r.0| == 256 && r.1 < 256
  {
    if n == 0 then (seq(256, k requires 0 <= k < 256 => k), 0)
    else
      var (s, j) := Schedule(key, n - 1);
      var next := (j + s[n - 1] + key[(n - 1) % |key|]) % 256;
      (Swapped(s, n - 1, next), next)
  }

  // The generator after n bytes
  function Generator(key: seq<nat>, n: nat): (r: Rc4State)
    requires 0 < |key|
    ensures |r.s| == 256 && r.i < 256 && r.j < 256
  {
    if n == 0 then Rc4State(Schedule(key, 256).0, 0, 0)
    else
      var g := Generator(key, n - 1);
      var i := (g.i + 1) % 256;
      var j := (g.j + g.s[i]) % 256;
      Rc4State(Swapped(g.s, i, j), i, j)
  }

  // Byte n of the key stream
  function KeyStream(key: seq<nat>, n: nat): nat
    requires 0 < |key|
  {
    var g := Generator(key, n + 1);
    g.s[(g.s[g.i] + g.s[g.j]) % 256]
  }

  function Numbers(s: seq<Byte>): (r: seq<nat>)
    ensures |r| == |s| && forall k :: 0 <= k < |s| ==> r[k] == s[k]
  {
    seq(|s|, k requires 0 <= k < |s| => s[k])
  }

  lemma SwapIsSwapped(t: seq<Byte>, i: Byte, j: Byte)
    requires |t| == 256
    ensures Numbers(Swap(t, i, j)) == Swapped(Numbers(t), i, j)
  {
  }

  lemma {:induction false} ScheduleAgrees(key: seq<Byte>, n: nat)
    requires 0 < |key| && n <= 256
    ensures Schedule(Numbers(key), n) == (Numbers(InitRounds(key, n).0), InitRounds(key, n).1)
  {
    hide Swap, Swapped, Plus;
    if n > 0 {
      ScheduleAgrees(key, n - 1);
      var (t, j) := InitRounds(key, n - 1);
      SumOfThree(j, key[(n - 1) % |key|], t[n - 1]);
      SwapIsSwapped(t, n - 1, Plus(j, Plus(key[(n - 1) % |key|], t[n - 1])));
    } else {
      assert Numbers(Identity()) == seq(256, k requires 0 <= k < 256 => k);
    }
  }

  lemma SumOfThree(a: Byte, b: Byte, c: Byte)
    ensures var x: nat, y: nat, z: nat := a, b, c; Plus(a, Plus(b, c)) == (x + z + y) % 256
  {
  }

  lemma PlusIsModular(a: Byte, b: Byte)
    ensures var m: nat, n: nat := a, b; Plus(a, b) == (m + n) % 256
  {
  }

  // A block is where the generator is.
  ghost predicate Follows(b: Block, g: Rc4State) {
    Wf(b) && g.s == Numbers(b.table) && g.i == b.counter && g.j == b.sum
  }

  lemma AdvanceFollows(b: Block, key: seq<Byte>, n: nat)
    requires 0 < |key| && Follows(b, Generator(Numbers(key), n))
    ensures Follows(Advance(b), Generator(Numbers(key), n + 1))
    ensures KeyByte(Advance(b)) == KeyStream(Numbers(key), n)
  {
    var c := Plus(b.counter, 1);
    PlusIsModular(b.counter, 1);
    PlusIsModular(b.sum, b.table[c]);
    SwapIsSwapped(b.table, c, Plus(b.sum, b.table[c]));
    var a := Advance(b);
    PlusIsModular(a.table[a.counter], a.table[a.sum]);
  }

  lemma NothingFollowed(key: seq<Byte>)
    requires 0 < |key|
    ensures Follows(Init(key), Generator(Numbers(key), 0))
  {
    hide InitRounds, Schedule;
    ScheduleAgrees(key, 256);
  }

  // The state byte before byte n: the first key byte and all text before, by exclusive or
  function StateAt(key: seq<Byte>, text: seq<Byte>, n: nat): Byte
    requires 0 < |key| && n <= |text|
  {
    if n == 0 then key[0] else Xor(StateAt(key, text, n - 1), text[n - 1])
  }

  lemma {:induction false} BlockFollows(key: seq<Byte>, text: seq<Byte>, n: nat)
    requires 0 < |key| && n <= |text|
    ensures var b := Crypt(Init(key), text[..n], Encrypt).0;
      Follows(b, Generator(Numbers(key), n)) && b.state == StateAt(key, text, n)
  {
    hide Crypt, Generator, KeyStream, CryptByte, Follows;
    if n == 0 {
      NothingFollowed(key);
      NothingToCrypt(Init(key), Encrypt);
      assert text[..0] == [];
    } else {
      BlockFollows(key, text, n - 1);
      assert text[..n] == text[..n - 1] + [text[n - 1]];
      CryptSnoc(Init(key), text[..n - 1], text[n - 1], Encrypt);
      ByteFollows(Crypt(Init(key), text[..n - 1], Encrypt).0, key, text[n - 1], n - 1);
    }
  }

  // cc_crypt, encrypting with a fresh key: RC4, with the running exclusive or of the first key byte
  // and all text before on top. Decrypting is its inverse.
  lemma CryptIsKeyStream(key: seq<Byte>, text: seq<Byte>, n: nat)
    requires 0 < |key| && n < |text|
    ensures KeyStream(Numbers(key), n) < 256
    ensures Crypt(Init(key), text, Encrypt).1[n] ==
      Xor(Xor(text[n], KeyStream(Numbers(key), n)), StateAt(key, text, n))
  {
    hide Crypt, Generator, KeyStream, StateAt, Init, CryptByte, Follows;
    var b := Crypt(Init(key), text[..n], Encrypt).0;
    BlockFollows(key, text, n);
    ByteFollows(b, key, text[n], n);
    assert text[..n + 1] == text[..n] + [text[n]];
    CryptSnoc(Init(key), text[..n], text[n], Encrypt);
    CryptSplit(Init(key), text, n + 1, Encrypt);
    var out := Crypt(Init(key), text, Encrypt).1;
    assert out[n] == out[..n + 1][n];
  }

  lemma ByteFollows(b: Block, key: seq<Byte>, z: Byte, n: nat)
    requires 0 < |key| && Follows(b, Generator(Numbers(key), n))
    ensures KeyStream(Numbers(key), n) < 256
    ensures CryptByte(b, z, Encrypt).1 == Xor(Xor(z, KeyStream(Numbers(key), n)), b.state)
    ensures Follows(CryptByte(b, z, Encrypt).0, Generator(Numbers(key), n + 1))
    ensures CryptByte(b, z, Encrypt).0.state == Xor(b.state, z)
  {
    hide Generator, KeyStream, KeyByte, Xor;
    AdvanceFollows(b, key, n);
  }

  // cc_rc4_crypt with a fresh key is RC4.
  lemma {:induction false} Rc4IsKeyStream(key: seq<Byte>, text: seq<Byte>, mode: Mode, n: nat)
    requires 0 < |key| && n <= |text|
    ensures var (b, out) := Rc4(Init(key), text[..n], mode);
      && Follows(b, Generator(Numbers(key), n))
      && forall k :: 0 <= k < n ==>
        KeyStream(Numbers(key), k) < 256 && out[k] == Xor(text[k], KeyStream(Numbers(key), k))
  {
    hide Rc4, Generator, KeyStream, Advance, KeyByte;
    if n == 0 {
      NothingFollowed(key);
      NothingToRc4(Init(key), mode);
      assert text[..0] == [];
    } else {
      Rc4IsKeyStream(key, text, mode, n - 1);
      Rc4Step(Init(key), text, n - 1, mode);
      AdvanceFollows(Rc4(Init(key), text[..n - 1], mode).0, key, n - 1);
    }
  }
}
