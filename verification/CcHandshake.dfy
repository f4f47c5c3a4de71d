// Login over a fresh CCcam connection: key agreement from the seed the server sends
// (cc_srv_connect and cc_cli_connect), the username, the check of the password and the
// acknowledgement. SHA-1 is any function with 20-byte results.
module CcHandshake {
  import opened Bytes
  import opened Wrappers
  import opened CcCrypt
  import opened CcChannel

  type Seed = s: seq<Byte> | |s| == 16 witness seq(16, _ => 0)
  type Digest = s: seq<Byte> | |s| == 20 witness seq(20, _ => 0)
  type Hash = Seed -> Digest

  // "CCcam" with its terminating NUL
  const CCCAM: seq<Byte> := [67, 67, 99, 97, 109, 0]

  // ---------------------------------------------------------------- key agreement

  function MixedAt(seed: Seed, i: nat): Byte
    requires i < 16
  {
    if i < 6 then Xor(seed[i], CCCAM[i])
    else if i < 8 then seed[i]
    else (i - 8) * (seed[i - 8] as int) % 256
  }

  function Mixed(seed: Seed): (r: Seed) {
    seq(16, i requires 0 <= i < 16 => MixedAt(seed, i))
  }

  // cc_xor
  method CcXor(buf: array<Byte>)
    requires buf.Length == 16
    modifies buf
    ensures buf[..] == Mixed(old(buf[..]))
  {
    ghost var seed: Seed := buf[..];
    for i := 0 to 8
      invariant forall k :: 0 <= k < i ==> buf[k] == MixedAt(seed, k)
      invariant forall k :: i <= k < 8 ==> buf[k] == seed[k]
      invariant forall k :: 8 <= k < 8 + i ==> buf[k] == MixedAt(seed, k)
    {
      buf[8 + i] := i * (buf[i] as int) % 256;
      if i <= 5 {
        buf[i] := Xor(buf[i], CCCAM[i]);
      }
    }
    assert buf[..] == Mixed(seed);
  }

  // The first bytes of the seed get the letters of "CCcam" by exclusive or, two stay, and the last
  // eight are the first eight times their index, modulo 256.
  lemma MixedBytes(seed: Seed, i: nat, k: nat)
    requires i < 8 && k < 8
    ensures Digit(Mixed(seed)[i], k) ==
      (Digit(seed[i], k) != Digit([0x43, 0x43, 0x63, 0x61, 0x6D, 0, 0, 0][i], k))
    ensures var n: nat := seed[i]; Mixed(seed)[8 + i] == (i * n) % 256
  {
    if i < 6 {
      assert IsXor(seed[i], CCCAM[i], Xor(seed[i], CCCAM[i]));
    } else {
      ZeroDigits(k);
    }
  }

  // The block keyed by the hash, the block keyed by the mixed seed, and the hash as the second
  // block leaves it.
  function Keys(seed: Seed, sha: Hash): (r: (Block, Block, Digest))
    ensures Wf(r.0) && Wf(r.1)
  {
    var data := Mixed(seed);
    var hash := sha(data);
    var (b, data') := Crypt(Init(hash), data, Decrypt);
    var (c, hash') := Crypt(Init(data'), hash, Decrypt);
    (b, c, hash')
  }

  // One key agreement on two blocks: `first` is keyed by the hash, `second` by the mixed seed.
  method Agree(first: CryptBlock, second: CryptBlock, seed: Seed, sha: Hash) returns (hash: Digest)
    requires first != second && first.keytable != second.keytable && first.Valid() && second.Valid()
    modifies first, first.keytable, second, second.keytable
    ensures first.Valid() && second.Valid()
    ensures (first.Value(), second.Value(), hash) == Keys(seed, sha)
  {
    hide Crypt;
    hide Init;
    var data := new Byte[16](i requires 0 <= i < 16 => seed[i]);
    assert data[..] == seed;
    CcXor(data);
    var h := sha(data[..]);
    var buf := new Byte[20](i requires 0 <= i < 20 => h[i]);
    assert buf[0..20] == h && data[0..16] == data[..];
    first.InitCrypt(h);
    first.CryptInPlace(data, 0, 16, Decrypt);
    second.InitCrypt(data[0..16]);
    second.CryptInPlace(buf, 0, 20, Decrypt);
    hash := buf[0..20];
  }

  // The server keys its ENCRYPT block by the hash, the client its DECRYPT block.
  method SrvKeys(ch: Channel, seed: Seed, sha: Hash) returns (hash: Digest)
    requires ch.Valid()
    modifies ch.Repr()
    ensures ch.Valid() && (ch.enc.Value(), ch.dec.Value(), hash) == Keys(seed, sha)
  {
    hash := Agree(ch.enc, ch.dec, seed, sha);
  }

  method CliKeys(ch: Channel, seed: Seed, sha: Hash) returns (hash: Digest)
    requires ch.Valid()
    modifies ch.Repr()
    ensures ch.Valid() && (ch.dec.Value(), ch.enc.Value(), hash) == Keys(seed, sha)
  {
    hash := Agree(ch.dec, ch.enc, seed, sha);
  }

  // Two channels of one connection: what one side encrypts with, the other decrypts with.
  ghost predicate Mirrored(a: Channel, b: Channel)
    requires a.Valid() && b.Valid()
    reads a.Repr(), b.Repr()
  {
    a.enc.Value() == b.dec.Value() && a.dec.Value() == b.enc.Value()
  }

  method KeysMirror(srv: Channel, cli: Channel, seed: Seed, sha: Hash) returns (hs: Digest, hc: Digest)
    requires srv.Valid() && cli.Valid() && srv.Repr() !! cli.Repr()
    modifies srv.Repr(), cli.Repr()
    ensures srv.Valid() && cli.Valid() && Mirrored(srv, cli) && hs == hc
  {
    hs := SrvKeys(srv, seed, sha);
    hc := CliKeys(cli, seed, sha);
  }

  // ---------------------------------------------------------------- C strings

  // A string as C holds it, without its terminating NUL.
  type CString = s: seq<Byte> | forall i :: 0 <= i < |s| ==> s[i] != 0 witness []

  // strncpy up to n characters, as a string
  function First(s: CString, n: nat): (r: CString) { if |s| <= n then s else s[..n] }

  // The string a buffer holds.
  function StringIn(buf: seq<Byte>): (r: CString)
    decreases |buf|
  {
    if buf == [] || buf[0] == 0 then [] else
      var t := StringIn(buf[1..]);
      [buf[0]] + t
  }

  lemma {:induction false} StringInPadded(s: CString, n: nat)
    ensures StringIn(s + Zeros(n)) == s
    decreases |s|
  {
    if s == [] {
      assert s + Zeros(n) == Zeros(n);
    } else {
      assert (s + Zeros(n))[1..] == s[1..] + Zeros(n);
      StringInPadded(s[1..], n);
    }
  }

  // The 20 bytes the client sends for a username.
  function NameField(usr: CString): (r: Digest) {
    var f := First(usr, 20);
    f + Zeros(20 - |f|)
  }

  predicate Printable(name: CString) {
    forall i :: 0 <= i < |name| ==> name[i] >= 0x20
  }

  // ---------------------------------------------------------------- the client

  datatype Hello = Hello(enc: Block, hash: seq<Byte>, name: seq<Byte>, seal: seq<Byte>)

  // What the client sends: its hash, the username, and "CCcam" sealed by running the cipher over
  // the password first.
  function ClientHello(enc: Block, hash: Digest, usr: CString, pwd: CString): (h: Hello)
    requires Wf(enc)
    ensures Wf(h.enc) && |h.hash| == 20 && |h.name| == 20 && |h.seal| == 6
  {
    var (b1, w1) := Crypt(enc, hash, Encrypt);
    var (b2, w2) := Crypt(b1, NameField(usr), Encrypt);
    var (b3, w3) := Crypt(Crypt(b2, pwd, Encrypt).0, CCCAM, Encrypt);
    Hello(b3, w1, w2, w3)
  }

  method SendHello(ch: Channel, hash: Digest, usr: CString, pwd: CString)
      returns (h0: seq<Byte>, h1: seq<Byte>, h2: seq<Byte>)
    requires ch.Valid()
    modifies ch.enc, ch.enc.keytable
    ensures ch.Valid() && ch.dec.Value() == old(ch.dec.Value())
    ensures Hello(ch.enc.Value(), h0, h1, h2) == ClientHello(old(ch.enc.Value()), hash, usr, pwd)
  {
    hide Crypt;
    hide Frame;
    h0 := ch.CmdSend(hash, MSG_NO_HEADER);
    h1 := ch.CmdSend(NameField(usr), MSG_NO_HEADER);
    var p := new Byte[|pwd|](i requires 0 <= i < |pwd| => pwd[i]);
    assert p[0..|pwd|] == pwd;
    ch.enc.CryptInPlace(p, 0, |pwd|, Encrypt);
    h2 := ch.CmdSend(CCCAM, MSG_NO_HEADER);
  }

  // The client's verdict on the 20 bytes that come back.
  function ClientAccepts(dec: Block, ack: Digest): (r: (Block, bool))
    requires Wf(dec)
  {
    var (b, data) := Crypt(dec, ack, Decrypt);
    (b, data[..5] == CCCAM[..5])
  }

  // ---------------------------------------------------------------- the server

  datatype Account = Account(usr: CString, pwd: CString)

  predicate NameFits(name: CString, a: Account) { First(name, 20) == First(a.usr, 20) }

  // Block and buffer after the password of one account was tried on buf.
  function Try(dec: Block, pwd: CString, buf: seq<Byte>): (r: (Block, seq<Byte>))
    requires Wf(dec)
    ensures Wf(r.0) && |r.1| == |buf|
  {
    Crypt(Crypt(dec, pwd, Encrypt).0, buf, Decrypt)
  }

  // The search of cc_srv_connect from account k on; buf is what earlier tries left. The result
  // is the index of the account whose password was right, and the DECRYPT block.
  function Search(dec: Block, accounts: seq<Account>, k: nat, name: CString, buf: seq<Byte>): (r: Option<(nat, Block)>)
    requires Wf(dec) && k <= |accounts|
    ensures r.Some? ==> k <= r.value.0 < |accounts| && Wf(r.value.1)
    decreases |accounts| - k
  {
    if k == |accounts| then None
    else if !NameFits(name, accounts[k]) then Search(dec, accounts, k + 1, name, buf)
    else
      var (b, buf') := Try(dec, accounts[k].pwd, buf);
      if buf' == CCCAM then Some((k, b)) else Search(dec, accounts, k + 1, name, buf')
  }

  // The DECRYPT block when the search ends, found or not: the one its last try made, cur if there
  // was none.
  function BlockLeft(dec: Block, cur: Block, accounts: seq<Account>, k: nat, name: CString, buf: seq<Byte>): (b: Block)
    requires Wf(dec) && Wf(cur) && k <= |accounts|
    ensures Wf(b)
    decreases |accounts| - k
  {
    if k == |accounts| then cur
    else if !NameFits(name, accounts[k]) then BlockLeft(dec, cur, accounts, k + 1, name, buf)
    else
      var (b, buf') := Try(dec, accounts[k].pwd, buf);
      if buf' == CCCAM then b else BlockLeft(dec, b, accounts, k + 1, name, buf')
  }

  const ACK: seq<Byte> := CCCAM + Zeros(14)

  datatype Login =
    | IllegalName
    | NoAccount
    | Refused(account: nat)
    | Accepted(account: nat, ack: seq<Byte>)

  // The verdict and the two blocks afterwards.
  datatype Served = Served(login: Login, enc: Block, dec: Block)

  // The server's side once the keys are set. The hash h0 only moves the DECRYPT block on.
  // mayLogin says which accounts pass cs_auth_client, which turns away a client without one, and
  // the tests for duplicate logins, disabled accounts and the hop limit after it.
  function ServerLogin(
    enc: Block, dec: Block, accounts: seq<Account>, mayLogin: nat -> bool, h0: Digest, h1: Digest, h2: seq<Byte>)
    : (r: Served)
    requires Wf(enc) && Wf(dec)
  {
    var b1 := Crypt(dec, h0, Decrypt).0;
    var (b2, field) := Crypt(b1, h1, Decrypt);
    var name := StringIn(field);
    if !Printable(name) then Served(IllegalName, enc, b2)
    else
      match Search(b2, accounts, 0, name, h2)
      case None => Served(NoAccount, enc, BlockLeft(b2, b2, accounts, 0, name, h2))
      case Some((k, b3)) =>
        if !mayLogin(k) then Served(Refused(k), enc, b3)
        else
          var (e, ack) := Crypt(enc, ACK, Encrypt);
          Served(Accepted(k, ack), e, b3)
  }

  // One try: restore the block, run it over the password, then decrypt the buffer in place.
  method TryAccount(block: CryptBlock, save: CryptBlock, pwd: CString, buf: array<Byte>)
    requires block.Valid() && save.Valid() && save.keytable != block.keytable && save != block
    requires buf != block.keytable && buf != save.keytable
    modifies block, block.keytable, buf
    ensures block.Valid() && save.Value() == old(save.Value())
    ensures (block.Value(), buf[..]) == Try(save.Value(), pwd, old(buf[..]))
  {
    hide Crypt;
    block.CopyFrom(save);
    var p := new Byte[|pwd|](i requires 0 <= i < |pwd| => pwd[i]);
    assert p[0..|pwd|] == pwd;
    block.CryptInPlace(p, 0, |pwd|, Encrypt);
    assert buf[0..buf.Length] == buf[..];
    block.CryptInPlace(buf, 0, buf.Length, Decrypt);
    assert buf[0..buf.Length] == buf[..];
  }

  // The search loop over the accounts.
  method FindAccount(block: CryptBlock, accounts: seq<Account>, name: CString, buf: array<Byte>)
      returns (found: Option<nat>)
    requires block.Valid() && buf != block.keytable
    modifies block, block.keytable, buf
    ensures block.Valid()
    ensures var r := Search(old(block.Value()), accounts, 0, name, old(buf[..]));
            if r.None? then found.None? else found == Some(r.value.0) && block.Value() == r.value.1
    ensures block.Value() ==
      BlockLeft(old(block.Value()), old(block.Value()), accounts, 0, name, old(buf[..]))
  {
    hide Try;
    ghost var b0, buf0 := block.Value(), buf[..];
    var save := new CryptBlock();
    save.CopyFrom(block);
    var k := 0;
    while k < |accounts|
      invariant k <= |accounts| && block.Valid() && save.Valid() && save.Value() == b0
      invariant Search(b0, accounts, 0, name, buf0) == Search(b0, accounts, k, name, buf[..])
      invariant BlockLeft(b0, b0, accounts, 0, name, buf0) == BlockLeft(b0, block.Value(), accounts, k, name, buf[..])
    {
      if NameFits(name, accounts[k]) {
        TryAccount(block, save, accounts[k].pwd, buf);
        if buf[..] == CCCAM {
          return Some(k);
        }
      }
      k := k + 1;
    }
    found := None;
  }

  // cc_srv_connect from the hash to the acknowledgement, on what the client sends.
  method AcceptClient(
    ch: Channel, accounts: seq<Account>, mayLogin: nat -> bool, h0: Digest, h1: Digest, h2: seq<Byte>)
    returns (r: Login)
    requires ch.Valid()
    modifies ch.Repr()
    ensures ch.Valid()
    ensures Served(r, ch.enc.Value(), ch.dec.Value()) ==
            ServerLogin(old(ch.enc.Value()), old(ch.dec.Value()), accounts, mayLogin, h0, h1, h2)
  {
    hide Crypt, Search, BlockLeft;
    var buf := new Byte[20](i requires 0 <= i < 20 => h0[i]);
    assert buf[0..20] == h0;
    ch.dec.CryptInPlace(buf, 0, 20, Decrypt);
    var field := new Byte[20](i requires 0 <= i < 20 => h1[i]);
    assert field[0..20] == h1;
    ch.dec.CryptInPlace(field, 0, 20, Decrypt);
    var name := StringIn(field[0..20]);
    if !Printable(name) {
      return IllegalName;
    }
    var seal := new Byte[|h2|](i requires 0 <= i < |h2| => h2[i]);
    assert seal[..] == h2;
    var found := FindAccount(ch.dec, accounts, name, seal);
    if found.None? {
      return NoAccount;
    }
    if !mayLogin(found.value) {
      return Refused(found.value);
    }
    var ack := ch.CmdSend(ACK, MSG_NO_HEADER);
    r := Accepted(found.value, ack);
  }

  // ---------------------------------------------------------------- properties

  // The server reads the first 20 characters of the name the client logs in with.
  lemma NameArrives(usr: CString)
    ensures StringIn(NameField(usr)) == First(usr, 20)
  {
    var f := First(usr, 20);
    StringInPadded(f, 20 - |f|);
  }

  // "CCcam" as a client with this password seals it.
  function Seal(b: Block, pwd: CString): seq<Byte>
    requires Wf(b)
  {
    Crypt(Crypt(b, pwd, Encrypt).0, CCCAM, Encrypt).1
  }

  // A try succeeds exactly on the seal made with the account's password.
  lemma TryOpensSeal(b: Block, pwd: CString, buf: seq<Byte>)
    requires Wf(b)
    ensures Try(b, pwd, buf).1 == CCCAM <==> buf == Seal(b, pwd)
    ensures buf == Seal(b, pwd) ==> Try(b, pwd, buf).0 == Crypt(Crypt(b, pwd, Encrypt).0, CCCAM, Encrypt).0
  {
    hide Crypt;
    var c := Crypt(b, pwd, Encrypt).0;
    RoundTrip(c, CCCAM, Encrypt);
    RoundTrip(c, buf, Decrypt);
  }

  // The buffer when the search reaches account k, all earlier tries having failed.
  function BufferAt(b: Block, accounts: seq<Account>, k: nat, name: CString, buf: seq<Byte>): seq<Byte>
    requires Wf(b) && k <= |accounts|
    decreases k
  {
    if k == 0 then buf
    else
      var prev := BufferAt(b, accounts, k - 1, name, buf);
      if NameFits(name, accounts[k - 1]) then Try(b, accounts[k - 1].pwd, prev).1 else prev
  }

  // The account the search stops at: its name fits and what is left of the client's seal is the
  // seal its own password makes.
  ghost predicate Opens(b: Block, accounts: seq<Account>, k: nat, name: CString, buf: seq<Byte>)
    requires Wf(b) && k < |accounts|
  {
    NameFits(name, accounts[k]) && BufferAt(b, accounts, k, name, buf) == Seal(b, accounts[k].pwd)
  }

  ghost predicate Finds(r: Option<(nat, Block)>, k: nat) { r.Some? && r.value.0 == k }

  lemma {:induction false} SearchFrom(b: Block, accounts: seq<Account>, i: nat, name: CString, buf: seq<Byte>, k: nat)
    requires Wf(b) && i <= |accounts| && k < |accounts|
    requires forall j :: 0 <= j < i ==> !Opens(b, accounts, j, name, buf)
    ensures Finds(Search(b, accounts, i, name, BufferAt(b, accounts, i, name, buf)), k)
            <==> Opens(b, accounts, k, name, buf) && forall j :: 0 <= j < k ==> !Opens(b, accounts, j, name, buf)
    decreases |accounts| - i
  {
    hide Crypt;
    hide Seal;
    hide Try;
    if i < |accounts| {
      TryOpensSeal(b, accounts[i].pwd, BufferAt(b, accounts, i, name, buf));
      if !Opens(b, accounts, i, name, buf) {
        SearchFrom(b, accounts, i + 1, name, buf, k);
      }
    }
  }

  // The account found is the first one that opens the buffer as the tries before it left it.
  lemma SearchIff(b: Block, accounts: seq<Account>, name: CString, buf: seq<Byte>, k: nat)
    requires Wf(b) && k < |accounts|
    ensures Finds(Search(b, accounts, 0, name, buf), k)
            <==> Opens(b, accounts, k, name, buf) && forall j :: 0 <= j < k ==> !Opens(b, accounts, j, name, buf)
  {
    hide Crypt;
    SearchFrom(b, accounts, 0, name, buf, k);
  }

  // A right account that comes after failed tries on the same 20-character name is accepted if
  // and only if those tries happened to leave the client's seal as it arrived.
  lemma LaterAccountIff(b: Block, accounts: seq<Account>, usr: CString, pwd: CString, k: nat)
    requires Wf(b) && k < |accounts| && accounts[k].pwd == pwd && NameFits(First(usr, 20), accounts[k])
    requires forall j :: 0 <= j < k ==> !Opens(b, accounts, j, First(usr, 20), Seal(b, pwd))
    ensures Finds(Search(b, accounts, 0, First(usr, 20), Seal(b, pwd)), k)
            <==> BufferAt(b, accounts, k, First(usr, 20), Seal(b, pwd)) == Seal(b, pwd)
  {
    hide Crypt;
    SearchIff(b, accounts, First(usr, 20), Seal(b, pwd), k);
  }

  lemma {:induction false} UntouchedBuffer(b: Block, accounts: seq<Account>, k: nat, name: CString, buf: seq<Byte>)
    requires Wf(b) && k <= |accounts| && forall j :: 0 <= j < k ==> !NameFits(name, accounts[j])
    ensures BufferAt(b, accounts, k, name, buf) == buf
    decreases k
  {
    if k != 0 { UntouchedBuffer(b, accounts, k - 1, name, buf); }
  }

  // ---------------------------------------------------------------- names, character by character

  // Character i of a string as C reads it, up to its terminating NUL
  function CharAt(s: CString, i: nat): Byte { if i < |s| then s[i] else 0 }

  lemma FirstSame(a: CString, b: CString)
    ensures First(a, 20) == First(b, 20) <==> forall i :: 0 <= i < 20 ==> CharAt(a, i) == CharAt(b, i)
  {
    var x, y := First(a, 20), First(b, 20);
    assert forall i :: 0 <= i < 20 ==> CharAt(a, i) == CharAt(x, i) && CharAt(b, i) == CharAt(y, i);
    if forall i :: 0 <= i < 20 ==> CharAt(a, i) == CharAt(b, i) {
      assert |x| < 20 ==> CharAt(x, |x|) == CharAt(y, |x|);
      assert |y| < 20 ==> CharAt(x, |y|) == CharAt(y, |y|);
      assert forall i :: 0 <= i < |x| ==> x[i] == CharAt(x, i) && y[i] == CharAt(y, i);
    }
  }

  // The account found has the name sent on each of the first 20 characters, where a name that
  // ends before counts as NUL.
  lemma FoundAgrees(b: Block, accounts: seq<Account>, name: CString, buf: seq<Byte>, k: nat, i: nat)
    requires Wf(b) && k < |accounts| && i < 20 && Finds(Search(b, accounts, 0, name, buf), k)
    ensures (if i < |name| then name[i] else 0) == (if i < |accounts[k].usr| then accounts[k].usr[i] else 0)
  {
    hide Crypt, Search;
    SearchIff(b, accounts, name, buf, k);
    FirstSame(name, accounts[k].usr);
    assert CharAt(name, i) == CharAt(accounts[k].usr, i);
  }

  // An account that differs on one of them is never found, and nothing is decrypted for it.
  lemma DifferingIsSkipped(b: Block, accounts: seq<Account>, name: CString, buf: seq<Byte>, k: nat, i: nat)
    requires Wf(b) && k < |accounts| && i < 20
    requires (if i < |name| then name[i] else 0) != (if i < |accounts[k].usr| then accounts[k].usr[i] else 0)
    ensures !Finds(Search(b, accounts, 0, name, buf), k)
    ensures BufferAt(b, accounts, k + 1, name, buf) == BufferAt(b, accounts, k, name, buf)
  {
    hide Crypt, Search;
    if Finds(Search(b, accounts, 0, name, buf), k) {
      FoundAgrees(b, accounts, name, buf, k, i);
    }
    FirstSame(name, accounts[k].usr);
    assert CharAt(name, i) != CharAt(accounts[k].usr, i);
  }

  // An account that agrees on all of them is tried, with what the tries before it left.
  lemma AgreeingIsTried(b: Block, accounts: seq<Account>, name: CString, buf: seq<Byte>, k: nat)
    requires Wf(b) && k < |accounts|
    requires forall i :: 0 <= i < 20 ==> CharAt(name, i) == CharAt(accounts[k].usr, i)
    ensures BufferAt(b, accounts, k + 1, name, buf) ==
      Crypt(Crypt(b, accounts[k].pwd, Encrypt).0, BufferAt(b, accounts, k, name, buf), Decrypt).1
  {
    hide Crypt;
    FirstSame(name, accounts[k].usr);
  }

  // One wrong one-character password leaves a buffer as it is for at most one character.
  lemma OneTryLeavesBuffer(b: Block, buf: seq<Byte>, w: Byte, v: Byte)
    requires Wf(b) && buf != [] && w != 0 && v != 0
    requires Try(b, [w], buf).1 == buf && Try(b, [v], buf).1 == buf
    ensures w == v
  {
    hide Crypt;
    var a := Advance(b);
    FirstByteOfTry(b, buf, w);
    FirstByteOfTry(b, buf, v);
    var z := buf[0];
    var x := Xor(z, KeyByte(Advance(a)));
    XorIsCancelled(x, Xor(b.state, w), Xor(b.state, v));
    XorIsCancelled(b.state, w, v);
  }

  lemma XorIsCancelled(x: Byte, a: Byte, c: Byte)
    requires Xor(x, a) == Xor(x, c)
    ensures a == c
  {
    XorCancels(a, x);
    XorCancels(c, x);
  }

  lemma FirstByteOfTry(b: Block, buf: seq<Byte>, w: Byte)
    requires Wf(b) && buf != [] && w != 0
    ensures Try(b, [w], buf).1 != [] && Try(b, [w], buf).1[0] ==
      Xor(Xor(buf[0], KeyByte(Advance(Advance(b)))), Xor(b.state, w))
  {
    hide Crypt;
    SingleByte(b, w, Encrypt);
    var c := Crypt(b, [w], Encrypt).0;
    CryptSplit(c, buf, 1, Decrypt);
    assert buf[..1] == [buf[0]];
    SingleByte(c, buf[0], Decrypt);
  }

  // A client with that name and password does not get account k.
  ghost predicate Misses(b: Block, accounts: seq<Account>, name: CString, pwd: CString, k: nat)
    requires Wf(b)
  {
    !Finds(Search(b, accounts, 0, name, Seal(b, pwd)), k)
  }

  // Hence whatever the cipher has got to, there is a wrong password such that the right account
  // is missed because another one with that name and the wrong password comes before it.
  lemma RightAccountMissed(b: Block, name: CString, pwd: CString)
    requires Wf(b)
    ensures exists w: CString :: w != pwd && Misses(b, [Account(name, w), Account(name, pwd)], name, pwd, 1)
  {
    hide Crypt, Search;
    var seal := Seal(b, pwd);
    var w: CString, v: CString := if pwd == [1] then [3] else [1], if pwd == [2] then [3] else [2];
    assert w[0] != v[0];
    if Try(b, w, seal).1 == seal && Try(b, v, seal).1 == seal {
      OneTryLeavesBuffer(b, seal, w[0], v[0]);
      assert false;
    }
    var bad := if Try(b, w, seal).1 != seal then w else v;
    var accounts := [Account(name, bad), Account(name, pwd)];
    SearchIff(b, accounts, name, seal, 1);
    assert BufferAt(b, accounts, 1, name, seal) == Try(b, bad, seal).1;
    assert Misses(b, accounts, name, pwd, 1);
  }

  // What a whole login does when the right account is the first one that has the client's name on
  // all of the first 20 characters: the server accepts it unless it may not log in, the client
  // accepts the acknowledgement, and the blocks are mirrored again.
  lemma LoginSucceeds(
    seed: Seed, sha: Hash, usr: CString, pwd: CString, accounts: seq<Account>, mayLogin: nat -> bool, k: nat)
    requires forall i :: 0 <= i < |usr| && i < 20 ==> usr[i] >= 0x20
    requires k < |accounts| && accounts[k].pwd == pwd
    requires forall i :: 0 <= i < 20 ==> CharAt(usr, i) == CharAt(accounts[k].usr, i)
    requires forall j :: 0 <= j < k ==> exists i :: 0 <= i < 20 && CharAt(usr, i) != CharAt(accounts[j].usr, i)
    ensures var (first, second, hash) := Keys(seed, sha);
            var hello := ClientHello(second, hash, usr, pwd);
            var served := ServerLogin(first, second, accounts, mayLogin, hello.hash, hello.name, hello.seal);
            if !mayLogin(k) then served.login == Refused(k) else
            && served.login.Accepted? && served.login.account == k
            && |served.login.ack| == 20 && Wf(served.enc) && Wf(served.dec)
            && ClientAccepts(first, served.login.ack) == (served.enc, true)
            && served.dec == hello.enc
  {
    hide Crypt;
    hide Search;
    var (first, second, hash) := Keys(seed, sha);
    var hello := ClientHello(second, hash, usr, pwd);
    RoundTrip(second, hash, Encrypt);
    var b1 := Crypt(second, hash, Encrypt).0;
    RoundTrip(b1, NameField(usr), Encrypt);
    var b2 := Crypt(b1, NameField(usr), Encrypt).0;
    NameArrives(usr);
    FirstIdempotent(usr);
    FirstSame(usr, accounts[k].usr);
    forall j | 0 <= j < k ensures !NameFits(First(usr, 20), accounts[j]) {
      FirstSame(usr, accounts[j].usr);
    }
    FirstAccountFound(b2, accounts, First(usr, 20), pwd, k);
    RoundTrip(first, ACK, Encrypt);
  }

  lemma FirstIdempotent(usr: CString)
    ensures First(First(usr, 20), 20) == First(usr, 20)
  {}

  lemma FirstAccountFound(b: Block, accounts: seq<Account>, name: CString, pwd: CString, k: nat)
    requires Wf(b) && k < |accounts| && accounts[k].pwd == pwd && NameFits(name, accounts[k])
    requires forall j :: 0 <= j < k ==> !NameFits(name, accounts[j])
    ensures Search(b, accounts, 0, name, Seal(b, pwd)) ==
            Some((k, Crypt(Crypt(b, pwd, Encrypt).0, CCCAM, Encrypt).0))
  {
    hide Crypt;
    UntouchedBuffer(b, accounts, k, name, Seal(b, pwd));
    SearchIff(b, accounts, name, Seal(b, pwd), k);
    SearchBlock(b, accounts, 0, name, Seal(b, pwd), k);
    TryOpensSeal(b, pwd, Seal(b, pwd));
  }

  // The block a successful search leaves is the one its last try made.
  lemma {:induction false} SearchBlock(b: Block, accounts: seq<Account>, i: nat, name: CString, buf: seq<Byte>, k: nat)
    requires Wf(b) && i <= |accounts| && k < |accounts|
    requires Finds(Search(b, accounts, i, name, BufferAt(b, accounts, i, name, buf)), k)
    ensures Search(b, accounts, i, name, BufferAt(b, accounts, i, name, buf)).value.1
            == Try(b, accounts[k].pwd, BufferAt(b, accounts, k, name, buf)).0
    decreases |accounts| - i
  {
    hide Crypt;
    hide Try;
    if i < |accounts| && Search(b, accounts, i, name, BufferAt(b, accounts, i, name, buf)).value.0 != i {
      SearchBlock(b, accounts, i + 1, name, buf, k);
    }
  }
}
