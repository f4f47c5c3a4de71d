// The binary form of a card in CCcam messages: write_card (module-cccshare.c) and read_card
// (module-cccam.c), in the plain format and the one with service ids.
module CardCodec {
  import opened Bytes
  import opened Wrappers

  const CC_MAXMSGSIZE: nat := 1024
  const MAX_LISTED_SIDS: nat := 200
  const MAX_TABLE_SIDS: nat := 240

  type Word = x: int | 0 <= x < 0x1_0000     // uint16_t
  type Long = x: int | 0 <= x < 0x1_0000_0000 // uint32_t
  type Address = s: seq<Byte> | |s| == 4 witness [0, 0, 0, 0]
  type Octet = s: seq<Byte> | |s| == 8 witness [0, 0, 0, 0, 0, 0, 0, 0]

  const NO_ADDRESS: Address := [0, 0, 0, 0]
  const NO_OCTET: Octet := [0, 0, 0, 0, 0, 0, 0, 0]

  datatype Provider = Provider(prov: Long, sa: Address)

  // struct s_sidtab; selected is whether the client's or the card's sidtabno names the table.
  datatype SidTab = SidTab(selected: bool, caids: seq<Word>, sids: seq<Word>)

  datatype Card = Card(
    id: Long, remoteId: Long, caid: Word, hop: Byte, reshare: Byte, serial: Octet,
    providers: seq<Provider>, good: seq<Word>, bad: seq<Word>, nodes: seq<Octet>)

  // ---------------------------------------------------------------- numbers

  function Two(v: Word): (b: seq<Byte>) ensures |b| == 2 { [v / 256, v % 256] }

  function Three(v: Long): (b: seq<Byte>) ensures |b| == 3 { [v / 65536 % 256] + Two(v % 65536) }

  function Four(v: Long): (b: seq<Byte>) ensures |b| == 4 {
    Two(v / 65536) + Two(v % 65536)
  }

  function Int(b: Byte): (n: nat) { b }

  // b2i
  function Number2(a: Byte, b: Byte): Word { Int(a) * 256 + b }

  function Number3(a: Byte, b: Byte, c: Byte): Long {
    var low: nat := Number2(b, c);
    Int(a) * 65536 + low
  }

  function Number4(a: Byte, b: Byte, c: Byte, d: Byte): Long {
    var high: nat, low: nat := Number2(a, b), Number2(c, d);
    high * 65536 + low
  }

  // ---------------------------------------------------------------- what is written

  function Flat(items: seq<seq<Byte>>): seq<Byte>
    decreases |items|
  {
    if items == [] then [] else Flat(items[..|items| - 1]) + items[|items| - 1]
  }

  lemma {:induction false} FlatAt(items: seq<seq<Byte>>, w: nat)
    requires forall i :: 0 <= i < |items| ==> |items[i]| == w
    ensures |Flat(items)| == w * |items|
    ensures forall k :: 0 <= k < |items| ==>
      0 <= w * k <= w * k + w <= w * |items| && Flat(items)[w * k..w * k + w] == items[k]
    decreases |items|
  {
    if items != [] {
      var n, init := |items| - 1, items[..|items| - 1];
      FlatAt(init, w);
      assert w * |items| == w * n + w;
      forall k | 0 <= k < |items|
        ensures 0 <= w * k <= w * k + w <= w * |items| && Flat(items)[w * k..w * k + w] == items[k]
      {
        if k < n {
          assert w * k + w <= w * n;
          assert init[k] == items[k];
        }
      }
    }
  }

  function ProviderBytes(p: Provider, au: bool): (b: seq<Byte>) ensures |b| == 7 {
    Three(p.prov) + if au then p.sa else NO_ADDRESS
  }

  function ProviderItems(ps: seq<Provider>, au: bool): (r: seq<seq<Byte>>) ensures |r| == |ps| {
    seq(|ps|, i requires 0 <= i < |ps| => ProviderBytes(ps[i], au))
  }

  function SidItems(sids: seq<Word>): (r: seq<seq<Byte>>) ensures |r| == |sids| {
    seq(|sids|, i requires 0 <= i < |sids| => Two(sids[i]))
  }

  function Take<T>(n: nat, s: seq<T>): seq<T> { if n < |s| then s[..n] else s }

  // The service ids of all tables selected that list the caid, in order
  function Rejected(tables: seq<SidTab>, caid: Word): seq<Word>
    decreases |tables|
  {
    if tables == [] then []
    else
      var t := tables[|tables| - 1];
      Rejected(tables[..|tables| - 1], caid) + if t.selected && caid in t.caids then t.sids else []
  }

  // Where the service ids come from: the card's own table and the configured ones when it has
  // one, its two lists otherwise.
  function Goods(c: Card, tab: Option<seq<Word>>): seq<Word> {
    match tab
    case None => Take(MAX_LISTED_SIDS, c.good)
    case Some(sids) => Take(MAX_TABLE_SIDS, sids)
  }

  function Bads(c: Card, tab: Option<seq<Word>>, tables: seq<SidTab>): seq<Word> {
    match tab
    case None => Take(MAX_LISTED_SIDS, c.bad)
    case Some(_) => Take(MAX_TABLE_SIDS, Rejected(tables, c.caid))
  }

  // The parameters of write_card beside the card: own is the node id to append, if any.
  datatype How = How(own: Option<Octet>, ext: bool, au: bool, tab: Option<seq<Word>>, tables: seq<SidTab>)

  // The card the reader of the message should get.
  function Shown(c: Card, how: How): (r: Card) {
    c.(serial := if how.au then c.serial else NO_OCTET,
       providers := seq(|c.providers|, i requires 0 <= i < |c.providers| =>
         c.providers[i].(sa := if how.au then c.providers[i].sa else NO_ADDRESS)),
       good := if how.ext then Goods(c, how.tab) else [],
       bad := if how.ext then Bads(c, how.tab, how.tables) else [],
       nodes := c.nodes + match how.own case None => [] case Some(n) => [n])
  }

  function HeadBytes(c: Card): (b: seq<Byte>) ensures |b| == 20 {
    Four(c.id) + Four(c.remoteId) + Two(c.caid) + [c.hop, c.reshare] + c.serial
  }

  // The size of a card on the wire
  function Size(c: Card, ext: bool): nat {
    21 + (if ext then 2 + 2 * |c.good| + 2 * |c.bad| else 0) + 7 * |c.providers| + 1 + 8 * |c.nodes|
  }

  // What fits the message buffer, with the counts of service ids in a byte each
  predicate Encodable(c: Card, ext: bool) {
    Size(c, ext) <= CC_MAXMSGSIZE && (ext ==> |c.good| <= MAX_TABLE_SIDS && |c.bad| <= MAX_TABLE_SIDS)
  }

  function Counts(c: Card, ext: bool): (b: seq<Byte>)
    requires Encodable(c, ext)
  {
    var p: Byte := |c.providers|;
    if !ext then [p]
    else
      var g: Byte, r: Byte := |c.good|, |c.bad|;
      [p, g, r]
  }

  function Sids(c: Card, ext: bool): seq<Byte> {
    if ext then Flat(SidItems(c.good)) + Flat(SidItems(c.bad)) else []
  }

  function NodeBytes(nodes: seq<Octet>): seq<Byte>
    requires |nodes| < 256
  {
    var n: Byte := |nodes|;
    [n] + Flat(nodes)
  }

  // The layout of a card all of whose counts fit a byte
  function Layout(c: Card, ext: bool): (b: seq<Byte>)
    requires Encodable(c, ext)
  {
    HeadBytes(c) + Counts(c, ext) + Flat(ProviderItems(c.providers, true)) + Sids(c, ext) + NodeBytes(c.nodes)
  }

  // ---------------------------------------------------------------- what is read

  function NodesAt(b: seq<Byte>, ext: bool): nat
    requires |b| >= 21 && (ext ==> |b| >= 23)
  {
    21 + 7 * Int(b[20]) + if ext then 2 + 2 * Int(b[21]) + 2 * Int(b[22]) else 0
  }

  // The counts in the buffer stay within it. read_card does not look.
  predicate Fits(b: seq<Byte>, ext: bool) {
    |b| >= 21 && (ext ==> |b| >= 23) && NodesAt(b, ext) < |b|
      && NodesAt(b, ext) + 1 + 8 * Int(b[NodesAt(b, ext)]) <= |b|
  }

  function ReadProvider(b: seq<Byte>, caid: Word, i: Byte): Provider
    requires |b| == 7
  {
    var v := Number3(b[0], b[1], b[2]);
    Provider(if v == 0xFFFFFF && caid / 256 == 0x17 then i else v, b[3..])
  }

  function ReadSids(b: seq<Byte>, at: nat, n: nat): seq<Word>
    requires at + 2 * n <= |b|
  {
    seq(n, i requires 0 <= i < n => Number2(b[at + 2 * i], b[at + 2 * i + 1]))
  }

  function ReadNodes(b: seq<Byte>, at: nat, n: nat): seq<Octet>
    requires at + 8 * n <= |b|
  {
    seq(n, i requires 0 <= i < n => b[at + 8 * i..at + 8 * i + 8])
  }

  function ReadProviders(b: seq<Byte>, at: nat, n: Byte, caid: Word): (r: seq<Provider>)
    ensures |r| == n
    requires at + 7 * Int(n) <= |b|
  {
    seq(n, i requires 0 <= i < n => ReadProvider(b[at + 7 * i..at + 7 * i + 7], caid, i))
  }

  function Read(b: seq<Byte>, ext: bool): (c: Card)
    requires Fits(b, ext)
  {
    var caid := Number2(b[8], b[9]);
    var at := if ext then 23 else 21;
    var sidsAt := at + 7 * Int(b[20]);
    var nodesAt := NodesAt(b, ext);
    Card(Number4(b[0], b[1], b[2], b[3]), Number4(b[4], b[5], b[6], b[7]), caid, b[10], b[11], b[12..20],
      ReadProviders(b, at, b[20], caid),
      if ext then ReadSids(b, sidsAt, b[21]) else [],
      if ext then ReadSids(b, sidsAt + 2 * Int(b[21]), b[22]) else [],
      ReadNodes(b, nodesAt + 1, b[nodesAt]))
  }

  // What reading makes of a provider: 24 bits, and on caid 17xx "any" becomes its position.
  function ProviderRead(p: Provider, caid: Word, i: nat): Provider {
    var v := p.prov % 0x1000000;
    p.(prov := if v == 0xFFFFFF && caid / 256 == 0x17 && i < 256 then i else v)
  }

  function Renumbered(c: Card): (r: Card) {
    c.(providers := seq(|c.providers|, i requires 0 <= i < |c.providers| => ProviderRead(c.providers[i], c.caid, i)))
  }

  // ---------------------------------------------------------------- reading undoes writing

  lemma TwoReturns(v: Word)
    ensures Number2(Two(v)[0], Two(v)[1]) == v
  {
  }

  lemma NumbersReturn(v: Word, w: Long)
    ensures Number2(Two(v)[0], Two(v)[1]) == v
    ensures Number3(Three(w)[0], Three(w)[1], Three(w)[2]) == w % 0x1000000
    ensures Number4(Four(w)[0], Four(w)[1], Four(w)[2], Four(w)[3]) == w
  {
    hide Two, Number2;
    TwoReturns(v);
    TwoReturns(w / 65536);
    TwoReturns(w % 65536);
    assert w % 0x1000000 == w / 65536 % 256 * 65536 + w % 65536;
  }

  lemma SubSlice(b: seq<Byte>, at: nat, t: seq<Byte>, lo: nat, hi: nat)
    requires at + |t| <= |b| && b[at..at + |t|] == t && lo <= hi <= |t|
    ensures b[at + lo..at + hi] == t[lo..hi]
  {
    forall k | 0 <= k < hi - lo ensures b[at + lo..at + hi][k] == t[lo..hi][k] {
      assert b[at..at + |t|][lo + k] == b[at + lo + k];
    }
  }

  lemma Slices(a: seq<Byte>, b: seq<Byte>, c: seq<Byte>, d: seq<Byte>, e: seq<Byte>, f: seq<Byte>)
    ensures var s, i := a + b + c + d + e + f, |a| + |b|;
      && s[..|a|] == a && s[|a|..i] == b && s[i..i + |c|] == c
      && s[i + |c|..i + |c| + |d|] == d && s[i + |c| + |d|..i + |c| + |d| + |e|] == e
  {
  }

  // Where item i of a list of w-byte items is
  lemma ItemAt(b: seq<Byte>, at: nat, items: seq<seq<Byte>>, w: nat, i: nat)
    requires i < |items| && forall j :: 0 <= j < |items| ==> |items[j]| == w
    requires at + w * |items| <= |b| && b[at..at + w * |items|] == Flat(items)
    ensures 0 <= w * i <= w * i + w <= w * |items| && b[at + w * i..at + w * i + w] == items[i]
  {
    hide Flat;
    FlatAt(items, w);
    SubSlice(b, at, Flat(items), w * i, w * i + w);
  }

  lemma ProviderReturns(p: Provider, caid: Word, i: Byte)
    ensures ReadProvider(ProviderBytes(p, true), caid, i) == ProviderRead(p, caid, i)
  {
    hide Three, Number3;
    NumbersReturn(0, p.prov);
  }

  lemma ProvidersReturn(b: seq<Byte>, at: nat, ps: seq<Provider>, n: Byte, caid: Word)
    requires n == |ps| && at + 7 * |ps| <= |b|
    requires b[at..at + 7 * |ps|] == Flat(ProviderItems(ps, true))
    ensures forall i :: 0 <= i < |ps| ==> ReadProviders(b, at, n, caid)[i] == ProviderRead(ps[i], caid, i)
  {
    hide Flat, ReadProvider, ProviderBytes, ProviderRead;
    forall i | 0 <= i < |ps| ensures ReadProviders(b, at, n, caid)[i] == ProviderRead(ps[i], caid, i) {
      ItemAt(b, at, ProviderItems(ps, true), 7, i);
      ProviderReturns(ps[i], caid, i);
    }
  }

  lemma SidReturns(b: seq<Byte>, at: nat, sids: seq<Word>, i: nat)
    requires i < |sids| && at + 2 * |sids| <= |b|
    requires b[at..at + 2 * |sids|] == Flat(SidItems(sids))
    ensures Number2(b[at + 2 * i], b[at + 2 * i + 1]) == sids[i]
  {
    hide Flat, Two, Number2;
    ItemAt(b, at, SidItems(sids), 2, i);
    var pair := b[at + 2 * i..at + 2 * i + 2];
    assert pair == Two(sids[i]);
    assert pair[0] == b[at + 2 * i] && pair[1] == b[at + 2 * i + 1];
    TwoReturns(sids[i]);
  }

  lemma SidsReturn(b: seq<Byte>, at: nat, sids: seq<Word>)
    requires at + 2 * |sids| <= |b|
    requires b[at..at + 2 * |sids|] == Flat(SidItems(sids))
    ensures ReadSids(b, at, |sids|) == sids
  {
    hide Flat, Two, Number2, SidItems;
    forall i | 0 <= i < |sids| ensures ReadSids(b, at, |sids|)[i] == sids[i] {
      SidReturns(b, at, sids, i);
    }
  }

  lemma NodeReturns(b: seq<Byte>, at: nat, nodes: seq<Octet>, i: nat)
    requires i < |nodes| && at + 8 * |nodes| <= |b|
    requires b[at..at + 8 * |nodes|] == Flat(nodes)
    ensures b[at + 8 * i..at + 8 * i + 8] == nodes[i]
  {
    hide Flat;
    ItemAt(b, at, nodes, 8, i);
  }

  lemma SameNodes(a: seq<Octet>, b: seq<Octet>)
    requires |a| == |b| && forall i :: 0 <= i < |a| ==> a[i] == b[i]
    ensures a == b
  {
  }

  lemma NodesReturn(b: seq<Byte>, at: nat, nodes: seq<Octet>)
    requires at + 8 * |nodes| <= |b|
    requires b[at..at + 8 * |nodes|] == Flat(nodes)
    ensures ReadNodes(b, at, |nodes|) == nodes
  {
    hide Flat;
    forall i | 0 <= i < |nodes| ensures b[at + 8 * i..at + 8 * i + 8] == nodes[i] {
      NodeReturns(b, at, nodes, i);
    }
    SameNodes(ReadNodes(b, at, |nodes|), nodes);
  }

  lemma PartSizes(c: Card, ext: bool)
    ensures |Flat(ProviderItems(c.providers, true))| == 7 * |c.providers|
    ensures |Flat(SidItems(c.good))| == 2 * |c.good| && |Flat(SidItems(c.bad))| == 2 * |c.bad|
    ensures |Flat(c.nodes)| == 8 * |c.nodes|
  {
    hide Flat;
    FlatAt(ProviderItems(c.providers, true), 7);
    FlatAt(SidItems(c.good), 2);
    FlatAt(SidItems(c.bad), 2);
    FlatAt(c.nodes, 8);
  }

  // Where the parts of a card are in the buffer
  ghost predicate LaidOut(b: seq<Byte>, c: Card, ext: bool)
    requires Encodable(c, ext)
  {
    var p, g, r, n := 7 * |c.providers|, 2 * |c.good|, 2 * |c.bad|, 8 * |c.nodes|;
    var at := if ext then 23 else 21;
    var sidsAt := at + p;
    var nodesAt := sidsAt + if ext then g + r else 0;
    && nodesAt + 1 + n <= |b|
    && b[..20] == HeadBytes(c) && b[20..at] == Counts(c, ext)
    && b[at..sidsAt] == Flat(ProviderItems(c.providers, true))
    && (ext ==> b[sidsAt..sidsAt + g] == Flat(SidItems(c.good)))
    && (ext ==> b[sidsAt + g..nodesAt] == Flat(SidItems(c.bad)))
    && b[nodesAt] == |c.nodes|
    && b[nodesAt + 1..nodesAt + 1 + n] == Flat(c.nodes)
  }

  lemma PartsAt(b: seq<Byte>, start: nat, s: seq<Byte>, x: seq<Byte>, y: seq<Byte>)
    requires start + |s| <= |b| && b[start..start + |s|] == s && s == x + y
    ensures b[start..start + |x|] == x && b[start + |x|..start + |s|] == y
  {
    SubSlice(b, start, s, 0, |x|);
    SubSlice(b, start, s, |x|, |s|);
  }

  lemma LayoutParts(c: Card, ext: bool, rest: seq<Byte>)
    requires Encodable(c, ext)
    ensures |Layout(c, ext)| == Size(c, ext)
    ensures LaidOut(Layout(c, ext) + rest, c, ext)
  {
    hide Flat, HeadBytes, ProviderItems, SidItems;
    PartSizes(c, ext);
    var p, g, r, n := Flat(ProviderItems(c.providers, true)), Flat(SidItems(c.good)),
      Flat(SidItems(c.bad)), Flat(c.nodes);
    var s, m := Sids(c, ext), NodeBytes(c.nodes);
    var count: Byte := |c.nodes|;
    var b := Layout(c, ext) + rest;
    Slices(HeadBytes(c), Counts(c, ext), p, s, m, rest);
    var sidsAt := (if ext then 23 else 21) + |p|;
    var nodesAt := sidsAt + |s|;
    PartsAt(b, nodesAt, m, [count], n);
    if ext {
      PartsAt(b, sidsAt, s, g, r);
    }
  }

  lemma HeadReturns(b: seq<Byte>, c: Card)
    requires |b| >= 20 && b[..20] == HeadBytes(c)
    ensures Number4(b[0], b[1], b[2], b[3]) == c.id && Number4(b[4], b[5], b[6], b[7]) == c.remoteId
    ensures Number2(b[8], b[9]) == c.caid && b[10] == c.hop && b[11] == c.reshare && b[12..20] == c.serial
  {
    hide Four, Two, Number4, Number2;
    NumbersReturn(c.caid, c.id);
    NumbersReturn(0, c.remoteId);
    var h := HeadBytes(c);
    assert b[12..20] == h[12..20] == c.serial;
    assert forall i :: 0 <= i < 20 ==> b[i] == h[i];
  }

  lemma ReadLayout(b: seq<Byte>, c: Card, ext: bool)
    requires Encodable(c, ext) && LaidOut(b, c, ext)
    requires !ext ==> c.good == [] && c.bad == []
    ensures Fits(b, ext) && Read(b, ext) == Renumbered(c)
  {
    hide Flat, HeadBytes, ReadProviders, ReadSids, ReadNodes, Number4, Number2;
    var at := if ext then 23 else 21;
    HeadReturns(b, c);
    assert b[20..at][0] == b[20];
    if ext {
      assert b[20..at][1] == b[21] && b[20..at][2] == b[22];
      SidsReturn(b, at + 7 * |c.providers|, c.good);
      SidsReturn(b, at + 7 * |c.providers| + 2 * |c.good|, c.bad);
    }
    assert Fits(b, ext);
    ProvidersReturn(b, at, c.providers, b[20], c.caid);
    NodesReturn(b, NodesAt(b, ext) + 1, c.nodes);
    assert Read(b, ext).providers == Renumbered(c).providers;
  }

  // What read_card gets out of what write_card put into the buffer, whatever follows it there:
  // ids, caid, hop, reshare, service ids and nodes as sent, provider ids cut to 24 bits.
  lemma ReadUndoesWrite(c: Card, how: How, rest: seq<Byte>)
    requires Encodable(Shown(c, how), how.ext)
    ensures Fits(Layout(Shown(c, how), how.ext) + rest, how.ext)
    ensures Read(Layout(Shown(c, how), how.ext) + rest, how.ext) == Renumbered(Shown(c, how))
  {
    hide LaidOut, Layout, Read, Fits, Renumbered;
    LayoutParts(Shown(c, how), how.ext, rest);
    ReadLayout(Layout(Shown(c, how), how.ext) + rest, Shown(c, how), how.ext);
  }

  // The provider ids survive if and only if all have 24 bits and none is FFFFFF on a caid 17xx.
  lemma ProvidersSurviveIff(c: Card, how: How, rest: seq<Byte>)
    requires Encodable(Shown(c, how), how.ext)
    ensures Fits(Layout(Shown(c, how), how.ext) + rest, how.ext)
    ensures Read(Layout(Shown(c, how), how.ext) + rest, how.ext) == Shown(c, how) <==>
      forall p :: p in c.providers ==> p.prov < 0x1000000 && !(p.prov == 0xFFFFFF && c.caid / 256 == 0x17)
  {
    hide Layout, Read, Fits, Goods, Bads;
    ReadUndoesWrite(c, how, rest);
    var s := Shown(c, how);
    assert forall i :: 0 <= i < |c.providers| ==>
      s.providers[i].prov == c.providers[i].prov && c.providers[i] in c.providers;
    assert forall i :: 0 <= i < |c.providers| ==>
      (ProviderRead(s.providers[i], s.caid, i) == s.providers[i] <==>
       c.providers[i].prov < 0x1000000 && !(c.providers[i].prov == 0xFFFFFF && c.caid / 256 == 0x17));
    if Renumbered(s) == s {
      assert forall i :: 0 <= i < |c.providers| ==> Renumbered(s).providers[i] == s.providers[i];
    }
    assert (forall i :: 0 <= i < |c.providers| ==> ProviderRead(s.providers[i], s.caid, i) == s.providers[i]) ==>
      Renumbered(s).providers == s.providers;
  }

  // The service ids sent are the card's: not more than fit, or those of its tables.
  predicate SidsSent(c: Card, how: How) {
    if !how.ext then c.good == [] && c.bad == []
    else
      match how.tab
      case None => |c.good| <= MAX_LISTED_SIDS && |c.bad| <= MAX_LISTED_SIDS
      case Some(sids) =>
        c.good == Take(MAX_TABLE_SIDS, sids) && c.bad == Take(MAX_TABLE_SIDS, Rejected(how.tables, c.caid))
  }

  // The card itself comes back if and only if besides that no own node is appended, its secrets
  // are sent or empty, and its service ids are those sent.
  lemma CardSurvivesIff(c: Card, how: How, rest: seq<Byte>)
    requires Encodable(Shown(c, how), how.ext)
    ensures Fits(Layout(Shown(c, how), how.ext) + rest, how.ext)
    ensures Read(Layout(Shown(c, how), how.ext) + rest, how.ext) == c <==>
      && (forall p :: p in c.providers ==> p.prov < 0x1000000 && !(p.prov == 0xFFFFFF && c.caid / 256 == 0x17))
      && (how.au || (c.serial == NO_OCTET && forall p :: p in c.providers ==> p.sa == NO_ADDRESS))
      && how.own == None && SidsSent(c, how)
  {
    hide Layout, Read, Fits, ProviderRead;
    ReadUndoesWrite(c, how, rest);
    ProvidersSurviveIff(c, how, rest);
    var s := Shown(c, how);
    assert s.nodes == c.nodes <==> how.own == None by {
      assert c.nodes + [] == c.nodes;
      assert how.own.Some? ==> |s.nodes| == |c.nodes| + 1;
    }
    assert s.serial == c.serial <==> how.au || c.serial == NO_OCTET;
    assert s.good == c.good && s.bad == c.bad <==> SidsSent(c, how);
    assert (forall i :: 0 <= i < |c.providers| ==> s.providers[i] == c.providers[i]) ==> s.providers == c.providers;
    SameProvidersBack(c, how);
  }

  lemma SameProvidersBack(c: Card, how: How)
    ensures Shown(c, how).providers == c.providers <==>
      how.au || forall p :: p in c.providers ==> p.sa == NO_ADDRESS
    ensures Renumbered(Shown(c, how)) == c ==>
      Shown(c, how).providers == c.providers && Renumbered(Shown(c, how)) == Shown(c, how)
  {
    hide Goods, Bads;
    var s := Shown(c, how);
    if s.providers == c.providers && !how.au {
      forall p | p in c.providers ensures p.sa == NO_ADDRESS {
        var i :| 0 <= i < |c.providers| && c.providers[i] == p;
        assert s.providers[i] == p;
      }
    }
    if Renumbered(s) == c {
      forall i | 0 <= i < |c.providers| ensures s.providers[i] == c.providers[i] {
        assert Renumbered(s).providers[i] == ProviderRead(s.providers[i], c.caid, i);
      }
    }
  }

  // ---------------------------------------------------------------- write_card, in place

  function Padded(s: seq<Byte>): seq<Byte>
    requires |s| <= CC_MAXMSGSIZE
  {
    s + Zeros(CC_MAXMSGSIZE - |s|)
  }

  // memcpy(buf + ofs, bytes) where buf is zero from ofs on
  method Put(buf: array<Byte>, ghost was: seq<Byte>, ofs: nat, bytes: seq<Byte>)
    requires buf.Length == CC_MAXMSGSIZE && ofs == |was| && ofs + |bytes| <= CC_MAXMSGSIZE && buf[..] == Padded(was)
    modifies buf
    ensures buf[..] == Padded(was + bytes)
  {
    for i := 0 to |bytes|
      invariant forall k :: 0 <= k < ofs ==> buf[k] == was[k]
      invariant forall k :: 0 <= k < i ==> buf[ofs + k] == bytes[k]
      invariant forall k :: ofs + i <= k < buf.Length ==> buf[k] == 0
    {
      buf[ofs + i] := bytes[i];
    }
  }

  // buf[at]++
  method Count(buf: array<Byte>, ghost was: seq<Byte>, at: nat)
    requires buf.Length == CC_MAXMSGSIZE && at < |was| <= CC_MAXMSGSIZE && buf[..] == Padded(was) && was[at] < 255
    modifies buf
    ensures buf[..] == Padded(was[at := Int(was[at]) + 1])
  {
    assert buf[at] == buf[..][at] == was[at];
    buf[at] := Plus(buf[at], 1);
    assert buf[..] == Padded(was[at := Int(was[at]) + 1]);
  }

  // The buffer's used part with n items more, counted at `at`
  function WithItems(was: seq<Byte>, at: nat, items: seq<seq<Byte>>): (s: seq<Byte>)
    requires at < |was| && was[at] + |items| < 256
    ensures |s| == |was| + |Flat(items)| && s[at] == Int(was[at]) + |items|
  {
    was[at := Int(was[at]) + |items|] + Flat(items)
  }

  lemma {:induction false} FlatMonotone(items: seq<seq<Byte>>, i: nat, j: nat)
    requires i <= j <= |items|
    ensures |Flat(items[..i])| <= |Flat(items[..j])|
    decreases j
  {
    if i < j {
      assert items[..j][..j - 1] == items[..j - 1];
      FlatMonotone(items, i, j - 1);
    }
  }

  // One item more: what was appended before stays where it is.
  lemma WithItemsStep(was: seq<Byte>, at: nat, items: seq<seq<Byte>>, i: nat)
    requires at < |was| && was[at] + i + 1 < 256 && i < |items|
    ensures var s := WithItems(was, at, items[..i]) + items[i];
      s[at := Int(s[at]) + 1] == WithItems(was, at, items[..i + 1])
  {
    assert items[..i + 1][..i] == items[..i];
  }

  // One turn of any of the loops of write_card
  method PutItem(
      buf: array<Byte>, ghost was: seq<Byte>, at: nat, ofs: nat,
      ghost items: seq<seq<Byte>>, ghost i: nat, item: seq<Byte>)
    returns (end: nat)
    requires at < |was| && i < |items| && items[i] == item && Int(was[at]) + i + 1 < 256
    requires ofs == |WithItems(was, at, items[..i])| && ofs + |item| <= CC_MAXMSGSIZE
    requires buf.Length == CC_MAXMSGSIZE && buf[..] == Padded(WithItems(was, at, items[..i]))
    modifies buf
    ensures end == ofs + |item| == |WithItems(was, at, items[..i + 1])|
    ensures buf[..] == Padded(WithItems(was, at, items[..i + 1]))
    ensures buf[at] == Int(was[at]) + i + 1
  {
    hide Flat, Padded, WithItems;
    WithItemsStep(was, at, items, i);
    ghost var s := WithItems(was, at, items[..i]);
    Put(buf, s, ofs, item);
    Count(buf, s + item, at);
    end := ofs + |item|;
    PaddedAt(buf[..], WithItems(was, at, items[..i + 1]), at);
  }

  // One of the loops of write_card: append the items, counting them at `at`, which ends the loop
  // when it reaches the limit.
  method PutItems(buf: array<Byte>, ghost was: seq<Byte>, at: nat, ofs: nat, items: seq<seq<Byte>>, limit: nat)
    returns (end: nat, ghost done: seq<seq<Byte>>)
    requires at < |was| && ofs == |was| <= CC_MAXMSGSIZE
    requires buf.Length == CC_MAXMSGSIZE && buf[..] == Padded(was)
    requires Int(was[at]) < limit && Int(was[at]) + |Take(limit - Int(was[at]), items)| < 256
    requires ofs + |Flat(Take(limit - Int(was[at]), items))| <= CC_MAXMSGSIZE
    modifies buf
    ensures done == Take(limit - Int(was[at]), items)
    ensures end == |WithItems(was, at, done)| <= CC_MAXMSGSIZE
    ensures buf[..] == Padded(WithItems(was, at, done))
  {
    hide Flat, Padded, WithItems;
    end := ofs;
    ghost var most := Take(limit - Int(was[at]), items);
    var i := 0;
    Nothing(was, at, items);
    while i < |items|
      invariant i <= |most| && (i == |most| ==> i == |items|)
      invariant end == |WithItems(was, at, items[..i])| <= CC_MAXMSGSIZE
      invariant buf[..] == Padded(WithItems(was, at, items[..i]))
    {
      FlatMonotone(items, i + 1, |most|);
      assert most == items[..|most|];
      WithItemsStep(was, at, items, i);
      WithItemsSize(was, at, items[..i]);
      WithItemsSize(was, at, items[..i + 1]);
      FlatStep(items, i);
      end := PutItem(buf, was, at, end, items, i, items[i]);
      i := i + 1;
      if Int(buf[at]) >= limit {
        break;
      }
    }
    done := items[..i];
  }

  lemma FlatStep(items: seq<seq<Byte>>, i: nat)
    requires i < |items|
    ensures Flat(items[..i + 1]) == Flat(items[..i]) + items[i]
  {
    assert items[..i + 1][..i] == items[..i];
  }

  lemma WithItemsSize(was: seq<Byte>, at: nat, items: seq<seq<Byte>>)
    requires at < |was| && was[at] + |items| < 256
    ensures |WithItems(was, at, items)| == |was| + |Flat(items)|
  {
  }

  lemma Nothing(was: seq<Byte>, at: nat, items: seq<seq<Byte>>)
    requires at < |was|
    ensures WithItems(was, at, items[..0]) == was
  {
  }

  lemma PaddedAt(b: seq<Byte>, s: seq<Byte>, at: nat)
    requires at < |s| <= CC_MAXMSGSIZE && b == Padded(s)
    ensures |b| == CC_MAXMSGSIZE && b[at] == s[at]
  {
  }

  lemma {:induction false} FlatOfBoth(a: seq<seq<Byte>>, b: seq<seq<Byte>>)
    ensures Flat(a + b) == Flat(a) + Flat(b)
    decreases |b|
  {
    if b == [] {
      assert a + b == a;
    } else {
      var init := b[..|b| - 1];
      assert (a + b)[..|a + b| - 1] == a + init;
      FlatOfBoth(a, init);
    }
  }

  lemma WithItemsTwice(was: seq<Byte>, at: nat, a: seq<seq<Byte>>, b: seq<seq<Byte>>)
    requires at < |was| && was[at] + |a| + |b| < 256
    ensures WithItems(WithItems(was, at, a), at, b) == WithItems(was, at, a + b)
  {
    FlatOfBoth(a, b);
  }

  lemma SidItemsOfBoth(a: seq<Word>, b: seq<Word>)
    ensures SidItems(a + b) == SidItems(a) + SidItems(b)
    ensures |Flat(SidItems(a))| == 2 * |a|
    ensures forall n :: SidItems(Take(n, a)) == Take(n, SidItems(a))
  {
    FlatAt(SidItems(a), 2);
  }

  lemma {:induction false} RejectedPrefix(tables: seq<SidTab>, caid: Word, k: nat)
    requires k <= |tables|
    ensures Rejected(tables[..k], caid) <= Rejected(tables, caid)
    decreases |tables|
  {
    if k < |tables| {
      assert tables[..|tables| - 1][..k] == tables[..k];
      RejectedPrefix(tables[..|tables| - 1], caid, k);
    } else {
      assert tables[..k] == tables;
    }
  }

  // The bad service ids of a card with a table: those of every selected table with its caid
  method PutRejected(buf: array<Byte>, ghost was: seq<Byte>, ofs: nat, tables: seq<SidTab>, caid: Word)
      returns (end: nat)
    requires 22 < |was| == ofs <= CC_MAXMSGSIZE && was[22] == 0
    requires buf.Length == CC_MAXMSGSIZE && buf[..] == Padded(was)
    requires ofs + 2 * |Take(MAX_TABLE_SIDS, Rejected(tables, caid))| <= CC_MAXMSGSIZE
    modifies buf
    ensures end == |WithItems(was, 22, SidItems(Take(MAX_TABLE_SIDS, Rejected(tables, caid))))| <= CC_MAXMSGSIZE
    ensures buf[..] == Padded(WithItems(was, 22, SidItems(Take(MAX_TABLE_SIDS, Rejected(tables, caid)))))
  {
    hide Flat, Padded, WithItems, SidItems, Rejected;
    end := ofs;
    ghost var done: seq<Word> := [];
    ghost var all := Take(MAX_TABLE_SIDS, Rejected(tables, caid));
    var k := 0;
    RejectedNone(was, tables, caid);
    while k < |tables|
      invariant k <= |tables| && done == Take(MAX_TABLE_SIDS, Rejected(tables[..k], caid))
      invariant |done| < MAX_TABLE_SIDS
      invariant end == |WithItems(was, 22, SidItems(done))| == ofs + 2 * |done| <= CC_MAXMSGSIZE
      invariant buf[..] == Padded(WithItems(was, 22, SidItems(done)))
    {
      var t := tables[k];
      RejectedStep(tables, caid, k);
      RejectedPrefix(tables, caid, k + 1);
      var m := 0;
      while m < |t.caids| && t.caids[m] != caid
        invariant m <= |t.caids| && caid !in t.caids[..m]
      {
        m := m + 1;
      }
      assert t.caids[..|t.caids|] == t.caids;
      if t.selected && m < |t.caids| {
        end := PutTable(buf, was, ofs, end, done, t.sids);
        done := Take(MAX_TABLE_SIDS, done + t.sids);
      }
      k := k + 1;
      SidItemsCount(was, done);
      PaddedAt(buf[..], WithItems(was, 22, SidItems(done)), 22);
      if Int(buf[22]) >= MAX_TABLE_SIDS {
        break;
      }
    }
    assert tables[..|tables|] == tables;
    RejectedPrefix(tables, caid, k);
    ghost var r, s := Rejected(tables[..k], caid), Rejected(tables, caid);
    assert k == |tables| || |done| == MAX_TABLE_SIDS;
    assert |done| == MAX_TABLE_SIDS ==> done == r[..MAX_TABLE_SIDS] == s[..MAX_TABLE_SIDS];
    assert done == all;
  }

  lemma SidItemsCount(was: seq<Byte>, sids: seq<Word>)
    requires 22 < |was| && was[22] == 0 && |sids| <= MAX_TABLE_SIDS
    ensures |WithItems(was, 22, SidItems(sids))| == |was| + 2 * |sids|
    ensures WithItems(was, 22, SidItems(sids))[22] == |sids|
  {
    SidItemsOfBoth(sids, []);
  }

  lemma RejectedStep(tables: seq<SidTab>, caid: Word, k: nat)
    requires k < |tables|
    ensures Rejected(tables[..k + 1], caid) == Rejected(tables[..k], caid)
      + if tables[k].selected && caid in tables[k].caids then tables[k].sids else []
  {
    assert tables[..k + 1][..k] == tables[..k];
  }

  // The inner loop, over the service ids of one table
  method PutTable(
      buf: array<Byte>, ghost was: seq<Byte>, ghost start: nat, ofs: nat,
      ghost done: seq<Word>, sids: seq<Word>)
    returns (end: nat)
    requires 22 < |was| == start && was[22] == 0 && |done| < MAX_TABLE_SIDS
    requires ofs == |WithItems(was, 22, SidItems(done))| <= CC_MAXMSGSIZE
    requires start + 2 * |Take(MAX_TABLE_SIDS, done + sids)| <= CC_MAXMSGSIZE
    requires buf.Length == CC_MAXMSGSIZE && buf[..] == Padded(WithItems(was, 22, SidItems(done)))
    modifies buf
    ensures end == |WithItems(was, 22, SidItems(Take(MAX_TABLE_SIDS, done + sids)))| <= CC_MAXMSGSIZE
    ensures buf[..] == Padded(WithItems(was, 22, SidItems(Take(MAX_TABLE_SIDS, done + sids))))
  {
    hide Flat, Padded, WithItems, SidItems;
    ghost var more := Take(MAX_TABLE_SIDS - |done|, sids);
    assert done + more == Take(MAX_TABLE_SIDS, done + sids);
    SidItemsCount(was, done);
    SidItemsOfBoth(sids, []);
    SidItemsOfBoth(more, []);
    SidItemsOfBoth(done, more);
    WithItemsTwice(was, 22, SidItems(done), SidItems(more));
    ghost var items: seq<seq<Byte>>;
    end, items := PutItems(buf, WithItems(was, 22, SidItems(done)), 22, ofs, SidItems(sids), MAX_TABLE_SIDS);
  }

  lemma RejectedNone(was: seq<Byte>, tables: seq<SidTab>, caid: Word)
    requires 22 < |was|
    ensures Rejected(tables[..0], caid) == [] && WithItems(was, 22, SidItems([])) == was
  {
    assert SidItems([]) == [];
  }

  // memset(buf, 0, CC_MAXMSGSIZE)
  method Clear(buf: array<Byte>)
    requires buf.Length == CC_MAXMSGSIZE
    modifies buf
    ensures buf[..] == Padded([])
  {
    for i := 0 to buf.Length
      invariant forall k :: 0 <= k < i ==> buf[k] == 0
    {
      buf[i] := 0;
    }
  }

  lemma PaddedZeros(s: seq<Byte>, n: nat)
    requires |s| + n <= CC_MAXMSGSIZE
    ensures Padded(s) == Padded(s + Zeros(n))
  {
  }

  // What the loops leave in the buffer, one after the other
  function Start(c: Card, ext: bool): seq<Byte> { HeadBytes(c) + Zeros(if ext then 3 else 1) }

  lemma Assembled(c: Card, ext: bool, w: seq<Byte>, x: seq<Byte>, y: seq<Byte>)
    requires Encodable(c, ext)
    requires w == WithItems(Start(c, ext), 20, ProviderItems(c.providers, true))
    requires |w| > 22 || !ext
    requires ext ==> w[21] == 0 && x == WithItems(w, 21, SidItems(c.good))
    requires ext ==> |x| > 22 && x[22] == 0 && y == WithItems(x, 22, SidItems(c.bad))
    requires !ext ==> y == w
    ensures WithItems(y + [0], |y|, c.nodes) == Layout(c, ext)
  {
    hide HeadBytes, Flat, SidItems, ProviderItems;
    var p, g, r, n := Flat(ProviderItems(c.providers, true)), Flat(SidItems(c.good)),
      Flat(SidItems(c.bad)), Flat(c.nodes);
    var h := HeadBytes(c);
    var counts := Counts(c, ext);
    if ext {
      assert w == h + [counts[0], 0, 0] + p;
      assert x == h + [counts[0], counts[1], 0] + p + g;
      assert y == h + counts + p + g + r;
      assert y == h + counts + p + (g + r);
    } else {
      assert y == h + counts + p;
    }
    assert (y + [0])[|y| := |c.nodes|] == y + [Int(|c.nodes|)];
  }

  lemma ShownParts(c: Card, how: How)
    ensures ProviderItems(Shown(c, how).providers, true) == ProviderItems(c.providers, how.au)
    ensures Shown(c, how).serial == if how.au then c.serial else NO_OCTET
  {
    var s := Shown(c, how);
    forall i | 0 <= i < |c.providers|
      ensures ProviderItems(s.providers, true)[i] == ProviderItems(c.providers, how.au)[i]
    {
    }
  }

  method PutHead(buf: array<Byte>, c: Card, ghost s: Card, au: bool, ext: bool) returns (ofs: nat)
    requires buf.Length == CC_MAXMSGSIZE
    requires s.(providers := c.providers, good := c.good, bad := c.bad, nodes := c.nodes)
      == c.(serial := if au then c.serial else NO_OCTET)
    modifies buf
    ensures ofs == |Start(s, ext)| && buf[..] == Padded(Start(s, ext))
  {
    hide Padded;
    Clear(buf);
    var front := Four(c.id) + Four(c.remoteId) + Two(c.caid) + [c.hop, c.reshare];
    Put(buf, [], 0, front);
    assert [] + front == front;
    if au {
      Put(buf, front, 12, c.serial);
    } else {
      PaddedZeros(front, 8);
    }
    assert HeadBytes(s) == front + s.serial;
    assert NO_OCTET == Zeros(8);
    ofs := if ext then 23 else 21;
    PaddedZeros(HeadBytes(s), ofs - 20);
  }

  method PutWords(buf: array<Byte>, ghost was: seq<Byte>, at: nat, ofs: nat, sids: seq<Word>, limit: nat)
      returns (end: nat)
    requires at < |was| == ofs && was[at] == 0 && 0 < limit < 256
    requires ofs + 2 * |Take(limit, sids)| <= CC_MAXMSGSIZE
    requires buf.Length == CC_MAXMSGSIZE && buf[..] == Padded(was)
    modifies buf
    ensures end == |WithItems(was, at, SidItems(Take(limit, sids)))| == ofs + 2 * |Take(limit, sids)|
    ensures buf[..] == Padded(WithItems(was, at, SidItems(Take(limit, sids))))
  {
    hide Flat, Padded, SidItems, WithItems;
    SidItemsOfBoth(sids, []);
    SidItemsOfBoth(Take(limit, sids), []);
    WithItemsSize(was, at, SidItems(Take(limit, sids)));
    ghost var done: seq<seq<Byte>>;
    end, done := PutItems(buf, was, at, ofs, SidItems(sids), limit);
  }

  method PutSids(buf: array<Byte>, ghost was: seq<Byte>, ofs: nat, c: Card, how: How) returns (end: nat)
    requires 22 < |was| == ofs && was[21] == 0 && was[22] == 0
    requires ofs + 2 * |Goods(c, how.tab)| + 2 * |Bads(c, how.tab, how.tables)| <= CC_MAXMSGSIZE
    requires buf.Length == CC_MAXMSGSIZE && buf[..] == Padded(was)
    modifies buf
    ensures var x := WithItems(was, 21, SidItems(Goods(c, how.tab)));
      && |x| > 22 && x[22] == 0
      && end == |WithItems(x, 22, SidItems(Bads(c, how.tab, how.tables)))| <= CC_MAXMSGSIZE
      && buf[..] == Padded(WithItems(x, 22, SidItems(Bads(c, how.tab, how.tables))))
  {
    hide Flat, Padded, SidItems, Rejected;
    ghost var good, bad := Goods(c, how.tab), Bads(c, how.tab, how.tables);
    GoodsThenBads(was, good);
    ghost var x := WithItems(was, 21, SidItems(good));
    SidItemsOfBoth(bad, []);
    WithItemsSize(x, 22, SidItems(bad));
    hide WithItems;
    match how.tab {
      case Some(sids) =>
        end := PutWords(buf, was, 21, ofs, sids, MAX_TABLE_SIDS);
        end := PutRejected(buf, x, end, how.tables, c.caid);
      case None =>
        end := PutWords(buf, was, 21, ofs, c.good, MAX_LISTED_SIDS);
        end := PutWords(buf, x, 22, end, c.bad, MAX_LISTED_SIDS);
    }
  }

  lemma GoodsThenBads(was: seq<Byte>, good: seq<Word>)
    requires 22 < |was| && was[21] == 0 && |good| < 256
    ensures var x := WithItems(was, 21, SidItems(good)); |x| > 22 && x[22] == was[22]
  {
    hide SidItems, Flat;
  }

  method PutNodes(buf: array<Byte>, ghost was: seq<Byte>, ofs: nat, nodes: seq<Octet>, own: Option<Octet>)
      returns (end: nat)
    requires |was| == ofs && ofs + 1 + 8 * |nodes| + (if own.Some? then 8 else 0) <= CC_MAXMSGSIZE
    requires buf.Length == CC_MAXMSGSIZE && buf[..] == Padded(was)
    modifies buf
    ensures var all := nodes + match own case None => [] case Some(n) => [n];
      && |all| < 256
      && end == |WithItems(was + [0], ofs, all)| <= CC_MAXMSGSIZE
      && buf[..] == Padded(WithItems(was + [0], ofs, all))
  {
    hide Flat, Padded, WithItems;
    PaddedZeros(was, 1);
    assert Zeros(1) == [0];
    ghost var start, done := was + [0], [];
    FlatAt(nodes, 8);
    end, done := PutItems(buf, start, ofs, ofs + 1, nodes, 256);
    assert done == nodes;
    WithItemsSize(start, ofs, nodes);
    match own {
      case None =>
        assert nodes + [] == nodes;
      case Some(node) =>
        ghost var all := nodes + [node];
        assert all[..|nodes|] == nodes && all[..|nodes| + 1] == all;
        end := PutItem(buf, start, ofs, end, all, |nodes|, node);
    }
  }

  // write_card: the buffer holds the layout of the card as the receiver should see it, then zeros.
  method WriteCard(buf: array<Byte>, c: Card, how: How) returns (ofs: nat)
    requires buf.Length == CC_MAXMSGSIZE && Encodable(Shown(c, how), how.ext)
    modifies buf
    ensures ofs == |Layout(Shown(c, how), how.ext)| <= CC_MAXMSGSIZE
    ensures buf[..ofs] == Layout(Shown(c, how), how.ext)
    ensures forall k :: ofs <= k < buf.Length ==> buf[k] == 0
  {
    hide Flat, Padded, WithItems, Layout, HeadBytes, ProviderItems, SidItems;
    ghost var s := Shown(c, how);
    ofs := PutHead(buf, c, s, how.au, how.ext);
    ghost var w := Start(s, how.ext);
    assert w[20] == 0 && (how.ext ==> w[21] == 0 && w[22] == 0);
    ShownParts(c, how);
    PartSizes(s, how.ext);
    ghost var done: seq<seq<Byte>>;
    ofs, done := PutItems(buf, w, 20, ofs, ProviderItems(c.providers, how.au), 256);
    assert done == ProviderItems(s.providers, true);
    w := WithItems(w, 20, done);
    StartKeeps(s, how.ext);
    WithItemsSize(Start(s, how.ext), 20, done);
    ghost var y := w;
    ghost var x := WithGoods(w, s, how.ext);
    if how.ext {
      ofs := PutSids(buf, w, ofs, c, how);
      y := WithItems(x, 22, SidItems(s.bad));
      WithItemsSize(w, 21, SidItems(s.good));
      WithItemsSize(x, 22, SidItems(s.bad));
    }
    ofs := PutNodes(buf, y, ofs, c.nodes, how.own);
    Assembled(s, how.ext, w, x, y);
    PaddedParts(buf[..], Layout(s, how.ext));
  }

  function WithGoods(w: seq<Byte>, s: Card, ext: bool): seq<Byte>
    requires ext ==> |w| > 22 && w[21] == 0 && |s.good| < 256
  {
    if ext then WithItems(w, 21, SidItems(s.good)) else w
  }

  // Counting providers leaves the counts of service ids alone.
  lemma StartKeeps(s: Card, ext: bool)
    requires |s.providers| < 256
    ensures ext ==>
      var w := WithItems(Start(s, ext), 20, ProviderItems(s.providers, true)); |w| > 22 && w[21] == 0 && w[22] == 0
  {
  }

  lemma PaddedParts(b: seq<Byte>, s: seq<Byte>)
    requires |s| <= CC_MAXMSGSIZE && b == Padded(s)
    ensures b[..|s|] == s && forall k :: |s| <= k < |b| ==> b[k] == 0
  {
  }

  // ---------------------------------------------------------------- read_card

  method GetProviders(buf: array<Byte>, offset: nat, nprov: Byte, caid: Word) returns (ps: seq<Provider>, end: nat)
    requires offset + 7 * Int(nprov) <= buf.Length
    ensures ps == ReadProviders(buf[..], offset, nprov, caid) && end == offset + 7 * Int(nprov)
  {
    ps, end := [], offset;
    var i: nat := 0;
    while i < nprov
      invariant i <= nprov && end == offset + 7 * i && |ps| == i
      invariant forall k :: 0 <= k < i ==> ps[k] == ReadProvider(buf[..][offset + 7 * k..offset + 7 * k + 7], caid, k)
    {
      var prov := Number3(buf[end], buf[end + 1], buf[end + 2]);
      if prov == 0xFFFFFF && caid / 256 == 0x17 {
        prov := i;
      }
      var p := Provider(prov, buf[end + 3..end + 7]);
      assert buf[..][end..end + 7] == buf[end..end + 7] && buf[end..end + 7][3..] == buf[end + 3..end + 7];
      assert p == ReadProvider(buf[..][end..end + 7], caid, i);
      ps, end, i := ps + [p], end + 7, i + 1;
    }
  }

  method GetSids(buf: array<Byte>, offset: nat, n: Byte) returns (sids: seq<Word>, end: nat)
    requires offset + 2 * Int(n) <= buf.Length
    ensures sids == ReadSids(buf[..], offset, n) && end == offset + 2 * Int(n)
  {
    hide Number2;
    sids, end := [], offset;
    var i: nat := 0;
    while i < n
      invariant i <= n && end == offset + 2 * i && |sids| == i
      invariant forall k :: 0 <= k < i ==> sids[k] == Number2(buf[offset + 2 * k], buf[offset + 2 * k + 1])
    {
      sids, end, i := sids + [Number2(buf[end], buf[end + 1])], end + 2, i + 1;
    }
  }

  method GetNodes(buf: array<Byte>, offset: nat, n: Byte) returns (nodes: seq<Octet>)
    requires offset + 8 * Int(n) <= buf.Length
    ensures nodes == ReadNodes(buf[..], offset, n)
  {
    nodes := [];
    var end := offset;
    var i: nat := 0;
    while i < n
      invariant i <= n && end == offset + 8 * i && |nodes| == i
      invariant forall k :: 0 <= k < i ==> nodes[k] == buf[..][offset + 8 * k..offset + 8 * k + 8]
    {
      assert buf[..][end..end + 8] == buf[end..end + 8];
      nodes, end, i := nodes + [buf[end..end + 8]], end + 8, i + 1;
    }
  }

  // read_card
  method ReadCard(buf: array<Byte>, ext: bool) returns (c: Card)
    requires Fits(buf[..], ext)
    ensures c == Read(buf[..], ext)
  {
    hide ReadProviders, ReadSids, ReadNodes, Number2, Number4;
    var caid := Number2(buf[8], buf[9]);
    var nprov, offset, good, bad := buf[20], 21, [], [];
    if ext {
      offset := offset + 2;
    }
    var providers, end := GetProviders(buf, offset, nprov, caid);
    if ext {
      good, end := GetSids(buf, end, buf[21]);
      bad, end := GetSids(buf, end, buf[22]);
    }
    var nodes := GetNodes(buf, end + 1, buf[end]);
    assert buf[..][12..20] == buf[12..20];
    c := Card(Number4(buf[0], buf[1], buf[2], buf[3]), Number4(buf[4], buf[5], buf[6], buf[7]), caid,
      buf[10], buf[11], buf[12..20], providers, good, bad, nodes);
  }
}
