// The order in which the ECM pids of a channel are tried (module-dvbapi.c).
module PidSchedule {

  const MAX_TRIES: int := 2
  const ECM_PIDS: nat := 30

  // What a value becomes when it is stored in an int8_t
  function Int8(x: int): (r: int)
    ensures -128 <= r < 128
    ensures -128 <= x < 128 ==> r == x
  {
    (x + 128) % 256 - 128
  }

  datatype Pid = Pid(caid: nat, provid: nat, ecmPid: nat, status: int, checked: bool)

  // ---------------------------------------------------------------- choosing a pid

  // The two runs of the search: statuses from 1 to max_status, then status 0
  predicate Eligible(p: Pid, max: int) { 1 <= p.status <= max || p.status == 0 }

  predicate Open(p: Pid, max: int) { !p.checked && Eligible(p, max) }

  // Pid i is tried before pid j: positive statuses ascending, then status 0, equal ones by index.
  predicate Before(pids: seq<Pid>, i: nat, j: nat)
    requires i < |pids| && j < |pids|
  {
    var a, b := pids[i].status, pids[j].status;
    if a == b then i < j else b == 0 || (a != 0 && a < b)
  }

  // The pid tried first among those below n, n itself when there is none
  function PickBelow(pids: seq<Pid>, max: int, n: nat): (r: nat)
    requires n <= |pids|
    ensures r < n ==>
      Open(pids[r], max) && forall j :: 0 <= j < n && j != r && Open(pids[j], max) ==> Before(pids, r, j)
    ensures r <= n && (r == n ==> forall j :: 0 <= j < n ==> !Open(pids[j], max))
  {
    if n == 0 then 0
    else
      var r := PickBelow(pids, max, n - 1);
      if !Open(pids[n - 1], max) then (if r == n - 1 then n else r)
      else if r == n - 1 || Before(pids, n - 1, r) then n - 1
      else r
  }

  function Pick(pids: seq<Pid>, max: int): (r: nat)
    ensures r <= |pids|
  {
    PickBelow(pids, max, |pids|)
  }

  lemma PickUnique(pids: seq<Pid>, max: int, r: nat)
    requires r < |pids| && Open(pids[r], max)
    requires forall j :: 0 <= j < |pids| && j != r && Open(pids[j], max) ==> Before(pids, r, j)
    ensures Pick(pids, max) == r
  {
  }

  function Check(pids: seq<Pid>, n: nat): (r: seq<Pid>)
    requires n < |pids|
    ensures |r| == |pids| && forall j :: 0 <= j < |pids| ==>
      r[j] == if j == n then pids[n].(checked := true) else pids[j]
  {
    pids[n := pids[n].(checked := true)]
  }

  function Reset(pids: seq<Pid>): (r: seq<Pid>)
    ensures |r| == |pids| && forall j :: 0 <= j < |pids| ==> r[j] == pids[j].(checked := false)
  {
    seq(|pids|, j requires 0 <= j < |pids| => pids[j].(checked := false))
  }

  function NumOpen(pids: seq<Pid>, max: int): (n: nat)
    ensures n <= |pids|
    decreases |pids|
  {
    if pids == [] then 0
    else NumOpen(pids[..|pids| - 1], max) + if Open(pids[|pids| - 1], max) then 1 else 0
  }

  lemma {:induction false} CheckClosesOne(pids: seq<Pid>, max: int, n: nat)
    requires n < |pids| && Open(pids[n], max)
    ensures NumOpen(Check(pids, n), max) == NumOpen(pids, max) - 1
    decreases |pids|
  {
    var m := |pids| - 1;
    if n < m {
      assert Check(pids, n)[..m] == Check(pids[..m], n);
      CheckClosesOne(pids[..m], max, n);
    } else {
      assert Check(pids, n)[..m] == pids[..m];
    }
  }

  // The pids still to be tried in this round, in order
  function Rest(pids: seq<Pid>, max: int): (r: seq<nat>)
    ensures forall k :: 0 <= k < |r| ==> r[k] < |pids|
    decreases NumOpen(pids, max)
  {
    var n := Pick(pids, max);
    if n == |pids| then []
    else
      CheckClosesOne(pids, max, n);
      [n] + Rest(Check(pids, n), max)
  }

  // The rest of a round has every open pid exactly once, in the order Before.
  lemma {:induction false} RestInOrder(pids: seq<Pid>, max: int)
    ensures forall a, b :: 0 <= a < b < |Rest(pids, max)| ==> Before(pids, Rest(pids, max)[a], Rest(pids, max)[b])
    ensures forall j: nat :: j in Rest(pids, max) <==> j < |pids| && Open(pids[j], max)
    decreases NumOpen(pids, max)
  {
    hide PickBelow;
    var n := Pick(pids, max);
    if n < |pids| {
      CheckClosesOne(pids, max, n);
      var after := Check(pids, n);
      RestInOrder(after, max);
      var rest := Rest(after, max);
      assert Rest(pids, max) == [n] + rest;
      forall a, b | 0 <= a < b < |rest| + 1
        ensures Before(pids, ([n] + rest)[a], ([n] + rest)[b])
      {
        assert rest[b - 1] in rest;
        if a == 0 {
          assert Open(pids[rest[b - 1]], max) && rest[b - 1] != n;
        } else {
          assert Before(after, rest[a - 1], rest[b - 1]);
        }
      }
    }
  }

  // ---------------------------------------------------------------- dvbapi_try_next_caid

  datatype Demux = Demux(pids: seq<Pid>, max: int, tries: int)

  // The pids tried in a call, in order, and whether it gave up. In request mode 1 all that are
  // left are tried at once; the tries are not counted then.
  function Try(d: Demux, mode1: bool): (r: (Demux, seq<nat>, bool))
    decreases MAX_TRIES - d.tries, NumOpen(d.pids, d.max)
  {
    if d.tries > MAX_TRIES then (d, [], true)
    else
      var n := Pick(d.pids, d.max);
      if n == |d.pids| then
        if mode1 then (d, [], false)
        else Try(d.(tries := d.tries + 1, pids := Reset(d.pids)), mode1)
      else
        CheckClosesOne(d.pids, d.max, n);
        var c := d.(pids := Check(d.pids, n));
        if mode1 then
          var r := Try(c, mode1);
          (r.0, [n] + r.1, r.2)
        else (c, [n], false)
  }

  function Repeat(s: seq<nat>, n: nat): seq<nat> { if n == 0 then [] else s + Repeat(s, n - 1) }

  // All pids that failing attempts will go through: the rest of this round, then the full round
  // again until three rounds are done.
  function Future(d: Demux): seq<nat> {
    if d.tries > MAX_TRIES then []
    else Rest(d.pids, d.max) + Repeat(Rest(Reset(d.pids), d.max), MAX_TRIES - d.tries)
  }

  lemma ResetTwice(pids: seq<Pid>, n: nat)
    ensures Reset(Reset(pids)) == Reset(pids)
    ensures n < |pids| ==> Reset(Check(pids, n)) == Reset(pids)
  {
  }

  lemma {:induction false} RepeatNothing(n: nat)
    ensures Repeat([], n) == []
    decreases n
  {
    if n > 0 {
      RepeatNothing(n - 1);
    }
  }

  // One call takes the first pid off that list, or gives up when it is empty.
  lemma {:induction false} TryTakesNext(d: Demux)
    ensures Future(d) == [] ==> Try(d, false).1 == [] && Try(d, false).2 && Future(Try(d, false).0) == []
    ensures Future(d) != [] ==>
      Try(d, false).1 == [Future(d)[0]] && !Try(d, false).2 && Future(Try(d, false).0) == Future(d)[1..]
    decreases MAX_TRIES - d.tries
  {
    if d.tries <= MAX_TRIES {
      var n := Pick(d.pids, d.max);
      var round := Rest(Reset(d.pids), d.max);
      ResetTwice(d.pids, n);
      if n == |d.pids| {
        var e := d.(tries := d.tries + 1, pids := Reset(d.pids));
        TryTakesNext(e);
        if d.tries < MAX_TRIES {
          assert Future(d) == round + Repeat(round, MAX_TRIES - d.tries - 1) == Future(e);
        }
      }
    }
  }

  // A run of k calls, each made because the attempt before failed
  function Tried(d: Demux, k: nat): (r: (Demux, seq<seq<nat>>))
    ensures |r.1| == k
    decreases k
  {
    if k == 0 then (d, [])
    else
      var t := Try(d, false);
      var r := Tried(t.0, k - 1);
      (r.0, [t.1] + r.1)
  }

  lemma {:induction false} TriedFollowsFuture(d: Demux, k: nat, j: nat)
    requires j < k
    ensures Tried(d, k).1[j] == if j < |Future(d)| then [Future(d)[j]] else []
    decreases k
  {
    TryTakesNext(d);
    if j > 0 {
      TriedFollowsFuture(Try(d, false).0, k - 1, j - 1);
    }
  }

  // From a fresh channel on, the attempts go through all eligible pids in their order three
  // times, and through nothing else.
  lemma ThreeRounds(d: Demux, k: nat, j: nat)
    requires d.tries == 0 && (forall i :: 0 <= i < |d.pids| ==> !d.pids[i].checked) && j < k
    ensures var round := Rest(d.pids, d.max);
      && Tried(d, k).1[j] == (if j < |round + round + round| then [(round + round + round)[j]] else [])
      && (forall a, b :: 0 <= a < b < |round| ==> Before(d.pids, round[a], round[b]))
      && (forall i: nat :: i in round <==> i < |d.pids| && Eligible(d.pids[i], d.max))
  {
    var round := Rest(d.pids, d.max);
    assert Reset(d.pids) == d.pids;
    assert Repeat(round, 2) == round + round by {
      assert Repeat(round, 1) == round;
    }
    assert Future(d) == round + round + round;
    TriedFollowsFuture(d, k, j);
    RestInOrder(d.pids, d.max);
  }

  // Request mode 1 tries all pids left at once, and never gives up.
  lemma {:induction false} ModeOneTriesAll(d: Demux)
    requires d.tries <= MAX_TRIES
    ensures Try(d, true).1 == Rest(d.pids, d.max) && !Try(d, true).2 && Try(d, true).0.tries == d.tries
    decreases NumOpen(d.pids, d.max)
  {
    var n := Pick(d.pids, d.max);
    if n < |d.pids| {
      CheckClosesOne(d.pids, d.max, n);
      ModeOneTriesAll(d.(pids := Check(d.pids, n)));
    }
  }

  // ---------------------------------------------------------------- ranking the pids

  // A line of the priority file: 'p' to prefer, 'i' to ignore; 0 stands for any.
  datatype Priority = Priority(kind: char, caid: nat, provid: nat, ecmPid: nat, srvid: nat, chid: nat)

  // What an entry of the service table means for each pid: chk_srvid_match, and whether
  // dvbapi_sidtabno or dvbapi_sidtabok names it.
  datatype SidTable = SidTable(ignores: nat -> bool, prefers: nat -> bool)

  predicate Applies(p: Priority, pid: Pid, program: nat) {
    && (p.kind == 'p' || p.kind == 'i')
    && (p.caid == 0 || p.caid == pid.caid) && (p.provid == 0 || p.provid == pid.provid)
    && (p.ecmPid == 0 || p.ecmPid == pid.ecmPid) && (p.srvid == 0 || p.srvid == program)
    && (p.kind == 'i' ==> p.chid == 0)
  }

  // The first line that says something about a pid
  function FirstLine(lines: seq<Priority>, pid: Pid, program: nat): (i: nat)
    ensures i <= |lines| && (i < |lines| ==> Applies(lines[i], pid, program))
    ensures forall j :: 0 <= j < i ==> !Applies(lines[j], pid, program)
    decreases |lines|
  {
    if lines == [] then 0
    else
      var i := FirstLine(lines[..|lines| - 1], pid, program);
      if i < |lines| - 1 || Applies(lines[|lines| - 1], pid, program) then i else |lines|
  }

  // What sorting says about a pid: nothing, to ignore it, or a position, the number it was given
  // before that was stored in an int8_t.
  datatype Rank = Unranked | Ignored | Position(k: nat)

  function StatusOf(r: Rank): int {
    match r
    case Unranked => 0
    case Ignored => -1
    case Position(k) => Int8(k)
  }

  // The first line about pid i, and whether it prefers the pid
  function LineOf(lines: seq<Priority>, pids: seq<Pid>, program: nat, i: nat): (f: nat)
    requires i < |pids|
    ensures f <= |lines|
  {
    FirstLine(lines, pids[i], program)
  }

  predicate PreferredByLine(lines: seq<Priority>, pids: seq<Pid>, program: nat, i: nat)
    requires i < |pids|
  {
    var f := LineOf(lines, pids, program, i);
    f < |lines| && lines[f].kind == 'p'
  }

  // Line by line, and for each line by index, the file is applied to pid i before (k, n).
  predicate Reached(f: nat, i: nat, k: nat, n: nat) { f < k || (f == k && i < n) }

  // How many of the first m pids are preferred by a line that is applied before (k, n)
  function PreferredBefore(lines: seq<Priority>, pids: seq<Pid>, program: nat, k: nat, n: nat, m: nat): (c: nat)
    requires m <= |pids|
    ensures c <= m
  {
    if m == 0 then 0
    else
      PreferredBefore(lines, pids, program, k, n, m - 1) +
      if PreferredByLine(lines, pids, program, m - 1) && Reached(LineOf(lines, pids, program, m - 1), m - 1, k, n)
      then 1 else 0
  }

  // What the priority file alone says about pid i
  function FileRank(lines: seq<Priority>, pids: seq<Pid>, program: nat, i: nat): Rank
    requires i < |pids|
  {
    var f := LineOf(lines, pids, program, i);
    if f == |lines| then Unranked
    else if lines[f].kind == 'i' then Ignored
    else Position(1 + PreferredBefore(lines, pids, program, f, i, |pids|))
  }

  // The number given out next, once the file is through
  function FileNext(lines: seq<Priority>, pids: seq<Pid>, program: nat): (next: nat) {
    1 + PreferredBefore(lines, pids, program, |lines|, 0, |pids|)
  }

  // What the service tables make of pid n when next is the number to give out
  function TableRank(tables: seq<SidTable>, n: nat, r: Rank, next: nat): (Rank, nat)
    decreases |tables|
  {
    if tables == [] then (r, next)
    else
      var (r', next') := TableRank(tables[..|tables| - 1], n, r, next);
      var t := tables[|tables| - 1];
      if t.prefers(n) then (Position(next'), next' + 1)
      else (if t.ignores(n) then Ignored else r', next')
  }

  // The ranks of the first n pids after sorting, and the number to give out next
  function RanksOf(
      lines: seq<Priority>, tables: seq<SidTable>, pids: seq<Pid>, program: nat, n: nat)
      : (r: (seq<Rank>, nat))
    requires n <= |pids|
    ensures |r.0| == n
  {
    if n == 0 then ([], FileNext(lines, pids, program))
    else
      var (ranks, next) := RanksOf(lines, tables, pids, program, n - 1);
      var (r, next') := TableRank(tables, n - 1, FileRank(lines, pids, program, n - 1), next);
      (ranks + [r], next')
  }

  function Ranking(lines: seq<Priority>, tables: seq<SidTable>, pids: seq<Pid>, program: nat): (r: (seq<Rank>, nat))
    ensures |r.0| == |pids|
  {
    RanksOf(lines, tables, pids, program, |pids|)
  }

  // The pids of a channel, its program number, and what the search needs
  class Channel {
    const pids: array<Pid>
    const program: nat
    var maxStatus: int
    var tries: int
    var curindex: int

    constructor (pids: array<Pid>, program: nat)
      ensures this.pids == pids && this.program == program && maxStatus == 0 && tries == 0 && curindex == -1
    {
      this.pids, this.program, maxStatus, tries, curindex := pids, program, 0, 0, -1;
    }

    ghost function View(): Demux
      reads this, pids
    {
      Demux(pids[..], maxStatus, tries)
    }

    // Pid i comes before every other unchecked one with a status from lo to hi.
    ghost predicate First(i: int, lo: int, hi: int)
      reads pids
    {
      && 0 <= i < pids.Length && !pids[i].checked && lo <= pids[i].status <= hi
      && forall k :: 0 <= k < pids.Length && k != i && !pids[k].checked && lo <= pids[k].status <= hi ==>
        pids[i].status < pids[k].status || (pids[i].status == pids[k].status && i < k)
    }

    ghost predicate NoneIn(lo: int, hi: int)
      reads pids
    {
      forall k :: 0 <= k < pids.Length && !pids[k].checked ==> !(lo <= pids[k].status <= hi)
    }

    // One run of the search
    method Scan(start: int, end: int) returns (num: int)
      ensures if num == -1 then NoneIn(start, end) else First(num, start, end)
    {
      num := -1;
      var j := start;
      while j <= end && num == -1
        invariant start <= j
        invariant if num == -1 then NoneIn(start, j - 1) && (j <= end || NoneIn(start, end)) else First(num, start, end)
        decreases end - j
      {
        var n := 0;
        while n < pids.Length
          invariant n <= pids.Length && num == -1
          invariant forall k :: 0 <= k < n && !pids[k].checked ==> pids[k].status != j
        {
          if !pids[n].checked && pids[n].status == j {
            num := n;
            break;
          }
          n := n + 1;
        }
        j := j + 1;
      }
    }

    // The search of dvbapi_try_next_caid: positive statuses first, then status 0
    method Search() returns (num: int)
      ensures num == if Pick(pids[..], maxStatus) == pids.Length then -1 else Pick(pids[..], maxStatus)
    {
      hide PickBelow;
      num := -1;
      var start, end := 1, maxStatus;
      while num == -1
        invariant num == -1
        invariant (start == 1 && end == maxStatus) || (start == 0 && end == 0 && NoneIn(1, maxStatus))
        decreases start
      {
        num := Scan(start, end);
        if start == 0 || num > -1 {
          break;
        }
        start, end := 0, 0;
      }
      if num > -1 {
        PickUnique(pids[..], maxStatus, num);
      }
    }

    // dvbapi_try_next_caid without the filters it starts and stops
    method TryNextCaid(mode1: bool) returns (tried: seq<nat>, gaveUp: bool)
      modifies this`tries, this`curindex, pids
      ensures (View(), tried, gaveUp) == Try(old(View()), mode1)
      ensures curindex == if tried == [] then old(curindex) else tried[|tried| - 1]
      decreases MAX_TRIES - tries, NumOpen(pids[..], maxStatus)
    {
      hide NumOpen, PickBelow;
      if tries > MAX_TRIES {
        return [], true;
      }
      var num := Search();
      if num == -1 {
        if mode1 {
          return [], false;
        }
        tries := tries + 1;
        UncheckAll();
        tried, gaveUp := TryNextCaid(mode1);
        return;
      }
      curindex := num;
      CheckClosesOne(pids[..], maxStatus, num);
      SetChecked(num);
      tried, gaveUp := [num], false;
      if mode1 {
        var more: seq<nat>;
        more, gaveUp := TryNextCaid(mode1);
        tried := [num] + more;
      }
    }

    method SetChecked(n: nat)
      requires n < pids.Length
      modifies pids
      ensures pids[..] == Check(old(pids[..]), n)
    {
      pids[n] := pids[n].(checked := true);
    }

    method UncheckAll()
      modifies pids
      ensures pids[..] == Reset(old(pids[..]))
    {
      for n := 0 to pids.Length
        invariant forall k :: 0 <= k < pids.Length ==>
          pids[k] == if k < n then old(pids[k]).(checked := false) else old(pids[k])
      {
        pids[n] := pids[n].(checked := false);
      }
    }

    ghost predicate OnlyStatus(was: seq<Pid>)
      reads pids
    {
      |was| == pids.Length && forall i :: 0 <= i < pids.Length ==> pids[i] == was[i].(status := pids[i].status)
    }

    // The file is applied up to (k, n).
    ghost predicate Filed(was: seq<Pid>, lines: seq<Priority>, k: nat, n: nat)
      reads pids
    {
      && OnlyStatus(was)
      && forall i :: 0 <= i < pids.Length ==>
        pids[i].status == if Reached(LineOf(lines, was, program, i), i, k, n)
                          then StatusOf(FileRank(lines, was, program, i)) else 0
    }

    // One pid and one line of the priority file
    method ApplyLine(ghost was: seq<Pid>, ghost lines: seq<Priority>, ghost k: nat, p: Priority, n: nat, next: nat)
      returns (newNext: nat)
      requires Filed(was, lines, k, n) && n < pids.Length <= ECM_PIDS && k < |lines| && lines[k] == p
      requires next == 1 + PreferredBefore(lines, was, program, k, n, |was|)
      modifies pids
      ensures Filed(was, lines, k, n + 1)
      ensures newNext == 1 + PreferredBefore(lines, was, program, k, n + 1, |was|)
    {
      hide FirstLine, PreferredBefore;
      newNext := next;
      ghost var f := LineOf(lines, was, program, n);
      OneMoreReached(lines, was, program, k, n);
      var applies := Applies(p, pids[n], program);
      assert applies == Applies(p, was[n], program);
      FileRankNotZero(lines, was, program, n);
      if pids[n].status == 0 && applies {
        assert f == k;
        if p.kind == 'p' {
          pids[n] := pids[n].(status := Int8(next));
          newNext := next + 1;
        } else {
          pids[n] := pids[n].(status := -1);
        }
      }
    }

    // The service tables are applied to the pids below n.
    ghost predicate Tabled(was: seq<Pid>, lines: seq<Priority>, tables: seq<SidTable>, n: nat)
      requires n <= |was|
      reads pids
    {
      && OnlyStatus(was)
      && forall i :: 0 <= i < pids.Length ==>
        pids[i].status == StatusOf(if i < n then RanksOf(lines, tables, was, program, n).0[i]
                                   else FileRank(lines, was, program, i))
    }

    // All service tables for one pid
    method ApplyTables(ghost was: seq<Pid>, ghost lines: seq<Priority>, tables: seq<SidTable>, n: nat, next: nat)
      returns (newNext: nat)
      requires n < |was| && Tabled(was, lines, tables, n) && next == RanksOf(lines, tables, was, program, n).1
      modifies pids
      ensures Tabled(was, lines, tables, n + 1) && newNext == RanksOf(lines, tables, was, program, n + 1).1
    {
      hide FileRank;
      newNext := next;
      ghost var r := FileRank(lines, was, program, n);
      assert tables[..0] == [];
      for k := 0 to |tables|
        invariant OnlyStatus(was) && (TableRank(tables[..k], n, r, next).1 == newNext)
        invariant pids[n].status == StatusOf(TableRank(tables[..k], n, r, next).0)
        invariant forall i :: 0 <= i < pids.Length && i != n ==> pids[i] == old(pids[i])
      {
        assert tables[..k + 1][..k] == tables[..k];
        if tables[k].ignores(n) {
          pids[n] := pids[n].(status := -1);
        }
        if tables[k].prefers(n) {
          pids[n] := pids[n].(status := Int8(newNext));
          newNext := newNext + 1;
        }
      }
      assert tables[..|tables|] == tables;
    }

    // dvbapi_resort_ecmpids: every status is the rank of the pid, and max_status the number that
    // would be given out next, each as an int8_t stores it.
    method Resort(lines: seq<Priority>, tables: seq<SidTable>) returns (next: nat)
      requires pids.Length <= ECM_PIDS
      modifies this`maxStatus, pids
      ensures OnlyStatus(old(pids[..])) && maxStatus == Int8(next)
      ensures next == Ranking(lines, tables, old(pids[..]), program).1
      ensures forall i :: 0 <= i < pids.Length ==>
        pids[i].status == StatusOf(Ranking(lines, tables, old(pids[..]), program).0[i])
    {
      hide FirstLine, PreferredBefore, FileRank, Filed, Tabled, RanksOf;
      ghost var was := pids[..];
      for n := 0 to pids.Length
        invariant OnlyStatus(was) && forall i :: 0 <= i < n ==> pids[i].status == 0
      {
        pids[n] := pids[n].(status := 0);
      }
      next := 1;
      Fresh(was, lines);
      for k := 0 to |lines|
        invariant Filed(was, lines, k, 0) && next == 1 + PreferredBefore(lines, was, program, k, 0, |was|)
      {
        var p := lines[k];
        for n := 0 to pids.Length
          invariant Filed(was, lines, k, n) && next == 1 + PreferredBefore(lines, was, program, k, n, |was|)
        {
          next := ApplyLine(was, lines, k, p, n, next);
        }
        NextLine(was, lines, k);
      }
      FileDone(was, lines, tables);
      for n := 0 to pids.Length
        invariant |was| == pids.Length && Tabled(was, lines, tables, n)
        invariant next == RanksOf(lines, tables, was, program, n).1
      {
        next := ApplyTables(was, lines, tables, n, next);
      }
      AllTabled(was, lines, tables);
      maxStatus := Int8(next);
    }

    lemma Fresh(was: seq<Pid>, lines: seq<Priority>)
      requires OnlyStatus(was) && forall i :: 0 <= i < pids.Length ==> pids[i].status == 0
      ensures Filed(was, lines, 0, 0) && PreferredBefore(lines, was, program, 0, 0, |was|) == 0
    {
      NoneReached(lines, was, program, |was|);
    }

    lemma NextLine(was: seq<Pid>, lines: seq<Priority>, k: nat)
      requires Filed(was, lines, k, pids.Length)
      ensures Filed(was, lines, k + 1, 0)
      ensures PreferredBefore(lines, was, program, k, |was|, |was|) ==
        PreferredBefore(lines, was, program, k + 1, 0, |was|)
    {
      hide FirstLine, FileRank;
      SameReached(lines, was, program, k, |was|);
    }

    lemma FileDone(was: seq<Pid>, lines: seq<Priority>, tables: seq<SidTable>)
      requires Filed(was, lines, |lines|, 0)
      ensures Tabled(was, lines, tables, 0)
      ensures RanksOf(lines, tables, was, program, 0).1 == 1 + PreferredBefore(lines, was, program, |lines|, 0, |was|)
    {
      hide FirstLine, PreferredBefore;
    }

    lemma AllTabled(was: seq<Pid>, lines: seq<Priority>, tables: seq<SidTable>)
      requires |was| == pids.Length && Tabled(was, lines, tables, pids.Length)
      ensures OnlyStatus(was)
      ensures forall i :: 0 <= i < pids.Length ==> pids[i].status == StatusOf(Ranking(lines, tables, was, program).0[i])
    {
      hide RanksOf;
    }
  }

  // ---------------------------------------------------------------- what sorting means

  lemma {:induction false} NoneReached(lines: seq<Priority>, pids: seq<Pid>, program: nat, m: nat)
    requires m <= |pids|
    ensures PreferredBefore(lines, pids, program, 0, 0, m) == 0
  {
    if m > 0 {
      NoneReached(lines, pids, program, m - 1);
    }
  }

  lemma {:induction false} SameReached(lines: seq<Priority>, pids: seq<Pid>, program: nat, k: nat, m: nat)
    requires m <= |pids|
    ensures PreferredBefore(lines, pids, program, k, |pids|, m) == PreferredBefore(lines, pids, program, k + 1, 0, m)
  {
    hide LineOf, PreferredByLine;
    if m > 0 {
      SameReached(lines, pids, program, k, m - 1);
    }
  }

  // Going on to the next pid reaches at most that one.
  lemma OneMoreReached(lines: seq<Priority>, pids: seq<Pid>, program: nat, k: nat, n: nat)
    requires n < |pids|
    ensures PreferredBefore(lines, pids, program, k, n + 1, |pids|) ==
      PreferredBefore(lines, pids, program, k, n, |pids|) +
      if PreferredByLine(lines, pids, program, n) && LineOf(lines, pids, program, n) == k then 1 else 0
  {
    OneMoreAmong(lines, pids, program, k, n, |pids|);
  }

  lemma {:induction false} OneMoreAmong(lines: seq<Priority>, pids: seq<Pid>, program: nat, k: nat, n: nat, m: nat)
    requires n < |pids| && m <= |pids|
    ensures PreferredBefore(lines, pids, program, k, n + 1, m) == PreferredBefore(lines, pids, program, k, n, m) +
      if n < m && PreferredByLine(lines, pids, program, n) && LineOf(lines, pids, program, n) == k then 1 else 0
  {
    hide LineOf, PreferredByLine;
    if m > 0 {
      OneMoreAmong(lines, pids, program, k, n, m - 1);
    }
  }

  // The positions the file gives fit an int8_t, so status 0 means that no line was applied.
  lemma FileRankNotZero(lines: seq<Priority>, pids: seq<Pid>, program: nat, i: nat)
    requires i < |pids| <= ECM_PIDS
    ensures StatusOf(FileRank(lines, pids, program, i)) == 0 <==> LineOf(lines, pids, program, i) == |lines|
  {
    hide FirstLine, PreferredBefore;
  }

  // The file is applied to more pids as it is read, and to a preferred one exactly when it is
  // reached.
  lemma {:induction false} PreferredGrows(
    lines: seq<Priority>, pids: seq<Pid>, program: nat, k: nat, n: nat, k': nat, n': nat, i: nat, m: nat)
    requires i < |pids| && m <= |pids|
    requires k < k' || (k == k' && n <= n')
    ensures PreferredBefore(lines, pids, program, k, n, m) + (
        if i < m && PreferredByLine(lines, pids, program, i) && !Reached(LineOf(lines, pids, program, i), i, k, n) &&
           Reached(LineOf(lines, pids, program, i), i, k', n') then 1 else 0)
      <= PreferredBefore(lines, pids, program, k', n', m)
  {
    hide LineOf, PreferredByLine;
    if m > 0 {
      PreferredGrows(lines, pids, program, k, n, k', n', i, m - 1);
    }
  }

  // By the file alone positions follow its lines, pids of one line by index, and a pid is ignored
  // exactly when the first line about it says so.
  lemma FileOrder(lines: seq<Priority>, pids: seq<Pid>, program: nat, i: nat, j: nat)
    requires i < |pids| && j < |pids|
    requires FileRank(lines, pids, program, i).Position? && FileRank(lines, pids, program, j).Position?
    ensures FileRank(lines, pids, program, i).k < FileRank(lines, pids, program, j).k <==>
      Reached(LineOf(lines, pids, program, i), i, LineOf(lines, pids, program, j), j)
    ensures 1 <= FileRank(lines, pids, program, i).k < FileNext(lines, pids, program)
  {
    hide PreferredBefore, FirstLine;
    var f, g := LineOf(lines, pids, program, i), LineOf(lines, pids, program, j);
    KindsKnown(lines, pids, program, i);
    KindsKnown(lines, pids, program, j);
    if Reached(f, i, g, j) {
      PreferredGrows(lines, pids, program, f, i, g, j, i, |pids|);
    } else {
      PreferredGrows(lines, pids, program, g, j, f, i, j, |pids|);
    }
    PreferredGrows(lines, pids, program, f, i, |lines|, 0, i, |pids|);
  }

  lemma KindsKnown(lines: seq<Priority>, pids: seq<Pid>, program: nat, i: nat)
    requires i < |pids|
    ensures FileRank(lines, pids, program, i).Position? <==> PreferredByLine(lines, pids, program, i)
  {
    hide PreferredBefore;
    var f := FirstLine(lines, pids[i], program);
    assert f < |lines| ==> Applies(lines[f], pids[i], program);
  }

  // A line is about a pid when each of its numbers is 0 or the pid's; an 'i' line with a chid is
  // about none. The file says nothing of a pid that no line is about, and ignores one if and only
  // if an 'i' line is about it and no 'p' line before that.
  lemma FileDecides(lines: seq<Priority>, pids: seq<Pid>, program: nat, i: nat)
    requires i < |pids|
    ensures FileRank(lines, pids, program, i) == Unranked <==> forall k :: 0 <= k < |lines| ==>
      || (lines[k].kind != 'p' && (lines[k].kind != 'i' || lines[k].chid != 0))
      || lines[k].caid !in {0, pids[i].caid} || lines[k].provid !in {0, pids[i].provid}
      || lines[k].ecmPid !in {0, pids[i].ecmPid} || lines[k].srvid !in {0, program}
    ensures FileRank(lines, pids, program, i) == Ignored <==> exists k :: (
      && 0 <= k < |lines| && lines[k].kind == 'i' && lines[k].chid == 0
      && lines[k].caid in {0, pids[i].caid} && lines[k].provid in {0, pids[i].provid}
      && lines[k].ecmPid in {0, pids[i].ecmPid} && lines[k].srvid in {0, program}
      && (forall j :: 0 <= j < k ==>
            || lines[j].kind != 'p'
            || lines[j].caid !in {0, pids[i].caid} || lines[j].provid !in {0, pids[i].provid}
            || lines[j].ecmPid !in {0, pids[i].ecmPid} || lines[j].srvid !in {0, program}))
  {
    hide PreferredBefore;
    var f := LineOf(lines, pids, program, i);
    assert f < |lines| ==> Applies(lines[f], pids[i], program);
    assert forall j :: 0 <= j < f ==> !Applies(lines[j], pids[i], program);
  }

  // No table after t names pid n.
  predicate Last(tables: seq<SidTable>, t: int, n: nat) {
    forall u :: 0 <= u < |tables| && t < u ==> !tables[u].ignores(n) && !tables[u].prefers(n)
  }

  lemma LastStep(tables: seq<SidTable>, n: nat)
    requires tables != []
    ensures var m := |tables| - 1;
      && Last(tables, m, n)
      && forall t :: -1 <= t < m ==>
           (Last(tables, t, n) <==> Last(tables[..m], t, n) && !tables[m].ignores(n) && !tables[m].prefers(n))
  {
    var m := |tables| - 1;
    forall t | -1 <= t < m && Last(tables[..m], t, n) && !tables[m].ignores(n) && !tables[m].prefers(n)
      ensures Last(tables, t, n)
    {
      assert forall u :: 0 <= u < m ==> tables[u] == tables[..m][u];
    }
  }

  // Table t is the last to name pid n, and it ignores n.
  predicate IgnoredBy(tables: seq<SidTable>, t: nat, n: nat) {
    t < |tables| && tables[t].ignores(n) && !tables[t].prefers(n) && Last(tables, t, n)
  }

  // The last table that names a pid decides, to prefer it if it does both; the file does if none
  // names it.
  lemma {:induction false} TablesDecide(tables: seq<SidTable>, n: nat, r: Rank, next: nat)
    ensures TableRank(tables, n, r, next).0 == Ignored <==>
      (exists t: nat :: IgnoredBy(tables, t, n)) || (r == Ignored && Last(tables, -1, n))
    decreases |tables|
  {
    if tables != [] {
      var m := |tables| - 1;
      TablesDecide(tables[..m], n, r, next);
      LastStep(tables, n);
      hide Last;
      if tables[m].ignores(n) && !tables[m].prefers(n) {
        assert IgnoredBy(tables, m, n);
      } else {
        assert !IgnoredBy(tables, m, n);
        assert forall t: nat :: t < m ==>
          (IgnoredBy(tables, t, n) <==> IgnoredBy(tables[..m], t, n) && !tables[m].prefers(n));
      }
    }
  }

  // Table t is the last to name pid n, and it prefers n.
  predicate PreferredBy(tables: seq<SidTable>, t: nat, n: nat) {
    t < |tables| && tables[t].prefers(n) && Last(tables, t, n)
  }

  // A pid that the last table to name it prefers gets the last of the numbers its tables give out;
  // one that no table names keeps what the file says.
  lemma {:induction false} LastPreferenceCounts(tables: seq<SidTable>, t: int, n: nat, r: Rank, next: nat)
    requires t == -1 || (t >= 0 && PreferredBy(tables, t, n))
    ensures t >= 0 ==> TableRank(tables, n, r, next).0.Position?
    ensures t >= 0 ==> TableRank(tables, n, r, next).0.k + 1 == next + Prefers(tables, n)
    ensures t == -1 && Last(tables, t, n) ==> TableRank(tables, n, r, next) == (r, next)
    decreases |tables|
  {
    if tables != [] {
      var m := |tables| - 1;
      LastStep(tables, n);
      hide Last;
      if t < m {
        LastPreferenceCounts(tables[..m], t, n, r, next);
      } else {
        TableRankSpec(tables[..m], n, r, next);
      }
    }
  }

  // Sorting ignores a pid if and only if the last table that names it ignores and does not prefer
  // it, or no table names it and the file ignores it.
  lemma {:induction false} IgnoredIff(
    lines: seq<Priority>, tables: seq<SidTable>, pids: seq<Pid>, program: nat, n: nat, i: nat)
    requires i < n <= |pids|
    ensures RanksOf(lines, tables, pids, program, n).0[i] == Ignored <==>
      || (exists t: nat :: IgnoredBy(tables, t, i))
      || (FileRank(lines, pids, program, i) == Ignored && Last(tables, -1, i))
    decreases n
  {
    hide FileRank, TableRank, RanksOf, IgnoredBy, Last;
    RanksOfStep(lines, tables, pids, program, n);
    if i < n - 1 {
      IgnoredIff(lines, tables, pids, program, n - 1, i);
    } else {
      TablesDecide(tables, i, FileRank(lines, pids, program, i), RanksOf(lines, tables, pids, program, i).1);
    }
  }

  // How many of the tables prefer pid n
  function Prefers(tables: seq<SidTable>, n: nat): (c: nat)
    ensures c <= |tables|
    decreases |tables|
  {
    if tables == [] then 0
    else Prefers(tables[..|tables| - 1], n) + if tables[|tables| - 1].prefers(n) then 1 else 0
  }

  lemma {:induction false} TableRankSpec(tables: seq<SidTable>, n: nat, r: Rank, next: nat)
    ensures TableRank(tables, n, r, next).1 == next + Prefers(tables, n)
    ensures var r' := TableRank(tables, n, r, next).0;
      r' == r || r' == Ignored || (r'.Position? && next <= r'.k < next + Prefers(tables, n))
    decreases |tables|
  {
    if tables != [] {
      TableRankSpec(tables[..|tables| - 1], n, r, next);
    }
  }

  function AllPrefers(tables: seq<SidTable>, n: nat): nat {
    if n == 0 then 0 else AllPrefers(tables, n - 1) + Prefers(tables, n - 1)
  }

  // The number to give out next is one more than the preferred pids of the file and the
  // preferences of the tables together.
  lemma {:induction false} NextCounts(lines: seq<Priority>, tables: seq<SidTable>, pids: seq<Pid>, program: nat, n: nat)
    requires n <= |pids|
    ensures RanksOf(lines, tables, pids, program, n).1 == FileNext(lines, pids, program) + AllPrefers(tables, n)
  {
    hide FileNext, FileRank;
    if n > 0 {
      NextCounts(lines, tables, pids, program, n - 1);
      TableRankSpec(tables, n - 1, FileRank(lines, pids, program, n - 1),
        RanksOf(lines, tables, pids, program, n - 1).1);
    }
  }

  // A position in the file's part is below FileNext, one from the tables at least that.
  lemma {:induction false} RankBounds(
    lines: seq<Priority>, tables: seq<SidTable>, pids: seq<Pid>, program: nat, n: nat, i: nat)
    requires i < n <= |pids|
    ensures var (ranks, next) := RanksOf(lines, tables, pids, program, n);
      && FileNext(lines, pids, program) <= next
      && (ranks[i].Position? ==> 1 <= ranks[i].k < next)
      && (ranks[i].Position? && ranks[i].k < FileNext(lines, pids, program) ==>
            ranks[i] == FileRank(lines, pids, program, i))
    decreases n
  {
    hide FileNext, FileRank;
    NextCounts(lines, tables, pids, program, n);
    NextCounts(lines, tables, pids, program, n - 1);
    var prev := RanksOf(lines, tables, pids, program, n - 1).1;
    var r := FileRank(lines, pids, program, n - 1);
    TableRankSpec(tables, n - 1, r, prev);
    if i < n - 1 {
      RankBounds(lines, tables, pids, program, n - 1, i);
    }
    if r.Position? {
      FileOrder(lines, pids, program, n - 1, n - 1);
    }
    assert FileNext(lines, pids, program) >= 1 by { FileNextPositive(lines, pids, program); }
  }

  lemma FileNextPositive(lines: seq<Priority>, pids: seq<Pid>, program: nat)
    ensures FileNext(lines, pids, program) >= 1
  {
  }

  // Positions are numbers of their own, from 1 on and below next.
  lemma {:induction false} PositionsDistinct(
    lines: seq<Priority>, tables: seq<SidTable>, pids: seq<Pid>, program: nat, n: nat, i: nat, j: nat)
    requires i < j < n <= |pids|
    requires var ranks := RanksOf(lines, tables, pids, program, n).0; ranks[i].Position? && ranks[j].Position?
    ensures var ranks := RanksOf(lines, tables, pids, program, n).0; ranks[i].k != ranks[j].k
    decreases n
  {
    hide FileNext, FileRank, RanksOf;
    var (ranks, next) := RanksOf(lines, tables, pids, program, n);
    var prev := RanksOf(lines, tables, pids, program, n - 1);
    RanksOfStep(lines, tables, pids, program, n);
    if j < n - 1 {
      PositionsDistinct(lines, tables, pids, program, n - 1, i, j);
    } else {
      var r := FileRank(lines, pids, program, j);
      TableRankSpec(tables, j, r, prev.1);
      RankBounds(lines, tables, pids, program, j, i);
      RankBounds(lines, tables, pids, program, n, j);
      if ranks[j] == r && ranks[i].k == ranks[j].k {
        FileOrder(lines, pids, program, j, j);
        FileOrder(lines, pids, program, i, j);
        FileOrder(lines, pids, program, j, i);
      }
    }
  }

  lemma RanksOfStep(lines: seq<Priority>, tables: seq<SidTable>, pids: seq<Pid>, program: nat, n: nat)
    requires 0 < n <= |pids|
    ensures var (ranks, next) := RanksOf(lines, tables, pids, program, n - 1);
      var (r, next') := TableRank(tables, n - 1, FileRank(lines, pids, program, n - 1), next);
      RanksOf(lines, tables, pids, program, n) == (ranks + [r], next')
  {
    hide FileRank, TableRank;
  }

  // ---------------------------------------------------------------- when positions run over

  // A position is tried if and only if its low byte is 0, or is not above that of max_status,
  // itself at most 127; whatever the numbers are.
  predicate StillTried(k: nat, next: nat) { k % 256 == 0 || k % 256 <= next % 256 <= 127 }

  lemma EligibleIff(pid: Pid, r: Rank, next: nat)
    requires pid.status == StatusOf(r) && (r.Position? ==> 1 <= r.k < next)
    ensures Eligible(pid, Int8(next)) <==> r == Unranked || (r.Position? && StillTried(r.k, next))
  {
    LowByte(next);
    if r.Position? {
      LowByte(r.k);
    }
  }

  lemma LowByte(x: nat)
    ensures Int8(x) == if x % 256 < 128 then x % 256 else x % 256 - 256
  {
  }

  // After sorting, all pids that are not ignored are tried if and only if every position held
  // is; this is so as long as next fits an int8_t, and once next is above 127 but not above 256
  // only if no pid holds a position at all.
  lemma SortedPidsTriedIff(
    lines: seq<Priority>, tables: seq<SidTable>, was: seq<Pid>, program: nat, pids: seq<Pid>, next: nat)
    requires |pids| == |was| && next == Ranking(lines, tables, was, program).1
    requires forall i :: 0 <= i < |pids| ==> pids[i].status == StatusOf(Ranking(lines, tables, was, program).0[i])
    ensures var ranks := Ranking(lines, tables, was, program).0;
      && ((forall i :: 0 <= i < |pids| && ranks[i] != Ignored ==> Eligible(pids[i], Int8(next))) <==>
          (forall i :: 0 <= i < |pids| && ranks[i].Position? ==> StillTried(ranks[i].k, next)))
      && (next <= 127 ==> forall i :: 0 <= i < |pids| && ranks[i].Position? ==> StillTried(ranks[i].k, next))
      && (128 <= next <= 256 ==> forall i :: 0 <= i < |pids| && ranks[i].Position? ==> !StillTried(ranks[i].k, next))
  {
    hide RanksOf, StillTried;
    var ranks := Ranking(lines, tables, was, program).0;
    forall i | 0 <= i < |pids|
      ensures ranks[i].Position? ==> 1 <= ranks[i].k < next
      ensures Eligible(pids[i], Int8(next)) <==>
        ranks[i] == Unranked || (ranks[i].Position? && StillTried(ranks[i].k, next))
      ensures ranks[i].Position? && next <= 127 ==> StillTried(ranks[i].k, next)
      ensures ranks[i].Position? && 128 <= next <= 256 ==> !StillTried(ranks[i].k, next)
    {
      RankBounds(lines, tables, was, program, |was|, i);
      EligibleIff(pids[i], ranks[i], next);
      if ranks[i].Position? {
        TriedInRange(ranks[i].k, next);
      }
    }
  }

  lemma TriedInRange(k: nat, next: nat)
    requires 1 <= k < next
    ensures next <= 127 ==> StillTried(k, next)
    ensures 128 <= next <= 256 ==> !StillTried(k, next)
  {
  }

  // Two positions are stored alike if and only if they are 256 apart or a multiple of it, which
  // takes more than 257 numbers.
  lemma StatusesDistinctIff(
    lines: seq<Priority>, tables: seq<SidTable>, pids: seq<Pid>, program: nat, i: nat, j: nat)
    requires i < j < |pids|
    requires var ranks := Ranking(lines, tables, pids, program).0; ranks[i].Position? && ranks[j].Position?
    ensures var (ranks, next) := Ranking(lines, tables, pids, program);
      && (StatusOf(ranks[i]) == StatusOf(ranks[j]) <==> ranks[i].k % 256 == ranks[j].k % 256)
      && (next <= 257 ==> StatusOf(ranks[i]) != StatusOf(ranks[j]))
  {
    hide RanksOf;
    var (ranks, next) := Ranking(lines, tables, pids, program);
    PositionsDistinct(lines, tables, pids, program, |pids|, i, j);
    RankBounds(lines, tables, pids, program, |pids|, i);
    RankBounds(lines, tables, pids, program, |pids|, j);
    LowByte(ranks[i].k);
    LowByte(ranks[j].k);
    if next <= 257 && ranks[i].k % 256 == ranks[j].k % 256 {
      Residues(ranks[i].k, ranks[j].k);
      assert false;
    }
  }

  lemma Residues(a: nat, b: nat)
    requires 1 <= a <= 256 && 1 <= b <= 256 && a % 256 == b % 256
    ensures a == b
  {
  }

  // ---------------------------------------------------------------- an overrun

  lemma {:induction false} PreferredByAll(tables: seq<SidTable>, n: nat, r: Rank, next: nat)
    requires forall t :: 0 <= t < |tables| ==> tables[t].prefers(n)
    ensures TableRank(tables, n, r, next) ==
      if tables == [] then (r, next) else (Position(next + |tables| - 1), next + |tables|)
    decreases |tables|
  {
    if tables != [] {
      PreferredByAll(tables[..|tables| - 1], n, r, next);
    }
  }

  lemma {:induction false} AllPreferred(tables: seq<SidTable>, pids: seq<Pid>, program: nat, n: nat)
    requires n <= |pids| && tables != []
    requires forall t, i :: 0 <= t < |tables| && 0 <= i < n ==> tables[t].prefers(i)
    ensures RanksOf([], tables, pids, program, n).1 == 1 + n * |tables|
    ensures forall i :: 0 <= i < n ==> RanksOf([], tables, pids, program, n).0[i].Position?
  {
    if n == 0 {
      NothingPreferred(pids, program, |pids|);
    } else {
      AllPreferred(tables, pids, program, n - 1);
      var next := RanksOf([], tables, pids, program, n - 1).1;
      PreferredByAll(tables, n - 1, FileRank([], pids, program, n - 1), next);
      assert n * |tables| == (n - 1) * |tables| + |tables|;
    }
  }

  lemma {:induction false} NothingPreferred(pids: seq<Pid>, program: nat, m: nat)
    requires m <= |pids|
    ensures PreferredBefore([], pids, program, 0, 0, m) == 0
  {
    if m > 0 {
      NothingPreferred(pids, program, m - 1);
    }
  }

  // Tables that prefer every pid and together give out 127 to 255 positions: after sorting no pid
  // is tried, and the channel is given up at once.
  lemma OverrunGivesUp(tables: seq<SidTable>, was: seq<Pid>, program: nat, pids: seq<Pid>)
    requires forall t, i :: 0 <= t < |tables| && 0 <= i < |was| ==> tables[t].prefers(i)
    requires 127 <= |was| * |tables| <= 255 && |pids| == |was|
    requires forall i :: 0 <= i < |pids| ==> pids[i].status == StatusOf(Ranking([], tables, was, program).0[i])
    ensures Ranking([], tables, was, program).1 == 1 + |was| * |tables|
    ensures forall i :: 0 <= i < |pids| ==> !Eligible(pids[i], Int8(Ranking([], tables, was, program).1))
    ensures Future(Demux(pids, Int8(Ranking([], tables, was, program).1), 0)) == []
    ensures var t := Try(Demux(pids, Int8(Ranking([], tables, was, program).1), 0), false); t.1 == [] && t.2
  {
    hide RanksOf, StillTried, Rest, Try;
    assert tables != [];
    AllPreferred(tables, was, program, |was|);
    var (ranks, next) := Ranking([], tables, was, program);
    SortedPidsTriedIff([], tables, was, program, pids, next);
    forall i | 0 <= i < |pids| ensures !Eligible(pids[i], Int8(next)) {
      RankBounds([], tables, was, program, |was|, i);
      EligibleIff(pids[i], ranks[i], next);
    }
    var d := Demux(pids, Int8(next), 0);
    NothingToTry(pids, d.max);
    NothingToTry(Reset(pids), d.max);
    RepeatNothing(2);
    TryTakesNext(d);
  }

  lemma NothingToTry(pids: seq<Pid>, max: int)
    requires forall i :: 0 <= i < |pids| ==> !Eligible(pids[i], max)
    ensures Rest(pids, max) == []
  {
    hide Eligible;
  }

  // Four pids and 32 tables are enough.
  lemma OverrunHappens(program: nat)
    ensures exists tables: seq<SidTable>, was: seq<Pid> ::
      |tables| == 32 && |was| == 4 && Ranking([], tables, was, program).1 == 129 &&
      forall i :: 0 <= i < 4 ==>
        !Eligible(was[i].(status := StatusOf(Ranking([], tables, was, program).0[i])), Int8(129))
  {
    hide Ranking, Eligible;
    var tables := seq(32, _ => SidTable(_ => false, _ => true));
    var was := seq(4, _ => Pid(0x500, 0, 0, 0, false));
    var pids := seq(4, i requires 0 <= i < 4 => was[i].(status := StatusOf(Ranking([], tables, was, program).0[i])));
    OverrunGivesUp(tables, was, program, pids);
  }
}
