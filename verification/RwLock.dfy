// The counter-only read/write lock of oscam-simples.c, as interleaved atomic steps of any number
// of threads. Increments, decrements and reads of a counter are atomic; the branches that give
// up after a timeout are not part of the model.
module RwLock {

  datatype Kind = Write | TryWrite | Read | TryRead {
    predicate Writes() { Write? || TryWrite? }
    predicate Tries() { TryWrite? || TryRead? }
  }

  // Where a thread is. Every constructor but Idle and Hold names the access it makes next.
  datatype Pc =
    | Idle
    | Test(kind: Kind)          // look at write_lock before the increment
    | Increment(kind: Kind)
    | Check(kind: Kind)         // look at write_lock after the increment
    | Undo(kind: Kind)          // take the increment back
    | AwaitReaders              // cs_writelock only: look at read_lock
    | Hold(kind: Kind)
    | UnlockTest(kind: Kind)    // the unlock functions look before they decrement
    | UnlockDecrement(kind: Kind)

  datatype State = State(readLock: int, writeLock: int, pcs: seq<Pc>)

  // One atomic step of thread t. An idle thread starts the call it wants; a holder unlocks.
  function Step(s: State, t: nat, wants: Kind): (r: State)
    requires t < |s.pcs|
    ensures |r.pcs| == |s.pcs|
  {
    match s.pcs[t]
    case Idle => Goto(s, t, Test(wants))
    case Test(k) =>
      if s.writeLock == 0 then Goto(s, t, Increment(k))
      else Goto(s, t, if k.Tries() then Idle else Test(k))
    case Increment(k) => Goto(Bump(s, k, 1), t, Check(k))
    case Check(k) =>
      if s.writeLock > (if k.Writes() then 1 else 0) then Goto(s, t, Undo(k))
      else Goto(s, t, if k.Write? then AwaitReaders else Hold(k))
    case Undo(k) => Goto(Bump(s, k, -1), t, if k.Tries() then Idle else Test(k))
    case AwaitReaders => if s.readLock == 0 then Goto(s, t, Hold(Write)) else s
    case Hold(k) => Goto(s, t, UnlockTest(k))
    case UnlockTest(k) => Goto(s, t, if Counter(s, k) > 0 then UnlockDecrement(k) else Idle)
    case UnlockDecrement(k) => Goto(Bump(s, k, -1), t, Idle)
  }

  function Goto(s: State, t: nat, pc: Pc): State
    requires t < |s.pcs|
  {
    s.(pcs := s.pcs[t := pc])
  }

  function Counter(s: State, k: Kind): int { if k.Writes() then s.writeLock else s.readLock }

  function Bump(s: State, k: Kind, d: int): State {
    if k.Writes() then s.(writeLock := s.writeLock + d) else s.(readLock := s.readLock + d)
  }

  // ---------------------------------------------------------------- the C object

  // CS_MUTEX_LOCK together with the program counters of the threads that use it.
  class CsMutexLock {
    var readLock: int
    var writeLock: int
    var pcs: seq<Pc>

    ghost function Value(): State
      reads this
    {
      State(readLock, writeLock, pcs)
    }

    constructor (threads: nat)
      ensures Value() == Start(threads)
    {
      readLock, writeLock := 0, 0;
      pcs := seq(threads, _ => Idle);
    }

    method Advance(t: nat, wants: Kind)
      requires t < |pcs|
      modifies this
      ensures Value() == Step(old(Value()), t, wants)
    {
      var next := Idle;
      match pcs[t] {
        case Idle =>
          next := Test(wants);
        case Test(k) =>
          if writeLock == 0 {
            next := Increment(k);
          } else if !k.Tries() {
            next := Test(k);
          }
        case Increment(k) =>
          if k.Writes() { writeLock := writeLock + 1; } else { readLock := readLock + 1; }
          next := Check(k);
        case Check(Write) =>
          next := if writeLock > 1 then Undo(Write) else AwaitReaders;
        case Check(TryWrite) =>
          next := if writeLock > 1 then Undo(TryWrite) else Hold(TryWrite);
        case Check(k) =>
          next := if writeLock > 0 then Undo(k) else Hold(k);
        case Undo(k) =>
          if k.Writes() { writeLock := writeLock - 1; } else { readLock := readLock - 1; }
          if !k.Tries() {
            next := Test(k);
          }
        case AwaitReaders =>
          next := if readLock == 0 then Hold(Write) else AwaitReaders;
        case Hold(k) =>
          next := UnlockTest(k);
        case UnlockTest(k) =>
          if (if k.Writes() then writeLock else readLock) > 0 {
            next := UnlockDecrement(k);
          }
        case UnlockDecrement(k) =>
          if k.Writes() { writeLock := writeLock - 1; } else { readLock := readLock - 1; }
      }
      pcs := pcs[t := next];
    }

    // Any interleaving at all: the schedule names the thread that moves next.
    method Interleave(schedule: seq<(nat, Kind)>)
      requires Value() == Start(|pcs|)
      requires forall e :: e in schedule ==> e.0 < |pcs|
      modifies this
      ensures Exclusive(Value()) && Reached(Value(), schedule)
    {
      ghost var n := |pcs|;
      StartInv(n);
      assert schedule[..0] == [];
      for i := 0 to |schedule|
        invariant |pcs| == n && Inv(Value()) && Reached(Value(), schedule[..i])
      {
        StepKeeps(Value(), schedule[i].0, schedule[i].1);
        Advance(schedule[i].0, schedule[i].1);
        assert schedule[..i + 1][..i] == schedule[..i];
      }
      assert schedule[..|schedule|] == schedule;
      InvExcludes(Value());
    }
  }

  function Start(threads: nat): State { State(0, 0, seq(threads, _ => Idle)) }

  function Run(s: State, schedule: seq<(nat, Kind)>): (r: State)
    requires forall e :: e in schedule ==> e.0 < |s.pcs|
    ensures |r.pcs| == |s.pcs|
    decreases |schedule|
  {
    if schedule == [] then s
    else
      var e := schedule[|schedule| - 1];
      Step(Run(s, schedule[..|schedule| - 1]), e.0, e.1)
  }

  ghost predicate Reached(s: State, schedule: seq<(nat, Kind)>) {
    (forall e :: e in schedule ==> e.0 < |s.pcs|) && s == Run(Start(|s.pcs|), schedule)
  }

  // ---------------------------------------------------------------- what holds in every state

  // Between its increment and its decrement.
  predicate Counted(pc: Pc, writing: bool) {
    match pc
    case Check(k) => k.Writes() == writing
    case Undo(k) => k.Writes() == writing
    case AwaitReaders => writing
    case Hold(k) => k.Writes() == writing
    case UnlockTest(k) => k.Writes() == writing
    case UnlockDecrement(k) => k.Writes() == writing
    case _ => false
  }

  // A writer that saw no other writer and has not given its increment back.
  predicate Passed(pc: Pc) {
    match pc
    case AwaitReaders => true
    case Hold(k) => k.Writes()
    case UnlockTest(k) => k.Writes()
    case UnlockDecrement(k) => k.Writes()
    case _ => false
  }

  predicate Holds(pc: Pc, writing: bool) { pc.Hold? && pc.kind.Writes() == writing }

  function Count(pcs: seq<Pc>, writing: bool): nat
    decreases |pcs|
  {
    if pcs == [] then 0 else (if Counted(pcs[0], writing) then 1 else 0) + Count(pcs[1..], writing)
  }

  ghost predicate Inv(s: State) {
    && s.writeLock == Count(s.pcs, true)
    && s.readLock == Count(s.pcs, false)
    && (forall i, j :: 0 <= i < |s.pcs| && 0 <= j < |s.pcs| && Passed(s.pcs[i]) && Passed(s.pcs[j]) ==> i == j)
    && (forall i, j :: 0 <= i < |s.pcs| && 0 <= j < |s.pcs| && s.pcs[i] == Hold(Write) ==> !Holds(s.pcs[j], false))
  }

  // At most one thread holds through cs_writelock or cs_try_writelock, and while one holds
  // through cs_writelock no reader holds.
  ghost predicate Exclusive(s: State) {
    && (forall i, j :: 0 <= i < |s.pcs| && 0 <= j < |s.pcs| && Holds(s.pcs[i], true) && Holds(s.pcs[j], true) ==>
      i == j)
    && (forall i, j :: 0 <= i < |s.pcs| && 0 <= j < |s.pcs| && s.pcs[i] == Hold(Write) ==> !Holds(s.pcs[j], false))
  }

  lemma InvExcludes(s: State)
    requires Inv(s)
    ensures Exclusive(s)
  {}

  lemma {:induction false} CountUpdate(pcs: seq<Pc>, t: nat, pc: Pc, writing: bool)
    requires t < |pcs|
    ensures Count(pcs[t := pc], writing) ==
            Count(pcs, writing) - (if Counted(pcs[t], writing) then 1 else 0) + (if Counted(pc, writing) then 1 else 0)
    decreases |pcs|
  {
    hide Counted;
    if t == 0 {
      assert pcs[t := pc][1..] == pcs[1..];
    } else {
      assert pcs[t := pc][1..] == pcs[1..][t - 1 := pc];
      CountUpdate(pcs[1..], t - 1, pc, writing);
    }
  }

  // Every counted thread is counted.
  lemma {:induction false} CountCovers(pcs: seq<Pc>, i: nat, writing: bool)
    requires i < |pcs| && Counted(pcs[i], writing)
    ensures Count(pcs, writing) >= 1
    decreases |pcs|
  {
    hide Counted;
    if i != 0 { CountCovers(pcs[1..], i - 1, writing); }
  }

  lemma {:induction false} CountCoversTwo(pcs: seq<Pc>, i: nat, j: nat, writing: bool)
    requires i < j < |pcs| && Counted(pcs[i], writing) && Counted(pcs[j], writing)
    ensures Count(pcs, writing) >= 2
    decreases |pcs|
  {
    hide Counted;
    if i == 0 {
      CountCovers(pcs[1..], j - 1, writing);
    } else {
      CountCoversTwo(pcs[1..], i - 1, j - 1, writing);
    }
  }

  lemma {:induction false} CountNone(n: nat, writing: bool)
    ensures Count(seq(n, _ => Idle), writing) == 0
    decreases n
  {
    if n != 0 {
      assert seq(n, _ => Idle)[1..] == seq(n - 1, _ => Idle);
      CountNone(n - 1, writing);
    }
  }

  lemma StartInv(n: nat)
    ensures Inv(Start(n))
  {
    CountNone(n, true);
    CountNone(n, false);
  }

  // A thread that passes its check finds itself alone among the counted writers.
  lemma AloneWhenPassing(s: State, t: nat)
    requires Inv(s) && t < |s.pcs| && s.pcs[t].Check? && s.pcs[t].kind.Writes() && s.writeLock <= 1
    ensures forall i :: 0 <= i < |s.pcs| && i != t ==> !Counted(s.pcs[i], true)
  {
    forall i | 0 <= i < |s.pcs| && i != t
      ensures !Counted(s.pcs[i], true)
    {
      if Counted(s.pcs[i], true) {
        if i < t { CountCoversTwo(s.pcs, i, t, true); } else { CountCoversTwo(s.pcs, t, i, true); }
      }
    }
  }

  lemma NobodyCounted(s: State, writing: bool)
    requires Inv(s) && Counter(s, if writing then Write else Read) == 0
    ensures forall i :: 0 <= i < |s.pcs| ==> !Counted(s.pcs[i], writing)
  {
    forall i | 0 <= i < |s.pcs|
      ensures !Counted(s.pcs[i], writing)
    {
      if Counted(s.pcs[i], writing) { CountCovers(s.pcs, i, writing); }
    }
  }

  lemma StepKeeps(s: State, t: nat, wants: Kind)
    requires Inv(s) && t < |s.pcs|
    ensures Inv(Step(s, t, wants))
  {
    hide Count;
    var s' := Step(s, t, wants);
    CountUpdate(s.pcs, t, s'.pcs[t], true);
    CountUpdate(s.pcs, t, s'.pcs[t], false);
    match s.pcs[t]
    case Check(k) =>
      if k.Writes() {
        if s.writeLock <= 1 { AloneWhenPassing(s, t); }
      } else if s.writeLock <= 0 {
        NobodyCounted(s, true);
      }
    case AwaitReaders =>
      if s.readLock == 0 { NobodyCounted(s, false); }
    case UnlockTest(k) =>
      CountCovers(s.pcs, t, k.Writes());
    case _ =>
  }

  lemma {:induction false} RunKeeps(threads: nat, schedule: seq<(nat, Kind)>)
    requires forall e :: e in schedule ==> e.0 < threads
    ensures Inv(Run(Start(threads), schedule))
    decreases |schedule|
  {
    hide Step;
    hide Inv;
    if schedule == [] {
      StartInv(threads);
    } else {
      var e := schedule[|schedule| - 1];
      RunKeeps(threads, schedule[..|schedule| - 1]);
      StepKeeps(Run(Start(threads), schedule[..|schedule| - 1]), e.0, e.1);
    }
  }

  // For any number of threads and any interleaving, exclusion holds in the state reached, and a
  // lock nobody is using has both counters back at zero.
  lemma AlwaysExclusive(threads: nat, schedule: seq<(nat, Kind)>)
    requires forall e :: e in schedule ==> e.0 < threads
    ensures var s := Run(Start(threads), schedule);
            && Exclusive(s)
            && ((forall i :: 0 <= i < threads ==> s.pcs[i].Idle?) ==> s.readLock == 0 && s.writeLock == 0)
  {
    hide Run;
    RunKeeps(threads, schedule);
    var s := Run(Start(threads), schedule);
    InvExcludes(s);
    if forall i :: 0 <= i < threads ==> s.pcs[i].Idle? {
      assert s.pcs == seq(threads, _ => Idle);
      CountNone(threads, true);
      CountNone(threads, false);
    }
  }

  lemma OneMore(s: State, schedule: seq<(nat, Kind)>, t: nat, k: Kind)
    requires (forall e :: e in schedule ==> e.0 < |s.pcs|) && t < |s.pcs|
    ensures Run(s, schedule + [(t, k)]) == Step(Run(s, schedule), t, k)
  {
    assert (schedule + [(t, k)])[..|schedule|] == schedule;
  }

  // ---------------------------------------------------------------- a reader beside a writer

  // The call a thread is in
  predicate InCall(pc: Pc, kinds: set<Kind>) {
    match pc
    case Idle => true
    case AwaitReaders => Write in kinds
    case _ => pc.kind in kinds
  }

  // Some thread holds for writing while another reads.
  ghost predicate Beside(s: State) {
    exists i, j :: 0 <= i < |s.pcs| && 0 <= j < |s.pcs| && Holds(s.pcs[i], true) && Holds(s.pcs[j], false)
  }

  // A schedule of this many threads that uses only these kinds of access
  predicate Uses(schedule: seq<(nat, Kind)>, threads: nat, kinds: set<Kind>) {
    forall e :: e in schedule ==> e.0 < threads && e.1 in kinds
  }

  lemma {:induction false} CallsUsed(threads: nat, schedule: seq<(nat, Kind)>, kinds: set<Kind>)
    requires Uses(schedule, threads, kinds)
    ensures forall i :: 0 <= i < threads ==> InCall(Run(Start(threads), schedule).pcs[i], kinds)
    decreases |schedule|
  {
    if schedule != [] {
      var n := |schedule| - 1;
      CallsUsed(threads, schedule[..n], kinds);
      assert schedule[n] in schedule;
    }
  }

  // A call of any kind but cs_writelock on a lock no writer is at: four accesses, and it holds.
  lemma FourSteps(s: State, t: nat, k: Kind)
    requires t < |s.pcs| && s.pcs[t] == Idle && s.writeLock == 0 && k != Write
    ensures FourOf(s, t, k).pcs == s.pcs[t := Hold(k)]
    ensures FourOf(s, t, k).writeLock == if k == TryWrite then 1 else 0
  {
  }

  function FourOf(s: State, t: nat, k: Kind): (r: State)
    requires t < |s.pcs|
    ensures |r.pcs| == |s.pcs|
  {
    hide Step;
    Step(Step(Step(Step(s, t, k), t, k), t, k), t, k)
  }

  lemma FourMore(s: State, schedule: seq<(nat, Kind)>, t: nat, k: Kind)
    requires (forall e :: e in schedule ==> e.0 < |s.pcs|) && t < |s.pcs|
    ensures Run(s, schedule + [(t, k), (t, k), (t, k), (t, k)]) == FourOf(Run(s, schedule), t, k)
  {
    hide Run, Step;
    var e := (t, k);
    OneMore(s, schedule, t, k);
    OneMore(s, schedule + [e], t, k);
    OneMore(s, schedule + [e] + [e], t, k);
    OneMore(s, schedule + [e] + [e] + [e], t, k);
    assert schedule + [e, e, e, e] == schedule + [e] + [e] + [e] + [e];
  }

  lemma NothingRun(s: State)
    ensures Run(s, []) == s
  {
  }

  // cs_try_writelock does not wait for readers: after a reader has got the lock in four accesses,
  // it gets it in four, too.
  lemma TryWriteJoinsReader(threads: nat, reading: Kind) returns (schedule: seq<(nat, Kind)>)
    requires threads >= 2 && !reading.Writes()
    ensures Uses(schedule, threads, {reading, TryWrite}) && Beside(Run(Start(threads), schedule))
  {
    hide Run, FourOf;
    var s, first := Start(threads), [(0, reading), (0, reading), (0, reading), (0, reading)];
    NothingRun(s);
    FourMore(s, [], 0, reading);
    FourSteps(s, 0, reading);
    assert [] + first == first;
    var t := Run(s, first);
    FourMore(s, first, 1, TryWrite);
    FourSteps(t, 1, TryWrite);
    schedule := first + [(1, TryWrite), (1, TryWrite), (1, TryWrite), (1, TryWrite)];
    var u := Run(s, schedule);
    assert u.pcs[0] == Hold(reading) && u.pcs[1] == Hold(TryWrite);
  }

  // With two threads or more, no reader ever holds the lock beside a writer if and only if
  // cs_try_writelock is not used together with either way to read.
  lemma ReadersKeptOutIff(threads: nat, kinds: set<Kind>)
    requires threads >= 2
    ensures (forall schedule :: Uses(schedule, threads, kinds) ==> !Beside(Run(Start(threads), schedule))) <==>
            !(TryWrite in kinds && (Read in kinds || TryRead in kinds))
  {
    hide Run;
    if TryWrite in kinds && (Read in kinds || TryRead in kinds) {
      var schedule := TryWriteJoinsReader(threads, if Read in kinds then Read else TryRead);
      assert Uses(schedule, threads, kinds);
    } else {
      forall schedule | Uses(schedule, threads, kinds) ensures !Beside(Run(Start(threads), schedule)) {
        CallsUsed(threads, schedule, kinds);
        AlwaysExclusive(threads, schedule);
      }
    }
  }

  // ---------------------------------------------------------------- getting the lock

  // Thread t moves n times, wanting k whenever it is idle.
  function Turns(t: nat, k: Kind, n: nat): (r: seq<(nat, Kind)>)
    ensures |r| == n && forall e :: e in r ==> e == (t, k)
  {
    if n == 0 then [] else Turns(t, k, n - 1) + [(t, k)]
  }

  lemma OneTurn(threads: nat, schedule: seq<(nat, Kind)>, t: nat, k: Kind, n: nat)
    requires t < threads && (forall e :: e in schedule ==> e.0 < threads) && n > 0
    ensures Run(Start(threads), schedule + Turns(t, k, n)) ==
            Step(Run(Start(threads), schedule + Turns(t, k, n - 1)), t, k)
  {
    hide Run;
    assert schedule + Turns(t, k, n) == (schedule + Turns(t, k, n - 1)) + [(t, k)];
    OneMore(Start(threads), schedule + Turns(t, k, n - 1), t, k);
  }

  lemma CallsNobodyHinders(s: State, t: nat, k: Kind)
    requires t < |s.pcs| && s.pcs[t] == Idle && s.readLock == 0 && s.writeLock == 0
    ensures var u := Step(FourOf(s, t, k), t, k);
      if k == Write then u == State(0, 1, s.pcs[t := Hold(k)])
      else
        var writers := if k == TryWrite then 1 else 0;
        FourOf(s, t, k) == State(1 - writers, writers, s.pcs[t := Hold(k)])
  {
  }

  lemma UnlockingNobodyHinders(s: State, t: nat, k: Kind, wants: Kind)
    requires t < |s.pcs| && s.pcs[t] == Hold(k) && (if k.Writes() then s.writeLock == 1 else s.readLock == 1)
    ensures var u := Step(Step(Step(s, t, wants), t, wants), t, wants);
      u.pcs == s.pcs[t := Idle]
      && (if k.Writes() then u.writeLock == 0 && u.readLock == s.readLock
          else u.readLock == 0 && u.writeLock == s.writeLock)
  {
  }

  // From any reachable state in which no thread uses the lock, five accesses of cs_writelock or
  // four of any other call get it, and the three of its unlock leave both counters at zero.
  lemma IdleLockIsGot(threads: nat, schedule: seq<(nat, Kind)>, t: nat, k: Kind)
    requires t < threads && forall e :: e in schedule ==> e.0 < threads
    requires forall i :: 0 <= i < threads ==> Run(Start(threads), schedule).pcs[i] == Idle
    ensures var n := if k == Write then 5 else 4;
      && Run(Start(threads), schedule + Turns(t, k, n)).pcs == seq(threads, _ => Idle)[t := Hold(k)]
      && Run(Start(threads), schedule + Turns(t, k, n + 3)) == State(0, 0, seq(threads, _ => Idle))
  {
    hide Run, Step, FourOf;
    AlwaysExclusive(threads, schedule);
    var s := Run(Start(threads), schedule);
    assert s.pcs == seq(threads, _ => Idle);
    assert schedule + Turns(t, k, 0) == schedule;
    FourTurns(threads, schedule, t, k);
    OneTurn(threads, schedule, t, k, 5);
    CallsNobodyHinders(s, t, k);
    var n := if k == Write then 5 else 4;
    OneTurn(threads, schedule, t, k, n + 1);
    OneTurn(threads, schedule, t, k, n + 2);
    OneTurn(threads, schedule, t, k, n + 3);
    UnlockingNobodyHinders(Run(Start(threads), schedule + Turns(t, k, n)), t, k, k);
    assert seq(threads, _ => Idle)[t := Hold(k)][t := Idle] == seq(threads, _ => Idle);
  }

  lemma FourTurns(threads: nat, schedule: seq<(nat, Kind)>, t: nat, k: Kind)
    requires t < threads && forall e :: e in schedule ==> e.0 < threads
    ensures Run(Start(threads), schedule + Turns(t, k, 4)) == FourOf(Run(Start(threads), schedule), t, k)
  {
    hide Run, Step;
    assert schedule + Turns(t, k, 0) == schedule;
    OneTurn(threads, schedule, t, k, 1);
    OneTurn(threads, schedule, t, k, 2);
    OneTurn(threads, schedule, t, k, 3);
    OneTurn(threads, schedule, t, k, 4);
  }

  // A reader from its increment to its decrement
  predicate ReaderInside(pc: Pc) {
    match pc
    case Check(k) => k == Read || k == TryRead
    case Undo(k) => k == Read || k == TryRead
    case Hold(k) => k == Read || k == TryRead
    case UnlockTest(k) => k == Read || k == TryRead
    case UnlockDecrement(k) => k == Read || k == TryRead
    case _ => false
  }

  lemma {:induction false} CountedExists(pcs: seq<Pc>, writing: bool)
    requires Count(pcs, writing) > 0
    ensures exists i :: 0 <= i < |pcs| && Counted(pcs[i], writing)
    decreases |pcs|
  {
    if !Counted(pcs[0], writing) {
      CountedExists(pcs[1..], writing);
      var i :| 0 <= i < |pcs| - 1 && Counted(pcs[1..][i], writing);
      assert Counted(pcs[i + 1], writing);
    }
  }

  // A writer that waits for the readers gets the lock with its next access if and only if no
  // reader is inside; otherwise it goes on waiting.
  lemma WaitingWriterGetsItIff(threads: nat, schedule: seq<(nat, Kind)>, t: nat, k: Kind)
    requires t < threads && (forall e :: e in schedule ==> e.0 < threads)
    requires Run(Start(threads), schedule).pcs[t] == AwaitReaders
    ensures var pcs := Run(Start(threads), schedule).pcs;
      Run(Start(threads), schedule + [(t, k)]).pcs ==
        if exists i :: 0 <= i < threads && ReaderInside(pcs[i]) then pcs else pcs[t := Hold(Write)]
  {
    hide Run;
    RunKeeps(threads, schedule);
    OneMore(Start(threads), schedule, t, k);
    var s := Run(Start(threads), schedule);
    assert forall i :: 0 <= i < threads ==> (ReaderInside(s.pcs[i]) <==> Counted(s.pcs[i], false));
    if i :| 0 <= i < threads && ReaderInside(s.pcs[i]) {
      CountCovers(s.pcs, i, false);
    } else if s.readLock > 0 {
      CountedExists(s.pcs, false);
    }
  }

  // A writer from its increment to its decrement
  predicate WriterInside(pc: Pc) {
    match pc
    case Check(k) => k == Write || k == TryWrite
    case Undo(k) => k == Write || k == TryWrite
    case AwaitReaders => true
    case Hold(k) => k == Write || k == TryWrite
    case UnlockTest(k) => k == Write || k == TryWrite
    case UnlockDecrement(k) => k == Write || k == TryWrite
    case _ => false
  }

  lemma {:induction false} CountedOther(pcs: seq<Pc>, t: nat, writing: bool)
    requires t < |pcs| && Count(pcs, writing) > 1
    ensures exists i :: 0 <= i < |pcs| && i != t && Counted(pcs[i], writing)
    decreases |pcs|
  {
    if t == 0 {
      CountedExists(pcs[1..], writing);
      var i :| 0 <= i < |pcs| - 1 && Counted(pcs[1..][i], writing);
      assert Counted(pcs[i + 1], writing);
    } else if !Counted(pcs[0], writing) {
      CountedOther(pcs[1..], t - 1, writing);
      var i :| 0 <= i < |pcs| - 1 && i != t - 1 && Counted(pcs[1..][i], writing);
      assert Counted(pcs[i + 1], writing);
    }
  }

  // What the counters say in a reachable state
  lemma CountersSay(s: State, t: nat)
    requires Inv(s) && t < |s.pcs|
    ensures s.writeLock >= 0
    ensures s.writeLock > 0 <==> exists i :: 0 <= i < |s.pcs| && WriterInside(s.pcs[i])
    ensures WriterInside(s.pcs[t]) ==>
      (s.writeLock > 1 <==> exists i :: 0 <= i < |s.pcs| && i != t && WriterInside(s.pcs[i]))
    ensures ReaderInside(s.pcs[t]) ==> s.readLock > 0
  {
    assert forall i :: 0 <= i < |s.pcs| ==> (WriterInside(s.pcs[i]) <==> Counted(s.pcs[i], true));
    assert forall i :: 0 <= i < |s.pcs| ==> (ReaderInside(s.pcs[i]) <==> Counted(s.pcs[i], false));
    if i :| 0 <= i < |s.pcs| && WriterInside(s.pcs[i]) {
      CountCovers(s.pcs, i, true);
    } else if s.writeLock > 0 {
      CountedExists(s.pcs, true);
    }
    if WriterInside(s.pcs[t]) {
      if i :| 0 <= i < |s.pcs| && i != t && WriterInside(s.pcs[i]) {
        CountCoversTwo(s.pcs, if i < t then i else t, if i < t then t else i, true);
      } else if s.writeLock > 1 {
        CountedOther(s.pcs, t, true);
      }
    }
    if ReaderInside(s.pcs[t]) {
      CountCovers(s.pcs, t, false);
    }
  }

  // What each test of a counter means for the threads: a call goes on past its first test if and
  // only if no writer is inside, past its second if and only if no other writer is, and otherwise
  // takes its increment back; only the calls that try then give up. An unlock always decrements.
  lemma TestsMean(threads: nat, schedule: seq<(nat, Kind)>, t: nat, k: Kind, q: Kind)
    requires t < threads && forall e :: e in schedule ==> e.0 < threads
    ensures var pcs := Run(Start(threads), schedule).pcs;
      var next := Run(Start(threads), schedule + [(t, k)]).pcs[t];
      var tries := q == TryWrite || q == TryRead;
      var writer := exists i :: 0 <= i < threads && WriterInside(pcs[i]);
      var other := exists i :: 0 <= i < threads && i != t && WriterInside(pcs[i]);
      && (pcs[t] == Test(q) ==> next == if !writer then Increment(q) else if tries then Idle else Test(q))
      && (pcs[t] == Check(q) ==> next == if other then Undo(q) else if q == Write then AwaitReaders else Hold(q))
      && (pcs[t] == Undo(q) ==> next == if tries then Idle else Test(q))
      && (pcs[t] == UnlockTest(q) ==> next == UnlockDecrement(q))
  {
    hide Run, Inv;
    RunKeeps(threads, schedule);
    OneMore(Start(threads), schedule, t, k);
    CountersSay(Run(Start(threads), schedule), t);
  }
}
