// Choosing the readers an ECM request goes to (get_best_reader, module-stat.c).
module Selection {
  import opened Wrappers

  // ---------------------------------------------------------------- the selection loop

  // An entry of the list `selected`: a value of 0 means the reader is taken.
  datatype Cand = Cand(reader: nat, value: nat, local: bool, timedOut: bool)

  // What is left to give out; a negative number of readers has no limit.
  datatype Quota = Quota(local: nat, best: nat, fb: nat, readers: int)

  datatype Phase = Local | Primary | Fallback

  datatype Pick = Pick(index: nat, phase: Phase)

  predicate Allowed(c: Cand, localOnly: bool) { c.value > 0 && (localOnly ==> c.local) }

  // The first of the allowed candidates with the least value among the first n
  function Best(cands: seq<Cand>, localOnly: bool, n: nat): (b: nat)
    requires n <= |cands|
    ensures b <= n && (b < n ==> Allowed(cands[b], localOnly))
    ensures forall j :: 0 <= j < n && Allowed(cands[j], localOnly) ==> b < n && Worse(cands, b, j)
  {
    if n == 0 then 0
    else
      var b := Best(cands, localOnly, n - 1);
      if !Allowed(cands[n - 1], localOnly) then (if b == n - 1 then n else b)
      else if b == n - 1 || cands[n - 1].value < cands[b].value then n - 1
      else b
  }

  // Candidate j is not better than candidate b.
  predicate Worse(cands: seq<Cand>, b: nat, j: nat)
    requires b < |cands| && j < |cands|
  {
    cands[b].value < cands[j].value || (cands[b].value == cands[j].value && b <= j)
  }

  function Take(cands: seq<Cand>, b: nat): (r: seq<Cand>)
    requires b < |cands|
    ensures |r| == |cands| && forall j :: 0 <= j < |r| ==> r[j] == if j == b then cands[b].(value := 0) else cands[j]
  {
    cands[b := cands[b].(value := 0)]
  }

  function NumFree(cands: seq<Cand>): nat
    decreases |cands|
  {
    if cands == [] then 0 else NumFree(cands[..|cands| - 1]) + if cands[|cands| - 1].value > 0 then 1 else 0
  }

  lemma {:induction false} TakeLeavesFewer(cands: seq<Cand>, b: nat)
    requires b < |cands| && cands[b].value > 0
    ensures NumFree(Take(cands, b)) == NumFree(cands) - 1
    decreases |cands|
  {
    var m := |cands| - 1;
    if b < m {
      assert Take(cands, b)[..m] == Take(cands[..m], b);
      TakeLeavesFewer(cands[..m], b);
    } else {
      assert Take(cands, b)[..m] == cands[..m];
    }
  }

  function PhaseOf(q: Quota): Phase { if q.local > 0 then Local else if q.best > 0 then Primary else Fallback }

  // A timed-out reader does not use up its quota, and a fallback does not count as a reader.
  function Spend(q: Quota, c: Cand): Quota
  {
    var dec := if c.timedOut then 0 else 1;
    if q.local > 0 then q.(local := q.local - dec, readers := q.readers - 1)
    else if q.best > 0 then q.(best := q.best - dec, readers := q.readers - 1)
    else if q.fb > 0 then q.(fb := q.fb - dec)
    else q
  }

  function Select(cands: seq<Cand>, q: Quota): (r: seq<Pick>)
    ensures forall k :: 0 <= k < |r| ==> r[k].index < |cands|
    decreases NumFree(cands)
  {
    var b := Best(cands, q.local > 0, |cands|);
    if q.readers == 0 || b == |cands| || (q.local == 0 && q.best == 0 && q.fb == 0) then []
    else
      TakeLeavesFewer(cands, b);
      [Pick(b, PhaseOf(q))] + Select(Take(cands, b), Spend(q, cands[b]))
  }

  // Every statement about a selection is by induction on its first pick.
  lemma SelectUnfold(cands: seq<Cand>, q: Quota)
    ensures Select(cands, q) == [] || (Select(cands, q)[0].index < |cands| &&
      var b := Select(cands, q)[0].index;
      && b == Best(cands, q.local > 0, |cands|) && Allowed(cands[b], q.local > 0)
      && (q.local > 0 || q.best > 0 || q.fb > 0) && q.readers != 0
      && NumFree(Take(cands, b)) == NumFree(cands) - 1
      && Select(cands, q) == [Pick(b, PhaseOf(q))] + Select(Take(cands, b), Spend(q, cands[b])))
  {
    var b := Best(cands, q.local > 0, |cands|);
    if b < |cands| {
      TakeLeavesFewer(cands, b);
    }
  }

  // No candidate is picked twice, and none that was taken before.
  lemma {:induction false} NoneTwice(cands: seq<Cand>, q: Quota)
    ensures forall k :: 0 <= k < |Select(cands, q)| ==> cands[Select(cands, q)[k].index].value > 0
    ensures forall a, b :: 0 <= a < b < |Select(cands, q)| ==> Select(cands, q)[a].index != Select(cands, q)[b].index
    decreases NumFree(cands)
  {
    hide Best, Select, NumFree;
    SelectUnfold(cands, q);
    if Select(cands, q) != [] {
      var b := Select(cands, q)[0].index;
      NoneTwice(Take(cands, b), Spend(q, cands[b]));
    }
  }

  function Rank(p: Phase): nat { match p case Local => 0 case Primary => 1 case Fallback => 2 }

  // Local readers come first, then the other primary ones, then the fallbacks; only local readers
  // are picked while the local quota lasts.
  lemma {:induction false} PhasesInOrder(cands: seq<Cand>, q: Quota)
    ensures forall k :: 0 <= k < |Select(cands, q)| ==> Rank(PhaseOf(q)) <= Rank(Select(cands, q)[k].phase)
    ensures forall a, b :: 0 <= a < b < |Select(cands, q)| ==>
      Rank(Select(cands, q)[a].phase) <= Rank(Select(cands, q)[b].phase)
    ensures forall k :: 0 <= k < |Select(cands, q)| && Select(cands, q)[k].phase == Local ==>
      cands[Select(cands, q)[k].index].local
    decreases NumFree(cands)
  {
    hide Best, Select, NumFree;
    SelectUnfold(cands, q);
    if Select(cands, q) != [] {
      var b := Select(cands, q)[0].index;
      PhasesInOrder(Take(cands, b), Spend(q, cands[b]));
    }
  }

  // Within the local phase, and from there on, the picks are the best in order: each is at least
  // as good as every later one, and as every candidate of its kind that is never picked.
  lemma {:induction false} BestFirst(cands: seq<Cand>, q: Quota, a: nat, j: nat)
    requires a < |Select(cands, q)| && j < |cands| && cands[j].value > 0
    requires forall k :: 0 <= k < a ==> Select(cands, q)[k].index != j
    requires Select(cands, q)[a].phase == Local ==> cands[j].local
    ensures Worse(cands, Select(cands, q)[a].index, j)
    decreases a
  {
    hide Best, Select, NumFree;
    SelectUnfold(cands, q);
    var picks, b := Select(cands, q), Select(cands, q)[0].index;
    if a > 0 {
      var next := Take(cands, b);
      NoneTwice(cands, q);
      assert forall k :: 0 <= k < a ==> Select(next, Spend(q, cands[b]))[k] == picks[k + 1];
      BestFirst(next, Spend(q, cands[b]), a - 1, j);
      assert Worse(next, picks[a].index, j);
    }
  }

  // How many picks of a phase are of readers that have not timed out
  function NumLive(cands: seq<Cand>, picks: seq<Pick>, p: Phase): nat
    requires forall k :: 0 <= k < |picks| ==> picks[k].index < |cands|
    decreases |picks|
  {
    if picks == [] then 0
    else (if picks[0].phase == p && !cands[picks[0].index].timedOut then 1 else 0) + NumLive(cands, picks[1..], p)
  }

  function NumOf(picks: seq<Pick>, p: Phase): nat
    decreases |picks|
  {
    if picks == [] then 0 else (if picks[0].phase == p then 1 else 0) + NumOf(picks[1..], p)
  }

  lemma {:induction false} NumLiveSame(cands: seq<Cand>, b: nat, picks: seq<Pick>, p: Phase)
    requires b < |cands| && forall k :: 0 <= k < |picks| ==> picks[k].index < |cands|
    ensures NumLive(Take(cands, b), picks, p) == NumLive(cands, picks, p)
    decreases |picks|
  {
    if picks != [] {
      NumLiveSame(cands, b, picks[1..], p);
    }
  }

  // No quota is overdrawn.
  lemma {:induction false} WithinQuota(cands: seq<Cand>, q: Quota)
    ensures NumLive(cands, Select(cands, q), Local) <= q.local
    ensures NumLive(cands, Select(cands, q), Primary) <= q.best
    ensures NumLive(cands, Select(cands, q), Fallback) <= q.fb
    ensures q.readers >= 0 ==> NumOf(Select(cands, q), Local) + NumOf(Select(cands, q), Primary) <= q.readers
    decreases NumFree(cands)
  {
    hide Best, Select, NumFree;
    SelectUnfold(cands, q);
    var picks := Select(cands, q);
    if picks != [] {
      var b := picks[0].index;
      WithinQuota(Take(cands, b), Spend(q, cands[b]));
      assert picks[1..] == Select(Take(cands, b), Spend(q, cands[b]));
      NumLiveSame(cands, b, picks[1..], Local);
      NumLiveSame(cands, b, picks[1..], Primary);
      NumLiveSame(cands, b, picks[1..], Fallback);
    }
  }

  // ---------------------------------------------------------------- when the loop ends

  // The local candidates that are free, or those of them that have not timed out
  function NumLocals(cands: seq<Cand>, live: bool): (n: nat)
    ensures n == 0 && !live ==> forall j :: 0 <= j < |cands| ==> !Allowed(cands[j], true)
    ensures n > 0 ==> exists j :: 0 <= j < |cands| && Allowed(cands[j], true)
    decreases |cands|
  {
    if cands == [] then 0
    else
      var c := cands[|cands| - 1];
      var n := NumLocals(cands[..|cands| - 1], live);
      n + if Allowed(c, true) && !(live && c.timedOut) then 1 else 0
  }

  lemma {:induction false} TakeLocal(cands: seq<Cand>, b: nat, live: bool)
    requires b < |cands| && Allowed(cands[b], true)
    ensures NumLocals(Take(cands, b), live) == NumLocals(cands, live) - if live && cands[b].timedOut then 0 else 1
    decreases |cands|
  {
    var m := |cands| - 1;
    if b < m {
      assert Take(cands, b)[..m] == Take(cands[..m], b);
      TakeLocal(cands[..m], b, live);
    } else {
      assert Take(cands, b)[..m] == cands[..m];
    }
  }

  lemma {:induction false} NoneFree(cands: seq<Cand>)
    requires forall j :: 0 <= j < |cands| ==> cands[j].value == 0
    ensures NumFree(cands) == 0
    decreases |cands|
  {
    if cands != [] {
      NoneFree(cands[..|cands| - 1]);
    }
  }

  // The primary picks have used up the limit on readers, if there is one.
  predicate LimitReached(picks: seq<Pick>, readers: int) {
    readers >= 0 && NumOf(picks, Local) + NumOf(picks, Primary) == readers
  }

  // A local quota that the live local candidates can meet leaves every candidate picked, every
  // quota used up, or the limit on readers reached. One that they cannot meet, because of local
  // readers that timed out, ends the loop there at the latest: no reader but local ones is picked,
  // and all of these unless the limit comes first.
  lemma {:induction false} LocalQuotaDecides(cands: seq<Cand>, q: Quota)
    ensures q.local <= NumLocals(cands, true) ==>
      |Select(cands, q)| == NumFree(cands) || LimitReached(Select(cands, q), q.readers) ||
      (NumLive(cands, Select(cands, q), Local) == q.local && NumLive(cands, Select(cands, q), Primary) == q.best &&
       NumLive(cands, Select(cands, q), Fallback) == q.fb)
    ensures q.local > NumLocals(cands, true) ==>
      && NumOf(Select(cands, q), Local) == |Select(cands, q)|
      && (|Select(cands, q)| == NumLocals(cands, false) || |Select(cands, q)| == q.readers)
    decreases NumFree(cands)
  {
    hide Best, NumFree, NumLocals;
    SelectUnfold(cands, q);
    var picks, b := Select(cands, q), Best(cands, q.local > 0, |cands|);
    if picks == [] {
      if b == |cands| && q.local == 0 {
        NoneFree(cands);
      }
      LocalsNone(cands);
    } else {
      var next, r := Take(cands, b), Spend(q, cands[b]);
      assert picks[1..] == Select(next, r);
      LocalQuotaDecides(next, r);
      NumLiveSame(cands, b, picks[1..], Local);
      NumLiveSame(cands, b, picks[1..], Primary);
      NumLiveSame(cands, b, picks[1..], Fallback);
      if q.local > 0 {
        TakeLocal(cands, b, true);
        TakeLocal(cands, b, false);
      }
    }
  }

  lemma LocalsNone(cands: seq<Cand>)
    ensures (forall j :: 0 <= j < |cands| ==> !Allowed(cands[j], true)) ==>
      NumLocals(cands, true) == 0 && NumLocals(cands, false) == 0
  {
  }

  // ---------------------------------------------------------------- the candidates

  datatype Mode = Off | Fastest | Oldest | LeastUsed

  datatype Stat = Stat(rc: int, ecmCount: int, timeAvg: nat)

  // A matching reader; lastMs is the time since nulltime that it was last used, connected whether
  // it has a client, pending what that client waits for.
  datatype Reader = Reader(
    weight: int, network: bool, hasService: bool, connected: bool, available: bool, pending: int,
    usage: nat, lastMs: int, stat: Option<Stat>)

  datatype Config = Config(
    mode: Mode, preferLocal: bool, maxEcms: int, minEcms: int, retryLimit: int, nbest: nat, nfb: nat, nreaders: nat)

  // reset_stat, as far as matching readers have statistics
  function ResetStat(r: Reader): Reader {
    match r.stat
    case Some(st) =>
      if r.connected then r.(stat := Some(st.(rc := 0, ecmCount := if st.ecmCount > 0 then 1 else st.ecmCount))) else r
    case None => r
  }

  // The value by the balancing mode alone, with C's truncating division of numbers not negative
  function Rated(mode: Mode, r: Reader, st: Stat): int {
    var weight := if r.weight <= 0 then 100 else r.weight;
    match mode
    case Fastest => st.timeAvg * 100 / weight
    case Oldest => r.lastMs
    case LeastUsed => r.usage * 100 / weight
    case Off => 0
  }

  // The value with the reader's state and its client's requests taken into account
  function Loaded(current: int, r: Reader): (v: nat)
    ensures v >= 1
  {
    var busy := if r.available then current else current * 2;
    var queued := if r.connected && r.pending != 0 then busy * r.pending else busy;
    if queued < 1 then 1 else queued
  }

  function Value(mode: Mode, r: Reader, st: Stat): (v: nat)
    ensures v >= 1
  {
    Loaded(Rated(mode, r, st), r)
  }

  // What a mode compares
  function Measure(mode: Mode, r: Reader, st: Stat): int {
    match mode
    case Fastest => st.timeAvg
    case Oldest => r.lastMs
    case LeastUsed => r.usage
    case Off => 0
  }

  lemma {:induction false} OneMoreTimes(w: int, q: int, p: int)
    requires 0 < w && q < p
    ensures w * q + w <= w * p
    decreases p - q
  {
    if q + 1 < p {
      OneMoreTimes(w, q, p - 1);
      assert w * p == w * (p - 1) + w;
    } else {
      assert w * p == w * (q + 1) == w * q + w;
    }
  }

  lemma DivideMonotone(a: nat, b: nat, w: int)
    requires a <= b && 0 < w
    ensures a / w <= b / w
  {
    var p, q := a / w, b / w;
    assert a == w * p + a % w && b == w * q + b % w;
    if q < p {
      OneMoreTimes(w, q, p);
      assert false;
    }
  }

  lemma MultiplyMonotone(a: int, b: int, p: nat)
    requires a <= b
    ensures a * p <= b * p
  {
  }

  lemma DivideAntitone(a: nat, w: int, v: int)
    requires 0 < w <= v
    ensures a / v <= a / w
  {
    var p, q := a / v, a / w;
    assert a == v * p + a % v && a == w * q + a % w;
    MultiplyMonotone(w, v, p);
    if q < p {
      OneMoreTimes(w, q, p);
      assert false;
    }
  }

  lemma LoadedMonotone(x: int, y: int, r: Reader, s: Reader)
    requires x <= y && r.available == s.available && r.connected == s.connected && r.pending == s.pending >= 0
    ensures Loaded(x, r) <= Loaded(y, s)
  {
    MultiplyMonotone(x, y, r.pending);
    MultiplyMonotone(x * 2, y * 2, r.pending);
  }

  // Values order readers: of two alike in weight and load, the one with the smaller measure is
  // no worse.
  lemma SmallerMeasureIsBetter(mode: Mode, r: Reader, s: Reader, a: Stat, b: Stat)
    requires r.weight == s.weight && r.available == s.available && r.connected == s.connected
    requires r.pending == s.pending >= 0 && Measure(mode, r, a) <= Measure(mode, s, b)
    ensures Value(mode, r, a) <= Value(mode, s, b)
  {
    hide Loaded;
    var w := if r.weight <= 0 then 100 else r.weight;
    match mode {
      case Fastest => DivideMonotone(a.timeAvg * 100, b.timeAvg * 100, w);
      case LeastUsed => DivideMonotone(r.usage * 100, s.usage * 100, w);
      case Oldest =>
      case Off =>
    }
    LoadedMonotone(Rated(mode, r, a), Rated(mode, s, b), r, s);
  }

  lemma PendingNeverHelps(x: int, p: nat)
    requires p > 0
    ensures x > 0 ==> x <= x * p
  {
  }

  // Being unavailable or having requests pending never improves a value, and a larger weight
  // never worsens it.
  lemma LoadNeverHelps(mode: Mode, r: Reader, st: Stat, weight: int)
    requires r.pending >= 0 && 0 < r.weight <= weight
    ensures Value(mode, r.(available := true, pending := 0), st) <= Value(mode, r, st)
    ensures Value(mode, r.(weight := weight), st) <= Value(mode, r, st)
  {
    var x := Rated(mode, r, st);
    if r.pending > 0 {
      PendingNeverHelps(x, r.pending);
      PendingNeverHelps(x * 2, r.pending);
    }
    DivideAntitone(st.timeAvg * 100, r.weight, weight);
    DivideAntitone(r.usage * 100, r.weight, weight);
    LoadedMonotone(Rated(mode, r.(weight := weight), st), x, r.(weight := weight), r);
  }

  // What the first loop builds up: readers whose statistics it resets on the way, those chosen to
  // get statistics first, and the candidates.
  datatype Gather = Gather(readers: seq<Reader>, result: seq<nat>, cands: seq<Cand>, nlocal: nat, left: int)

  datatype Fate = NoStat | ResetAll | FewEcms | Candidate | Plain | Unfit

  function FateOf(cfg: Config, r: Reader): Fate {
    match r.stat
    case None => NoStat
    case Some(st) =>
      if st.ecmCount < 0 || (st.ecmCount > cfg.maxEcms && st.timeAvg > cfg.retryLimit) then ResetAll
      else if st.rc == 0 && st.ecmCount < cfg.minEcms then FewEcms
      else if st.rc != 0 && !r.hasService then Unfit
      else if cfg.mode == Off then Plain
      else Candidate
  }

  function CandOf(cfg: Config, i: nat, r: Reader): Cand
    requires r.stat.Some?
  {
    Cand(i, Value(cfg.mode, r, r.stat.value), !r.network, r.stat.value.rc >= 5)
  }

  function Consider(cfg: Config, i: nat, g: Gather): Gather
    requires i < |g.readers|
  {
    var r := g.readers[i];
    var local := if cfg.preferLocal && !r.network then 1 else 0;
    var kept := g.(result := g.result + [i], left := g.left - 1);
    if g.left == 0 then g
    else
      match FateOf(cfg, r)
      case NoStat => kept
      case ResetAll => kept.(readers := seq(|g.readers|, j requires 0 <= j < |g.readers| => ResetStat(g.readers[j])))
      case FewEcms => kept
      case Plain => kept.(nlocal := g.nlocal + local)
      case Candidate => g.(cands := g.cands + [CandOf(cfg, i, r)], nlocal := g.nlocal + local)
      case Unfit => g
  }

  function GatherFirst(cfg: Config, readers: seq<Reader>, n: nat): (g: Gather)
    requires n <= |readers|
    ensures |g.readers| == |readers|
  {
    if n == 0 then Gather(readers, [], [], 0, if cfg.nreaders == 0 then -1 else cfg.nreaders)
    else Consider(cfg, n - 1, GatherFirst(cfg, readers, n - 1))
  }

  // Local readers come out of the primary quota.
  function Quotas(cfg: Config, g: Gather): Quota {
    if g.nlocal > cfg.nbest then Quota(cfg.nbest, 0, cfg.nfb, g.left)
    else Quota(g.nlocal, cfg.nbest - g.nlocal, cfg.nfb, g.left)
  }

  function ReadersOf(cands: seq<Cand>, picks: seq<Pick>): (r: seq<nat>)
    requires forall k :: 0 <= k < |picks| ==> picks[k].index < |cands|
    ensures |r| == |picks|
  {
    seq(|picks|, k requires 0 <= k < |picks| => cands[picks[k].index].reader)
  }

  // The readers to ask, up to the reopening of others
  function BestReaders(cfg: Config, readers: seq<Reader>): seq<nat> {
    var g := GatherFirst(cfg, readers, |readers|);
    g.result + ReadersOf(g.cands, Select(g.cands, Quotas(cfg, g)))
  }

  function FirstFallback(picks: seq<Pick>): (f: nat)
    ensures f <= |picks| && (f < |picks| ==> picks[f].phase == Fallback)
    ensures forall k :: 0 <= k < f ==> picks[k].phase != Fallback
    decreases |picks|
  {
    if picks == [] then 0
    else
      var f := FirstFallback(picks[..|picks| - 1]);
      if f < |picks| - 1 || picks[|picks| - 1].phase == Fallback then f else |picks|
  }

  // Where er->fallback points in the list of readers to ask
  function FallbackAt(cfg: Config, readers: seq<Reader>): Option<nat> {
    var g := GatherFirst(cfg, readers, |readers|);
    var picks := Select(g.cands, Quotas(cfg, g));
    var f := FirstFallback(picks);
    if f < |picks| then Some(|g.result| + f) else None
  }

  // The fallbacks are the readers from that place on, and no others.
  lemma FallbacksAreLast(cfg: Config, readers: seq<Reader>, k: nat)
    requires var g := GatherFirst(cfg, readers, |readers|); k < |Select(g.cands, Quotas(cfg, g))|
    ensures var g := GatherFirst(cfg, readers, |readers|);
      Select(g.cands, Quotas(cfg, g))[k].phase == Fallback <==>
      FallbackAt(cfg, readers).Some? && FallbackAt(cfg, readers).value <= |g.result| + k
  {
    hide Select, GatherFirst, FirstFallback;
    var g := GatherFirst(cfg, readers, |readers|);
    PhasesInOrder(g.cands, Quotas(cfg, g));
    var picks := Select(g.cands, Quotas(cfg, g));
    var f := FirstFallback(picks);
    if f < k {
      assert Rank(picks[f].phase) <= Rank(picks[k].phase);
    }
  }

  ghost predicate Ascending(s: seq<nat>, bound: nat) {
    (forall i, j :: 0 <= i < j < |s| ==> s[i] < s[j]) && (forall i :: 0 <= i < |s| ==> s[i] < bound)
  }

  ghost predicate GatheredWell(cfg: Config, g: Gather, n: nat) {
    && Ascending(g.result, n)
    && (forall i, j :: 0 <= i < j < |g.cands| ==> g.cands[i].reader < g.cands[j].reader)
    && (forall i :: 0 <= i < |g.cands| ==>
      g.cands[i].reader < n && g.cands[i].reader !in g.result && g.cands[i].value > 0)
    && g.left == (if cfg.nreaders == 0 then -1 else cfg.nreaders) - |g.result|
    && (cfg.mode != Off ==> g.nlocal == if cfg.preferLocal then NumLocals(g.cands, false) else 0)
    && (cfg.mode == Off ==> g.cands == [])
  }

  lemma NumLocalsStep(cands: seq<Cand>, c: Cand)
    requires c.value > 0
    ensures NumLocals(cands + [c], false) == NumLocals(cands, false) + if c.local then 1 else 0
  {
    assert (cands + [c])[..|cands|] == cands;
  }

  lemma ConsiderKeeps(cfg: Config, i: nat, g: Gather)
    requires i < |g.readers| && GatheredWell(cfg, g, i)
    ensures GatheredWell(cfg, Consider(cfg, i, g), i + 1)
  {
    hide NumLocals, Value;
    var r := g.readers[i];
    if FateOf(cfg, r) == Candidate {
      NumLocalsStep(g.cands, CandOf(cfg, i, r));
    }
  }

  lemma {:induction false} GatherWell(cfg: Config, readers: seq<Reader>, n: nat)
    requires n <= |readers|
    ensures GatheredWell(cfg, GatherFirst(cfg, readers, n), n)
  {
    hide GatheredWell, Consider;
    if n == 0 {
      GatherNothing(cfg, readers);
    } else {
      GatherWell(cfg, readers, n - 1);
      ConsiderKeeps(cfg, n - 1, GatherFirst(cfg, readers, n - 1));
    }
  }

  lemma GatherNothing(cfg: Config, readers: seq<Reader>)
    ensures GatheredWell(cfg, GatherFirst(cfg, readers, 0), 0)
  {
  }

  lemma QuotientUnique(w: int, m: int, x: int, y: int)
    requires 0 < w && w * x <= m < w * x + w && w * y <= m < w * y + w
    ensures x == y
  {
    if x < y {
      OneMoreTimes(w, x, y);
    } else if y < x {
      OneMoreTimes(w, y, x);
    }
  }

  lemma QuotientIs(w: int, m: int, x: int)
    requires 0 < w && w * x <= m < w * x + w
    ensures m / w == x
  {
    assert m == w * (m / w) + m % w;
    QuotientUnique(w, m, m / w, x);
  }

  // The value of a reader: its measure in hundredths of its weight, of 100 if that is not
  // positive; twice that for a reader that is not available, times the requests its client waits
  // for if there are any, and 1 at least. The time of last use is not weighed.
  lemma ValueIs(mode: Mode, r: Reader, st: Stat, w: int, x: int)
    requires mode != Off && w == if r.weight > 0 then r.weight else 100
    requires mode == Oldest ==> x == r.lastMs
    requires mode == Fastest ==> w * x <= 100 * st.timeAvg < w * x + w
    requires mode == LeastUsed ==> w * x <= 100 * r.usage < w * x + w
    ensures var queued := if r.connected && r.pending != 0 then r.pending else 1;
      var v := (if r.available then x else x + x) * queued;
      Value(mode, r, st) == if v < 1 then 1 else v
  {
    assert Rated(mode, r, st) == x by {
      hide Value, Loaded;
      var m := if mode == Fastest then st.timeAvg * 100 else r.usage * 100;
      if mode != Oldest {
        QuotientIs(w, m, x);
      }
    }
    hide Rated;
  }

  predicate Listed(g: Gather, c: Cand) { exists k :: 0 <= k < |g.cands| && g.cands[k] == c }

  lemma ConsiderLeaves(cfg: Config, n: nat, g: Gather, i: nat)
    requires n < |g.readers| && i != n
    ensures i in Consider(cfg, n, g).result <==> i in g.result
    ensures forall c: Cand :: c.reader == i ==> (Listed(Consider(cfg, n, g), c) <==> Listed(g, c))
  {
    hide Value, FateOf;
    var after := Consider(cfg, n, g);
    assert g.cands <= after.cands;
    forall c: Cand | c.reader == i && Listed(g, c) ensures Listed(after, c) {
      var k :| 0 <= k < |g.cands| && g.cands[k] == c;
      assert after.cands[k] == c;
    }
  }

  lemma CandidateKnown(cfg: Config, r: Reader)
    requires FateOf(cfg, r) == Candidate
    ensures r.stat.Some?
  {
  }

  lemma EntersNow(cfg: Config, readers: seq<Reader>, i: nat)
    requires i < |readers|
    ensures var g, after := GatherFirst(cfg, readers, i), GatherFirst(cfg, readers, i + 1);
      && (i in after.result <==> g.left != 0 && FateOf(cfg, g.readers[i]) !in {Candidate, Unfit})
      && forall c: Cand :: c.reader == i ==> (Listed(after, c) <==>
           && g.left != 0 && FateOf(cfg, g.readers[i]) == Candidate
           && g.readers[i].stat.Some? && c == CandOf(cfg, i, g.readers[i]))
  {
    GatherWell(cfg, readers, i);
    hide FateOf, Value, NumLocals;
    var g, after := GatherFirst(cfg, readers, i), GatherFirst(cfg, readers, i + 1);
    if g.left != 0 && FateOf(cfg, g.readers[i]) == Candidate {
      assert g.readers[i].stat.Some? by { CandidateKnown(cfg, g.readers[i]); }
      assert after.cands[|g.cands|] == CandOf(cfg, i, g.readers[i]);
    }
  }

  // What becomes of reader i, by its statistics when its turn comes. It is asked at once, to get
  // new ones, if the number of requests is negative, above the most with too long a time, or
  // below the least without an error, and in every case it could be asked when no balancing is
  // done. It is a candidate otherwise, unless its last request failed and it lacks the service.
  lemma {:induction false} EntersIff(cfg: Config, readers: seq<Reader>, n: nat, i: nat, r: Reader, st: Stat)
    requires i < n <= |readers| && r == GatherFirst(cfg, readers, i).readers[i]
    requires GatherFirst(cfg, readers, i).left != 0 && r.stat == Some(st)
    ensures i in GatherFirst(cfg, readers, n).result <==>
      || st.ecmCount < 0 || (st.ecmCount > cfg.maxEcms && st.timeAvg > cfg.retryLimit)
      || (st.rc == 0 && st.ecmCount < cfg.minEcms)
      || (cfg.mode == Off && (st.rc == 0 || r.hasService))
    ensures forall c: Cand :: c.reader == i && Listed(GatherFirst(cfg, readers, n), c) ==>
      c == Cand(i, Value(cfg.mode, r, st), !r.network, 5 <= st.rc)
    ensures Listed(GatherFirst(cfg, readers, n), Cand(i, Value(cfg.mode, r, st), !r.network, 5 <= st.rc)) <==>
      && cfg.mode != Off && 0 <= st.ecmCount && (st.ecmCount <= cfg.maxEcms || st.timeAvg <= cfg.retryLimit)
      && (st.rc == 0 ==> cfg.minEcms <= st.ecmCount) && (st.rc != 0 ==> r.hasService)
    decreases n
  {
    hide Value;
    var g := GatherFirst(cfg, readers, n - 1);
    if i < n - 1 {
      hide Consider;
      EntersIff(cfg, readers, n - 1, i, r, st);
      ConsiderLeaves(cfg, n - 1, g, i);
    } else {
      hide Consider, GatherFirst;
      EntersNow(cfg, readers, i);
    }
  }

  // A reader that nothing is known of is asked, so that there will be statistics; none is asked
  // or listed once the limit is reached.
  lemma {:induction false} UnknownIsAsked(cfg: Config, readers: seq<Reader>, n: nat, i: nat)
    requires i < n <= |readers|
    requires var g := GatherFirst(cfg, readers, i); g.left == 0 || g.readers[i].stat == None
    ensures i in GatherFirst(cfg, readers, n).result <==> GatherFirst(cfg, readers, i).left != 0
    ensures forall c: Cand :: c.reader == i ==> !Listed(GatherFirst(cfg, readers, n), c)
    decreases n
  {
    hide Value;
    var g := GatherFirst(cfg, readers, n - 1);
    if i < n - 1 {
      hide Consider;
      UnknownIsAsked(cfg, readers, n - 1, i);
      ConsiderLeaves(cfg, n - 1, g, i);
    } else {
      hide Consider, GatherFirst;
      EntersNow(cfg, readers, i);
    }
  }

  // No reader is asked twice, and none that does not match.
  lemma EachReaderOnce(cfg: Config, readers: seq<Reader>)
    ensures forall i :: 0 <= i < |BestReaders(cfg, readers)| ==> BestReaders(cfg, readers)[i] < |readers|
    ensures forall i, j :: 0 <= i < j < |BestReaders(cfg, readers)| ==>
      BestReaders(cfg, readers)[i] != BestReaders(cfg, readers)[j]
  {
    hide Select, Consider, NumLocals;
    GatherWell(cfg, readers, |readers|);
    var g := GatherFirst(cfg, readers, |readers|);
    var q := Quotas(cfg, g);
    NoneTwice(g.cands, q);
    var picks, chosen := Select(g.cands, q), ReadersOf(g.cands, Select(g.cands, q));
    forall i, j | 0 <= i < j < |chosen| ensures chosen[i] != chosen[j] {
      var a, b := picks[i].index, picks[j].index;
      assert a < b ==> g.cands[a].reader < g.cands[b].reader;
      assert b < a ==> g.cands[b].reader < g.cands[a].reader;
    }
  }

  // Local readers are preferred, with as many primary readers to pick as cfg.nbest says: other
  // readers are considered if and only if enough of the local ones answered in time.
  lemma LocalReadersDecide(cfg: Config, readers: seq<Reader>)
    requires cfg.mode != Off && cfg.preferLocal
    ensures var g := GatherFirst(cfg, readers, |readers|);
      var q, locals, live := Quotas(cfg, g), NumLocals(g.cands, false), NumLocals(g.cands, true);
      var picks := Select(g.cands, q);
      && (locals > live && live < cfg.nbest ==>
            NumOf(picks, Local) == |picks| && (|picks| == locals || |picks| == g.left))
      && (locals <= live || live >= cfg.nbest ==>
            |picks| == NumFree(g.cands) || LimitReached(picks, g.left) ||
            (NumLive(g.cands, picks, Local) + NumLive(g.cands, picks, Primary) == cfg.nbest &&
             NumLive(g.cands, picks, Fallback) == cfg.nfb))
  {
    hide Select, Consider, NumLocals, NumFree;
    GatherWell(cfg, readers, |readers|);
    var g := GatherFirst(cfg, readers, |readers|);
    LocalQuotaDecides(g.cands, Quotas(cfg, g));
    LiveAmongLocals(g.cands);
  }

  lemma {:induction false} LiveAmongLocals(cands: seq<Cand>)
    ensures NumLocals(cands, true) <= NumLocals(cands, false)
    decreases |cands|
  {
    if cands != [] {
      LiveAmongLocals(cands[..|cands| - 1]);
    }
  }

  // ---------------------------------------------------------------- the calls, in place

  // The inner loop: the best of the candidates
  method FindBest(cands: array<Cand>, nlocal: nat) returns (b: nat)
    ensures b == Best(cands[..], nlocal > 0, cands.Length)
  {
    b := cands.Length;
    for n := 0 to cands.Length
      invariant b == if Best(cands[..], nlocal > 0, n) == n then cands.Length else Best(cands[..], nlocal > 0, n)
    {
      if !(nlocal > 0 && !cands[n].local) && cands[n].value > 0 &&
          (b == cands.Length || cands[n].value < cands[b].value) {
        b := n;
      }
    }
  }

  method TakeAt(cands: array<Cand>, b: nat)
    requires b < cands.Length
    modifies cands
    ensures cands[..] == Take(old(cands[..]), b)
  {
    cands[b] := cands[b].(value := 0);
  }

  // One turn of the selection loop; None ends it.
  method PickOne(cands: array<Cand>, q: Quota) returns (pick: Option<Pick>, left: Quota)
    requires q.readers != 0
    modifies cands
    ensures pick == None ==> Select(old(cands[..]), q) == []
    ensures pick.Some? ==> Select(old(cands[..]), q) == [pick.value] + Select(cands[..], left)
    ensures NumFree(cands[..]) + (if pick.Some? then 1 else 0) <= NumFree(old(cands[..]))
  {
    hide Best, NumFree;
    ghost var was := cands[..];
    var b := FindBest(cands, q.local);
    if b == cands.Length {
      return None, q;
    }
    TakeLeavesFewer(was, b);
    var c := cands[b];
    TakeAt(cands, b);
    left := Spend(q, c);
    if q.local > 0 {
      pick := Some(Pick(b, Local));
    } else if q.best > 0 {
      pick := Some(Pick(b, Primary));
    } else if q.fb > 0 {
      pick := Some(Pick(b, Fallback));
    } else {
      pick := None;
    }
  }

  // The selection loop
  method SelectReaders(cands: array<Cand>, q: Quota) returns (picks: seq<Pick>)
    modifies cands
    ensures picks == Select(old(cands[..]), q)
  {
    hide Best, NumFree, Select;
    picks := [];
    var left := q;
    ghost var all := Select(cands[..], q);
    var going := true;
    while going && left.readers != 0
      invariant if going then all == picks + Select(cands[..], left) else all == picks
      decreases NumFree(cands[..]), going
    {
      var pick: Option<Pick>;
      pick, left := PickOne(cands, left);
      match pick {
        case Some(p) => picks := picks + [p];
        case None => going := false;
      }
    }
    if going {
      SelectNothing(cands[..], left);
    }
  }

  lemma SelectNothing(cands: seq<Cand>, q: Quota)
    requires q.readers == 0
    ensures Select(cands, q) == []
  {
  }

  // One turn of the loop over er->matching_rdr
  method ConsiderReader(
      cfg: Config, i: nat, readers: array<Reader>, ghost was: Gather,
      result: seq<nat>, cands: seq<Cand>, nlocal: nat, left: int)
    returns (result': seq<nat>, cands': seq<Cand>, nlocal': nat, left': int)
    requires i < readers.Length && left != 0 && was == Gather(readers[..], result, cands, nlocal, left)
    modifies readers
    ensures Gather(readers[..], result', cands', nlocal', left') == Consider(cfg, i, was)
  {
    hide Value;
    result', cands', nlocal', left' := result, cands, nlocal, left;
    var r := readers[i];
    if r.stat == None {
      result', left' := result + [i], left - 1;
      return;
    }
    var st := r.stat.value;
    if st.ecmCount < 0 || (st.ecmCount > cfg.maxEcms && st.timeAvg > cfg.retryLimit) {
      for j := 0 to readers.Length
        invariant forall k :: 0 <= k < readers.Length ==>
          readers[k] == if k < j then ResetStat(old(readers[k])) else old(readers[k])
      {
        readers[j] := ResetStat(readers[j]);
      }
      result', left' := result + [i], left - 1;
      return;
    }
    if st.rc == 0 && st.ecmCount < cfg.minEcms {
      result', left' := result + [i], left - 1;
      return;
    }
    if st.rc == 0 || r.hasService {
      if cfg.preferLocal && !r.network {
        nlocal' := nlocal + 1;
      }
      if cfg.mode == Off {
        result', left' := result + [i], left - 1;
        return;
      }
      cands' := cands + [CandOf(cfg, i, r)];
    }
  }

  // get_best_reader from the loop over er->matching_rdr to the end of the selection loop
  method GetBestReader(cfg: Config, readers: array<Reader>) returns (best: seq<nat>, fallback: Option<nat>)
    modifies readers
    ensures best == BestReaders(cfg, old(readers[..])) && fallback == FallbackAt(cfg, old(readers[..]))
  {
    hide Consider, Select, FirstFallback;
    ghost var was := readers[..];
    var result: seq<nat>, cands: seq<Cand>, nlocal: nat := [], [], 0;
    var left: int := if cfg.nreaders == 0 then -1 else cfg.nreaders;
    for i := 0 to readers.Length
      invariant Gather(readers[..], result, cands, nlocal, left) == GatherFirst(cfg, was, i)
    {
      ghost var g := GatherFirst(cfg, was, i);
      if left == 0 {
        NothingLeft(cfg, i, g);
      } else {
        result, cands, nlocal, left := ConsiderReader(cfg, i, readers, g, result, cands, nlocal, left);
      }
    }
    var nbest := cfg.nbest;
    if nlocal > nbest {
      nlocal := nbest;
      nbest := 0;
    } else {
      nbest := nbest - nlocal;
    }
    var selected := new Cand[|cands|](i requires 0 <= i < |cands| => cands[i]);
    assert selected[..] == cands;
    var picks := SelectReaders(selected, Quota(nlocal, nbest, cfg.nfb, left));
    var chosen := seq(|picks|, k requires 0 <= k < |picks| => cands[picks[k].index].reader);
    best := result + chosen;
    fallback := None;
    for k := 0 to |picks|
      invariant FirstFallback(picks) >= k || fallback == Some(|result| + FirstFallback(picks))
      invariant FirstFallback(picks) >= k ==> fallback == None
    {
      if picks[k].phase == Fallback && fallback == None {
        fallback := Some(|result| + k);
      }
    }
  }

  lemma NothingLeft(cfg: Config, i: nat, g: Gather)
    requires i < |g.readers| && g.left == 0
    ensures Consider(cfg, i, g) == g
  {
  }
}
