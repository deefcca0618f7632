/**
 Request permits as interleaved atomic steps: compare-and-swap admission to a general and a long
 counter, roll-back of the general permit when the long one is refused, release on drop, and the
 single-counter permits of realtime streams.
 */
module Admission {
  import opened Common

  datatype Kind = Short | Long | Stream

  datatype Limits = Limits(general: nat, long: nat, stream: nat)

  /** Where a request is between two atomic steps; `seen` is the value its last load returned. */
  datatype Pc =
    | Idle
    | LoadGeneral(long: bool)
    | SwapGeneral(long: bool, seen: int)
    | RefusedGeneral
    | LoadLong
    | SwapLong(seen: int)
    | RefusedLong
    | RollBack
    | Holding(long: bool)
    | DroppingLong
    | LoadStream
    | SwapStream(seen: int)
    | Streaming

  datatype Gate = Gate(general: int, long: int, stream: int, rejected: nat, pcs: seq<Pc>)

  predicate HoldsGeneral(pc: Pc) {
    pc.LoadLong? || pc.SwapLong? || pc.RefusedLong? || pc.RollBack? || pc.Holding?
  }

  predicate HoldsLong(pc: Pc) {
    pc == Holding(true) || pc.DroppingLong?
  }

  predicate HoldsStream(pc: Pc) {
    pc.Streaming?
  }

  function At(g: Gate, i: nat, pc: Pc): Gate
    requires i < |g.pcs|
  {
    g.(pcs := g.pcs[i := pc])
  }

  /** One atomic step of request `i`; an idle slot starts a new request of the given kind. */
  function Step(g: Gate, i: nat, kind: Kind, limits: Limits): Gate
    requires i < |g.pcs|
  {
    match g.pcs[i]
    case Idle =>
      At(g, i, if kind.Stream? then LoadStream else LoadGeneral(kind.Long?))
    case LoadGeneral(long) =>
      At(g, i, if g.general >= limits.general then RefusedGeneral else SwapGeneral(long, g.general))
    case SwapGeneral(long, seen) =>
      if g.general != seen then At(g, i, LoadGeneral(long))
      else At(g, i, if long then LoadLong else Holding(false)).(general := seen + 1)
    case RefusedGeneral => At(g, i, Idle).(rejected := g.rejected + 1)
    case LoadLong =>
      At(g, i, if g.long >= limits.long then RefusedLong else SwapLong(g.long))
    case SwapLong(seen) =>
      if g.long != seen then At(g, i, LoadLong)
      else At(g, i, Holding(true)).(long := seen + 1)
    case RefusedLong => At(g, i, RollBack).(rejected := g.rejected + 1)
    case RollBack => At(g, i, Idle).(general := g.general - 1)
    case Holding(long) => At(g, i, if long then DroppingLong else Idle).(general := g.general - 1)
    case DroppingLong => At(g, i, Idle).(long := g.long - 1)
    case LoadStream =>
      if g.stream >= limits.stream then At(g, i, Idle).(rejected := g.rejected + 1)
      else At(g, i, SwapStream(g.stream))
    case SwapStream(seen) =>
      if g.stream != seen then At(g, i, LoadStream) else At(g, i, Streaming).(stream := seen + 1)
    case Streaming => At(g, i, Idle).(stream := g.stream - 1)
  }

  /** A scheduler's choice: which slot moves, and the kind of request an idle one starts. */
  datatype Move = Move(slot: nat, kind: Kind)

  function Start(slots: nat): Gate {
    Gate(0, 0, 0, 0, seq(slots, _ => Idle))
  }

  function Exec(slots: nat, schedule: seq<Move>, limits: Limits): (g: Gate)
    ensures |g.pcs| == slots
  {
    if schedule == [] then Start(slots)
    else
      var g := Exec(slots, schedule[..|schedule| - 1], limits);
      var m := schedule[|schedule| - 1];
      if m.slot < slots then Step(g, m.slot, m.kind, limits) else g
  }

  /** A pending swap was allowed by its load. */
  predicate SwapWithin(pc: Pc, limits: Limits) {
    match pc
    case SwapGeneral(_, seen) => seen < limits.general
    case SwapLong(seen) => seen < limits.long
    case SwapStream(seen) => seen < limits.stream
    case _ => true
  }

  ghost predicate Inv(g: Gate, limits: Limits) {
    && g.general == Count(g.pcs, HoldsGeneral) <= limits.general
    && g.long == Count(g.pcs, HoldsLong) <= limits.long
    && g.stream == Count(g.pcs, HoldsStream) <= limits.stream
    && forall i :: 0 <= i < |g.pcs| ==> SwapWithin(g.pcs[i], limits)
  }

  function One(b: bool): int {
    if b then 1 else 0
  }

  /** A step moves one slot, and each counter exactly as that slot gains or loses its permit. */
  lemma StepMovesPermits(g: Gate, i: nat, kind: Kind, limits: Limits)
    requires i < |g.pcs| && SwapWithin(g.pcs[i], limits)
    ensures var g', pc := Step(g, i, kind, limits), g.pcs[i];
            && |g'.pcs| == |g.pcs| && g'.pcs == g.pcs[i := g'.pcs[i]]
            && SwapWithin(g'.pcs[i], limits)
            && g'.general == g.general + One(HoldsGeneral(g'.pcs[i])) - One(HoldsGeneral(pc))
            && g'.long == g.long + One(HoldsLong(g'.pcs[i])) - One(HoldsLong(pc))
            && g'.stream == g.stream + One(HoldsStream(g'.pcs[i])) - One(HoldsStream(pc))
            && (g'.general <= g.general || g'.general <= limits.general)
            && (g'.long <= g.long || g'.long <= limits.long)
            && (g'.stream <= g.stream || g'.stream <= limits.stream)
  {
  }

  lemma StepKeepsInv(g: Gate, i: nat, kind: Kind, limits: Limits)
    requires Inv(g, limits) && i < |g.pcs|
    ensures Inv(Step(g, i, kind, limits), limits)
  {
    var pc := Step(g, i, kind, limits).pcs[i];
    StepMovesPermits(g, i, kind, limits);
    CountUpdate(g.pcs, i, pc, HoldsGeneral);
    CountUpdate(g.pcs, i, pc, HoldsLong);
    CountUpdate(g.pcs, i, pc, HoldsStream);
  }

  /**
   Under every interleaving of any number of requests each counter equals the permits held or in
   flight, so it stays within its limit and, being a count, never underflows.
   */
  lemma {:induction false} EveryInterleavingRespectsLimits(slots: nat, schedule: seq<Move>, limits: Limits)
    ensures Inv(Exec(slots, schedule, limits), limits)
  {
    if schedule == [] {
      var g := Start(slots);
      CountZero(g.pcs, HoldsGeneral);
      CountZero(g.pcs, HoldsLong);
      CountZero(g.pcs, HoldsStream);
    } else {
      var n := |schedule| - 1;
      EveryInterleavingRespectsLimits(slots, schedule[..n], limits);
      if schedule[n].slot < slots {
        StepKeepsInv(Exec(slots, schedule[..n], limits), schedule[n].slot, schedule[n].kind, limits);
      }
    }
  }

  /** Nothing in flight means nothing held: both counters are back at zero exactly then. */
  lemma QuiescentMeansZero(slots: nat, schedule: seq<Move>, limits: Limits)
    ensures var g := Exec(slots, schedule, limits);
            && (g.general == 0 <==> forall i :: 0 <= i < slots ==> !HoldsGeneral(g.pcs[i]))
            && (g.long == 0 <==> forall i :: 0 <= i < slots ==> !HoldsLong(g.pcs[i]))
            && (g.stream == 0 <==> forall i :: 0 <= i < slots ==> !HoldsStream(g.pcs[i]))
  {
    var g := Exec(slots, schedule, limits);
    EveryInterleavingRespectsLimits(slots, schedule, limits);
    CountZero(g.pcs, HoldsGeneral);
    CountZero(g.pcs, HoldsLong);
    CountZero(g.pcs, HoldsStream);
  }

  // ---- What one request gets ------------------------------------------------------------------

  /** A release step finds its permit still counted. */
  lemma ReleaseNeverUnderflows(slots: nat, schedule: seq<Move>, limits: Limits, i: nat)
    requires i < slots
    ensures var g := Exec(slots, schedule, limits);
            && (HoldsGeneral(g.pcs[i]) ==> g.general >= 1)
            && (HoldsLong(g.pcs[i]) ==> g.long >= 1)
            && (HoldsStream(g.pcs[i]) ==> g.stream >= 1)
  {
    QuiescentMeansZero(slots, schedule, limits);
    EveryInterleavingRespectsLimits(slots, schedule, limits);
  }

  /** Request `i` runs alone for `n` steps. */
  function Solo(g: Gate, i: nat, kind: Kind, limits: Limits, n: nat): (r: Gate)
    requires i < |g.pcs|
    ensures |r.pcs| == |g.pcs|
  {
    if n == 0 then g else Step(Solo(g, i, kind, limits, n - 1), i, kind, limits)
  }

  /**
   A short request that is not interfered with is admitted exactly when the general counter has
   room, and a refused one leaves the counters as they were.
   */
  lemma ShortRequestAlone(g: Gate, i: nat, limits: Limits)
    requires i < |g.pcs| && g.pcs[i] == Idle
    ensures Solo(g, i, Short, limits, 3) ==
            if g.general < limits.general then At(g, i, Holding(false)).(general := g.general + 1)
            else g.(rejected := g.rejected + 1)
  {
    assert Solo(g, i, Short, limits, 1) == At(g, i, LoadGeneral(false));
    assert Solo(g, i, Short, limits, 2)
        == At(g, i, if g.general >= limits.general then RefusedGeneral else SwapGeneral(false, g.general));
    assert g.pcs[i := Idle] == g.pcs;
  }

  lemma LongRequestWithGeneralPermit(g: Gate, i: nat, limits: Limits)
    requires i < |g.pcs| && g.pcs[i] == Idle && g.general < limits.general
    ensures g.long < limits.long ==>
              Solo(g, i, Long, limits, 5) == At(g, i, Holding(true)).(general := g.general + 1, long := g.long + 1)
    ensures g.long >= limits.long ==>
              Solo(g, i, Long, limits, 6) == g.(rejected := g.rejected + 1)
  {
    var g3 := At(g, i, LoadLong).(general := g.general + 1);
    assert Solo(g, i, Long, limits, 1) == At(g, i, LoadGeneral(true));
    assert Solo(g, i, Long, limits, 2) == At(g, i, SwapGeneral(true, g.general));
    assert Solo(g, i, Long, limits, 3) == g3;
    var g4 := Solo(g, i, Long, limits, 4);
    assert g4 == At(g3, i, if g.long >= limits.long then RefusedLong else SwapLong(g.long));
    var g5 := Solo(g, i, Long, limits, 5);
    if g.long >= limits.long {
      assert g5 == At(g3, i, RollBack).(rejected := g.rejected + 1);
      assert g.pcs[i := Idle] == g.pcs;
    }
  }

  /**
   A long request that is not interfered with needs room in both counters; refused by the second one
   it gives the first permit back.
   */
  lemma LongRequestAlone(g: Gate, i: nat, limits: Limits)
    requires i < |g.pcs| && g.pcs[i] == Idle
    ensures g.general >= limits.general ==>
              Solo(g, i, Long, limits, 3) == g.(rejected := g.rejected + 1)
    ensures g.general < limits.general && g.long < limits.long ==>
              Solo(g, i, Long, limits, 5) == At(g, i, Holding(true)).(general := g.general + 1, long := g.long + 1)
    ensures g.general < limits.general && g.long >= limits.long ==>
              Solo(g, i, Long, limits, 6) == g.(rejected := g.rejected + 1)
  {
    assert Solo(g, i, Long, limits, 1) == At(g, i, LoadGeneral(true));
    if g.general < limits.general {
      LongRequestWithGeneralPermit(g, i, limits);
    } else {
      assert Solo(g, i, Long, limits, 2) == At(g, i, RefusedGeneral);
      assert g.pcs[i := Idle] == g.pcs;
    }
  }

  /**
   A realtime stream that is not interfered with is admitted exactly when its counter has room, and a
   refused one leaves the counters as they were.
   */
  lemma StreamRequestAlone(g: Gate, i: nat, limits: Limits)
    requires i < |g.pcs| && g.pcs[i] == Idle
    ensures g.stream < limits.stream ==>
              Solo(g, i, Stream, limits, 3) == At(g, i, Streaming).(stream := g.stream + 1)
    ensures g.stream >= limits.stream ==> Solo(g, i, Stream, limits, 2) == g.(rejected := g.rejected + 1)
  {
    assert Solo(g, i, Stream, limits, 1) == At(g, i, LoadStream);
    if g.stream < limits.stream {
      assert Solo(g, i, Stream, limits, 2) == At(g, i, SwapStream(g.stream));
    } else {
      assert g.pcs[i := Idle] == g.pcs;
    }
  }

  /**
   Dropping gives back exactly what was taken, and so does the roll-back of a long request that its
   second counter refused: one from each counter the request holds, and the slot is idle again.
   */
  lemma ReleasesGiveBack(g: Gate, i: nat, kind: Kind, limits: Limits)
    requires i < |g.pcs|
    ensures g.pcs[i] == Holding(false) ==>
              Solo(g, i, kind, limits, 1) == At(g, i, Idle).(general := g.general - 1)
    ensures g.pcs[i] == Holding(true) ==>
              Solo(g, i, kind, limits, 2) == At(g, i, Idle).(general := g.general - 1, long := g.long - 1)
    ensures g.pcs[i] == RefusedLong ==>
              Solo(g, i, kind, limits, 2) == At(g, i, Idle).(general := g.general - 1, rejected := g.rejected + 1)
    ensures g.pcs[i] == Streaming ==> Solo(g, i, kind, limits, 1) == At(g, i, Idle).(stream := g.stream - 1)
  {
    var next := Solo(g, i, kind, limits, 1);
    assert Solo(g, i, kind, limits, 0) == g;
    assert next == Step(g, i, kind, limits);
    assert Solo(g, i, kind, limits, 2) == Step(next, i, kind, limits);
  }
}
