/**
 The cap on TLS connections: accept loops add to a shared counter first, compare afterwards and take
 the addition back when over the cap, while finishing connections subtract concurrently.
 */
module ConnectionCap {
  import opened Common

  const MAX_ACTIVE_CONNECTIONS := 128

  /** An accept loop: waiting, holding the value its addition returned, or about to take it back. */
  datatype Loop = Waiting | Added(active: int) | Rejecting

  datatype Server = Server(counter: int, loops: seq<Loop>, serving: nat)

  datatype Move = LoopMoves(index: nat) | ConnectionFinishes

  predicate IsAdmitted(l: Loop) {
    l.Added? && l.active <= MAX_ACTIVE_CONNECTIONS
  }

  predicate IsOverCap(l: Loop) {
    l.Rejecting? || (l.Added? && l.active > MAX_ACTIVE_CONNECTIONS)
  }

  function Step(s: Server, m: Move): Server {
    match m
    case ConnectionFinishes =>
      if s.serving == 0 then s else s.(counter := s.counter - 1, serving := s.serving - 1)
    case LoopMoves(i) =>
      if i >= |s.loops| then s
      else match s.loops[i]
        case Waiting => s.(counter := s.counter + 1, loops := s.loops[i := Added(s.counter + 1)])
        case Added(active) =>
          if active > MAX_ACTIVE_CONNECTIONS then s.(loops := s.loops[i := Rejecting])
          else s.(loops := s.loops[i := Waiting], serving := s.serving + 1)
        case Rejecting => s.(counter := s.counter - 1, loops := s.loops[i := Waiting])
  }

  function Start(loops: nat): Server {
    Server(0, seq(loops, _ => Waiting), 0)
  }

  function Exec(loops: nat, schedule: seq<Move>): Server {
    if schedule == [] then Start(loops) else Step(Exec(loops, schedule[..|schedule| - 1]), schedule[|schedule| - 1])
  }

  /** Connections being served, or admitted and about to be. */
  function Admitted(s: Server): nat {
    s.serving + Count(s.loops, IsAdmitted)
  }

  ghost predicate Inv(s: Server) {
    && s.counter == Admitted(s) + Count(s.loops, IsOverCap)
    && Admitted(s) <= MAX_ACTIVE_CONNECTIONS
  }

  lemma StepKeepsInv(s: Server, m: Move)
    requires Inv(s)
    ensures Inv(Step(s, m)) && |Step(s, m).loops| == |s.loops|
  {
    if m.LoopMoves? && m.index < |s.loops| {
      var l := Step(s, m).loops[m.index];
      CountUpdate(s.loops, m.index, l, IsAdmitted);
      CountUpdate(s.loops, m.index, l, IsOverCap);
    }
  }

  lemma {:induction false} CountBounded(s: seq<Loop>, p: Loop -> bool)
    ensures Count(s, p) <= |s|
  {
    if s != [] {
      CountBounded(s[1..], p);
    }
  }

  /**
   Under every interleaving at most 128 connections are admitted.  The counter is exactly the
   admitted ones plus the rejections not yet taken back, so it never underflows and overshoots the
   cap by at most the number of accept loops.
   */
  lemma {:induction false} EveryInterleavingRespectsCap(loops: nat, schedule: seq<Move>)
    ensures var s := Exec(loops, schedule);
            && Inv(s) && |s.loops| == loops
            && 0 <= s.counter <= 128 + loops && Admitted(s) <= 128
  {
    if schedule == [] {
      CountZero(Start(loops).loops, IsAdmitted);
      CountZero(Start(loops).loops, IsOverCap);
    } else {
      var n := |schedule| - 1;
      EveryInterleavingRespectsCap(loops, schedule[..n]);
      StepKeepsInv(Exec(loops, schedule[..n]), schedule[n]);
    }
    CountBounded(Exec(loops, schedule).loops, IsOverCap);
  }

  /**
   When a connection is turned away, for any number of accept loops, in any state a schedule reaches:
   exactly if the admitted connections and the rejections not yet taken back fill the cap.
   */
  lemma RejectsExactlyWhen(loops: nat, schedule: seq<Move>, i: nat)
    requires i < loops
    ensures var s := Exec(loops, schedule);
            && |s.loops| == loops
            && (s.loops[i].Waiting? ==>
                  (IsOverCap(Step(s, LoopMoves(i)).loops[i])
                   <==> Admitted(s) + Count(s.loops, IsOverCap) >= MAX_ACTIVE_CONNECTIONS))
  {
    EveryInterleavingRespectsCap(loops, schedule);
  }

  /** With a single accept loop a connection is turned away exactly when the cap is really reached. */
  lemma SingleLoopRejectsExactlyAtCap(schedule: seq<Move>)
    ensures var s := Exec(1, schedule);
            && |s.loops| == 1
            && (s.loops[0].Waiting? ==>
                  (IsOverCap(Step(s, LoopMoves(0)).loops[0]) <==> s.serving == MAX_ACTIVE_CONNECTIONS))
  {
    RejectsExactlyWhen(1, schedule, 0);
    EveryInterleavingRespectsCap(1, schedule);
    var s := Exec(1, schedule);
    if s.loops[0].Waiting? {
      CountZero(s.loops, IsAdmitted);
      CountZero(s.loops, IsOverCap);
    }
  }

  /**
   What an undisturbed accept does: below the cap it serves one more connection, and its end gives the
   count back; at the cap it counts, rejects and leaves everything as it was.
   */
  lemma AcceptAlone(s: Server, i: nat)
    requires i < |s.loops| && s.loops[i].Waiting?
    ensures var admitted := Step(Step(s, LoopMoves(i)), LoopMoves(i));
            s.counter < MAX_ACTIVE_CONNECTIONS ==>
              admitted == s.(counter := s.counter + 1, serving := s.serving + 1)
              && Step(admitted, ConnectionFinishes) == s
    ensures s.counter >= MAX_ACTIVE_CONNECTIONS ==>
              Step(Step(Step(s, LoopMoves(i)), LoopMoves(i)), LoopMoves(i)) == s
  {
    assert s.loops[i := Waiting] == s.loops;
  }

  // ---- Two loops can reject below the cap -----------------------------------------------------

  /** The first loop admits `n` connections one after the other. */
  function Admits(n: nat): seq<Move> {
    if n == 0 then [] else Admits(n - 1) + [LoopMoves(0)] + [LoopMoves(0)]
  }

  lemma ExecAppend(loops: nat, schedule: seq<Move>, m: Move)
    ensures Exec(loops, schedule + [m]) == Step(Exec(loops, schedule), m)
  {
    assert (schedule + [m])[..|schedule|] == schedule;
  }

  lemma {:induction false} AdmitsServes(loops: nat, n: nat)
    requires 1 <= loops && n <= MAX_ACTIVE_CONNECTIONS
    ensures Exec(loops, Admits(n)) == Server(n, Start(loops).loops, n)
  {
    if n > 0 {
      AdmitsServes(loops, n - 1);
      ExecAppend(loops, Admits(n - 1), LoopMoves(0));
      ExecAppend(loops, Admits(n - 1) + [LoopMoves(0)], LoopMoves(0));
      assert Start(loops).loops[0 := Added(n)][0 := Waiting] == Start(loops).loops;
    }
  }

  /** The first loop rejects one more, one connection finishes, and the second loop accepts. */
  function RejectedBelowCap(filled: seq<Move>): seq<Move> {
    filled + [LoopMoves(0)] + [ConnectionFinishes] + [LoopMoves(1)]
  }

  lemma FullServerRejectsBelowCap(loops: nat, filled: seq<Move>)
    requires loops >= 2
    requires Exec(loops, filled) == Server(MAX_ACTIVE_CONNECTIONS, Start(loops).loops, MAX_ACTIVE_CONNECTIONS)
    ensures var s := Exec(loops, RejectedBelowCap(filled));
            |s.loops| == loops && IsOverCap(s.loops[1]) && Admitted(s) < MAX_ACTIVE_CONNECTIONS
  {
    ExecAppend(loops, filled, LoopMoves(0));
    ExecAppend(loops, filled + [LoopMoves(0)], ConnectionFinishes);
    ExecAppend(loops, filled + [LoopMoves(0)] + [ConnectionFinishes], LoopMoves(1));
    CountZero(Exec(loops, RejectedBelowCap(filled)).loops, IsAdmitted);
  }

  /**
   With two or more loops some schedule from the start turns a connection away below the cap: another
   loop's rejection that is not taken back yet still counts.
   */
  lemma MoreLoopsCanRejectBelowCap(loops: nat) returns (schedule: seq<Move>)
    requires loops >= 2
    ensures var s := Exec(loops, schedule);
            |s.loops| == loops && IsOverCap(s.loops[1]) && Admitted(s) < MAX_ACTIVE_CONNECTIONS
  {
    var n: nat :| n == MAX_ACTIVE_CONNECTIONS;
    AdmitsServes(loops, n);
    FullServerRejectsBelowCap(loops, Admits(n));
    schedule := RejectedBelowCap(Admits(n));
  }
}
