/**
 Fixed-batch inference: sequences are packed batch by batch into one padded flat buffer for a native
 model, and the answers of the padding rows are dropped.
 */
module FixedBatch {
  import opened Common

  datatype Number = Finite(x: real) | NonFinite

  /** `n` pieces of equal size, laid end to end. */
  function Extent(n: nat, size: nat): nat {
    if n == 0 then 0 else Extent(n - 1, size) + size
  }

  lemma {:induction false} ExtentIsProduct(n: nat, size: nat)
    ensures Extent(n, size) == n * size
  {
    if n > 0 {
      ExtentIsProduct(n - 1, size);
    }
  }

  lemma {:induction false} PieceFits(i: nat, n: nat, size: nat)
    requires i < n
    ensures Extent(i, size) + size <= Extent(n, size)
    decreases n
  {
    if i < n - 1 {
      PieceFits(i, n - 1, size);
    }
  }

  type Step = seq<Number>

  type Sequence = seq<Step>

  datatype Failure = LoadFailed | WrongSteps | WrongFeatures | NonFiniteInput | PredictionFailed | NonFinitePrediction

  /**
   The native model: `predict` maps a whole flat buffer to one value per row, or fails; `narrow` is
   the conversion to single precision.
   */
  datatype Model = Model(batchSize: nat, steps: nat, features: nat, loads: bool,
                         predict: seq<real> -> Option<seq<Number>>, narrow: real -> real)
  {
    function RowSize(): nat {
      Extent(steps, features)
    }

    function BufferSize(): nat {
      Extent(batchSize, RowSize())
    }
  }

  function RowOf(m: Model, input: seq<real>, i: nat): seq<real>
    requires |input| == m.BufferSize() && i < m.batchSize
  {
    PieceFits(i, m.batchSize, m.RowSize());
    var at := Extent(i, m.RowSize());
    input[at..at + m.RowSize()]
  }

  /** The model treats its rows independently: when it answers, value `i` depends on row `i` alone. */
  ghost predicate IsRowWise(m: Model, row: seq<real> -> Number) {
    forall input :: |input| == m.BufferSize() && m.predict(input).Some? ==>
      && |m.predict(input).value| == m.batchSize
      && forall i :: 0 <= i < m.batchSize ==> m.predict(input).value[i] == row(RowOf(m, input, i))
  }

  // ---- What is wrong with an input ------------------------------------------------------------

  function StepFault(step: Step, features: nat): Option<Failure> {
    if |step| != features then Some(WrongFeatures)
    else if exists i :: 0 <= i < |step| && step[i].NonFinite? then Some(NonFiniteInput)
    else None
  }

  /** The first fault of the first `n` steps. */
  function StepsFault(s: Sequence, n: nat, features: nat): Option<Failure>
    requires n <= |s|
  {
    if n == 0 then None
    else
      var earlier := StepsFault(s, n - 1, features);
      if earlier.Some? then earlier else StepFault(s[n - 1], features)
  }

  function SequenceFault(s: Sequence, m: Model): Option<Failure> {
    if |s| != m.steps then Some(WrongSteps) else StepsFault(s, |s|, m.features)
  }

  /** The fault of the first faulty sequence. */
  function FirstFault(ss: seq<Sequence>, m: Model): Option<Failure> {
    if ss == [] then None
    else
      var earlier := FirstFault(ss[..|ss| - 1], m);
      if earlier.Some? then earlier else SequenceFault(ss[|ss| - 1], m)
  }

  // ---- The packed form ------------------------------------------------------------------------

  function FlatStep(step: Step, m: Model): seq<real> {
    seq(|step|, i requires 0 <= i < |step| => if step[i].Finite? then m.narrow(step[i].x) else 0.0)
  }

  function FlatSteps(s: Sequence, m: Model): seq<real> {
    if s == [] then [] else FlatSteps(s[..|s| - 1], m) + FlatStep(s[|s| - 1], m)
  }

  function FlatAll(ss: seq<Sequence>, m: Model): seq<real> {
    if ss == [] then [] else FlatAll(ss[..|ss| - 1], m) + FlatSteps(ss[|ss| - 1], m)
  }

  /** What a single row of the model says about one sequence. */
  function Single(s: Sequence, m: Model, row: seq<real> -> Number): Number {
    row(FlatSteps(s, m))
  }

  function Singles(ss: seq<Sequence>, m: Model, row: seq<real> -> Number): seq<Number> {
    seq(|ss|, i requires 0 <= i < |ss| => Single(ss[i], m, row))
  }

  predicate AllFinite(ns: seq<Number>) {
    forall i :: 0 <= i < |ns| ==> ns[i].Finite?
  }

  /** The specification: a plain map over the sequences, unless some input or output is unusable. */
  function Expected(ss: seq<Sequence>, m: Model, row: seq<real> -> Number): Result<seq<Number>, Failure> {
    if ss == [] then Ok([])
    else if !m.loads then Err(LoadFailed)
    else if FirstFault(ss, m).Some? then Err(FirstFault(ss, m).value)
    else if AllFinite(Singles(ss, m, row)) then Ok(Singles(ss, m, row))
    else Err(NonFinitePrediction)
  }

  /** A sequence the model can take: the right number of steps, each of the right number of finite features. */
  predicate IsUsable(s: Sequence, m: Model) {
    && |s| == m.steps
    && forall k :: 0 <= k < |s| ==> |s[k]| == m.features && forall i :: 0 <= i < m.features ==> s[k][i].Finite?
  }

  lemma {:induction false} StepsAreFaultless(s: Sequence, n: nat, features: nat)
    requires n <= |s|
    ensures StepsFault(s, n, features).None? <==>
            forall k :: 0 <= k < n ==> |s[k]| == features && forall i :: 0 <= i < features ==> s[k][i].Finite?
  {
    if n > 0 {
      StepsAreFaultless(s, n - 1, features);
    }
  }

  lemma {:induction false} FaultlessExactlyWhenUsable(ss: seq<Sequence>, m: Model)
    ensures FirstFault(ss, m).None? <==> forall j :: 0 <= j < |ss| ==> IsUsable(ss[j], m)
  {
    if ss != [] {
      var n := |ss| - 1;
      FaultlessExactlyWhenUsable(ss[..n], m);
      StepsAreFaultless(ss[n], |ss[n]|, m.features);
      assert forall j :: 0 <= j < n ==> ss[..n][j] == ss[j];
    }
  }

  /**
   When a run of the driver succeeds, and with what: with nothing to do, or when the model loads, every
   sequence is usable and every single-row answer finite; then with exactly those answers in order.
   */
  lemma ExpectedSucceedsExactlyWhen(ss: seq<Sequence>, m: Model, row: seq<real> -> Number)
    ensures Expected(ss, m, row).Ok? <==>
            ss == [] || (m.loads && (forall j :: 0 <= j < |ss| ==> IsUsable(ss[j], m))
                         && forall j :: 0 <= j < |ss| ==> Single(ss[j], m, row).Finite?)
    ensures Expected(ss, m, row).Ok? ==>
              && |Expected(ss, m, row).value| == |ss|
              && forall j :: 0 <= j < |ss| ==> Expected(ss, m, row).value[j] == Single(ss[j], m, row)
  {
    FaultlessExactlyWhenUsable(ss, m);
    assert forall j :: 0 <= j < |ss| ==> Singles(ss, m, row)[j] == Single(ss[j], m, row);
  }

  function Splice(s: seq<real>, at: nat, part: seq<real>): seq<real>
    requires at + |part| <= |s|
  {
    s[..at] + part + s[at + |part|..]
  }

  lemma SpliceTwice(s: seq<real>, at: nat, a: seq<real>, b: seq<real>)
    requires at + |a| + |b| <= |s|
    ensures Splice(Splice(s, at, a), at + |a|, b) == Splice(s, at, a + b)
  {
  }

  lemma {:induction false} FlatStepsSize(s: Sequence, n: nat, m: Model)
    requires n <= |s| && StepsFault(s, n, m.features).None?
    ensures |FlatSteps(s[..n], m)| == Extent(n, m.features)
  {
    if n > 0 {
      FlatStepsSize(s, n - 1, m);
      assert s[..n][..n - 1] == s[..n - 1];
    }
  }

  lemma {:induction false} FlatAllSize(ss: seq<Sequence>, m: Model)
    requires FirstFault(ss, m).None?
    ensures |FlatAll(ss, m)| == Extent(|ss|, m.RowSize())
  {
    if ss != [] {
      var n := |ss| - 1;
      FlatAllSize(ss[..n], m);
      assert ss[n][..|ss[n]|] == ss[n];
      FlatStepsSize(ss[n], |ss[n]|, m);
    }
  }

  /** Row `i` of the packed sequences is sequence `i`. */
  lemma {:induction false} FlatAllRow(ss: seq<Sequence>, i: nat, m: Model)
    requires i < |ss| && FirstFault(ss, m).None?
    ensures var at := Extent(i, m.RowSize());
            at + m.RowSize() <= |FlatAll(ss, m)| && FlatAll(ss, m)[at..at + m.RowSize()] == FlatSteps(ss[i], m)
    decreases |ss|
  {
    var n := |ss| - 1;
    FlatAllSize(ss, m);
    FlatAllSize(ss[..n], m);
    PieceFits(i, |ss|, m.RowSize());
    if i < n {
      FlatAllRow(ss[..n], i, m);
    }
  }

  lemma {:induction false} FirstFaultConcat(a: seq<Sequence>, b: seq<Sequence>, m: Model)
    ensures FirstFault(a + b, m) == if FirstFault(a, m).Some? then FirstFault(a, m) else FirstFault(b, m)
  {
    if b == [] {
      assert a + b == a;
    } else {
      assert (a + b)[..|a + b| - 1] == a + b[..|b| - 1];
      FirstFaultConcat(a, b[..|b| - 1], m);
    }
  }

  /** What a packed row holds: place `k * features + i` is feature `i` of step `k`, narrowed. */
  lemma {:induction false} PackedFeature(s: Sequence, n: nat, m: Model, k: nat, i: nat)
    requires k < n <= |s| && i < m.features && StepsFault(s, n, m.features).None?
    ensures |s[k]| == m.features && s[k][i].Finite?
    ensures k * m.features + i < |FlatSteps(s[..n], m)|
    ensures FlatSteps(s[..n], m)[k * m.features + i] == m.narrow(s[k][i].x)
  {
    assert s[..n][..n - 1] == s[..n - 1];
    FlatStepsSize(s, n - 1, m);
    ExtentIsProduct(n - 1, m.features);
    if k < n - 1 {
      PackedFeature(s, n - 1, m, k, i);
    }
  }

  // ---- The program ----------------------------------------------------------------------------

  /** Writes one step's features at an offset, stopping at the first that is not finite. */
  method PackStep(m: Model, input: array<real>, offset: nat, step: Step) returns (fault: Option<Failure>)
    requires offset + m.features <= input.Length
    modifies input
    ensures fault == StepFault(step, m.features)
    ensures fault.None? ==> input[..] == Splice(old(input[..]), offset, FlatStep(step, m))
  {
    if |step| != m.features {
      return Some(WrongFeatures);
    }
    for i := 0 to |step|
      invariant forall k :: 0 <= k < i ==> step[k].Finite? && input[offset + k] == m.narrow(step[k].x)
      invariant forall k :: 0 <= k < input.Length && !(offset <= k < offset + i) ==> input[k] == old(input[k])
    {
      if step[i].NonFinite? {
        return Some(NonFiniteInput);
      }
      input[offset + i] := m.narrow(step[i].x);
    }
    return None;
  }

  lemma Distribute(sample: nat, steps: nat, k: nat, features: nat)
    ensures (sample * steps + k) * features == sample * (steps * features) + k * features
  {
  }

  /** Where step `k` of a sample starts: behind the earlier samples and the earlier steps. */
  method OffsetOfStep(m: Model, sample: nat, k: nat) returns (offset: nat)
    requires sample < m.batchSize && k < m.steps
    ensures offset == Extent(sample, m.RowSize()) + Extent(k, m.features)
    ensures offset + m.features <= Extent(sample, m.RowSize()) + m.RowSize() <= m.BufferSize()
  {
    ExtentIsProduct(sample, m.RowSize());
    ExtentIsProduct(m.steps, m.features);
    ExtentIsProduct(k, m.features);
    Distribute(sample, m.steps, k, m.features);
    PieceFits(sample, m.batchSize, m.RowSize());
    PieceFits(k, m.steps, m.features);
    offset := (sample * m.steps + k) * m.features;
  }

  /** The buffer is the initial one with the first `k` steps written from `base` on. */
  ghost predicate HoldsSteps(initial: seq<real>, buffer: seq<real>, base: nat, s: Sequence, k: nat, m: Model)
    requires k <= |s|
  {
    && |FlatSteps(s[..k], m)| == Extent(k, m.features) && base + Extent(k, m.features) <= |initial|
    && buffer == Splice(initial, base, FlatSteps(s[..k], m))
  }

  /** Packing step `k` behind the first `k` steps packs the first `k + 1`. */
  lemma StepExtends(initial: seq<real>, buffer: seq<real>, base: nat, s: Sequence, k: nat, m: Model, offset: nat)
    requires k < |s| && |s[k]| == m.features && HoldsSteps(initial, buffer, base, s, k, m)
    requires offset == base + Extent(k, m.features) && offset + m.features <= |initial| == |buffer|
    ensures HoldsSteps(initial, Splice(buffer, offset, FlatStep(s[k], m)), base, s, k + 1, m)
  {
    assert s[..k + 1][..k] == s[..k];
    SpliceTwice(initial, base, FlatSteps(s[..k], m), FlatStep(s[k], m));
  }

  lemma {:induction false} FaultSticks(s: Sequence, n: nat, features: nat)
    requires n <= |s| && StepsFault(s, n, features).Some?
    ensures StepsFault(s, |s|, features) == StepsFault(s, n, features)
    decreases |s| - n
  {
    if n < |s| {
      FaultSticks(s, n + 1, features);
    }
  }

  /** Writes step `k` of a sequence behind its first `k` steps. */
  method PackNextStep(m: Model, input: array<real>, sample: nat, s: Sequence, k: nat, ghost initial: seq<real>)
    returns (fault: Option<Failure>)
    requires sample < m.batchSize && input.Length == m.BufferSize() == |initial| && k < |s| == m.steps
    requires HoldsSteps(initial, input[..], Extent(sample, m.RowSize()), s, k, m)
    modifies input
    ensures fault == StepFault(s[k], m.features)
    ensures fault.None? ==> HoldsSteps(initial, input[..], Extent(sample, m.RowSize()), s, k + 1, m)
  {
    var offset := OffsetOfStep(m, sample, k);
    ghost var before := input[..];
    fault := PackStep(m, input, offset, s[k]);
    if fault.None? {
      StepExtends(initial, before, Extent(sample, m.RowSize()), s, k, m, offset);
    }
  }

  method PackSequence(m: Model, input: array<real>, sample: nat, s: Sequence) returns (fault: Option<Failure>)
    requires sample < m.batchSize && input.Length == m.BufferSize()
    modifies input
    ensures fault == SequenceFault(s, m)
    ensures fault.None? ==>
              var at := Extent(sample, m.RowSize());
              && |FlatSteps(s, m)| == m.RowSize() && at + m.RowSize() <= m.BufferSize()
              && input[..] == Splice(old(input[..]), at, FlatSteps(s, m))
  {
    if |s| != m.steps {
      return Some(WrongSteps);
    }
    ghost var initial, base := input[..], Extent(sample, m.RowSize());
    PieceFits(sample, m.batchSize, m.RowSize());
    for k := 0 to |s|
      invariant StepsFault(s, k, m.features).None?
      invariant HoldsSteps(initial, input[..], base, s, k, m)
    {
      fault := PackNextStep(m, input, sample, s, k, initial);
      if fault.Some? {
        FaultSticks(s, k + 1, m.features);
        return;
      }
    }
    assert s[..|s|] == s;
    return None;
  }

  lemma OneMoreSequence(batch: seq<Sequence>, i: nat, m: Model)
    requires i < |batch| && FirstFault(batch[..i], m).None?
    ensures FirstFault(batch[..i + 1], m) == SequenceFault(batch[i], m)
    ensures FlatAll(batch[..i + 1], m) == FlatAll(batch[..i], m) + FlatSteps(batch[i], m)
  {
    assert batch[..i + 1][..i] == batch[..i];
  }

  lemma FirstFaultFound(batch: seq<Sequence>, i: nat, m: Model)
    requires i < |batch| && FirstFault(batch[..i], m).None? && SequenceFault(batch[i], m).Some?
    ensures FirstFault(batch, m) == SequenceFault(batch[i], m)
  {
    OneMoreSequence(batch, i, m);
    assert batch[..i + 1] + batch[i + 1..] == batch;
    FirstFaultConcat(batch[..i + 1], batch[i + 1..], m);
  }

  lemma SpliceGrowsPrefix(s: seq<real>, front: seq<real>, part: seq<real>)
    requires front <= s && |front| + |part| <= |s|
    ensures front + part <= Splice(s, |front|, part)
  {
    assert s[..|front|] == front;
  }

  /** Packing sequence `i` behind the first `i` sequences packs the first `i + 1`. */
  lemma SequenceExtends(before: seq<real>, batch: seq<Sequence>, i: nat, m: Model)
    requires i < |batch| && FirstFault(batch[..i], m).None? && SequenceFault(batch[i], m).None?
    requires |FlatAll(batch[..i], m)| == Extent(i, m.RowSize()) && |FlatSteps(batch[i], m)| == m.RowSize()
    requires Extent(i, m.RowSize()) + m.RowSize() <= |before| && FlatAll(batch[..i], m) <= before
    ensures FirstFault(batch[..i + 1], m).None? && |FlatAll(batch[..i + 1], m)| == Extent(i + 1, m.RowSize())
    ensures FlatAll(batch[..i + 1], m) <= Splice(before, Extent(i, m.RowSize()), FlatSteps(batch[i], m))
  {
    OneMoreSequence(batch, i, m);
    SpliceGrowsPrefix(before, FlatAll(batch[..i], m), FlatSteps(batch[i], m));
  }

  /** A fresh zeroed buffer with the batch packed from its start. */
  method PackBatch(m: Model, batch: seq<Sequence>) returns (input: array<real>, fault: Option<Failure>)
    requires |batch| <= m.batchSize
    ensures fresh(input) && input.Length == m.BufferSize()
    ensures fault == FirstFault(batch, m)
    ensures fault.None? ==> FlatAll(batch, m) <= input[..]
  {
    input := new real[m.BufferSize()](_ => 0.0);
    for i := 0 to |batch|
      invariant FirstFault(batch[..i], m).None? && |FlatAll(batch[..i], m)| == Extent(i, m.RowSize())
      invariant FlatAll(batch[..i], m) <= input[..]
    {
      ghost var before := input[..];
      fault := PackSequence(m, input, i, batch[i]);
      if fault.Some? {
        FirstFaultFound(batch, i, m);
        return;
      }
      SequenceExtends(before, batch, i, m);
    }
    assert batch[..|batch|] == batch;
    return input, None;
  }

  lemma PackedRow(m: Model, batch: seq<Sequence>, input: seq<real>, i: nat)
    requires i < |batch| <= m.batchSize && FirstFault(batch, m).None?
    requires |input| == m.BufferSize() && FlatAll(batch, m) <= input
    ensures RowOf(m, input, i) == FlatSteps(batch[i], m)
  {
    PieceFits(i, m.batchSize, m.RowSize());
    FlatAllRow(batch, i, m);
    var at := Extent(i, m.RowSize());
    assert input[at..at + m.RowSize()] == FlatAll(batch, m)[at..at + m.RowSize()];
  }

  /** The rows of a packed batch are answered one by one; padding rows only follow them. */
  lemma AnswersOfPackedBatch(m: Model, batch: seq<Sequence>, input: seq<real>, row: seq<real> -> Number)
    requires IsRowWise(m, row) && |batch| <= m.batchSize && FirstFault(batch, m).None?
    requires |input| == m.BufferSize() && FlatAll(batch, m) <= input && m.predict(input).Some?
    ensures |batch| <= |m.predict(input).value|
    ensures m.predict(input).value[..|batch|] == Singles(batch, m, row)
  {
    var output := m.predict(input).value;
    forall i | 0 <= i < |batch| ensures output[i] == Single(batch[i], m, row) {
      PackedRow(m, batch, input, i);
    }
  }

  /** The native model refused some buffer, and that is what is reported. */
  ghost predicate NativeFailure(m: Model, r: Result<seq<Number>, Failure>) {
    r == Err(PredictionFailed) && exists input :: |input| == m.BufferSize() && m.predict(input).None?
  }

  /** One chunk: pack, predict, and keep as many answers as the chunk has sequences. */
  method PredictChunk(m: Model, batch: seq<Sequence>, ghost row: seq<real> -> Number)
    returns (r: Result<seq<Number>, Failure>)
    requires |batch| <= m.batchSize && IsRowWise(m, row)
    ensures FirstFault(batch, m).Some? ==> r == Err(FirstFault(batch, m).value)
    ensures FirstFault(batch, m).None? ==> r == Ok(Singles(batch, m, row)) || NativeFailure(m, r)
  {
    var input, fault := PackBatch(m, batch);
    if fault.Some? {
      return Err(fault.value);
    }
    var output := m.predict(input[..]);
    if output.None? {
      return Err(PredictionFailed);
    }
    AnswersOfPackedBatch(m, batch, input[..], row);
    return Ok(output.value[..|batch|]);
  }

  lemma SinglesConcat(a: seq<Sequence>, b: seq<Sequence>, m: Model, row: seq<real> -> Number)
    ensures Singles(a + b, m, row) == Singles(a, m, row) + Singles(b, m, row)
  {
  }

  /** A chunk behind a faultless prefix: its fault is the first of all, and its answers come next. */
  lemma ChunkExtends(ss: seq<Sequence>, start: nat, end: nat, m: Model, row: seq<real> -> Number)
    requires start <= end <= |ss| && FirstFault(ss[..start], m).None?
    ensures FirstFault(ss[..end], m) == FirstFault(ss[start..end], m)
    ensures FirstFault(ss[..end], m).Some? ==> FirstFault(ss, m) == FirstFault(ss[..end], m)
    ensures Singles(ss[..end], m, row) == Singles(ss[..start], m, row) + Singles(ss[start..end], m, row)
  {
    assert ss[..end] == ss[..start] + ss[start..end];
    FirstFaultConcat(ss[..start], ss[start..end], m);
    SinglesConcat(ss[..start], ss[start..end], m, row);
    assert ss == ss[..end] + ss[end..];
    FirstFaultConcat(ss[..end], ss[end..], m);
  }

  /**
   The driver, for any number of sequences and any positive batch size: the plain map over them, in
   order, or the first thing that is wrong; nothing else unless the native model itself fails.
   */
  method PredictFixedBatches(m: Model, ss: seq<Sequence>, ghost row: seq<real> -> Number)
    returns (r: Result<seq<Number>, Failure>)
    requires m.batchSize > 0 && IsRowWise(m, row)
    ensures r == Expected(ss, m, row) || NativeFailure(m, r)
  {
    if ss == [] {
      return Ok([]);
    }
    if !m.loads {
      return Err(LoadFailed);
    }
    var predictions: seq<Number> := [];
    var start := 0;
    while start < |ss|
      invariant start <= |ss|
      invariant FirstFault(ss[..start], m).None? && predictions == Singles(ss[..start], m, row)
    {
      var end := Min(start + m.batchSize, |ss|);
      var chunk := PredictChunk(m, ss[start..end], row);
      ChunkExtends(ss, start, end, m, row);
      if chunk.Err? {
        return chunk;
      }
      predictions := predictions + chunk.value;
      start := end;
    }
    assert ss[..|ss|] == ss;
    if exists i :: 0 <= i < |predictions| && predictions[i].NonFinite? {
      return Err(NonFinitePrediction);
    }
    return Ok(predictions);
  }
}
