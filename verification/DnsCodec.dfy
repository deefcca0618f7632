/**
 DNS names in wire format: the encoder, and the parser that follows compression pointers.  A name is
 also defined on its own, as sections 3.1 and 4.1.4 of RFC 1035 describe it.
 */
module DnsCodec {
  import opened Common

  type Byte = n: int | 0 <= n < 256

  type Bytes = seq<Byte>

  const DOT: Byte := 46
  const MAX_LABEL := 63
  const POINTER_MARK := 192
  const MAX_STEPS := 32

  datatype EncodeError = EmptyDomain | InvalidLabel

  datatype ParseError = NameTruncated | PointerTruncated | UnsupportedLabel | LabelTruncated | CompressionLoop

  /** A parsed name: its labels, and the offset just past it where it first stood. */
  datatype Name = Name(labels: seq<Bytes>, next: nat)

  /** The masks of the length byte, as comparisons. */
  lemma LengthByteMasks(len: bv8)
    ensures len & 0xc0 == 0xc0 <==> len as int >= POINTER_MARK
    ensures len & 0xc0 != 0 <==> len as int > MAX_LABEL
    ensures len & 0xc0 == 0xc0 ==> (len & 0x3f) as int == len as int - POINTER_MARK
  {
  }

  // ---- Text -----------------------------------------------------------------------------------

  predicate IsSpace(b: Byte) {
    b == 32 || 9 <= b <= 13
  }

  function TrimStart(s: Bytes): Bytes {
    if s != [] && IsSpace(s[0]) then TrimStart(s[1..]) else s
  }

  function TrimEnd(s: Bytes): Bytes {
    if s != [] && IsSpace(s[|s| - 1]) then TrimEnd(s[..|s| - 1]) else s
  }

  function TrimEndDots(s: Bytes): Bytes {
    if s != [] && s[|s| - 1] == DOT then TrimEndDots(s[..|s| - 1]) else s
  }

  /** The domain the encoder works on: without surrounding blanks and trailing dots. */
  function Trimmed(domain: Bytes): Bytes {
    TrimEndDots(TrimEnd(TrimStart(domain)))
  }

  /** The pieces between dots; there is always at least one. */
  function Split(s: Bytes): (labels: seq<Bytes>)
    ensures labels != []
  {
    if s == [] then [[]]
    else
      var rest := Split(s[1..]);
      if s[0] == DOT then [[]] + rest else [[s[0]] + rest[0]] + rest[1..]
  }

  function Join(labels: seq<Bytes>): Bytes {
    if labels == [] then []
    else if |labels| == 1 then labels[0]
    else labels[0] + [DOT] + Join(labels[1..])
  }

  lemma {:induction false} JoinSplit(s: Bytes)
    ensures Join(Split(s)) == s
  {
    if s != [] {
      JoinSplit(s[1..]);
      var rest := Split(s[1..]);
      if s[0] == DOT {
        assert ([[]] + rest)[1..] == rest;
      } else {
        var labels := [[s[0]] + rest[0]] + rest[1..];
        assert labels[1..] == rest[1..];
        assert [s[0]] + Join(rest) == s;
      }
    }
  }

  /** The root name is written as a single dot. */
  function NameText(labels: seq<Bytes>): Bytes {
    if labels == [] then [DOT] else Join(labels)
  }

  predicate AllSpace(s: Bytes) {
    forall i :: 0 <= i < |s| ==> s[i] in {9, 10, 11, 12, 13, 32}
  }

  lemma {:induction false} TrimStartCuts(s: Bytes) returns (front: Bytes)
    ensures s == front + TrimStart(s) && AllSpace(front)
    ensures TrimStart(s) != [] ==> !AllSpace([TrimStart(s)[0]])
  {
    front := [];
    if s != [] && IsSpace(s[0]) {
      front := TrimStartCuts(s[1..]);
      front := [s[0]] + front;
    } else if s != [] {
      assert [s[0]][0] == s[0];
    }
  }

  lemma {:induction false} TrimEndCuts(s: Bytes) returns (back: Bytes)
    ensures s == TrimEnd(s) + back && AllSpace(back)
    ensures TrimEnd(s) != [] ==> !AllSpace([TrimEnd(s)[|TrimEnd(s)| - 1]])
  {
    back := [];
    if s != [] && IsSpace(s[|s| - 1]) {
      back := TrimEndCuts(s[..|s| - 1]);
      back := back + [s[|s| - 1]];
    } else if s != [] {
      assert [s[|s| - 1]][0] == s[|s| - 1];
    }
  }

  lemma {:induction false} TrimEndDotsCuts(s: Bytes) returns (dots: Bytes)
    ensures s == TrimEndDots(s) + dots && forall i :: 0 <= i < |dots| ==> dots[i] == 46
    ensures TrimEndDots(s) != [] ==> TrimEndDots(s)[|TrimEndDots(s)| - 1] != 46
  {
    dots := [];
    if s != [] && s[|s| - 1] == DOT {
      dots := TrimEndDotsCuts(s[..|s| - 1]);
      dots := dots + [s[|s| - 1]];
    }
  }

  /** What is encoded of a domain: all but surrounding blanks and then the dots at its end, and no more is cut. */
  lemma TrimmedIsTheDomain(domain: Bytes) returns (front: Bytes, dots: Bytes, back: Bytes)
    ensures domain == front + (Trimmed(domain) + dots) + back && AllSpace(front) && AllSpace(back)
    ensures forall i :: 0 <= i < |dots| ==> dots[i] == 46
    ensures Trimmed(domain) != [] ==> Trimmed(domain)[|Trimmed(domain)| - 1] != 46
    ensures TrimStart(domain) != [] ==> !AllSpace([TrimStart(domain)[0]])
  {
    front := TrimStartCuts(domain);
    back := TrimEndCuts(TrimStart(domain));
    dots := TrimEndDotsCuts(TrimEnd(TrimStart(domain)));
    assert front + (TrimEnd(TrimStart(domain)) + back) == front + TrimEnd(TrimStart(domain)) + back;
  }

  // ---- Encoding -------------------------------------------------------------------------------

  predicate ValidLabel(l: Bytes) {
    1 <= |l| <= MAX_LABEL
  }

  predicate ValidLabels(labels: seq<Bytes>) {
    forall i :: 0 <= i < |labels| ==> ValidLabel(labels[i])
  }

  function EncodeLabel(l: Bytes): Bytes
    requires ValidLabel(l)
  {
    [|l|] + l
  }

  function EncodeLabels(labels: seq<Bytes>): Bytes
    requires ValidLabels(labels)
  {
    if labels == [] then [] else EncodeLabel(labels[0]) + EncodeLabels(labels[1..])
  }

  function EncodedName(domain: Bytes): Result<Bytes, EncodeError> {
    var d := Trimmed(domain);
    if d == [] then Err(EmptyDomain)
    else if ValidLabels(Split(d)) then Ok(EncodeLabels(Split(d)) + [0])
    else Err(InvalidLabel)
  }

  lemma {:induction false} EncodeLabelsAppend(labels: seq<Bytes>, l: Bytes)
    requires ValidLabels(labels) && ValidLabel(l)
    ensures EncodeLabels(labels + [l]) == EncodeLabels(labels) + EncodeLabel(l)
  {
    if labels == [] {
      assert (labels + [l])[1..] == [];
    } else {
      var all := labels + [l];
      assert all[0] == labels[0] && all[1..] == labels[1..] + [l];
      EncodeLabelsAppend(labels[1..], l);
      ConcatIsAssociative(EncodeLabel(labels[0]), EncodeLabels(labels[1..]), EncodeLabel(l));
    }
  }

  method EncodeName(domain: Bytes) returns (r: Result<Bytes, EncodeError>)
    ensures r == EncodedName(domain)
  {
    var d := Trimmed(domain);
    if d == [] {
      return Err(EmptyDomain);
    }
    var out: Bytes := [];
    var labels := Split(d);
    for i := 0 to |labels|
      invariant ValidLabels(labels[..i]) && out == EncodeLabels(labels[..i])
    {
      var piece := labels[i];
      if piece == [] || |piece| > MAX_LABEL {
        return Err(InvalidLabel);
      }
      EncodeLabelsAppend(labels[..i], piece);
      assert labels[..i + 1] == labels[..i] + [piece];
      ConcatIsAssociative(out, [|piece|], piece);
      out := out + [|piece|];
      out := out + piece;
    }
    assert labels[..|labels|] == labels;
    return Ok(out + [0]);
  }

  /** The encoder refuses an empty domain and any piece that is empty or longer than 63 bytes, and nothing else. */
  lemma EncodesExactlyWhen(domain: Bytes)
    ensures var d := Trimmed(domain);
            match EncodedName(domain)
            case Ok(out) => d != [] && (forall i :: 0 <= i < |Split(d)| ==> 1 <= |Split(d)[i]| <= 63)
                            && out != [] && out[|out| - 1] == 0
            case Err(EmptyDomain) => d == []
            case Err(InvalidLabel) => d != [] && exists i :: 0 <= i < |Split(d)| && !(1 <= |Split(d)[i]| <= 63)
  {
  }

  // ---- Parsing --------------------------------------------------------------------------------

  function PointerTarget(high: Byte, low: Byte): int {
    (high - POINTER_MARK) * 256 + low
  }

  /** The target's labels; the name itself ends behind the pointer. */
  function FromPointer(target: Result<Name, ParseError>, next: nat): Result<Name, ParseError> {
    if target.Ok? then Ok(Name(target.value.labels, next)) else target
  }

  /** The result of parsing the rest of a name, with one more label in front. */
  function WithLabel(l: Bytes, rest: Result<Name, ParseError>): Result<Name, ParseError> {
    if rest.Ok? then Ok(Name([l] + rest.value.labels, rest.value.next)) else rest
  }

  /** A pointer is the fourteen bits behind the two marking ones. */
  lemma PointerTargetBits(high: Byte, low: Byte)
    requires high >= 192
    ensures 0 <= PointerTarget(high, low) < 16384
    ensures PointerTarget(high, low) / 256 == high - 192 && PointerTarget(high, low) % 256 == low
  {
  }

  /** Reads a name from `pos` in at most `steps` turns of the parser's loop. */
  function Walk(buf: Bytes, pos: nat, steps: nat): Result<Name, ParseError>
    decreases steps
  {
    if steps == 0 then Err(CompressionLoop)
    else if pos >= |buf| then Err(NameTruncated)
    else
      var len := buf[pos];
      if len >= POINTER_MARK then
        if pos + 1 >= |buf| then Err(PointerTruncated)
        else FromPointer(Walk(buf, PointerTarget(len, buf[pos + 1]), steps - 1), pos + 2)
      else if len == 0 then Ok(Name([], pos + 1))
      else if len > MAX_LABEL then Err(UnsupportedLabel)
      else if pos + 1 + len > |buf| then Err(LabelTruncated)
      else
        WithLabel(buf[pos + 1..pos + 1 + len], Walk(buf, pos + 1 + len, steps - 1))
  }

  /** The parser's answer within a budget of loop turns. */
  function ParsedName(buf: Bytes, offset: nat, steps: nat): Result<(Bytes, nat), ParseError> {
    match Walk(buf, offset, steps)
    case Ok(name) => Ok((NameText(name.labels), name.next))
    case Err(e) => Err(e)
  }

  /** The parse of the rest, seen from what the loop has collected. */
  ghost function Resume(labels: seq<Bytes>, jumped: bool, next: nat, rest: Result<Name, ParseError>)
    : Result<Name, ParseError>
  {
    match rest
    case Ok(name) => Ok(Name(labels + name.labels, if jumped then next else name.next))
    case Err(e) => Err(e)
  }

  lemma ResumeWithLabel(labels: seq<Bytes>, jumped: bool, next: nat, l: Bytes, rest: Result<Name, ParseError>)
    ensures Resume(labels + [l], jumped, next, rest) == Resume(labels, jumped, next, WithLabel(l, rest))
  {
    if rest.Ok? {
      assert labels + ([l] + rest.value.labels) == labels + [l] + rest.value.labels;
    }
  }

  /** One loop over labels and pointers; it remembers where the name ends before the first jump. */
  method ParseLabels(buf: Bytes, offset: nat, steps: nat) returns (r: Result<Name, ParseError>)
    ensures r == Walk(buf, offset, steps)
  {
    var labels: seq<Bytes> := [];
    var pos: nat, next: nat, jumped := offset, offset, false;
    assert Walk(buf, offset, steps).Ok? ==>
        [] + Walk(buf, offset, steps).value.labels == Walk(buf, offset, steps).value.labels;
    for i := 0 to steps
      invariant Resume(labels, jumped, next, Walk(buf, pos, steps - i)) == Walk(buf, offset, steps)
    {
      if pos >= |buf| {
        return Err(NameTruncated);
      }
      var len := buf[pos];
      if len >= POINTER_MARK {
        if pos + 1 >= |buf| {
          return Err(PointerTruncated);
        }
        next := if jumped then next else pos + 2;
        pos := PointerTarget(len, buf[pos + 1]);
        jumped := true;
        continue;
      }
      if len == 0 {
        next := if jumped then next else pos + 1;
        assert labels + [] == labels;
        return Ok(Name(labels, next));
      }
      if len > MAX_LABEL {
        return Err(UnsupportedLabel);
      }
      var start := pos + 1;
      var end := start + len;
      if end > |buf| {
        return Err(LabelTruncated);
      }
      ResumeWithLabel(labels, jumped, next, buf[start..end], Walk(buf, end, steps - i - 1));
      labels := labels + [buf[start..end]];
      pos := end;
    }
    return Err(CompressionLoop);
  }

  method ParseName(buf: Bytes, offset: nat, steps: nat := MAX_STEPS) returns (r: Result<(Bytes, nat), ParseError>)
    ensures r == ParsedName(buf, offset, steps)
  {
    var name := ParseLabels(buf, offset, steps);
    match name
    case Ok(n) => r := Ok((if n.labels == [] then [DOT] else Join(n.labels), n.next));
    case Err(e) => r := Err(e);
  }

  // ---- Names as the standard defines them -----------------------------------------------------

  /**
   The bytes at `pos` spell these labels: labels one after the other, ended by a zero byte or by a
   pointer to where they continue.  `steps` counts the labels, pointers and terminators passed.
   */
  predicate Spells(buf: Bytes, pos: nat, labels: seq<Bytes>, steps: nat)
    decreases steps
  {
    && steps > 0 && pos < |buf|
    && var len := buf[pos];
       if len == 0 then labels == [] && steps == 1
       else if len <= MAX_LABEL then
         && pos + 1 + len <= |buf| && labels != [] && labels[0] == buf[pos + 1..pos + 1 + len]
         && Spells(buf, pos + 1 + len, labels[1..], steps - 1)
       else
         && len >= POINTER_MARK && pos + 1 < |buf|
         && Spells(buf, PointerTarget(len, buf[pos + 1]), labels, steps - 1)
  }

  /** Where a name ends at its first place: after its terminator or its first pointer. */
  function NameEnd(buf: Bytes, pos: nat): nat
    decreases |buf| - pos
  {
    if pos >= |buf| then pos
    else if buf[pos] == 0 then pos + 1
    else if buf[pos] >= POINTER_MARK then pos + 2
    else NameEnd(buf, pos + 1 + buf[pos])
  }

  ghost predicate NameAt(buf: Bytes, pos: nat, labels: seq<Bytes>, next: nat, steps: nat) {
    Spells(buf, pos, labels, steps) && next == NameEnd(buf, pos)
  }

  lemma {:induction false} WalkFindsName(buf: Bytes, pos: nat, fuel: nat) returns (steps: nat)
    requires Walk(buf, pos, fuel).Ok?
    ensures steps <= fuel
    ensures NameAt(buf, pos, Walk(buf, pos, fuel).value.labels, Walk(buf, pos, fuel).value.next, steps)
    decreases fuel
  {
    var len := buf[pos];
    if len >= POINTER_MARK {
      steps := WalkFindsName(buf, PointerTarget(len, buf[pos + 1]), fuel - 1);
      steps := steps + 1;
    } else if len == 0 {
      steps := 1;
    } else {
      var rest := Walk(buf, pos + 1 + len, fuel - 1).value;
      steps := WalkFindsName(buf, pos + 1 + len, fuel - 1);
      steps := steps + 1;
      assert ([buf[pos + 1..pos + 1 + len]] + rest.labels)[1..] == rest.labels;
    }
  }

  /** With enough turns the parser finds the name; with too few it reports a loop. */
  lemma {:induction false} NameIsWalked(buf: Bytes, pos: nat, labels: seq<Bytes>, steps: nat, fuel: nat)
    requires Spells(buf, pos, labels, steps)
    ensures Walk(buf, pos, fuel) ==
            if steps <= fuel then Ok(Name(labels, NameEnd(buf, pos))) else Err(CompressionLoop)
    decreases steps
  {
    if fuel > 0 {
      var len := buf[pos];
      if len >= POINTER_MARK {
        NameIsWalked(buf, PointerTarget(len, buf[pos + 1]), labels, steps - 1, fuel - 1);
      } else if len > 0 {
        NameIsWalked(buf, pos + 1 + len, labels[1..], steps - 1, fuel - 1);
        assert labels == [labels[0]] + labels[1..];
      }
    }
  }

  /** The parser accepts exactly the names that fit its step budget, with their labels and their end. */
  lemma ParserAcceptsExactlyNames(buf: Bytes, offset: nat, labels: seq<Bytes>, next: nat, budget: nat)
    ensures Walk(buf, offset, budget) == Ok(Name(labels, next))
            <==> exists steps: nat :: steps <= budget && NameAt(buf, offset, labels, next, steps)
  {
    if Walk(buf, offset, budget) == Ok(Name(labels, next)) {
      var steps := WalkFindsName(buf, offset, budget);
    }
    forall steps: nat | steps <= budget && NameAt(buf, offset, labels, next, steps)
      ensures Walk(buf, offset, budget) == Ok(Name(labels, next))
    {
      NameIsWalked(buf, offset, labels, steps, budget);
    }
  }

  // ---- Round trips ----------------------------------------------------------------------------

  /** The bytes at `pos` are these. */
  predicate SitsAt(buf: Bytes, pos: nat, part: Bytes) {
    pos + |part| <= |buf| && forall i :: 0 <= i < |part| ==> part[i] == buf[pos + i]
  }

  lemma SitsAtSplit(buf: Bytes, pos: nat, a: Bytes, b: Bytes)
    requires SitsAt(buf, pos, a + b)
    ensures SitsAt(buf, pos, a) && SitsAt(buf, pos + |a|, b)
  {
    assert forall i :: 0 <= i < |a| ==> a[i] == (a + b)[i];
    assert forall i :: 0 <= i < |b| ==> b[i] == (a + b)[|a| + i];
  }

  lemma LabelSits(buf: Bytes, pos: nat, l: Bytes)
    requires ValidLabel(l) && SitsAt(buf, pos, EncodeLabel(l))
    ensures buf[pos] == |l| && buf[pos + 1..pos + 1 + |l|] == l
  {
    var part := EncodeLabel(l);
    assert part[0] == |l| && forall i :: 0 <= i < |l| ==> part[1 + i] == l[i];
  }

  /** The result of parsing the rest of a name, with more labels in front. */
  function WithLabels(labels: seq<Bytes>, rest: Result<Name, ParseError>): Result<Name, ParseError> {
    if rest.Ok? then Ok(Name(labels + rest.value.labels, rest.value.next)) else rest
  }

  lemma WithLabelsStep(labels: seq<Bytes>, rest: Result<Name, ParseError>)
    requires labels != []
    ensures WithLabel(labels[0], WithLabels(labels[1..], rest)) == WithLabels(labels, rest)
  {
    if rest.Ok? {
      assert [labels[0]] + (labels[1..] + rest.value.labels) == labels + rest.value.labels;
    }
  }

  lemma LabelIsWalked(buf: Bytes, pos: nat, l: Bytes, steps: nat)
    requires ValidLabel(l) && SitsAt(buf, pos, EncodeLabel(l)) && steps > 0
    ensures Walk(buf, pos, steps) == WithLabel(l, Walk(buf, pos + 1 + |l|, steps - 1))
  {
    LabelSits(buf, pos, l);
  }

  /** The parser reads encoded labels one step each and goes on behind them. */
  lemma {:induction false} WalkOverLabels(buf: Bytes, pos: nat, labels: seq<Bytes>, steps: nat)
    requires ValidLabels(labels) && SitsAt(buf, pos, EncodeLabels(labels))
    ensures Walk(buf, pos, steps) ==
            if steps < |labels| then Err(CompressionLoop)
            else WithLabels(labels, Walk(buf, pos + |EncodeLabels(labels)|, steps - |labels|))
    decreases |labels|
  {
    if labels == [] {
      var rest := Walk(buf, pos, steps);
      assert rest.Ok? ==> [] + rest.value.labels == rest.value.labels;
    } else if steps > 0 {
      var l, tail := labels[0], labels[1..];
      SitsAtSplit(buf, pos, EncodeLabel(l), EncodeLabels(tail));
      LabelIsWalked(buf, pos, l, steps);
      WalkOverLabels(buf, pos + 1 + |l|, tail, steps - 1);
      if steps >= |labels| {
        var end := pos + |EncodeLabels(labels)|;
        assert end == pos + 1 + |l| + |EncodeLabels(tail)|;
        WithLabelsStep(labels, Walk(buf, end, steps - |labels|));
      }
    }
  }

  lemma MiddleSits(before: Bytes, part: Bytes, after: Bytes)
    ensures SitsAt(before + part + after, |before|, part)
  {
  }

  lemma TerminatedNameIsWalked(buf: Bytes, pos: nat, labels: seq<Bytes>, steps: nat)
    requires ValidLabels(labels) && SitsAt(buf, pos, EncodeLabels(labels) + [0])
    ensures Walk(buf, pos, steps) ==
            if |labels| < steps then Ok(Name(labels, pos + |EncodeLabels(labels)| + 1)) else Err(CompressionLoop)
  {
    var end := pos + |EncodeLabels(labels)|;
    SitsAtSplit(buf, pos, EncodeLabels(labels), [0]);
    assert buf[end] == [0][0];
    WalkOverLabels(buf, pos, labels, steps);
    assert labels + [] == labels;
  }

  /**
   Parsing what the encoder wrote, inside any surrounding bytes, gives the same domain and the offset
   just past it; exactly if a step is left for the terminator, so with 32 steps up to 31 labels.
   */
  lemma EncodedNameParsesBack(domain: Bytes, before: Bytes, after: Bytes, steps: nat)
    requires EncodedName(domain).Ok?
    ensures var encoded := EncodedName(domain).value;
            ParsedName(before + encoded + after, |before|, steps) ==
            if |Split(Trimmed(domain))| < steps
            then Ok((Trimmed(domain), |before| + |encoded|)) else Err(CompressionLoop)
  {
    var labels := Split(Trimmed(domain));
    MiddleSits(before, EncodeLabels(labels) + [0], after);
    TerminatedNameIsWalked(before + (EncodeLabels(labels) + [0]) + after, |before|, labels, steps);
    JoinSplit(Trimmed(domain));
  }

  /**
   Labels followed by a compression pointer parse to those labels and then what stands at the
   target, with the offset just past the pointer.  The target gets the steps that are left; when it
   cannot be parsed in those, neither can the whole.
   */
  lemma PointerContinuesAtTarget(buf: Bytes, pos: nat, labels: seq<Bytes>, high: Byte, low: Byte, steps: nat)
    requires ValidLabels(labels) && high >= POINTER_MARK
    requires SitsAt(buf, pos, EncodeLabels(labels) + [high, low])
    ensures Walk(buf, pos, steps) ==
            if steps <= |labels| then Err(CompressionLoop)
            else WithLabels(labels, FromPointer(Walk(buf, PointerTarget(high, low), steps - |labels| - 1),
                                                pos + |EncodeLabels(labels)| + 2))
  {
    var at := pos + |EncodeLabels(labels)|;
    SitsAtSplit(buf, pos, EncodeLabels(labels), [high, low]);
    assert [high, low][0] == buf[at] && [high, low][1] == buf[at + 1];
    WalkOverLabels(buf, pos, labels, steps);
  }

  /** With the program's 32 steps a domain of up to 31 labels, and no longer one, parses back. */
  lemma ThirtyOneLabelsParseBack(domain: Bytes, before: Bytes, after: Bytes, steps: nat)
    requires EncodedName(domain).Ok? && steps == MAX_STEPS
    ensures ParsedName(before + EncodedName(domain).value + after, |before|, steps).Ok?
            <==> |Split(Trimmed(domain))| <= 31
  {
    EncodedNameParsesBack(domain, before, after, steps);
  }
}
