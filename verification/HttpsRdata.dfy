/**
 HTTPS record data: the parser, and an encoder written from sections 2.2, 7.1.1 and 7.2 of RFC 9460
 that the parser inverts.
 */
module HttpsRdata {
  import opened Common
  import opened DnsCodec

  type U16 = n: int | 0 <= n < 65536

  const KEY_ALPN: U16 := 1
  const KEY_PORT: U16 := 3
  const KEY_ECH: U16 := 5

  datatype Failure = RdataTruncated | BadTarget(error: ParseError) | TargetPastRdata | ParamTruncated | AlpnTruncated

  datatype Answer = Answer(priority: U16, target: Bytes, alpn: seq<Bytes>, port: Option<U16>,
                           ech: Option<Bytes>, ttl: int)

  /** What the parameters have contributed so far. */
  datatype Fields = Fields(alpn: seq<Bytes>, port: Option<U16>, ech: Option<Bytes>)

  const NO_FIELDS := Fields([], None, None)

  function Read16(buf: Bytes, pos: nat): U16
    requires pos + 2 <= |buf|
  {
    var high: int, low: int := buf[pos], buf[pos + 1];
    high * 256 + low
  }

  function Put16(n: U16): Bytes {
    [n / 256, n % 256]
  }

  lemma Read16AfterPut(buf: Bytes, pos: nat, n: U16)
    requires SitsAt(buf, pos, Put16(n))
    ensures pos + 2 <= |buf| && Read16(buf, pos) == n
  {
    assert Put16(n)[0] == buf[pos] && Put16(n)[1] == buf[pos + 1];
  }

  // ---- Parsing --------------------------------------------------------------------------------

  /** The identifiers of an alpn value from an offset on: each one preceded by its length. */
  function AlpnFrom(value: Bytes, offset: nat): Option<seq<Bytes>>
    requires offset <= |value|
    decreases |value| - offset
  {
    if offset == |value| then Some([])
    else
      var start, size := offset + 1, value[offset];
      if start + size > |value| then None
      else
        var rest := AlpnFrom(value, start + size);
        if rest.None? then None else Some([value[start..start + size]] + rest.value)
  }

  ghost function Appended(before: seq<Bytes>, ids: Option<seq<Bytes>>): Option<seq<Bytes>> {
    if ids.None? then None else Some(before + ids.value)
  }

  lemma AppendedOne(before: seq<Bytes>, id: Bytes, rest: Option<seq<Bytes>>)
    ensures rest.Some? ==> before + ([id] + rest.value) == before + [id] + rest.value
  {
  }

  method ParseAlpn(value: Bytes, before: seq<Bytes>) returns (r: Option<seq<Bytes>>)
    ensures r == match AlpnFrom(value, 0)
                 case Some(ids) => Some(before + ids)
                 case None => None
  {
    var ids := before;
    var offset: nat := 0;
    ghost var whole := AlpnFrom(value, 0);
    assert whole.Some? ==> before + whole.value == before + [] + whole.value;
    while offset < |value|
      invariant offset <= |value|
      invariant Appended(before, whole) == Appended(ids, AlpnFrom(value, offset))
      decreases |value| - offset
    {
      var size := value[offset];
      offset := offset + 1;
      if offset + size > |value| {
        return None;
      }
      AppendedOne(ids, value[offset..offset + size], AlpnFrom(value, offset + size));
      ids := ids + [value[offset..offset + size]];
      offset := offset + size;
    }
    assert ids + [] == ids;
    return Some(ids);
  }

  function Absorb(f: Fields, key: U16, value: Bytes): Result<Fields, Failure> {
    if key == KEY_ALPN then
      match AlpnFrom(value, 0)
      case Some(ids) => Ok(f.(alpn := f.alpn + ids))
      case None => Err(AlpnTruncated)
    else if key == KEY_PORT && |value| == 2 then Ok(f.(port := Some(Read16(value, 0))))
    else if key == KEY_ECH then Ok(f.(ech := Some(value)))
    else Ok(f)
  }

  /** The parameters from `pos` on; fewer than four bytes at the end are ignored. */
  function Params(buf: Bytes, pos: nat, end: nat, f: Fields): Result<Fields, Failure>
    requires end <= |buf|
    decreases end - pos
  {
    if pos + 4 > end then Ok(f)
    else
      var valueEnd := pos + 4 + Read16(buf, pos + 2);
      if valueEnd > end then Err(ParamTruncated)
      else match Absorb(f, Read16(buf, pos), buf[pos + 4..valueEnd])
        case Ok(f') => Params(buf, valueEnd, end, f')
        case Err(e) => Err(e)
  }

  function Rdata(buf: Bytes, start: nat, end: nat, ttl: int, steps: nat): Result<Answer, Failure>
    requires end <= |buf|
  {
    if start + 3 > end then Err(RdataTruncated)
    else match ParsedName(buf, start + 2, steps)
      case Err(e) => Err(BadTarget(e))
      case Ok(target) =>
        if target.1 > end then Err(TargetPastRdata)
        else match Params(buf, target.1, end, NO_FIELDS)
          case Err(e) => Err(e)
          case Ok(f) => Ok(Answer(Read16(buf, start), target.0, f.alpn, f.port, f.ech, ttl))
  }

  /** One parameter, absorbed into the fields. */
  method AbsorbParam(f: Fields, key: U16, value: Bytes) returns (r: Result<Fields, Failure>)
    ensures r == Absorb(f, key, value)
  {
    if key == KEY_ALPN {
      var ids := ParseAlpn(value, f.alpn);
      if ids.None? {
        return Err(AlpnTruncated);
      }
      return Ok(f.(alpn := ids.value));
    }
    if key == KEY_PORT && |value| == 2 {
      return Ok(f.(port := Some(Read16(value, 0))));
    }
    if key == KEY_ECH {
      return Ok(f.(ech := Some(value)));
    }
    return Ok(f);
  }

  method ParseHttpsRdata(buf: Bytes, start: nat, end: nat, ttl: int, steps: nat := MAX_STEPS)
    returns (r: Result<Answer, Failure>)
    requires end <= |buf|
    ensures r == Rdata(buf, start, end, ttl, steps)
  {
    if start + 3 > end {
      return Err(RdataTruncated);
    }
    var priority := Read16(buf, start);
    var name := ParseName(buf, start + 2, steps);
    if name.Err? {
      return Err(BadTarget(name.error));
    }
    var target, pos := name.value.0, name.value.1;
    if pos > end {
      return Err(TargetPastRdata);
    }
    var f := NO_FIELDS;
    ghost var whole := Params(buf, pos, end, f);
    while pos + 4 <= end
      invariant pos <= end && Params(buf, pos, end, f) == whole
      decreases end - pos
    {
      var key, len := Read16(buf, pos), Read16(buf, pos + 2);
      pos := pos + 4;
      var valueEnd := pos + len;
      if valueEnd > end {
        return Err(ParamTruncated);
      }
      var absorbed := AbsorbParam(f, key, buf[pos..valueEnd]);
      if absorbed.Err? {
        return Err(absorbed.error);
      }
      f := absorbed.value;
      pos := valueEnd;
    }
    return Ok(Answer(priority, target, f.alpn, f.port, f.ech, ttl));
  }

  lemma OneLiteralParam(buf: Bytes, key: Byte, value: Bytes, f: Fields)
    requires |value| < 256 && |buf| == 4 + |value| && buf[4..] == value
    requires buf[0] == 0 && buf[1] == key && buf[2] == 0 && buf[3] == |value|
    ensures Params(buf, 0, |buf|, f) == Absorb(f, key, value)
  {
    assert Read16(buf, 0) == key && Read16(buf, 2) == |value|;
    assert buf[4..4 + |value|] == value;
  }

  /** The registered keys, on literal bytes: 1 is alpn, 3 is port, 5 is ech, and 2 is not used. */
  lemma LiteralParams(high: Byte, low: Byte, f: Fields)
    ensures Params([0, 1, 0, 3, 2, high, low], 0, 7, f) == Ok(f.(alpn := f.alpn + [[high, low]]))
    ensures Params([0, 3, 0, 2, high, low], 0, 6, f) == Ok(f.(port := Some(high as int * 256 + low as int)))
    ensures Params([0, 5, 0, 2, high, low], 0, 6, f) == Ok(f.(ech := Some([high, low])))
    ensures Params([0, 2, 0, 2, high, low], 0, 6, f) == Ok(f)
  {
    var value: Bytes := [high, low];
    var ids: Bytes := [2, high, low];
    OneLiteralParam([0, 1, 0, 3, 2, high, low], 1, ids, f);
    OneLiteralParam([0, 3, 0, 2, high, low], 3, value, f);
    OneLiteralParam([0, 5, 0, 2, high, low], 5, value, f);
    OneLiteralParam([0, 2, 0, 2, high, low], 2, value, f);
    assert AlpnFrom(ids, 3) == Some([]) && ids[1..3] == value;
    assert AlpnFrom(ids, 0) == Some([value]) by {
      assert [value] + [] == [value];
    }
  }

  // ---- The specification encoder --------------------------------------------------------------

  /** A service parameter by its meaning; `Other` is any key or length the parser does not use. */
  datatype SvcParam = Alpn(ids: seq<Bytes>) | Port(port: U16) | Ech(config: Bytes) | Other(key: U16, value: Bytes)

  function EncodeIds(ids: seq<Bytes>): Bytes
    requires forall i :: 0 <= i < |ids| ==> |ids[i]| < 256
  {
    if ids == [] then [] else [|ids[0]|] + ids[0] + EncodeIds(ids[1..])
  }

  predicate ValidIds(ids: seq<Bytes>) {
    && (forall i :: 0 <= i < |ids| ==> |ids[i]| < 256)
    && |EncodeIds(ids)| < 65536
  }

  predicate ValidParam(p: SvcParam) {
    match p
    case Alpn(ids) => ValidIds(ids)
    case Port(_) => true
    case Ech(config) => |config| < 65536
    case Other(key, value) =>
      |value| < 65536 && key != KEY_ALPN && key != KEY_ECH && !(key == KEY_PORT && |value| == 2)
  }

  function KeyOf(p: SvcParam): U16 {
    match p
    case Alpn(_) => KEY_ALPN
    case Port(_) => KEY_PORT
    case Ech(_) => KEY_ECH
    case Other(key, _) => key
  }

  function ValueOf(p: SvcParam): (value: Bytes)
    requires ValidParam(p)
    ensures |value| < 65536
  {
    match p
    case Alpn(ids) => EncodeIds(ids)
    case Port(port) => Put16(port)
    case Ech(config) => config
    case Other(_, value) => value
  }

  function EncodeParam(p: SvcParam): Bytes
    requires ValidParam(p)
  {
    Put16(KeyOf(p)) + Put16(|ValueOf(p)|) + ValueOf(p)
  }

  predicate ValidParams(ps: seq<SvcParam>) {
    forall i :: 0 <= i < |ps| ==> ValidParam(ps[i])
  }

  function EncodeParams(ps: seq<SvcParam>): Bytes
    requires ValidParams(ps)
  {
    if ps == [] then [] else EncodeParam(ps[0]) + EncodeParams(ps[1..])
  }

  function EncodeTarget(target: seq<Bytes>): Bytes
    requires ValidLabels(target)
  {
    EncodeLabels(target) + [0]
  }

  function EncodeRdata(priority: U16, target: seq<Bytes>, ps: seq<SvcParam>): Bytes
    requires ValidLabels(target) && ValidParams(ps)
  {
    Put16(priority) + EncodeTarget(target) + EncodeParams(ps)
  }

  function Apply(f: Fields, p: SvcParam): Fields {
    match p
    case Alpn(ids) => f.(alpn := f.alpn + ids)
    case Port(port) => f.(port := Some(port))
    case Ech(config) => f.(ech := Some(config))
    case Other(_, _) => f
  }

  /** The parameters' meaning on top of earlier fields. */
  function Meaning(ps: seq<SvcParam>, f: Fields): Fields {
    if ps == [] then f else Meaning(ps[1..], Apply(f, ps[0]))
  }

  // ---- What the fields mean -------------------------------------------------------------------

  function AllIds(ps: seq<SvcParam>): seq<Bytes> {
    if ps == [] then []
    else
      var last := ps[|ps| - 1];
      AllIds(ps[..|ps| - 1]) + if last.Alpn? then last.ids else []
  }

  function LastPort(ps: seq<SvcParam>): Option<U16> {
    if ps == [] then None
    else if ps[|ps| - 1].Port? then Some(ps[|ps| - 1].port)
    else LastPort(ps[..|ps| - 1])
  }

  function LastEch(ps: seq<SvcParam>): Option<Bytes> {
    if ps == [] then None
    else if ps[|ps| - 1].Ech? then Some(ps[|ps| - 1].config)
    else LastEch(ps[..|ps| - 1])
  }

  lemma {:induction false} LastParamIsAppliedLast(ps: seq<SvcParam>, f: Fields)
    requires ps != []
    ensures Meaning(ps, f) == Apply(Meaning(ps[..|ps| - 1], f), ps[|ps| - 1])
  {
    var front := ps[..|ps| - 1];
    if front != [] {
      LastParamIsAppliedLast(ps[1..], Apply(f, ps[0]));
      assert front[1..] == ps[1..][..|ps[1..]| - 1];
    }
  }

  /** The identifiers of all alpn parameters add up; of the other two kinds the last one counts. */
  lemma {:induction false} MeaningIsLastWins(ps: seq<SvcParam>)
    ensures Meaning(ps, NO_FIELDS) == Fields(AllIds(ps), LastPort(ps), LastEch(ps))
  {
    if ps != [] {
      MeaningIsLastWins(ps[..|ps| - 1]);
      LastParamIsAppliedLast(ps, NO_FIELDS);
    }
  }

  // ---- The parser inverts the encoder ---------------------------------------------------------

  lemma {:induction false} AlpnReadsBack(value: Bytes, offset: nat, ids: seq<Bytes>)
    requires (forall i :: 0 <= i < |ids| ==> |ids[i]| < 256) && offset <= |value|
    requires value[offset..] == EncodeIds(ids)
    ensures AlpnFrom(value, offset) == Some(ids)
    decreases |ids|
  {
    if ids != [] {
      var id := ids[0];
      var rest := value[offset..];
      assert rest[0] == value[offset] == |id|;
      assert value[offset + 1..offset + 1 + |id|] == rest[1..1 + |id|] == id;
      assert value[offset + 1 + |id|..] == rest[1 + |id|..] == EncodeIds(ids[1..]);
      AlpnReadsBack(value, offset + 1 + |id|, ids[1..]);
      assert ids == [id] + ids[1..];
    }
  }

  /** Conversely, every value the parser accepts is the encoding of the identifiers it reads. */
  lemma {:induction false} AlpnAcceptsOnlyEncodings(value: Bytes, offset: nat)
    requires offset <= |value| && AlpnFrom(value, offset).Some?
    ensures var ids := AlpnFrom(value, offset).value;
            (forall i :: 0 <= i < |ids| ==> |ids[i]| < 256) && value[offset..] == EncodeIds(ids)
    decreases |value| - offset
  {
    if offset < |value| {
      var start, size := offset + 1, value[offset];
      AlpnAcceptsOnlyEncodings(value, start + size);
      var rest := AlpnFrom(value, start + size).value;
      var ids := [value[start..start + size]] + rest;
      assert ids[1..] == rest;
      assert value[offset..] == [size] + value[start..start + size] + value[start + size..];
    }
  }

  lemma ParamIsAbsorbed(p: SvcParam, f: Fields)
    requires ValidParam(p)
    ensures Absorb(f, KeyOf(p), ValueOf(p)) == Ok(Apply(f, p))
  {
    match p
    case Alpn(ids) =>
      assert ValueOf(p)[0..] == ValueOf(p);
      AlpnReadsBack(ValueOf(p), 0, ids);
    case Port(port) => Read16AfterPut(Put16(port), 0, port);
    case Ech(_) =>
    case Other(_, _) =>
  }

  lemma ParamSits(buf: Bytes, pos: nat, p: SvcParam)
    requires ValidParam(p) && SitsAt(buf, pos, EncodeParam(p))
    ensures var size := |ValueOf(p)|;
            && |EncodeParam(p)| == 4 + size && pos + 4 + size <= |buf|
            && Read16(buf, pos) == KeyOf(p) && Read16(buf, pos + 2) == size
            && buf[pos + 4..pos + 4 + size] == ValueOf(p)
  {
    var value := ValueOf(p);
    SitsAtSplit(buf, pos, Put16(KeyOf(p)) + Put16(|value|), value);
    SitsAtSplit(buf, pos, Put16(KeyOf(p)), Put16(|value|));
    Read16AfterPut(buf, pos, KeyOf(p));
    Read16AfterPut(buf, pos + 2, |value|);
  }

  lemma OneParamIsRead(buf: Bytes, pos: nat, end: nat, p: SvcParam, f: Fields)
    requires ValidParam(p) && SitsAt(buf, pos, EncodeParam(p)) && pos + |EncodeParam(p)| <= end <= |buf|
    ensures Params(buf, pos, end, f) == Params(buf, pos + |EncodeParam(p)|, end, Apply(f, p))
  {
    ParamSits(buf, pos, p);
    ParamIsAbsorbed(p, f);
  }

  lemma FirstParamSits(buf: Bytes, pos: nat, ps: seq<SvcParam>)
    requires ValidParams(ps) && ps != [] && SitsAt(buf, pos, EncodeParams(ps))
    ensures SitsAt(buf, pos, EncodeParam(ps[0]))
    ensures SitsAt(buf, pos + |EncodeParam(ps[0])|, EncodeParams(ps[1..]))
    ensures |EncodeParams(ps)| == |EncodeParam(ps[0])| + |EncodeParams(ps[1..])|
  {
    SitsAtSplit(buf, pos, EncodeParam(ps[0]), EncodeParams(ps[1..]));
  }

  lemma {:induction false} ParamsReadBack(buf: Bytes, pos: nat, end: nat, ps: seq<SvcParam>, f: Fields)
    requires ValidParams(ps) && end <= |buf| && pos + |EncodeParams(ps)| == end
    requires SitsAt(buf, pos, EncodeParams(ps))
    ensures Params(buf, pos, end, f) == Ok(Meaning(ps, f))
    decreases |ps|
  {
    if ps != [] {
      var p, rest := ps[0], ps[1..];
      var size := |EncodeParam(p)|;
      FirstParamSits(buf, pos, ps);
      OneParamIsRead(buf, pos, end, p, f);
      ParamsReadBack(buf, pos + size, end, rest, Apply(f, p));
    }
  }

  /** Where the three parts of encoded record data stand. */
  lemma RdataParts(buf: Bytes, start: nat, priority: U16, target: seq<Bytes>, ps: seq<SvcParam>)
    requires ValidLabels(target) && ValidParams(ps) && SitsAt(buf, start, EncodeRdata(priority, target, ps))
    ensures var name := EncodeTarget(target);
            && start + 3 <= start + 2 + |name| <= |buf| && Read16(buf, start) == priority
            && SitsAt(buf, start + 2, name) && SitsAt(buf, start + 2 + |name|, EncodeParams(ps))
            && start + |EncodeRdata(priority, target, ps)| == start + 2 + |name| + |EncodeParams(ps)|
  {
    var name, params := EncodeTarget(target), EncodeParams(ps);
    SitsAtSplit(buf, start, Put16(priority) + name, params);
    SitsAtSplit(buf, start, Put16(priority), name);
    Read16AfterPut(buf, start, priority);
  }

  lemma RdataFromParts(buf: Bytes, start: nat, end: nat, ttl: int, steps: nat, text: Bytes, mid: nat, f: Fields)
    requires start + 3 <= end <= |buf| && mid <= end
    requires ParsedName(buf, start + 2, steps) == Ok((text, mid)) && Params(buf, mid, end, NO_FIELDS) == Ok(f)
    ensures Rdata(buf, start, end, ttl, steps) == Ok(Answer(Read16(buf, start), text, f.alpn, f.port, f.ech, ttl))
  {
  }

  lemma BadTargetFails(buf: Bytes, start: nat, end: nat, ttl: int, steps: nat, e: ParseError)
    requires start + 3 <= end <= |buf| && ParsedName(buf, start + 2, steps) == Err(e)
    ensures Rdata(buf, start, end, ttl, steps) == Err(BadTarget(e))
  {
  }

  lemma TargetIsRead(buf: Bytes, pos: nat, target: seq<Bytes>, steps: nat)
    requires ValidLabels(target) && SitsAt(buf, pos, EncodeTarget(target))
    ensures ParsedName(buf, pos, steps) ==
            if |target| < steps then Ok((NameText(target), pos + |EncodeTarget(target)|)) else Err(CompressionLoop)
  {
    TerminatedNameIsWalked(buf, pos, target, steps);
  }

  lemma RdataIsRead(buf: Bytes, start: nat, mid: nat, end: nat, target: seq<Bytes>, ps: seq<SvcParam>, ttl: int,
                    steps: nat)
    requires ValidLabels(target) && ValidParams(ps) && start + 3 <= mid <= end <= |buf|
    requires SitsAt(buf, start + 2, EncodeTarget(target)) && mid == start + 2 + |EncodeTarget(target)|
    requires SitsAt(buf, mid, EncodeParams(ps)) && end == mid + |EncodeParams(ps)|
    ensures Rdata(buf, start, end, ttl, steps) ==
            if |target| < steps
            then Ok(Answer(Read16(buf, start), NameText(target), AllIds(ps), LastPort(ps), LastEch(ps), ttl))
            else Err(BadTarget(CompressionLoop))
  {
    TargetIsRead(buf, start + 2, target, steps);
    if |target| < steps {
      ParamsReadBack(buf, mid, end, ps, NO_FIELDS);
      MeaningIsLastWins(ps);
      RdataFromParts(buf, start, end, ttl, steps, NameText(target), mid,
                     Fields(AllIds(ps), LastPort(ps), LastEch(ps)));
    } else {
      BadTargetFails(buf, start, end, ttl, steps, CompressionLoop);
    }
  }

  /**
   For any priority, target and parameters, inside any surrounding bytes, the parse returns that
   priority and target, all alpn identifiers in order, the last two-byte port and the last ech value,
   whatever unknown parameters stand in between; exactly if the target fits the step budget.
   */
  lemma RdataReadsBack(priority: U16, target: seq<Bytes>, ps: seq<SvcParam>, buf: Bytes, start: nat, end: nat,
                       ttl: int, steps: nat)
    requires ValidLabels(target) && ValidParams(ps)
    requires SitsAt(buf, start, EncodeRdata(priority, target, ps))
    requires end == start + |EncodeRdata(priority, target, ps)|
    ensures Rdata(buf, start, end, ttl, steps) ==
            if |target| < steps
            then Ok(Answer(priority, NameText(target), AllIds(ps), LastPort(ps), LastEch(ps), ttl))
            else Err(BadTarget(CompressionLoop))
  {
    RdataParts(buf, start, priority, target, ps);
    RdataIsRead(buf, start, start + 2 + |EncodeTarget(target)|, end, target, ps, ttl, steps);
  }
}
