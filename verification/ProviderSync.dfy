/**
 Paginated synchronisation of provider orders and fills.  A page holds the first records strictly
 after a cursor, in cursor order; the loop asks for the next page after the last record it saw.
 */
module ProviderSync {
  import opened Common

  const ORDER_PAGE := 500
  const EPOCH := 0
  const MILLIS_PER_SECOND := 1000
  const MILLIS_PER_DAY := 86_400_000

  /** An order or fill: its identifier, its place in the provider's order, and all its other columns. */
  datatype Record = Record(id: string, cursor: int, content: string)

  type Stored = map<string, Record>

  /** The provider answers in cursor order. */
  predicate Sorted(h: seq<Record>) {
    forall i, j :: 0 <= i < j < |h| ==> h[i].cursor <= h[j].cursor
  }

  predicate DistinctIds(h: seq<Record>) {
    forall i, j :: 0 <= i < j < |h| ==> h[i].id != h[j].id
  }

  ghost predicate IsHistory(h: seq<Record>) {
    Sorted(h) && DistinctIds(h) && forall r :: r in h ==> r.cursor > EPOCH
  }

  /** How many leading records a query after this cursor skips. */
  function Skipped(h: seq<Record>, after: int): (k: nat)
    ensures k <= |h|
    ensures k < |h| ==> h[k].cursor > after
    ensures forall i :: 0 <= i < k ==> h[i].cursor <= after
  {
    if h == [] then 0
    else if h[0].cursor > after then 0
    else 1 + Skipped(h[1..], after)
  }

  function Page(h: seq<Record>, after: int, size: nat): seq<Record> {
    var k := Skipped(h, after);
    h[k..Min(k + size, |h|)]
  }

  /** Where the page after a full one starts: behind everything with the cursor the full one ends on. */
  function NextStart(h: seq<Record>, k: nat, size: nat): (next: nat)
    requires Sorted(h) && size > 0 && k + size <= |h|
    ensures k + size <= next <= |h|
    ensures next == k + size <==> k + size == |h| || h[k + size - 1].cursor < h[k + size].cursor
  {
    Skipped(h, h[k + size - 1].cursor)
  }

  /** The records the loop receives when it starts after the first `k`. */
  function Fetched(h: seq<Record>, k: nat, size: nat): seq<Record>
    requires Sorted(h) && size > 0 && k <= |h|
    decreases |h| - k
  {
    if k + size > |h| then h[k..]
    else h[k..k + size] + Fetched(h, NextStart(h, k, size), size)
  }

  function Upserted(rows: Stored, records: seq<Record>): Stored {
    if records == [] then rows
    else
      var last := records[|records| - 1];
      Upserted(rows, records[..|records| - 1])[last.id := last]
  }

  lemma {:induction false} UpsertedConcat(rows: Stored, a: seq<Record>, b: seq<Record>)
    ensures Upserted(Upserted(rows, a), b) == Upserted(rows, a + b)
  {
    if b == [] {
      assert a + b == a;
    } else {
      UpsertedConcat(rows, a, b[..|b| - 1]);
      assert (a + b)[..|a + b| - 1] == a + b[..|b| - 1];
    }
  }

  /** An upserted record wins; any other row is as it was. */
  lemma {:induction false} UpsertedRow(rows: Stored, records: seq<Record>, id: string)
    ensures var after := Upserted(rows, records);
            if exists r :: r in records && r.id == id
            then id in after && after[id] in records && after[id].id == id
            else (id in after <==> id in rows) && (id in rows ==> after[id] == rows[id])
  {
    if records != [] {
      var front, last := records[..|records| - 1], records[|records| - 1];
      assert records == front + [last];
      UpsertedRow(rows, front, id);
    }
  }

  /** The record is stored as the provider has it now. */
  predicate Has(rows: Stored, r: Record) {
    r.id in rows && rows[r.id] == r
  }

  /** Some version of the record is stored, perhaps an old one. */
  predicate Knows(rows: Stored, r: Record) {
    r.id in rows
  }

  predicate SameRecord(a: Record, b: Record) {
    a.id == b.id && a.cursor == b.cursor
  }

  predicate IsVersionIn(r: Record, h: seq<Record>) {
    exists i :: 0 <= i < |h| && SameRecord(h[i], r)
  }

  /** Only records of the history are stored, each in some version. */
  ghost predicate StoresVersions(rows: Stored, h: seq<Record>) {
    forall id :: id in rows ==> rows[id].id == id && IsVersionIn(rows[id], h)
  }

  /** No known record has an unknown one before it. */
  ghost predicate DownClosed(rows: Stored, h: seq<Record>) {
    forall a, b :: a in h && b in h && Knows(rows, a) && b.cursor < a.cursor ==> Knows(rows, b)
  }

  ghost predicate KnowsAll(rows: Stored, records: seq<Record>) {
    forall r :: r in records ==> Knows(rows, r)
  }

  ghost predicate StoresAll(rows: Stored, records: seq<Record>) {
    forall r :: r in records ==> Has(rows, r)
  }

  ghost predicate IsLatest(rows: Stored, latest: Option<int>) {
    match latest
    case None => rows == map[]
    case Some(c) =>
      && (exists id :: id in rows && rows[id].cursor == c)
      && forall id :: id in rows ==> rows[id].cursor <= c
  }

  /** One day before the latest stored cursor, cut to whole seconds, or the epoch. */
  function StartCursor(latest: Option<int>): int {
    match latest
    case None => EPOCH
    case Some(c) => (c - MILLIS_PER_DAY) / MILLIS_PER_SECOND * MILLIS_PER_SECOND
  }

  /** A sync looks back one day: no stored record lies later than a day, and less than a second, after its start. */
  lemma LookbackIsOneDay(rows: Stored, latest: Option<int>, id: string)
    requires IsLatest(rows, latest) && id in rows
    ensures latest.Some? && StartCursor(latest) <= latest.value - 86_400_000 < StartCursor(latest) + 1000
    ensures rows[id].cursor < StartCursor(latest) + 86_400_000 + 1000
    ensures exists newest :: newest in rows && rows[newest].cursor == latest.value
  {
    var t := latest.value - MILLIS_PER_DAY;
    assert t == t / MILLIS_PER_SECOND * MILLIS_PER_SECOND + t % MILLIS_PER_SECOND;
  }

  // ---- What the pages deliver -----------------------------------------------------------------

  /** Wherever a full page ends, the next record has a later cursor. */
  predicate NoTieAtPageBreak(h: seq<Record>, k: nat, size: nat)
    requires k <= |h| && size > 0
    decreases |h| - k
  {
    k + size >= |h| || (h[k + size - 1].cursor < h[k + size].cursor && NoTieAtPageBreak(h, k + size, size))
  }

  lemma {:induction false} FetchedFits(h: seq<Record>, k: nat, size: nat)
    requires Sorted(h) && size > 0 && k <= |h|
    ensures |Fetched(h, k, size)| <= |h| - k
    decreases |h| - k
  {
    if k + size <= |h| {
      FetchedFits(h, NextStart(h, k, size), size);
    }
  }

  lemma {:induction false} TieLosesRecords(h: seq<Record>, k: nat, size: nat)
    requires Sorted(h) && size > 0 && k <= |h| && !NoTieAtPageBreak(h, k, size)
    ensures |Fetched(h, k, size)| < |h| - k
    decreases |h| - k
  {
    var next := NextStart(h, k, size);
    if next == k + size {
      TieLosesRecords(h, next, size);
    } else {
      FetchedFits(h, next, size);
    }
  }

  lemma {:induction false} NoTieFetchesAll(h: seq<Record>, k: nat, size: nat)
    requires Sorted(h) && size > 0 && k <= |h| && NoTieAtPageBreak(h, k, size)
    ensures Fetched(h, k, size) == h[k..]
    decreases |h| - k
  {
    if k + size <= |h| {
      assert NextStart(h, k, size) == k + size;
      NoTieFetchesAll(h, k + size, size);
      assert h[k..] == h[k..k + size] + h[k + size..];
    }
  }

  /**
   A sync receives every record after its start cursor exactly when no run of equal cursors
   straddles the end of a full page.
   */
  lemma CompleteExactlyWithoutTies(h: seq<Record>, k: nat, size: nat)
    requires Sorted(h) && size > 0 && k <= |h|
    ensures Fetched(h, k, size) == h[k..] <==> NoTieAtPageBreak(h, k, size)
  {
    if NoTieAtPageBreak(h, k, size) {
      NoTieFetchesAll(h, k, size);
    } else {
      TieLosesRecords(h, k, size);
    }
  }

  /** In particular, distinct cursors suffice. */
  lemma {:induction false} DistinctCursorsHaveNoTies(h: seq<Record>, k: nat, size: nat)
    requires k <= |h| && size > 0 && forall i, j :: 0 <= i < j < |h| ==> h[i].cursor < h[j].cursor
    ensures NoTieAtPageBreak(h, k, size)
    decreases |h| - k
  {
    if k + size < |h| {
      DistinctCursorsHaveNoTies(h, k + size, size);
    }
  }

  // ---- Down-closure and crash points ----------------------------------------------------------

  function FetchedAfter(h: seq<Record>, start: int, size: nat): seq<Record>
    requires Sorted(h) && size > 0
  {
    Fetched(h, Skipped(h, start), size)
  }

  /** No run of equal cursors straddles a full page of the download after this cursor. */
  predicate NoTieAfter(h: seq<Record>, start: int, size: nat)
    requires size > 0
  {
    NoTieAtPageBreak(h, Skipped(h, start), size)
  }

  lemma OneVersion(h: seq<Record>, a: Record, b: Record)
    requires DistinctIds(h) && a in h && b in h && a.id == b.id
    ensures a == b
  {
  }

  /** An upsert makes exactly its records current and leaves every other row alone. */
  lemma UpsertedHas(rows: Stored, h: seq<Record>, records: seq<Record>, r: Record)
    requires DistinctIds(h) && (forall x :: x in records ==> x in h) && r in h
    ensures Has(Upserted(rows, records), r) <==> Has(rows, r) || r in records
    ensures Knows(Upserted(rows, records), r) <==> Knows(rows, r) || r in records
  {
    UpsertedRow(rows, records, r.id);
    forall x | x in records && x.id == r.id ensures x == r {
      OneVersion(h, x, r);
    }
  }

  lemma UpsertedStoresVersions(rows: Stored, h: seq<Record>, records: seq<Record>)
    requires StoresVersions(rows, h) && forall x :: x in records ==> x in h
    ensures StoresVersions(Upserted(rows, records), h)
  {
    var after := Upserted(rows, records);
    forall id | id in after ensures after[id].id == id && IsVersionIn(after[id], h) {
      UpsertedRow(rows, records, id);
      if after[id] in records {
        var i :| 0 <= i < |h| && h[i] == after[id];
        assert SameRecord(h[i], after[id]);
      }
    }
  }

  /** Only versions of provider records are stored, and none without all the earlier ones. */
  ghost predicate IsSane(rows: Stored, h: seq<Record>) {
    StoresVersions(rows, h) && DownClosed(rows, h)
  }

  /** The start cursor leaves nothing unknown behind it. */
  lemma StartLeavesNothingBehind(rows: Stored, h: seq<Record>, latest: Option<int>)
    requires IsHistory(h) && IsSane(rows, h) && IsLatest(rows, latest)
    ensures KnowsAll(rows, h[..Skipped(h, StartCursor(latest))])
  {
    var k := Skipped(h, StartCursor(latest));
    forall r | r in h[..k] ensures Knows(rows, r) {
      var j :| 0 <= j < k && h[j] == r;
      assert r in h && r.cursor <= StartCursor(latest);
      if latest.Some? {
        var id :| id in rows && rows[id].cursor == latest.value;
        var i :| 0 <= i < |h| && SameRecord(h[i], rows[id]);
        assert h[i] in h && Knows(rows, h[i]);
      }
    }
  }

  lemma PrefixParts(h: seq<Record>, k: nat, n: nat, r: Record)
    requires k <= n <= |h|
    ensures r in h[..n] <==> r in h[..k] || r in h[k..n]
  {
    assert h[..n] == h[..k] + h[k..n];
  }

  lemma EarlierIsInPrefix(h: seq<Record>, n: nat, a: Record, b: Record)
    requires Sorted(h) && n <= |h| && a in h[..n] && b in h && b.cursor < a.cursor
    ensures b in h[..n]
  {
    var i :| 0 <= i < n && h[i] == a;
    var j :| 0 <= j < |h| && h[j] == b;
    assert j < i && h[..n][j] == b;
  }

  /** Taking the next records one by one keeps a store that knows all earlier ones down-closed. */
  lemma PrefixKeepsDownClosed(rows: Stored, h: seq<Record>, k: nat, n: nat)
    requires IsHistory(h) && k <= n <= |h|
    requires DownClosed(rows, h) && KnowsAll(rows, h[..k])
    ensures DownClosed(Upserted(rows, h[k..n]), h) && KnowsAll(Upserted(rows, h[k..n]), h[..n])
  {
    var after := Upserted(rows, h[k..n]);
    forall r | r in h ensures Knows(after, r) <==> Knows(rows, r) || r in h[k..n] {
      UpsertedHas(rows, h, h[k..n], r);
    }
    forall r | r in h[..n] ensures Knows(after, r) {
      PrefixParts(h, k, n, r);
    }
    forall a, b | a in h && b in h && Knows(after, a) && b.cursor < a.cursor ensures Knows(after, b) {
      if !Knows(rows, a) {
        PrefixParts(h, k, n, a);
        EarlierIsInPrefix(h, n, a, b);
        PrefixParts(h, k, n, b);
      }
    }
  }

  lemma PartKeepsSane(rows: Stored, h: seq<Record>, k: nat, n: nat, part: seq<Record>)
    requires IsHistory(h) && k <= n <= |h| && part == h[k..n]
    requires IsSane(rows, h) && KnowsAll(rows, h[..k])
    ensures IsSane(Upserted(rows, part), h)
    ensures n == |h| ==> KnowsAll(Upserted(rows, part), h)
  {
    PrefixKeepsDownClosed(rows, h, k, n);
    UpsertedStoresVersions(rows, h, h[k..n]);
    assert h[..|h|] == h;
  }

  lemma FetchedPrefix(h: seq<Record>, k: nat, size: nat, n: nat)
    requires Sorted(h) && size > 0 && k <= |h| && NoTieAtPageBreak(h, k, size) && n <= |Fetched(h, k, size)|
    ensures |Fetched(h, k, size)| == |h| - k && Fetched(h, k, size)[..n] == h[k..k + n]
  {
    NoTieFetchesAll(h, k, size);
  }

  /**
   Unless a tie straddles a page, stopping a sync after any number of upserts leaves the store
   down-closed, and taking them all leaves it knowing the whole history.
   */
  lemma EveryCrashPointIsDownClosed(rows: Stored, h: seq<Record>, latest: Option<int>, size: nat, n: nat)
    requires IsHistory(h) && size > 0 && NoTieAfter(h, StartCursor(latest), size)
    requires IsSane(rows, h) && IsLatest(rows, latest)
    requires n <= |FetchedAfter(h, StartCursor(latest), size)|
    ensures var fetched := FetchedAfter(h, StartCursor(latest), size);
            var after := Upserted(rows, fetched[..n]);
            IsSane(after, h) && (n == |fetched| ==> KnowsAll(after, h))
  {
    var k := Skipped(h, StartCursor(latest));
    StartLeavesNothingBehind(rows, h, latest);
    FetchedPrefix(h, k, size, n);
    PartKeepsSane(rows, h, k, k + n, FetchedAfter(h, StartCursor(latest), size)[..n]);
  }

  // ---- Incremental against full ---------------------------------------------------------------

  lemma SuffixIsLater(h: seq<Record>, start: int, k: nat, r: Record)
    requires Sorted(h) && k <= |h| && (k < |h| ==> h[k].cursor > start)
    ensures r in h[k..] ==> r.cursor > start
  {
    if r in h[k..] {
      var j :| 0 <= j < |h[k..]| && h[k..][j] == r;
      assert h[k + j] == r && h[k].cursor <= h[k + j].cursor;
    }
  }

  lemma InPartAfter(h: seq<Record>, start: int, r: Record)
    requires Sorted(h) && r in h
    ensures r in h[Skipped(h, start)..] <==> r.cursor > start
  {
    var k := Skipped(h, start);
    if r.cursor > start {
      var i :| 0 <= i < |h| && h[i] == r;
      assert i >= k;
      assert h[k..][i - k] == r;
    } else {
      SuffixIsLater(h, start, k, r);
    }
  }

  /**
   A complete sync refreshes every record after its start cursor, whatever was stored of it, and
   leaves every earlier one exactly as it was stored, however old that is.
   */
  lemma SyncRefreshesExactlyWhatFollows(rows: Stored, h: seq<Record>, start: int, size: nat, r: Record)
    requires IsHistory(h) && size > 0 && NoTieAfter(h, start, size) && r in h
    ensures var after := Upserted(rows, FetchedAfter(h, start, size));
            && (r.cursor > start ==> Has(after, r))
            && (r.cursor <= start ==> (Has(after, r) <==> Has(rows, r)) && (Knows(after, r) <==> Knows(rows, r)))
  {
    NoTieFetchesAll(h, Skipped(h, start), size);
    UpsertedHas(rows, h, h[Skipped(h, start)..], r);
    InPartAfter(h, start, r);
  }

  lemma SyncStoresVersions(rows: Stored, h: seq<Record>, start: int, size: nat)
    requires IsHistory(h) && size > 0 && NoTieAfter(h, start, size) && StoresVersions(rows, h)
    ensures StoresVersions(Upserted(rows, FetchedAfter(h, start, size)), h)
  {
    NoTieFetchesAll(h, Skipped(h, start), size);
    UpsertedStoresVersions(rows, h, h[Skipped(h, start)..]);
  }

  /** A store of versions that has every record current is determined by the history. */
  lemma WholeHistoryIsUnique(a: Stored, b: Stored, h: seq<Record>)
    requires StoresVersions(a, h) && StoresVersions(b, h) && StoresAll(a, h) && StoresAll(b, h)
    ensures a == b
  {
    forall id ensures (id in a <==> id in b) && (id in a ==> a[id] == b[id]) {
      if id in a {
        var i :| 0 <= i < |h| && SameRecord(h[i], a[id]);
        assert Has(a, h[i]) && Has(b, h[i]);
      }
      if id in b {
        var i :| 0 <= i < |h| && SameRecord(h[i], b[id]);
        assert Has(a, h[i]);
      }
    }
  }

  lemma FullSyncStoresHistory(h: seq<Record>, size: nat)
    requires IsHistory(h) && size > 0 && NoTieAfter(h, EPOCH, size)
    ensures var full := Upserted(map[], FetchedAfter(h, EPOCH, size));
            StoresVersions(full, h) && StoresAll(full, h)
  {
    SyncStoresVersions(map[], h, EPOCH, size);
    forall r | r in h ensures Has(Upserted(map[], FetchedAfter(h, EPOCH, size)), r) {
      SyncRefreshesExactlyWhatFollows(map[], h, EPOCH, size, r);
    }
  }

  /** The records an incremental sync does not fetch again are stored as the provider has them now. */
  ghost predicate UnchangedBefore(rows: Stored, h: seq<Record>, start: int) {
    forall r :: r in h && r.cursor <= start ==> Has(rows, r)
  }

  /**
   An incremental sync ends with the same store as a full one from nothing exactly when no provider
   record at or before its start cursor has changed since it was stored.
   */
  lemma IncrementalEqualsFullExactlyWhen(rows: Stored, h: seq<Record>, latest: Option<int>, size: nat)
    requires IsHistory(h) && size > 0 && StoresVersions(rows, h)
    requires NoTieAfter(h, StartCursor(latest), size) && NoTieAfter(h, EPOCH, size)
    ensures Upserted(rows, FetchedAfter(h, StartCursor(latest), size)) == Upserted(map[], FetchedAfter(h, EPOCH, size))
            <==> UnchangedBefore(rows, h, StartCursor(latest))
  {
    var start := StartCursor(latest);
    var incremental := Upserted(rows, FetchedAfter(h, start, size));
    var full := Upserted(map[], FetchedAfter(h, EPOCH, size));
    FullSyncStoresHistory(h, size);
    SyncStoresVersions(rows, h, start, size);
    forall r | r in h ensures Has(incremental, r) <==> r.cursor > start || Has(rows, r) {
      SyncRefreshesExactlyWhatFollows(rows, h, start, size, r);
      if r.cursor > start {
        assert Has(incremental, r);
      }
    }
    if UnchangedBefore(rows, h, start) {
      WholeHistoryIsUnique(incremental, full, h);
    } else {
      var r :| r in h && r.cursor <= start && !Has(rows, r);
      assert Has(full, r) && !Has(incremental, r);
    }
  }

  // ---- Runs: the provider moves on between the syncs ------------------------------------------

  /** Known records keep identifier and place, though their content may change; new ones follow. */
  ghost predicate Evolves(h: seq<Record>, later: seq<Record>) {
    |h| <= |later| && forall i :: 0 <= i < |h| ==> SameRecord(later[i], h[i])
  }

  lemma VersionsSurvive(rows: Stored, h: seq<Record>, later: seq<Record>)
    requires StoresVersions(rows, h) && Evolves(h, later)
    ensures StoresVersions(rows, later)
  {
    forall id | id in rows ensures IsVersionIn(rows[id], later) {
      var i :| 0 <= i < |h| && SameRecord(h[i], rows[id]);
      assert SameRecord(later[i], rows[id]);
    }
  }

  /** A known record stood in the earlier history, at the place it has now. */
  lemma KnownIndex(rows: Stored, h: seq<Record>, later: seq<Record>, a: Record) returns (i: nat)
    requires DistinctIds(later) && Evolves(h, later) && StoresVersions(rows, h) && a in later && Knows(rows, a)
    ensures i < |h| && later[i] == a && Knows(rows, h[i])
  {
    i :| 0 <= i < |h| && SameRecord(h[i], rows[a.id]);
    assert later[i] in later && SameRecord(later[i], h[i]);
    OneVersion(later, later[i], a);
  }

  lemma EarlierIsKnown(rows: Stored, h: seq<Record>, a: Record, b: Record)
    requires DownClosed(rows, h) && a in h && b in h && Knows(rows, a) && b.cursor < a.cursor
    ensures Knows(rows, b)
  {
  }

  lemma EarlierWasKnown(rows: Stored, h: seq<Record>, later: seq<Record>, a: Record, b: Record)
    requires IsHistory(later) && Evolves(h, later) && IsSane(rows, h)
    requires a in later && b in later && Knows(rows, a) && b.cursor < a.cursor
    ensures Knows(rows, b)
  {
    var i := KnownIndex(rows, h, later, a);
    var j :| 0 <= j < |later| && later[j] == b;
    assert j < i && SameRecord(later[j], h[j]);
    EarlierIsKnown(rows, h, h[i], h[j]);
  }

  /** Changed contents and later records keep a store down-closed. */
  lemma EvolutionKeepsDownClosed(rows: Stored, h: seq<Record>, later: seq<Record>)
    requires IsHistory(later) && Evolves(h, later) && IsSane(rows, h)
    ensures IsSane(rows, later)
  {
    VersionsSurvive(rows, h, later);
    forall a, b | a in later && b in later && Knows(rows, a) && b.cursor < a.cursor ensures Knows(rows, b) {
      EarlierWasKnown(rows, h, later, a, b);
    }
  }

  /** The provider's records and the local store at one moment. */
  datatype Moment = Moment(history: seq<Record>, rows: Stored)

  /** A sync that gets as far as `n` upserts; no tie straddles its pages. */
  ghost predicate SyncsTo(a: Moment, b: Moment, latest: Option<int>, n: nat, size: nat)
    requires IsHistory(a.history) && size > 0
  {
    && IsLatest(a.rows, latest) && NoTieAfter(a.history, StartCursor(latest), size)
    && n <= |FetchedAfter(a.history, StartCursor(latest), size)|
    && b == Moment(a.history, Upserted(a.rows, FetchedAfter(a.history, StartCursor(latest), size)[..n]))
  }

  /** Between two moments the provider's records evolve, or a sync runs, perhaps not to its end. */
  ghost predicate Follows(a: Moment, b: Moment, size: nat)
    requires IsHistory(a.history) && size > 0
  {
    || (b.rows == a.rows && IsHistory(b.history) && Evolves(a.history, b.history))
    || exists latest, n :: SyncsTo(a, b, latest, n, size)
  }

  ghost predicate IsRun(ms: seq<Moment>, size: nat)
    requires size > 0
  {
    && ms != [] && ms[0].rows == map[] && (forall k :: 0 <= k < |ms| ==> IsHistory(ms[k].history))
    && forall k :: 0 < k < |ms| ==> Follows(ms[k - 1], ms[k], size)
  }

  lemma RunWithoutLast(ms: seq<Moment>, size: nat)
    requires size > 0 && IsRun(ms, size) && |ms| > 1
    ensures IsRun(ms[..|ms| - 1], size)
    ensures Follows(ms[|ms| - 2], ms[|ms| - 1], size)
  {
  }

  lemma FollowingKeepsDownClosed(a: Moment, b: Moment, size: nat)
    requires size > 0 && IsHistory(a.history) && Follows(a, b, size)
    requires IsSane(a.rows, a.history)
    ensures IsSane(b.rows, b.history)
  {
    if b.rows == a.rows && IsHistory(b.history) && Evolves(a.history, b.history) {
      EvolutionKeepsDownClosed(a.rows, a.history, b.history);
    } else {
      var latest, n :| SyncsTo(a, b, latest, n, size);
      EveryCrashPointIsDownClosed(a.rows, a.history, latest, size, n);
    }
  }

  /**
   Over every run of changing provider records and syncs, each stopped anywhere, the local store is
   down-closed and holds a version of provider records only.
   */
  lemma {:induction false} EveryRunStaysDownClosed(ms: seq<Moment>, size: nat)
    requires size > 0 && IsRun(ms, size)
    ensures IsSane(ms[|ms| - 1].rows, ms[|ms| - 1].history)
    decreases |ms|
  {
    if |ms| > 1 {
      var n := |ms| - 1;
      RunWithoutLast(ms, size);
      EveryRunStaysDownClosed(ms[..n], size);
      FollowingKeepsDownClosed(ms[n - 1], ms[n], size);
    }
  }

  /** Records that never change, as fills do not: the later history only adds to the earlier one. */
  ghost predicate NeverChanges(ms: seq<Moment>) {
    forall k :: 0 < k < |ms| ==> ms[k - 1].history <= ms[k].history
  }

  ghost predicate AllCurrent(rows: Stored, h: seq<Record>) {
    forall r :: r in h && Knows(rows, r) ==> Has(rows, r)
  }

  lemma FetchedAreRecords(h: seq<Record>, start: int, size: nat, n: nat)
    requires Sorted(h) && size > 0 && NoTieAfter(h, start, size) && n <= |FetchedAfter(h, start, size)|
    ensures forall r :: r in FetchedAfter(h, start, size)[..n] ==> r in h
  {
    NoTieFetchesAll(h, Skipped(h, start), size);
  }

  lemma UpsertsKeepCurrent(rows: Stored, h: seq<Record>, records: seq<Record>)
    requires DistinctIds(h) && AllCurrent(rows, h) && forall r :: r in records ==> r in h
    ensures AllCurrent(Upserted(rows, records), h)
  {
    forall r | r in h && Knows(Upserted(rows, records), r) ensures Has(Upserted(rows, records), r) {
      UpsertedHas(rows, h, records, r);
    }
  }

  lemma SyncKeepsCurrent(a: Moment, b: Moment, latest: Option<int>, n: nat, size: nat)
    requires size > 0 && IsHistory(a.history) && SyncsTo(a, b, latest, n, size) && AllCurrent(a.rows, a.history)
    ensures AllCurrent(b.rows, b.history)
  {
    FetchedAreRecords(a.history, StartCursor(latest), size, n);
    UpsertsKeepCurrent(a.rows, a.history, FetchedAfter(a.history, StartCursor(latest), size)[..n]);
  }

  lemma AdditionsKeepCurrent(rows: Stored, h: seq<Record>, later: seq<Record>)
    requires IsHistory(later) && h <= later && StoresVersions(rows, h) && AllCurrent(rows, h)
    ensures AllCurrent(rows, later)
  {
    forall r | r in later && Knows(rows, r) ensures Has(rows, r) {
      var i :| 0 <= i < |h| && SameRecord(h[i], rows[r.id]);
      assert later[i] == h[i] && h[i] in h && later[i] in later;
      OneVersion(later, later[i], r);
    }
  }

  lemma FollowingKeepsCurrent(a: Moment, b: Moment, size: nat)
    requires size > 0 && IsHistory(a.history) && IsHistory(b.history) && Follows(a, b, size)
    requires StoresVersions(a.rows, a.history) && AllCurrent(a.rows, a.history) && a.history <= b.history
    ensures AllCurrent(b.rows, b.history)
  {
    if b.rows == a.rows && IsHistory(b.history) && Evolves(a.history, b.history) {
      AdditionsKeepCurrent(a.rows, a.history, b.history);
    } else {
      var latest, n :| SyncsTo(a, b, latest, n, size);
      SyncKeepsCurrent(a, b, latest, n, size);
    }
  }

  lemma {:induction false} UnchangingRunsStayCurrent(ms: seq<Moment>, size: nat)
    requires size > 0 && IsRun(ms, size) && NeverChanges(ms)
    ensures AllCurrent(ms[|ms| - 1].rows, ms[|ms| - 1].history)
    decreases |ms|
  {
    if |ms| > 1 {
      var n := |ms| - 1;
      var earlier := ms[..n];
      RunWithoutLast(ms, size);
      UnchangingRunsStayCurrent(earlier, size);
      EveryRunStaysDownClosed(earlier, size);
      FollowingKeepsCurrent(ms[n - 1], ms[n], size);
    }
  }

  lemma KnownBeforeIsUnchanged(rows: Stored, h: seq<Record>, start: int)
    requires IsHistory(h) && AllCurrent(rows, h) && KnowsAll(rows, h[..Skipped(h, start)])
    ensures UnchangedBefore(rows, h, start)
  {
    var k := Skipped(h, start);
    forall r | r in h && r.cursor <= start ensures Has(rows, r) {
      InPartAfter(h, start, r);
      PrefixParts(h, k, |h|, r);
      assert h[..|h|] == h && h[k..|h|] == h[k..];
    }
  }

  /**
   For records that never change, such as fills, an incremental sync after any run always ends with
   the store of a full one.
   */
  lemma IncrementalEqualsFullForFills(ms: seq<Moment>, latest: Option<int>, size: nat)
    requires size > 0 && IsRun(ms, size) && NeverChanges(ms)
    requires var now := ms[|ms| - 1];
             && IsLatest(now.rows, latest)
             && NoTieAfter(now.history, StartCursor(latest), size) && NoTieAfter(now.history, EPOCH, size)
    ensures var now := ms[|ms| - 1];
            (Upserted(now.rows, FetchedAfter(now.history, StartCursor(latest), size))
             == Upserted(map[], FetchedAfter(now.history, EPOCH, size)))
  {
    var now := ms[|ms| - 1];
    EveryRunStaysDownClosed(ms, size);
    UnchangingRunsStayCurrent(ms, size);
    StartLeavesNothingBehind(now.rows, now.history, latest);
    KnownBeforeIsUnchanged(now.rows, now.history, StartCursor(latest));
    IncrementalEqualsFullExactlyWhen(now.rows, now.history, latest, size);
  }

  // ---- An order that stays stale ----------------------------------------------------------------

  const STALE_ORDER := Record("A", 1000, "new")
  const FILLED_ORDER := Record("A", 1000, "filled")
  const RECENT_ORDER := Record("B", 1000 + 2 * MILLIS_PER_DAY, "new")

  lemma FirstSyncStores(h: seq<Record>, rows: Stored)
    requires h == [STALE_ORDER, RECENT_ORDER] && rows == map["A" := STALE_ORDER, "B" := RECENT_ORDER]
    ensures IsHistory(h) && SyncsTo(Moment(h, map[]), Moment(h, rows), None, 2, ORDER_PAGE)
  {
    NoTieFetchesAll(h, Skipped(h, EPOCH), ORDER_PAGE);
    assert h[0..] == h && h[..2] == h;
    assert h[..1] == [STALE_ORDER] && [STALE_ORDER][..0] == [];
    assert Upserted(map[], [STALE_ORDER]) == map["A" := STALE_ORDER];
  }

  /** Both orders were stored as new by a first sync; the older one has been filled at the provider since. */
  lemma StaleStoreIsReachable(rows: Stored, before: seq<Record>, h: seq<Record>)
    requires rows == map["A" := STALE_ORDER, "B" := RECENT_ORDER]
    requires before == [STALE_ORDER, RECENT_ORDER] && h == [FILLED_ORDER, RECENT_ORDER]
    ensures IsRun([Moment(before, map[]), Moment(before, rows), Moment(h, rows)], ORDER_PAGE)
    ensures IsLatest(rows, Some(RECENT_ORDER.cursor))
  {
    assert rows["B"].cursor == RECENT_ORDER.cursor;
    FirstSyncStores(before, rows);
    assert Evolves(before, h);
  }

  lemma OldRowIsKept(rows: Stored, h: seq<Record>, start: int, size: nat, stale: Record, now: Record)
    requires IsHistory(h) && size > 0 && NoTieAfter(h, start, size)
    requires now in h && now.cursor <= start && Has(rows, stale) && stale.id == now.id
    ensures Has(Upserted(rows, FetchedAfter(h, start, size)), stale)
  {
    var k := Skipped(h, start);
    NoTieFetchesAll(h, k, size);
    UpsertedRow(rows, h[k..], stale.id);
    forall x | x in h[k..] && x.id == stale.id ensures false {
      OneVersion(h, x, now);
      InPartAfter(h, start, now);
    }
  }

  /**
   The failing input: an order stored as new, filled since, and two days older than the latest one.
   The incremental sync leaves it new; the full one stores the fill.
   */
  lemma OldOrderStaysStale(rows: Stored, h: seq<Record>)
    requires rows == map["A" := STALE_ORDER, "B" := RECENT_ORDER] && h == [FILLED_ORDER, RECENT_ORDER]
    ensures Has(Upserted(rows, FetchedAfter(h, StartCursor(Some(RECENT_ORDER.cursor)), ORDER_PAGE)), STALE_ORDER)
    ensures Has(Upserted(map[], FetchedAfter(h, EPOCH, ORDER_PAGE)), FILLED_ORDER)
  {
    var start := StartCursor(Some(RECENT_ORDER.cursor));
    assert start == 1000 + MILLIS_PER_DAY;
    assert h[0] in h;
    FullSyncStoresHistory(h, ORDER_PAGE);
    OldRowIsKept(rows, h, start, ORDER_PAGE, STALE_ORDER, FILLED_ORDER);
  }

  // ---- One page at a time ---------------------------------------------------------------------

  lemma LaterThanSkipped(h: seq<Record>, after: int, i: nat)
    requires Sorted(h) && Skipped(h, after) <= i < |h|
    ensures h[i].cursor > after
  {
    assert h[Skipped(h, after)].cursor <= h[i].cursor;
  }

  lemma NextPage(h: seq<Record>, after: int, size: nat)
    requires Sorted(h) && size > 0
    ensures var page := Page(h, after, size);
            && |page| <= size
            && (|page| < size ==> FetchedAfter(h, after, size) == page)
            && (|page| == size ==>
                  var last := page[size - 1].cursor;
                  && last > after && Skipped(h, after) < Skipped(h, last)
                  && FetchedAfter(h, after, size) == page + FetchedAfter(h, last, size))
  {
    var k := Skipped(h, after);
    if k + size <= |h| {
      assert NextStart(h, k, size) > k;
      LaterThanSkipped(h, after, k + size - 1);
      assert Page(h, after, size)[size - 1] == h[k + size - 1];
    }
  }

  /** The first `seen` records of the whole download are stored. */
  ghost predicate StoresPrefix(initial: Stored, rows: Stored, all: seq<Record>, seen: nat) {
    seen <= |all| && rows == Upserted(initial, all[..seen])
  }

  /** What of the download is still to come is what follows the cursor. */
  ghost predicate Remains(h: seq<Record>, after: int, size: nat, all: seq<Record>, seen: nat)
    requires Sorted(h) && size > 0
  {
    seen <= |all| && all[seen..] == FetchedAfter(h, after, size)
  }

  /** The loop's position: what it has stored, and the cursor that leads to the rest. */
  ghost predicate IsAt(h: seq<Record>, size: nat, initial: Stored, rows: Stored, all: seq<Record>, seen: nat,
                       after: int)
    requires Sorted(h) && size > 0
  {
    StoresPrefix(initial, rows, all, seen) && Remains(h, after, size, all, seen)
  }

  /** Requests for so many records: one for every full page and one that is not full. */
  function Requests(records: nat, size: nat): (n: nat)
    requires size > 0
    ensures n >= 1
  {
    if records < size then 1 else 1 + Requests(records - size, size)
  }

  /** So many calls suffice for all requests and one upsert per record. */
  predicate Covers(calls: nat, records: nat, size: nat)
    requires size > 0
  {
    calls >= records + Requests(records, size)
  }

  /** A request and a page's upserts use up exactly what the page adds to the calls needed. */
  lemma CoverageOfTurn(budget: nat, records: nat, received: nat, stored: nat, size: nat)
    requires size > 0 && received == Min(size, records) && stored == Min(budget, received)
    ensures stored < received ==> !Covers(budget + 1, records, size)
    ensures stored == received < size ==> Covers(budget + 1, records, size)
    ensures stored == received == size ==>
              (Covers(budget - stored, records - size, size) <==> Covers(budget + 1, records, size))
  {
  }

  lemma QuotientIsUnique(x: int, d: int, q: int, r: int)
    requires d > 0 && 0 <= r < d && x == q * d + r
    ensures x / d == q
  {
    var k := x / d - q;
    assert k * d == r - x % d;
  }

  lemma {:induction false} RequestsAreQuotient(records: nat, size: nat)
    requires size > 0
    ensures Requests(records, size) == records / size + 1
    decreases records
  {
    if records < size {
      QuotientIsUnique(records, size, 0, records);
    } else {
      RequestsAreQuotient(records - size, size);
      var q := (records - size) / size;
      assert (q + 1) * size == q * size + size;
      QuotientIsUnique(records, size, q + 1, (records - size) % size);
    }
  }

  /** How a turn of the loop ends: a request or an upsert failed, the last page came, or there is more. */
  datatype Turn = Failed(now: nat) | Finished(now: nat) | Continue(now: nat, next: int, left: nat)

  /** Storing part of the next page stores more of the whole download, and all of the page leaves the rest. */
  lemma PageExtends(initial: Stored, rows: Stored, all: seq<Record>, seen: nat, page: seq<Record>,
                    rest: seq<Record>, stored: nat)
    requires StoresPrefix(initial, rows, all, seen) && all[seen..] == page + rest && stored <= |page|
    ensures |all| == seen + |page| + |rest|
    ensures StoresPrefix(initial, Upserted(rows, page[..stored]), all, seen + stored)
    ensures stored == |page| ==> all[seen + stored..] == rest
  {
    UpsertedConcat(initial, all[..seen], page[..stored]);
    assert all[seen..][..stored] == page[..stored];
    assert all[..seen] + page[..stored] == all[..seen + stored];
    assert rest == (page + rest)[|page|..];
  }

  // ---- The program ----------------------------------------------------------------------------

  class LocalStore {
    var rows: Stored

    constructor ()
      ensures rows == map[]
    {
      rows := map[];
    }

    method LastCursor() returns (latest: Option<int>)
      ensures IsLatest(rows, latest)
    {
      latest := None;
      var todo := rows.Keys;
      while todo != {}
        invariant todo <= rows.Keys
        invariant latest.None? ==> todo == rows.Keys
        invariant latest.Some? ==>
                    && (exists id :: id in rows && rows[id].cursor == latest.value)
                    && forall id :: id in rows && id !in todo ==> rows[id].cursor <= latest.value
        decreases todo
      {
        var id :| id in todo;
        if latest.None? || rows[id].cursor > latest.value {
          latest := Some(rows[id].cursor);
        }
        todo := todo - {id};
      }
    }

    /** Upserts a page record by record; `budget` is how many upserts succeed before one fails. */
    method StorePage(page: seq<Record>, budget: nat) returns (stored: nat)
      modifies this
      ensures stored == Min(budget, |page|)
      ensures rows == Upserted(old(rows), page[..stored])
    {
      stored := 0;
      while stored < |page| && stored < budget
        invariant stored <= Min(budget, |page|)
        invariant rows == Upserted(old(rows), page[..stored])
      {
        assert page[..stored + 1][..stored] == page[..stored];
        rows := rows[page[stored].id := page[stored]];
        stored := stored + 1;
      }
    }

    /** Requests one page and stores what it can of it; `next` is the last cursor of the page. */
    method SyncPage(h: seq<Record>, after: int, size: nat, budget: nat)
      returns (received: nat, stored: nat, next: int, ghost page: seq<Record>, ghost rest: seq<Record>)
      requires Sorted(h) && size > 0
      modifies this
      ensures FetchedAfter(h, after, size) == page + rest
      ensures received == |page| <= size && stored == Min(budget, received)
      ensures rows == Upserted(old(rows), page[..stored])
      ensures received < size ==> rest == []
      ensures received == size ==>
                size > 0 && next > after && rest == FetchedAfter(h, next, size)
    {
      NextPage(h, after, size);
      var records := Page(h, after, size);
      received := |records|;
      next := if records == [] then after else records[|records| - 1].cursor;
      page := records;
      rest := if received < size then [] else FetchedAfter(h, next, size);
      stored := StorePage(records, budget);
    }

    /** One turn of the page loop, seen from the whole download `all`. */
    method SyncStep(h: seq<Record>, after: int, size: nat, budget: nat, ghost initial: Stored,
                    ghost all: seq<Record>, seen: nat) returns (turn: Turn)
      requires Sorted(h) && size > 0 && IsAt(h, size, initial, rows, all, seen, after)
      modifies this
      ensures match turn
              case Failed(now) =>
                StoresPrefix(initial, rows, all, now) && !Covers(budget + 1, |all| - seen, size)
              case Finished(now) =>
                StoresPrefix(initial, rows, all, now) && now == |all| && Covers(budget + 1, |all| - seen, size)
              case Continue(now, next, left) =>
                && IsAt(h, size, initial, rows, all, now, next) && seen < now
                && (Covers(left, |all| - now, size) <==> Covers(budget + 1, |all| - seen, size))
    {
      ghost var before, page, rest := rows, [], [];
      var received, stored, next;
      received, stored, next, page, rest := SyncPage(h, after, size, budget);
      PageExtends(initial, before, all, seen, page, rest, stored);
      CoverageOfTurn(budget, |all| - seen, received, stored, size);
      if stored < received {
        return Failed(seen + stored);
      }
      if received < size || next <= after {
        return Finished(seen + stored);
      }
      return Continue(seen + stored, next, budget - stored);
    }

    /**
     The page loop.  `budget` is how many page requests and upserts succeed before one fails; whatever
     was upserted by then stays.  It ends well exactly if the budget covers the whole download.
     */
    method SyncPages(h: seq<Record>, start: int, size: nat, budget: nat) returns (ok: bool, seen: nat)
      requires Sorted(h) && size > 0
      modifies this
      ensures StoresPrefix(old(rows), rows, FetchedAfter(h, start, size), seen)
      ensures ok <==> Covers(budget, |FetchedAfter(h, start, size)|, size)
      ensures ok ==> seen == |FetchedAfter(h, start, size)|
    {
      var left, after := budget, start;
      ghost var initial, all := rows, FetchedAfter(h, start, size);
      seen := 0;
      while left > 0
        invariant IsAt(h, size, initial, rows, all, seen, after)
        invariant Covers(left, |all| - seen, size) <==> Covers(budget, |all|, size)
        decreases |all| - seen
      {
        var turn := SyncStep(h, after, size, left - 1, initial, all, seen);
        seen := turn.now;
        if !turn.Continue? {
          return turn.Finished?, seen;
        }
        after, left := turn.next, turn.left;
      }
      return false, seen;
    }

    /** The whole sync, from one day before the latest stored record. */
    method Sync(h: seq<Record>, size: nat, budget: nat) returns (ok: bool, seen: nat, latest: Option<int>)
      requires Sorted(h) && size > 0
      modifies this
      ensures IsLatest(old(rows), latest)
      ensures StoresPrefix(old(rows), rows, FetchedAfter(h, StartCursor(latest), size), seen)
      ensures var n := |FetchedAfter(h, StartCursor(latest), size)|; ok <==> budget >= n + n / size + 1
      ensures ok && IsHistory(h) && IsSane(old(rows), h) && NoTieAfter(h, StartCursor(latest), size) ==>
                IsSane(rows, h) && KnowsAll(rows, h)
    {
      latest := LastCursor();
      ghost var before, fetched := rows, FetchedAfter(h, StartCursor(latest), size);
      ok, seen := SyncPages(h, StartCursor(latest), size, budget);
      RequestsAreQuotient(|fetched|, size);
      if ok && IsHistory(h) && IsSane(before, h) && NoTieAfter(h, StartCursor(latest), size) {
        EveryCrashPointIsDownClosed(before, h, latest, size, |fetched|);
      }
    }
  }
}
