/**
 The JSON-lines log of one component: appends, conversion of legacy plain text, and daily rotation
 into archives that are never overwritten.  Dates are day numbers.
 */
module LogStore {
  import opened Common

  /** Archive `index` of a date; index zero has no suffix. */
  datatype ArchiveName = ArchiveName(date: int, index: nat)

  datatype Archive = Archive(name: ArchiveName, content: string)

  /** The active file, absent before the first append, and the archives in the order of their creation. */
  datatype Store = Store(active: Option<string>, modified: int, archives: seq<Archive>)

  /** JSON as the log uses it: validity, the wrapper for a plain-text line, and an event's local date. */
  datatype Codec = Codec(isJson: string -> bool, legacy: string -> string, dateOf: string -> Option<int>)

  // ---- Lines ----------------------------------------------------------------------------------

  predicate IsSpace(c: char) {
    c in {' ', '\t', '\n', '\r'}
  }

  function TrimStart(s: string): string {
    if s != "" && IsSpace(s[0]) then TrimStart(s[1..]) else s
  }

  function TrimEnd(s: string): (r: string)
    ensures r <= s
  {
    if s != "" && IsSpace(s[|s| - 1]) then TrimEnd(s[..|s| - 1]) else s
  }

  function Trim(s: string): string {
    TrimEnd(TrimStart(s))
  }

  function StripReturn(s: string): string {
    if s != "" && s[|s| - 1] == '\r' then s[..|s| - 1] else s
  }

  /** The position of the first line break, or the length without one. */
  function BreakAt(s: string): (i: nat)
    ensures i <= |s| && (i < |s| ==> s[i] == '\n')
  {
    if s == "" || s[0] == '\n' then 0 else 1 + BreakAt(s[1..])
  }

  lemma {:induction false} NoBreakBefore(s: string)
    ensures '\n' !in s[..BreakAt(s)]
  {
    if s != "" && s[0] != '\n' {
      NoBreakBefore(s[1..]);
      assert s[..BreakAt(s)] == [s[0]] + s[1..][..BreakAt(s[1..])];
    }
  }

  /** The lines of a text; a last piece without line break counts as a line. */
  function Lines(s: string): seq<string> {
    if s == "" then []
    else
      var i := BreakAt(s);
      if i == |s| then [s] else [StripReturn(s[..i])] + Lines(s[i + 1..])
  }

  predicate Terminated(s: string) {
    s == "" || s[|s| - 1] == '\n'
  }

  /** Text that is one line of its own and survives being written and read. */
  predicate IsLine(s: string) {
    '\n' !in s && s != "" && s[|s| - 1] != '\r'
  }

  lemma {:induction false} FirstBreak(a: string, b: string)
    requires '\n' !in a
    ensures BreakAt(a + "\n" + b) == |a| && BreakAt(a) == |a|
  {
    if a != "" {
      assert (a + "\n" + b)[1..] == a[1..] + "\n" + b;
      FirstBreak(a[1..], b);
    }
  }

  lemma OneLine(line: string)
    requires IsLine(line)
    ensures Lines(line + "\n") == [line]
  {
    FirstBreak(line, "");
    assert line + "\n" + "" == line + "\n";
    assert (line + "\n")[..|line|] == line && (line + "\n")[|line| + 1..] == "";
  }

  lemma {:induction false} BreakInFront(a: string, b: string)
    requires BreakAt(a) < |a|
    ensures BreakAt(a + b) == BreakAt(a)
  {
    if a[0] != '\n' {
      assert (a + b)[1..] == a[1..] + b;
      BreakInFront(a[1..], b);
    }
  }

  lemma {:induction false} TerminatedHasBreak(s: string)
    requires s != "" && Terminated(s)
    ensures BreakAt(s) < |s|
  {
    if s[0] != '\n' {
      TerminatedHasBreak(s[1..]);
    }
  }

  lemma CutInFront(a: string, b: string, i: nat)
    requires i < |a|
    ensures (a + b)[..i] == a[..i] && (a + b)[i + 1..] == a[i + 1..] + b
  {
  }

  /** The first line of a text with a break does not depend on what follows the text. */
  lemma FirstLineStays(a: string, b: string)
    requires BreakAt(a) < |a|
    ensures Lines(a + b) == [StripReturn(a[..BreakAt(a)])] + Lines(a[BreakAt(a) + 1..] + b)
    ensures Lines(a) == [StripReturn(a[..BreakAt(a)])] + Lines(a[BreakAt(a) + 1..])
  {
    var i := BreakAt(a);
    BreakInFront(a, b);
    CutInFront(a, b, i);
  }

  lemma PrependToBoth<T>(first: seq<T>, front: seq<T>, back: seq<T>, both: seq<T>, front': seq<T>, both': seq<T>)
    requires both == front + back && front' == first + front && both' == first + both
    ensures both' == front' + back
  {
  }

  lemma SameEnding(s: string, rest: string)
    requires |rest| < |s| && rest == s[|s| - |rest|..]
    ensures Terminated(s) ==> Terminated(rest)
    ensures rest != "" && !Terminated(s) ==> !Terminated(rest)
  {
  }

  /** Behind a terminated text, lines simply follow. */
  lemma {:induction false} LinesConcat(a: string, b: string)
    requires Terminated(a)
    ensures Lines(a + b) == Lines(a) + Lines(b)
    decreases |a|
  {
    if a == "" {
      assert a + b == b;
    } else {
      TerminatedHasBreak(a);
      FirstLineStays(a, b);
      var first, rest := [StripReturn(a[..BreakAt(a)])], a[BreakAt(a) + 1..];
      SameEnding(a, rest);
      LinesConcat(rest, b);
      PrependToBoth(first, Lines(rest), Lines(b), Lines(rest + b), Lines(a), Lines(a + b));
    }
  }

  function Unlines(lines: seq<string>): string {
    if lines == [] then "" else Unlines(lines[..|lines| - 1]) + lines[|lines| - 1] + "\n"
  }

  lemma {:induction false} LinesOfUnlines(lines: seq<string>)
    requires forall l :: l in lines ==> IsLine(l)
    ensures Lines(Unlines(lines)) == lines && Terminated(Unlines(lines))
  {
    if lines != [] {
      var front, last := lines[..|lines| - 1], lines[|lines| - 1];
      LinesOfUnlines(front);
      OneLine(last);
      LinesConcat(Unlines(front), last + "\n");
      assert Unlines(front) + last + "\n" == Unlines(front) + (last + "\n");
    }
  }

  lemma GluedBehindFirst(first: seq<string>, rest: seq<string>, line: string)
    requires rest != []
    ensures var all, n := first + rest, |first| + |rest| - 1;
            first + (rest[..|rest| - 1] + [rest[|rest| - 1] + line]) == all[..n] + [all[n] + line]
  {
  }

  /**
   Appending to a text whose last line has no line break glues the new line to it, so nothing is
   added as a line of its own.
   */
  lemma {:induction false} UnterminatedAppendMerges(s: string, line: string)
    requires !Terminated(s) && IsLine(line)
    ensures |Lines(s + line + "\n")| == |Lines(s)| && Lines(s) != []
    ensures var n := |Lines(s)| - 1;
            Lines(s + line + "\n") == Lines(s)[..n] + [Lines(s)[n] + line]
    decreases |s|
  {
    var i := BreakAt(s);
    if i == |s| {
      assert s[..i] == s;
      NoBreakBefore(s);
      OneLine(s + line);
    } else {
      var first, rest := [StripReturn(s[..i])], s[i + 1..];
      assert rest != "";
      SameEnding(s, rest);
      UnterminatedAppendMerges(rest, line);
      FirstLineStays(s, line + "\n");
      ConcatIsAssociative(s, line, "\n");
      ConcatIsAssociative(rest, line, "\n");
      GluedBehindFirst(first, Lines(rest), line);
    }
  }

  // ---- Converting legacy text -----------------------------------------------------------------

  predicate IsClean(c: Codec, s: string) {
    IsLine(s) && Trim(s) == s && c.isJson(s)
  }

  /** The wrapper of any line is itself one clean JSON line. */
  ghost predicate WrapsCleanly(c: Codec) {
    forall s :: IsClean(c, c.legacy(s))
  }

  predicate IsValidLine(c: Codec, s: string) {
    Trim(s) != "" && c.isJson(Trim(s))
  }

  predicate AllValid(c: Codec, lines: seq<string>) {
    forall i :: 0 <= i < |lines| ==> IsValidLine(c, lines[i])
  }

  /** What the conversion writes for one line. */
  function Converted(c: Codec, line: string): seq<string> {
    if Trim(line) == "" then []
    else if c.isJson(Trim(line)) then [Trim(line)]
    else [c.legacy(line)]
  }

  function AllConverted(c: Codec, lines: seq<string>): seq<string> {
    if lines == [] then [] else AllConverted(c, lines[..|lines| - 1]) + Converted(c, lines[|lines| - 1])
  }

  /** Converting one more line writes nothing or one more line. */
  lemma OneMoreConverted(c: Codec, lines: seq<string>, i: nat)
    requires i < |lines|
    ensures var done, now := AllConverted(c, lines[..i]), AllConverted(c, lines[..i + 1]);
            Unlines(now) == if Trim(lines[i]) == "" then Unlines(done)
                            else Unlines(done) + Converted(c, lines[i])[0] + "\n"
  {
    assert lines[..i + 1][..i] == lines[..i];
    var done := AllConverted(c, lines[..i]);
    if Trim(lines[i]) == "" {
      assert done + [] == done;
    } else {
      assert (done + Converted(c, lines[i]))[..|done|] == done;
    }
  }

  function NonBlank(lines: seq<string>): nat {
    if lines == [] then 0
    else NonBlank(lines[..|lines| - 1]) + if Trim(lines[|lines| - 1]) != "" then 1 else 0
  }

  /**
   No non-blank line is lost: it stands, trimmed if it was JSON and wrapped if not, behind as many
   converted lines as there were non-blank lines before it, and nothing else is written.
   */
  lemma {:induction false} EveryLineIsConverted(c: Codec, lines: seq<string>, i: nat)
    requires i < |lines|
    ensures |AllConverted(c, lines)| == NonBlank(lines)
    ensures Trim(lines[i]) != "" ==>
              && NonBlank(lines[..i]) < NonBlank(lines)
              && AllConverted(c, lines)[NonBlank(lines[..i])]
                 == if c.isJson(Trim(lines[i])) then Trim(lines[i]) else c.legacy(lines[i])
    decreases |lines|
  {
    var n := |lines| - 1;
    if n > 0 {
      EveryLineIsConverted(c, lines[..n], if i < n then i else 0);
    }
    if i < n {
      assert lines[..n][..i] == lines[..i];
    }
  }

  function Sanitised(c: Codec, content: string): string {
    if AllValid(c, Lines(content)) then content else Unlines(AllConverted(c, Lines(content)))
  }

  lemma {:induction false} TrimStartShape(s: string)
    ensures var r := TrimStart(s);
            && |r| <= |s| && r == s[|s| - |r|..] && (r != "" ==> !IsSpace(r[0]))
  {
    if s != "" && IsSpace(s[0]) {
      TrimStartShape(s[1..]);
    }
  }

  lemma {:induction false} TrimEndShape(s: string)
    ensures var r := TrimEnd(s);
            && (r != "" ==> !IsSpace(r[|r| - 1])) && ((s != "" && !IsSpace(s[0])) ==> r != "")
  {
    if s != "" && IsSpace(s[|s| - 1]) {
      TrimEndShape(s[..|s| - 1]);
    }
  }

  lemma {:induction false} LinesHaveNoBreaks(s: string)
    ensures forall l :: l in Lines(s) ==> '\n' !in l
    decreases |s|
  {
    if s != "" {
      NoBreakBefore(s);
      if BreakAt(s) < |s| {
        LinesHaveNoBreaks(s[BreakAt(s) + 1..]);
      } else {
        assert s[..BreakAt(s)] == s;
      }
    }
  }

  /** A non-blank line without break is, once trimmed, a line that trims to itself. */
  lemma TrimmedIsLine(s: string)
    requires '\n' !in s && Trim(s) != ""
    ensures IsLine(Trim(s)) && Trim(Trim(s)) == Trim(s)
  {
    TrimStartShape(s);
    TrimEndShape(TrimStart(s));
    var r := Trim(s);
    assert r[0] == TrimStart(s)[0];
    assert forall c :: c in r ==> c in TrimStart(s);
  }

  lemma {:induction false} ConvertedAreClean(c: Codec, lines: seq<string>)
    requires WrapsCleanly(c) && forall l :: l in lines ==> '\n' !in l
    ensures forall l :: l in AllConverted(c, lines) ==> IsClean(c, l)
  {
    if lines != [] {
      ConvertedAreClean(c, lines[..|lines| - 1]);
      var last := lines[|lines| - 1];
      if Trim(last) != "" {
        TrimmedIsLine(last);
      }
      assert IsClean(c, c.legacy(last));
    }
  }

  /** After conversion every line is valid JSON, a rewritten text is terminated, and a second pass changes nothing. */
  lemma SanitisedIsValid(c: Codec, content: string)
    requires WrapsCleanly(c)
    ensures AllValid(c, Lines(Sanitised(c, content)))
    ensures Sanitised(c, Sanitised(c, content)) == Sanitised(c, content)
    ensures Terminated(content) || !AllValid(c, Lines(content)) ==> Terminated(Sanitised(c, content))
    ensures !AllValid(c, Lines(content)) ==> Lines(Sanitised(c, content)) == AllConverted(c, Lines(content))
  {
    if !AllValid(c, Lines(content)) {
      var converted := AllConverted(c, Lines(content));
      LinesHaveNoBreaks(content);
      ConvertedAreClean(c, Lines(content));
      LinesOfUnlines(converted);
      forall i | 0 <= i < |converted| ensures IsValidLine(c, converted[i]) {
        assert IsClean(c, converted[i]);
      }
    }
  }

  // ---- Rotation -------------------------------------------------------------------------------

  predicate Taken(archives: seq<Archive>, name: ArchiveName) {
    exists i :: 0 <= i < |archives| && archives[i].name == name
  }

  predicate DistinctNames(archives: seq<Archive>) {
    forall i, j :: 0 <= i < j < |archives| ==> archives[i].name != archives[j].name
  }

  /** The local date of the first non-blank line, if that line is a dated JSON event. */
  function FirstEventDate(c: Codec, lines: seq<string>): Option<int> {
    if lines == [] then None
    else if Trim(lines[0]) == "" then FirstEventDate(c, lines[1..])
    else if !c.isJson(Trim(lines[0])) then None
    else c.dateOf(Trim(lines[0]))
  }

  function ArchiveDate(c: Codec, s: Store, today: int): int
    requires s.active.Some?
  {
    var first := FirstEventDate(c, Lines(s.active.value));
    if first.Some? && first.value < today then first.value else s.modified
  }

  predicate Rotates(c: Codec, s: Store, today: int) {
    s.active.Some? && s.active.value != "" && ArchiveDate(c, s, today) < today
  }

  lemma {:induction false} NamesBound(archives: seq<Archive>)
    ensures |set i | 0 <= i < |archives| :: archives[i].name| <= |archives|
  {
    if archives != [] {
      var n := |archives| - 1;
      NamesBound(archives[..n]);
      assert (set i | 0 <= i < |archives| :: archives[i].name)
          == (set i | 0 <= i < n :: archives[..n][i].name) + {archives[n].name};
    }
  }

  lemma {:induction false} IndexedNames(date: int, n: nat)
    ensures |set k | 0 <= k < n :: ArchiveName(date, k)| == n
  {
    if n > 0 {
      IndexedNames(date, n - 1);
      assert (set k | 0 <= k < n :: ArchiveName(date, k))
          == (set k | 0 <= k < n - 1 :: ArchiveName(date, k)) + {ArchiveName(date, n - 1)};
    }
  }

  lemma {:induction false} SubsetSize<T>(a: set<T>, b: set<T>)
    requires a <= b
    ensures |a| <= |b|
  {
    assert b == a + (b - a);
  }

  /** The date of a log is that of its first line that is not blank, if it is JSON with a date. */
  lemma {:induction false} FirstEventDateIs(c: Codec, lines: seq<string>, i: nat)
    requires i < |lines| && Trim(lines[i]) != "" && forall j :: 0 <= j < i ==> Trim(lines[j]) == ""
    ensures FirstEventDate(c, lines) == if c.isJson(Trim(lines[i])) then c.dateOf(Trim(lines[i])) else None
  {
    if i > 0 {
      assert forall j :: 0 <= j < i - 1 ==> lines[1..][j] == lines[j + 1];
      FirstEventDateIs(c, lines[1..], i - 1);
    }
  }

  /** A log rotates exactly if it is not empty and its first event, or its last change, is of an earlier day. */
  lemma RotatesExactlyWhen(c: Codec, s: Store, today: int)
    ensures Rotates(c, s, today) <==>
            && s.active.Some? && s.active.value != ""
            && (s.modified < today
                || exists d :: d < today && FirstEventDate(c, Lines(s.active.value)) == Some(d))
  {
    if s.active.Some? {
      var first := FirstEventDate(c, Lines(s.active.value));
      if first.Some? && first.value < today {
        assert first == Some(first.value);
      }
    }
  }

  /** The least free index of a date. */
  ghost predicate IsNextName(archives: seq<Archive>, date: int, name: ArchiveName) {
    && name.date == date && !Taken(archives, name)
    && forall k :: 0 <= k < name.index ==> Taken(archives, ArchiveName(date, k))
  }

  ghost predicate RotatesTo(c: Codec, s: Store, today: int, after: Store) {
    if Rotates(c, s, today) then
      exists name :: IsNextName(s.archives, ArchiveDate(c, s, today), name)
                     && after == Store(Some(""), today, s.archives + [Archive(name, s.active.value)])
    else after == s
  }

  /** The archive is named after the first event's day if that is over, and else after the last change. */
  lemma ArchiveIsNamedAfter(c: Codec, s: Store, today: int, after: Store)
    requires Rotates(c, s, today) && RotatesTo(c, s, today, after)
    ensures |after.archives| == |s.archives| + 1 && after.active == Some("") && after.modified == today
    ensures after.archives[|s.archives|].content == s.active.value
    ensures match FirstEventDate(c, Lines(s.active.value))
            case Some(d) => after.archives[|s.archives|].name.date == if d < today then d else s.modified
            case None => after.archives[|s.archives|].name.date == s.modified
  {
  }

  /** Some index below the bound is free: a finite directory cannot take them all. */
  lemma {:induction false} FreeIndexExists(archives: seq<Archive>, date: int, n: nat)
    requires forall k :: 0 <= k < n ==> Taken(archives, ArchiveName(date, k))
    ensures n <= |archives|
  {
    NamesBound(archives);
    var names := set i | 0 <= i < |archives| :: archives[i].name;
    var wanted := set k | 0 <= k < n :: ArchiveName(date, k);
    assert wanted <= names;
    IndexedNames(date, n);
    SubsetSize(wanted, names);
  }

  lemma NextNameIsUnique(archives: seq<Archive>, date: int, a: ArchiveName, b: ArchiveName)
    requires IsNextName(archives, date, a) && IsNextName(archives, date, b)
    ensures a == b
  {
    assert a.index < b.index ==> Taken(archives, ArchiveName(date, a.index));
    assert b.index < a.index ==> Taken(archives, ArchiveName(date, b.index));
  }

  // ---- Whole operations -----------------------------------------------------------------------

  function AfterEnsure(c: Codec, s: Store, today: int): Store {
    if s.active.None? || AllValid(c, Lines(s.active.value)) then s
    else s.(active := Some(Sanitised(c, s.active.value)), modified := today)
  }

  /** The search has one result, so a rotation has one outcome. */
  lemma RotationIsDeterministic(c: Codec, s: Store, today: int, a: Store, b: Store)
    requires RotatesTo(c, s, today, a) && RotatesTo(c, s, today, b)
    ensures a == b
  {
    if Rotates(c, s, today) {
      var date := ArchiveDate(c, s, today);
      var m :| IsNextName(s.archives, date, m)
               && a == Store(Some(""), today, s.archives + [Archive(m, s.active.value)]);
      var n :| IsNextName(s.archives, date, n)
               && b == Store(Some(""), today, s.archives + [Archive(n, s.active.value)]);
      NextNameIsUnique(s.archives, date, m, n);
    }
  }

  function Text(s: Store): string {
    if s.active.Some? then s.active.value else ""
  }

  function Appended(s: Store, line: string, today: int): Store {
    s.(active := Some(Text(s) + line + "\n"), modified := today)
  }

  function ArchivedLines(archives: seq<Archive>): seq<string> {
    if archives == [] then []
    else ArchivedLines(archives[..|archives| - 1]) + Lines(archives[|archives| - 1].content)
  }

  /** Everything logged: the archives in the order of their creation, then the active file. */
  function AllLines(s: Store): seq<string> {
    ArchivedLines(s.archives) + Lines(Text(s))
  }

  /** A store the program keeps: distinct archives and a terminated active file of valid JSON lines. */
  predicate Healthy(c: Codec, s: Store) {
    DistinctNames(s.archives) && Terminated(Text(s)) && AllValid(c, Lines(Text(s)))
  }

  /** Rotation moves lines without losing, repeating or reordering one, and overwrites no archive. */
  lemma RotationConserves(c: Codec, s: Store, today: int, after: Store)
    requires DistinctNames(s.archives) && RotatesTo(c, s, today, after)
    ensures AllLines(after) == AllLines(s) && s.archives <= after.archives && DistinctNames(after.archives)
    ensures Terminated(Text(s)) ==> Terminated(Text(after))
    ensures Text(after) == Text(s) || Text(after) == ""
  {
    if Rotates(c, s, today) {
      var name :| IsNextName(s.archives, ArchiveDate(c, s, today), name)
                  && after == Store(Some(""), today, s.archives + [Archive(name, s.active.value)]);
      assert after.archives[..|s.archives|] == s.archives;
      forall i | 0 <= i < |s.archives| ensures s.archives[i].name != name {
        assert !Taken(s.archives, name);
      }
    }
  }

  lemma AppendAddsOneLine(s: Store, line: string, today: int)
    requires IsLine(line)
    ensures AllLines(Appended(s, line, today)) == AllLines(s) + [line] <==> Terminated(Text(s))
    ensures Terminated(Text(s)) ==> Lines(Text(Appended(s, line, today))) == Lines(Text(s)) + [line]
  {
    var t := Text(s) + line + "\n";
    if Terminated(Text(s)) {
      assert t == Text(s) + (line + "\n");
      LinesConcat(Text(s), line + "\n");
      OneLine(line);
    } else {
      UnterminatedAppendMerges(Text(s), line);
      assert |AllLines(Appended(s, line, today))| == |AllLines(s)|;
    }
  }

  datatype Operation = Append(line: string, day: int) | Ensure(day: int) | Rotate(day: int)

  ghost predicate Performs(c: Codec, s: Store, op: Operation, after: Store) {
    match op
    case Ensure(day) => after == AfterEnsure(c, s, day)
    case Rotate(day) => RotatesTo(c, s, day, after)
    case Append(line, day) =>
      exists mid :: RotatesTo(c, AfterEnsure(c, s, day), day, mid) && after == Appended(mid, line, day)
  }

  function EventsOf(ops: seq<Operation>): seq<string> {
    if ops == [] then []
    else EventsOf(ops[..|ops| - 1]) + if ops[|ops| - 1].Append? then [ops[|ops| - 1].line] else []
  }

  /** A run: each operation leads from one store to the next. */
  ghost predicate IsRun(c: Codec, stores: seq<Store>, ops: seq<Operation>) {
    && |stores| == |ops| + 1
    && (forall k :: 0 <= k < |ops| ==> Performs(c, stores[k], ops[k], stores[k + 1]))
    && forall k :: 0 <= k < |ops| && ops[k].Append? ==> IsClean(c, ops[k].line)
  }

  lemma AppendConserves(c: Codec, s: Store, mid: Store, line: string, day: int)
    requires Healthy(c, s) && IsClean(c, line) && RotatesTo(c, s, day, mid)
    ensures Healthy(c, Appended(mid, line, day)) && s.archives <= Appended(mid, line, day).archives
    ensures AllLines(Appended(mid, line, day)) == AllLines(s) + [line]
  {
    RotationConserves(c, s, day, mid);
    AppendAddsOneLine(mid, line, day);
  }

  lemma OperationConserves(c: Codec, s: Store, op: Operation, after: Store)
    requires Healthy(c, s) && Performs(c, s, op, after)
    requires op.Append? ==> IsClean(c, op.line)
    ensures Healthy(c, after) && s.archives <= after.archives
    ensures AllLines(after) == AllLines(s) + if op.Append? then [op.line] else []
  {
    assert AfterEnsure(c, s, op.day) == s;
    match op
    case Ensure(_) =>
    case Rotate(day) => RotationConserves(c, s, day, after);
    case Append(line, day) =>
      var mid :| RotatesTo(c, AfterEnsure(c, s, day), day, mid) && after == Appended(mid, line, day);
      AppendConserves(c, s, mid, line, day);
  }

  /** A healthy store that holds the lines of an earlier one, in order, and then these events. */
  ghost predicate Extends(c: Codec, earlier: Store, events: seq<string>, s: Store) {
    Healthy(c, s) && earlier.archives <= s.archives && AllLines(s) == AllLines(earlier) + events
  }

  lemma OperationExtends(c: Codec, earlier: Store, events: seq<string>, s: Store, op: Operation, after: Store)
    requires Extends(c, earlier, events, s) && Performs(c, s, op, after)
    requires op.Append? ==> IsClean(c, op.line)
    ensures Extends(c, earlier, events + if op.Append? then [op.line] else [], after)
  {
    OperationConserves(c, s, op, after);
    var more := if op.Append? then [op.line] else [];
    assert AllLines(earlier) + events + more == AllLines(earlier) + (events + more);
  }

  /**
   Over any run of appends, conversions and rotations from a healthy store, archives plus active
   file hold every earlier line and every appended event exactly once and in order, no archive is
   changed or replaced, and the active file stays terminated clean JSON lines.
   */
  lemma {:induction false} EventsAreConserved(c: Codec, stores: seq<Store>, ops: seq<Operation>)
    requires IsRun(c, stores, ops) && Healthy(c, stores[0])
    ensures Extends(c, stores[0], EventsOf(ops), stores[|ops|])
    decreases |ops|
  {
    if ops == [] {
      assert AllLines(stores[0]) + [] == AllLines(stores[0]);
    } else {
      var n := |ops| - 1;
      assert IsRun(c, stores[..n + 1], ops[..n]);
      EventsAreConserved(c, stores[..n + 1], ops[..n]);
      OperationExtends(c, stores[0], EventsOf(ops[..n]), stores[n], ops[n], stores[n + 1]);
    }
  }

  /** Whatever the store was, what an append meets after conversion and rotation is all valid lines. */
  lemma ConvertedAndRotatedIsValid(c: Codec, s: Store, mid: Store, day: int)
    requires WrapsCleanly(c) && DistinctNames(s.archives) && RotatesTo(c, AfterEnsure(c, s, day), day, mid)
    ensures AllValid(c, Lines(Text(mid)))
  {
    SanitisedIsValid(c, Text(s));
    assert AllValid(c, Lines(Text(AfterEnsure(c, s, day))));
    RotationConserves(c, AfterEnsure(c, s, day), day, mid);
  }

  /**
   An append to valid lines makes the event a line of its own, and keeps all lines valid, exactly
   when the text is terminated; otherwise the event is glued to the last line, and the lines stay
   valid exactly if the glued one is.
   */
  lemma AppendIsCleanExactlyWhenTerminated(c: Codec, mid: Store, line: string, day: int)
    requires AllValid(c, Lines(Text(mid))) && IsClean(c, line)
    ensures AllLines(Appended(mid, line, day)) == AllLines(mid) + [line] <==> Terminated(Text(mid))
    ensures var before, after := Lines(Text(mid)), Lines(Text(Appended(mid, line, day)));
            && (Terminated(Text(mid)) ==> AllValid(c, after))
            && (!Terminated(Text(mid)) ==>
                  before != [] && (AllValid(c, after) <==> IsValidLine(c, before[|before| - 1] + line)))
  {
    AppendAddsOneLine(mid, line, day);
    var before, after := Lines(Text(mid)), Lines(Text(Appended(mid, line, day)));
    if !Terminated(Text(mid)) {
      UnterminatedAppendMerges(Text(mid), line);
      assert after[|before| - 1] == before[|before| - 1] + line;
    }
  }

  // ---- Runs from any store ---------------------------------------------------------------------

  lemma {:induction false} EventsSplit(ops: seq<Operation>, n: nat)
    requires n <= |ops|
    ensures EventsOf(ops) == EventsOf(ops[..n]) + EventsOf(ops[n..])
    decreases |ops|
  {
    if n == |ops| {
      assert ops[..n] == ops;
    } else {
      var front, last := ops[..|ops| - 1], ops[|ops| - 1];
      EventsSplit(front, n);
      assert front[..n] == ops[..n];
      assert ops[n..][..|ops[n..]| - 1] == front[n..];
      ConcatIsAssociative(EventsOf(ops[..n]), EventsOf(front[n..]), if last.Append? then [last.line] else []);
    }
  }

  lemma FirstEvent(ops: seq<Operation>)
    requires ops != []
    ensures EventsOf(ops) == (if ops[0].Append? then [ops[0].line] else []) + EventsOf(ops[1..])
  {
    EventsSplit(ops, 1);
    assert ops[..1][..0] == [];
    assert EventsOf(ops[..1]) == [] + if ops[0].Append? then [ops[0].line] else [];
  }

  /** The starting lines as they end up: kept, or, if one was not valid JSON, perhaps all converted once. */
  ghost predicate IsFateOf(c: Codec, lines: seq<string>, kept: seq<string>) {
    kept == lines || (!AllValid(c, lines) && kept == AllConverted(c, lines))
  }

  /**
   Behind the archives there were, the store holds the starting lines, kept or converted, and then
   exactly these events in order; no archive is changed; and after an event the store is healthy.
   */
  ghost predicate Conserves(c: Codec, start: Store, events: seq<string>, s: Store) {
    && start.archives <= s.archives && DistinctNames(s.archives)
    && (events != [] ==> Healthy(c, s))
    && exists kept :: IsFateOf(c, Lines(Text(start)), kept)
                      && AllLines(s) == ArchivedLines(start.archives) + kept + events
  }

  /** The starting text is valid JSON lines, of which the last has no line break. */
  predicate IsUnfinished(c: Codec, s: Store) {
    AllValid(c, Lines(Text(s))) && !Terminated(Text(s))
  }

  /** None of the first `n` operations rotates the starting text. */
  predicate NoneRotates(c: Codec, start: Store, ops: seq<Operation>, n: nat)
    requires n <= |ops|
  {
    forall j :: 0 <= j < n && !ops[j].Ensure? ==> !Rotates(c, start, ops[j].day)
  }

  /** Some operation appends to the starting text before any rotation has taken it away. */
  ghost predicate AppendsBeforeRotating(c: Codec, start: Store, ops: seq<Operation>) {
    exists k :: 0 <= k < |ops| && ops[k].Append? && NoneRotates(c, start, ops, k + 1)
  }

  /** The run after its first operation is a run. */
  lemma TailRuns(c: Codec, stores: seq<Store>, ops: seq<Operation>)
    requires IsRun(c, stores, ops) && ops != []
    ensures IsRun(c, stores[1..], ops[1..]) && Performs(c, stores[0], ops[0], stores[1])
    ensures stores[1..][|ops[1..]|] == stores[|ops|]
  {
  }

  /** A store that holds the starting lines, kept or converted, and the first event if there was one. */
  ghost predicate IsSettled(c: Codec, start: Store, op: Operation, s: Store) {
    && Healthy(c, s) && Conserves(c, start, if op.Append? then [op.line] else [], s)
  }

  lemma SettledRunConserves(c: Codec, stores: seq<Store>, ops: seq<Operation>)
    requires IsRun(c, stores, ops) && ops != [] && IsSettled(c, stores[0], ops[0], stores[1])
    ensures Conserves(c, stores[0], EventsOf(ops), stores[|ops|])
  {
    var start, next, end, tail := stores[0], stores[1], stores[|ops|], EventsOf(ops[1..]);
    var first := if ops[0].Append? then [ops[0].line] else [];
    TailRuns(c, stores, ops);
    EventsAreConserved(c, stores[1..], ops[1..]);
    FirstEvent(ops);
    var kept :| IsFateOf(c, Lines(Text(start)), kept)
                && AllLines(next) == ArchivedLines(start.archives) + kept + first;
    ConcatIsAssociative(ArchivedLines(start.archives) + kept, first, tail);
    assert AllLines(end) == ArchivedLines(start.archives) + kept + EventsOf(ops);
  }

  lemma ConvertedIsHealthy(c: Codec, s: Store, day: int)
    requires WrapsCleanly(c) && DistinctNames(s.archives) && !AllValid(c, Lines(Text(s)))
    ensures var converted := AfterEnsure(c, s, day);
            && Healthy(c, converted) && converted.archives == s.archives
            && AllLines(converted) == ArchivedLines(s.archives) + AllConverted(c, Lines(Text(s)))
  {
    SanitisedIsValid(c, Text(s));
  }

  lemma RotatedIsEmpty(c: Codec, s: Store, day: int, after: Store)
    requires RotatesTo(c, s, day, after)
    ensures Rotates(c, s, day) ==> Text(after) == "" && Healthy(c, after.(archives := []))
    ensures after != s ==> Rotates(c, s, day)
  {
  }

  /** A rotation that happens archives the text as it is and leaves an empty file. */
  lemma RotatedIsSettled(c: Codec, s: Store, op: Operation, after: Store)
    requires DistinctNames(s.archives) && op.Rotate? && after != s && RotatesTo(c, s, op.day, after)
    ensures IsSettled(c, s, op, after)
  {
    RotationConserves(c, s, op.day, after);
    RotatedIsEmpty(c, s, op.day, after);
    assert AllLines(after) == ArchivedLines(s.archives) + Lines(Text(s)) + [];
  }

  /** What the first operation does to a store with an invalid line. */
  lemma InvalidTextSettles(c: Codec, s: Store, op: Operation, after: Store)
    requires WrapsCleanly(c) && DistinctNames(s.archives) && !AllValid(c, Lines(Text(s)))
    requires Performs(c, s, op, after) && (op.Append? ==> IsClean(c, op.line))
    ensures IsSettled(c, s, op, after) || (op.Rotate? && after == s)
  {
    if op.Rotate? {
      if after != s {
        RotatedIsSettled(c, s, op, after);
      }
    } else {
      var converted := AfterEnsure(c, s, op.day);
      ConvertedIsHealthy(c, s, op.day);
      if op.Append? {
        var mid :| RotatesTo(c, converted, op.day, mid) && after == Appended(mid, op.line, op.day);
        AppendConserves(c, converted, mid, op.line, op.day);
      } else {
        assert AllLines(after) == ArchivedLines(s.archives) + AllConverted(c, Lines(Text(s))) + [];
      }
    }
  }

  /** What the first operation does to valid text without a last line break. */
  lemma UnfinishedTextSteps(c: Codec, s: Store, op: Operation, after: Store)
    requires DistinctNames(s.archives) && IsUnfinished(c, s)
    requires Performs(c, s, op, after) && (op.Append? ==> IsClean(c, op.line))
    ensures !op.Ensure? && Rotates(c, s, op.day) ==> IsSettled(c, s, op, after)
    ensures !op.Append? && (op.Ensure? || !Rotates(c, s, op.day)) ==> after == s
    ensures op.Append? && !Rotates(c, s, op.day) ==> after == Appended(s, op.line, op.day)
  {
    assert AfterEnsure(c, s, op.day) == s;
    if !op.Ensure? && Rotates(c, s, op.day) {
      if op.Rotate? {
        RotatedIsSettled(c, s, op, after);
      } else {
        var mid :| RotatesTo(c, s, op.day, mid) && after == Appended(mid, op.line, op.day);
        RotatedIsSettled(c, s, Rotate(op.day), mid);
        AppendConserves(c, mid, mid, op.line, op.day);
      }
    }
  }

  lemma NothingHappened(c: Codec, s: Store)
    requires DistinctNames(s.archives)
    ensures Conserves(c, s, [], s)
  {
    assert AllLines(s) == ArchivedLines(s.archives) + Lines(Text(s)) + [];
  }

  lemma SkippedFirst(ops: seq<Operation>)
    requires ops != [] && !ops[0].Append?
    ensures EventsOf(ops) == EventsOf(ops[1..])
  {
    FirstEvent(ops);
    assert [] + EventsOf(ops[1..]) == EventsOf(ops[1..]);
  }

  /** From any store but one with unfinished text, every run conserves everything. */
  lemma {:induction false} FinishedStartConserves(c: Codec, stores: seq<Store>, ops: seq<Operation>)
    requires IsRun(c, stores, ops) && WrapsCleanly(c) && DistinctNames(stores[0].archives)
    requires !IsUnfinished(c, stores[0])
    ensures Conserves(c, stores[0], EventsOf(ops), stores[|ops|])
    decreases |ops|
  {
    var start := stores[0];
    if ops == [] {
      NothingHappened(c, start);
    } else if Healthy(c, start) {
      EventsAreConserved(c, stores, ops);
      assert AllLines(stores[|ops|]) == ArchivedLines(start.archives) + Lines(Text(start)) + EventsOf(ops);
    } else {
      TailRuns(c, stores, ops);
      InvalidTextSettles(c, start, ops[0], stores[1]);
      if IsSettled(c, start, ops[0], stores[1]) {
        SettledRunConserves(c, stores, ops);
      } else {
        FinishedStartConserves(c, stores[1..], ops[1..]);
        SkippedFirst(ops);
      }
    }
  }

  lemma {:induction false} TrimStartIsBlank(s: string)
    ensures TrimStart(s) == "" <==> forall i :: 0 <= i < |s| ==> IsSpace(s[i])
  {
    if s != "" && IsSpace(s[0]) {
      TrimStartIsBlank(s[1..]);
      assert forall i :: 1 <= i < |s| ==> s[i] == s[1..][i - 1];
      assert forall i :: 0 <= i < |s[1..]| ==> s[1..][i] == s[i + 1];
    }
  }

  lemma TrimIsBlank(s: string)
    ensures Trim(s) == "" <==> forall i :: 0 <= i < |s| ==> IsSpace(s[i])
  {
    TrimStartIsBlank(s);
    TrimStartShape(s);
    TrimEndShape(TrimStart(s));
  }

  lemma GluedIsNotBlank(c: Codec, last: string, line: string)
    requires IsClean(c, line)
    ensures Trim(last + line) != ""
  {
    TrimIsBlank(line);
    TrimIsBlank(last + line);
    var i :| 0 <= i < |line| && !IsSpace(line[i]);
    assert (last + line)[|last| + i] == line[i];
  }

  lemma {:induction false} ConvertedCount(c: Codec, lines: seq<string>)
    requires forall i :: 0 <= i < |lines| ==> Trim(lines[i]) != ""
    ensures |AllConverted(c, lines)| == |lines|
  {
    if lines != [] {
      ConvertedCount(c, lines[..|lines| - 1]);
    }
  }

  /** Gluing adds no line, and neither does a later conversion. */
  lemma GluedLines(c: Codec, s: string, line: string)
    requires AllValid(c, Lines(s)) && !Terminated(s) && IsClean(c, line)
    ensures Terminated(s + line + "\n")
    ensures |AllConverted(c, Lines(s + line + "\n"))| == |Lines(s + line + "\n")| == |Lines(s)|
  {
    UnterminatedAppendMerges(s, line);
    GluedIsNotBlank(c, Lines(s)[|Lines(s)| - 1], line);
    ConvertedCount(c, Lines(s + line + "\n"));
  }

  lemma ConservedCount(c: Codec, start: Store, events: seq<string>, s: Store)
    requires Conserves(c, start, events, s) && |AllConverted(c, Lines(Text(start)))| == |Lines(Text(start))|
    ensures |AllLines(s)| == |AllLines(start)| + |events|
  {
    var kept :| IsFateOf(c, Lines(Text(start)), kept)
                && AllLines(s) == ArchivedLines(start.archives) + kept + events;
  }

  /** Behind a glued line the store goes on with one line too few. */
  lemma GluedRunLosesLine(c: Codec, stores: seq<Store>, ops: seq<Operation>)
    requires IsRun(c, stores, ops) && WrapsCleanly(c) && DistinctNames(stores[0].archives) && ops != []
    requires IsUnfinished(c, stores[0]) && ops[0].Append?
    requires stores[1] == Appended(stores[0], ops[0].line, ops[0].day)
    ensures |AllLines(stores[|ops|])| < |AllLines(stores[0])| + |EventsOf(ops)|
  {
    var start, glued := stores[0], stores[1];
    TailRuns(c, stores, ops);
    GluedLines(c, Text(start), ops[0].line);
    FinishedStartConserves(c, stores[1..], ops[1..]);
    FirstEvent(ops);
    ConservedCount(c, glued, EventsOf(ops[1..]), stores[|ops|]);
  }

  lemma ValidCount(c: Codec, start: Store, events: seq<string>, s: Store)
    requires Conserves(c, start, events, s) && AllValid(c, Lines(Text(start)))
    ensures |AllLines(s)| == |AllLines(start)| + |events|
  {
    ConvertedCount(c, Lines(Text(start)));
    ConservedCount(c, start, events, s);
  }

  lemma RotatingFirst(c: Codec, start: Store, ops: seq<Operation>)
    requires ops != [] && !ops[0].Ensure? && Rotates(c, start, ops[0].day)
    ensures !AppendsBeforeRotating(c, start, ops)
  {
  }

  lemma AppendingFirst(c: Codec, start: Store, ops: seq<Operation>)
    requires ops != [] && ops[0].Append? && !Rotates(c, start, ops[0].day)
    ensures AppendsBeforeRotating(c, start, ops)
  {
    assert NoneRotates(c, start, ops, 0 + 1);
  }

  lemma GluedRunIsNotConserved(c: Codec, stores: seq<Store>, ops: seq<Operation>)
    requires IsRun(c, stores, ops) && WrapsCleanly(c) && DistinctNames(stores[0].archives) && ops != []
    requires IsUnfinished(c, stores[0]) && ops[0].Append?
    requires stores[1] == Appended(stores[0], ops[0].line, ops[0].day)
    ensures !Conserves(c, stores[0], EventsOf(ops), stores[|ops|])
  {
    GluedRunLosesLine(c, stores, ops);
    if Conserves(c, stores[0], EventsOf(ops), stores[|ops|]) {
      ValidCount(c, stores[0], EventsOf(ops), stores[|ops|]);
    }
  }

  lemma NoneRotatesInTail(c: Codec, start: Store, ops: seq<Operation>, n: nat)
    requires ops != [] && n < |ops| && (ops[0].Ensure? || !Rotates(c, start, ops[0].day))
    ensures NoneRotates(c, start, ops, n + 1) <==> NoneRotates(c, start, ops[1..], n)
  {
    assert forall j :: 0 <= j < n ==> ops[1..][j] == ops[j + 1];
    if NoneRotates(c, start, ops[1..], n) {
      forall j | 0 < j < n + 1 && !ops[j].Ensure? ensures !Rotates(c, start, ops[j].day) {
        assert ops[1..][j - 1] == ops[j];
      }
    }
  }

  lemma StillBeforeRotating(c: Codec, start: Store, ops: seq<Operation>)
    requires ops != [] && !ops[0].Append? && (ops[0].Ensure? || !Rotates(c, start, ops[0].day))
    ensures AppendsBeforeRotating(c, start, ops) <==> AppendsBeforeRotating(c, start, ops[1..])
  {
    if AppendsBeforeRotating(c, start, ops) {
      var k :| 0 <= k < |ops| && ops[k].Append? && NoneRotates(c, start, ops, k + 1);
      NoneRotatesInTail(c, start, ops, k);
      assert ops[1..][k - 1].Append? && NoneRotates(c, start, ops[1..], k - 1 + 1);
    }
    if AppendsBeforeRotating(c, start, ops[1..]) {
      var k :| 0 <= k < |ops[1..]| && ops[1..][k].Append? && NoneRotates(c, start, ops[1..], k + 1);
      NoneRotatesInTail(c, start, ops, k + 1);
      assert ops[k + 1].Append? && NoneRotates(c, start, ops, k + 1 + 1);
    }
  }

  lemma {:induction false} UnfinishedStartConserves(c: Codec, stores: seq<Store>, ops: seq<Operation>)
    requires IsRun(c, stores, ops) && WrapsCleanly(c) && DistinctNames(stores[0].archives)
    requires IsUnfinished(c, stores[0])
    ensures Conserves(c, stores[0], EventsOf(ops), stores[|ops|]) <==> !AppendsBeforeRotating(c, stores[0], ops)
    decreases |ops|
  {
    var start := stores[0];
    if ops == [] {
      NothingHappened(c, start);
    } else {
      var op := ops[0];
      TailRuns(c, stores, ops);
      UnfinishedTextSteps(c, start, op, stores[1]);
      if !op.Ensure? && Rotates(c, start, op.day) {
        SettledRunConserves(c, stores, ops);
        RotatingFirst(c, start, ops);
      } else if op.Append? {
        GluedRunIsNotConserved(c, stores, ops);
        AppendingFirst(c, start, ops);
      } else {
        UnfinishedStartConserves(c, stores[1..], ops[1..]);
        StillBeforeRotating(c, start, ops);
        SkippedFirst(ops);
      }
    }
  }

  /**
   Over every run from any store, legacy text included: the starting lines stay, as they are or
   converted once, and behind them stand exactly the appended events in order, with no archive changed
   and the file healthy after an event.  The one exception is exact: the starting text is valid lines
   of which the last has no line break, and an append comes before any rotation of it.
   */
  lemma EveryRunConservesExactlyUnlessGlued(c: Codec, stores: seq<Store>, ops: seq<Operation>)
    requires IsRun(c, stores, ops) && WrapsCleanly(c) && DistinctNames(stores[0].archives)
    ensures Conserves(c, stores[0], EventsOf(ops), stores[|ops|])
            <==> !(IsUnfinished(c, stores[0]) && AppendsBeforeRotating(c, stores[0], ops))
  {
    if IsUnfinished(c, stores[0]) {
      UnfinishedStartConserves(c, stores, ops);
    } else {
      FinishedStartConserves(c, stores, ops);
    }
  }

  // ---- The program ----------------------------------------------------------------------------

  class ComponentLog {
    const codec: Codec
    var active: Option<string>
    var modified: int
    var archives: seq<Archive>

    ghost function State(): Store
      reads this
    {
      Store(active, modified, archives)
    }

    constructor (codec: Codec, today: int)
      ensures State() == Store(None, today, []) && this.codec == codec
    {
      this.codec := codec;
      active := None;
      modified := today;
      archives := [];
    }

    /** Rewrites the active file if a line is blank or not JSON. */
    method EnsureJsonLines(today: int) returns (rewritten: bool)
      modifies this
      ensures State() == AfterEnsure(codec, old(State()), today)
      ensures rewritten <==> old(active).Some? && !AllValid(codec, Lines(old(active).value))
    {
      if active.None? || active.value == "" {
        return false;
      }
      var lines := Lines(active.value);
      if forall i :: 0 <= i < |lines| ==> IsValidLine(codec, lines[i]) {
        return false;
      }
      var output := "";
      for i := 0 to |lines|
        invariant State() == old(State())
        invariant output == Unlines(AllConverted(codec, lines[..i]))
      {
        OneMoreConverted(codec, lines, i);
        var trimmed := Trim(lines[i]);
        if trimmed == "" {
          continue;
        }
        var line := if codec.isJson(trimmed) then trimmed else codec.legacy(lines[i]);
        output := output + line + "\n";
      }
      assert lines[..|lines|] == lines;
      active := Some(output);
      modified := today;
      return true;
    }

    /** Searches the suffixes upwards until one is free. */
    method NextArchivePath(date: int) returns (name: ArchiveName)
      ensures IsNextName(archives, date, name)
    {
      var index := 0;
      while exists i :: 0 <= i < |archives| && archives[i].name == ArchiveName(date, index)
        invariant forall k :: 0 <= k < index ==> Taken(archives, ArchiveName(date, k))
        decreases |archives| - index
      {
        FreeIndexExists(archives, date, index + 1);
        index := index + 1;
      }
      return ArchiveName(date, index);
    }

    method RotateIfNeeded(today: int) returns (rotated: bool)
      modifies this
      ensures RotatesTo(codec, old(State()), today, State())
      ensures rotated <==> Rotates(codec, old(State()), today)
    {
      if active.None? || active.value == "" {
        return false;
      }
      var first := FirstEventDate(codec, Lines(active.value));
      var date := if first.Some? && first.value < today then first.value else modified;
      if date >= today {
        return false;
      }
      var name := NextArchivePath(date);
      archives := archives + [Archive(name, active.value)];
      active := Some("");
      modified := today;
      return true;
    }

    /** Converts, rotates, then appends one serialised event. */
    method AppendEvent(line: string, today: int)
      modifies this
      ensures Performs(codec, old(State()), Append(line, today), State())
    {
      var rewritten := EnsureJsonLines(today);
      var rotated := RotateIfNeeded(today);
      active := Some((if active.Some? then active.value else "") + line + "\n");
      modified := today;
    }
  }
}
