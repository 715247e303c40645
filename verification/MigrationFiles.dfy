/** Reading migration files: which directories Load accepts, and what it returns. */
module MigrationFiles {
  import opened Basics

  datatype Entry = Entry(name: string, isDir: bool, content: Option<string>)

  datatype Migration = Migration(version: int, name: string, sql: string, checksum: string)

  datatype LoadError = BadName | BadVersion | Duplicate | Unreadable | Empty | NoMigrations | Gap

  datatype Loaded = Accepted(migrations: seq<Migration>) | Rejected(error: LoadError)

  const MAX_INT := 0x7FFF_FFFF_FFFF_FFFF

  // ---- file names ----------------------------------------------------------------------------

  predicate SqlFile(e: Entry) {
    !e.isDir && |e.name| >= 4 && e.name[|e.name| - 4..] == ".sql"
  }

  function Before(s: string, c: char): string {
    if s == "" || s[0] == c then "" else [s[0]] + Before(s[1..], c)
  }

  function Natural(s: string): Option<int> {
    if s == "" then None
    else
      var last := s[|s| - 1];
      if !('0' <= last <= '9') then None
      else
        var digit := last as int - '0' as int;
        if |s| == 1 then Some(digit)
        else
          match Natural(s[..|s| - 1])
          case None => None
          case Some(n) => Some(n * 10 + digit)
  }

  /** An optional sign, digits, and a value that fits 64 bits. */
  function Atoi(s: string): Option<int> {
    var negative := s != "" && s[0] == '-';
    var digits := if s != "" && (s[0] == '-' || s[0] == '+') then s[1..] else s;
    match Natural(digits)
    case None => None
    case Some(n) =>
      if negative then (if n <= MAX_INT + 1 then Some(-n) else None)
      else if n <= MAX_INT then Some(n) else None
  }

  predicate Named(e: Entry) {
    '_' in e.name
  }

  function VersionOf(e: Entry): int {
    match Atoi(Before(e.name, '_'))
    case None => 0
    case Some(v) => v
  }

  // ---- what a version text is worth ----------------------------------------------------------

  function Pow10(n: nat): nat {
    if n == 0 then 1 else 10 * Pow10(n - 1)
  }

  predicate IsNumber(s: string) {
    s != "" && forall i :: 0 <= i < |s| ==> '0' <= s[i] <= '9'
  }

  /** Decimal digits by their place, leading zeros included. */
  function Value(s: string): int {
    if s == "" then 0 else (s[0] as int - '0' as int) * Pow10(|s| - 1) + Value(s[1..])
  }

  lemma {:induction false} ShiftedValue(s: string, c: char)
    ensures Value(s + [c]) == 10 * Value(s) + (c as int - '0' as int)
  {
    var t := s + [c];
    if s == "" {
      assert t[1..] == "" && Value(t[1..]) == 0 && Pow10(0) == 1;
    } else {
      var d, p := s[0] as int - '0' as int, Pow10(|s| - 1);
      ShiftedValue(s[1..], c);
      assert t[1..] == s[1..] + [c];
      assert Pow10(|t| - 1) == 10 * p;
      assert d * (10 * p) == 10 * (d * p);
    }
  }

  /** A text is a number exactly when it is digits only, and is worth what its digits say. */
  lemma {:induction false} NaturalValue(s: string)
    ensures Natural(s) == if IsNumber(s) then Some(Value(s)) else None
  {
    if s != "" {
      var n := |s| - 1;
      assert s == s[..n] + [s[n]];
      ShiftedValue(s[..n], s[n]);
      if n > 0 {
        NaturalValue(s[..n]);
      } else {
        assert Value(s[..n]) == 0;
      }
    }
  }

  lemma {:induction false} BeforeFirst(s: string, c: char, i: nat)
    requires i <= |s| && c !in s[..i] && (i < |s| ==> s[i] == c)
    ensures Before(s, c) == s[..i]
  {
    if i > 0 {
      assert s[..i] == [s[0]] + s[1..][..i - 1];
      assert s[0] in s[..i];
      BeforeFirst(s[1..], c, i - 1);
    }
  }

  /** The digits of a version text, after a plus sign if there is one. */
  function WithoutPlus(text: string): string {
    if text != "" && text[0] == '+' then text[1..] else text
  }

  lemma {:induction false} ValueIsNatural(s: string)
    requires forall i :: 0 <= i < |s| ==> '0' <= s[i] <= '9'
    ensures Value(s) >= 0
  {
    if s != "" {
      ValueIsNatural(s[1..]);
      assert (s[0] as int - '0' as int) * Pow10(|s| - 1) >= 0;
    }
  }

  /** A file has version v exactly when the text before its first underscore, a plus sign aside, is
      digits worth v, and v fits 64 bits. */
  lemma VersionExactlyWhen(e: Entry, i: nat, v: int)
    requires i <= |e.name| && '_' !in e.name[..i] && (i < |e.name| ==> e.name[i] == '_') && v >= 1
    ensures VersionOf(e) == v <==> var digits := WithoutPlus(e.name[..i]); IsNumber(digits) && Value(digits) == v && v <= MAX_INT
  {
    BeforeFirst(e.name, '_', i);
    var text := e.name[..i];
    NaturalValue(if text != "" && (text[0] == '-' || text[0] == '+') then text[1..] else text);
    if text != "" && text[0] == '-' {
      assert !IsNumber(text);
      if IsNumber(text[1..]) {
        ValueIsNatural(text[1..]);
      }
    }
  }

  predicate WellFormed(e: Entry) {
    Named(e) && VersionOf(e) >= 1 && e.content.Some? && !Blank(e.content.value)
  }

  function ToMigration(e: Entry, digest: string -> string): Migration
    requires e.content.Some?
  {
    Migration(VersionOf(e), e.name, e.content.value, digest(e.content.value))
  }

  // ---- what a directory means ----------------------------------------------------------------

  function SqlFiles(entries: seq<Entry>): (files: seq<Entry>)
    ensures forall e :: e in files <==> e in entries && SqlFile(e)
  {
    if entries == [] then []
    else
      var n := |entries| - 1;
      assert forall e :: e in entries <==> e in entries[..n] || e == entries[n];
      SqlFiles(entries[..n]) + if SqlFile(entries[n]) then [entries[n]] else []
  }

  predicate DistinctVersions(files: seq<Entry>) {
    forall i, j :: 0 <= i < j < |files| ==> VersionOf(files[i]) != VersionOf(files[j])
  }

  /** The directories Load accepts: n well-formed files, n >= 1, whose versions are 1 to n. */
  ghost predicate Loadable(entries: seq<Entry>) {
    var files := SqlFiles(entries);
    && files != [] && (forall e :: e in files ==> WellFormed(e)) && DistinctVersions(files)
    && forall e :: e in files ==> VersionOf(e) <= |files|
  }

  predicate Contiguous(list: seq<Migration>) {
    forall i :: 0 <= i < |list| ==> list[i].version == i + 1
  }

  predicate VersionTaken(list: seq<Migration>, version: int) {
    exists m :: m in list && m.version == version
  }

  /** The error of one file, given the migrations read before it. */
  function FileError(e: Entry, before: seq<Migration>): Option<LoadError> {
    if !Named(e) then Some(BadName)
    else if VersionOf(e) < 1 then Some(BadVersion)
    else if VersionTaken(before, VersionOf(e)) then Some(Duplicate)
    else if e.content.None? then Some(Unreadable)
    else if Blank(e.content.value) then Some(Empty)
    else None
  }

  /** The first loop: the migrations in directory order, or the first file's error. */
  function Scan(entries: seq<Entry>, digest: string -> string): Loaded {
    if entries == [] then Accepted([])
    else
      var e := entries[|entries| - 1];
      match Scan(entries[..|entries| - 1], digest)
      case Rejected(error) => Rejected(error)
      case Accepted(before) =>
        if !SqlFile(e) then Accepted(before)
        else
          match FileError(e, before)
          case Some(error) => Rejected(error)
          case None => Accepted(before + [ToMigration(e, digest)])
  }

  lemma {:induction false} ScanContents(entries: seq<Entry>, digest: string -> string)
    ensures var files := SqlFiles(entries);
            && (Scan(entries, digest).Accepted? <==> (forall e :: e in files ==> WellFormed(e)) && DistinctVersions(files))
            && (Scan(entries, digest).Accepted? ==>
                  var list := Scan(entries, digest).migrations;
                  |list| == |files|
                  && forall i :: 0 <= i < |files| ==> WellFormed(files[i]) && list[i] == ToMigration(files[i], digest))
  {
    if entries != [] {
      var n := |entries| - 1;
      var e := entries[n];
      ScanContents(entries[..n], digest);
      var before := SqlFiles(entries[..n]);
      if SqlFile(e) {
        assert SqlFiles(entries) == before + [e];
        ScanNext(before, e, Scan(entries[..n], digest));
      } else {
        assert SqlFiles(entries) == before;
      }
    }
  }

  predicate SameVersions(list: seq<Migration>, files: seq<Entry>) {
    |list| == |files| && forall i :: 0 <= i < |files| ==> list[i].version == VersionOf(files[i])
  }

  lemma ScanNext(before: seq<Entry>, e: Entry, scanned: Loaded)
    requires scanned.Accepted? ==> SameVersions(scanned.migrations, before)
    requires scanned.Accepted? <==> (forall f :: f in before ==> WellFormed(f)) && DistinctVersions(before)
    ensures (scanned.Accepted? && FileError(e, scanned.migrations).None?)
            <==> (forall f :: f in before + [e] ==> WellFormed(f)) && DistinctVersions(before + [e])
  {
    var files := before + [e];
    if DistinctVersions(files) {
      forall i, j | 0 <= i < j < |before|
        ensures VersionOf(before[i]) != VersionOf(before[j])
      {
        assert files[i] == before[i] && files[j] == before[j];
      }
    }
    if scanned.Accepted? {
      TakenMeansRepeated(before, e, scanned.migrations);
    }
    assert e in files && forall f :: f in before ==> f in files;
  }

  lemma TakenMeansRepeated(before: seq<Entry>, e: Entry, list: seq<Migration>)
    requires SameVersions(list, before) && DistinctVersions(before)
    ensures VersionTaken(list, VersionOf(e)) <==> !DistinctVersions(before + [e])
  {
    var files := before + [e];
    if VersionTaken(list, VersionOf(e)) {
      var i :| 0 <= i < |list| && list[i].version == VersionOf(e);
      assert VersionOf(files[i]) == VersionOf(files[|before|]);
    } else {
      forall i, j | 0 <= i < j < |files|
        ensures VersionOf(files[i]) != VersionOf(files[j])
      {
        assert list[i] in list;
      }
    }
  }

  // ---- sorting -------------------------------------------------------------------------------

  predicate Increasing(list: seq<Migration>) {
    forall i, j :: 0 <= i < j < |list| ==> list[i].version < list[j].version
  }

  predicate Distinct(list: seq<Migration>) {
    forall i, j :: 0 <= i < j < |list| ==> list[i].version != list[j].version
  }

  /** sort.Slice by version, as an insertion of each element in turn. */
  method SortByVersion(list: seq<Migration>) returns (sorted: seq<Migration>)
    requires Distinct(list)
    ensures Increasing(sorted) && |sorted| == |list|
    ensures forall m :: m in sorted <==> m in list
  {
    sorted := [];
    for i := 0 to |list|
      invariant Increasing(sorted) && |sorted| == i
      invariant forall m :: m in sorted <==> m in list[..i]
    {
      var at := 0;
      while at < |sorted| && sorted[at].version < list[i].version
        invariant at <= |sorted|
        invariant forall j :: 0 <= j < at ==> sorted[j].version < list[i].version
      {
        at := at + 1;
      }
      forall m | m in sorted
        ensures m.version != list[i].version
      {
        var j :| 0 <= j < i && list[j] == m;
      }
      sorted := sorted[..at] + [list[i]] + sorted[at..];
      assert list[..i + 1] == list[..i] + [list[i]];
    }
    assert list[..|list|] == list;
  }

  /** n increasing versions between 1 and n are 1, 2, ..., n. */
  lemma {:induction false} Pigeonhole(list: seq<Migration>, i: nat)
    requires Increasing(list) && i < |list|
    requires forall m :: m in list ==> 1 <= m.version <= |list|
    ensures list[i].version == i + 1
  {
    AtLeast(list, i);
    AtMost(list, |list| - 1 - i);
  }

  lemma {:induction false} AtLeast(list: seq<Migration>, i: nat)
    requires Increasing(list) && i < |list| && forall m :: m in list ==> 1 <= m.version
    ensures list[i].version >= i + 1
  {
    assert list[i] in list;
    if i > 0 {
      AtLeast(list, i - 1);
    }
  }

  lemma {:induction false} AtMost(list: seq<Migration>, back: nat)
    requires Increasing(list) && back < |list| && forall m :: m in list ==> m.version <= |list|
    ensures list[|list| - 1 - back].version <= |list| - back
  {
    assert list[|list| - 1 - back] in list;
    if back > 0 {
      AtMost(list, back - 1);
    }
  }

  // ---- Load ----------------------------------------------------------------------------------

  /** The list is exactly the directory's files, each at the place of its version. */
  ghost predicate IsDirectory(list: seq<Migration>, entries: seq<Entry>, digest: string -> string) {
    && list != [] && Contiguous(list)
    && |list| == |SqlFiles(entries)|
    && (forall e :: e in entries && SqlFile(e) ==>
          && WellFormed(e) && 1 <= VersionOf(e) <= |list|
          && list[VersionOf(e) - 1] == Migration(VersionOf(e), e.name, e.content.value, digest(e.content.value)))
  }

  method ScanFiles(entries: seq<Entry>, digest: string -> string) returns (r: Loaded)
    ensures r == Scan(entries, digest)
  {
    var result: seq<Migration> := [];
    var seen: map<int, string> := map[];
    for i := 0 to |entries|
      invariant Scan(entries[..i], digest) == Accepted(result)
      invariant forall v :: v in seen <==> VersionTaken(result, v)
    {
      var entry := entries[i];
      assert entries[..i + 1][..i] == entries[..i];
      if SqlFile(entry) {
        if !Named(entry) {
          RejectedForGood(entries, i + 1, digest);
          return Rejected(BadName);
        }
        var version := VersionOf(entry);
        if version < 1 {
          RejectedForGood(entries, i + 1, digest);
          return Rejected(BadVersion);
        }
        if version in seen {
          RejectedForGood(entries, i + 1, digest);
          return Rejected(Duplicate);
        }
        if entry.content.None? {
          RejectedForGood(entries, i + 1, digest);
          return Rejected(Unreadable);
        }
        if Blank(entry.content.value) {
          RejectedForGood(entries, i + 1, digest);
          return Rejected(Empty);
        }
        var migration := ToMigration(entry, digest);
        assert forall m :: m in result + [migration] <==> m in result || m == migration;
        result, seen := result + [migration], seen[version := entry.name];
      }
    }
    assert entries[..|entries|] == entries;
    r := Accepted(result);
  }

  lemma {:induction false} RejectedForGood(entries: seq<Entry>, k: nat, digest: string -> string)
    requires k <= |entries| && Scan(entries[..k], digest).Rejected?
    ensures Scan(entries, digest) == Scan(entries[..k], digest)
    decreases |entries|
  {
    if k == |entries| {
      assert entries[..k] == entries;
    } else {
      var n := |entries| - 1;
      assert entries[..n][..k] == entries[..k];
      RejectedForGood(entries[..n], k, digest);
    }
  }

  /** Load accepts exactly the loadable directories, and returns their files as versions 1 to n. */
  method Load(entries: seq<Entry>, digest: string -> string) returns (r: Loaded)
    ensures r.Accepted? <==> Loadable(entries)
    ensures r.Accepted? ==> IsDirectory(r.migrations, entries, digest)
    ensures Scan(entries, digest).Rejected? ==> r == Scan(entries, digest)
  {
    var scanned := ScanFiles(entries, digest);
    ScanContents(entries, digest);
    if scanned.Rejected? {
      return scanned;
    }
    var result := SortByVersion(scanned.migrations);
    if |result| == 0 {
      return Rejected(NoMigrations);
    }
    SortedVersions(entries, result, digest);
    for index := 0 to |result|
      invariant forall j :: 0 <= j < index ==> result[j].version == j + 1
    {
      if result[index].version != index + 1 {
        return Rejected(Gap);
      }
    }
    r := Accepted(result);
  }

  /** What sorting the scanned migrations yields. */
  ghost predicate SortedScan(entries: seq<Entry>, sorted: seq<Migration>, digest: string -> string) {
    && Scan(entries, digest).Accepted? && Increasing(sorted) && |sorted| == |Scan(entries, digest).migrations|
    && forall m :: m in sorted <==> m in Scan(entries, digest).migrations
  }

  lemma FilesAreSorted(entries: seq<Entry>, sorted: seq<Migration>, digest: string -> string, e: Entry)
    requires SortedScan(entries, sorted, digest) && e in SqlFiles(entries)
    ensures WellFormed(e) && ToMigration(e, digest) in sorted
  {
    ScanContents(entries, digest);
    var files := SqlFiles(entries);
    var i :| 0 <= i < |files| && files[i] == e;
    assert Scan(entries, digest).migrations[i] == ToMigration(e, digest);
  }

  lemma SortedAreFiles(entries: seq<Entry>, sorted: seq<Migration>, digest: string -> string, m: Migration) returns (e: Entry)
    requires SortedScan(entries, sorted, digest) && m in sorted
    ensures e in SqlFiles(entries) && WellFormed(e) && m == ToMigration(e, digest)
  {
    ScanContents(entries, digest);
    var list := Scan(entries, digest).migrations;
    var i :| 0 <= i < |list| && list[i] == m;
    e := SqlFiles(entries)[i];
  }

  lemma LoadableIsContiguous(entries: seq<Entry>, sorted: seq<Migration>, digest: string -> string)
    requires SortedScan(entries, sorted, digest) && Loadable(entries)
    ensures Contiguous(sorted)
  {
    ScanContents(entries, digest);
    forall m | m in sorted
      ensures 1 <= m.version <= |sorted|
    {
      var e := SortedAreFiles(entries, sorted, digest, m);
    }
    forall i | 0 <= i < |sorted|
      ensures sorted[i].version == i + 1
    {
      Pigeonhole(sorted, i);
    }
  }

  lemma FileInPlace(entries: seq<Entry>, sorted: seq<Migration>, digest: string -> string, e: Entry)
    requires SortedScan(entries, sorted, digest) && Contiguous(sorted) && e in SqlFiles(entries)
    ensures WellFormed(e) && 1 <= VersionOf(e) <= |sorted| && sorted[VersionOf(e) - 1] == ToMigration(e, digest)
  {
    FilesAreSorted(entries, sorted, digest, e);
    var i :| 0 <= i < |sorted| && sorted[i] == ToMigration(e, digest);
  }

  lemma ContiguousIsDirectory(entries: seq<Entry>, sorted: seq<Migration>, digest: string -> string)
    requires SortedScan(entries, sorted, digest) && Contiguous(sorted) && sorted != []
    ensures IsDirectory(sorted, entries, digest) && Loadable(entries)
  {
    ScanContents(entries, digest);
    forall e | e in SqlFiles(entries)
      ensures WellFormed(e) && 1 <= VersionOf(e) <= |sorted| && sorted[VersionOf(e) - 1] == ToMigration(e, digest)
    {
      FileInPlace(entries, sorted, digest, e);
    }
  }

  /** The sorted files are numbered 1 to n exactly when no version exceeds n. */
  lemma SortedVersions(entries: seq<Entry>, sorted: seq<Migration>, digest: string -> string)
    requires SortedScan(entries, sorted, digest) && sorted != []
    ensures Contiguous(sorted) <==> Loadable(entries)
    ensures Contiguous(sorted) ==> IsDirectory(sorted, entries, digest)
  {
    if Loadable(entries) {
      LoadableIsContiguous(entries, sorted, digest);
    }
    if Contiguous(sorted) {
      ContiguousIsDirectory(entries, sorted, digest);
    }
  }
}
