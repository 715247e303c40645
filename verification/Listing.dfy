/** Keyset pagination of incidents, newest change first. */
module Listing {
  import opened Basics
  import opened Ordering
  import opened Text
  import opened HazardModel
  import opened Cursor
  import opened Services

  datatype Filter = Filter(regionId: Id, statuses: seq<IncidentStatus>, hazard: Option<HazardType>, minSeverity: int,
                           cursor: string, limit: int)

  datatype Item = Item(id: Id, incident: Incident)

  datatype Page = Page(items: seq<Item>, nextCursor: string, total: nat)

  // ---- the query -----------------------------------------------------------------------------

  predicate Matches(i: Incident, filter: Filter) {
    && (filter.regionId != NO_ID ==> i.regionId == filter.regionId)
    && (filter.hazard.Some? ==> i.hazardType == filter.hazard.value)
    && (filter.minSeverity > 0 ==> i.severity >= filter.minSeverity)
    && (filter.statuses != [] ==> i.status in filter.statuses)
  }

  /** The conditions the query is assembled from. */
  datatype Clause =
    | RegionIs(region: Id)
    | HazardIs(hazard: HazardType)
    | SeverityAtLeast(severity: int)
    | StatusIn(statuses: seq<IncidentStatus>)
  {
    predicate Holds(i: Incident) {
      match this
      case RegionIs(region) => i.regionId == region
      case HazardIs(hazard) => i.hazardType == hazard
      case SeverityAtLeast(severity) => i.severity >= severity
      case StatusIn(statuses) => i.status in statuses
    }
  }

  /** The clauses joined by AND; no clause at all admits every row. */
  predicate AllHold(clauses: seq<Clause>, i: Incident) {
    forall c :: c in clauses ==> c.Holds(i)
  }

  lemma OneMoreClause(clauses: seq<Clause>, c: Clause)
    ensures forall i :: AllHold(clauses + [c], i) <==> AllHold(clauses, i) && c.Holds(i)
  {
    forall i
      ensures AllHold(clauses + [c], i) <==> AllHold(clauses, i) && c.Holds(i)
    {
      assert forall d :: d in clauses + [c] <==> d in clauses || d == c;
    }
  }

  method IncidentWhere(filter: Filter) returns (clauses: seq<Clause>)
    ensures forall i :: AllHold(clauses, i) <==> Matches(i, filter)
  {
    clauses := [];
    if filter.regionId != NO_ID {
      OneMoreClause(clauses, RegionIs(filter.regionId));
      clauses := clauses + [RegionIs(filter.regionId)];
    }
    if filter.hazard.Some? {
      OneMoreClause(clauses, HazardIs(filter.hazard.value));
      clauses := clauses + [HazardIs(filter.hazard.value)];
    }
    if filter.minSeverity > 0 {
      OneMoreClause(clauses, SeverityAtLeast(filter.minSeverity));
      clauses := clauses + [SeverityAtLeast(filter.minSeverity)];
    }
    if |filter.statuses| > 0 {
      OneMoreClause(clauses, StatusIn(filter.statuses));
      clauses := clauses + [StatusIn(filter.statuses)];
    }
  }

  function KeyOf(incidents: map<Id, Incident>, id: Id): Key
    requires id in incidents
  {
    Key(incidents[id].updatedAt, id)
  }

  /** The rows the filter admits, cursor aside. */
  function Matching(incidents: map<Id, Incident>, filter: Filter): set<Key> {
    set id | id in incidents && Matches(incidents[id], filter) :: Key(incidents[id].updatedAt, id)
  }

  lemma MatchingRows(incidents: map<Id, Incident>, filter: Filter, k: Key)
    requires k in Matching(incidents, filter)
    ensures k.id in incidents && KeyOf(incidents, k.id) == k && Matches(incidents[k.id], filter)
  {
  }

  predicate CursorAccepted(cursor: string) {
    cursor == "" || DecodeCursor(cursor).Success?
  }

  /** The matching rows strictly behind the cursor. */
  ghost function Candidates(incidents: map<Id, Incident>, filter: Filter): set<Key>
    requires CursorAccepted(filter.cursor)
  {
    if filter.cursor == "" then Matching(incidents, filter)
    else
      var (at, id) := DecodeCursor(filter.cursor).value;
      Behind(Descending, Matching(incidents, filter), Key(at, id))
  }

  function ItemsOf(incidents: map<Id, Incident>, keys: seq<Key>): (items: seq<Item>)
    requires forall k :: k in keys ==> k.id in incidents
    ensures |items| == |keys|
  {
    seq(|keys|, i requires 0 <= i < |keys| => Item(keys[i].id, incidents[keys[i].id]))
  }

  lemma SortedRowsExist(incidents: map<Id, Incident>, keys: set<Key>)
    requires forall k :: k in keys ==> k.id in incidents
    ensures forall k :: k in Sort(Descending, keys) ==> k.id in incidents
  {
    forall k | k in Sort(Descending, keys)
      ensures k.id in incidents
    {
      SortContents(Descending, keys, k);
    }
  }

  method ScanItems(incidents: map<Id, Incident>, keys: seq<Key>) returns (items: seq<Item>)
    requires forall k :: k in keys ==> k.id in incidents
    ensures items == ItemsOf(incidents, keys)
  {
    items := [];
    for n := 0 to |keys|
      invariant items == ItemsOf(incidents, keys[..n])
    {
      items := items + [Item(keys[n].id, incidents[keys[n].id])];
    }
    assert keys[..|keys|] == keys;
  }

  method ListIncidents(incidents: map<Id, Incident>, filter: Filter) returns (r: Result<Page>)
    requires filter.limit >= 1
    ensures r.Success? <==> CursorAccepted(filter.cursor)
    ensures r.Failure? ==> r.error == InvalidCursor
    ensures r.Success? ==> IsPage(incidents, filter, r.value)
    ensures r.Success? ==> ShowsNewest(incidents, filter, r.value)
  {
    var clauses := IncidentWhere(filter);
    var rows := set id | id in incidents && AllHold(clauses, incidents[id]) :: Key(incidents[id].updatedAt, id);
    assert rows == Matching(incidents, filter);
    var total := |rows|;
    if filter.cursor != "" {
      var position := DecodeCursor(filter.cursor);
      if position.Failure? {
        return Failure(InvalidCursor);
      }
      var last := Key(position.value.0, position.value.1);
      rows := set k | k in rows && Precedes(Descending, last, k);
    }
    ghost var candidates := rows;
    SortedRowsExist(incidents, rows);
    var keys := Select(Descending, rows, filter.limit + 1);
    var items := ScanItems(incidents, keys);
    var page := Page(items, "", total);
    if |items| > filter.limit {
      var last := items[filter.limit - 1];
      page := Page(items[..filter.limit], EncodeCursor(last.incident.updatedAt, last.id), total);
    }
    PageFromRows(incidents, filter, candidates, keys, page);
    PageShowsNewest(incidents, filter, page);
    r := Success(page);
  }

  /** What a page is: the total counts every match, the items are the first rows behind the cursor,
      and the next cursor names the last item exactly when rows remain. */
  ghost predicate IsPage(incidents: map<Id, Incident>, filter: Filter, page: Page)
    requires filter.limit >= 1 && CursorAccepted(filter.cursor)
  {
    var candidates := Candidates(incidents, filter);
    var rest := Sort(Descending, candidates);
    && page.total == |Matching(incidents, filter)|
    && |page.items| == Min(filter.limit, |candidates|)
    && (forall i :: 0 <= i < |page.items| ==> rest[i].id in incidents && page.items[i] == Item(rest[i].id, incidents[rest[i].id]))
    && page.nextCursor == if |candidates| > filter.limit
                          then EncodeCursor(rest[filter.limit - 1].at, rest[filter.limit - 1].id)
                          else ""
  }

  lemma PageFromRows(incidents: map<Id, Incident>, filter: Filter, candidates: set<Key>, keys: seq<Key>, page: Page)
    requires filter.limit >= 1 && CursorAccepted(filter.cursor) && candidates == Candidates(incidents, filter)
    requires keys == Top(Descending, candidates, filter.limit + 1)
    requires forall k :: k in keys ==> k.id in incidents
    requires var items := ItemsOf(incidents, keys);
             page == if |items| > filter.limit
                     then Page(items[..filter.limit],
                               EncodeCursor(items[filter.limit - 1].incident.updatedAt, items[filter.limit - 1].id),
                               |Matching(incidents, filter)|)
                     else Page(items, "", |Matching(incidents, filter)|)
    ensures IsPage(incidents, filter, page)
  {
    var rest := Sort(Descending, candidates);
    forall i | 0 <= i < |page.items|
      ensures rest[i].id in incidents && page.items[i] == Item(rest[i].id, incidents[rest[i].id])
      ensures rest[i] == KeyOf(incidents, rest[i].id)
    {
      SortContents(Descending, candidates, rest[i]);
      MatchingRows(incidents, filter, rest[i]);
    }
  }

  // ---- what a page shows ---------------------------------------------------------------------

  /** Changed later, or at the same time with the id that is larger at the first differing byte. */
  ghost predicate Newer(a: Item, b: Item) {
    a.incident.updatedAt > b.incident.updatedAt || (a.incident.updatedAt == b.incident.updatedAt && SmallerId(b.id, a.id))
  }

  ghost predicate NewestFirst(items: seq<Item>) {
    forall i, j :: 0 <= i < j < |items| ==> Newer(items[i], items[j])
  }

  /** The incident meets every condition the filter states. */
  predicate Wanted(i: Incident, filter: Filter) {
    && (filter.regionId == NO_ID || i.regionId == filter.regionId)
    && (filter.hazard == None || filter.hazard == Some(i.hazardType))
    && (filter.minSeverity <= 0 || i.severity >= filter.minSeverity)
    && (filter.statuses == [] || exists k :: 0 <= k < |filter.statuses| && filter.statuses[k] == i.status)
  }

  /** Changed before the cursor's time, or at that time with an id smaller than the cursor's. */
  ghost predicate AfterCursor(filter: Filter, id: Id, at: Time)
    requires CursorAccepted(filter.cursor)
  {
    if filter.cursor == "" then true
    else
      var (t, last) := DecodeCursor(filter.cursor).value;
      at < t || (at == t && SmallerId(id, last))
  }

  ghost function Eligible(incidents: map<Id, Incident>, filter: Filter): set<Id>
    requires CursorAccepted(filter.cursor)
  {
    set id | id in incidents && Wanted(incidents[id], filter) && AfterCursor(filter, id, incidents[id].updatedAt)
  }

  function WantedIds(incidents: map<Id, Incident>, filter: Filter): set<Id> {
    set id | id in incidents && Wanted(incidents[id], filter)
  }

  /** The eligible incidents newer than one of them. */
  ghost function NewerThan(incidents: map<Id, Incident>, filter: Filter, id: Id): set<Id>
    requires CursorAccepted(filter.cursor) && id in incidents
  {
    set x | x in Eligible(incidents, filter) && x in incidents && Newer(Item(x, incidents[x]), Item(id, incidents[id]))
  }

  predicate Shown(items: seq<Item>, id: Id) {
    exists i :: 0 <= i < |items| && items[i].id == id
  }

  /** A page in terms of the columns: stored rows, newest first; an incident is shown exactly when it is
      eligible and fewer eligible ones are newer than the page holds; the total counts every wanted one,
      and a next cursor is given exactly when not all eligible ones were shown. */
  ghost predicate ShowsNewest(incidents: map<Id, Incident>, filter: Filter, page: Page)
    requires filter.limit >= 1 && CursorAccepted(filter.cursor)
  {
    && NewestFirst(page.items)
    && (forall i :: 0 <= i < |page.items| ==> page.items[i].id in incidents && page.items[i].incident == incidents[page.items[i].id])
    && (forall id :: Shown(page.items, id)
                     <==> id in Eligible(incidents, filter) && id in incidents && |NewerThan(incidents, filter, id)| < filter.limit)
    && page.total == |WantedIds(incidents, filter)|
    && (page.nextCursor != "" <==> |Eligible(incidents, filter)| > filter.limit)
  }

  lemma MatchesWanted(i: Incident, filter: Filter)
    ensures Matches(i, filter) <==> Wanted(i, filter)
  {
  }

  function TimesOf(incidents: map<Id, Incident>): map<Id, Time> {
    map id | id in incidents :: incidents[id].updatedAt
  }

  lemma CandidateIds(incidents: map<Id, Incident>, filter: Filter)
    requires CursorAccepted(filter.cursor)
    ensures forall k :: k in Candidates(incidents, filter) ==> k.id in Eligible(incidents, filter) && k.id in incidents && k == KeyOf(incidents, k.id)
    ensures forall id :: id in Eligible(incidents, filter) ==> id in incidents && KeyOf(incidents, id) in Candidates(incidents, filter)
  {
    forall k | k in Candidates(incidents, filter)
      ensures k.id in Eligible(incidents, filter) && k.id in incidents && k == KeyOf(incidents, k.id)
    {
      MatchesWanted(incidents[k.id], filter);
      if filter.cursor != "" {
        var (at, id) := DecodeCursor(filter.cursor).value;
        PrecedesExactlyWhen(Key(at, id), k);
      }
    }
    forall id | id in Eligible(incidents, filter)
      ensures KeyOf(incidents, id) in Candidates(incidents, filter)
    {
      MatchesWanted(incidents[id], filter);
      assert KeyOf(incidents, id) in Matching(incidents, filter);
      if filter.cursor != "" {
        var (at, last) := DecodeCursor(filter.cursor).value;
        PrecedesExactlyWhen(Key(at, last), KeyOf(incidents, id));
      }
    }
  }

  lemma NewerIsAhead(incidents: map<Id, Incident>, filter: Filter, id: Id)
    requires CursorAccepted(filter.cursor) && id in incidents
    ensures |Ahead(Descending, Candidates(incidents, filter), KeyOf(incidents, id))| == |NewerThan(incidents, filter, id)|
  {
    var keys, ids := Ahead(Descending, Candidates(incidents, filter), KeyOf(incidents, id)), NewerThan(incidents, filter, id);
    CandidateIds(incidents, filter);
    forall k | k in keys
      ensures k.id in ids
    {
      PrecedesExactlyWhen(k, KeyOf(incidents, id));
    }
    forall x | x in ids
      ensures KeyOf(incidents, x) in keys
    {
      PrecedesExactlyWhen(KeyOf(incidents, x), KeyOf(incidents, id));
    }
    SameSize(keys, ids, TimesOf(incidents));
  }

  lemma TotalIsWanted(incidents: map<Id, Incident>, filter: Filter)
    ensures |Matching(incidents, filter)| == |WantedIds(incidents, filter)|
  {
    forall id | id in incidents
      ensures Matches(incidents[id], filter) <==> Wanted(incidents[id], filter)
    {
      MatchesWanted(incidents[id], filter);
    }
    SameSize(Matching(incidents, filter), WantedIds(incidents, filter), TimesOf(incidents));
  }

  /** The items of a page are the rows its keys name. */
  ghost predicate ItemsAre(incidents: map<Id, Incident>, items: seq<Item>, keys: seq<Key>) {
    && |items| == |keys|
    && forall i :: 0 <= i < |keys| ==> keys[i].id in incidents && keys[i] == KeyOf(incidents, keys[i].id)
                                       && items[i] == Item(keys[i].id, incidents[keys[i].id])
  }

  lemma OrderedItems(incidents: map<Id, Incident>, items: seq<Item>, keys: seq<Key>)
    requires ItemsAre(incidents, items, keys) && Ordered(Descending, keys)
    ensures NewestFirst(items)
  {
    forall i, j | 0 <= i < j < |items|
      ensures Newer(items[i], items[j])
    {
      PrecedesExactlyWhen(keys[i], keys[j]);
    }
  }

  lemma PageKeys(incidents: map<Id, Incident>, filter: Filter, page: Page) returns (keys: seq<Key>)
    requires filter.limit >= 1 && CursorAccepted(filter.cursor) && IsPage(incidents, filter, page)
    ensures keys == Top(Descending, Candidates(incidents, filter), filter.limit)
    ensures ItemsAre(incidents, page.items, keys) && Ordered(Descending, keys)
  {
    var candidates := Candidates(incidents, filter);
    keys := Top(Descending, candidates, filter.limit);
    CandidateIds(incidents, filter);
    SortOrdered(Descending, candidates);
    forall i | 0 <= i < |keys|
      ensures keys[i] in candidates
    {
      SortContents(Descending, candidates, keys[i]);
    }
  }

  lemma ShownExactlyWhen(incidents: map<Id, Incident>, filter: Filter, page: Page, keys: seq<Key>, id: Id)
    requires filter.limit >= 1 && CursorAccepted(filter.cursor) && ItemsAre(incidents, page.items, keys)
    requires keys == Top(Descending, Candidates(incidents, filter), filter.limit)
    ensures Shown(page.items, id)
            <==> id in Eligible(incidents, filter) && id in incidents && |NewerThan(incidents, filter, id)| < filter.limit
  {
    CandidateIds(incidents, filter);
    if id in incidents {
      NewerIsAhead(incidents, filter, id);
      TopExactlyWhen(Descending, Candidates(incidents, filter), filter.limit, KeyOf(incidents, id));
      if KeyOf(incidents, id) in keys {
        var i :| 0 <= i < |keys| && keys[i] == KeyOf(incidents, id);
        assert page.items[i].id == id;
      }
    }
    if i :| 0 <= i < |page.items| && page.items[i].id == id {
      assert keys[i] == KeyOf(incidents, id);
    }
  }

  lemma CursorGiven(incidents: map<Id, Incident>, filter: Filter, page: Page)
    requires filter.limit >= 1 && CursorAccepted(filter.cursor) && IsPage(incidents, filter, page)
    ensures page.nextCursor != "" <==> |Eligible(incidents, filter)| > filter.limit
  {
    CandidateIds(incidents, filter);
    SameSize(Candidates(incidents, filter), Eligible(incidents, filter), TimesOf(incidents));
    var rest := Sort(Descending, Candidates(incidents, filter));
    if |rest| > filter.limit {
      CursorRoundTrip(rest[filter.limit - 1].at, rest[filter.limit - 1].id);
    }
  }

  lemma PageShowsNewest(incidents: map<Id, Incident>, filter: Filter, page: Page)
    requires filter.limit >= 1 && CursorAccepted(filter.cursor) && IsPage(incidents, filter, page)
    ensures ShowsNewest(incidents, filter, page)
  {
    var keys := PageKeys(incidents, filter, page);
    OrderedItems(incidents, page.items, keys);
    forall id
      ensures Shown(page.items, id)
              <==> id in Eligible(incidents, filter) && id in incidents && |NewerThan(incidents, filter, id)| < filter.limit
    {
      ShownExactlyWhen(incidents, filter, page, keys, id);
    }
    TotalIsWanted(incidents, filter);
    CursorGiven(incidents, filter, page);
  }

  // ---- walking the pages ---------------------------------------------------------------------

  predicate IdsPresent(incidents: map<Id, Incident>) {
    NO_ID !in incidents
  }

  /** The whole listing: every matching row, newest change first. */
  ghost function Rows(incidents: map<Id, Incident>, filter: Filter): (rows: seq<Key>)
    ensures |rows| == |Matching(incidents, filter)| && AreRows(incidents, rows)
  {
    forall k | k in Sort(Descending, Matching(incidents, filter))
      ensures k.id in incidents && k == KeyOf(incidents, k.id)
    {
      SortContents(Descending, Matching(incidents, filter), k);
      MatchingRows(incidents, filter, k);
    }
    Sort(Descending, Matching(incidents, filter))
  }

  ghost predicate AreRows(incidents: map<Id, Incident>, rows: seq<Key>) {
    forall k :: k in rows ==> k.id in incidents && k == KeyOf(incidents, k.id)
  }

  /** Some rows of a listing from one position on. */
  function Slice(incidents: map<Id, Incident>, rows: seq<Key>, from: nat, count: nat): (items: seq<Item>)
    requires from <= |rows| && AreRows(incidents, rows)
    ensures |items| == Min(count, |rows| - from)
  {
    ItemsOf(incidents, rows[from..][..Min(count, |rows| - from)])
  }

  /** The cursor after the first n rows of a listing. */
  function CursorAt(rows: seq<Key>, n: nat): string
    requires n <= |rows|
  {
    if n == 0 then "" else EncodeCursor(rows[n - 1].at, rows[n - 1].id)
  }

  /** A cursor made from a row picks out exactly the rows after it. */
  lemma CursorSkips(incidents: map<Id, Incident>, filter: Filter, n: nat)
    requires IdsPresent(incidents) && n <= |Rows(incidents, filter)| && filter.cursor == CursorAt(Rows(incidents, filter), n)
    ensures CursorAccepted(filter.cursor)
    ensures Sort(Descending, Candidates(incidents, filter)) == Rows(incidents, filter)[n..]
  {
    if n > 0 {
      var k := Rows(incidents, filter)[n - 1];
      assert k in Rows(incidents, filter);
      CursorRoundTrip(k.at, k.id);
      SortAfter(Descending, Matching(incidents, filter), n - 1);
    }
  }

  /** A page of a listing after its first n rows: the next rows, pointing after them. */
  ghost predicate PageAfter(incidents: map<Id, Incident>, rows: seq<Key>, limit: nat, page: Page, n: nat)
    requires AreRows(incidents, rows)
  {
    && n <= |rows| && page.total == |rows|
    && page.items == Slice(incidents, rows, n, limit)
    && page.nextCursor == if n + limit < |rows| then CursorAt(rows, n + limit) else ""
  }

  lemma PageOfRest(incidents: map<Id, Incident>, rows: seq<Key>, limit: nat, page: Page, n: nat, rest: seq<Key>)
    requires AreRows(incidents, rows) && limit >= 1 && n <= |rows| && rest == rows[n..] && page.total == |rows|
    requires |page.items| == Min(limit, |rest|)
    requires forall i :: 0 <= i < |page.items| ==> rest[i].id in incidents && page.items[i] == Item(rest[i].id, incidents[rest[i].id])
    requires page.nextCursor == if |rest| > limit then EncodeCursor(rest[limit - 1].at, rest[limit - 1].id) else ""
    ensures PageAfter(incidents, rows, limit, page, n)
  {
    var shown := rest[..|page.items|];
    assert forall k :: k in shown ==> k in rest;
    assert forall k :: k in rest ==> k in rows;
    ItemsMatch(incidents, shown, page.items);
    assert shown == rows[n..][..Min(limit, |rows| - n)];
  }

  lemma ItemsMatch(incidents: map<Id, Incident>, keys: seq<Key>, items: seq<Item>)
    requires |items| == |keys| && forall k :: k in keys ==> k.id in incidents
    requires forall i :: 0 <= i < |items| ==> keys[i].id in incidents && items[i] == Item(keys[i].id, incidents[keys[i].id])
    ensures items == ItemsOf(incidents, keys)
  {
  }

  lemma PageIsAfter(incidents: map<Id, Incident>, filter: Filter, n: nat, page: Page)
    requires IdsPresent(incidents) && filter.limit >= 1
    requires n <= |Rows(incidents, filter)| && filter.cursor == CursorAt(Rows(incidents, filter), n)
    requires CursorAccepted(filter.cursor) && IsPage(incidents, filter, page)
    ensures PageAfter(incidents, Rows(incidents, filter), filter.limit, page, n)
  {
    CursorSkips(incidents, filter, n);
    PageOfRest(incidents, Rows(incidents, filter), filter.limit, page, n, Sort(Descending, Candidates(incidents, filter)));
  }

  lemma CursorIgnored(incidents: map<Id, Incident>, filter: Filter, cursor: string)
    ensures Rows(incidents, filter.(cursor := cursor)) == Rows(incidents, filter)
  {
    assert forall i :: Matches(i, filter.(cursor := cursor)) == Matches(i, filter);
    assert Matching(incidents, filter.(cursor := cursor)) == Matching(incidents, filter);
  }

  function CursorBefore(pages: seq<Page>, i: nat): string
    requires i < |pages|
  {
    if i == 0 then "" else pages[i - 1].nextCursor
  }

  /** Page i answers the same query at the next cursor of the page before it. */
  ghost predicate Follows(incidents: map<Id, Incident>, filter: Filter, pages: seq<Page>, i: nat)
    requires filter.limit >= 1 && i < |pages|
  {
    var cursor := CursorBefore(pages, i);
    (i > 0 ==> cursor != "") && CursorAccepted(cursor) && IsPage(incidents, filter.(cursor := cursor), pages[i])
  }

  /** Pages got by following next cursors from the empty one. */
  ghost predicate IsChain(incidents: map<Id, Incident>, filter: Filter, pages: seq<Page>)
    requires filter.limit >= 1
  {
    forall i {:trigger Follows(incidents, filter, pages, i)} :: 0 <= i < |pages| ==> Follows(incidents, filter, pages, i)
  }

  /** The rows shown by the pages before page i. */
  function Offset(i: nat, limit: nat): nat {
    if i == 0 then 0 else Offset(i - 1, limit) + limit
  }

  /** Page i shows the rows from its offset on. */
  ghost predicate InPlace(incidents: map<Id, Incident>, rows: seq<Key>, limit: nat, pages: seq<Page>, i: nat)
    requires AreRows(incidents, rows) && i < |pages|
  {
    (i > 0 ==> Offset(i, limit) < |rows|) && PageAfter(incidents, rows, limit, pages[i], Offset(i, limit))
  }

  lemma FollowingPage(incidents: map<Id, Incident>, filter: Filter, pages: seq<Page>, i: nat)
    requires IdsPresent(incidents) && filter.limit >= 1 && i < |pages| && Follows(incidents, filter, pages, i)
    requires i > 0 ==> InPlace(incidents, Rows(incidents, filter), filter.limit, pages, i - 1)
    ensures InPlace(incidents, Rows(incidents, filter), filter.limit, pages, i)
  {
    var at := filter.(cursor := CursorBefore(pages, i));
    CursorIgnored(incidents, filter, CursorBefore(pages, i));
    PageIsAfter(incidents, at, Offset(i, filter.limit), pages[i]);
  }

  ghost predicate AllInPlace(incidents: map<Id, Incident>, rows: seq<Key>, limit: nat, pages: seq<Page>)
    requires AreRows(incidents, rows)
  {
    forall i {:trigger InPlace(incidents, rows, limit, pages, i)} :: 0 <= i < |pages| ==> InPlace(incidents, rows, limit, pages, i)
  }

  lemma {:induction false} PageInPlace(incidents: map<Id, Incident>, filter: Filter, pages: seq<Page>, i: nat)
    requires IdsPresent(incidents) && filter.limit >= 1 && IsChain(incidents, filter, pages) && i < |pages|
    ensures InPlace(incidents, Rows(incidents, filter), filter.limit, pages, i)
  {
    if i > 0 {
      PageInPlace(incidents, filter, pages, i - 1);
    }
    assert Follows(incidents, filter, pages, i);
    FollowingPage(incidents, filter, pages, i);
  }

  lemma ChainInPlace(incidents: map<Id, Incident>, filter: Filter, pages: seq<Page>)
    requires IdsPresent(incidents) && filter.limit >= 1 && IsChain(incidents, filter, pages)
    ensures AllInPlace(incidents, Rows(incidents, filter), filter.limit, pages)
  {
    forall i | 0 <= i < |pages|
      ensures InPlace(incidents, Rows(incidents, filter), filter.limit, pages, i)
    {
      PageInPlace(incidents, filter, pages, i);
    }
  }

  function Concat(pages: seq<Page>): seq<Item> {
    if pages == [] then [] else Concat(pages[..|pages| - 1]) + pages[|pages| - 1].items
  }

  lemma SliceAppend(incidents: map<Id, Incident>, rows: seq<Key>, from: nat, limit: nat)
    requires from <= |rows| && AreRows(incidents, rows)
    ensures Slice(incidents, rows, 0, from) + Slice(incidents, rows, from, limit) == Slice(incidents, rows, 0, from + limit)
  {
  }

  lemma {:induction false} PagesCover(incidents: map<Id, Incident>, rows: seq<Key>, limit: nat, pages: seq<Page>, m: nat)
    requires AreRows(incidents, rows) && AllInPlace(incidents, rows, limit, pages) && m <= |pages|
    ensures Concat(pages[..m]) == Slice(incidents, rows, 0, Offset(m, limit))
  {
    if m == 0 {
      assert pages[..0] == [];
    } else {
      PagesCover(incidents, rows, limit, pages, m - 1);
      assert pages[..m][..m - 1] == pages[..m - 1];
      assert InPlace(incidents, rows, limit, pages, m - 1);
      SliceAppend(incidents, rows, Offset(m - 1, limit), limit);
    }
  }

  // ---- counting pages ------------------------------------------------------------------------

  /** max(1, ceil(n / limit)). */
  function PageCount(n: nat, limit: nat): nat
    requires limit >= 1
  {
    if n == 0 then 1 else (n + limit - 1) / limit
  }

  lemma {:induction false} OffsetValue(i: nat, limit: nat)
    ensures Offset(i, limit) == i * limit
  {
    if i > 0 {
      OffsetValue(i - 1, limit);
    }
  }

  lemma {:induction false} OffsetGrows(i: nat, j: nat, limit: nat)
    requires i <= j
    ensures Offset(i, limit) <= Offset(j, limit)
  {
    if i < j {
      OffsetGrows(i, j - 1, limit);
    }
  }

  lemma LastPage(n: nat, limit: nat)
    requires limit >= 1
    ensures var c := PageCount(n, limit); c >= 1 && Offset(c, limit) >= n && (c == 1 || Offset(c - 1, limit) < n)
  {
    var c := PageCount(n, limit);
    if n > 0 {
      var x := n + limit - 1;
      assert x == limit * (x / limit) + x % limit;
      assert c >= 1;
      OffsetValue(c, limit);
    }
  }

  /** A page that exists is one of the first PageCount; it is the last exactly when no row is left. */
  lemma PageCountIs(n: nat, limit: nat, m: nat)
    requires limit >= 1 && m >= 1 && (m == 1 || Offset(m - 1, limit) < n)
    ensures m <= PageCount(n, limit)
    ensures Offset(m, limit) >= n <==> m == PageCount(n, limit)
  {
    var c := PageCount(n, limit);
    LastPage(n, limit);
    if m > c {
      OffsetGrows(c, m - 1, limit);
    }
    if m < c {
      OffsetGrows(m, c - 1, limit);
    }
  }

  /** The last of some pages has no next cursor exactly when no row is left. */
  lemma NextCursorMissing(incidents: map<Id, Incident>, rows: seq<Key>, limit: nat, pages: seq<Page>, i: nat)
    requires limit >= 1 && AreRows(incidents, rows) && i < |pages| && InPlace(incidents, rows, limit, pages, i)
    ensures pages[i].nextCursor == "" <==> Offset(i + 1, limit) >= |rows|
  {
    var next := Offset(i, limit) + limit;
    if next < |rows| {
      CursorRoundTrip(rows[next - 1].at, rows[next - 1].id);
    }
  }

  lemma PagesEnd(incidents: map<Id, Incident>, rows: seq<Key>, limit: nat, pages: seq<Page>)
    requires limit >= 1 && pages != [] && AreRows(incidents, rows) && AllInPlace(incidents, rows, limit, pages)
    ensures |pages| <= PageCount(|rows|, limit)
    ensures pages[|pages| - 1].nextCursor == "" <==> |pages| == PageCount(|rows|, limit)
    ensures forall i :: 0 <= i < |pages| ==> pages[i].total == |rows|
  {
    var m := |pages|;
    assert InPlace(incidents, rows, limit, pages, m - 1);
    NextCursorMissing(incidents, rows, limit, pages, m - 1);
    PageCountIs(|rows|, limit, m);
    forall i | 0 <= i < m
      ensures pages[i].total == |rows|
    {
      assert InPlace(incidents, rows, limit, pages, i);
    }
  }

  /** Following next cursors never takes more than max(1, ceil(n / limit)) pages, and the cursor runs
      out exactly at that page; every page's total is n. */
  lemma WalkEnds(incidents: map<Id, Incident>, filter: Filter, pages: seq<Page>)
    requires IdsPresent(incidents) && filter.limit >= 1 && IsChain(incidents, filter, pages) && pages != []
    ensures var n := |Matching(incidents, filter)|;
            && |pages| <= PageCount(n, filter.limit)
            && (pages[|pages| - 1].nextCursor == "" <==> |pages| == PageCount(n, filter.limit))
            && forall i :: 0 <= i < |pages| ==> pages[i].total == n
  {
    ChainInPlace(incidents, filter, pages);
    PagesEnd(incidents, Rows(incidents, filter), filter.limit, pages);
  }

  lemma CursorContinues(incidents: map<Id, Incident>, rows: seq<Key>, limit: nat, pages: seq<Page>)
    requires IdsPresent(incidents) && limit >= 1 && pages != [] && AreRows(incidents, rows) && AllInPlace(incidents, rows, limit, pages)
    ensures CursorAccepted(pages[|pages| - 1].nextCursor)
  {
    var m := |pages|;
    assert InPlace(incidents, rows, limit, pages, m - 1);
    if Offset(m, limit) < |rows| {
      var k := rows[Offset(m, limit) - 1];
      assert k in rows;
      CursorRoundTrip(k.at, k.id);
    }
  }

  /** A next cursor that a page returned is never refused. */
  lemma WalkContinues(incidents: map<Id, Incident>, filter: Filter, pages: seq<Page>)
    requires IdsPresent(incidents) && filter.limit >= 1 && IsChain(incidents, filter, pages) && pages != []
    ensures CursorAccepted(pages[|pages| - 1].nextCursor)
  {
    ChainInPlace(incidents, filter, pages);
    CursorContinues(incidents, Rows(incidents, filter), filter.limit, pages);
  }

  lemma PagesComplete(incidents: map<Id, Incident>, rows: seq<Key>, limit: nat, pages: seq<Page>)
    requires limit >= 1 && AreRows(incidents, rows) && AllInPlace(incidents, rows, limit, pages)
    requires pages != [] && pages[|pages| - 1].nextCursor == ""
    ensures |Concat(pages)| == |rows|
    ensures forall i :: 0 <= i < |rows| ==> rows[i].id in incidents && Concat(pages)[i] == Item(rows[i].id, incidents[rows[i].id])
  {
    var m := |pages|;
    assert InPlace(incidents, rows, limit, pages, m - 1);
    NextCursorMissing(incidents, rows, limit, pages, m - 1);
    PagesCover(incidents, rows, limit, pages, m);
    assert pages[..m] == pages;
    forall i | 0 <= i < |rows|
      ensures rows[i].id in incidents
    {
      assert rows[i] in rows;
    }
  }

  /** A finished walk shows every matching incident, newest change first. */
  lemma WalkIsComplete(incidents: map<Id, Incident>, filter: Filter, pages: seq<Page>)
    requires IdsPresent(incidents) && filter.limit >= 1 && IsChain(incidents, filter, pages)
    requires pages != [] && pages[|pages| - 1].nextCursor == ""
    ensures var rows := Sort(Descending, Matching(incidents, filter));
            && |Concat(pages)| == |rows|
            && forall i :: 0 <= i < |rows| ==> rows[i].id in incidents && Concat(pages)[i] == Item(rows[i].id, incidents[rows[i].id])
  {
    ChainInPlace(incidents, filter, pages);
    PagesComplete(incidents, Rows(incidents, filter), filter.limit, pages);
  }

  predicate DistinctIds(rows: seq<Key>) {
    forall i, j :: 0 <= i < j < |rows| ==> rows[i].id != rows[j].id
  }

  lemma RowsAreDistinct(incidents: map<Id, Incident>, filter: Filter)
    ensures DistinctIds(Rows(incidents, filter))
  {
    var rows := Rows(incidents, filter);
    SortOrdered(Descending, Matching(incidents, filter));
    forall i, j | 0 <= i < j < |rows|
      ensures rows[i].id != rows[j].id
    {
      assert rows[i] in rows && rows[j] in rows;
      PrecedesIrreflexive(Descending, rows[i]);
    }
  }

  lemma ShownOnce(incidents: map<Id, Incident>, rows: seq<Key>, limit: nat, pages: seq<Page>, id: Id) returns (i: nat)
    requires limit >= 1 && AreRows(incidents, rows) && AllInPlace(incidents, rows, limit, pages) && DistinctIds(rows)
    requires pages != [] && pages[|pages| - 1].nextCursor == ""
    requires id in incidents && KeyOf(incidents, id) in rows
    ensures i < |Concat(pages)| && Concat(pages)[i] == Item(id, incidents[id])
    ensures forall j :: 0 <= j < |Concat(pages)| && j != i ==> Concat(pages)[j].id != id
  {
    PagesComplete(incidents, rows, limit, pages);
    i :| 0 <= i < |rows| && rows[i] == KeyOf(incidents, id);
  }

  /** Each matching incident is shown at exactly one place of a finished walk. */
  lemma EachShownOnce(incidents: map<Id, Incident>, filter: Filter, pages: seq<Page>, id: Id) returns (i: nat)
    requires IdsPresent(incidents) && filter.limit >= 1 && IsChain(incidents, filter, pages)
    requires pages != [] && pages[|pages| - 1].nextCursor == ""
    requires id in incidents && Matches(incidents[id], filter)
    ensures i < |Concat(pages)| && Concat(pages)[i] == Item(id, incidents[id])
    ensures forall j :: 0 <= j < |Concat(pages)| && j != i ==> Concat(pages)[j].id != id
  {
    ChainInPlace(incidents, filter, pages);
    RowsAreDistinct(incidents, filter);
    SortContents(Descending, Matching(incidents, filter), KeyOf(incidents, id));
    i := ShownOnce(incidents, Rows(incidents, filter), filter.limit, pages, id);
  }

  lemma SliceOrdered(incidents: map<Id, Incident>, rows: seq<Key>, n: nat)
    requires AreRows(incidents, rows) && Ordered(Descending, rows)
    ensures NewestFirst(Slice(incidents, rows, 0, n))
  {
    var keys := rows[0..][..Min(n, |rows|)];
    forall i | 0 <= i < |keys|
      ensures keys[i] == rows[i]
    {
    }
    assert forall k :: k in keys ==> k in rows;
    OrderedItems(incidents, Slice(incidents, rows, 0, n), keys);
  }

  lemma ShownSome(incidents: map<Id, Incident>, filter: Filter, pages: seq<Page>)
    requires IdsPresent(incidents) && filter.limit >= 1 && IsChain(incidents, filter, pages)
    ensures Concat(pages) == Slice(incidents, Rows(incidents, filter), 0, Offset(|pages|, filter.limit))
  {
    ChainInPlace(incidents, filter, pages);
    PagesCover(incidents, Rows(incidents, filter), filter.limit, pages, |pages|);
    assert pages[..|pages|] == pages;
  }

  /** However far a walk has come, what it has shown runs from the newest change to the oldest, across
      all page borders. */
  lemma WalkIsNewestFirst(incidents: map<Id, Incident>, filter: Filter, pages: seq<Page>)
    requires IdsPresent(incidents) && filter.limit >= 1 && IsChain(incidents, filter, pages)
    ensures NewestFirst(Concat(pages))
  {
    ShownSome(incidents, filter, pages);
    SortOrdered(Descending, Matching(incidents, filter));
    SliceOrdered(incidents, Rows(incidents, filter), Offset(|pages|, filter.limit));
  }

  /** A finished walk shows exactly the incidents the filter's conditions hold of. */
  lemma WalkShowsWanted(incidents: map<Id, Incident>, filter: Filter, pages: seq<Page>, id: Id)
    requires IdsPresent(incidents) && filter.limit >= 1 && IsChain(incidents, filter, pages)
    requires pages != [] && pages[|pages| - 1].nextCursor == ""
    ensures Shown(Concat(pages), id) <==> id in incidents && Wanted(incidents[id], filter)
  {
    WalkIsComplete(incidents, filter, pages);
    var rows := Sort(Descending, Matching(incidents, filter));
    if id in incidents {
      MatchesWanted(incidents[id], filter);
      SortContents(Descending, Matching(incidents, filter), KeyOf(incidents, id));
      if Wanted(incidents[id], filter) {
        var i :| 0 <= i < |rows| && rows[i] == KeyOf(incidents, id);
        assert Concat(pages)[i].id == id;
      }
    }
    if i :| 0 <= i < |Concat(pages)| && Concat(pages)[i].id == id {
      SortContents(Descending, Matching(incidents, filter), rows[i]);
      MatchingRows(incidents, filter, rows[i]);
    }
  }

  // ---- the service ---------------------------------------------------------------------------

  /** A listing is accepted with a limit of 1 to 100, or none for 25, in the region of a regional actor,
      and asks for that region alone then. */
  lemma ReadListExactlyWhen(actor: Actor, filter: Filter)
    ensures ReadList(actor, filter).Success? <==>
              && actor.userId != NO_ID && 0 <= filter.limit <= 100
              && (actor.regionId == NO_ID || filter.regionId == NO_ID || filter.regionId == actor.regionId)
    ensures ReadList(actor, filter).Success? ==>
              ReadList(actor, filter).value
              == filter.(limit := if filter.limit == 0 then 25 else filter.limit,
                         regionId := if actor.regionId == NO_ID then filter.regionId else actor.regionId)
  {
    assert actor.role.Commander? || actor.role.FieldOperator? || actor.role.Auditor?;
  }

  /** The filter the service passes on: the default limit, its bounds, and the actor's own region. */
  function ReadList(actor: Actor, filter: Filter): (r: Result<Filter>)
    ensures r.Success? ==> 1 <= r.value.limit <= 100 && !actor.Outside(r.value.regionId)
    ensures r.Success? && actor.regionId != NO_ID ==> r.value.regionId == actor.regionId
  {
    var limit := if filter.limit == 0 then 25 else filter.limit;
    if !actor.Has({Commander, FieldOperator, Auditor}) then Failure(RoleForbidden)
    else if limit < 1 || limit > 100 then Failure(InvalidLimit)
    else if actor.regionId == NO_ID then Success(filter.(limit := limit))
    else if filter.regionId != NO_ID && filter.regionId != actor.regionId then Failure(CrossRegionForbidden)
    else Success(filter.(limit := limit, regionId := actor.regionId))
  }
}
