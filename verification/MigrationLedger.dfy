/** Applying migrations: a ledger of what was applied, and runs that may stop anywhere. */
module MigrationLedger {
  import opened Basics
  import opened MigrationFiles

  datatype Record = Record(name: string, checksum: string)

  type Ledger = map<int, Record>

  /** A database: its schema, of whatever kind, and the migration ledger. */
  datatype Target<S> = Target(schema: S, ledger: Ledger)

  /** What may end the transaction of one migration besides its own SQL. */
  datatype Fault = NoFault | BeginFails | RecordFails | CommitFails

  datatype ApplyError = LedgerUnreadable | UnknownVersion | Conflict | Stopped

  datatype Outcome = Done | Failed(error: ApplyError)

  /** Running SQL on a schema: a new schema, or an error that leaves the old one. */
  type Exec<!S> = (S, string) -> Option<S>

  function RecordOf(m: Migration): Record {
    Record(m.name, m.checksum)
  }

  // ---- what one run does ---------------------------------------------------------------------

  function KnownVersions(list: seq<Migration>): (known: Ledger)
    ensures forall v :: v in known <==> VersionTaken(list, v)
  {
    if list == [] then map[]
    else
      var n := |list| - 1;
      assert forall m :: m in list <==> m in list[..n] || m == list[n];
      KnownVersions(list[..n])[list[n].version := RecordOf(list[n])]
  }

  /** The check against the applied history. */
  predicate Compatible(ledger: Ledger, list: seq<Migration>) {
    forall v :: v in ledger ==> v in KnownVersions(list) && KnownVersions(list)[v] == ledger[v]
  }

  function AfterOne<S>(exec: Exec<S>, t: Target<S>, m: Migration, fault: Fault): Option<Target<S>> {
    if fault != NoFault || m.version in t.ledger then None
    else
      match exec(t.schema, m.sql)
      case None => None
      case Some(schema) => Some(Target(schema, t.ledger[m.version := RecordOf(m)]))
  }

  datatype Progress<S> = Progress(target: Target<S>, going: bool)

  /** One turn of the loop: migrations applied at the start are skipped, the first failure ends it. */
  function AfterNext<S>(exec: Exec<S>, start: Ledger, p: Progress<S>, m: Migration, fault: Fault): Progress<S> {
    if !p.going || m.version in start then p
    else
      match AfterOne(exec, p.target, m, fault)
      case None => Progress(p.target, false)
      case Some(after) => Progress(after, true)
  }

  function AfterList<S>(exec: Exec<S>, t: Target<S>, list: seq<Migration>, faults: nat -> Fault): Progress<S> {
    if list == [] then Progress(t, true)
    else
      var n := |list| - 1;
      AfterNext(exec, t.ledger, AfterList(exec, t, list[..n], faults), list[n], faults(n))
  }

  lemma ListGrows<S>(exec: Exec<S>, t: Target<S>, list: seq<Migration>, faults: nat -> Fault, k: nat)
    requires k < |list|
    ensures AfterList(exec, t, list[..k + 1], faults)
            == AfterNext(exec, t.ledger, AfterList(exec, t, list[..k], faults), list[k], faults(k))
  {
    assert list[..k + 1][..k] == list[..k];
  }

  lemma {:induction false} StoppedForGood<S>(exec: Exec<S>, t: Target<S>, list: seq<Migration>, faults: nat -> Fault, k: nat)
    requires k <= |list| && !AfterList(exec, t, list[..k], faults).going
    ensures AfterList(exec, t, list, faults) == AfterList(exec, t, list[..k], faults)
    decreases |list|
  {
    if k == |list| {
      assert list[..k] == list;
    } else {
      var n := |list| - 1;
      assert list[..n][..k] == list[..k];
      StoppedForGood(exec, t, list[..n], faults, k);
    }
  }

  lemma SomeMember<T>(s: set<T>) returns (v: T)
    requires s != {}
    ensures v in s
  {
    v :| v in s;
  }

  class Database<S> {
    var schema: S
    var ledger: Ledger
    const exec: Exec<S>

    constructor (exec: Exec<S>, schema: S)
      ensures this.exec == exec && View() == Target(schema, map[])
    {
      this.exec, this.schema, ledger := exec, schema, map[];
    }

    function View(): Target<S>
      reads this
    {
      Target(schema, ledger)
    }

    /** One migration and its ledger row commit together or not at all. */
    method ApplyOne(m: Migration, fault: Fault) returns (ok: bool)
      modifies this
      ensures ok == AfterOne(exec, old(View()), m, fault).Some?
      ensures ok ==> View() == AfterOne(exec, old(View()), m, fault).value
      ensures !ok ==> View() == old(View())
    {
      if fault == BeginFails {
        return false;
      }
      var schemaBefore, ledgerBefore := schema, ledger;
      var result := exec(schema, m.sql);
      if result.None? {
        return false;
      }
      schema := result.value;
      if fault == RecordFails || m.version in ledger {
        schema := schemaBefore;
        return false;
      }
      ledger := ledger[m.version := RecordOf(m)];
      if fault == CommitFails {
        schema, ledger := schemaBefore, ledgerBefore;
        return false;
      }
      ok := true;
    }

    method Known(list: seq<Migration>) returns (known: Ledger)
      ensures known == KnownVersions(list)
    {
      known := map[];
      for i := 0 to |list|
        invariant known == KnownVersions(list[..i])
      {
        known := known[list[i].version := RecordOf(list[i])];
        assert list[..i + 1][..i] == list[..i];
      }
      assert list[..|list|] == list;
    }

    /** The history check visits the ledger rows in any order. */
    method Check(known: Ledger) returns (r: Outcome)
      ensures r == Done <==> forall v :: v in ledger ==> v in known && known[v] == ledger[v]
      ensures r == Done || r == Failed(UnknownVersion) || r == Failed(Conflict)
    {
      var rest: set<int> := ledger.Keys;
      while rest != {}
        invariant rest <= ledger.Keys
        invariant forall v :: v in ledger && v !in rest ==> v in known && known[v] == ledger[v]
        decreases rest
      {
        ghost var some := SomeMember(rest);
        var v :| v in rest;
        if v !in known {
          return Failed(UnknownVersion);
        }
        if ledger[v] != known[v] {
          return Failed(Conflict);
        }
        rest := rest - {v};
      }
      r := Done;
    }

    method Apply(list: seq<Migration>, readable: bool, faults: nat -> Fault) returns (r: Outcome)
      modifies this
      ensures View() == AfterApply(exec, old(View()), Run(list, readable, faults)).target
      ensures r == Done <==> AfterApply(exec, old(View()), Run(list, readable, faults)).going
    {
      if !readable {
        return Failed(LedgerUnreadable);
      }
      var applied := ledger;
      var known := Known(list);
      r := Check(known);
      if r != Done {
        return;
      }
      ghost var before := View();
      for i := 0 to |list|
        invariant AfterList(exec, before, list[..i], faults) == Progress(View(), true)
      {
        assert list[..i + 1][..i] == list[..i];
        if list[i].version in applied {
          continue;
        }
        var ok := ApplyOne(list[i], faults(i));
        if !ok {
          StoppedForGood(exec, before, list, faults, i + 1);
          return Failed(Stopped);
        }
      }
      assert list[..|list|] == list;
      r := Done;
    }
  }

  datatype Run = Run(list: seq<Migration>, readable: bool, faults: nat -> Fault)

  function AfterApply<S>(exec: Exec<S>, t: Target<S>, run: Run): Progress<S> {
    if !run.readable || !Compatible(t.ledger, run.list) then Progress(t, false)
    else AfterList(exec, t, run.list, run.faults)
  }

  // ---- histories -----------------------------------------------------------------------------

  /** The ledger of a history 1..k. */
  function LedgerOf(history: seq<Migration>): (ledger: Ledger)
    ensures forall v :: v in ledger <==> 1 <= v <= |history|
    ensures forall v :: v in ledger ==> ledger[v] == RecordOf(history[v - 1])
  {
    if history == [] then map[]
    else LedgerOf(history[..|history| - 1])[|history| := RecordOf(history[|history| - 1])]
  }

  /** Folding the migrations of a history, in order, into a schema. */
  function Fold<S>(exec: Exec<S>, base: S, history: seq<Migration>): Option<S> {
    if history == [] then Some(base)
    else
      match Fold(exec, base, history[..|history| - 1])
      case None => None
      case Some(schema) => exec(schema, history[|history| - 1].sql)
  }

  /** The ledger is the history 1..k and the schema is the base with exactly those migrations applied. */
  predicate At<S(==)>(exec: Exec<S>, base: S, t: Target<S>, history: seq<Migration>) {
    Contiguous(history) && t.ledger == LedgerOf(history) && Fold(exec, base, history) == Some(t.schema)
  }

  /** Equal checksums mean equal SQL. */
  predicate NoCollision(a: seq<Migration>, b: seq<Migration>) {
    forall m, n :: m in a && n in b && m.checksum == n.checksum ==> m.sql == n.sql
  }

  lemma {:induction false} KnownAt(list: seq<Migration>, i: nat)
    requires Contiguous(list) && i < |list|
    ensures i + 1 in KnownVersions(list) && KnownVersions(list)[i + 1] == RecordOf(list[i])
    ensures forall v :: v in KnownVersions(list) ==> 1 <= v <= |list|
    decreases |list|
  {
    var n := |list| - 1;
    if i < n {
      KnownAt(list[..n], i);
    }
    forall v | v in KnownVersions(list)
      ensures 1 <= v <= |list|
    {
      var m :| m in list && m.version == v;
    }
  }

  lemma ExtendsWhenCompatible(history: seq<Migration>, list: seq<Migration>)
    requires Contiguous(history) && Contiguous(list) && NoCollision(history, list) && Compatible(LedgerOf(history), list)
    ensures history <= list
  {
    forall i | 0 <= i < |history|
      ensures i < |list| && history[i] == list[i]
    {
      assert i + 1 in LedgerOf(history) && VersionTaken(list, i + 1);
      var m :| m in list && m.version == i + 1;
      KnownAt(list, i);
      assert history[i] in history && list[i] in list;
    }
  }

  lemma CompatibleWhenExtends(history: seq<Migration>, list: seq<Migration>)
    requires Contiguous(list) && history <= list
    ensures Compatible(LedgerOf(history), list)
  {
    forall v | v in LedgerOf(history)
      ensures v in KnownVersions(list) && KnownVersions(list)[v] == LedgerOf(history)[v]
    {
      KnownAt(list, v - 1);
      assert history[v - 1] == list[v - 1];
    }
  }

  /** A list passes the history check exactly when it extends the applied history. */
  lemma CompatibleMeansExtends(history: seq<Migration>, list: seq<Migration>)
    requires Contiguous(history) && Contiguous(list) && NoCollision(history, list)
    ensures Compatible(LedgerOf(history), list) <==> history <= list
  {
    if Compatible(LedgerOf(history), list) {
      ExtendsWhenCompatible(history, list);
    }
    if history <= list {
      CompatibleWhenExtends(history, list);
    }
  }

  lemma LedgerGrows(list: seq<Migration>, k: nat)
    requires k < |list|
    ensures LedgerOf(list[..k + 1]) == LedgerOf(list[..k])[k + 1 := RecordOf(list[k])]
  {
    assert list[..k + 1][..k] == list[..k];
  }

  lemma FoldGrows<S>(exec: Exec<S>, base: S, list: seq<Migration>, k: nat)
    requires k < |list|
    ensures Fold(exec, base, list[..k + 1]) == match Fold(exec, base, list[..k]) case None => None case Some(s) => exec(s, list[k].sql)
  {
    assert list[..k + 1][..k] == list[..k];
  }

  lemma OneMore<S>(exec: Exec<S>, base: S, t: Target<S>, list: seq<Migration>, k: nat, fault: Fault)
    requires Contiguous(list) && k < |list| && At(exec, base, t, list[..k])
    ensures var after := AfterOne(exec, t, list[k], fault); after.Some? ==> At(exec, base, after.value, list[..k + 1])
  {
    LedgerGrows(list, k);
    FoldGrows(exec, base, list, k);
  }

  /** After the first k migrations of a list, the database is at the first j: all k of them, or
      fewer when the run stopped, but never fewer than the history it began with. */
  predicate MovedTo<S(==)>(exec: Exec<S>, base: S, p: Progress<S>, start: nat, list: seq<Migration>, k: nat, j: nat) {
    && start <= j <= |list| && (j <= k || j == start)
    && At(exec, base, p.target, list[..j]) && (p.going <==> j >= k)
  }

  lemma MoveOne<S>(exec: Exec<S>, base: S, p: Progress<S>, start: nat, list: seq<Migration>, fault: Fault, k: nat, before: nat)
    returns (j: nat)
    requires Contiguous(list) && k < |list| && start <= |list| && MovedTo(exec, base, p, start, list, k, before)
    ensures MovedTo(exec, base, AfterNext(exec, LedgerOf(list[..start]), p, list[k], fault), start, list, k + 1, j)
  {
    assert list[k].version in LedgerOf(list[..start]) <==> k < start;
    j := before;
    if p.going && k >= start {
      OneMore(exec, base, p.target, list, k, fault);
      if AfterOne(exec, p.target, list[k], fault).Some? {
        j := k + 1;
      }
    }
  }

  lemma MoveNone<S>(exec: Exec<S>, base: S, t: Target<S>, start: nat, list: seq<Migration>, faults: nat -> Fault)
    requires start <= |list| && At(exec, base, t, list[..start])
    ensures MovedTo(exec, base, AfterList(exec, t, list[..0], faults), start, list, 0, start)
  {
    assert list[..0] == [];
  }

  lemma MoveNext<S>(exec: Exec<S>, base: S, t: Target<S>, start: nat, list: seq<Migration>, faults: nat -> Fault, k: nat, before: nat)
    returns (j: nat)
    requires Contiguous(list) && k < |list| && start <= |list| && t.ledger == LedgerOf(list[..start])
    requires MovedTo(exec, base, AfterList(exec, t, list[..k], faults), start, list, k, before)
    ensures MovedTo(exec, base, AfterList(exec, t, list[..k + 1], faults), start, list, k + 1, j)
  {
    ListGrows(exec, t, list, faults, k);
    j := MoveOne(exec, base, AfterList(exec, t, list[..k], faults), start, list, faults(k), k, before);
  }

  /** A run whose list extends the history ends at a prefix no shorter than the history, and at the
      whole list exactly when it succeeds. */
  lemma {:induction false} ListMovesAlong<S>(exec: Exec<S>, base: S, t: Target<S>, start: nat, list: seq<Migration>,
                                             faults: nat -> Fault, k: nat) returns (j: nat)
    requires Contiguous(list) && start <= |list| && k <= |list| && At(exec, base, t, list[..start])
    ensures MovedTo(exec, base, AfterList(exec, t, list[..k], faults), start, list, k, j)
  {
    if k == 0 {
      MoveNone(exec, base, t, start, list, faults);
      j := start;
    } else {
      var before := ListMovesAlong(exec, base, t, start, list, faults, k - 1);
      j := MoveNext(exec, base, t, start, list, faults, k - 1, before);
    }
  }

  /** One run, stopped anywhere or not: either the list does not extend the history, or the ledger
      could not be read, and nothing changes; or the history grows along the list, to all of it
      exactly when the run succeeds. */
  lemma RunKeepsHistory<S>(exec: Exec<S>, base: S, t: Target<S>, history: seq<Migration>, run: Run) returns (after: seq<Migration>)
    requires At(exec, base, t, history) && Contiguous(run.list) && NoCollision(history, run.list)
    ensures At(exec, base, AfterApply(exec, t, run).target, after) && history <= after
    ensures if run.readable && history <= run.list then after <= run.list else after == history
    ensures AfterApply(exec, t, run).going <==> run.readable && after == run.list
  {
    CompatibleMeansExtends(history, run.list);
    after := history;
    if run.readable && history <= run.list {
      assert run.list[..|history|] == history;
      var j := ListMovesAlong(exec, base, t, |history|, run.list, run.faults, |run.list|);
      assert run.list[..|run.list|] == run.list;
      after := run.list[..j];
    } else if run.readable {
      assert history != run.list;
    }
  }

  function Max(a: nat, b: nat): nat {
    if a >= b then a else b
  }

  /** Nothing stops migration i: its transaction meets no fault and its SQL runs after those before it. */
  predicate Unhindered<S(==)>(exec: Exec<S>, base: S, list: seq<Migration>, faults: nat -> Fault, i: nat)
    requires i < |list|
  {
    faults(i) == NoFault && Fold(exec, base, list[..i + 1]).Some?
  }

  /** The first k migrations of a list were gone through exactly when nothing stopped those to come. */
  ghost predicate GoesOn<S>(exec: Exec<S>, base: S, start: nat, list: seq<Migration>, faults: nat -> Fault, k: nat, p: Progress<S>)
    requires start <= |list| && k <= |list|
  {
    && (p.going <==> forall i :: start <= i < k ==> Unhindered(exec, base, list, faults, i))
    && (p.going ==> At(exec, base, p.target, list[..Max(k, start)]))
  }

  lemma NextGoes<S>(exec: Exec<S>, base: S, list: seq<Migration>, faults: nat -> Fault, t: Target<S>, k: nat)
    requires Contiguous(list) && k < |list| && At(exec, base, t, list[..k])
    ensures AfterOne(exec, t, list[k], faults(k)).Some? <==> Unhindered(exec, base, list, faults, k)
  {
    FoldGrows(exec, base, list, k);
  }

  lemma GoesOneFurther<S>(exec: Exec<S>, base: S, start: nat, list: seq<Migration>, faults: nat -> Fault, p: Progress<S>, k: nat)
    requires Contiguous(list) && start <= |list| && k < |list| && GoesOn(exec, base, start, list, faults, k, p)
    ensures GoesOn(exec, base, start, list, faults, k + 1, AfterNext(exec, LedgerOf(list[..start]), p, list[k], faults(k)))
  {
    assert list[k].version in LedgerOf(list[..start]) <==> k < start;
    if p.going && k >= start {
      NextGoes(exec, base, list, faults, p.target, k);
      OneMore(exec, base, p.target, list, k, faults(k));
    }
    if start <= k {
      assert (forall i :: start <= i < k + 1 ==> Unhindered(exec, base, list, faults, i))
             <==> (forall i :: start <= i < k ==> Unhindered(exec, base, list, faults, i)) && Unhindered(exec, base, list, faults, k);
    }
  }

  lemma {:induction false} GoesOnExactlyWhile<S>(exec: Exec<S>, base: S, t: Target<S>, start: nat, list: seq<Migration>,
                                                 faults: nat -> Fault, k: nat)
    requires Contiguous(list) && start <= |list| && k <= |list| && At(exec, base, t, list[..start])
    ensures GoesOn(exec, base, start, list, faults, k, AfterList(exec, t, list[..k], faults))
  {
    if k == 0 {
      assert list[..0] == [];
    } else {
      GoesOnExactlyWhile(exec, base, t, start, list, faults, k - 1);
      ListGrows(exec, t, list, faults, k - 1);
      GoesOneFurther(exec, base, start, list, faults, AfterList(exec, t, list[..k - 1], faults), k - 1);
    }
  }

  /** A run succeeds exactly when the ledger can be read, the list extends the applied history, and
      nothing stops any of the migrations still to come. */
  lemma RunSucceedsExactlyWhen<S>(exec: Exec<S>, base: S, t: Target<S>, history: seq<Migration>, run: Run)
    requires At(exec, base, t, history) && Contiguous(run.list) && NoCollision(history, run.list)
    ensures AfterApply(exec, t, run).going
            <==> run.readable && history <= run.list
                 && forall i :: |history| <= i < |run.list| ==> Unhindered(exec, base, run.list, run.faults, i)
  {
    CompatibleMeansExtends(history, run.list);
    if history <= run.list {
      assert run.list[..|history|] == history && run.list[..|run.list|] == run.list;
      GoesOnExactlyWhile(exec, base, t, |history|, run.list, run.faults, |run.list|);
    }
  }

  // ---- sequences of runs ---------------------------------------------------------------------

  function AfterRuns<S>(exec: Exec<S>, t: Target<S>, runs: seq<Run>): Target<S> {
    if runs == [] then t
    else AfterApply(exec, AfterRuns(exec, t, runs[..|runs| - 1]), runs[|runs| - 1]).target
  }

  /** Every list is one that Load accepts, and no two files of different SQL share a checksum. */
  ghost predicate LoadedRuns(runs: seq<Run>) {
    && (forall r :: r in runs ==> Contiguous(r.list))
    && (forall r, s :: r in runs && s in runs ==> NoCollision(r.list, s.list))
  }

  function Fresh<S>(base: S): Target<S> {
    Target(base, map[])
  }

  ghost predicate FromRuns(history: seq<Migration>, runs: seq<Run>) {
    history == [] || exists r :: r in runs && history <= r.list
  }

  lemma HistoryCollidesNowhere(history: seq<Migration>, runs: seq<Run>, run: Run)
    requires LoadedRuns(runs) && run in runs && FromRuns(history, runs)
    ensures NoCollision(history, run.list)
  {
    if history != [] {
      var r :| r in runs && history <= r.list;
      assert NoCollision(r.list, run.list);
      assert forall m :: m in history ==> m in r.list;
    }
  }

  /** After any runs, each possibly stopped at any migration, the ledger is a prefix 1..k of a list
      that was applied and the schema is the fold of exactly those migrations. */
  lemma {:induction false} RunsKeepHistory<S>(exec: Exec<S>, base: S, runs: seq<Run>) returns (history: seq<Migration>)
    requires LoadedRuns(runs)
    ensures At(exec, base, AfterRuns(exec, Fresh(base), runs), history) && FromRuns(history, runs)
  {
    if runs == [] {
      history := [];
    } else {
      var n := |runs| - 1;
      var init, last := runs[..n], runs[n];
      assert forall r :: r in init ==> r in runs;
      var before := RunsKeepHistory(exec, base, init);
      assert last in runs;
      HistoryCollidesNowhere(before, runs, last);
      history := RunKeepsHistory(exec, base, AfterRuns(exec, Fresh(base), init), before, last);
    }
  }

  lemma AtIsDetermined<S>(exec: Exec<S>, base: S, t: Target<S>, u: Target<S>, history: seq<Migration>)
    requires At(exec, base, t, history) && At(exec, base, u, history)
    ensures t == u
  {
  }

  /** A run from a history that succeeds ends where a clean run of its list ends. */
  lemma SuccessEqualsClean<S>(exec: Exec<S>, base: S, t: Target<S>, history: seq<Migration>, run: Run)
    requires At(exec, base, t, history) && Contiguous(run.list) && NoCollision(history, run.list)
    requires AfterApply(exec, t, run).going
    ensures AfterApply(exec, Fresh(base), Clean(run.list)) == Progress(AfterApply(exec, t, run).target, true)
  {
    var after := RunKeepsHistory(exec, base, t, history, run);
    CleanRun(exec, base, run.list, |run.list|);
    assert run.list[..|run.list|] == run.list;
  }

  function Clean(list: seq<Migration>): Run {
    Run(list, true, _ => NoFault)
  }

  /** When the last run succeeds, whatever happened before, the database is the one a clean run of
      its list on an empty database leaves. */
  lemma InterruptedEqualsClean<S>(exec: Exec<S>, base: S, runs: seq<Run>)
    requires LoadedRuns(runs) && runs != []
    requires AfterApply(exec, AfterRuns(exec, Fresh(base), runs[..|runs| - 1]), runs[|runs| - 1]).going
    ensures AfterApply(exec, Fresh(base), Clean(runs[|runs| - 1].list)) == Progress(AfterRuns(exec, Fresh(base), runs), true)
  {
    var init, last := runs[..|runs| - 1], runs[|runs| - 1];
    assert last in runs && forall r :: r in init ==> r in runs;
    var before := RunsKeepHistory(exec, base, init);
    HistoryCollidesNowhere(before, runs, last);
    SuccessEqualsClean(exec, base, AfterRuns(exec, Fresh(base), init), before, last);
  }

  lemma CleanStep<S>(exec: Exec<S>, base: S, list: seq<Migration>, p: Progress<S>, k: nat)
    requires Contiguous(list) && k < |list| && p.going && At(exec, base, p.target, list[..k])
    requires Fold(exec, base, list[..k + 1]).Some?
    ensures var after := AfterNext(exec, map[], p, list[k], NoFault); after.going && At(exec, base, after.target, list[..k + 1])
  {
    FoldGrows(exec, base, list, k);
    OneMore(exec, base, p.target, list, k, NoFault);
  }

  /** A clean run of migrations whose fold is defined does not stop. */
  lemma {:induction false} CleanRun<S>(exec: Exec<S>, base: S, list: seq<Migration>, k: nat)
    requires Contiguous(list) && k <= |list| && Fold(exec, base, list).Some?
    ensures var clean := AfterList(exec, Fresh(base), list[..k], Clean(list).faults);
            clean.going && At(exec, base, clean.target, list[..k])
  {
    if k == 0 {
      assert list[..k] == [];
    } else {
      CleanRun(exec, base, list, k - 1);
      FoldPrefix(exec, base, list, k);
      ListGrows(exec, Fresh(base), list, Clean(list).faults, k - 1);
      CleanStep(exec, base, list, AfterList(exec, Fresh(base), list[..k - 1], Clean(list).faults), k - 1);
    }
  }

  lemma {:induction false} FoldPrefix<S>(exec: Exec<S>, base: S, list: seq<Migration>, k: nat)
    requires k <= |list| && Fold(exec, base, list).Some?
    ensures Fold(exec, base, list[..k]).Some?
    decreases |list|
  {
    if k == |list| {
      assert list[..k] == list;
    } else {
      assert list[..|list| - 1][..k] == list[..k];
      FoldPrefix(exec, base, list[..|list| - 1], k);
    }
  }

  /** Running a list again after it succeeded succeeds, whatever faults wait, and changes nothing. */
  lemma RerunChangesNothing<S>(exec: Exec<S>, base: S, t: Target<S>, list: seq<Migration>, faults: nat -> Fault)
    requires At(exec, base, t, list) && NoCollision(list, list)
    ensures AfterApply(exec, t, Run(list, true, faults)) == Progress(t, true)
  {
    var after := RunKeepsHistory(exec, base, t, list, Run(list, true, faults));
    AtIsDetermined(exec, base, t, AfterApply(exec, t, Run(list, true, faults)).target, list);
  }
}
