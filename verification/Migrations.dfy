/** The two migrations that give existing rows their revisions. Both must establish the
    numbering that the review protocol preserves. */
module Migrations {
  import opened Collections
  import opened Ledger
  import opened Review

  // ----- 0005: ranks for the decisions of each candidate -----

  datatype Legacy = Legacy(candidate: nat, organization: nat, status: string, reviewer: nat, note: string,
                           decidedAt: int, supersedes: Option<nat>)

  type Decisions = map<nat, Legacy>

  /** Decisions are ordered by time; the identifier breaks equal timestamps. */
  predicate NotAfter(ds: Decisions, d: nat, e: nat)
    requires d in ds && e in ds
  {
    ds[d].decidedAt < ds[e].decidedAt || (ds[d].decidedAt == ds[e].decidedAt && d <= e)
  }

  function Peers(ds: Decisions, candidate: nat): set<nat> {
    set d | d in ds && ds[d].candidate == candidate
  }

  function UpTo(ds: Decisions, d: nat): set<nat>
    requires d in ds
  {
    set e | e in ds && ds[e].candidate == ds[d].candidate && NotAfter(ds, e, d)
  }

  /** The place of a decision among those of its candidate. */
  function Rank(ds: Decisions, d: nat): nat
    requires d in ds
  {
    |UpTo(ds, d)|
  }

  lemma SubsetCard<T>(a: set<T>, b: set<T>)
    requires a <= b
    ensures |a| <= |b| && (|a| == |b| ==> a == b)
  {
    assert b == a + (b - a);
  }

  /** Ranks follow the order strictly, so no two decisions of a candidate share one. */
  lemma RankStrict(ds: Decisions, d: nat, e: nat)
    requires d in ds && e in ds && d != e && ds[d].candidate == ds[e].candidate && NotAfter(ds, d, e)
    ensures Rank(ds, d) < Rank(ds, e)
  {
    assert e in UpTo(ds, e) && e !in UpTo(ds, d);
    SubsetCard(UpTo(ds, d), UpTo(ds, e));
  }

  lemma RankInjective(ds: Decisions, d: nat, e: nat)
    requires d in ds && e in ds && d != e && ds[d].candidate == ds[e].candidate
    ensures Rank(ds, d) != Rank(ds, e)
  {
    if NotAfter(ds, d, e) {
      RankStrict(ds, d, e);
    } else {
      RankStrict(ds, e, d);
    }
  }

  lemma RankInRange(ds: Decisions, d: nat)
    requires d in ds
    ensures 1 <= Rank(ds, d) <= |Peers(ds, ds[d].candidate)|
  {
    assert d in UpTo(ds, d);
    SubsetCard({d}, UpTo(ds, d));
    SubsetCard(UpTo(ds, d), Peers(ds, ds[d].candidate));
  }

  function Ranks(ds: Decisions, some: set<nat>): set<int>
    requires forall d :: d in some ==> d in ds
  {
    set d | d in some :: Rank(ds, d)
  }

  lemma {:induction false} RanksCard(ds: Decisions, some: set<nat>, candidate: nat)
    requires forall d :: d in some ==> d in ds && ds[d].candidate == candidate
    ensures |Ranks(ds, some)| == |some|
    decreases some
  {
    if some != {} {
      var d :| d in some;
      var rest := some - {d};
      RanksCard(ds, rest, candidate);
      assert Ranks(ds, some) == Ranks(ds, rest) + {Rank(ds, d)};
      if Rank(ds, d) in Ranks(ds, rest) {
        var e :| e in rest && Rank(ds, e) == Rank(ds, d);
        RankInjective(ds, d, e);
      }
    }
  }

  ghost function Interval(n: nat): set<int> {
    if n == 0 then {} else Interval(n - 1) + {n}
  }

  lemma {:induction false} IntervalExactly(n: nat)
    ensures |Interval(n)| == n && forall k :: k in Interval(n) <==> 1 <= k <= n
  {
    if n == 0 {
    } else {
      IntervalExactly(n - 1);
    }
  }

  /** The ranks of a candidate's n decisions are exactly 1 .. n. */
  lemma RanksGapFree(ds: Decisions, candidate: nat)
    ensures Ranks(ds, Peers(ds, candidate)) == Interval(|Peers(ds, candidate)|)
  {
    var peers := Peers(ds, candidate);
    RanksCard(ds, peers, candidate);
    IntervalExactly(|peers|);
    forall k | k in Ranks(ds, peers) ensures k in Interval(|peers|) {
      var d :| d in peers && Rank(ds, d) == k;
      RankInRange(ds, d);
    }
    SubsetCard(Ranks(ds, peers), Interval(|peers|));
  }

  function ImportDecision(ds: Decisions, d: nat): Entry
    requires d in ds
  {
    var l := ds[d];
    Entry(d, l.organization, l.status, Some(l.reviewer), l.note, None, l.decidedAt, l.supersedes, Service)
  }

  ghost predicate AtSlot(ds: Decisions, slot: Slot, d: nat) {
    d in ds && slot == (Ref(Matching, ds[d].candidate), Rank(ds, d))
  }

  /** The upgrade writes the rank on every decision and the count on every candidate. */
  ghost predicate Upgraded5(candidates: map<nat, Row>, ds: Decisions, db: Database) {
    && (forall ref :: ref in db.rows <==> ref.desk == Matching && ref.id in candidates)
    && (forall c {:trigger candidates[c]} :: c in candidates ==>
          Ref(Matching, c) in db.rows && db.rows[Ref(Matching, c)] == candidates[c].(revision := |Peers(ds, c)|))
    && (forall slot :: slot in db.history <==> exists d :: AtSlot(ds, slot, d))
    && (forall slot, d :: slot in db.history && AtSlot(ds, slot, d) ==> db.history[slot] == ImportDecision(ds, d))
    && db.audit == []
  }

  /** Decisions refer to candidates of their own organization. */
  ghost predicate Referential(candidates: map<nat, Row>, ds: Decisions) {
    forall d :: d in ds ==> ds[d].candidate in candidates && ds[d].organization == candidates[ds[d].candidate].organization
  }

  /** The bulk UPDATEs: every decision gets its rank, every candidate its count. */
  method Upgrade5(candidates: map<nat, Row>, ds: Decisions) returns (db: Database)
    requires Referential(candidates, ds)
    ensures Upgraded5(candidates, ds, db)
  {
    var history: map<Slot, Entry> := map[];
    var todo := ds.Keys;
    while todo != {}
      invariant todo <= ds.Keys
      invariant forall slot :: slot in history <==> exists d :: d !in todo && AtSlot(ds, slot, d)
      invariant forall slot, d :: slot in history && d !in todo && AtSlot(ds, slot, d) ==> history[slot] == ImportDecision(ds, d)
      decreases |todo|
    {
      var d :| d in todo;
      var slot := (Ref(Matching, ds[d].candidate), Rank(ds, d));
      forall e | e != d && AtSlot(ds, slot, e) ensures false {
        RankInjective(ds, d, e);
      }
      assert AtSlot(ds, slot, d);
      history := history[slot := ImportDecision(ds, d)];
      todo := todo - {d};
    }
    var rows := map ref | ref in (set c | c in candidates :: Ref(Matching, c)) ::
      candidates[ref.id].(revision := |Peers(ds, ref.id)|);
    db := Database(rows, history, []);
  }

  /** After migration 0005 every candidate's decisions are numbered 1 .. revision. */
  lemma Upgrade5Numbers(candidates: map<nat, Row>, ds: Decisions, db: Database)
    requires Referential(candidates, ds) && Upgraded5(candidates, ds, db)
    ensures Numbered(db)
  {
    forall ref | ref in db.rows ensures NumberedAt(db, ref) {
      var c := ref.id;
      assert candidates[c].(revision := |Peers(ds, c)|) == db.rows[ref];
      RanksGapFree(ds, c);
      IntervalExactly(|Peers(ds, c)|);
      forall k: int ensures (ref, k) in db.history <==> 1 <= k <= db.rows[ref].revision {
        if (ref, k) in db.history {
          var d :| AtSlot(ds, (ref, k), d);
          RankInRange(ds, d);
        }
        if 1 <= k <= |Peers(ds, c)| {
          assert k in Interval(|Peers(ds, c)|);
          var d :| d in Peers(ds, c) && Rank(ds, d) == k;
          assert AtSlot(ds, (ref, k), d);
        }
      }
    }
    forall slot | slot in db.history
      ensures slot.0 in db.rows && db.history[slot].organization == db.rows[slot.0].organization
    {
      var d :| AtSlot(ds, slot, d);
      assert candidates[ds[d].candidate].organization == ds[d].organization;
    }
  }

  /** Later revisions hold later decisions; the identifier decides between equal times. */
  lemma Upgrade5Chronological(candidates: map<nat, Row>, ds: Decisions, db: Database, ref: Ref, k: int, l: int)
    requires Upgraded5(candidates, ds, db) && (ref, k) in db.history && (ref, l) in db.history && k < l
    ensures var e, f := db.history[(ref, k)], db.history[(ref, l)];
            e.at < f.at || (e.at == f.at && e.id < f.id)
  {
    var d :| AtSlot(ds, (ref, k), d);
    var e :| AtSlot(ds, (ref, l), e);
    if NotAfter(ds, e, d) {
      if e != d {
        RankStrict(ds, e, d);
      }
    }
  }

  /** No decision is lost or altered: each is filed whole under its candidate. */
  lemma Upgrade5KeepsDecisions(candidates: map<nat, Row>, ds: Decisions, db: Database, d: nat) returns (k: int)
    requires Upgraded5(candidates, ds, db) && d in ds
    ensures (Ref(Matching, ds[d].candidate), k) in db.history
    ensures var e := db.history[(Ref(Matching, ds[d].candidate), k)];
            && e.id == d && e.organization == ds[d].organization && e.status == ds[d].status
            && e.reviewer == Some(ds[d].reviewer) && e.note == ds[d].note && e.at == ds[d].decidedAt
            && e.supersedes == ds[d].supersedes
  {
    k := Rank(ds, d);
    assert AtSlot(ds, (Ref(Matching, ds[d].candidate), k), d);
  }

  // ----- 0006: the note that earlier versions kept becomes revision 1 -----

  /** The record has a note with something other than spaces in it. */
  predicate Noted(row: Row) {
    row.note.Some? && exists i :: 0 <= i < |row.note.value| && row.note.value[i] != ' '
  }

  function ImportNote(ref: Ref, row: Row): Entry {
    Entry(ref.id, row.organization, row.status, row.reviewer, if row.note.Some? then row.note.value else "",
          row.corrected, if row.resolvedAt.Some? then row.resolvedAt.value else row.updatedAt, None, Imported)
  }

  predicate Imports(ref: Ref, row: Row) {
    ref.desk == Exceptions && Noted(row)
  }

  function FirstRevision(ref: Ref, row: Row): Row {
    if ref.desk == Exceptions then row.(revision := if Noted(row) then 1 else 0) else row
  }

  function ImportedSlots(rows: map<Ref, Row>): map<Slot, Entry> {
    map slot | slot in (set ref | ref in rows && Imports(ref, rows[ref]) :: (ref, 1)) :: ImportNote(slot.0, rows[slot.0])
  }

  function OtherDesk(history: map<Slot, Entry>): map<Slot, Entry> {
    map slot | slot in history && slot.0.desk == Matching :: history[slot]
  }

  function Upgrade6(db: Database): Database {
    Database(map ref | ref in db.rows :: FirstRevision(ref, db.rows[ref]),
             OtherDesk(db.history) + ImportedSlots(db.rows), db.audit)
  }

  predicate Refuses(db: Database) {
    exists slot :: slot in db.history && slot.0.desk == Exceptions && db.history[slot].origin != Imported
  }

  /** The downgrade refuses while a resolution recorded since would be lost; otherwise it
      drops the resolution table and the revision column. */
  function Downgrade6(db: Database): Option<Database> {
    if Refuses(db) then None
    else Some(Database(map ref | ref in db.rows :: if ref.desk == Exceptions then db.rows[ref].(revision := 0) else db.rows[ref],
                       OtherDesk(db.history), db.audit))
  }

  lemma InImportedSlots(rows: map<Ref, Row>, slot: Slot)
    ensures slot in ImportedSlots(rows) <==> slot.0 in rows && Imports(slot.0, rows[slot.0]) && slot.1 == 1
  {
    if slot.0 in rows && Imports(slot.0, rows[slot.0]) && slot.1 == 1 {
      assert slot == (slot.0, 1);
    }
  }

  ghost predicate MatchingNumbered(db: Database) {
    && (forall ref {:trigger NumberedAt(db, ref)} :: ref in db.rows && ref.desk == Matching ==> NumberedAt(db, ref))
    && (forall slot {:trigger slot in db.history} :: slot in db.history ==>
          slot.0 in db.rows && db.history[slot].organization == db.rows[slot.0].organization)
  }

  /** After migration 0006 a record has revision 1 with one imported entry, or revision 0 with none. */
  lemma Upgrade6Numbers(db: Database)
    requires MatchingNumbered(db)
    ensures Numbered(Upgrade6(db))
  {
    var up := Upgrade6(db);
    forall slot ensures slot in up.history <==> (slot in db.history && slot.0.desk == Matching) || slot in ImportedSlots(db.rows) {
    }
    forall ref | ref in up.rows ensures NumberedAt(up, ref) {
      if ref.desk == Matching {
        assert NumberedAt(db, ref);
      }
      forall k: int ensures (ref, k) in up.history <==> 1 <= k <= up.rows[ref].revision {
        InImportedSlots(db.rows, (ref, k));
      }
    }
    forall slot | slot in up.history
      ensures slot.0 in up.rows && up.history[slot].organization == up.rows[slot.0].organization
    {
      InImportedSlots(db.rows, slot);
    }
  }

  /** A note that holds a character other than a space becomes the one entry, with the time of
      resolution, or else of the last change; any other record has none. The rest of the
      record stays as it was. */
  lemma Upgrade6Imports(db: Database, ref: Ref)
    requires ref in db.rows && ref.desk == Exceptions
    ensures var row, up := db.rows[ref], Upgrade6(db);
            && ref in up.rows && up.rows[ref] == row.(revision := up.rows[ref].revision)
            && (if row.note.Some? && exists i :: 0 <= i < |row.note.value| && row.note.value[i] != ' '
                then && up.rows[ref].revision == 1 && (ref, 1) in up.history
                     && var e := up.history[(ref, 1)];
                        && e.id == ref.id && e.organization == row.organization && e.status == row.status
                        && e.reviewer == row.reviewer && e.note == row.note.value && e.corrected == row.corrected
                        && e.at == (if row.resolvedAt.Some? then row.resolvedAt.value else row.updatedAt)
                        && e.origin == Imported
                else up.rows[ref].revision == 0 && forall k: int :: (ref, k) !in up.history)
  {
    InImportedSlots(db.rows, (ref, 1));
    forall k: int ensures (ref, k) in Upgrade6(db).history ==> k == 1 && Noted(db.rows[ref]) {
      InImportedSlots(db.rows, (ref, k));
    }
  }

  /** And every record that has an imported entry shows what it says. */
  lemma Upgrade6Current(db: Database, ref: Ref)
    requires ref in db.rows && ref.desk == Exceptions
    ensures ref in Upgrade6(db).rows && CurrentAt(Upgrade6(db), ref)
  {
    InImportedSlots(db.rows, (ref, 1));
  }

  /** So every interleaving of review transactions after the upgrade is a sequence of atomic
      decisions on the migrated rows and keeps their revisions gap-free. */
  lemma MigratedRunsStayNumbered(legacy: Database, states: seq<State>, actions: seq<Action>, n: nat)
    requires MatchingNumbered(legacy) && IsRun(Upgrade6(legacy), states, actions) && n <= |actions|
    ensures Numbered(states[n].db) && Leads(Upgrade6(legacy), LogOf(states, actions, n), states[n].db)
  {
    Upgrade6Numbers(legacy);
    Serializable(Upgrade6(legacy), states, actions, n);
  }

  /** Every record of the exception desk, imported or new, goes on showing its newest entry. */
  lemma MigratedRowsStayCurrent(legacy: Database, states: seq<State>, actions: seq<Action>, n: nat, ref: Ref)
    requires MatchingNumbered(legacy) && IsRun(Upgrade6(legacy), states, actions) && n <= |actions|
    requires ref in states[n].db.rows && ref.desk == Exceptions
    ensures CurrentAt(states[n].db, ref) && FollowsAt(states[n].db, ref)
  {
    MigratedRunsStayNumbered(legacy, states, actions, n);
    if ref in legacy.rows {
      Upgrade6Current(legacy, ref);
      Upgrade6Imports(legacy, ref);
    }
    RowStaysCurrent(Upgrade6(legacy), LogOf(states, actions, n), states[n].db, ref);
    RowFollowsEntry(Upgrade6(legacy), LogOf(states, actions, n), states[n].db, ref);
  }

  /** The database between the migrations: the matching desk numbered, the quarantine records
      as earlier versions left them. */
  function Between(db: Database, records: map<Ref, Row>): Database {
    db.(rows := db.rows + records)
  }

  /** Both migrations together number both desks. */
  lemma UpgradesCompose(candidates: map<nat, Row>, ds: Decisions, db: Database, records: map<Ref, Row>)
    requires Referential(candidates, ds) && Upgraded5(candidates, ds, db)
    requires forall ref :: ref in records ==> ref.desk == Exceptions
    ensures MatchingNumbered(Between(db, records)) && Numbered(Upgrade6(Between(db, records)))
  {
    Upgrade5Numbers(candidates, ds, db);
    var legacy := Between(db, records);
    forall ref | ref in legacy.rows && ref.desk == Matching ensures NumberedAt(legacy, ref) {
      assert NumberedAt(db, ref);
    }
    Upgrade6Numbers(legacy);
  }

  /** A record is as the import left it, or its newest entry was recorded since. */
  ghost predicate TracedAt(db: Database, ref: Ref)
    requires ref in db.rows
  {
    var row := db.rows[ref];
    ref.desk == Exceptions ==>
      || (row == FirstRevision(ref, row) && (Noted(row) ==> (ref, 1) in db.history && db.history[(ref, 1)] == ImportNote(ref, row)))
      || ((ref, row.revision) in db.history && db.history[(ref, row.revision)].origin != Imported)
  }

  ghost predicate Traced(db: Database) {
    forall ref {:trigger TracedAt(db, ref)} :: ref in db.rows ==> TracedAt(db, ref)
  }

  lemma Upgrade6Traced(db: Database)
    ensures Traced(Upgrade6(db))
  {
    var up := Upgrade6(db);
    forall ref | ref in up.rows ensures TracedAt(up, ref) {
      InImportedSlots(db.rows, (ref, 1));
    }
  }

  lemma ApplyTraced(db: Database, e: Event)
    requires Numbered(db) && Traced(db) && Possible(db, e)
    ensures Traced(Apply(db, e))
  {
    var after := Apply(db, e);
    forall ref | ref in after.rows ensures TracedAt(after, ref) {
      if ref in db.rows {
        assert TracedAt(db, ref);
      }
    }
  }

  lemma {:induction false} RunTraced(start: Database, log: seq<Event>, db: Database)
    requires Leads(start, log, db) && Numbered(start) && Traced(start)
    ensures Traced(db)
    decreases |log|
  {
    if log == [] {
    } else {
      var front, e := log[..|log| - 1], log[|log| - 1];
      var before :| Leads(start, front, before) && Extends(before, e, db);
      RunTraced(start, front, before);
      LedgerInvariant(start, front, before);
      ApplyTraced(before, e);
    }
  }

  lemma UntouchedRows(db: Database, ref: Ref)
    requires Numbered(db) && Traced(db) && !Refuses(db) && ref in db.rows && ref.desk == Exceptions
    ensures db.rows[ref] == FirstRevision(ref, db.rows[ref])
    ensures Noted(db.rows[ref]) ==> (ref, 1) in db.history && db.history[(ref, 1)] == ImportNote(ref, db.rows[ref])
  {
    assert TracedAt(db, ref) && NumberedAt(db, ref);
  }

  lemma DowngradedRow(db: Database, down: Database, ref: Ref)
    requires Downgrade6(db) == Some(down) && ref in db.rows && ref.desk == Exceptions
    ensures ref in down.rows && down.rows[ref] == db.rows[ref].(revision := 0)
    ensures Noted(down.rows[ref]) == Noted(db.rows[ref]) && ImportNote(ref, down.rows[ref]) == ImportNote(ref, db.rows[ref])
  {
  }

  lemma ReimportSame(db: Database, down: Database, slot: Slot)
    requires Numbered(db) && Traced(db) && Downgrade6(db) == Some(down) && slot.0.desk == Exceptions
    ensures slot in db.history <==> slot in ImportedSlots(down.rows)
    ensures slot in ImportedSlots(down.rows) ==> ImportedSlots(down.rows)[slot] == db.history[slot]
  {
    InImportedSlots(down.rows, slot);
    if slot.0 in db.rows {
      UntouchedRows(db, slot.0);
      DowngradedRow(db, down, slot.0);
      assert NumberedAt(db, slot.0);
      var (ref, k) := slot;
      assert (ref, k) in db.history <==> 1 <= k <= db.rows[ref].revision;
    }
  }

  lemma ReupgradeRows(db: Database, down: Database)
    requires Numbered(db) && Traced(db) && Downgrade6(db) == Some(down)
    ensures Upgrade6(down).rows == db.rows
  {
    forall ref | ref in db.rows ensures ref in Upgrade6(down).rows && Upgrade6(down).rows[ref] == db.rows[ref] {
      if ref.desk == Exceptions {
        UntouchedRows(db, ref);
        DowngradedRow(db, down, ref);
      }
    }
  }

  lemma ReupgradeHistory(db: Database, down: Database)
    requires Numbered(db) && Traced(db) && Downgrade6(db) == Some(down)
    ensures Upgrade6(down).history == db.history
  {
    var matching, imported := OtherDesk(down.history), ImportedSlots(down.rows);
    forall slot
      ensures slot in matching + imported <==> slot in db.history
      ensures slot in db.history ==> (matching + imported)[slot] == db.history[slot]
    {
      InImportedSlots(down.rows, slot);
      if slot.0.desk == Exceptions {
        ReimportSame(db, down, slot);
      }
    }
  }

  /** After any run since the upgrade, the downgrade either refuses or loses nothing:
      upgrading again restores every row, revision and entry. */
  lemma DowngradeLosesNothing(legacy: Database, log: seq<Event>, db: Database)
    requires MatchingNumbered(legacy) && Leads(Upgrade6(legacy), log, db)
    ensures Downgrade6(db).Some? ==> Upgrade6(Downgrade6(db).value) == db
  {
    Upgrade6Numbers(legacy);
    Upgrade6Traced(legacy);
    RunTraced(Upgrade6(legacy), log, db);
    LedgerInvariant(Upgrade6(legacy), log, db);
    if Downgrade6(db).Some? {
      ReupgradeRows(db, Downgrade6(db).value);
      ReupgradeHistory(db, Downgrade6(db).value);
    }
  }

  /** What it drops: the resolutions and the revisions of the exception desk, and nothing else. */
  lemma DowngradeDrops(db: Database, down: Database)
    requires Downgrade6(db) == Some(down)
    ensures down.audit == db.audit && down.rows.Keys == db.rows.Keys
    ensures forall slot :: slot in down.history <==> slot in db.history && slot.0.desk == Matching
    ensures forall slot :: slot in down.history ==> down.history[slot] == db.history[slot]
    ensures forall ref :: ref in db.rows ==>
              down.rows[ref] == if ref.desk == Exceptions then db.rows[ref].(revision := 0) else db.rows[ref]
  {
  }

  /** And it refuses exactly when a resolution was recorded since the upgrade. */
  lemma DowngradeRefusesExactly(legacy: Database, log: seq<Event>, db: Database)
    requires MatchingNumbered(legacy) && Leads(Upgrade6(legacy), log, db)
    ensures Downgrade6(db).None? <==> exists i :: 0 <= i < |log| && log[i].Decided? && log[i].req.ref.desk == Exceptions
  {
    Upgrade6Numbers(legacy);
    if i :| 0 <= i < |log| && log[i].Decided? && log[i].req.ref.desk == Exceptions {
      DecisionsAreRecorded(Upgrade6(legacy), log, db, i);
      AcceptedNotImported(Upgrade6(legacy), log, db, i);
      assert Refuses(db);
    }
    if Refuses(db) {
      var slot :| slot in db.history && slot.0.desk == Exceptions && db.history[slot].origin != Imported;
      LedgerGrows(Upgrade6(legacy), log, db);
      InImportedSlots(legacy.rows, slot);
      assert slot !in Upgrade6(legacy).history;
      EntriesComeFromDecisions(Upgrade6(legacy), log, db, slot);
      var e :| e in log && WrittenBy(db, slot, e);
      var i :| 0 <= i < |log| && log[i] == e;
    }
  }

  lemma {:induction false} AcceptedNotImported(start: Database, log: seq<Event>, db: Database, i: nat)
    requires Leads(start, log, db) && i < |log| && log[i].Decided?
    ensures log[i].req.origin != Imported
    decreases |log|
  {
    var n := |log| - 1;
    var before :| Leads(start, log[..n], before) && Extends(before, log[n], db);
    if i < n {
      assert log[..n][i] == log[i];
      AcceptedNotImported(start, log[..n], before, i);
    }
  }
}
