/** The two review desks as one ledger, with every review decision as one atomic act.
    Candidates (matching desk) and quarantine records (exception desk) carry a revision;
    a decision names the revision it expects, advances it and appends a history entry.
    Module `Review` shows that the interleaved transactions refine this ledger. */
module Ledger {
  import opened Collections

  datatype Desk = Matching | Exceptions
  datatype Ref = Ref(desk: Desk, id: nat)

  /** How an entry came about: a migration, a direct service call, or the API handler,
      which alone adds an audit event. */
  datatype Origin = Imported | Service | Api

  datatype Row = Row(
    organization: nat, status: string, revision: int,
    reviewer: Option<nat>, note: Option<string>, waiver: Option<string>,
    corrected: Option<nat>, resolvedAt: Option<int>, updatedAt: int)

  datatype Entry = Entry(
    id: nat, organization: nat, status: string, reviewer: Option<nat>, note: string,
    corrected: Option<nat>, at: int, supersedes: Option<nat>, origin: Origin)

  datatype Audit = Audit(ref: Ref, revision: int, entry: nat, status: string)

  /** History is keyed by row and revision, the unique constraint of both tables. */
  type Slot = (Ref, int)

  datatype Database = Database(rows: map<Ref, Row>, history: map<Slot, Entry>, audit: seq<Audit>)

  datatype Request = Request(
    ref: Ref, organization: nat, status: string, reviewer: nat, note: string,
    corrected: Option<nat>, expected: int, at: int, origin: Origin)

  predicate Attention(status: string) {
    status == "open" || status == "acknowledged"
  }

  predicate Allowed(desk: Desk, status: string) {
    match desk
    case Matching => status in {"match", "no_match", "defer", "escalate"}
    case Exceptions =>
      status in {"open", "acknowledged", "corrected_upstream", "corrected_mapping", "waived", "closed"}
  }

  /** The row after the guarded UPDATE. */
  function NewRow(row: Row, req: Request): Row {
    match req.ref.desk
    case Matching => row.(status := req.status, revision := req.expected + 1, updatedAt := req.at)
    case Exceptions =>
      row.(status := req.status, reviewer := Some(req.reviewer), note := Some(req.note),
           waiver := if req.status == "waived" then Some(req.note) else None,
           corrected := req.corrected,
           resolvedAt := if Attention(req.status) then None else Some(req.at),
           revision := req.expected + 1, updatedAt := req.at)
  }

  function NewEntry(req: Request, id: nat, prior: Option<nat>): Entry {
    Entry(id, req.organization, req.status, Some(req.reviewer), req.note,
          if req.ref.desk == Exceptions then req.corrected else None, req.at,
          if req.ref.desk == Matching then prior else None, req.origin)
  }

  /** The request finds its row in its organization at the revision it expects. */
  predicate Enabled(db: Database, req: Request) {
    && req.ref in db.rows
    && db.rows[req.ref].organization == req.organization
    && db.rows[req.ref].revision == req.expected
  }

  function EntryId(db: Database, slot: Slot): Option<nat> {
    if slot in db.history then Some(db.history[slot].id) else None
  }

  /** The atomic decision. The entry supersedes the one at the expected revision. */
  function Decide(db: Database, req: Request, id: nat): Database
    requires Enabled(db, req)
  {
    Database(
      db.rows[req.ref := NewRow(db.rows[req.ref], req)],
      db.history[(req.ref, req.expected + 1) := NewEntry(req, id, EntryId(db, (req.ref, req.expected)))],
      db.audit + if req.origin == Api then [Audit(req.ref, req.expected + 1, id, req.status)] else [])
  }

  /** Rows enter at revision 0, as matching runs and validation create them. */
  predicate Creatable(db: Database, ref: Ref, row: Row) {
    && ref !in db.rows && row.revision == 0
    && (ref.desk == Exceptions ==>
          row.status == "open" && row.reviewer.None? && row.note.None? && row.waiver.None?
          && row.corrected.None? && row.resolvedAt.None?)
  }

  datatype Event = Decided(req: Request, id: nat) | Created(ref: Ref, row: Row)

  predicate Possible(db: Database, e: Event) {
    match e
    case Decided(req, _) =>
      Enabled(db, req) && Allowed(req.ref.desk, req.status) && req.note != "" && req.origin != Imported
    case Created(ref, row) => Creatable(db, ref, row)
  }

  function Apply(db: Database, e: Event): Database
    requires Possible(db, e)
  {
    match e
    case Decided(req, id) => Decide(db, req, id)
    case Created(ref, row) => db.(rows := db.rows[ref := row])
  }

  /** `log` is a possible sequence of events that leads from `start` to `db`. */
  ghost predicate Leads(start: Database, log: seq<Event>, db: Database) {
    if log == [] then db == start
    else
      exists before {:trigger Extends(before, log[|log| - 1], db)} ::
        Leads(start, log[..|log| - 1], before) && Extends(before, log[|log| - 1], db)
  }

  ghost predicate Extends(before: Database, e: Event, db: Database) {
    Possible(before, e) && db == Apply(before, e)
  }

  // ----- Numbering -----

  /** The history of a row holds exactly the revisions 1 .. revision. */
  ghost predicate NumberedAt(db: Database, ref: Ref)
    requires ref in db.rows
  {
    db.rows[ref].revision >= 0 &&
    forall k: int {:trigger (ref, k) in db.history} :: (ref, k) in db.history <==> 1 <= k <= db.rows[ref].revision
  }

  ghost predicate Numbered(db: Database) {
    && (forall ref {:trigger NumberedAt(db, ref)} :: ref in db.rows ==> NumberedAt(db, ref))
    && (forall slot {:trigger slot in db.history} :: slot in db.history ==>
          slot.0 in db.rows && db.history[slot].organization == db.rows[slot.0].organization)
  }

  lemma ApplyNumbered(db: Database, e: Event)
    requires Numbered(db) && Possible(db, e)
    ensures Numbered(Apply(db, e))
  {
    var after := Apply(db, e);
    forall ref | ref in after.rows ensures NumberedAt(after, ref) {
      if ref in db.rows {
        assert NumberedAt(db, ref);
      }
    }
  }

  // ----- What every row and entry says -----

  /** The row shows what its newest entry says. */
  predicate Shows(desk: Desk, row: Row, entry: Entry) {
    && row.status == entry.status
    && (desk == Exceptions ==>
          row.note == Some(entry.note) && row.reviewer == entry.reviewer && row.corrected == entry.corrected)
  }

  ghost predicate CurrentAt(db: Database, ref: Ref)
    requires ref in db.rows
  {
    var slot := (ref, db.rows[ref].revision);
    db.rows[ref].revision > 0 ==> slot in db.history && Shows(ref.desk, db.rows[ref], db.history[slot])
  }

  ghost predicate Current(db: Database) {
    forall ref {:trigger CurrentAt(db, ref)} :: ref in db.rows ==> CurrentAt(db, ref)
  }

  lemma ApplyCurrentAt(db: Database, e: Event, ref: Ref)
    requires Possible(db, e) && ref in Apply(db, e).rows && (ref in db.rows ==> CurrentAt(db, ref))
    ensures CurrentAt(Apply(db, e), ref)
  {
  }

  lemma ApplyCurrent(db: Database, e: Event)
    requires Current(db) && Possible(db, e)
    ensures Current(Apply(db, e))
  {
    forall ref | ref in Apply(db, e).rows ensures CurrentAt(Apply(db, e), ref) {
      ApplyCurrentAt(db, e, ref);
    }
  }

  /** `resolvedAt` is empty exactly while the record needs attention, and a waiver reason
      is present exactly on waived records. */
  predicate Clean(row: Row) {
    (row.resolvedAt.None? <==> Attention(row.status)) && (row.waiver.Some? <==> row.status == "waived")
  }

  ghost predicate CleanAt(db: Database, ref: Ref)
    requires ref in db.rows
  {
    ref.desk == Exceptions ==> Clean(db.rows[ref])
  }

  ghost predicate CleanDesk(db: Database) {
    forall ref {:trigger CleanAt(db, ref)} :: ref in db.rows ==> CleanAt(db, ref)
  }

  lemma ApplyClean(db: Database, e: Event)
    requires CleanDesk(db) && Possible(db, e)
    ensures CleanDesk(Apply(db, e))
  {
    var after := Apply(db, e);
    forall ref | ref in after.rows ensures CleanAt(after, ref) {
      if ref in db.rows {
        assert CleanAt(db, ref);
      }
    }
  }

  /** On the matching desk, decision k supersedes decision k - 1. */
  ghost predicate ChainedAt(db: Database, slot: Slot)
    requires slot in db.history
  {
    slot.0.desk == Matching ==> db.history[slot].supersedes == EntryId(db, (slot.0, slot.1 - 1))
  }

  /** Every entry that `start` does not hold is chained. */
  ghost predicate Chained(start: Database, db: Database) {
    forall slot {:trigger ChainedAt(db, slot)} :: slot in db.history && slot !in start.history ==> ChainedAt(db, slot)
  }

  lemma ApplyChained(start: Database, db: Database, e: Event)
    requires Numbered(db) && Chained(start, db) && Possible(db, e)
    ensures Chained(start, Apply(db, e))
  {
    var after := Apply(db, e);
    forall slot | slot in after.history && slot !in start.history ensures ChainedAt(after, slot) {
      match e
      case Created(_, _) => assert ChainedAt(db, slot);
      case Decided(req, id) =>
        assert NumberedAt(db, req.ref);
        if slot == (req.ref, req.expected + 1) {
          assert EntryId(after, (req.ref, req.expected)) == EntryId(db, (req.ref, req.expected));
        } else {
          assert ChainedAt(db, slot);
          assert (slot.0, slot.1 - 1) == (req.ref, req.expected + 1) ==> slot !in db.history;
        }
    }
  }

  // ----- Audit -----

  ghost function ApiIn(history: map<Slot, Entry>): set<Slot> {
    set slot | slot in history && history[slot].origin == Api
  }

  ghost function ApiSlots(db: Database): set<Slot> {
    ApiIn(db.history)
  }

  lemma ApiInAdd(history: map<Slot, Entry>, slot: Slot, entry: Entry)
    requires slot !in history
    ensures |ApiIn(history[slot := entry])| == |ApiIn(history)| + if entry.origin == Api then 1 else 0
  {
    var more := history[slot := entry];
    forall x ensures x in ApiIn(more) <==> x in ApiIn(history) || (x == slot && entry.origin == Api) {
    }
    if entry.origin == Api {
      assert ApiIn(more) == ApiIn(history) + {slot};
    } else {
      assert ApiIn(more) == ApiIn(history);
    }
  }

  /** The event names an API entry and repeats its identity and status. */
  ghost predicate AuditedAt(db: Database, i: nat)
    requires i < |db.audit|
  {
    var a := db.audit[i];
    var slot := (a.ref, a.revision);
    slot in db.history && db.history[slot].origin == Api && db.history[slot].id == a.entry && db.history[slot].status == a.status
  }

  /** Audit events and API entries correspond one to one. */
  ghost predicate AuditExact(db: Database) {
    && (forall i: nat {:trigger AuditedAt(db, i)} :: i < |db.audit| ==> AuditedAt(db, i))
    && (forall i, j :: 0 <= i < j < |db.audit| ==>
          (db.audit[i].ref, db.audit[i].revision) != (db.audit[j].ref, db.audit[j].revision))
    && |db.audit| == |ApiSlots(db)|
  }

  lemma CreateAudit(db: Database, ref: Ref, row: Row)
    requires AuditExact(db)
    ensures AuditExact(db.(rows := db.rows[ref := row]))
  {
    var after := db.(rows := db.rows[ref := row]);
    assert ApiSlots(after) == ApiSlots(db);
    forall i: nat | i < |after.audit| ensures AuditedAt(after, i) {
      assert AuditedAt(db, i);
    }
  }

  lemma DecideAudit(db: Database, req: Request, id: nat)
    requires Numbered(db) && AuditExact(db) && Enabled(db, req)
    ensures AuditExact(Decide(db, req, id))
  {
    assert NumberedAt(db, req.ref);
    assert (req.ref, req.expected + 1) !in db.history;
    ApiInAdd(db.history, (req.ref, req.expected + 1), NewEntry(req, id, EntryId(db, (req.ref, req.expected))));
    DecideAudited(db, req, id);
    DecideAuditDistinct(db, req, id);
  }

  lemma DecideAudited(db: Database, req: Request, id: nat)
    requires AuditExact(db) && Enabled(db, req) && (req.ref, req.expected + 1) !in db.history
    ensures var after := Decide(db, req, id);
            forall i: nat {:trigger AuditedAt(after, i)} :: i < |after.audit| ==> AuditedAt(after, i)
  {
    var after := Decide(db, req, id);
    forall i: nat | i < |after.audit| ensures AuditedAt(after, i) {
      assert i < |db.audit| ==> AuditedAt(db, i);
    }
  }

  lemma DecideAuditDistinct(db: Database, req: Request, id: nat)
    requires AuditExact(db) && Enabled(db, req) && (req.ref, req.expected + 1) !in db.history
    ensures var audit := Decide(db, req, id).audit;
            forall i, j :: 0 <= i < j < |audit| ==> (audit[i].ref, audit[i].revision) != (audit[j].ref, audit[j].revision)
  {
    forall i: nat | i < |db.audit| ensures (db.audit[i].ref, db.audit[i].revision) != (req.ref, req.expected + 1) {
      assert AuditedAt(db, i);
    }
  }

  lemma ApplyAudit(db: Database, e: Event)
    requires Numbered(db) && AuditExact(db) && Possible(db, e)
    ensures AuditExact(Apply(db, e))
  {
    match e
    case Created(ref, row) => CreateAudit(db, ref, row);
    case Decided(req, id) => DecideAudit(db, req, id);
  }

  // ----- Whole runs -----

  /** The entry holds what the accepted request said. */
  predicate Records(entry: Entry, e: Event) {
    && e.Decided? && entry.id == e.id && entry.status == e.req.status && entry.note == e.req.note
    && entry.reviewer == Some(e.req.reviewer) && entry.at == e.req.at && entry.origin == e.req.origin
    && entry.organization == e.req.organization
    && entry.corrected == if e.req.ref.desk == Exceptions then e.req.corrected else None
  }

  ghost predicate WrittenBy(db: Database, slot: Slot, e: Event)
    requires slot in db.history
  {
    e.Decided? && slot == (e.req.ref, e.req.expected + 1) && Records(db.history[slot], e)
  }

  /** Every entry that `start` does not hold was written by an accepted decision. */
  lemma {:induction false} EntriesComeFromDecisions(start: Database, log: seq<Event>, db: Database, slot: Slot)
    requires Leads(start, log, db) && slot in db.history && slot !in start.history
    ensures exists e :: e in log && WrittenBy(db, slot, e)
    decreases |log|
  {
    var n := |log| - 1;
    var before :| Leads(start, log[..n], before) && Extends(before, log[n], db);
    if !(log[n].Decided? && slot == (log[n].req.ref, log[n].req.expected + 1)) {
      EntriesComeFromDecisions(start, log[..n], before, slot);
      var e :| e in log[..n] && WrittenBy(before, slot, e);
      assert e in log && WrittenBy(db, slot, e);
    } else {
      assert log[n] in log && WrittenBy(db, slot, log[n]);
    }
  }

  /** And every accepted decision is still in the history as it was written. */
  lemma {:induction false} DecisionsAreRecorded(start: Database, log: seq<Event>, db: Database, i: nat)
    requires Leads(start, log, db) && Numbered(start) && i < |log| && log[i].Decided?
    ensures (log[i].req.ref, log[i].req.expected + 1) in db.history
    ensures WrittenBy(db, (log[i].req.ref, log[i].req.expected + 1), log[i])
    decreases |log|
  {
    var n := |log| - 1;
    var before :| Leads(start, log[..n], before) && Extends(before, log[n], db);
    if i < n {
      assert log[..n][i] == log[i];
      DecisionsAreRecorded(start, log[..n], before, i);
      LedgerInvariant(start, log[..n], before);
      ApplyGrows(before, log[n]);
    }
  }

  /** What every sequence of events keeps. */
  lemma {:induction false} LedgerInvariant(start: Database, log: seq<Event>, db: Database)
    requires Leads(start, log, db) && Numbered(start)
    ensures Numbered(db)
    ensures Current(start) ==> Current(db)
    ensures CleanDesk(start) ==> CleanDesk(db)
    ensures AuditExact(start) ==> AuditExact(db)
    ensures Chained(start, db)
    decreases |log|
  {
    if log == [] {
    } else {
      var front, e := log[..|log| - 1], log[|log| - 1];
      var before :| Leads(start, front, before) && Extends(before, e, db);
      LedgerInvariant(start, front, before);
      ApplyNumbered(before, e);
      ApplyChained(start, before, e);
      if Current(start) {
        ApplyCurrent(before, e);
      }
      if CleanDesk(start) {
        ApplyClean(before, e);
      }
      if AuditExact(start) {
        ApplyAudit(before, e);
      }
    }
  }

  /** Row by row: a row that was created or shown correctly at the start is shown correctly. */
  lemma {:induction false} RowStaysCurrent(start: Database, log: seq<Event>, db: Database, ref: Ref)
    requires Leads(start, log, db) && ref in db.rows && (ref in start.rows ==> CurrentAt(start, ref))
    ensures CurrentAt(db, ref)
    decreases |log|
  {
    if log == [] {
    } else {
      var front, e := log[..|log| - 1], log[|log| - 1];
      var before :| Leads(start, front, before) && Extends(before, e, db);
      if ref in before.rows {
        RowStaysCurrent(start, front, before, ref);
      }
      ApplyCurrentAt(before, e, ref);
    }
  }

  /** What a reviewed record holds follows from its newest entry: the waiver reason is the note
      of a waiver, and the time of resolution is that of an entry that closes the record. */
  predicate Follows(row: Row, entry: Entry) {
    && row.waiver == (if entry.status == "waived" then Some(entry.note) else None)
    && row.resolvedAt == (if entry.status == "open" || entry.status == "acknowledged" then None else Some(entry.at))
  }

  ghost predicate FollowsAt(db: Database, ref: Ref)
    requires ref in db.rows
  {
    var slot := (ref, db.rows[ref].revision);
    ref.desk == Exceptions && db.rows[ref].revision > 0 && slot in db.history && db.history[slot].origin != Imported ==>
      Follows(db.rows[ref], db.history[slot])
  }

  lemma ApplyFollowsAt(db: Database, e: Event, ref: Ref)
    requires Possible(db, e) && ref in Apply(db, e).rows && (ref in db.rows ==> FollowsAt(db, ref))
    ensures FollowsAt(Apply(db, e), ref)
  {
  }

  /** Over every run, in every record whose newest entry is not imported. */
  lemma {:induction false} RowFollowsEntry(start: Database, log: seq<Event>, db: Database, ref: Ref)
    requires Leads(start, log, db) && ref in db.rows && (ref in start.rows ==> FollowsAt(start, ref))
    ensures FollowsAt(db, ref)
    decreases |log|
  {
    if log == [] {
    } else {
      var front, e := log[..|log| - 1], log[|log| - 1];
      var before :| Leads(start, front, before) && Extends(before, e, db);
      if ref in before.rows {
        RowFollowsEntry(start, front, before, ref);
      }
      ApplyFollowsAt(before, e, ref);
    }
  }

  /** The matching desk keeps everything about a candidate but its status, revision and time. */
  predicate SameCandidate(row: Row, later: Row) {
    && later.organization == row.organization && later.reviewer == row.reviewer && later.note == row.note
    && later.waiver == row.waiver && later.corrected == row.corrected && later.resolvedAt == row.resolvedAt
  }

  /** Rows never change hands, and decisions leave the rest of a candidate alone. */
  lemma {:induction false} RowKeepsIdentity(start: Database, log: seq<Event>, db: Database, ref: Ref)
    requires Leads(start, log, db) && ref in start.rows
    ensures ref in db.rows && db.rows[ref].organization == start.rows[ref].organization
    ensures ref.desk == Matching ==> SameCandidate(start.rows[ref], db.rows[ref])
    decreases |log|
  {
    if log == [] {
    } else {
      var front, e := log[..|log| - 1], log[|log| - 1];
      var before :| Leads(start, front, before) && Extends(before, e, db);
      RowKeepsIdentity(start, front, before, ref);
    }
  }

  /** Every entry written since has a decision that its desk knows, a note, and a reviewer. */
  lemma {:induction false} EntriesAreProper(start: Database, log: seq<Event>, db: Database, slot: Slot)
    requires Leads(start, log, db) && slot in db.history && slot !in start.history
    ensures var e := db.history[slot];
            && e.note != "" && e.reviewer.Some? && e.origin != Imported
            && (slot.0.desk == Matching ==> e.status in {"match", "no_match", "defer", "escalate"})
            && (slot.0.desk == Exceptions ==>
                  e.status in {"open", "acknowledged", "corrected_upstream", "corrected_mapping", "waived", "closed"})
    decreases |log|
  {
    var n := |log| - 1;
    var before :| Leads(start, log[..n], before) && Extends(before, log[n], db);
    if !(log[n].Decided? && slot == (log[n].req.ref, log[n].req.expected + 1)) {
      EntriesAreProper(start, log[..n], before, slot);
    }
  }

  /** History is append-only: entries and rows never disappear and revisions never fall. */
  ghost predicate Grows(db: Database, later: Database) {
    && (forall slot {:trigger slot in later.history} :: slot in db.history ==>
          slot in later.history && later.history[slot] == db.history[slot])
    && (forall ref {:trigger ref in later.rows} :: ref in db.rows ==>
          ref in later.rows && db.rows[ref].revision <= later.rows[ref].revision)
    && db.audit <= later.audit
  }

  lemma ApplyGrows(db: Database, e: Event)
    requires Numbered(db) && Possible(db, e)
    ensures Grows(db, Apply(db, e))
  {
    match e
    case Decided(req, id) => assert NumberedAt(db, req.ref);
    case Created(_, _) =>
  }

  lemma {:induction false} LedgerGrows(start: Database, log: seq<Event>, db: Database)
    requires Leads(start, log, db) && Numbered(start)
    ensures Grows(start, db)
    decreases |log|
  {
    if log == [] {
    } else {
      var front, e := log[..|log| - 1], log[|log| - 1];
      var before :| Leads(start, front, before) && Extends(before, e, db);
      LedgerGrows(start, front, before);
      LedgerInvariant(start, front, before);
      ApplyGrows(before, e);
    }
  }

  predicate SameTarget(e: Event, f: Event) {
    e.Decided? && f.Decided? && e.req.ref == f.req.ref
  }

  lemma {:induction false} AcceptedBelow(start: Database, log: seq<Event>, db: Database, i: nat)
    requires Leads(start, log, db) && i < |log| && log[i].Decided?
    ensures log[i].req.ref in db.rows && log[i].req.expected < db.rows[log[i].req.ref].revision
    decreases |log|
  {
    var n := |log| - 1;
    var before :| Leads(start, log[..n], before) && Extends(before, log[n], db);
    if i < n {
      assert log[..n][i] == log[i];
      AcceptedBelow(start, log[..n], before, i);
    }
  }

  /** Two accepted decisions on one row expected different, increasing revisions: for each
      expected revision at most one writer ever succeeds. */
  lemma {:induction false} OneWinnerPerRevision(start: Database, log: seq<Event>, db: Database, i: nat, j: nat)
    requires Leads(start, log, db) && i < j < |log| && SameTarget(log[i], log[j])
    ensures log[i].req.expected < log[j].req.expected
    decreases |log|
  {
    var n := |log| - 1;
    var before :| Leads(start, log[..n], before) && Extends(before, log[n], db);
    assert log[..n][i] == log[i];
    if j < n {
      assert log[..n][j] == log[j];
      OneWinnerPerRevision(start, log[..n], before, i, j);
    } else {
      AcceptedBelow(start, log[..n], before, i);
    }
  }
}
