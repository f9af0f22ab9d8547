/** One review call as the two services make it: the checks in their order, the guarded
    update, the search for the newest entry, the append and, from the API, the audit
    event. The call is shown to be the ledger's atomic decision or to change nothing. */
module Desk {
  import opened Collections
  import opened Ledger
  import opened Review

  datatype Failure = InvalidStatus | NotFound | NoteRequired | SnapshotOutOfScope | SnapshotMismatch | Stale

  datatype Reply = Recorded(entry: Entry) | Refused(failure: Failure)

  /** A raw snapshot: the organization that owns its source, and its source object. */
  datatype Snapshot = Snapshot(organization: nat, sourceObject: nat)

  /** The slots of one row and organization. */
  predicate Visible(history: map<Slot, Entry>, ref: Ref, organization: nat, slot: Slot)
    requires slot in history
  {
    slot.0 == ref && history[slot].organization == organization
  }

  ghost predicate NewestAmong(history: map<Slot, Entry>, ref: Ref, organization: nat, left: set<Slot>, best: Option<Slot>) {
    && (best.Some? ==> best.value in history && Visible(history, ref, organization, best.value))
    && forall slot {:trigger slot in left} :: slot in history && slot !in left && Visible(history, ref, organization, slot)
         ==> best.Some? && slot.1 <= best.value.1
  }

  /** The query for the newest entry of a row. */
  method NewestEntry(db: Database, ref: Ref, organization: nat) returns (prior: Option<nat>)
    ensures PriorIs(db, ref, organization, prior)
  {
    var left := db.history.Keys;
    var best: Option<Slot> := None;
    while left != {}
      invariant left <= db.history.Keys
      invariant NewestAmong(db.history, ref, organization, left, best)
      decreases |left|
    {
      var slot :| slot in left;
      if Visible(db.history, ref, organization, slot) && (best.None? || slot.1 > best.value.1) {
        best := Some(slot);
      }
      left := left - {slot};
    }
    assert forall k: int {:trigger (ref, k) in db.history} :: (ref, k) !in left;
    if best.None? {
      prior := None;
    } else {
      prior := Some(db.history[best.value].id);
      assert best.value == (ref, best.value.1);
      assert Newest(db.history, ref, organization, best.value.1);
    }
  }

  // ----- What the checks ask -----

  ghost predicate KnownStatus(req: Request) {
    match req.ref.desk
    case Matching => req.status == "match" || req.status == "no_match" || req.status == "defer" || req.status == "escalate"
    case Exceptions =>
      || req.status == "open" || req.status == "acknowledged" || req.status == "corrected_upstream"
      || req.status == "corrected_mapping" || req.status == "waived" || req.status == "closed"
  }

  /** The row exists in the organization of the request. */
  ghost predicate Present(db: Database, req: Request) {
    req.ref in db.rows && db.rows[req.ref].organization == req.organization
  }

  /** The request names a corrected snapshot, as only the exception desk takes one. */
  ghost predicate Corrects(req: Request) {
    req.ref.desk == Exceptions && req.corrected != None
  }

  ghost predicate InScope(snapshots: map<nat, Snapshot>, req: Request)
    requires Corrects(req)
  {
    req.corrected.value in snapshots && snapshots[req.corrected.value].organization == req.organization
  }

  /** The corrected snapshot describes the source object in which the record was found. */
  ghost predicate SameSource(snapshots: map<nat, Snapshot>, found: map<Ref, nat>, req: Request)
    requires Corrects(req) && InScope(snapshots, req)
  {
    && req.ref in found && found[req.ref] in snapshots
    && snapshots[found[req.ref]].sourceObject == snapshots[req.corrected.value].sourceObject
  }

  class ReviewService {
    var db: Database
    const snapshots: map<nat, Snapshot>
    /** The snapshot in which each quarantined record was found. */
    const found: map<Ref, nat>

    constructor (db: Database, snapshots: map<nat, Snapshot>, found: map<Ref, nat>)
      ensures this.db == db && this.snapshots == snapshots && this.found == found
    {
      this.db, this.snapshots, this.found := db, snapshots, found;
    }

    /** A corrected snapshot may be given on the exception desk only. */
    predicate ScopeFails(req: Request) {
      && req.ref.desk == Exceptions && req.corrected.Some?
      && (req.corrected.value !in snapshots || snapshots[req.corrected.value].organization != req.organization)
    }

    predicate SourceDiffers(req: Request)
      requires !ScopeFails(req)
    {
      && req.ref.desk == Exceptions && req.corrected.Some?
      && (req.ref !in found || found[req.ref] !in snapshots
          || snapshots[found[req.ref]].sourceObject != snapshots[req.corrected.value].sourceObject)
    }

    predicate Exists(req: Request)
      reads this
    {
      req.ref in db.rows && db.rows[req.ref].organization == req.organization
    }

    /** A review call with commit. `req.note` is the note without surrounding blanks and
        `id` the identifier the database gives to the new entry. The first failing check
        decides the answer, and a refusal changes nothing. */
    method Record(req: Request, id: nat) returns (reply: Reply)
      requires Numbered(db) && req.origin != Imported
      modifies this
      ensures Numbered(db) && Grows(old(db), db)
      ensures reply == Refused(InvalidStatus) <==> !KnownStatus(req)
      ensures reply == Refused(NotFound) <==> KnownStatus(req) && !Present(old(db), req)
      ensures reply == Refused(NoteRequired) <==> KnownStatus(req) && Present(old(db), req) && req.note == ""
      ensures reply == Refused(SnapshotOutOfScope) <==>
              KnownStatus(req) && Present(old(db), req) && req.note != "" && Corrects(req) && !InScope(snapshots, req)
      ensures reply == Refused(SnapshotMismatch) <==>
              KnownStatus(req) && Present(old(db), req) && req.note != "" && Corrects(req) && InScope(snapshots, req)
              && !SameSource(snapshots, found, req)
      ensures reply == Refused(Stale) <==>
              KnownStatus(req) && Present(old(db), req) && req.note != ""
              && (Corrects(req) ==> InScope(snapshots, req) && SameSource(snapshots, found, req))
              && old(db).rows[req.ref].revision != req.expected
      ensures reply.Refused? ==> db == old(db)
      ensures reply.Recorded? ==>
                && Possible(old(db), Decided(req, id)) && db == Decide(old(db), req, id)
                && (req.ref, req.expected + 1) in db.history && reply.entry == db.history[(req.ref, req.expected + 1)]
                && Records(reply.entry, Decided(req, id))
                && (req.ref.desk == Exceptions ==> Follows(db.rows[req.ref], reply.entry))
                && Newest(db.history, req.ref, req.organization, req.expected + 1)
    {
      if !Allowed(req.ref.desk, req.status) {
        return Refused(InvalidStatus);
      }
      if !Exists(req) {
        return Refused(NotFound);
      }
      if req.note == "" {
        return Refused(NoteRequired);
      }
      if ScopeFails(req) {
        return Refused(SnapshotOutOfScope);
      }
      if SourceDiffers(req) {
        return Refused(SnapshotMismatch);
      }
      if db.rows[req.ref].revision != req.expected {
        return Refused(Stale);
      }
      reply := Advance(req, id);
    }

    /** The guarded update and what follows it. */
    method Advance(req: Request, id: nat) returns (reply: Reply)
      requires Numbered(db) && Possible(db, Decided(req, id))
      modifies this
      ensures Numbered(db) && Grows(old(db), db) && db == Decide(old(db), req, id)
      ensures (req.ref, req.expected + 1) in db.history && reply == Recorded(db.history[(req.ref, req.expected + 1)])
      ensures Newest(db.history, req.ref, req.organization, req.expected + 1)
    {
      ghost var before := db;
      ApplyNumbered(before, Decided(req, id));
      ApplyGrows(before, Decided(req, id));
      db := db.(rows := db.rows[req.ref := NewRow(db.rows[req.ref], req)]);
      var prior := NewestEntry(db, req.ref, req.organization);
      PriorIsExpected(before, req, prior);
      var entry := NewEntry(req, id, prior);
      db := db.(history := db.history[(req.ref, req.expected + 1) := entry]);
      if req.origin == Api {
        db := db.(audit := db.audit + [Audit(req.ref, req.expected + 1, id, req.status)]);
      }
      assert db == Decide(before, req, id);
      reply := Recorded(entry);
      assert NumberedAt(db, req.ref);
    }
  }
}
