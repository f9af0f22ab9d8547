/** The review protocol as interleaved transactions. A session checks its request,
    runs the guarded UPDATE (which takes the row lock), inserts the history entry and,
    in the API handler, the audit event, and then commits; it may roll back at any
    point. Pending writes are invisible to others until the commit. */
module Review {
  import opened Collections
  import opened Ledger

  datatype Session =
    | Idle
    | Checked(req: Request)
    | Updated(req: Request, row: Row)
    | Inserted(req: Request, row: Row, entry: Entry)
    | Audited(req: Request, row: Row, entry: Entry, audit: Audit)
  {
    /** The session has updated its row and not yet ended: it holds the row lock. */
    predicate Locks(ref: Ref) {
      (Updated? || Inserted? || Audited?) && req.ref == ref
    }
  }

  datatype State = State(db: Database, sessions: map<nat, Session>)

  datatype Action =
    | Begin(s: nat, req: Request)
    | Update(s: nat)
    | InsertEntry(s: nat, id: nat, prior: Option<nat>)
    | RecordAudit(s: nat)
    | Commit(s: nat)
    | Rollback(s: nat)
    | Create(ref: Ref, row: Row)

  function At(st: State, s: nat): Session {
    if s in st.sessions then st.sessions[s] else Idle
  }

  function Put(st: State, s: nat, session: Session): State {
    st.(sessions := st.sessions[s := session])
  }

  predicate LockedByOther(st: State, s: nat, ref: Ref) {
    exists t :: t in st.sessions && t != s && st.sessions[t].Locks(ref)
  }

  /** The checks made before the UPDATE. */
  predicate Acceptable(db: Database, req: Request) {
    && Allowed(req.ref.desk, req.status) && req.note != "" && req.origin != Imported
    && req.ref in db.rows && db.rows[req.ref].organization == req.organization
  }

  /** The greatest revision among the entries of a row in an organization. */
  ghost predicate Newest(history: map<Slot, Entry>, ref: Ref, organization: nat, k: int) {
    && (ref, k) in history && history[(ref, k)].organization == organization
    && forall j: int {:trigger (ref, j) in history} ::
         (ref, j) in history && history[(ref, j)].organization == organization ==> j <= k
  }

  ghost predicate PriorIs(db: Database, ref: Ref, organization: nat, prior: Option<nat>) {
    match prior
    case Some(id) => exists k :: Newest(db.history, ref, organization, k) && db.history[(ref, k)].id == id
    case None => forall k: int {:trigger (ref, k) in db.history} ::
                   (ref, k) in db.history ==> db.history[(ref, k)].organization != organization
  }

  function Written(st: State, s: nat): Database
    requires At(st, s).Inserted? || At(st, s).Audited?
  {
    var w := At(st, s);
    Database(st.db.rows[w.req.ref := w.row], st.db.history[(w.req.ref, w.req.expected + 1) := w.entry],
             st.db.audit + if w.Audited? then [w.audit] else [])
  }

  predicate CanCommit(w: Session) {
    w.Audited? || (w.Inserted? && w.req.origin != Api)
  }

  ghost predicate Next(st: State, a: Action, st': State) {
    match a
    case Begin(s, req) =>
      At(st, s).Idle? && st' == if Acceptable(st.db, req) then Put(st, s, Checked(req)) else st
    case Update(s) =>
      && At(st, s).Checked? && !LockedByOther(st, s, At(st, s).req.ref)
      && st' == (var req := At(st, s).req;
                 if Enabled(st.db, req) then Put(st, s, Updated(req, NewRow(st.db.rows[req.ref], req)))
                 else Put(st, s, Idle))
    case InsertEntry(s, id, prior) =>
      && At(st, s).Updated? && PriorIs(st.db, At(st, s).req.ref, At(st, s).req.organization, prior)
      && st' == (var w := At(st, s);
                 if (w.req.ref, w.req.expected + 1) in st.db.history then Put(st, s, Idle)
                 else Put(st, s, Inserted(w.req, w.row, NewEntry(w.req, id, prior))))
    case RecordAudit(s) =>
      && At(st, s).Inserted? && At(st, s).req.origin == Api
      && st' == (var w := At(st, s);
                 Put(st, s, Audited(w.req, w.row, w.entry, Audit(w.req.ref, w.req.expected + 1, w.entry.id, w.entry.status))))
    case Commit(s) =>
      CanCommit(At(st, s)) && st' == Put(st, s, Idle).(db := Written(st, s))
    case Rollback(s) =>
      !At(st, s).Idle? && st' == Put(st, s, Idle)
    case Create(ref, row) =>
      Creatable(st.db, ref, row) && st' == st.(db := st.db.(rows := st.db.rows[ref := row]))
  }

  // ----- Invariant -----

  /** What a session holds agrees with the committed database. */
  ghost predicate Pending(db: Database, w: Session) {
    !w.Idle? ==>
      && Allowed(w.req.ref.desk, w.req.status) && w.req.note != "" && w.req.origin != Imported
      && (!w.Checked? ==> Enabled(db, w.req) && w.row == NewRow(db.rows[w.req.ref], w.req))
      && (w.Inserted? || w.Audited? ==> w.entry == NewEntry(w.req, w.entry.id, EntryId(db, (w.req.ref, w.req.expected))))
      && (w.Audited? ==> w.req.origin == Api && w.audit == Audit(w.req.ref, w.req.expected + 1, w.entry.id, w.req.status))
  }

  /** Each row is locked by at most one session. */
  ghost predicate Exclusive(st: State) {
    forall s, t, ref :: s in st.sessions && t in st.sessions && st.sessions[s].Locks(ref) && st.sessions[t].Locks(ref) ==> s == t
  }

  ghost predicate AllPending(st: State) {
    forall s {:trigger Pending(st.db, At(st, s))} :: Pending(st.db, At(st, s))
  }

  ghost predicate Inv(start: Database, log: seq<Event>, st: State) {
    Leads(start, log, st.db) && Numbered(st.db) && Exclusive(st) && AllPending(st)
  }

  /** The decision a commit makes, as an event of the ledger. */
  ghost function LogAfter(log: seq<Event>, st: State, a: Action): seq<Event> {
    match a
    case Commit(s) =>
      var w := At(st, s);
      if w.Inserted? || w.Audited? then log + [Decided(w.req, w.entry.id)] else log
    case Create(ref, row) => log + [Created(ref, row)]
    case _ => log
  }

  lemma LeadsAppend(start: Database, log: seq<Event>, db: Database, e: Event)
    requires Leads(start, log, db) && Possible(db, e)
    ensures Leads(start, log + [e], Apply(db, e))
  {
    var more := log + [e];
    assert more[..|more| - 1] == log;
    assert Extends(db, more[|more| - 1], Apply(db, e));
  }

  /** Under the row lock, the newest visible entry is the one at the expected revision. */
  lemma PriorIsExpected(db: Database, req: Request, prior: Option<nat>)
    requires Numbered(db) && Enabled(db, req) && PriorIs(db, req.ref, req.organization, prior)
    ensures prior == EntryId(db, (req.ref, req.expected))
  {
    var ref := req.ref;
    assert NumberedAt(db, ref);
    if prior.Some? {
      var k :| Newest(db.history, ref, req.organization, k) && db.history[(ref, k)].id == prior.value;
      assert (ref, k) in db.history && (ref, req.expected) in db.history;
    } else {
      assert (ref, req.expected) !in db.history;
    }
  }

  lemma CommitIsDecide(db: Database, st: State, s: nat)
    requires db == st.db && CanCommit(At(st, s)) && Pending(db, At(st, s))
    ensures Possible(db, Decided(At(st, s).req, At(st, s).entry.id))
    ensures Written(st, s) == Apply(db, Decided(At(st, s).req, At(st, s).entry.id))
  {
  }

  /** Other sessions' pending work survives a commit: their rows are different rows. */
  lemma PendingSurvives(db: Database, req: Request, id: nat, w: Session)
    requires Numbered(db) && Enabled(db, req) && Pending(db, w)
    requires w.Idle? || w.Checked? || w.req.ref != req.ref
    ensures Pending(Decide(db, req, id), w)
  {
    if !w.Idle? && !w.Checked? {
      assert (w.req.ref, w.req.expected) != (req.ref, req.expected + 1);
    }
  }

  lemma OneHolder(st: State, s: nat, t: nat, ref: Ref)
    requires Exclusive(st) && s != t && At(st, s).Locks(ref)
    ensures !At(st, t).Locks(ref)
  {
  }

  lemma OthersPendingAfterCommit(start: Database, log: seq<Event>, st: State, s: nat, t: nat)
    requires Inv(start, log, st) && CanCommit(At(st, s)) && t != s
    ensures Pending(Written(st, s), At(st, t))
  {
    var w := At(st, s);
    assert Pending(st.db, w) && Pending(st.db, At(st, t));
    CommitIsDecide(st.db, st, s);
    OneHolder(st, s, t, w.req.ref);
    PendingSurvives(st.db, w.req, w.entry.id, At(st, t));
  }

  lemma CommitKeepsPending(start: Database, log: seq<Event>, st: State, s: nat, st': State)
    requires Inv(start, log, st) && CanCommit(At(st, s)) && st' == Put(st, s, Idle).(db := Written(st, s))
    ensures AllPending(st')
  {
    forall t ensures Pending(st'.db, At(st', t)) {
      if t != s {
        OthersPendingAfterCommit(start, log, st, s, t);
      }
    }
  }

  lemma CommitKeepsExclusive(st: State, s: nat, st': State)
    requires Exclusive(st) && st'.sessions == st.sessions[s := Idle]
    ensures Exclusive(st')
  {
  }

  lemma CommitKeepsInv(start: Database, log: seq<Event>, st: State, s: nat, st': State)
    requires Inv(start, log, st) && Next(st, Commit(s), st')
    ensures Inv(start, LogAfter(log, st, Commit(s)), st')
  {
    var w := At(st, s);
    var e := Decided(w.req, w.entry.id);
    assert Pending(st.db, w);
    CommitIsDecide(st.db, st, s);
    LeadsAppend(start, log, st.db, e);
    ApplyNumbered(st.db, e);
    CommitKeepsExclusive(st, s, st');
    CommitKeepsPending(start, log, st, s, st');
  }

  lemma CreateKeepsInv(start: Database, log: seq<Event>, st: State, ref: Ref, row: Row, st': State)
    requires Inv(start, log, st) && Next(st, Create(ref, row), st')
    ensures Inv(start, LogAfter(log, st, Create(ref, row)), st')
  {
    var e := Created(ref, row);
    LeadsAppend(start, log, st.db, e);
    ApplyNumbered(st.db, e);
    forall t ensures Pending(st'.db, At(st', t)) {
      assert Pending(st.db, At(st, t));
    }
  }

  lemma StepKeepsInv(start: Database, log: seq<Event>, st: State, a: Action, st': State)
    requires Inv(start, log, st) && Next(st, a, st')
    ensures Inv(start, LogAfter(log, st, a), st')
  {
    match a
    case Commit(s) => CommitKeepsInv(start, log, st, s, st');
    case Create(ref, row) => CreateKeepsInv(start, log, st, ref, row, st');
    case Begin(s, _) => QuietKeepsInv(start, log, st, s, st');
    case Update(s) => QuietKeepsInv(start, log, st, s, st');
    case Rollback(s) => QuietKeepsInv(start, log, st, s, st');
    case RecordAudit(s) =>
      assert Pending(st.db, At(st, s));
      QuietKeepsInv(start, log, st, s, st');
    case InsertEntry(s, id, prior) =>
      assert Pending(st.db, At(st, s));
      PriorIsExpected(st.db, At(st, s).req, prior);
      QuietKeepsInv(start, log, st, s, st');
  }

  /** A step that leaves the database alone only has to answer for its own session. */
  lemma QuietKeepsInv(start: Database, log: seq<Event>, st: State, s: nat, st': State)
    requires Inv(start, log, st) && st'.db == st.db
    requires st' == st || st' == Put(st, s, At(st', s))
    requires Pending(st.db, At(st, s)) ==> Pending(st.db, At(st', s))
    requires forall ref :: At(st', s).Locks(ref) ==> At(st, s).Locks(ref) || !LockedByOther(st, s, ref)
    ensures Inv(start, log, st')
  {
    forall t ensures Pending(st'.db, At(st', t)) {
      assert Pending(st.db, At(st, t));
    }
  }

  // ----- Runs -----

  /** A run of the protocol from a committed database with no open session. */
  ghost predicate IsRun(start: Database, states: seq<State>, actions: seq<Action>) {
    && |states| == |actions| + 1 && states[0] == State(start, map[])
    && forall i :: 0 <= i < |actions| ==> Next(states[i], actions[i], states[i + 1])
  }

  ghost function LogOf(states: seq<State>, actions: seq<Action>, n: nat): seq<Event>
    requires n <= |actions| < |states|
  {
    if n == 0 then [] else LogAfter(LogOf(states, actions, n - 1), states[n - 1], actions[n - 1])
  }

  /** Every interleaving is serializable: after any number of steps the committed database
      is the one reached by the committed decisions taken one at a time, in commit order,
      each finding the revision it expected. */
  lemma {:induction false} Serializable(start: Database, states: seq<State>, actions: seq<Action>, n: nat)
    requires IsRun(start, states, actions) && Numbered(start) && n <= |actions|
    ensures Inv(start, LogOf(states, actions, n), states[n])
  {
    if n == 0 {
      assert AllPending(states[0]);
    } else {
      Serializable(start, states, actions, n - 1);
      StepKeepsInv(start, LogOf(states, actions, n - 1), states[n - 1], actions[n - 1], states[n]);
    }
  }

  /** A database in which nothing has been decided. */
  ghost predicate Undecided(db: Database) {
    && db.history == map[] && db.audit == []
    && forall ref {:trigger db.rows[ref]} :: ref in db.rows ==>
         db.rows[ref].revision == 0 && (ref.desk == Exceptions ==> Clean(db.rows[ref]))
  }

  lemma UndecidedIsSound(db: Database)
    requires Undecided(db)
    ensures Numbered(db) && Current(db) && CleanDesk(db) && AuditExact(db)
  {
    assert ApiSlots(db) == {};
  }

  /** What holds of the committed database after every step of every run that starts
      undecided: revisions are gap-free, rows show their newest entry, decision k
      supersedes decision k - 1, audit events match API entries one to one, and waiver and
      time of resolution follow from the newest entry. */
  lemma EveryRunIsSound(start: Database, states: seq<State>, actions: seq<Action>, n: nat)
    requires IsRun(start, states, actions) && Undecided(start) && n <= |actions|
    ensures var db := states[n].db;
            Numbered(db) && Current(db) && CleanDesk(db) && AuditExact(db) && Chained(start, db) && start.history == map[]
    ensures forall ref :: ref in states[n].db.rows ==> FollowsAt(states[n].db, ref)
  {
    UndecidedIsSound(start);
    Serializable(start, states, actions, n);
    LedgerInvariant(start, LogOf(states, actions, n), states[n].db);
    forall ref | ref in states[n].db.rows ensures FollowsAt(states[n].db, ref) {
      RowFollowsEntry(start, LogOf(states, actions, n), states[n].db, ref);
    }
  }

  lemma {:induction false} LogOfGrows(states: seq<State>, actions: seq<Action>, n: nat, m: nat)
    requires n <= m <= |actions| < |states|
    ensures LogOf(states, actions, n) <= LogOf(states, actions, m)
    decreases m
  {
    if n == m {
    } else {
      LogOfGrows(states, actions, n, m - 1);
    }
  }

  /** A commit adds its decision to the log. */
  lemma LogOfCommit(start: Database, states: seq<State>, actions: seq<Action>, i: nat)
    requires IsRun(start, states, actions) && i < |actions| && actions[i].Commit?
    ensures var w := At(states[i], actions[i].s);
            && (w.Inserted? || w.Audited?)
            && LogOf(states, actions, i + 1) == LogOf(states, actions, i) + [Decided(w.req, w.entry.id)]
  {
    assert Next(states[i], actions[i], states[i + 1]);
  }

  lemma CommitInLog(start: Database, states: seq<State>, actions: seq<Action>, i: nat, n: nat)
    requires IsRun(start, states, actions) && i < n <= |actions| && actions[i].Commit?
    ensures var w, log, p := At(states[i], actions[i].s), LogOf(states, actions, n), |LogOf(states, actions, i)|;
            (w.Inserted? || w.Audited?) && p < |log| && log[p] == Decided(w.req, w.entry.id)
  {
    LogOfCommit(start, states, actions, i);
    LogOfGrows(states, actions, i + 1, n);
  }

  /** Two commits on one row never expected the same revision. */
  lemma OneCommitPerRevision(start: Database, states: seq<State>, actions: seq<Action>, i: nat, j: nat)
    requires IsRun(start, states, actions) && Numbered(start) && i < j < |actions|
    requires actions[i].Commit? && actions[j].Commit?
    ensures var v, w := At(states[i], actions[i].s), At(states[j], actions[j].s);
            !v.Idle? && !w.Idle? && (v.req.ref == w.req.ref ==> v.req.expected < w.req.expected)
  {
    CommitInLog(start, states, actions, i, |actions|);
    CommitInLog(start, states, actions, j, |actions|);
    CommitInLog(start, states, actions, i, j);
    Serializable(start, states, actions, |actions|);
    var v, w := At(states[i], actions[i].s), At(states[j], actions[j].s);
    if v.req.ref == w.req.ref {
      OneWinnerPerRevision(start, LogOf(states, actions, |actions|), states[|actions|].db,
                           |LogOf(states, actions, i)|, |LogOf(states, actions, j)|);
    }
  }

  predicate ActsFor(a: Action, s: nat) {
    !a.Create? && a.s == s
  }

  /** A session whose UPDATE found a stale revision is over: the failed step changes neither
      database nor log, and until the session begins anew it takes no step at all, so it
      leaves no entry, no audit event and no decision. */
  lemma {:induction false} StaleWriterLeavesNoTrace(start: Database, states: seq<State>, actions: seq<Action>, i: nat, j: nat)
    requires IsRun(start, states, actions) && i < j <= |actions|
    requires actions[i].Update? && At(states[i], actions[i].s).Checked?
    requires !Enabled(states[i].db, At(states[i], actions[i].s).req)
    requires forall k :: i < k < j ==> !(actions[k].Begin? && actions[k].s == actions[i].s)
    ensures states[i + 1].db == states[i].db && LogOf(states, actions, i + 1) == LogOf(states, actions, i)
    ensures At(states[j], actions[i].s).Idle?
    ensures forall k :: i < k < j ==> !ActsFor(actions[k], actions[i].s)
    decreases j
  {
    assert Next(states[j - 1], actions[j - 1], states[j]);
    if j == i + 1 {
    } else {
      StaleWriterLeavesNoTrace(start, states, actions, i, j - 1);
    }
  }

  /** Nothing but a commit or a new row alters the database. */
  lemma OnlyCommitsChange(start: Database, states: seq<State>, actions: seq<Action>, k: nat)
    requires IsRun(start, states, actions) && k < |actions| && states[k + 1].db != states[k].db
    ensures actions[k].Create? || actions[k].Commit?
  {
    assert Next(states[k], actions[k], states[k + 1]);
  }

  /** The unique constraint on (row, revision) is never the one to stop a session. */
  lemma ConstraintNeverFires(start: Database, log: seq<Event>, st: State, s: nat)
    requires Inv(start, log, st) && At(st, s).Updated?
    ensures (At(st, s).req.ref, At(st, s).req.expected + 1) !in st.db.history
  {
    assert Pending(st.db, At(st, s));
    assert NumberedAt(st.db, At(st, s).req.ref);
  }

  /** Inside its transaction the handler's `history(limit=1)` finds the entry it just wrote. */
  lemma OwnEntryIsNewest(start: Database, log: seq<Event>, st: State, s: nat)
    requires Inv(start, log, st) && (At(st, s).Inserted? || At(st, s).Audited?)
    ensures var w := At(st, s);
            && Newest(Written(st, s).history, w.req.ref, w.req.organization, w.req.expected + 1)
            && Written(st, s).history[(w.req.ref, w.req.expected + 1)] == w.entry
  {
    assert Pending(st.db, At(st, s));
    assert NumberedAt(st.db, At(st, s).req.ref);
  }

  ghost predicate Steps(states: seq<State>, actions: seq<Action>) {
    && |states| == |actions| + 1
    && forall i :: 0 <= i < |actions| ==> Next(states[i], actions[i], states[i + 1])
  }

  /** A way for session `s`, moving alone, from `st` to the atomic decision. */
  ghost predicate CommitsAlone(st: State, s: nat, req: Request, id: nat, states: seq<State>, actions: seq<Action>) {
    && Steps(states, actions) && states[0] == st && Enabled(st.db, req)
    && (forall i :: 0 <= i < |actions| ==> ActsFor(actions[i], s))
    && states[|actions|].db == Decide(st.db, req, id)
  }

  lemma StepFirst(st: State, s: nat, req: Request, id: nat, a: Action, next: State, states: seq<State>, actions: seq<Action>)
    requires Next(st, a, next) && ActsFor(a, s) && next.db == st.db && CommitsAlone(next, s, req, id, states, actions)
    ensures CommitsAlone(st, s, req, id, [st] + states, [a] + actions)
  {
    var more, acts := [st] + states, [a] + actions;
    forall i | 0 <= i < |acts| ensures Next(more[i], acts[i], more[i + 1]) && ActsFor(acts[i], s) {
      if i > 0 {
        assert more[i] == states[i - 1] && acts[i] == actions[i - 1] && more[i + 1] == states[i];
      }
    }
    assert more[|acts|] == states[|actions|];
  }

  lemma CommitNow(start: Database, log: seq<Event>, st: State, s: nat) returns (states: seq<State>, actions: seq<Action>)
    requires Inv(start, log, st) && CanCommit(At(st, s))
    ensures CommitsAlone(st, s, At(st, s).req, At(st, s).entry.id, states, actions)
  {
    assert Pending(st.db, At(st, s));
    CommitIsDecide(st.db, st, s);
    var st' := Put(st, s, Idle).(db := Written(st, s));
    states, actions := [st, st'], [Commit(s)];
    assert Next(states[0], actions[0], states[1]);
  }

  lemma AuditThenCommit(start: Database, log: seq<Event>, st: State, s: nat) returns (states: seq<State>, actions: seq<Action>)
    requires Inv(start, log, st) && (At(st, s).Inserted? || At(st, s).Audited?)
    ensures CommitsAlone(st, s, At(st, s).req, At(st, s).entry.id, states, actions)
  {
    var w := At(st, s);
    if CanCommit(w) {
      states, actions := CommitNow(start, log, st, s);
    } else {
      var st' := Put(st, s, Audited(w.req, w.row, w.entry, Audit(w.req.ref, w.req.expected + 1, w.entry.id, w.entry.status)));
      assert Next(st, RecordAudit(s), st');
      StepKeepsInv(start, log, st, RecordAudit(s), st');
      states, actions := CommitNow(start, log, st', s);
      StepFirst(st, s, w.req, w.entry.id, RecordAudit(s), st', states, actions);
      states, actions := [st] + states, [RecordAudit(s)] + actions;
    }
  }

  /** No deadlock: in every reachable state, whoever holds a row lock can go on alone to its
      commit, which is the atomic decision it asked for. */
  lemma LockHolderCanCommit(start: Database, log: seq<Event>, st: State, s: nat, ref: Ref, newId: nat)
    returns (id: nat, states: seq<State>, actions: seq<Action>)
    requires Inv(start, log, st) && At(st, s).Locks(ref)
    ensures CommitsAlone(st, s, At(st, s).req, id, states, actions) && (At(st, s).Updated? ==> id == newId)
  {
    var w := At(st, s);
    if w.Updated? {
      assert Pending(st.db, w);
      ConstraintNeverFires(start, log, st, s);
      ExpectedIsPrior(st.db, w.req);
      var prior := EntryId(st.db, (w.req.ref, w.req.expected));
      var a := InsertEntry(s, newId, prior);
      var st' := Put(st, s, Inserted(w.req, w.row, NewEntry(w.req, newId, prior)));
      assert Next(st, a, st');
      StepKeepsInv(start, log, st, a, st');
      id := newId;
      states, actions := AuditThenCommit(start, log, st', s);
      StepFirst(st, s, w.req, id, a, st', states, actions);
      states, actions := [st] + states, [a] + actions;
    } else {
      id := w.entry.id;
      states, actions := AuditThenCommit(start, log, st, s);
    }
  }

  /** And no needless refusal: while nobody else holds the row, a request with the current
      revision can run through to its commit. */
  lemma UncontendedDecisionCommits(start: Database, log: seq<Event>, st: State, s: nat, req: Request, newId: nat)
    returns (states: seq<State>, actions: seq<Action>)
    requires Inv(start, log, st) && At(st, s).Idle? && Acceptable(st.db, req) && Enabled(st.db, req)
    requires !LockedByOther(st, s, req.ref)
    ensures CommitsAlone(st, s, req, newId, states, actions)
  {
    var begun := Put(st, s, Checked(req));
    var updated := Put(begun, s, Updated(req, NewRow(st.db.rows[req.ref], req)));
    assert Next(st, Begin(s, req), begun);
    StepKeepsInv(start, log, st, Begin(s, req), begun);
    assert !LockedByOther(begun, s, req.ref);
    assert Next(begun, Update(s), updated);
    StepKeepsInv(start, log, begun, Update(s), updated);
    var id;
    id, states, actions := LockHolderCanCommit(start, log, updated, s, req.ref, newId);
    StepFirst(begun, s, req, newId, Update(s), updated, states, actions);
    states, actions := [begun] + states, [Update(s)] + actions;
    StepFirst(st, s, req, newId, Begin(s, req), begun, states, actions);
    states, actions := [st] + states, [Begin(s, req)] + actions;
  }

  lemma ExpectedIsPrior(db: Database, req: Request)
    requires Numbered(db) && Enabled(db, req)
    ensures PriorIs(db, req.ref, req.organization, EntryId(db, (req.ref, req.expected)))
  {
    assert NumberedAt(db, req.ref);
    if (req.ref, req.expected) in db.history {
      assert Newest(db.history, req.ref, req.organization, req.expected);
    }
  }
}
