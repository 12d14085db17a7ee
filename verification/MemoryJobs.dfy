/** The in-memory store: ordered maps that the calls update without most of the database's guards. */
module MemoryJobs {
  import opened Prelude
  import opened Ordering
  import opened JobIds
  import opened JobRecords
  import opened JobRows
  import Runs

  type MemJob = Job<string>

  datatype Db = Db(
    sequence: nat, workers: map<string, Worker>, jobs: map<string, MemJob>, events: EventLog, containers: Containers)

  const EMPTY := Db(1, map[], map[], map[], map[])

  // ---------------------------------------------------------------- the first key of an ordered map

  ghost predicate IsLeast(s: set<string>, x: string) {
    x in s && forall y :: y in s ==> StrLe(x, y)
  }

  lemma {:induction false} LeastExists(s: set<string>) returns (x: string)
    requires s != {}
    ensures IsLeast(s, x)
  {
    var first :| first in s;
    var rest := s - {first};
    StrLeTotal(first, first);
    x := first;
    assert forall y :: y in s ==> y == first || y in rest;
    if rest != {} {
      var least := LeastExists(rest);
      StrLeTotal(first, least);
      x := if StrLe(first, least) then first else least;
      forall z | z in s ensures StrLe(x, z) {
        if z != first && x == first {
          assert z in rest;
          StrLeTransitive(first, least, z);
        }
      }
    }
  }

  lemma SomeLeast(s: set<string>)
    requires s != {}
    ensures exists x :: IsLeast(s, x)
  {
    var x := LeastExists(s);
  }

  lemma LeastUnique(s: set<string>, x: string, y: string)
    requires IsLeast(s, x) && IsLeast(s, y)
    ensures x == y
  {
    StrLeAntisymmetric(x, y);
  }

  ghost function Least(s: set<string>): (x: string)
    requires s != {}
    ensures IsLeast(s, x)
  {
    SomeLeast(s);
    var x :| IsLeast(s, x);
    x
  }

  // ---------------------------------------------------------------- the calls

  function TableOf(db: Db): Table<string> { Table(db.jobs, db.events) }

  function PutRow(db: Db, id: string, job: MemJob, more: seq<Event>): Db {
    var t := Put(TableOf(db), id, job, more);
    db.(jobs := t.jobs, events := t.events)
  }

  function SubmitJob(db: Db, id: string, request: Request): Db {
    PutRow(db, id, Job(request, 0, Queued, "", false, []), [Event(Queued, "job queued")])
  }

  function CancelJob(db: Db, id: string, reason: string): Db {
    if id in db.jobs then
      PutRow(db, id, db.jobs[id].(status := Cancelled, finished := true), [Event(Cancelled, reason)])
    else
      db
  }

  predicate Accepts(db: Db, cid: string, c: Container) {
    && c.worker in db.workers && db.workers[c.worker] == Worker(c.region, c.pool)
    && (cid in db.containers ==> BindingOf(db.containers[cid]) == BindingOf(c))
  }

  function RegisterContainer(db: Db, cid: string, c: Container): Db {
    if Accepts(db, cid, c) then db.(containers := db.containers[cid := c]) else db
  }

  function SwitchWorkspace(db: Db, cid: string, worker: string, workspace: string): Db {
    if cid in db.containers && db.containers[cid].worker == worker && db.containers[cid].status == "active" then
      db.(containers := db.containers[cid := Assign(db.containers[cid], workspace)])
    else
      db
  }

  function Candidates(jobs: map<string, MemJob>, region: string, pool: string): set<string> {
    set id | id in jobs && jobs[id].status == Queued && jobs[id].request.region == region && jobs[id].request.pool == pool
  }

  function CandidatesFor(jobs: map<string, MemJob>, region: string, pool: string, c: Container): set<string> {
    set id | id in Candidates(jobs, region, pool)
             && jobs[id].request.tenant == c.tenant && jobs[id].request.user == c.user
  }

  function Take(db: Db, id: string, worker: string, events: seq<Event>): Db
    requires id in db.jobs
  {
    PutRow(db, id, db.jobs[id].(status := Running, worker := worker), events)
  }

  ghost function ClaimJob(db: Db, worker: string, region: string, pool: string): Db {
    var found := Candidates(db.jobs, region, pool);
    if worker in db.workers && found != {} then
      Take(db, Least(found), worker, [Event(Running, "job claimed by worker")])
    else
      db
  }

  predicate Available(db: Db, worker: string, region: string, pool: string, cid: string) {
    && cid in db.containers && db.containers[cid].worker == worker && db.containers[cid].region == region
    && db.containers[cid].pool == pool && db.containers[cid].status == "active"
  }

  function TakeFor(db: Db, id: string, worker: string, cid: string): Db
    requires id in db.jobs && cid in db.containers
  {
    var workspace := db.jobs[id].request.workspace;
    var c := db.containers[cid];
    Take(db, id, worker, ClaimEvents(workspace != c.workspace)).(containers := db.containers[cid := Assign(c, workspace)])
  }

  ghost function ClaimJobFor(db: Db, worker: string, region: string, pool: string, cid: string): Db {
    if worker in db.workers && Available(db, worker, region, pool, cid) then
      var found := CandidatesFor(db.jobs, region, pool, db.containers[cid]);
      if found != {} then TakeFor(db, Least(found), worker, cid) else db
    else
      db
  }

  predicate Owns(db: Db, id: string, worker: string) { id in db.jobs && db.jobs[id].worker == worker }

  function HeartbeatJob(db: Db, id: string, worker: string, message: string): Db {
    if Owns(db, id, worker) then PutRow(db, id, db.jobs[id], [Event(db.jobs[id].status, message)]) else db
  }

  function CompleteJob(db: Db, id: string, worker: string, status: Status, message: string, artifacts: seq<Artifact>): Db
  {
    if Owns(db, id, worker) then
      PutRow(db, id, db.jobs[id].(status := status, finished := true, artifacts := db.jobs[id].artifacts + artifacts),
          [Event(status, message)])
    else
      db
  }

  // ---------------------------------------------------------------- runs

  datatype World = World(db: Db, pending: set<string>)

  /** One handler call, under the same rules for identifiers and completion statuses as in the database;
      a registration always starts at generation one. */
  ghost function Next(w: World, op: Op): World {
    match op
    case IssueId => World(w.db.(sequence := w.db.sequence + 1), w.pending + {JobId(w.db.sequence)})
    case Submit(id, request, now) =>
      if id in w.pending then World(SubmitJob(w.db, id, request), w.pending - {id}) else w
    case Complete(id, worker, status, message, artifacts) =>
      if Terminal(status) then w.(db := CompleteJob(w.db, id, worker, status, message, artifacts)) else w
    case Cancel(id, reason) => w.(db := CancelJob(w.db, id, reason))
    case RegisterWorker(worker, region, pool) =>
      w.(db := w.db.(workers := w.db.workers[worker := Worker(region, pool)]))
    case RegisterContainer(cid, c) => w.(db := RegisterContainer(w.db, cid, c.(generation := 1)))
    case Switch(cid, worker, workspace) => w.(db := SwitchWorkspace(w.db, cid, worker, workspace))
    case Claim(worker, region, pool) => w.(db := ClaimJob(w.db, worker, region, pool))
    case ClaimFor(worker, region, pool, cid) => w.(db := ClaimJobFor(w.db, worker, region, pool, cid))
    case Heartbeat(id, worker, message) => w.(db := HeartbeatJob(w.db, id, worker, message))
  }

  ghost predicate IsRun(ws: seq<World>, ops: seq<Op>) {
    Runs.IsRun(Next, World(EMPTY, {}), ws, ops)
  }

  // ---------------------------------------------------------------- what holds of a job

  /** Once the log has left queued it never says queued again. */
  ghost predicate NeverRequeued(events: seq<Event>) {
    forall i, j :: 0 <= i < j < |events| && events[j].status == Queued ==> events[i].status == Queued
  }

  ghost predicate RowOk(job: MemJob, events: seq<Event>) {
    && |events| > 0 && job.status == events[|events| - 1].status
    && NeverRequeued(events)
    && (job.status == Queued || job.status == Running || Terminal(job.status))
    && (job.finished <==> Terminal(job.status))
  }

  /** The ways in which a call changes a row: it is claimed, reports, or is given a terminal status. */
  ghost predicate Moves(job: MemJob, job': MemJob, more: seq<Event>) {
    || (&& job.status == Queued && job' == job.(status := Running, worker := job'.worker)
        && |more| > 0 && AllRunning(more))
    || (job' == job && |more| == 1 && more[0].status == job.status)
    || (&& Terminal(job'.status) && |more| == 1 && more[0].status == job'.status
        && job' == job.(status := job'.status, finished := true, artifacts := job'.artifacts))
  }

  ghost predicate Later(job: MemJob, events: seq<Event>, job': MemJob, events': seq<Event>) {
    && job'.request == job.request && events <= events'
    && (job.status != Queued ==> job'.status != Queued && job'.worker == job.worker)
    && (Terminal(job.status) ==> Terminal(job'.status))
  }

  predicate Starts(job: MemJob) { job.status == Queued }

  ghost function RULES(): Rules<string> { Rules(RowOk, Starts, Moves, Later) }

  lemma MoveKeepsRow(job: MemJob, events: seq<Event>, job': MemJob, more: seq<Event>)
    requires RowOk(job, events) && Moves(job, job', more)
    ensures RowOk(job', events + more) && Later(job, events, job', events + more)
    ensures job'.status == Running ==> job.status == Running || Claimed(job, job')
  {
    var all := events + more;
    assert forall i :: |events| <= i < |all| ==> all[i] == more[i - |events|];
    assert all[|all| - 1] == more[|more| - 1];
    forall i, j | 0 <= i < j < |all| && all[j].status == Queued ensures all[i].status == Queued {
      if j >= |events| {
        assert all[j].status == job'.status && job.status == Queued;
        assert i < |events| ==> i == |events| - 1 || events[i].status == Queued;
      }
    }
  }

  lemma RulesAreLawful()
    ensures Lawful(RULES())
  {
    var r := RULES();
    forall job, events, job', more ensures Keeps(r, job, events, job', more) {
      if RowOk(job, events) && Moves(job, job', more) {
        MoveKeepsRow(job, events, job', more);
      }
    }
    forall a, x, b, y, c, z ensures Composes(r, a, x, b, y, c, z) {
      if Later(a, x, b, y) && Later(b, y, c, z) {
        assert x <= z;
      }
    }
  }

  ghost predicate Inv(w: World) {
    Rows(RULES(), TableOf(w.db)) && Ids(w.db.jobs.Keys, w.pending, w.db.sequence)
  }

  /** What a call that neither draws nor submits an identifier does to the tables. */
  ghost predicate Moderate(d: Db, d': Db) {
    && Rows(RULES(), TableOf(d')) && Evolve(RULES(), TableOf(d), TableOf(d'))
    && d'.jobs.Keys == d.jobs.Keys && d'.sequence == d.sequence
  }

  lemma Untouched(d: Db, d': Db)
    requires Rows(RULES(), TableOf(d)) && d'.jobs == d.jobs && d'.events == d.events && d'.sequence == d.sequence
    ensures Moderate(d, d')
  {
    RowsSame(RULES(), TableOf(d));
  }

  lemma Moved(d: Db, id: string, job: MemJob, more: seq<Event>, d': Db)
    requires Rows(RULES(), TableOf(d)) && id in d.jobs && Moves(d.jobs[id], job, more)
    requires TableOf(d') == Put(TableOf(d), id, job, more) && d'.sequence == d.sequence
    ensures Moderate(d, d')
  {
    RulesAreLawful();
    PutKeeps(RULES(), TableOf(d), id, job, more);
  }

  lemma SubmitKeepsRows(d: Db, id: string, request: Request)
    requires Rows(RULES(), TableOf(d)) && id !in d.jobs
    ensures var d' := SubmitJob(d, id, request);
            && Rows(RULES(), TableOf(d')) && Evolve(RULES(), TableOf(d), TableOf(d'))
            && d'.jobs.Keys == d.jobs.Keys + {id} && d'.sequence == d.sequence
  {
    InsertKeeps(RULES(), TableOf(d), id, Job(request, 0, Queued, "", false, []), Event(Queued, "job queued"));
  }

  /** What a claim through a worker takes: the first matching key, if there is one. */
  lemma ClaimTakes(d: Db, worker: string, region: string, pool: string)
    ensures var d' := ClaimJob(d, worker, region, pool); var found := Candidates(d.jobs, region, pool);
            if worker in d.workers && found != {} then
              && Least(found) in d.jobs && d.jobs[Least(found)].status == Queued
              && d' == Take(d, Least(found), worker, [Event(Running, "job claimed by worker")])
            else d' == d
  {
  }

  lemma ClaimKeeps(d: Db, worker: string, region: string, pool: string)
    requires Rows(RULES(), TableOf(d))
    ensures Moderate(d, ClaimJob(d, worker, region, pool))
  {
    var d' := ClaimJob(d, worker, region, pool);
    ClaimTakes(d, worker, region, pool);
    if d' == d {
      Untouched(d, d');
    } else {
      var id := Least(Candidates(d.jobs, region, pool));
      Moved(d, id, d'.jobs[id], [Event(Running, "job claimed by worker")], d');
    }
  }

  lemma ClaimForTakes(d: Db, worker: string, region: string, pool: string, cid: string)
    ensures var d' := ClaimJobFor(d, worker, region, pool, cid);
            if && worker in d.workers && Available(d, worker, region, pool, cid)
               && CandidatesFor(d.jobs, region, pool, d.containers[cid]) != {} then
              var id := Least(CandidatesFor(d.jobs, region, pool, d.containers[cid]));
              && id in d.jobs && d.jobs[id].status == Queued && d' == TakeFor(d, id, worker, cid)
              && d.jobs[id].request.tenant == d.containers[cid].tenant
              && d.jobs[id].request.user == d.containers[cid].user
            else d' == d
  {
  }

  lemma ClaimForKeeps(d: Db, worker: string, region: string, pool: string, cid: string)
    requires Rows(RULES(), TableOf(d))
    ensures Moderate(d, ClaimJobFor(d, worker, region, pool, cid))
  {
    var d' := ClaimJobFor(d, worker, region, pool, cid);
    ClaimForTakes(d, worker, region, pool, cid);
    if d' == d {
      Untouched(d, d');
    } else {
      var id := Least(CandidatesFor(d.jobs, region, pool, d.containers[cid]));
      var switched := d.jobs[id].request.workspace != d.containers[cid].workspace;
      Moved(d, id, d'.jobs[id], ClaimEvents(switched), d');
    }
  }

  lemma EndKeeps(w: World, op: Op)
    requires Rows(RULES(), TableOf(w.db)) && (op.Cancel? || op.Heartbeat? || op.Complete?)
    ensures Moderate(w.db, Next(w, op).db)
  {
    var d' := Next(w, op).db;
    if d' == w.db {
      Untouched(w.db, d');
    } else {
      var event := match op
        case Cancel(_, reason) => Event(Cancelled, reason)
        case Heartbeat(_, _, message) => Event(w.db.jobs[op.id].status, message)
        case Complete(_, _, status, message, _) => Event(status, message);
      Moved(w.db, op.id, d'.jobs[op.id], [event], d');
    }
  }

  lemma NextKeeps(w: World, op: Op)
    requires Inv(w)
    ensures Inv(Next(w, op)) && Evolve(RULES(), TableOf(w.db), TableOf(Next(w, op).db))
  {
    match op
    case IssueId =>
      IssueKeepsIds(w.db.jobs.Keys, w.pending, w.db.sequence);
      RowsSame(RULES(), TableOf(w.db));
    case Submit(id, request, now) =>
      if id in w.pending {
        SubmitKeepsIds(w.db.jobs.Keys, w.pending, w.db.sequence, id);
        SubmitKeepsRows(w.db, id, request);
      } else {
        RowsSame(RULES(), TableOf(w.db));
      }
    case Cancel(_, _) => EndKeeps(w, op);
    case Heartbeat(_, _, _) => EndKeeps(w, op);
    case Complete(_, _, _, _, _) => EndKeeps(w, op);
    case Claim(worker, region, pool) => ClaimKeeps(w.db, worker, region, pool);
    case ClaimFor(worker, region, pool, cid) => ClaimForKeeps(w.db, worker, region, pool, cid);
    case _ => Untouched(w.db, Next(w, op).db);
  }

  lemma StepKeeps(ws: seq<World>, ops: seq<Op>, i: nat)
    requires IsRun(ws, ops) && i < |ops| && Inv(ws[i])
    ensures Inv(ws[i + 1]) && Evolve(RULES(), TableOf(ws[i].db), TableOf(ws[i + 1].db))
  {
    assert Runs.Follows(Next, ws, ops, i);
    NextKeeps(ws[i], ops[i]);
  }

  // ---------------------------------------------------------------- jobs over every run

  lemma {:induction false} RunInv(ws: seq<World>, ops: seq<Op>, n: nat)
    requires IsRun(ws, ops) && n < |ws|
    ensures Inv(ws[n])
  {
    if n > 0 {
      RunInv(ws, ops, n - 1);
      StepKeeps(ws, ops, n - 1);
    }
  }

  /** The tables along a run. */
  ghost function Tables(ws: seq<World>): (ts: seq<Table<string>>)
    ensures |ts| == |ws| && forall i :: 0 <= i < |ws| ==> ts[i] == TableOf(ws[i].db)
  {
    seq(|ws|, i requires 0 <= i < |ws| => TableOf(ws[i].db))
  }

  lemma RunHistory(ws: seq<World>, ops: seq<Op>)
    requires IsRun(ws, ops)
    ensures History(RULES(), Tables(ws))
  {
    var ts := Tables(ws);
    forall i ensures StepAt(RULES(), ts, i) {
      if 0 <= i < |ws| {
        RunInv(ws, ops, i);
        if i < |ws| - 1 {
          StepKeeps(ws, ops, i);
        }
      }
    }
  }

  /** In every reachable state a job's last event has the job's status, and queued events come first. */
  lemma LastEventIsStatus(ws: seq<World>, ops: seq<Op>, n: nat, id: string)
    requires IsRun(ws, ops) && n < |ws| && id in ws[n].db.jobs
    ensures id in ws[n].db.events && |ws[n].db.events[id]| > 0
    ensures ws[n].db.events[id][|ws[n].db.events[id]| - 1].status == ws[n].db.jobs[id].status
    ensures NeverRequeued(ws[n].db.events[id])
  {
    RunInv(ws, ops, n);
    assert RowAt(RULES(), TableOf(ws[n].db), id);
  }

  /** From any point of a run to any later one: a job that is no longer queued never becomes queued again
      and keeps its owner, and a job that has ended stays ended (though not with the same outcome). */
  lemma JobsOnlyMoveOn(ws: seq<World>, ops: seq<Op>, k: nat, n: nat, id: string)
    requires IsRun(ws, ops) && k <= n < |ws| && id in ws[k].db.jobs
    ensures id in ws[k].db.events && id in ws[n].db.jobs && id in ws[n].db.events
    ensures Later(ws[k].db.jobs[id], ws[k].db.events[id], ws[n].db.jobs[id], ws[n].db.events[id])
  {
    RulesAreLawful();
    RunHistory(ws, ops);
    LaterRun(RULES(), Tables(ws), k, n, id);
    assert LaterAt(RULES(), TableOf(ws[k].db), TableOf(ws[n].db), id);
  }

  ghost predicate HasStatus(d: Db, id: string, status: Status) { id in d.jobs && d.jobs[id].status == status }

  lemma ClaimStep(d: Db, d': Db, id: string)
    requires Rows(RULES(), TableOf(d)) && Evolve(RULES(), TableOf(d), TableOf(d'))
    ensures HasStatus(d', id, Running) ==> HasStatus(d, id, Running) || Claims(TableOf(d), TableOf(d'), id)
    ensures id in d.jobs && !HasStatus(d, id, Queued) ==> id in d'.jobs && !HasStatus(d', id, Queued)
  {
    assert Evolves(RULES(), TableOf(d), TableOf(d'), id);
    if id in d.jobs {
      assert RowAt(RULES(), TableOf(d), id);
      if d'.jobs[id] != d.jobs[id] {
        MoveKeepsRow(d.jobs[id], d.events[id], d'.jobs[id], d'.events[id][|d.events[id]|..]);
      }
    }
  }

  /** No job is claimed twice; a claimed job is no longer queued, and a running one was claimed. */
  lemma {:induction false} ClaimedAtMostOnce(ws: seq<World>, ops: seq<Op>, n: nat, id: string)
    requires IsRun(ws, ops) && n < |ws|
    ensures ClaimCount(Tables(ws), n, id) <= 1
    ensures ClaimCount(Tables(ws), n, id) == 1 ==> id in ws[n].db.jobs && !HasStatus(ws[n].db, id, Queued)
    ensures HasStatus(ws[n].db, id, Running) ==> ClaimCount(Tables(ws), n, id) == 1
  {
    if n > 0 {
      ClaimedAtMostOnce(ws, ops, n - 1, id);
      RunInv(ws, ops, n - 1);
      StepKeeps(ws, ops, n - 1);
      ClaimStep(ws[n - 1].db, ws[n].db, id);
    }
  }

  // ---------------------------------------------------------------- what a claim may take

  /** A queued job of the region and pool that the call names, by a known worker; for a claim through a container also one
      of the container's tenant and user, where the container is active, the worker's own, and of that region and pool. */
  ghost predicate Fits(d: Db, op: Op, id: string) {
    && (op.Claim? || op.ClaimFor?) && op.worker in d.workers && id in d.jobs && d.jobs[id].status == Queued
    && d.jobs[id].request.region == op.region && d.jobs[id].request.pool == op.pool
    && (op.ClaimFor? ==>
          && op.container in d.containers && var c := d.containers[op.container];
             && c.worker == op.worker && c.status == "active" && c.region == op.region && c.pool == op.pool
             && c.tenant == d.jobs[id].request.tenant && c.user == d.jobs[id].request.user)
  }

  /** The job fits, and no job that fits comes before it in the order of the map. */
  ghost predicate FirstFit(d: Db, op: Op, id: string) {
    Fits(d, op, id) && forall other :: Fits(d, op, other) ==> StrLe(id, other)
  }

  lemma ClaimFits(d: Db, op: Op, id: string)
    requires op.Claim?
    ensures Claims(TableOf(d), TableOf(ClaimJob(d, op.worker, op.region, op.pool)), id) <==> FirstFit(d, op, id)
  {
    var found := Candidates(d.jobs, op.region, op.pool);
    ClaimTakes(d, op.worker, op.region, op.pool);
    assert op.worker in d.workers ==> forall other :: Fits(d, op, other) <==> other in found;
    if FirstFit(d, op, id) {
      LeastUnique(found, id, Least(found));
    }
  }

  lemma ClaimForFits(d: Db, op: Op, id: string)
    requires op.ClaimFor?
    ensures Claims(TableOf(d), TableOf(ClaimJobFor(d, op.worker, op.region, op.pool, op.container)), id) <==> FirstFit(d, op, id)
  {
    ClaimForTakes(d, op.worker, op.region, op.pool, op.container);
    if op.worker in d.workers && Available(d, op.worker, op.region, op.pool, op.container) {
      var found := CandidatesFor(d.jobs, op.region, op.pool, d.containers[op.container]);
      assert forall other :: Fits(d, op, other) <==> other in found;
      if FirstFit(d, op, id) {
        LeastUnique(found, id, Least(found));
      }
    }
  }

  lemma OthersClaimNothing(w: World, op: Op, id: string)
    requires !op.Claim? && !op.ClaimFor? && Inv(w)
    ensures !Claims(TableOf(w.db), TableOf(Next(w, op).db), id)
  {
  }

  /** Along every run: a step claims a job exactly when it is a claim and the job is the first that fits. The worker then
      owns it. */
  lemma ClaimsExactly(ws: seq<World>, ops: seq<Op>, i: nat, id: string)
    requires IsRun(ws, ops) && i < |ops|
    ensures Claims(TableOf(ws[i].db), TableOf(ws[i + 1].db), id) <==> FirstFit(ws[i].db, ops[i], id)
    ensures Claims(TableOf(ws[i].db), TableOf(ws[i + 1].db), id) ==> ws[i + 1].db.jobs[id].worker == ops[i].worker
  {
    assert Runs.Follows(Next, ws, ops, i);
    match ops[i]
    case Claim(worker, region, pool) =>
      ClaimTakes(ws[i].db, worker, region, pool);
      ClaimFits(ws[i].db, ops[i], id);
    case ClaimFor(worker, region, pool, cid) =>
      ClaimForTakes(ws[i].db, worker, region, pool, cid);
      ClaimForFits(ws[i].db, ops[i], id);
    case _ =>
      RunInv(ws, ops, i);
      OthersClaimNothing(ws[i], ops[i], id);
  }

  // ---------------------------------------------------------------- which job a claim takes

  /** The job that a claim takes has the smallest sequence number of all those it could take. */
  ghost predicate TakesSmallest(found: set<string>, id: string) {
    exists k: nat {:trigger JobId(k)} ::
      id == JobId(k) && id in found && forall m: nat {:trigger JobId(m)} :: JobId(m) in found ==> k <= m
  }

  lemma LeastIsSmallest(used: set<string>, pending: set<string>, sequence: nat, found: set<string>)
    requires Ids(used, pending, sequence) && found <= used && found != {} && sequence <= 1_000_000_000_000
    ensures TakesSmallest(found, Least(found))
  {
    var id := Least(found);
    assert Issued(id, sequence);
    var k: nat :| k < sequence && id == JobId(k);
    forall m: nat | JobId(m) in found ensures k <= m {
      assert Issued(JobId(m), sequence);
      var m': nat :| m' < sequence && JobId(m) == JobId(m');
      JobIdInjective(m, m');
      JobIdOrder(k, m);
    }
  }

  /** While fewer than 10^12 identifiers have been drawn, every claim takes the oldest matching job. */
  lemma ClaimTakesSmallest(ws: seq<World>, ops: seq<Op>, i: nat)
    requires IsRun(ws, ops) && i < |ops| && ops[i].Claim? && ops[i].worker in ws[i].db.workers
    requires ws[i].db.sequence <= 1_000_000_000_000
    ensures var found := Candidates(ws[i].db.jobs, ops[i].region, ops[i].pool);
            if found == {} then ws[i + 1] == ws[i]
            else exists id {:trigger TakesSmallest(found, id)} ::
                   TakesSmallest(found, id) && Claims(TableOf(ws[i].db), TableOf(ws[i + 1].db), id)
  {
    var d, found := ws[i].db, Candidates(ws[i].db.jobs, ops[i].region, ops[i].pool);
    assert Runs.Follows(Next, ws, ops, i);
    ClaimTakes(d, ops[i].worker, ops[i].region, ops[i].pool);
    if found != {} {
      RunInv(ws, ops, i);
      LeastIsSmallest(d.jobs.Keys, ws[i].pending, d.sequence, found);
      assert Claims(TableOf(d), TableOf(ws[i + 1].db), Least(found));
    }
  }

  lemma ClaimForTakesSmallest(ws: seq<World>, ops: seq<Op>, i: nat)
    requires IsRun(ws, ops) && i < |ops| && ops[i].ClaimFor? && ops[i].worker in ws[i].db.workers
    requires Available(ws[i].db, ops[i].worker, ops[i].region, ops[i].pool, ops[i].container)
    requires ws[i].db.sequence <= 1_000_000_000_000
    ensures var found := CandidatesFor(ws[i].db.jobs, ops[i].region, ops[i].pool, ws[i].db.containers[ops[i].container]);
            if found == {} then ws[i + 1] == ws[i]
            else exists id {:trigger TakesSmallest(found, id)} ::
                   TakesSmallest(found, id) && Claims(TableOf(ws[i].db), TableOf(ws[i + 1].db), id)
  {
    var d := ws[i].db;
    var found := CandidatesFor(d.jobs, ops[i].region, ops[i].pool, d.containers[ops[i].container]);
    assert Runs.Follows(Next, ws, ops, i);
    ClaimForTakes(d, ops[i].worker, ops[i].region, ops[i].pool, ops[i].container);
    if found != {} {
      RunInv(ws, ops, i);
      LeastIsSmallest(d.jobs.Keys, ws[i].pending, d.sequence, found);
      assert Claims(TableOf(d), TableOf(ws[i + 1].db), Least(found));
    }
  }

  /** The bound is sharp: with the next two identifiers waiting, a claim takes the later one. */
  lemma SmallestFailsBeyond(d: Db, worker: string, region: string, pool: string)
    requires worker in d.workers
    requires Candidates(d.jobs, region, pool) == {JobId(999_999_999_999), JobId(1_000_000_000_000)}
    ensures Claims(TableOf(d), TableOf(ClaimJob(d, worker, region, pool)), JobId(1_000_000_000_000))
  {
    var found := Candidates(d.jobs, region, pool);
    ClaimTakes(d, worker, region, pool);
    JobIdOrderEnds();
    assert Least(found) in found && StrLe(Least(found), JobId(1_000_000_000_000));
  }

  lemma Continue(ws: seq<World>, ops: seq<Op>, op: Op) returns (ws': seq<World>)
    requires IsRun(ws, ops)
    ensures ws' == ws + [Next(ws[|ops|], op)] && IsRun(ws', ops + [op])
  {
    ws' := ws + [Next(ws[|ops|], op)];
    forall i | 0 <= i < |ops + [op]| ensures Runs.Follows(Next, ws', ops + [op], i) {
      assert i < |ops| ==> Runs.Follows(Next, ws, ops, i);
    }
  }

  /** Identifiers can be drawn without end. */
  lemma {:induction false} DrawMany(n: nat) returns (ws: seq<World>, ops: seq<Op>)
    ensures IsRun(ws, ops) && |ops| == n && ws[n].db == EMPTY.(sequence := n + 1)
    ensures forall k: nat {:trigger JobId(k)} :: 1 <= k <= n ==> JobId(k) in ws[n].pending
  {
    if n == 0 {
      ws, ops := [World(EMPTY, {})], [];
    } else {
      ws, ops := DrawMany(n - 1);
      ws := Continue(ws, ops, IssueId);
      ops := ops + [IssueId];
    }
  }

  lemma SubmitBoth(w: World, a: string, b: string, request: Request, worker: string) returns (w1: World, w2: World, w3: World)
    requires w.db.jobs == map[] && a in w.pending && b in w.pending && a != b
    ensures w1 == Next(w, Submit(a, request, 0)) && w2 == Next(w1, Submit(b, request, 0))
    ensures w3 == Next(w2, RegisterWorker(worker, request.region, request.pool))
    ensures worker in w3.db.workers && Candidates(w3.db.jobs, request.region, request.pool) == {a, b}
  {
    w1 := Next(w, Submit(a, request, 0));
    w2 := Next(w1, Submit(b, request, 0));
    w3 := Next(w2, RegisterWorker(worker, request.region, request.pool));
    assert w3.db.jobs == map[a := Job(request, 0, Queued, "", false, []), b := Job(request, 0, Queued, "", false, [])];
  }

  lemma BothWait(request: Request, worker: string) returns (ws: seq<World>, ops: seq<Op>)
    ensures IsRun(ws, ops) && worker in ws[|ops|].db.workers
    ensures Candidates(ws[|ops|].db.jobs, request.region, request.pool) == {JobId(999_999_999_999), JobId(1_000_000_000_000)}
  {
    var a, b := JobId(999_999_999_999), JobId(1_000_000_000_000);
    if a == b {
      JobIdInjective(999_999_999_999, 1_000_000_000_000);
    }
    ws, ops := DrawMany(1_000_000_000_000);
    var w1, w2, w3 := SubmitBoth(ws[|ops|], a, b, request, worker);
    ws := Continue(ws, ops, Submit(a, request, 0));
    ops := ops + [Submit(a, request, 0)];
    ws := Continue(ws, ops, Submit(b, request, 0));
    ops := ops + [Submit(b, request, 0)];
    ws := Continue(ws, ops, RegisterWorker(worker, request.region, request.pool));
    ops := ops + [RegisterWorker(worker, request.region, request.pool)];
  }

  /** Such a run exists: after 10^12 draws two jobs wait, and a claim takes the later one. */
  lemma LaterJobTakenFirst(request: Request, worker: string) returns (ws: seq<World>, ops: seq<Op>)
    ensures IsRun(ws, ops) && |ops| >= 1 && ops[|ops| - 1] == Claim(worker, request.region, request.pool)
    ensures HasStatus(ws[|ops| - 1].db, JobId(999_999_999_999), Queued)
    ensures Claims(TableOf(ws[|ops| - 1].db), TableOf(ws[|ops|].db), JobId(1_000_000_000_000))
  {
    ws, ops := BothWait(request, worker);
    SmallestFailsBeyond(ws[|ops|].db, worker, request.region, request.pool);
    ws, ops := ClaimNext(ws, ops, worker, request.region, request.pool, JobId(999_999_999_999), JobId(1_000_000_000_000));
  }

  lemma ClaimNext(ws: seq<World>, ops: seq<Op>, worker: string, region: string, pool: string, a: string, b: string)
    returns (ws': seq<World>, ops': seq<Op>)
    requires IsRun(ws, ops) && a in Candidates(ws[|ops|].db.jobs, region, pool)
    requires Claims(TableOf(ws[|ops|].db), TableOf(ClaimJob(ws[|ops|].db, worker, region, pool)), b)
    ensures IsRun(ws', ops') && |ops'| >= 1 && ops'[|ops'| - 1] == Claim(worker, region, pool)
    ensures HasStatus(ws'[|ops'| - 1].db, a, Queued) && Claims(TableOf(ws'[|ops'| - 1].db), TableOf(ws'[|ops'|].db), b)
  {
    ws' := Continue(ws, ops, Claim(worker, region, pool));
    ops' := ops + [Claim(worker, region, pool)];
  }

  // ---------------------------------------------------------------- outcomes may change

  /** A call changes the status of a job that has ended exactly when it cancels the job, or completes it in
      the name of the recorded owner, with another outcome than the recorded one. */
  lemma OutcomeChangesExactly(w: World, op: Op, id: string)
    requires Inv(w) && id in w.db.jobs && Terminal(w.db.jobs[id].status)
    ensures id in Next(w, op).db.jobs
    ensures Next(w, op).db.jobs[id].status != w.db.jobs[id].status <==>
            || (op.Cancel? && op.id == id && w.db.jobs[id].status != Cancelled)
            || (op.Complete? && op.id == id && op.worker == w.db.jobs[id].worker && Terminal(op.status)
                && op.status != w.db.jobs[id].status)
  {
    match op
    case Claim(worker, region, pool) => ClaimTakes(w.db, worker, region, pool);
    case ClaimFor(worker, region, pool, cid) => ClaimForTakes(w.db, worker, region, pool, cid);
    case Submit(i, _, _) => assert i in w.pending ==> i != id;
    case _ =>
  }

  /** Such a run exists: a job that nobody claimed is completed in the empty name, then cancelled. */
  lemma OutcomeOverwritten(request: Request) returns (ws: seq<World>, ops: seq<Op>)
    ensures IsRun(ws, ops) && |ops| == 4
    ensures ClaimCount(Tables(ws), 4, JobId(1)) == 0
    ensures HasStatus(ws[2].db, JobId(1), Queued) && HasStatus(ws[3].db, JobId(1), Succeeded)
    ensures HasStatus(ws[4].db, JobId(1), Cancelled)
  {
    var id := JobId(1);
    ops := [IssueId, Submit(id, request, 0), Complete(id, "", Succeeded, "", []), Cancel(id, "")];
    ws := Runs.RunExists(Next, World(EMPTY, {}), ops);
    assert Runs.Follows(Next, ws, ops, 0);
    assert Runs.Follows(Next, ws, ops, 1);
    assert Runs.Follows(Next, ws, ops, 2);
    assert Runs.Follows(Next, ws, ops, 3);
    assert ClaimCount(Tables(ws), 1, id) == 0;
    assert ClaimCount(Tables(ws), 2, id) == 0;
    assert ClaimCount(Tables(ws), 3, id) == 0;
  }

  // ---------------------------------------------------------------- containers over every run

  /** A registration of the container that the store accepts. */
  ghost predicate Registers(d: Db, op: Op, cid: string) {
    op.RegisterContainer? && op.container == cid && Accepts(d, cid, op.record.(generation := 1))
  }

  /** One step keeps the binding. A registration resets the generation; any other step raises it exactly when
      it moves the container. */
  ghost predicate ContainerStep(d: Db, op: Op, d': Db, cid: string) {
    && BindingKept(d.containers, d'.containers, cid)
    && (cid in d'.containers ==>
          d'.containers[cid].generation ==
            if cid !in d.containers || Registers(d, op, cid) then 1
            else d.containers[cid].generation + if Relocated(d.containers, op, d'.containers, cid) then 1 else 0)
  }

  lemma SwitchSteps(d: Db, op: Op, cid: string)
    requires op.Switch?
    ensures ContainerStep(d, op, SwitchWorkspace(d, op.container, op.worker, op.workspace), cid)
  {
  }

  lemma RegisterSteps(d: Db, op: Op, cid: string)
    requires op.RegisterContainer?
    ensures ContainerStep(d, op, RegisterContainer(d, op.container, op.record.(generation := 1)), cid)
  {
  }

  lemma ClaimForSteps(d: Db, op: Op, cid: string)
    requires op.ClaimFor?
    ensures ContainerStep(d, op, ClaimJobFor(d, op.worker, op.region, op.pool, op.container), cid)
  {
    ClaimForTakes(d, op.worker, op.region, op.pool, op.container);
  }

  lemma NextContainer(w: World, op: Op, cid: string)
    ensures ContainerStep(w.db, op, Next(w, op).db, cid)
  {
    match op
    case Switch(_, _, _) => SwitchSteps(w.db, op, cid);
    case RegisterContainer(_, _) => RegisterSteps(w.db, op, cid);
    case ClaimFor(_, _, _, _) => ClaimForSteps(w.db, op, cid);
    case _ => assert Next(w, op).db.containers == w.db.containers;
  }

  lemma RunContainer(ws: seq<World>, ops: seq<Op>, i: nat, cid: string)
    requires IsRun(ws, ops) && i < |ops|
    ensures ContainerStep(ws[i].db, ops[i], ws[i + 1].db, cid)
  {
    assert Runs.Follows(Next, ws, ops, i);
    NextContainer(ws[i], ops[i], cid);
  }

  lemma BindingNeverChanges(ws: seq<World>, ops: seq<Op>, k: nat, n: nat, cid: string)
    requires IsRun(ws, ops) && k <= n < |ws| && cid in ws[k].db.containers
    ensures BindingKept(ws[k].db.containers, ws[n].db.containers, cid)
  {
    var cs := seq(|ws|, i requires 0 <= i < |ws| => ws[i].db.containers);
    forall i ensures BindingAt(cs, cid, i) {
      if 0 <= i < |ops| {
        RunContainer(ws, ops, i, cid);
      }
    }
    BindingRun(cs, k, n, cid);
  }

  /** The switches and claims that moved the container since its latest registration. */
  ghost function MovesSince(ws: seq<World>, ops: seq<Op>, n: nat, cid: string): nat
    requires n <= |ops| < |ws|
  {
    if n == 0 || Registers(ws[n - 1].db, ops[n - 1], cid) then 0 else
      MovesSince(ws, ops, n - 1, cid)
      + if Relocated(ws[n - 1].db.containers, ops[n - 1], ws[n].db.containers, cid) then 1 else 0
  }

  lemma {:induction false} GenerationCountsMoves(ws: seq<World>, ops: seq<Op>, n: nat, cid: string)
    requires IsRun(ws, ops) && n < |ws|
    ensures MovesSince(ws, ops, n, cid)
         == if cid in ws[n].db.containers then ws[n].db.containers[cid].generation - 1 else 0
  {
    if n > 0 {
      GenerationCountsMoves(ws, ops, n - 1, cid);
      RunContainer(ws, ops, n - 1, cid);
    }
  }

  ghost predicate Serves(d: Db, cid: string, id: string) {
    && cid in d.containers && id in d.jobs
    && d.jobs[id].request.tenant == d.containers[cid].tenant && d.jobs[id].request.user == d.containers[cid].user
    && d.jobs[id].worker == d.containers[cid].worker
  }

  /** A claim through a container matches the two and leaves the container on the job's workspace. */
  lemma ClaimServes(ws: seq<World>, ops: seq<Op>, i: nat, id: string)
    requires IsRun(ws, ops) && i < |ops| && ops[i].ClaimFor? && Claims(TableOf(ws[i].db), TableOf(ws[i + 1].db), id)
    ensures Serves(ws[i + 1].db, ops[i].container, id) && !HasStatus(ws[i + 1].db, id, Queued)
    ensures ws[i + 1].db.containers[ops[i].container].workspace == ws[i + 1].db.jobs[id].request.workspace
  {
    assert Runs.Follows(Next, ws, ops, i);
    ClaimForTakes(ws[i].db, ops[i].worker, ops[i].region, ops[i].pool, ops[i].container);
  }

  lemma ClaimServesForever(ws: seq<World>, ops: seq<Op>, i: nat, n: nat, id: string)
    requires IsRun(ws, ops) && i < n < |ws| && ops[i].ClaimFor? && Claims(TableOf(ws[i].db), TableOf(ws[i + 1].db), id)
    ensures Serves(ws[n].db, ops[i].container, id)
  {
    ClaimServes(ws, ops, i, id);
    JobsOnlyMoveOn(ws, ops, i + 1, n, id);
    BindingNeverChanges(ws, ops, i + 1, n, ops[i].container);
  }
}
