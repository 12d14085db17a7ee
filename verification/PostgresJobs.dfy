/** The job and compile-container tables: each store call is one atomic step. A claim takes a matching
    queued row; which one is an input, because rows locked elsewhere are skipped. */
module PostgresJobs {
  import opened Prelude
  import opened JobIds
  import opened JobRecords
  import opened JobRows
  import Runs

  type DbJob = Job<Option<string>>

  datatype Db = Db(
    sequence: nat, workers: map<string, Worker>, jobs: map<string, DbJob>, events: EventLog,
    containers: map<string, Container>)

  const EMPTY := Db(1, map[], map[], map[], map[])

  // ---------------------------------------------------------------- the calls

  function TableOf(db: Db): Table<Option<string>> { Table(db.jobs, db.events) }

  function WithTable(db: Db, t: Table<Option<string>>): Db { db.(jobs := t.jobs, events := t.events) }

  /** Writes one job row and appends to its log. */
  function PutRow(db: Db, id: string, job: DbJob, more: seq<Event>): Db { WithTable(db, Put(TableOf(db), id, job, more)) }

  /** The row that an insert leaves: a new row, or the old one reset in the listed columns. */
  function SubmittedRow(db: Db, id: string, request: Request, status: Status, now: int): DbJob {
    if id in db.jobs then
      var row := db.jobs[id];
      row.(request := row.request.(user := request.user, workspace := request.workspace),
           status := status, worker := None, finished := false)
    else
      Job(request, now, status, None, false, [])
  }

  function SubmitJob(db: Db, id: string, request: Request, status: Status, now: int): Db {
    PutRow(db, id, SubmittedRow(db, id, request, status, now), [Event(Queued, "job queued")])
  }

  function CancelJob(db: Db, id: string, reason: string): Db {
    if id in db.jobs && (db.jobs[id].status == Queued || db.jobs[id].status == Running) then
      PutRow(db, id, db.jobs[id].(status := Cancelled, finished := true), [Event(Cancelled, reason)])
    else
      db
  }

  predicate Registered(db: Db, worker: string, region: string, pool: string) {
    worker in db.workers && db.workers[worker] == Worker(region, pool)
  }

  predicate Accepts(db: Db, cid: string, c: Container) {
    && Registered(db, c.worker, c.region, c.pool)
    && (cid in db.containers ==> BindingOf(db.containers[cid]) == BindingOf(c))
  }

  function RegisterContainer(db: Db, cid: string, c: Container): Db {
    if !Accepts(db, cid, c) then db
    else if cid in db.containers then
      var row := db.containers[cid];
      db.(containers := db.containers[cid := row.(
        worker := c.worker, workspace := c.workspace, region := c.region, pool := c.pool, status := c.status,
        capacity := c.capacity)])
    else
      db.(containers := db.containers[cid := c.(generation := 1)])
  }

  function SwitchWorkspace(db: Db, cid: string, worker: string, workspace: string): Db {
    if cid in db.containers && db.containers[cid].worker == worker && db.containers[cid].status == "active" then
      db.(containers := db.containers[cid := Assign(db.containers[cid], workspace)])
    else
      db
  }

  predicate Candidate(db: Db, id: string, region: string, pool: string) {
    && id in db.jobs && db.jobs[id].status == Queued
    && db.jobs[id].request.region == region && db.jobs[id].request.pool == pool
  }

  function ClaimJob(db: Db, worker: string, region: string, pool: string, pick: Option<string>): Db {
    if pick.Some? && Registered(db, worker, region, pool) && Candidate(db, pick.value, region, pool) then
      PutRow(db, pick.value, db.jobs[pick.value].(status := Running, worker := Some(worker)),
          [Event(Running, "job claimed by worker")])
    else
      db
  }

  predicate Available(db: Db, worker: string, region: string, pool: string, cid: string) {
    && cid in db.containers && db.containers[cid].worker == worker && db.containers[cid].region == region
    && db.containers[cid].pool == pool && db.containers[cid].status == "active"
  }

  predicate CandidateFor(db: Db, id: string, region: string, pool: string, c: Container) {
    Candidate(db, id, region, pool) && db.jobs[id].request.tenant == c.tenant && db.jobs[id].request.user == c.user
  }

  function ClaimJobFor(db: Db, worker: string, region: string, pool: string, cid: string, pick: Option<string>): Db {
    if && pick.Some? && Registered(db, worker, region, pool) && Available(db, worker, region, pool, cid)
       && CandidateFor(db, pick.value, region, pool, db.containers[cid]) then
      var workspace := db.jobs[pick.value].request.workspace;
      var c := db.containers[cid];
      PutRow(db, pick.value, db.jobs[pick.value].(status := Running, worker := Some(worker)),
          ClaimEvents(workspace != c.workspace)).(
          containers := db.containers[cid := Assign(c, workspace)])
    else
      db
  }

  predicate Owns(db: Db, id: string, worker: string) {
    id in db.jobs && db.jobs[id].worker == Some(worker) && db.jobs[id].status == Running
  }

  function HeartbeatJob(db: Db, id: string, worker: string, message: string): Db {
    if Owns(db, id, worker) then PutRow(db, id, db.jobs[id], [Event(Running, message)]) else db
  }

  predicate DistinctIds(artifacts: seq<Artifact>) {
    forall i, j :: 0 <= i < j < |artifacts| ==> artifacts[i].id != artifacts[j].id
  }

  predicate HasArtifact(artifacts: seq<Artifact>, aid: string) {
    exists i :: 0 <= i < |artifacts| && artifacts[i].id == aid
  }

  /** Another job has an artifact with this id. The id is the key of the whole artifact table. */
  predicate Taken(jobs: map<string, DbJob>, id: string, aid: string) {
    exists other :: other in jobs && other != id && HasArtifact(jobs[other].artifacts, aid)
  }

  /** The artifacts can be inserted for the job, once its own are deleted. */
  predicate Storable(jobs: map<string, DbJob>, id: string, artifacts: seq<Artifact>) {
    DistinctIds(artifacts) && forall i :: 0 <= i < |artifacts| ==> !Taken(jobs, id, artifacts[i].id)
  }

  function CompleteJob(db: Db, id: string, worker: string, status: Status, message: string, artifacts: seq<Artifact>): Db
  {
    if Owns(db, id, worker) && Storable(db.jobs, id, artifacts) then
      PutRow(db, id, db.jobs[id].(status := status, finished := true, artifacts := artifacts), [Event(status, message)])
    else
      db
  }

  // ---------------------------------------------------------------- runs

  /** The tables and the identifiers that handlers have drawn but not yet submitted. */
  datatype World = World(db: Db, pending: set<string>)

  datatype Step = Step(op: Op, pick: Option<string>)

  /** One handler call. A handler submits only an identifier it has drawn, and only once, and refuses a
      completion whose status is not terminal. */
  function Next(w: World, step: Step): World {
    match step.op
    case IssueId => World(w.db.(sequence := w.db.sequence + 1), w.pending + {JobId(w.db.sequence)})
    case Submit(id, request, now) =>
      if id in w.pending then World(SubmitJob(w.db, id, request, Queued, now), w.pending - {id}) else w
    case Complete(id, worker, status, message, artifacts) =>
      if Terminal(status) then w.(db := CompleteJob(w.db, id, worker, status, message, artifacts)) else w
    case Cancel(id, reason) => w.(db := CancelJob(w.db, id, reason))
    case RegisterWorker(worker, region, pool) =>
      w.(db := w.db.(workers := w.db.workers[worker := Worker(region, pool)]))
    case RegisterContainer(cid, c) => w.(db := RegisterContainer(w.db, cid, c))
    case Switch(cid, worker, workspace) => w.(db := SwitchWorkspace(w.db, cid, worker, workspace))
    case Claim(worker, region, pool) => w.(db := ClaimJob(w.db, worker, region, pool, step.pick))
    case ClaimFor(worker, region, pool, cid) => w.(db := ClaimJobFor(w.db, worker, region, pool, cid, step.pick))
    case Heartbeat(id, worker, message) => w.(db := HeartbeatJob(w.db, id, worker, message))
  }

  /** The states of a run that starts with empty tables. */
  ghost predicate IsRun(ws: seq<World>, steps: seq<Step>) {
    Runs.IsRun(Next, World(EMPTY, {}), ws, steps)
  }

  // ---------------------------------------------------------------- what holds of a job

  /** Queued, then any number of running entries, then at most one terminal entry. */
  ghost predicate Lifecycle(events: seq<Event>) {
    && |events| > 0 && events[0].status == Queued
    && (forall i :: 1 <= i < |events| - 1 ==> events[i].status == Running)
    && (|events| > 1 ==> events[|events| - 1].status == Running || Terminal(events[|events| - 1].status))
  }

  ghost predicate RowOk(job: DbJob, events: seq<Event>) {
    && Lifecycle(events) && job.status == events[|events| - 1].status
    && (job.status == Queued <==> |events| == 1)
    && (job.worker == None ==> |events| <= 2 && job.status != Running)
    && (job.worker != None ==> |events| > 1 && events[1].status == Running)
    && (job.finished <==> Terminal(job.status))
  }

  /** How a row may develop. */
  ghost predicate Later(job: DbJob, events: seq<Event>, job': DbJob, events': seq<Event>) {
    && job'.request == job.request && job'.createdAt == job.createdAt
    && events <= events'
    && (job.worker != None ==> job'.worker == job.worker)
    && (job.status != Queued ==> job'.status != Queued)
    && (Terminal(job.status) ==> job' == job && events' == events)
  }

  /** The ways in which a call changes a row: it is claimed, reports, or ends. */
  ghost predicate Moves(job: DbJob, job': DbJob, more: seq<Event>) {
    || (&& job.status == Queued && job'.worker != None
        && job' == job.(status := Running, worker := job'.worker) && |more| > 0 && AllRunning(more))
    || (job.status == Running && job' == job && |more| > 0 && AllRunning(more))
    || (&& (job.status == Running || (job.status == Queued && job'.status == Cancelled)) && Terminal(job'.status)
        && job' == job.(status := job'.status, finished := true, artifacts := job'.artifacts)
        && |more| == 1 && more[0].status == job'.status)
  }

  predicate Starts(job: DbJob) { job.worker == None && job.status == Queued }

  ghost function RULES(): Rules<Option<string>> { Rules(RowOk, Starts, Moves, Later) }

  lemma MoveKeepsRow(job: DbJob, events: seq<Event>, job': DbJob, more: seq<Event>)
    requires RowOk(job, events) && Moves(job, job', more)
    ensures RowOk(job', events + more) && Later(job, events, job', events + more)
    ensures job'.worker != None <==> job.worker != None || Claimed(job, job')
    ensures Claimed(job, job') ==> job.worker == None
  {
    var all := events + more;
    assert forall i :: |events| <= i < |all| ==> all[i] == more[i - |events|];
    assert all[|all| - 1] == more[|more| - 1];
  }

  lemma RulesAreLawful()
    ensures Lawful(RULES())
  {
    var r := RULES();
    forall job, events, job', more ensures Keeps(r, job, events, job', more) {
      if RowOk(job, events) && Moves(job, job', more) {
        MoveKeepsRow(job, events, job', more);
      }
    }
    forall a, x, b, y, c, z ensures Composes(r, a, x, b, y, c, z) {
      if Later(a, x, b, y) && Later(b, y, c, z) {
        assert x <= z;
      }
    }
  }

  ghost predicate Inv(w: World) {
    Rows(RULES(), TableOf(w.db)) && Ids(w.db.jobs.Keys, w.pending, w.db.sequence)
  }

  /** What a call that neither draws nor submits an identifier does to the tables. */
  ghost predicate Moderate(d: Db, d': Db) {
    && Rows(RULES(), TableOf(d')) && Evolve(RULES(), TableOf(d), TableOf(d'))
    && d'.jobs.Keys == d.jobs.Keys && d'.sequence == d.sequence
  }

  lemma Untouched(d: Db, d': Db)
    requires Rows(RULES(), TableOf(d)) && d'.jobs == d.jobs && d'.events == d.events && d'.sequence == d.sequence
    ensures Moderate(d, d')
  {
    RowsSame(RULES(), TableOf(d));
  }

  lemma Moved(d: Db, id: string, job: DbJob, more: seq<Event>, d': Db)
    requires Rows(RULES(), TableOf(d)) && id in d.jobs && Moves(d.jobs[id], job, more)
    requires TableOf(d') == Put(TableOf(d), id, job, more) && d'.sequence == d.sequence
    ensures Moderate(d, d')
  {
    RulesAreLawful();
    PutKeeps(RULES(), TableOf(d), id, job, more);
  }

  lemma SubmitKeepsRows(d: Db, id: string, request: Request, now: int)
    requires Rows(RULES(), TableOf(d)) && id !in d.jobs
    ensures var d' := SubmitJob(d, id, request, Queued, now);
            && Rows(RULES(), TableOf(d')) && Evolve(RULES(), TableOf(d), TableOf(d'))
            && d'.jobs.Keys == d.jobs.Keys + {id} && d'.sequence == d.sequence
  {
    InsertKeeps(RULES(), TableOf(d), id, Job(request, now, Queued, None, false, []), Event(Queued, "job queued"));
  }

  lemma ClaimKeeps(d: Db, worker: string, region: string, pool: string, pick: Option<string>)
    requires Rows(RULES(), TableOf(d))
    ensures Moderate(d, ClaimJob(d, worker, region, pool, pick))
  {
    var d' := ClaimJob(d, worker, region, pool, pick);
    if d' == d {
      Untouched(d, d');
    } else {
      Moved(d, pick.value, d'.jobs[pick.value], [Event(Running, "job claimed by worker")], d');
    }
  }

  lemma ClaimForKeeps(d: Db, worker: string, region: string, pool: string, cid: string, pick: Option<string>)
    requires Rows(RULES(), TableOf(d))
    ensures Moderate(d, ClaimJobFor(d, worker, region, pool, cid, pick))
  {
    var d' := ClaimJobFor(d, worker, region, pool, cid, pick);
    if d' == d {
      Untouched(d, d');
    } else {
      var switched := d.jobs[pick.value].request.workspace != d.containers[cid].workspace;
      Moved(d, pick.value, d'.jobs[pick.value], ClaimEvents(switched), d');
    }
  }

  lemma EndKeeps(w: World, op: Op)
    requires Rows(RULES(), TableOf(w.db)) && (op.Cancel? || op.Heartbeat? || op.Complete?)
    ensures Moderate(w.db, Next(w, Step(op, None)).db)
  {
    var d' := Next(w, Step(op, None)).db;
    if d' == w.db {
      Untouched(w.db, d');
    } else {
      var event := match op
        case Cancel(_, reason) => Event(Cancelled, reason)
        case Heartbeat(_, _, message) => Event(Running, message)
        case Complete(_, _, status, message, _) => Event(status, message);
      Moved(w.db, op.id, d'.jobs[op.id], [event], d');
    }
  }

  lemma NextKeeps(w: World, step: Step)
    requires Inv(w)
    ensures Inv(Next(w, step)) && Evolve(RULES(), TableOf(w.db), TableOf(Next(w, step).db))
  {
    match step.op
    case IssueId =>
      IssueKeepsIds(w.db.jobs.Keys, w.pending, w.db.sequence);
      RowsSame(RULES(), TableOf(w.db));
    case Submit(id, request, now) =>
      if id in w.pending {
        SubmitKeepsIds(w.db.jobs.Keys, w.pending, w.db.sequence, id);
        SubmitKeepsRows(w.db, id, request, now);
      } else {
        RowsSame(RULES(), TableOf(w.db));
      }
    case Cancel(_, _) => EndKeeps(w, step.op);
    case Heartbeat(_, _, _) => EndKeeps(w, step.op);
    case Complete(_, _, _, _, _) => EndKeeps(w, step.op);
    case Claim(worker, region, pool) => ClaimKeeps(w.db, worker, region, pool, step.pick);
    case ClaimFor(worker, region, pool, cid) => ClaimForKeeps(w.db, worker, region, pool, cid, step.pick);
    case _ => Untouched(w.db, Next(w, step).db);
  }

  lemma StepKeeps(ws: seq<World>, steps: seq<Step>, i: nat)
    requires IsRun(ws, steps) && i < |steps| && Inv(ws[i])
    ensures Inv(ws[i + 1]) && Evolve(RULES(), TableOf(ws[i].db), TableOf(ws[i + 1].db))
  {
    assert Runs.Follows(Next, ws, steps, i);
    NextKeeps(ws[i], steps[i]);
  }

  // ---------------------------------------------------------------- jobs over every run

  lemma {:induction false} RunInv(ws: seq<World>, steps: seq<Step>, n: nat)
    requires IsRun(ws, steps) && n < |ws|
    ensures Inv(ws[n])
  {
    if n > 0 {
      RunInv(ws, steps, n - 1);
      StepKeeps(ws, steps, n - 1);
    }
  }

  /** The tables along a run. */
  ghost function Tables(ws: seq<World>): (ts: seq<Table<Option<string>>>)
    ensures |ts| == |ws| && forall i :: 0 <= i < |ws| ==> ts[i] == TableOf(ws[i].db)
  {
    seq(|ws|, i requires 0 <= i < |ws| => TableOf(ws[i].db))
  }

  lemma RunHistory(ws: seq<World>, steps: seq<Step>)
    requires IsRun(ws, steps)
    ensures History(RULES(), Tables(ws))
  {
    var ts := Tables(ws);
    forall i ensures StepAt(RULES(), ts, i) {
      if 0 <= i < |ws| {
        RunInv(ws, steps, i);
        if i < |ws| - 1 {
          StepKeeps(ws, steps, i);
        }
      }
    }
  }

  /** In every reachable state every job's log is queued, running*, at most one terminal entry, and the
      row agrees with it. */
  lemma EventsFollowLifecycle(ws: seq<World>, steps: seq<Step>, n: nat, id: string)
    requires IsRun(ws, steps) && n < |ws| && id in ws[n].db.jobs
    ensures id in ws[n].db.events && Lifecycle(ws[n].db.events[id])
    ensures RowOk(ws[n].db.jobs[id], ws[n].db.events[id])
  {
    RunInv(ws, steps, n);
    assert RowAt(RULES(), TableOf(ws[n].db), id);
  }

  /** From any point of a run to any later one, a job keeps what it was submitted with, its log only
      grows, its owner stays, and once it has ended it does not change at all. */
  lemma JobsOnlyMoveOn(ws: seq<World>, steps: seq<Step>, k: nat, n: nat, id: string)
    requires IsRun(ws, steps) && k <= n < |ws| && id in ws[k].db.jobs
    ensures id in ws[k].db.events && id in ws[n].db.jobs && id in ws[n].db.events
    ensures Later(ws[k].db.jobs[id], ws[k].db.events[id], ws[n].db.jobs[id], ws[n].db.events[id])
  {
    RulesAreLawful();
    RunHistory(ws, steps);
    LaterRun(RULES(), Tables(ws), k, n, id);
    assert LaterAt(RULES(), TableOf(ws[k].db), TableOf(ws[n].db), id);
  }

  ghost predicate Owned(t: Table<Option<string>>, id: string) { id in t.jobs && t.jobs[id].worker != None }

  lemma OwnerComesFromClaim(t: Table<Option<string>>, t': Table<Option<string>>, id: string)
    requires Rows(RULES(), t) && Evolve(RULES(), t, t')
    ensures Owned(t', id) <==> Owned(t, id) || Claims(t, t', id)
    ensures Claims(t, t', id) ==> !Owned(t, id)
  {
    assert Evolves(RULES(), t, t', id);
    if id in t.jobs {
      assert RowAt(RULES(), t, id);
      if t'.jobs[id] != t.jobs[id] {
        MoveKeepsRow(t.jobs[id], t.events[id], t'.jobs[id], t'.events[id][|t.events[id]|..]);
      }
    }
  }

  /** A job is claimed exactly once when it has an owner and never otherwise. */
  lemma {:induction false} ClaimedAtMostOnce(ws: seq<World>, steps: seq<Step>, n: nat, id: string)
    requires IsRun(ws, steps) && n < |ws|
    ensures ClaimCount(Tables(ws), n, id) == if Owned(TableOf(ws[n].db), id) then 1 else 0
  {
    if n > 0 {
      ClaimedAtMostOnce(ws, steps, n - 1, id);
      RunInv(ws, steps, n - 1);
      StepKeeps(ws, steps, n - 1);
      OwnerComesFromClaim(TableOf(ws[n - 1].db), TableOf(ws[n].db), id);
    }
  }

  // ---------------------------------------------------------------- what a claim may take

  /** A queued job of the region and pool that the worker is registered with; for a claim through a container also one of
      the container's tenant and user, where the container is active, the worker's own, and of that region and pool. */
  ghost predicate Fits(d: Db, op: Op, id: string) {
    && (op.Claim? || op.ClaimFor?) && op.worker in d.workers && id in d.jobs && d.jobs[id].status == Queued
    && var place := d.workers[op.worker]; var request := d.jobs[id].request;
       && op.region == place.region && op.pool == place.pool
       && request.region == place.region && request.pool == place.pool
       && (op.ClaimFor? ==>
             && op.container in d.containers && var c := d.containers[op.container];
                && c.worker == op.worker && c.status == "active" && c.region == place.region && c.pool == place.pool
                && c.tenant == request.tenant && c.user == request.user)
  }

  lemma ClaimFits(d: Db, op: Op, pick: Option<string>, id: string)
    requires op.Claim?
    ensures Claims(TableOf(d), TableOf(ClaimJob(d, op.worker, op.region, op.pool, pick)), id) <==>
            pick == Some(id) && Fits(d, op, id)
  {
  }

  lemma ClaimForFits(d: Db, op: Op, pick: Option<string>, id: string)
    requires op.ClaimFor?
    ensures Claims(TableOf(d), TableOf(ClaimJobFor(d, op.worker, op.region, op.pool, op.container, pick)), id) <==>
            pick == Some(id) && Fits(d, op, id)
  {
  }

  lemma OthersClaimNothing(w: World, step: Step, id: string)
    requires !step.op.Claim? && !step.op.ClaimFor? && Inv(w)
    ensures !Claims(TableOf(w.db), TableOf(Next(w, step).db), id)
  {
  }

  /** Along every run: a step claims a job exactly when it is a claim, by this worker or for a container of it, that picks
      the job, and the job fits. The worker then owns it. */
  lemma ClaimsExactly(ws: seq<World>, steps: seq<Step>, i: nat, id: string)
    requires IsRun(ws, steps) && i < |steps|
    ensures Claims(TableOf(ws[i].db), TableOf(ws[i + 1].db), id) <==>
            steps[i].pick == Some(id) && Fits(ws[i].db, steps[i].op, id)
    ensures Claims(TableOf(ws[i].db), TableOf(ws[i + 1].db), id) ==> ws[i + 1].db.jobs[id].worker == Some(steps[i].op.worker)
  {
    var d, op, pick := ws[i].db, steps[i].op, steps[i].pick;
    assert Runs.Follows(Next, ws, steps, i);
    match op
    case Claim(_, _, _) => ClaimFits(d, op, pick, id);
    case ClaimFor(_, _, _, _) => ClaimForFits(d, op, pick, id);
    case _ =>
      RunInv(ws, steps, i);
      OthersClaimNothing(ws[i], steps[i], id);
  }

  // ---------------------------------------------------------------- artifacts over every run

  ghost predicate KeyedAt(jobs: map<string, DbJob>, id: string) {
    id in jobs ==> Storable(jobs, id, jobs[id].artifacts)
  }

  /** Artifact ids are unique over all jobs. */
  ghost predicate Keyed(jobs: map<string, DbJob>) {
    forall id {:trigger KeyedAt(jobs, id)} :: KeyedAt(jobs, id)
  }

  ghost predicate ArtifactsKept(jobs: map<string, DbJob>, jobs': map<string, DbJob>, id: string) {
    id in jobs' && jobs'[id].artifacts != [] ==> id in jobs && jobs[id].artifacts == jobs'[id].artifacts
  }

  lemma SameArtifactsKeyed(jobs: map<string, DbJob>, jobs': map<string, DbJob>)
    requires Keyed(jobs) && forall id {:trigger ArtifactsKept(jobs, jobs', id)} :: ArtifactsKept(jobs, jobs', id)
    ensures Keyed(jobs')
  {
    forall id ensures KeyedAt(jobs', id) {
      assert ArtifactsKept(jobs, jobs', id) && KeyedAt(jobs, id);
      forall other | other in jobs' && jobs'[other].artifacts != []
        ensures other in jobs && jobs[other].artifacts == jobs'[other].artifacts
      {
        assert ArtifactsKept(jobs, jobs', other);
      }
    }
  }

  lemma StoredKeyed(jobs: map<string, DbJob>, id: string, job: DbJob)
    requires Keyed(jobs) && Storable(jobs, id, job.artifacts)
    ensures Keyed(jobs[id := job])
  {
    var jobs' := jobs[id := job];
    forall other ensures KeyedAt(jobs', other) {
      assert KeyedAt(jobs, other);
    }
  }

  lemma ClaimsKeepArtifacts(db: Db, worker: string, region: string, pool: string, cid: string, pick: Option<string>, id: string)
    ensures ArtifactsKept(db.jobs, ClaimJob(db, worker, region, pool, pick).jobs, id)
    ensures ArtifactsKept(db.jobs, ClaimJobFor(db, worker, region, pool, cid, pick).jobs, id)
  {
  }

  lemma OthersKeepArtifacts(w: World, step: Step, id: string)
    requires !step.op.Complete?
    ensures ArtifactsKept(w.db.jobs, Next(w, step).db.jobs, id)
  {
    match step.op
    case Claim(worker, region, pool) => ClaimsKeepArtifacts(w.db, worker, region, pool, "", step.pick, id);
    case ClaimFor(worker, region, pool, cid) => ClaimsKeepArtifacts(w.db, worker, region, pool, cid, step.pick, id);
    case _ =>
  }

  lemma NextKeyed(w: World, step: Step)
    requires Keyed(w.db.jobs)
    ensures Keyed(Next(w, step).db.jobs)
  {
    if step.op.Complete? {
      CompleteKeyed(w.db, step.op.id, step.op.worker, step.op.status, step.op.message, step.op.artifacts);
    } else {
      var w' := Next(w, step);
      forall id ensures ArtifactsKept(w.db.jobs, w'.db.jobs, id) {
        OthersKeepArtifacts(w, step, id);
      }
      SameArtifactsKeyed(w.db.jobs, w'.db.jobs);
    }
  }

  lemma CompleteKeyed(db: Db, id: string, worker: string, status: Status, message: string, artifacts: seq<Artifact>)
    requires Keyed(db.jobs)
    ensures Keyed(CompleteJob(db, id, worker, status, message, artifacts).jobs)
  {
    if Owns(db, id, worker) && Storable(db.jobs, id, artifacts) {
      StoredKeyed(db.jobs, id, db.jobs[id].(status := status, finished := true, artifacts := artifacts));
    }
  }

  /** In every reachable state artifact ids are unique over all jobs. */
  lemma {:induction false} ArtifactsKeyed(ws: seq<World>, steps: seq<Step>, n: nat)
    requires IsRun(ws, steps) && n < |ws|
    ensures Keyed(ws[n].db.jobs)
  {
    if n > 0 {
      ArtifactsKeyed(ws, steps, n - 1);
      assert Runs.Follows(Next, ws, steps, n - 1);
      NextKeyed(ws[n - 1], steps[n - 1]);
    }
  }

  /** An artifact id of a job that has ended is taken for every other job for good: a completion that reports it never
      succeeds. */
  lemma TakenForGood(ws: seq<World>, steps: seq<Step>, k: nat, n: nat, other: string, id: string, aid: string)
    requires IsRun(ws, steps) && k <= n < |ws| && other != id
    requires other in ws[k].db.jobs && Terminal(ws[k].db.jobs[other].status) && HasArtifact(ws[k].db.jobs[other].artifacts, aid)
    ensures Taken(ws[n].db.jobs, id, aid)
    ensures forall worker, status, message, artifacts ::
              HasArtifact(artifacts, aid) ==> CompleteJob(ws[n].db, id, worker, status, message, artifacts) == ws[n].db
  {
    JobsOnlyMoveOn(ws, steps, k, n, other);
    assert ws[n].db.jobs[other] == ws[k].db.jobs[other];
    forall worker, status, message, artifacts: seq<Artifact> | HasArtifact(artifacts, aid)
      ensures CompleteJob(ws[n].db, id, worker, status, message, artifacts) == ws[n].db
    {
      var i :| 0 <= i < |artifacts| && artifacts[i].id == aid;
      assert Taken(ws[n].db.jobs, id, artifacts[i].id);
    }
  }

  /** The artifact that a completion reports without an id. */
  const UNNAMED := Artifact("artifact", "", "artifact")

  function QueuedRow(request: Request): DbJob { Job(request, 0, Queued, None, false, []) }

  function Submitting(id: string, request: Request): Step { Step(Submit(id, request, 0), None) }

  function Claiming(worker: string, request: Request, id: string): Step {
    Step(Claim(worker, request.region, request.pool), Some(id))
  }

  function Completing(id: string, worker: string): Step { Step(Complete(id, worker, Succeeded, "", [UNNAMED]), None) }

  lemma BothSubmitted(w: World, a: string, b: string, request: Request, worker: string) returns (w1: World, w2: World, w3: World)
    requires w.db.jobs == map[] && a in w.pending && b in w.pending && a != b
    ensures w1 == Next(w, Submitting(a, request)) && w2 == Next(w1, Submitting(b, request))
    ensures w3 == Next(w2, Step(RegisterWorker(worker, request.region, request.pool), None))
    ensures w3.db.jobs == map[a := QueuedRow(request), b := QueuedRow(request)]
    ensures Registered(w3.db, worker, request.region, request.pool)
  {
    w1 := Next(w, Submitting(a, request));
    w2 := Next(w1, Submitting(b, request));
    w3 := Next(w2, Step(RegisterWorker(worker, request.region, request.pool), None));
  }

  lemma BothClaimed(w: World, a: string, b: string, request: Request, worker: string) returns (w1: World, w2: World)
    requires w.db.jobs == map[a := QueuedRow(request), b := QueuedRow(request)] && a != b
    requires Registered(w.db, worker, request.region, request.pool)
    ensures w1 == Next(w, Claiming(worker, request, a)) && w2 == Next(w1, Claiming(worker, request, b))
    ensures Owns(w2.db, a, worker) && Owns(w2.db, b, worker) && w2.db.jobs.Keys == {a, b}
    ensures w2.db.jobs[a].artifacts == [] && w2.db.jobs[b].artifacts == []
  {
    w1 := Next(w, Claiming(worker, request, a));
    w2 := Next(w1, Claiming(worker, request, b));
  }

  lemma BothCompleted(w: World, a: string, b: string, worker: string) returns (w1: World, w2: World)
    requires Owns(w.db, a, worker) && Owns(w.db, b, worker) && a != b && w.db.jobs.Keys == {a, b}
    requires w.db.jobs[a].artifacts == [] && w.db.jobs[b].artifacts == []
    ensures w1 == Next(w, Completing(a, worker)) && w2 == Next(w1, Completing(b, worker))
    ensures Owns(w1.db, b, worker) && Owns(w2.db, b, worker) && a in w2.db.jobs && w2.db.jobs[a].status == Succeeded
  {
    w1 := Next(w, Completing(a, worker));
    w2 := Next(w1, Completing(b, worker));
    assert Storable(w.db.jobs, a, [UNNAMED]);
    assert HasArtifact(w1.db.jobs[a].artifacts, [UNNAMED][0].id);
    assert Taken(w1.db.jobs, b, [UNNAMED][0].id);
  }

  /** Such a run exists: two jobs each report an artifact without an id, and the second stays running. */
  lemma SecondUnnamedFails(request: Request, worker: string) returns (ws: seq<World>, steps: seq<Step>)
    ensures IsRun(ws, steps) && |steps| == 9
    ensures steps[7] == Completing(JobId(1), worker) && steps[8] == Completing(JobId(2), worker)
    ensures JobId(1) in ws[9].db.jobs && ws[9].db.jobs[JobId(1)].status == Succeeded
    ensures Owns(ws[8].db, JobId(2), worker) && Owns(ws[9].db, JobId(2), worker)
  {
    var a, b := JobId(1), JobId(2);
    if a == b {
      JobIdInjective(1, 2);
    }
    ws, steps := UnnamedRun(a, b, request, worker);
  }

  lemma UnnamedRun(a: string, b: string, request: Request, worker: string) returns (ws: seq<World>, steps: seq<Step>)
    requires a == JobId(1) && b == JobId(2) && a != b
    ensures IsRun(ws, steps) && |steps| == 9 && steps[7] == Completing(a, worker) && steps[8] == Completing(b, worker)
    ensures a in ws[9].db.jobs && ws[9].db.jobs[a].status == Succeeded
    ensures Owns(ws[8].db, b, worker) && Owns(ws[9].db, b, worker)
  {
    var draw := Step(IssueId, None);
    var register := Step(RegisterWorker(worker, request.region, request.pool), None);
    steps := [draw, draw, Submitting(a, request), Submitting(b, request), register,
              Claiming(worker, request, a), Claiming(worker, request, b), Completing(a, worker), Completing(b, worker)];
    ws := Runs.RunExists(Next, World(EMPTY, {}), steps);
    TwoDrawn(ws, steps);
    var w3, w4, w5 := BothSubmitted(ws[2], a, b, request, worker);
    assert ws[3] == w3 by { assert Runs.Follows(Next, ws, steps, 2); }
    assert ws[4] == w4 by { assert Runs.Follows(Next, ws, steps, 3); }
    assert ws[5] == w5 by { assert Runs.Follows(Next, ws, steps, 4); }
    var w6, w7 := BothClaimed(w5, a, b, request, worker);
    assert ws[6] == w6 by { assert Runs.Follows(Next, ws, steps, 5); }
    assert ws[7] == w7 by { assert Runs.Follows(Next, ws, steps, 6); }
    var w8, w9 := BothCompleted(w7, a, b, worker);
    assert ws[8] == w8 by { assert Runs.Follows(Next, ws, steps, 7); }
    assert ws[9] == w9 by { assert Runs.Follows(Next, ws, steps, 8); }
  }

  lemma TwoDrawn(ws: seq<World>, steps: seq<Step>)
    requires IsRun(ws, steps) && |steps| >= 2 && steps[0].op == IssueId && steps[1].op == IssueId
    ensures ws[2].db.jobs == map[] && JobId(1) in ws[2].pending && JobId(2) in ws[2].pending
  {
    assert Runs.Follows(Next, ws, steps, 0);
    assert Runs.Follows(Next, ws, steps, 1);
  }

  // ---------------------------------------------------------------- containers over every run

  /** One step keeps the binding and raises the generation exactly when it moves the container. */
  ghost predicate ContainerStep(d: Db, op: Op, d': Db, cid: string) {
    && BindingKept(d.containers, d'.containers, cid)
    && (cid in d'.containers ==>
          d'.containers[cid].generation ==
            (if cid in d.containers then d.containers[cid].generation else 1) + if Relocated(d.containers, op, d'.containers, cid) then 1 else 0)
  }

  lemma SwitchSteps(d: Db, op: Op, cid: string)
    requires op.Switch?
    ensures ContainerStep(d, op, SwitchWorkspace(d, op.container, op.worker, op.workspace), cid)
  {
  }

  lemma RegisterSteps(d: Db, op: Op, cid: string)
    requires op.RegisterContainer?
    ensures ContainerStep(d, op, RegisterContainer(d, op.container, op.record), cid)
  {
  }

  lemma ClaimForSteps(d: Db, op: Op, pick: Option<string>, cid: string)
    requires op.ClaimFor?
    ensures ContainerStep(d, op, ClaimJobFor(d, op.worker, op.region, op.pool, op.container, pick), cid)
  {
  }

  lemma NextContainer(w: World, step: Step, cid: string)
    ensures ContainerStep(w.db, step.op, Next(w, step).db, cid)
  {
    match step.op
    case Switch(_, _, _) => SwitchSteps(w.db, step.op, cid);
    case RegisterContainer(_, _) => RegisterSteps(w.db, step.op, cid);
    case ClaimFor(_, _, _, _) => ClaimForSteps(w.db, step.op, step.pick, cid);
    case _ => assert Next(w, step).db.containers == w.db.containers;
  }

  lemma RunContainer(ws: seq<World>, steps: seq<Step>, i: nat, cid: string)
    requires IsRun(ws, steps) && i < |steps|
    ensures ContainerStep(ws[i].db, steps[i].op, ws[i + 1].db, cid)
  {
    assert Runs.Follows(Next, ws, steps, i);
    NextContainer(ws[i], steps[i], cid);
  }

  /** A container keeps the worker, tenant and user of its first registration. */
  lemma BindingNeverChanges(ws: seq<World>, steps: seq<Step>, k: nat, n: nat, cid: string)
    requires IsRun(ws, steps) && k <= n < |ws| && cid in ws[k].db.containers
    ensures BindingKept(ws[k].db.containers, ws[n].db.containers, cid)
  {
    var cs := seq(|ws|, i requires 0 <= i < |ws| => ws[i].db.containers);
    forall i ensures BindingAt(cs, cid, i) {
      if 0 <= i < |steps| {
        RunContainer(ws, steps, i, cid);
      }
    }
    BindingRun(cs, k, n, cid);
  }

  ghost function MoveCount(ws: seq<World>, steps: seq<Step>, n: nat, cid: string): nat
    requires n <= |steps| < |ws|
  {
    if n == 0 then 0 else
      MoveCount(ws, steps, n - 1, cid) + if Relocated(ws[n - 1].db.containers, steps[n - 1].op, ws[n].db.containers, cid) then 1 else 0
  }

  /** The generation is one more than the number of switches and claims that moved the container. */
  lemma {:induction false} GenerationCountsMoves(ws: seq<World>, steps: seq<Step>, n: nat, cid: string)
    requires IsRun(ws, steps) && n < |ws|
    ensures MoveCount(ws, steps, n, cid)
         == if cid in ws[n].db.containers then ws[n].db.containers[cid].generation - 1 else 0
  {
    if n > 0 {
      GenerationCountsMoves(ws, steps, n - 1, cid);
      RunContainer(ws, steps, n - 1, cid);
    }
  }

  /** A repeated registration moves a container without raising its generation: a run in which it does. */
  lemma RegistrationMoves(cid: string, c: Container, workspace: string) returns (ws: seq<World>, steps: seq<Step>)
    requires c.workspace != workspace
    ensures IsRun(ws, steps) && |steps| == 3
    ensures cid in ws[2].db.containers && ws[2].db.containers[cid] == c.(generation := 1)
    ensures cid in ws[3].db.containers && ws[3].db.containers[cid] == c.(workspace := workspace, generation := 1)
  {
    steps := [Step(RegisterWorker(c.worker, c.region, c.pool), None), Step(Op.RegisterContainer(cid, c), None),
              Step(Op.RegisterContainer(cid, c.(workspace := workspace)), None)];
    ws := Runs.RunExists(Next, World(EMPTY, {}), steps);
    assert Runs.Follows(Next, ws, steps, 0);
    assert Runs.Follows(Next, ws, steps, 1);
    assert Runs.Follows(Next, ws, steps, 2);
  }

  ghost predicate ClaimedThrough(d: Db, op: Op, d': Db, id: string, cid: string) {
    op.ClaimFor? && op.container == cid && Claims(TableOf(d), TableOf(d'), id)
  }

  /** The job is of the container's tenant and user and belongs to its worker. */
  ghost predicate Serves(d: Db, cid: string, id: string) {
    && cid in d.containers && id in d.jobs
    && d.jobs[id].request.tenant == d.containers[cid].tenant && d.jobs[id].request.user == d.containers[cid].user
    && d.jobs[id].worker == Some(d.containers[cid].worker)
  }

  /** A claim through a container matches the two and leaves the container on the job's workspace. */
  lemma ClaimServes(ws: seq<World>, steps: seq<Step>, i: nat, id: string, cid: string)
    requires IsRun(ws, steps) && i < |steps| && ClaimedThrough(ws[i].db, steps[i].op, ws[i + 1].db, id, cid)
    ensures Serves(ws[i + 1].db, cid, id)
    ensures ws[i + 1].db.containers[cid].workspace == ws[i + 1].db.jobs[id].request.workspace
  {
    assert Runs.Follows(Next, ws, steps, i);
  }

  /** Whatever happens after the claim, the job and the container stay matched. */
  lemma ClaimServesForever(ws: seq<World>, steps: seq<Step>, i: nat, n: nat, id: string, cid: string)
    requires IsRun(ws, steps) && i < n < |ws| && ClaimedThrough(ws[i].db, steps[i].op, ws[i + 1].db, id, cid)
    ensures Serves(ws[n].db, cid, id)
  {
    ClaimServes(ws, steps, i, id, cid);
    JobsOnlyMoveOn(ws, steps, i + 1, n, id);
    BindingNeverChanges(ws, steps, i + 1, n, cid);
  }
}
