/** The store object: every method is one transaction on the tables. */
module PostgresStore {
  import opened Prelude
  import opened Decimals
  import opened JobIds
  import opened JobRecords
  import P = PostgresJobs

  datatype StoreError = WorkerNotRegistered | UserBindingMismatch | WorkerOwnerMismatch | ContainerNotRegistered | ArtifactExists

  class Store {
    var sequence: nat
    var workers: map<string, Worker>
    var jobs: map<string, P.DbJob>
    var events: EventLog
    var containers: map<string, Container>

    ghost function Tables(): P.Db
      reads this
    {
      P.Db(sequence, workers, jobs, events, containers)
    }

    constructor ()
      ensures Tables() == P.EMPTY
    {
      sequence, workers, jobs, events, containers := 1, map[], map[], map[], map[];
    }

    method NextJobId() returns (id: string)
      modifies this`sequence
      ensures id == JobId(old(sequence)) && sequence == old(sequence) + 1
    {
      var value := Decimal(sequence);
      sequence := sequence + 1;
      id := "job-" + Zeros(12 - if |value| < 12 then |value| else 12) + value;
      assert id == "job-" + (Zeros(12 - if |value| < 12 then |value| else 12) + value);
    }

    method InsertEvent(id: string, status: Status, message: string)
      modifies this`events
      ensures events == AddEvents(old(events), id, [Event(status, message)])
    {
      events := events[id := (if id in events then events[id] else []) + [Event(status, message)]];
    }

    method SubmitJob(id: string, request: Request, status: Status, now: int)
      modifies this
      ensures Tables() == P.SubmitJob(old(Tables()), id, request, status, now)
      ensures id in jobs && jobs == old(jobs)[id := jobs[id]] && events == AddEvents(old(events), id, [Event(Queued, "job queued")])
      ensures jobs[id].status == status && jobs[id].worker == None && !jobs[id].finished
      ensures jobs[id].request.user == request.user && jobs[id].request.workspace == request.workspace
      ensures var kept := if id in old(jobs) then old(jobs)[id].request else request;
              && jobs[id].request.tenant == kept.tenant && jobs[id].request.action == kept.action
              && jobs[id].request.region == kept.region && jobs[id].request.pool == kept.pool
      ensures jobs[id].createdAt == (if id in old(jobs) then old(jobs)[id].createdAt else now)
      ensures jobs[id].artifacts == if id in old(jobs) then old(jobs)[id].artifacts else []
    {
      if id in jobs {
        var row := jobs[id];
        row := row.(request := row.request.(user := request.user, workspace := request.workspace));
        jobs := jobs[id := row.(status := status, worker := None, finished := false)];
      } else {
        jobs := jobs[id := Job(request, now, status, None, false, [])];
      }
      InsertEvent(id, Queued, "job queued");
    }

    method GetJob(id: string) returns (job: Option<P.DbJob>)
      ensures job == if id in jobs then Some(jobs[id]) else None
    {
      job := if id in jobs then Some(jobs[id]) else None;
    }

    method CancelJob(id: string, reason: string) returns (job: Option<P.DbJob>)
      modifies this
      ensures Tables() == P.CancelJob(old(Tables()), id, reason)
      ensures job.Some? <==> id in old(jobs) && old(jobs)[id].status in {Queued, Running}
      ensures job.Some? ==> job.value == old(jobs)[id].(status := Cancelled, finished := true)
      ensures job.Some? ==> jobs == old(jobs)[id := job.value] && events == AddEvents(old(events), id, [Event(Cancelled, reason)])
    {
      if id !in jobs || jobs[id].status !in {Queued, Running} {
        return None;
      }
      jobs := jobs[id := jobs[id].(status := Cancelled, finished := true)];
      InsertEvent(id, Cancelled, reason);
      job := GetJob(id);
    }

    method RegisterWorker(worker: string, region: string, pool: string)
      modifies this`workers
      ensures Tables() == old(Tables()).(workers := old(workers)[worker := Worker(region, pool)])
    {
      workers := workers[worker := Worker(region, pool)];
    }

    method RegisterContainer(cid: string, c: Container) returns (r: Result<Container, StoreError>)
      modifies this`containers
      ensures Tables() == P.RegisterContainer(old(Tables()), cid, c)
      ensures r.Ok? <==>
                && c.worker in workers && workers[c.worker].region == c.region && workers[c.worker].pool == c.pool
                && (cid in old(containers) ==>
                      && old(containers)[cid].worker == c.worker && old(containers)[cid].tenant == c.tenant
                      && old(containers)[cid].user == c.user)
      ensures r.Ok? ==> containers == old(containers)[cid := r.value]
      ensures r.Ok? ==> r.value == c.(generation := if cid in old(containers) then old(containers)[cid].generation else 1)
      ensures r.Err? ==> containers == old(containers)
      ensures r.Err? ==>
                r.error ==
                (if c.worker !in workers || workers[c.worker].region != c.region || workers[c.worker].pool != c.pool
                 then WorkerNotRegistered
                 else if containers[cid].tenant != c.tenant || containers[cid].user != c.user then UserBindingMismatch
                 else WorkerOwnerMismatch)
    {
      if c.worker !in workers || workers[c.worker] != Worker(c.region, c.pool) {
        return Err(WorkerNotRegistered);
      }
      if cid in containers && (containers[cid].tenant != c.tenant || containers[cid].user != c.user) {
        return Err(UserBindingMismatch);
      }
      if cid in containers && containers[cid].worker != c.worker {
        return Err(WorkerOwnerMismatch);
      }
      if cid in containers {
        containers := containers[cid := containers[cid].(
          worker := c.worker, workspace := c.workspace, region := c.region, pool := c.pool, status := c.status,
          capacity := c.capacity)];
      } else {
        containers := containers[cid := c.(generation := 1)];
      }
      r := Ok(containers[cid]);
    }

    method SwitchWorkspace(cid: string, worker: string, workspace: string) returns (r: Option<Container>)
      modifies this`containers
      ensures Tables() == P.SwitchWorkspace(old(Tables()), cid, worker, workspace)
      ensures r.Some? <==>
                cid in old(containers) && old(containers)[cid].worker == worker && old(containers)[cid].status == "active"
      ensures r.Some? ==>
                && containers == old(containers)[cid := r.value]
                && r.value == old(containers)[cid].(workspace := workspace, generation := r.value.generation)
                && r.value.generation == old(containers)[cid].generation + if old(containers)[cid].workspace == workspace then 0 else 1
      ensures r.None? ==> containers == old(containers)
    {
      if cid !in containers || containers[cid].worker != worker || containers[cid].status != "active" {
        return None;
      }
      var c := containers[cid];
      if c.workspace != workspace {
        c := c.(generation := c.generation + 1);
      }
      c := c.(workspace := workspace);
      containers := containers[cid := c];
      r := Some(c);
    }

    /** A row that the candidate query may return: matching, queued, and none of these is older. */
    ghost predicate Oldest(matches: string -> bool, id: string)
      reads this
    {
      && id in jobs && jobs[id].status == Queued && matches(id)
      && forall other :: other in jobs && jobs[other].status == Queued && matches(other) ==>
           jobs[id].createdAt <= jobs[other].createdAt
    }

    /** The candidate query: orders the matching queued rows by age and takes the first. */
    method SelectOldest(matches: string -> bool) returns (pick: Option<string>)
      ensures pick.Some? ==> Oldest(matches, pick.value)
      ensures pick.None? ==> forall id :: id in jobs && jobs[id].status == Queued ==> !matches(id)
    {
      pick := None;
      var rest := jobs.Keys;
      while rest != {}
        invariant rest <= jobs.Keys
        invariant pick.Some? ==> pick.value in jobs && jobs[pick.value].status == Queued && matches(pick.value)
        invariant forall id :: id in jobs && id !in rest && jobs[id].status == Queued && matches(id) ==>
                    pick.Some? && jobs[pick.value].createdAt <= jobs[id].createdAt
        decreases |rest|
      {
        var id :| id in rest;
        rest := rest - {id};
        if jobs[id].status == Queued && matches(id) && (pick.None? || jobs[id].createdAt < jobs[pick.value].createdAt) {
          pick := Some(id);
        }
      }
    }

    /** The columns of a row that a worker of this place may take, and that a container may serve. */
    ghost static predicate Waits(job: P.DbJob, region: string, pool: string) {
      job.status == Queued && job.request.region == region && job.request.pool == pool
    }

    ghost static predicate WaitsFor(job: P.DbJob, c: Container) {
      Waits(job, c.region, c.pool) && job.request.tenant == c.tenant && job.request.user == c.user
    }

    ghost static predicate Serves(c: Container, worker: string, region: string, pool: string) {
      c.worker == worker && c.region == region && c.pool == pool && c.status == "active"
    }

    method ClaimJob(worker: string, region: string, pool: string)
      returns (r: Result<Option<P.DbJob>, StoreError>, ghost pick: Option<string>)
      modifies this
      ensures Tables() == P.ClaimJob(old(Tables()), worker, region, pool, pick)
      ensures r.Err? <==> worker !in workers || workers[worker].region != region || workers[worker].pool != pool
      ensures r.Err? ==> r.error == WorkerNotRegistered
      ensures r.Err? || r.value.None? ==> Tables() == old(Tables())
      ensures r == Ok(None) <==> r.Ok? && forall id :: id in old(jobs) ==> !Waits(old(jobs)[id], region, pool)
      ensures r.Ok? && r.value.Some? ==>
                && pick.Some? && pick.value in old(jobs) && Waits(old(jobs)[pick.value], region, pool)
                && r.value == Some(old(jobs)[pick.value].(status := Running, worker := Some(worker)))
                && jobs == old(jobs)[pick.value := r.value.value]
                && events == AddEvents(old(events), pick.value, [Event(Running, "job claimed by worker")])
                && (forall id :: id in old(jobs) && Waits(old(jobs)[id], region, pool) ==>
                                   old(jobs)[pick.value].createdAt <= old(jobs)[id].createdAt)
    {
      pick := None;
      if worker !in workers || workers[worker] != Worker(region, pool) {
        return Err(WorkerNotRegistered), None;
      }
      var rows := jobs;
      var chosen := SelectOldest(id => id in rows && rows[id].request.region == region && rows[id].request.pool == pool);
      pick := chosen;
      if chosen.None? {
        return Ok(None), pick;
      }
      var id := chosen.value;
      jobs := jobs[id := jobs[id].(status := Running, worker := Some(worker))];
      InsertEvent(id, Running, "job claimed by worker");
      r := Ok(Some(jobs[id]));
    }

    /** Takes a job for a container. The container follows the job to its workspace. */
    method ClaimJobFor(worker: string, region: string, pool: string, cid: string)
      returns (r: Result<Option<P.DbJob>, StoreError>, ghost pick: Option<string>)
      modifies this
      ensures Tables() == P.ClaimJobFor(old(Tables()), worker, region, pool, cid, pick)
      ensures r.Err? <==>
                || worker !in workers || workers[worker].region != region || workers[worker].pool != pool
                || cid !in old(containers) || !Serves(old(containers)[cid], worker, region, pool)
      ensures r.Err? ==>
                r.error ==
                if worker !in workers || workers[worker].region != region || workers[worker].pool != pool
                then WorkerNotRegistered else ContainerNotRegistered
      ensures r.Err? || r.value.None? ==> Tables() == old(Tables())
      ensures r == Ok(None) <==> r.Ok? && forall id :: id in old(jobs) ==> !WaitsFor(old(jobs)[id], old(containers)[cid])
      ensures r.Ok? && r.value.Some? ==>
                && pick.Some? && pick.value in old(jobs) && WaitsFor(old(jobs)[pick.value], old(containers)[cid])
                && r.value == Some(old(jobs)[pick.value].(status := Running, worker := Some(worker)))
                && jobs == old(jobs)[pick.value := r.value.value]
                && containers == old(containers)[cid := old(containers)[cid].(
                     workspace := r.value.value.request.workspace, generation := containers[cid].generation)]
                && containers[cid].generation ==
                     old(containers)[cid].generation + (if containers[cid].workspace == old(containers)[cid].workspace then 0 else 1)
                && (forall id :: id in old(jobs) && WaitsFor(old(jobs)[id], old(containers)[cid]) ==>
                                   old(jobs)[pick.value].createdAt <= old(jobs)[id].createdAt)
    {
      pick := None;
      if worker !in workers || workers[worker] != Worker(region, pool) {
        return Err(WorkerNotRegistered), None;
      }
      if cid !in containers || containers[cid].worker != worker || containers[cid].region != region
         || containers[cid].pool != pool || containers[cid].status != "active" {
        return Err(ContainerNotRegistered), None;
      }
      var c := containers[cid];
      var rows := jobs;
      var chosen := SelectOldest(id =>
        id in rows && rows[id].request.region == region && rows[id].request.pool == pool
        && rows[id].request.tenant == c.tenant && rows[id].request.user == c.user);
      pick := chosen;
      if chosen.None? {
        return Ok(None), pick;
      }
      var id := chosen.value;
      jobs := jobs[id := jobs[id].(status := Running, worker := Some(worker))];
      FollowJob(cid, id, jobs[id].request.workspace);
      r := Ok(Some(jobs[id]));
    }

    method FollowJob(cid: string, id: string, workspace: string)
      requires cid in containers
      modifies this`containers, this`events
      ensures containers == old(containers)[cid := Assign(old(containers)[cid], workspace)]
      ensures events == AddEvents(old(events), id, ClaimEvents(workspace != old(containers)[cid].workspace))
    {
      var c := containers[cid];
      if workspace != c.workspace {
        containers := containers[cid := c.(workspace := workspace, generation := c.generation + 1)];
        InsertEvent(id, Running, "compile container switched workspace");
        AddEventsTwice(old(events), id, [Event(Running, "compile container switched workspace")],
                       [Event(Running, "job claimed by compile container")]);
      } else {
        assert containers == containers[cid := c];
        assert ClaimEvents(false) == [Event(Running, "job claimed by compile container")];
      }
      InsertEvent(id, Running, "job claimed by compile container");
    }

    method HeartbeatJob(id: string, worker: string, message: string) returns (job: Option<P.DbJob>)
      modifies this`events
      ensures Tables() == P.HeartbeatJob(old(Tables()), id, worker, message)
      ensures job.Some? <==> id in jobs && jobs[id].worker == Some(worker) && jobs[id].status == Running
      ensures job.Some? ==> job.value == jobs[id] && events == AddEvents(old(events), id, [Event(Running, message)])
    {
      if id !in jobs || jobs[id].worker != Some(worker) || jobs[id].status != Running {
        return None;
      }
      InsertEvent(id, Running, message);
      job := GetJob(id);
    }

    /** No two of the ids are the same, and no other job has an artifact with one of them. */
    ghost static predicate Insertable(jobs: map<string, P.DbJob>, id: string, artifacts: seq<Artifact>) {
      && (forall i, j :: 0 <= i < |artifacts| && 0 <= j < |artifacts| && artifacts[i].id == artifacts[j].id ==> i == j)
      && forall other, k, i :: other in jobs && other != id && 0 <= k < |jobs[other].artifacts| && 0 <= i < |artifacts| ==>
           jobs[other].artifacts[k].id != artifacts[i].id
    }

    /** Inserts the artifacts one by one; the id is the key of the table, so a repeated one stops the call. */
    method InsertArtifacts(id: string, artifacts: seq<Artifact>) returns (inserted: bool)
      ensures (inserted <==> P.Storable(jobs, id, artifacts)) && (inserted <==> Insertable(jobs, id, artifacts))
    {
      var i := 0;
      while i < |artifacts|
        invariant 0 <= i <= |artifacts| && P.Storable(jobs, id, artifacts[..i])
      {
        if P.HasArtifact(artifacts[..i], artifacts[i].id) {
          assert !P.DistinctIds(artifacts);
          return false;
        }
        if P.Taken(jobs, id, artifacts[i].id) {
          return false;
        }
        assert forall k :: 0 <= k < i ==> artifacts[..i][k].id != artifacts[i].id;
        i := i + 1;
      }
      assert artifacts[..i] == artifacts;
      return true;
    }

    /** Completes a running job of the worker. A failed insert rolls everything back. */
    method CompleteJob(id: string, worker: string, status: Status, message: string, artifacts: seq<Artifact>)
      returns (r: Result<Option<P.DbJob>, StoreError>)
      modifies this
      ensures Tables() == P.CompleteJob(old(Tables()), id, worker, status, message, artifacts)
      ensures r == Ok(None) <==> id !in old(jobs) || old(jobs)[id].worker != Some(worker) || old(jobs)[id].status != Running
      ensures r.Err? <==> r != Ok(None) && !Insertable(old(jobs), id, artifacts)
      ensures r.Err? || r == Ok(None) ==> Tables() == old(Tables())
      ensures r.Ok? && r.value.Some? ==>
                && r.value == Some(old(jobs)[id].(status := status, finished := true, artifacts := artifacts))
                && jobs == old(jobs)[id := r.value.value] && events == AddEvents(old(events), id, [Event(status, message)])
    {
      if id !in jobs || jobs[id].worker != Some(worker) || jobs[id].status != Running {
        return Ok(None);
      }
      var inserted := InsertArtifacts(id, artifacts);
      if !inserted {
        return Err(ArtifactExists);
      }
      jobs := jobs[id := jobs[id].(status := status, finished := true, artifacts := artifacts)];
      InsertEvent(id, status, message);
      r := Ok(Some(jobs[id]));
    }
  }
}
