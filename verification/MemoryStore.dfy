/** The in-memory store object. */
module MemoryStore {
  import opened Prelude
  import opened Ordering
  import opened Decimals
  import opened JobIds
  import opened JobRecords
  import M = MemoryJobs

  datatype StoreError =
    | WorkerNotRegistered | WorkerPlaceMismatch | UserBindingMismatch | WorkerOwnerMismatch
    | NotOwner | ContainerNotRegistered | ContainerNotAvailable

  class Store {
    var sequence: nat
    var workers: map<string, Worker>
    var jobs: map<string, M.MemJob>
    var events: EventLog
    var containers: Containers

    ghost function Tables(): M.Db
      reads this
    {
      M.Db(sequence, workers, jobs, events, containers)
    }

    constructor ()
      ensures Tables() == M.EMPTY
    {
      sequence, workers, jobs, events, containers := 1, map[], map[], map[], map[];
    }

    method NextJobId() returns (id: string)
      modifies this`sequence
      ensures id == JobId(old(sequence)) && sequence == old(sequence) + 1
    {
      var value := Decimal(sequence);
      while |value| < 12
        invariant |Decimal(sequence)| <= |value| <= Max(12, |Decimal(sequence)|)
        invariant value == Zeros(|value| - |Decimal(sequence)|) + Decimal(sequence)
        decreases 12 - |value|
      {
        value := "0" + value;
      }
      assert value == Padded(sequence);
      sequence := sequence + 1;
      id := "job-" + value;
    }

    method PushEvent(id: string, status: Status, message: string)
      modifies this`events
      ensures events == AddEvents(old(events), id, [Event(status, message)])
    {
      events := events[id := (if id in events then events[id] else []) + [Event(status, message)]];
    }

    method SubmitJob(id: string, request: Request)
      modifies this
      ensures Tables() == M.SubmitJob(old(Tables()), id, request)
    {
      jobs := jobs[id := Job(request, 0, Queued, "", false, [])];
      PushEvent(id, Queued, "job queued");
    }

    method CancelJob(id: string, reason: string) returns (job: Option<M.MemJob>)
      modifies this
      ensures Tables() == M.CancelJob(old(Tables()), id, reason)
      ensures job.Some? <==> id in old(jobs)
      ensures job.Some? ==> job.value == old(jobs)[id].(status := Cancelled, finished := true)
      ensures job.Some? ==> jobs == old(jobs)[id := job.value] && events == AddEvents(old(events), id, [Event(Cancelled, reason)])
    {
      if id !in jobs {
        return None;
      }
      jobs := jobs[id := jobs[id].(status := Cancelled, finished := true)];
      PushEvent(id, Cancelled, reason);
      job := Some(jobs[id]);
    }

    method RegisterWorker(worker: string, region: string, pool: string)
      modifies this`workers
      ensures Tables() == old(Tables()).(workers := old(workers)[worker := Worker(region, pool)])
    {
      workers := workers[worker := Worker(region, pool)];
    }

    method RegisterContainer(cid: string, c: Container) returns (r: Result<Container, StoreError>)
      modifies this`containers
      ensures Tables() == M.RegisterContainer(old(Tables()), cid, c)
      ensures r.Ok? <==>
                && c.worker in workers && workers[c.worker].region == c.region && workers[c.worker].pool == c.pool
                && (cid in old(containers) ==>
                      && old(containers)[cid].worker == c.worker && old(containers)[cid].tenant == c.tenant
                      && old(containers)[cid].user == c.user)
      ensures r.Ok? ==> r.value == c && containers == old(containers)[cid := c]
      ensures r.Err? ==> containers == old(containers)
      ensures r.Err? ==>
                r.error ==
                (if c.worker !in workers then WorkerNotRegistered
                 else if workers[c.worker].region != c.region || workers[c.worker].pool != c.pool then WorkerPlaceMismatch
                 else if containers[cid].tenant != c.tenant || containers[cid].user != c.user then UserBindingMismatch
                 else WorkerOwnerMismatch)
    {
      if c.worker !in workers {
        return Err(WorkerNotRegistered);
      }
      if workers[c.worker].region != c.region || workers[c.worker].pool != c.pool {
        return Err(WorkerPlaceMismatch);
      }
      if cid in containers && (containers[cid].tenant != c.tenant || containers[cid].user != c.user) {
        return Err(UserBindingMismatch);
      }
      if cid in containers && containers[cid].worker != c.worker {
        return Err(WorkerOwnerMismatch);
      }
      containers := containers[cid := c];
      r := Ok(c);
    }

    method SwitchWorkspace(cid: string, worker: string, workspace: string) returns (r: Result<Option<Container>, StoreError>)
      modifies this`containers
      ensures Tables() == M.SwitchWorkspace(old(Tables()), cid, worker, workspace)
      ensures r.Err? <==> cid in containers && containers[cid].worker != worker
      ensures r.Err? || r.value.None? ==> containers == old(containers)
      ensures r.Ok? && r.value.Some? <==>
                cid in old(containers) && old(containers)[cid].worker == worker && old(containers)[cid].status == "active"
      ensures r.Ok? && r.value.Some? ==>
                && containers == old(containers)[cid := r.value.value]
                && r.value.value == old(containers)[cid].(workspace := workspace, generation := r.value.value.generation)
                && r.value.value.generation ==
                     old(containers)[cid].generation + if old(containers)[cid].workspace == workspace then 0 else 1
    {
      if cid !in containers {
        return Ok(None);
      }
      var c := containers[cid];
      if c.worker != worker {
        return Err(NotOwner);
      }
      if c.status != "active" {
        return Ok(None);
      }
      if c.workspace != workspace {
        c := c.(workspace := workspace);
        c := c.(generation := c.generation + 1);
      }
      containers := containers[cid := c];
      r := Ok(Some(c));
    }

    /** Walks the keys in order and stops at the first match. */
    method FirstMatch(matches: set<string>) returns (pick: Option<string>)
      requires matches <= jobs.Keys
      ensures pick == if matches == {} then None else Some(M.Least(matches))
    {
      var rest := jobs.Keys;
      while rest != {}
        invariant matches <= rest <= jobs.Keys
        decreases |rest|
      {
        M.SomeLeast(rest);
        var id :| id in rest && forall other :: other in rest ==> StrLe(id, other);
        if id in matches {
          M.LeastUnique(matches, id, M.Least(matches));
          return Some(id);
        }
        rest := rest - {id};
      }
      pick := None;
    }

    /** The columns of a job that a call for this place may take, and that a container may serve. */
    ghost static predicate Waits(job: M.MemJob, region: string, pool: string) {
      job.status == Queued && job.request.region == region && job.request.pool == pool
    }

    ghost static predicate WaitsFor(job: M.MemJob, c: Container) {
      Waits(job, c.region, c.pool) && job.request.tenant == c.tenant && job.request.user == c.user
    }

    method ClaimJob(worker: string, region: string, pool: string) returns (r: Result<Option<M.MemJob>, StoreError>)
      modifies this
      ensures Tables() == M.ClaimJob(old(Tables()), worker, region, pool)
      ensures r.Err? <==> worker !in workers
      ensures r.Err? || r.value.None? ==> Tables() == old(Tables())
      ensures r == Ok(None) <==> worker in workers && forall id :: id in old(jobs) ==> !Waits(old(jobs)[id], region, pool)
      ensures r.Ok? && r.value.Some? ==> exists id ::
                && id in old(jobs) && Waits(old(jobs)[id], region, pool)
                && (forall other :: other in old(jobs) && Waits(old(jobs)[other], region, pool) ==> StrLe(id, other))
                && r.value.value == old(jobs)[id].(status := Running, worker := worker) && jobs == old(jobs)[id := r.value.value]
    {
      if worker !in workers {
        return Err(WorkerNotRegistered);
      }
      M.ClaimTakes(Tables(), worker, region, pool);
      assert forall id :: id in jobs && Waits(jobs[id], region, pool) ==> id in M.Candidates(jobs, region, pool);
      var pick := FirstMatch(M.Candidates(jobs, region, pool));
      if pick.None? {
        return Ok(None);
      }
      var id := pick.value;
      jobs := jobs[id := jobs[id].(status := Running, worker := worker)];
      PushEvent(id, Running, "job claimed by worker");
      r := Ok(Some(jobs[id]));
    }

    method ClaimJobFor(worker: string, region: string, pool: string, cid: string)
      returns (r: Result<Option<M.MemJob>, StoreError>)
      modifies this
      ensures Tables() == M.ClaimJobFor(old(Tables()), worker, region, pool, cid)
      ensures r.Err? <==>
                || worker !in workers || cid !in old(containers) || old(containers)[cid].worker != worker
                || old(containers)[cid].region != region || old(containers)[cid].pool != pool || old(containers)[cid].status != "active"
      ensures r.Err? ==>
                r.error ==
                if worker !in workers then WorkerNotRegistered
                else if cid !in old(containers) then ContainerNotRegistered else ContainerNotAvailable
      ensures r.Err? || r.value.None? ==> Tables() == old(Tables())
      ensures r == Ok(None) <==> r.Ok? && forall id :: id in old(jobs) ==> !WaitsFor(old(jobs)[id], old(containers)[cid])
      ensures r.Ok? && r.value.Some? ==> exists id ::
                && id in old(jobs) && WaitsFor(old(jobs)[id], old(containers)[cid])
                && (forall other :: other in old(jobs) && WaitsFor(old(jobs)[other], old(containers)[cid]) ==> StrLe(id, other))
                && r.value.value == old(jobs)[id].(status := Running, worker := worker) && jobs == old(jobs)[id := r.value.value]
      ensures r.Ok? && r.value.Some? ==>
                && containers == old(containers)[cid := old(containers)[cid].(
                     workspace := r.value.value.request.workspace, generation := containers[cid].generation)]
                && containers[cid].generation ==
                     old(containers)[cid].generation + if containers[cid].workspace == old(containers)[cid].workspace then 0 else 1
    {
      if worker !in workers {
        return Err(WorkerNotRegistered);
      }
      if cid !in containers {
        return Err(ContainerNotRegistered);
      }
      var c := containers[cid];
      if c.worker != worker || c.region != region || c.pool != pool || c.status != "active" {
        return Err(ContainerNotAvailable);
      }
      M.ClaimForTakes(Tables(), worker, region, pool, cid);
      assert forall id :: id in jobs && WaitsFor(jobs[id], c) ==> id in M.CandidatesFor(jobs, region, pool, c);
      var pick := FirstMatch(M.CandidatesFor(jobs, region, pool, c));
      if pick.None? {
        return Ok(None);
      }
      StartFor(pick.value, worker, cid);
      r := Ok(Some(jobs[pick.value]));
    }

    /** Starts the job; the container follows it to its workspace. */
    method StartFor(id: string, worker: string, cid: string)
      requires id in jobs && cid in containers
      modifies this`jobs, this`containers, this`events
      ensures jobs == old(jobs)[id := old(jobs)[id].(status := Running, worker := worker)]
      ensures containers == old(containers)[cid := Assign(old(containers)[cid], old(jobs)[id].request.workspace)]
      ensures events == AddEvents(old(events), id, ClaimEvents(old(jobs)[id].request.workspace != old(containers)[cid].workspace))
    {
      jobs := jobs[id := jobs[id].(status := Running, worker := worker)];
      FollowJob(cid, id, jobs[id].request.workspace);
    }

    method FollowJob(cid: string, id: string, workspace: string)
      requires cid in containers
      modifies this`containers, this`events
      ensures containers == old(containers)[cid := Assign(old(containers)[cid], workspace)]
      ensures events == AddEvents(old(events), id, ClaimEvents(workspace != old(containers)[cid].workspace))
    {
      var c := containers[cid];
      if c.workspace != workspace {
        containers := containers[cid := c.(workspace := workspace, generation := c.generation + 1)];
        PushEvent(id, Running, "compile container switched workspace");
        AddEventsTwice(old(events), id, [Event(Running, "compile container switched workspace")],
                       [Event(Running, "job claimed by compile container")]);
      } else {
        assert containers == containers[cid := c];
        assert ClaimEvents(false) == [Event(Running, "job claimed by compile container")];
      }
      PushEvent(id, Running, "job claimed by compile container");
    }

    method HeartbeatJob(id: string, worker: string, message: string) returns (job: Option<M.MemJob>)
      modifies this`events
      ensures Tables() == M.HeartbeatJob(old(Tables()), id, worker, message)
      ensures job.Some? <==> id in jobs && jobs[id].worker == worker
      ensures job.Some? ==> job.value == jobs[id] && events == AddEvents(old(events), id, [Event(jobs[id].status, message)])
    {
      if id !in jobs || jobs[id].worker != worker {
        return None;
      }
      PushEvent(id, jobs[id].status, message);
      job := Some(jobs[id]);
    }

    method CompleteJob(id: string, worker: string, status: Status, message: string, artifacts: seq<Artifact>)
      returns (job: Option<M.MemJob>)
      modifies this
      ensures Tables() == M.CompleteJob(old(Tables()), id, worker, status, message, artifacts)
      ensures job.Some? <==> id in old(jobs) && old(jobs)[id].worker == worker
      ensures job.Some? ==>
                && job.value.artifacts == old(jobs)[id].artifacts + artifacts
                && job.value == old(jobs)[id].(status := status, finished := true, artifacts := job.value.artifacts)
                && jobs == old(jobs)[id := job.value] && events == AddEvents(old(events), id, [Event(status, message)])
    {
      if id !in jobs || jobs[id].worker != worker {
        return None;
      }
      jobs := jobs[id := jobs[id].(status := status, finished := true, artifacts := jobs[id].artifacts + artifacts)];
      PushEvent(id, status, message);
      job := Some(jobs[id]);
    }
  }
}
