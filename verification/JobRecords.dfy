/** The records that both job stores keep, and the calls that handlers make on them. */
module JobRecords {
  import opened Prelude

  /** A status is a text; `Other` stands for every text the system does not use itself. */
  datatype Status = Queued | Running | Succeeded | Failed | Cancelled | Other(text: string)

  predicate Terminal(s: Status) { s.Succeeded? || s.Failed? || s.Cancelled? }

  datatype Event = Event(status: Status, message: string)

  datatype Artifact = Artifact(id: string, objectKey: string, kind: string)

  datatype Request = Request(
    tenant: string, user: string, workspace: string, action: string, region: string, pool: string)

  /** `W` says how a missing owner is written: a null in the database, an empty text in memory. */
  datatype Job<W> = Job(
    request: Request, createdAt: int, status: Status, worker: W, finished: bool, artifacts: seq<Artifact>)

  datatype Worker = Worker(region: string, pool: string)

  datatype Container = Container(
    worker: string, tenant: string, user: string, workspace: string, region: string, pool: string,
    status: string, capacity: int, generation: int)

  /** Who a container works for. */
  datatype Binding = Binding(worker: string, tenant: string, user: string)

  function BindingOf(c: Container): Binding { Binding(c.worker, c.tenant, c.user) }

  datatype Op =
    | IssueId
    | Submit(id: string, request: Request, now: int)
    | Cancel(id: string, reason: string)
    | RegisterWorker(worker: string, region: string, pool: string)
    | RegisterContainer(container: string, record: Container)
    | Switch(container: string, worker: string, workspace: string)
    | Claim(worker: string, region: string, pool: string)
    | ClaimFor(worker: string, region: string, pool: string, container: string)
    | Heartbeat(id: string, worker: string, message: string)
    | Complete(id: string, worker: string, status: Status, message: string, artifacts: seq<Artifact>)

  type EventLog = map<string, seq<Event>>

  function EventsOf(events: EventLog, id: string): seq<Event> {
    if id in events then events[id] else []
  }

  function AddEvents(events: EventLog, id: string, more: seq<Event>): EventLog {
    events[id := EventsOf(events, id) + more]
  }

  lemma AddEventsTwice(events: EventLog, id: string, a: seq<Event>, b: seq<Event>)
    ensures AddEvents(AddEvents(events, id, a), id, b) == AddEvents(events, id, a + b)
  {
    assert EventsOf(events, id) + a + b == EventsOf(events, id) + (a + b);
  }

  predicate AllRunning(events: seq<Event>) {
    forall i :: 0 <= i < |events| ==> events[i].status == Running
  }

  /** What a claim writes into the log: one more entry when the container changes workspace. */
  function ClaimEvents(switched: bool): (r: seq<Event>)
    ensures |r| > 0 && AllRunning(r)
  {
    (if switched then [Event(Running, "compile container switched workspace")] else [])
    + [Event(Running, "job claimed by compile container")]
  }

  function Assign(c: Container, workspace: string): Container {
    if c.workspace == workspace then c else c.(workspace := workspace, generation := c.generation + 1)
  }

  type Containers = map<string, Container>

  /** A switch or a claim that leaves the container on another workspace. A new registration may move the
      container too, but is not counted. */
  ghost predicate Relocated(before: Containers, op: Op, after: Containers, cid: string) {
    && (op.Switch? || op.ClaimFor?)
    && cid in before && cid in after && before[cid].workspace != after[cid].workspace
  }

  ghost predicate BindingKept(before: Containers, after: Containers, cid: string) {
    cid in before ==> cid in after && BindingOf(after[cid]) == BindingOf(before[cid])
  }
}
