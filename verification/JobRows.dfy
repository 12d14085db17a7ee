/** What the two job stores have in common: a table of job rows with a log for each, in which every call moves at
    most one row on. How a row may look, move and develop is given by the store's rules. */
module JobRows {
  import opened Prelude
  import opened JobRecords

  datatype Table<W> = Table(jobs: map<string, Job<W>>, events: EventLog)

  datatype Rules<!W> = Rules(
    ok: (Job<W>, seq<Event>) -> bool,
    starts: Job<W> -> bool,
    moves: (Job<W>, Job<W>, seq<Event>) -> bool,
    later: (Job<W>, seq<Event>, Job<W>, seq<Event>) -> bool)

  // ---------------------------------------------------------------- lawful rules

  /** A move keeps a row in order and develops it. */
  ghost predicate Keeps<W(!new)>(r: Rules<W>, job: Job<W>, events: seq<Event>, job': Job<W>, more: seq<Event>) {
    r.ok(job, events) && r.moves(job, job', more) ==> r.ok(job', events + more) && r.later(job, events, job', events + more)
  }

  ghost predicate Composes<W(!new)>(
    r: Rules<W>, a: Job<W>, x: seq<Event>, b: Job<W>, y: seq<Event>, c: Job<W>, z: seq<Event>)
  {
    r.later(a, x, b, y) && r.later(b, y, c, z) ==> r.later(a, x, c, z)
  }

  ghost predicate Stays<W(!new)>(r: Rules<W>, job: Job<W>, events: seq<Event>) { r.later(job, events, job, events) }

  ghost predicate Lawful<W(!new)>(r: Rules<W>) {
    && (forall job, events, job', more {:trigger Keeps(r, job, events, job', more)} :: Keeps(r, job, events, job', more))
    && (forall a, x, b, y, c, z {:trigger Composes(r, a, x, b, y, c, z)} :: Composes(r, a, x, b, y, c, z))
    && (forall job, events {:trigger Stays(r, job, events)} :: Stays(r, job, events))
  }

  // ---------------------------------------------------------------- tables

  ghost predicate RowAt<W(!new)>(r: Rules<W>, t: Table<W>, id: string) {
    id in t.jobs && id in t.events && r.ok(t.jobs[id], t.events[id])
  }

  ghost predicate Rows<W(!new)>(r: Rules<W>, t: Table<W>) {
    && t.jobs.Keys == t.events.Keys
    && forall id {:trigger RowAt(r, t, id)} :: id in t.jobs ==> RowAt(r, t, id)
  }

  /** What one call does to the row of a job: it moves on, or it stays; a new row is as it starts. */
  ghost predicate Evolves<W(!new)>(r: Rules<W>, t: Table<W>, t': Table<W>, id: string) {
    if id in t.jobs then
      && id in t.events && id in t'.jobs && id in t'.events && t.events[id] <= t'.events[id]
      && ((t'.jobs[id] == t.jobs[id] && t'.events[id] == t.events[id])
          || r.moves(t.jobs[id], t'.jobs[id], t'.events[id][|t.events[id]|..]))
    else
      id in t'.jobs ==> r.starts(t'.jobs[id])
  }

  ghost predicate Evolve<W(!new)>(r: Rules<W>, t: Table<W>, t': Table<W>) {
    forall id {:trigger Evolves(r, t, t', id)} :: Evolves(r, t, t', id)
  }

  lemma RowsSame<W(!new)>(r: Rules<W>, t: Table<W>)
    requires Rows(r, t)
    ensures Evolve(r, t, t)
  {
  }

  function Put<W>(t: Table<W>, id: string, job: Job<W>, more: seq<Event>): Table<W> {
    Table(t.jobs[id := job], AddEvents(t.events, id, more))
  }

  lemma PutKeeps<W(!new)>(r: Rules<W>, t: Table<W>, id: string, job: Job<W>, more: seq<Event>)
    requires Lawful(r) && Rows(r, t) && id in t.jobs && r.moves(t.jobs[id], job, more)
    ensures Rows(r, Put(t, id, job, more)) && Evolve(r, t, Put(t, id, job, more))
  {
    var t' := Put(t, id, job, more);
    assert RowAt(r, t, id) && Keeps(r, t.jobs[id], t.events[id], job, more);
    assert t'.events[id] == t.events[id] + more && t'.events[id][|t.events[id]|..] == more;
    assert RowAt(r, t', id) && Evolves(r, t, t', id);
    forall i | i != id ensures Evolves(r, t, t', i) && (i in t.jobs ==> RowAt(r, t', i)) {
      if i in t.jobs {
        assert RowAt(r, t, i);
      }
    }
  }

  lemma InsertKeeps<W(!new)>(r: Rules<W>, t: Table<W>, id: string, job: Job<W>, event: Event)
    requires Rows(r, t) && id !in t.jobs && r.starts(job) && r.ok(job, [event])
    ensures Rows(r, Put(t, id, job, [event])) && Evolve(r, t, Put(t, id, job, [event]))
  {
    var t' := Put(t, id, job, [event]);
    assert t'.events[id] == [event];
    forall i | i in t'.jobs ensures RowAt(r, t', i) {
      if i != id {
        assert RowAt(r, t, i);
      }
    }
    forall i ensures Evolves(r, t, t', i) {
      if i in t.jobs {
        assert RowAt(r, t, i);
      }
    }
  }

  // ---------------------------------------------------------------- development over a run

  ghost predicate LaterAt<W(!new)>(r: Rules<W>, t: Table<W>, t': Table<W>, id: string) {
    && id in t.jobs && id in t.events && id in t'.jobs && id in t'.events
    && r.later(t.jobs[id], t.events[id], t'.jobs[id], t'.events[id])
  }

  lemma LaterStep<W(!new)>(r: Rules<W>, t: Table<W>, t': Table<W>, id: string)
    requires Lawful(r) && Rows(r, t) && Evolve(r, t, t') && id in t.jobs
    ensures LaterAt(r, t, t', id)
  {
    assert RowAt(r, t, id) && Evolves(r, t, t', id) && Stays(r, t.jobs[id], t.events[id]);
    var more := t'.events[id][|t.events[id]|..];
    assert Keeps(r, t.jobs[id], t.events[id], t'.jobs[id], more);
    assert t'.events[id] == t.events[id] + more;
  }

  /** The tables of a run: each in order, and each developing into the next. */
  ghost predicate StepAt<W(!new)>(r: Rules<W>, ts: seq<Table<W>>, i: int) {
    && (0 <= i < |ts| ==> Rows(r, ts[i]))
    && (0 <= i < |ts| - 1 ==> Evolve(r, ts[i], ts[i + 1]))
  }

  ghost predicate History<W(!new)>(r: Rules<W>, ts: seq<Table<W>>) {
    forall i {:trigger StepAt(r, ts, i)} :: StepAt(r, ts, i)
  }

  lemma {:induction false} LaterRun<W(!new)>(r: Rules<W>, ts: seq<Table<W>>, k: nat, n: nat, id: string)
    requires Lawful(r) && History(r, ts) && k <= n < |ts| && id in ts[k].jobs
    ensures LaterAt(r, ts[k], ts[n], id)
  {
    if k == n {
      assert StepAt(r, ts, k);
      assert RowAt(r, ts[k], id) && Stays(r, ts[k].jobs[id], ts[k].events[id]);
    } else {
      LaterRun(r, ts, k, n - 1, id);
      assert StepAt(r, ts, n - 1);
      LaterStep(r, ts[n - 1], ts[n], id);
      assert Composes(r, ts[k].jobs[id], ts[k].events[id], ts[n - 1].jobs[id], ts[n - 1].events[id],
                      ts[n].jobs[id], ts[n].events[id]);
    }
  }

  // ---------------------------------------------------------------- claims

  /** A step takes a job from queued to running. */
  ghost predicate Claimed<W>(job: Job<W>, job': Job<W>) { job.status == Queued && job'.status == Running }

  ghost predicate Claims<W>(t: Table<W>, t': Table<W>, id: string) {
    id in t.jobs && id in t'.jobs && Claimed(t.jobs[id], t'.jobs[id])
  }

  /** How many of the first n steps claim the job. */
  ghost function ClaimCount<W>(ts: seq<Table<W>>, n: nat, id: string): nat
    requires n < |ts|
  {
    if n == 0 then 0 else ClaimCount(ts, n - 1, id) + if Claims(ts[n - 1], ts[n], id) then 1 else 0
  }

  // ---------------------------------------------------------------- containers

  ghost predicate BindingAt(cs: seq<Containers>, cid: string, i: int) {
    0 <= i < |cs| - 1 ==> BindingKept(cs[i], cs[i + 1], cid)
  }

  lemma {:induction false} BindingRun(cs: seq<Containers>, k: nat, n: nat, cid: string)
    requires k <= n < |cs| && cid in cs[k] && forall i {:trigger BindingAt(cs, cid, i)} :: BindingAt(cs, cid, i)
    ensures BindingKept(cs[k], cs[n], cid)
  {
    if k < n {
      BindingRun(cs, k, n - 1, cid);
      assert BindingAt(cs, cid, n - 1);
    }
  }
}
