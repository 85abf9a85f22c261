/** The deployment records and the store that mutates them in place, proved against `Deployments`. */
module DeploymentStores {
  import opened Wrappers
  import opened Spec = Deployments

  class DeploymentRecord {
    const id: string
    const project: string
    const commit: string
    const environment: string
    const createdAt: string
    var phase: Phase
    var updatedAt: string
    var history: seq<Entry>

    constructor (r: Rec)
      ensures View() == r
    {
      id, project, commit, environment, createdAt := r.id, r.project, r.commit, r.environment, r.createdAt;
      phase, updatedAt, history := r.phase, r.updatedAt, r.history;
    }

    ghost function View(): Rec
      reads this
    {
      Rec(id, project, commit, environment, phase, createdAt, updatedAt, history)
    }
  }

  /** The records of a dictionary as values. */
  ghost function Viewed(records: map<string, DeploymentRecord>): map<string, Rec>
    reads records.Values
  {
    map id | id in records :: records[id].View()
  }

  lemma ViewedUpdate(records: map<string, DeploymentRecord>, id: string, record: DeploymentRecord)
    requires id !in records
    ensures Viewed(records[id := record]) == Viewed(records)[id := record.View()]
  {
  }

  class DeploymentStore {
    const env: Env
    var deployments: map<string, DeploymentRecord>
    var index: map<string, string>

    constructor (env: Env)
      ensures this.env == env && Valid() && View() == EMPTY
    {
      this.env := env;
      deployments, index := map[], map[];
    }

    /** No record object is filed under two identifiers, and the index points into the store. */
    ghost predicate Valid()
      reads this
    {
      && (forall a, b :: a in deployments && b in deployments && deployments[a] == deployments[b] ==> a == b)
      && (forall key :: key in index ==> index[key] in deployments)
    }

    ghost function View(): Store
      reads this, deployments.Values
    {
      Store(Viewed(deployments), index)
    }

    method Create(q: CreateRequest, id: string, now: string) returns (record: DeploymentRecord)
      requires Valid() && id !in deployments
      modifies this
      ensures Valid() && View() == Spec.Create(env, old(View()), q, id, now)
      ensures q.key in index && index[q.key] in deployments && record == deployments[index[q.key]]
    {
      if q.key in index {
        return deployments[index[q.key]];
      }
      hide Viewed, Created;
      ghost var before := Viewed(deployments);
      record := new DeploymentRecord(Created(env, q, id, now));
      assert Viewed(deployments) == before;
      ViewedUpdate(deployments, id, record);
      ghost var after := Viewed(deployments[id := record]);
      deployments := deployments[id := record];
      index := index[q.key := id];
      assert Viewed(deployments) == after;
    }

    method ApplyEvent(q: EventRequest, now: string) returns (r: Result<DeploymentRecord>)
      requires Valid()
      modifies deployments.Values
      ensures Valid() && deployments == old(deployments) && index == old(index)
      ensures match Spec.ApplyEvent(old(View()), q, now)
              case Err(error) => r == Err(error) && View() == old(View())
              case Ok(store) => View() == store && q.id in deployments && r == Ok(deployments[q.id])
    {
      if q.id !in deployments {
        return Err(KeyError);
      }
      var record := deployments[q.id];
      var next := Next(record.phase, q.event);
      if next.None? {
        return Err(ValueError);
      }
      ghost var before := Viewed(deployments);
      record.phase := next.value;
      record.updatedAt := now;
      record.history := record.history + [Entry(q.event, q.source, now, q.metadata, Some(next.value))];
      assert Viewed(deployments) == before[q.id := record.View()];
      return Ok(record);
    }
  }
}
