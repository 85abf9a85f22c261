/** The in-memory store and the daily controller of services/arbitrage-engine as objects, proved
    against the ledger functions of `Publishing`. */
module PublishingController {
  import opened Publishing

  class InMemoryStore {
    var publishJobs: map<string, seq<Job>>
    var publishCounters: map<(string, string), int>
    var deadLetters: seq<DeadLetter>
    var publishResults: seq<PublishResult>

    constructor ()
      ensures View() == EMPTY
    {
      publishJobs, publishCounters, deadLetters, publishResults := map[], map[], [], [];
    }

    ghost function View(): Ledger
      reads this
    {
      Ledger(publishJobs, publishCounters, deadLetters, publishResults)
    }

    method EnqueuePublishJob(job: Job)
      modifies this
      ensures View() == Enqueue(old(View()), job)
    {
      var queue := if job.tenant in publishJobs then publishJobs[job.tenant] else [];
      publishJobs := publishJobs[job.tenant := queue + [job]];
    }

    method DequeuePublishJobs(tenant: string, maxItems: nat) returns (drained: seq<Job>)
      modifies this
      ensures View() == Dequeue(old(View()), tenant, maxItems)
      ensures drained + Queue(View(), tenant) == old(Queue(View(), tenant))
      ensures |drained| == Take(old(View()), tenant, maxItems)
      ensures var queue := old(Queue(View(), tenant));
              drained == if maxItems <= |queue| then queue[..maxItems] else queue
    {
      var queue := if tenant in publishJobs then publishJobs[tenant] else [];
      var n := if maxItems <= |queue| then maxItems else |queue|;
      drained := queue[..n];
      publishJobs := publishJobs[tenant := queue[n..]];
    }

    method IncreaseDailyCounter(tenant: string, day: string) returns (n: int)
      modifies this
      ensures n == Counter(old(View()), tenant, day) + 1
      ensures View() == old(View()).(counters := old(View()).counters[(tenant, day) := n])
    {
      n := (if (tenant, day) in publishCounters then publishCounters[(tenant, day)] else 0) + 1;
      publishCounters := publishCounters[(tenant, day) := n];
    }

    method GetDailyCounter(tenant: string, day: string) returns (n: int)
      modifies this
      ensures n == Counter(old(View()), tenant, day) && View() == Touch(old(View()), tenant, day)
    {
      n := if (tenant, day) in publishCounters then publishCounters[(tenant, day)] else 0;
      publishCounters := publishCounters[(tenant, day) := n];
    }

    method PutDeadLetter(entry: DeadLetter)
      modifies this
      ensures View() == old(View()).(dead := old(View()).dead + [entry])
    {
      deadLetters := deadLetters + [entry];
    }

    method RecordPublishResult(result: PublishResult)
      modifies this
      ensures View() == old(View()).(results := old(View()).results + [result])
    {
      publishResults := publishResults + [result];
    }
  }

  class DailyPublishingController {
    const policy: Policy
    const store: InMemoryStore

    constructor (policy: Policy, store: InMemoryStore)
      ensures this.policy == policy && this.store == store
    {
      this.policy, this.store := policy, store;
    }

    /** One job of the loop, with the `try` around it. */
    method Handle(tenant: string, day: string, job: Job, outcome: Outcome) returns (published: bool, buried: bool)
      modifies store
      ensures store.View() == Attempt(old(store.View()), policy, tenant, day, job, outcome)
      ensures |store.View().results| == |old(store.View()).results| + if published then 1 else 0
      ensures |store.View().dead| == |old(store.View()).dead| + if buried then 1 else 0
    {
      published, buried := false, false;
      if Submitted(outcome) {
        var _ := store.IncreaseDailyCounter(tenant, day);
        published := true;
        store.RecordPublishResult(PublishResult(
          tenant, job.product, job.video, outcome.network, Status(outcome), outcome.externalId));
      } else if job.retryCount < policy.retryBudget {
        store.EnqueuePublishJob(job.(retryCount := job.retryCount + 1));
      } else {
        store.PutDeadLetter(DeadLetter(job.tenant, job.product, job.video, Reason(outcome), job.retryCount));
        buried := true;
      }
    }

    method RunForTenant(tenant: string, day: string, publish: nat -> Outcome) returns (summary: Summary)
      modifies store
      ensures store.View() == Publishing.RunForTenant(old(store.View()), policy, tenant, day, publish)
      ensures summary.processed == |Drawn(old(store.View()), policy, tenant, day)|
      ensures var left := policy.dailyTarget - old(Counter(store.View(), tenant, day));
              var waiting := |old(Queue(store.View(), tenant))|;
              summary.processed == if left <= 0 then 0 else if left <= waiting then left else waiting
      ensures summary.published == |store.View().results| - |old(store.View()).results|
      ensures summary.deadLettered == |store.View().dead| - |old(store.View()).dead|
      ensures summary.remainingCapacity == Capacity(store.View(), policy, tenant, day)
    {
      hide Batch, Attempt, Publishing.RunForTenant, Drawn, Queue, Dequeue, Take, Touch, Counter, Capacity;
      ghost var start := store.View();
      var publishedToday := store.GetDailyCounter(tenant, day);
      var remainingCapacity := Max(0, policy.dailyTarget - publishedToday);
      CapacityIs(start, policy, tenant, day);
      RunIs(start, policy, tenant, day, publish);
      DrawnExactly(start, policy, tenant, day);
      if remainingCapacity == 0 {
        CapacityAfterTouch(start, policy, tenant, day);
        return Summary(0, 0, 0, 0);
      }
      ghost var touched := store.View();
      var jobs := store.DequeuePublishJobs(tenant, remainingCapacity);
      DrawnIs(start, policy, tenant, day, touched, jobs, store.View());
      ghost var l := store.View();
      BatchStart(l, policy, tenant, day, jobs, publish);
      var published, deadLettered := 0, 0;
      for i := 0 to |jobs|
        invariant store.View() == Batch(l, policy, tenant, day, jobs, publish, i)
        invariant published == |store.View().results| - |start.results|
        invariant deadLettered == |store.View().dead| - |start.dead|
      {
        BatchNext(l, policy, tenant, day, jobs, publish, i);
        var done, buried := Handle(tenant, day, jobs[i], publish(i));
        published := published + if done then 1 else 0;
        deadLettered := deadLettered + if buried then 1 else 0;
      }
      ghost var after := store.View();
      var counter := store.GetDailyCounter(tenant, day);
      BatchCounted(l, policy, tenant, day, jobs, publish, |jobs|);
      CapacityIs(after, policy, tenant, day);
      summary := Summary(|jobs|, published, deadLettered, Max(0, policy.dailyTarget - counter));
    }
  }

  lemma CapacityIs(l: Ledger, policy: Policy, tenant: string, day: string)
    ensures Capacity(l, policy, tenant, day) == Max(0, policy.dailyTarget - Counter(l, tenant, day))
  {
  }

  lemma CapacityAfterTouch(l: Ledger, policy: Policy, tenant: string, day: string)
    ensures Capacity(Touch(l, tenant, day), policy, tenant, day) == Capacity(l, policy, tenant, day)
  {
  }

  /** The jobs taken off the queue are the drawn ones. */
  lemma DrawnIs(l: Ledger, policy: Policy, tenant: string, day: string, touched: Ledger, jobs: seq<Job>, next: Ledger)
    requires touched == Touch(l, tenant, day) && next == Dequeue(touched, tenant, Capacity(l, policy, tenant, day))
    requires jobs + Queue(next, tenant) == Queue(touched, tenant)
    requires |jobs| == Take(touched, tenant, Capacity(l, policy, tenant, day))
    ensures jobs == Drawn(l, policy, tenant, day)
    ensures next.results == l.results && next.dead == l.dead && next.counters == touched.counters
    ensures next == Dequeue(Touch(l, tenant, day), tenant, Capacity(l, policy, tenant, day))
  {
    assert (jobs + Queue(next, tenant))[..|jobs|] == jobs;
    assert Queue(touched, tenant) == Queue(l, tenant);
    hide Capacity;
  }

  lemma BatchNext(l: Ledger, policy: Policy, tenant: string, day: string, jobs: seq<Job>, publish: nat -> Outcome,
      i: nat)
    requires i < |jobs|
    ensures Batch(l, policy, tenant, day, jobs, publish, i + 1) ==
            Attempt(Batch(l, policy, tenant, day, jobs, publish, i), policy, tenant, day, jobs[i], publish(i))
  {
    hide Attempt;
  }

  lemma BatchStart(l: Ledger, policy: Policy, tenant: string, day: string, jobs: seq<Job>, publish: nat -> Outcome)
    ensures Batch(l, policy, tenant, day, jobs, publish, 0) == l
  {
  }

  /** The counter a batch ends with is already stored, so reading it once more changes nothing. */
  lemma {:induction false} BatchCounted(l: Ledger, policy: Policy, tenant: string, day: string, jobs: seq<Job>,
      publish: nat -> Outcome, n: nat)
    requires n <= |jobs| && (tenant, day) in l.counters
    ensures (tenant, day) in Batch(l, policy, tenant, day, jobs, publish, n).counters
    ensures Touch(Batch(l, policy, tenant, day, jobs, publish, n), tenant, day) ==
            Batch(l, policy, tenant, day, jobs, publish, n)
  {
    if n > 0 { BatchCounted(l, policy, tenant, day, jobs, publish, n - 1); }
  }
}
