/** The publishing ledger as a value: the queue, counter, dead-letter and result functions of
    services/arbitrage-engine/src/core/database.py and one daily run of
    services/arbitrage-engine/src/publishing/controller.py, with what holds over any sequence of them. */
module Publishing {
  import opened Wrappers

  datatype Job = Job(tenant: string, product: string, video: string, url: string, retryCount: int)

  datatype DeadLetter = DeadLetter(tenant: string, product: string, video: string, reason: string, retryCount: int)

  datatype PublishResult =
    PublishResult(tenant: string, product: string, video: string, network: string, status: string, externalId: string)

  /** What `publish_fn` does with a job: return a result, possibly without a status, or raise. */
  datatype Outcome =
    | Returned(status: Option<string>, network: string, externalId: string)
    | Raised(reason: string)

  datatype Policy = Policy(dailyTarget: int, retryBudget: int)

  datatype Ledger = Ledger(
    queues: map<string, seq<Job>>,
    counters: map<(string, string), int>,
    dead: seq<DeadLetter>,
    results: seq<PublishResult>)

  datatype Summary = Summary(processed: int, published: int, deadLettered: int, remainingCapacity: int)

  function Queue(l: Ledger, tenant: string): seq<Job> {
    if tenant in l.queues then l.queues[tenant] else []
  }

  function Counter(l: Ledger, tenant: string, day: string): int {
    if (tenant, day) in l.counters then l.counters[(tenant, day)] else 0
  }

  function Max(a: int, b: int): int { if a >= b then a else b }

  function Enqueue(l: Ledger, job: Job): Ledger {
    l.(queues := l.queues[job.tenant := Queue(l, job.tenant) + [job]])
  }

  function Take(l: Ledger, tenant: string, n: int): int {
    if n <= |Queue(l, tenant)| then n else |Queue(l, tenant)|
  }

  function Dequeue(l: Ledger, tenant: string, n: nat): Ledger {
    l.(queues := l.queues[tenant := Queue(l, tenant)[Take(l, tenant, n)..]])
  }

  /** Reading a counter of the default dictionary stores its zero. */
  function Touch(l: Ledger, tenant: string, day: string): Ledger {
    l.(counters := l.counters[(tenant, day) := Counter(l, tenant, day)])
  }

  function Status(o: Outcome): string
    requires o.Returned?
  {
    match o.status
    case None => "submitted"
    case Some(status) => status
  }

  predicate Submitted(o: Outcome) {
    o.Returned? && Status(o) == "submitted"
  }

  function Reason(o: Outcome): string {
    match o
    case Raised(reason) => reason
    case Returned(_, _, _) => "publish status=" + Status(o)
  }

  function Attempt(l: Ledger, policy: Policy, tenant: string, day: string, job: Job, o: Outcome): Ledger {
    if Submitted(o) then
      l.(counters := l.counters[(tenant, day) := Counter(l, tenant, day) + 1],
         results := l.results + [PublishResult(tenant, job.product, job.video, o.network, Status(o), o.externalId)])
    else if job.retryCount < policy.retryBudget then
      Enqueue(l, job.(retryCount := job.retryCount + 1))
    else
      l.(dead := l.dead + [DeadLetter(job.tenant, job.product, job.video, Reason(o), job.retryCount)])
  }

  /** The ledger after the first `n` jobs of a batch; `publish(i)` is what the i-th call does. */
  function Batch(l: Ledger, policy: Policy, tenant: string, day: string, jobs: seq<Job>, publish: nat -> Outcome,
      n: nat): Ledger
    requires n <= |jobs|
  {
    if n == 0 then l
    else Attempt(Batch(l, policy, tenant, day, jobs, publish, n - 1), policy, tenant, day, jobs[n-1], publish(n - 1))
  }

  function Capacity(l: Ledger, policy: Policy, tenant: string, day: string): (n: int)
    ensures n >= 0
  {
    Max(0, policy.dailyTarget - Counter(l, tenant, day))
  }

  /** The jobs a run attempts: the head of the queue, as far as the day's capacity goes. */
  function Drawn(l: Ledger, policy: Policy, tenant: string, day: string): seq<Job> {
    Queue(l, tenant)[..Take(l, tenant, Capacity(l, policy, tenant, day))]
  }

  function RunForTenant(l: Ledger, policy: Policy, tenant: string, day: string, publish: nat -> Outcome): Ledger {
    var touched := Touch(l, tenant, day);
    if Capacity(l, policy, tenant, day) == 0 then touched
    else
      var jobs := Drawn(l, policy, tenant, day);
      Batch(Dequeue(touched, tenant, Capacity(l, policy, tenant, day)), policy, tenant, day, jobs, publish, |jobs|)
  }

  datatype Action =
    | Submit(job: Job)
    | Run(tenant: string, day: string, publish: nat -> Outcome)

  function Step(l: Ledger, policy: Policy, a: Action): Ledger {
    match a
    case Submit(job) => Enqueue(l, job)
    case Run(tenant, day, publish) => RunForTenant(l, policy, tenant, day, publish)
  }

  function Play(l: Ledger, policy: Policy, actions: seq<Action>): Ledger
    decreases |actions|
  {
    if actions == [] then l else Play(Step(l, policy, actions[0]), policy, actions[1..])
  }

  const EMPTY := Ledger(map[], map[], [], [])

  // ---------- the tenant invariant ----------

  /** Every queued job is in its own tenant's queue. */
  ghost predicate Filed(l: Ledger) {
    forall tenant, job :: tenant in l.queues && job in l.queues[tenant] ==> job.tenant == tenant
  }

  lemma {:induction false} BatchFiled(l: Ledger, policy: Policy, tenant: string, day: string, jobs: seq<Job>,
      publish: nat -> Outcome, n: nat)
    requires Filed(l) && n <= |jobs|
    ensures Filed(Batch(l, policy, tenant, day, jobs, publish, n))
  {
    if n > 0 {
      BatchFiled(l, policy, tenant, day, jobs, publish, n - 1);
    }
  }

  lemma DequeueFiled(l: Ledger, tenant: string, n: nat)
    requires Filed(l)
    ensures Filed(Dequeue(l, tenant, n))
    ensures forall job :: job in Queue(l, tenant) ==> job.tenant == tenant
  {
    var q := Queue(l, tenant);
    assert forall job :: job in q[Take(l, tenant, n)..] ==> job in q;
  }

  lemma StepFiled(l: Ledger, policy: Policy, a: Action)
    requires Filed(l)
    ensures Filed(Step(l, policy, a))
  {
    match a {
      case Submit(job) =>
      case Run(tenant, day, publish) =>
        hide Batch, Dequeue;
        var touched := Touch(l, tenant, day);
        DequeueFiled(touched, tenant, Capacity(l, policy, tenant, day));
        var jobs := Drawn(l, policy, tenant, day);
        BatchFiled(Dequeue(touched, tenant, Capacity(l, policy, tenant, day)), policy, tenant, day, jobs, publish,
            |jobs|);
    }
  }

  // ---------- what the records say ----------

  /** Results record submissions only; a queued job has retries within the budget, a buried one has
      used exactly all of it. */
  ghost predicate Truthful(l: Ledger, policy: Policy) {
    && (forall r :: r in l.results ==> r.status == "submitted")
    && (forall d :: d in l.dead ==> d.retryCount == policy.retryBudget)
    && (forall tenant, job :: tenant in l.queues && job in l.queues[tenant] ==> job.retryCount <= policy.retryBudget)
  }

  ghost predicate WithinBudget(policy: Policy, actions: seq<Action>) {
    forall a :: a in actions && a.Submit? ==> a.job.retryCount <= policy.retryBudget
  }

  lemma {:induction false} BatchTruthful(l: Ledger, policy: Policy, tenant: string, day: string, jobs: seq<Job>,
      publish: nat -> Outcome, n: nat)
    requires Truthful(l, policy) && n <= |jobs| && forall job :: job in jobs ==> job.retryCount <= policy.retryBudget
    ensures Truthful(Batch(l, policy, tenant, day, jobs, publish, n), policy)
  {
    if n > 0 {
      BatchTruthful(l, policy, tenant, day, jobs, publish, n - 1);
      assert jobs[n-1] in jobs;
    }
  }

  lemma DequeueTruthful(l: Ledger, policy: Policy, tenant: string, day: string, n: nat)
    requires Truthful(l, policy)
    ensures Truthful(Dequeue(Touch(l, tenant, day), tenant, n), policy)
    ensures forall job :: job in Queue(l, tenant) ==> job.retryCount <= policy.retryBudget
  {
    var q := Queue(l, tenant);
    assert forall job :: job in q[Take(l, tenant, n)..] ==> job in q;
  }

  lemma StepTruthful(l: Ledger, policy: Policy, a: Action)
    requires Truthful(l, policy) && (a.Submit? ==> a.job.retryCount <= policy.retryBudget)
    ensures Truthful(Step(l, policy, a), policy)
  {
    match a {
      case Submit(job) =>
      case Run(tenant, day, publish) =>
        var n, jobs := Capacity(l, policy, tenant, day), Drawn(l, policy, tenant, day);
        if n > 0 {
          hide Batch, Dequeue, Capacity, Truthful, Touch;
          DequeueTruthful(l, policy, tenant, day, n);
          assert forall job :: job in jobs ==> job in Queue(l, tenant);
          BatchTruthful(Dequeue(Touch(l, tenant, day), tenant, n), policy, tenant, day, jobs, publish, |jobs|);
        }
    }
  }

  /** No job is buried with retries left or after more than the budget, and no failure is recorded as
      published, over any run. */
  lemma {:induction false} BuriedWhenSpent(l: Ledger, policy: Policy, actions: seq<Action>)
    requires Truthful(l, policy) && WithinBudget(policy, actions)
    ensures Truthful(Play(l, policy, actions), policy)
    decreases |actions|
  {
    hide Truthful, Step;
    if actions != [] {
      assert actions[0] in actions;
      StepTruthful(l, policy, actions[0]);
      assert forall a :: a in actions[1..] ==> a in actions;
      BuriedWhenSpent(Step(l, policy, actions[0]), policy, actions[1..]);
    }
  }

  // ---------- where a job can be ----------

  /** What identifies a job in the queue, in the results and among the dead letters. */
  datatype Id = Id(tenant: string, product: string, video: string)

  function JobId(job: Job): Id { Id(job.tenant, job.product, job.video) }

  function ResultId(r: PublishResult): Id { Id(r.tenant, r.product, r.video) }

  function DeadId(d: DeadLetter): Id { Id(d.tenant, d.product, d.video) }

  /** Number of entries of a list with a given id. */
  function Count<T>(s: seq<T>, id: T -> Id, k: Id): nat {
    if s == [] then 0 else Count(s[..|s| - 1], id, k) + if id(s[|s| - 1]) == k then 1 else 0
  }

  lemma CountSnoc<T>(s: seq<T>, x: T, id: T -> Id, k: Id)
    ensures Count(s + [x], id, k) == Count(s, id, k) + if id(x) == k then 1 else 0
  {
    assert (s + [x])[..|s|] == s;
  }

  lemma {:induction false} CountConcat<T>(s: seq<T>, t: seq<T>, id: T -> Id, k: Id)
    ensures Count(s + t, id, k) == Count(s, id, k) + Count(t, id, k)
  {
    if t == [] {
      assert s + t == s;
    } else {
      assert (s + t)[..|s + t| - 1] == s + t[..|t| - 1];
      CountConcat(s, t[..|t| - 1], id, k);
    }
  }

  function Waiting(l: Ledger, k: Id): nat { Count(Queue(l, k.tenant), JobId, k) }

  function Published(l: Ledger, k: Id): nat { Count(l.results, ResultId, k) }

  function Buried(l: Ledger, k: Id): nat { Count(l.dead, DeadId, k) }

  function Holdings(l: Ledger, k: Id): nat { Waiting(l, k) + Published(l, k) + Buried(l, k) }

  /** An attempt puts the job in exactly one of the three places. */
  lemma AttemptHoldings(l: Ledger, policy: Policy, tenant: string, day: string, job: Job, o: Outcome, k: Id)
    requires job.tenant == tenant
    ensures Holdings(Attempt(l, policy, tenant, day, job, o), k) == Holdings(l, k) + if JobId(job) == k then 1 else 0
  {
    if Submitted(o) {
      CountSnoc(l.results, PublishResult(tenant, job.product, job.video, o.network, Status(o), o.externalId),
          ResultId, k);
    } else if job.retryCount < policy.retryBudget {
      CountSnoc(Queue(l, job.tenant), job.(retryCount := job.retryCount + 1), JobId, k);
    } else {
      CountSnoc(l.dead, DeadLetter(job.tenant, job.product, job.video, Reason(o), job.retryCount), DeadId, k);
    }
  }

  lemma {:induction false} BatchHoldings(l: Ledger, policy: Policy, tenant: string, day: string, jobs: seq<Job>,
      publish: nat -> Outcome, n: nat, k: Id)
    requires n <= |jobs| && forall job :: job in jobs ==> job.tenant == tenant
    ensures Holdings(Batch(l, policy, tenant, day, jobs, publish, n), k) == Holdings(l, k) + Count(jobs[..n], JobId, k)
  {
    hide Holdings, Attempt, Count;
    if n == 0 {
      CountNone(jobs[..0], JobId, k);
    } else {
      BatchHoldings(l, policy, tenant, day, jobs, publish, n - 1, k);
      AttemptHoldings(Batch(l, policy, tenant, day, jobs, publish, n - 1), policy, tenant, day, jobs[n-1],
          publish(n - 1), k);
      assert jobs[..n] == jobs[..n-1] + [jobs[n-1]];
      CountSnoc(jobs[..n-1], jobs[n-1], JobId, k);
    }
  }

  lemma DequeueHoldings(l: Ledger, tenant: string, n: nat, k: Id)
    requires Filed(l)
    ensures Holdings(l, k) ==
            Holdings(Dequeue(l, tenant, n), k) + Count(Queue(l, tenant)[..Take(l, tenant, n)], JobId, k)
  {
    var q, m := Queue(l, tenant), Take(l, tenant, n);
    assert q == q[..m] + q[m..];
    CountConcat(q[..m], q[m..], JobId, k);
    if k.tenant != tenant {
      forall job | job in q[..m] ensures JobId(job) != k { assert job in q; }
      CountNone(q[..m], JobId, k);
    }
  }

  lemma {:induction false} CountNone<T>(s: seq<T>, id: T -> Id, k: Id)
    requires forall x :: x in s ==> id(x) != k
    ensures Count(s, id, k) == 0
  {
    if s != [] { CountNone(s[..|s| - 1], id, k); }
  }

  function SubmittedIn(a: Action, k: Id): nat {
    if a.Submit? && JobId(a.job) == k then 1 else 0
  }

  lemma StepHoldings(l: Ledger, policy: Policy, a: Action, k: Id)
    requires Filed(l)
    ensures Holdings(Step(l, policy, a), k) == Holdings(l, k) + SubmittedIn(a, k)
  {
    match a {
      case Submit(job) => CountSnoc(Queue(l, job.tenant), job, JobId, k);
      case Run(tenant, day, publish) =>
        hide Batch, Dequeue, Count, Filed;
        var touched, n := Touch(l, tenant, day), Capacity(l, policy, tenant, day);
        assert Filed(touched) by { TouchFiled(l, tenant, day); }
        assert Holdings(touched, k) == Holdings(l, k);
        var jobs := Drawn(l, policy, tenant, day);
        DequeueFiled(touched, tenant, n);
        DequeueHoldings(touched, tenant, n, k);
        assert jobs == Queue(touched, tenant)[..Take(touched, tenant, n)];
        BatchHoldings(Dequeue(touched, tenant, n), policy, tenant, day, jobs, publish, |jobs|, k);
        assert jobs[..|jobs|] == jobs;
    }
  }

  lemma TouchFiled(l: Ledger, tenant: string, day: string)
    requires Filed(l)
    ensures Filed(Touch(l, tenant, day))
  {
  }

  function TotalSubmitted(actions: seq<Action>, k: Id): nat {
    if actions == [] then 0 else SubmittedIn(actions[0], k) + TotalSubmitted(actions[1..], k)
  }

  /** Over any run, every submitted job is in exactly one of queue, results and dead letters. */
  lemma {:induction false} NothingLost(l: Ledger, policy: Policy, actions: seq<Action>, k: Id)
    requires Filed(l)
    ensures Holdings(Play(l, policy, actions), k) == Holdings(l, k) + TotalSubmitted(actions, k)
    decreases |actions|
  {
    hide Holdings, Step, Filed;
    if actions != [] {
      StepFiled(l, policy, actions[0]);
      StepHoldings(l, policy, actions[0], k);
      NothingLost(Step(l, policy, actions[0]), policy, actions[1..], k);
    }
  }

  // ---------- the daily cap ----------

  lemma {:induction false} BatchCounter(l: Ledger, policy: Policy, tenant: string, day: string, jobs: seq<Job>,
      publish: nat -> Outcome, n: nat, t: string, d: string)
    requires n <= |jobs|
    ensures var after := Batch(l, policy, tenant, day, jobs, publish, n);
            && (if (t, d) == (tenant, day)
                then Counter(l, t, d) <= Counter(after, t, d) <= Counter(l, t, d) + n
                else Counter(after, t, d) == Counter(l, t, d))
            && Counter(after, tenant, day) - Counter(l, tenant, day) == |after.results| - |l.results|
  {
    if n > 0 { BatchCounter(l, policy, tenant, day, jobs, publish, n - 1, t, d); }
  }

  ghost predicate Capped(l: Ledger, policy: Policy) {
    forall t, d :: Counter(l, t, d) <= Max(0, policy.dailyTarget)
  }

  lemma StepCapped(l: Ledger, policy: Policy, a: Action)
    requires Capped(l, policy)
    ensures Capped(Step(l, policy, a), policy)
  {
    forall t, d ensures Counter(Step(l, policy, a), t, d) <= Max(0, policy.dailyTarget) {
      assert Counter(l, t, d) <= Max(0, policy.dailyTarget);
      match a {
        case Submit(job) =>
        case Run(tenant, day, publish) => RunCounter(l, policy, tenant, day, publish, t, d);
      }
    }
  }

  lemma RunCounter(l: Ledger, policy: Policy, tenant: string, day: string, publish: nat -> Outcome, t: string,
      d: string)
    requires Counter(l, t, d) <= Max(0, policy.dailyTarget)
    ensures Counter(RunForTenant(l, policy, tenant, day, publish), t, d) <= Max(0, policy.dailyTarget)
  {
    hide Batch;
    var touched, n := Touch(l, tenant, day), Capacity(l, policy, tenant, day);
    var jobs := Drawn(l, policy, tenant, day);
    BatchCounter(Dequeue(touched, tenant, n), policy, tenant, day, jobs, publish, |jobs|, t, d);
  }

  /** No tenant's counter for a day ever exceeds the daily target. */
  lemma {:induction false} NeverOverCap(l: Ledger, policy: Policy, actions: seq<Action>)
    requires Capped(l, policy)
    ensures Capped(Play(l, policy, actions), policy)
    decreases |actions|
  {
    hide Step, Capped;
    if actions != [] {
      StepCapped(l, policy, actions[0]);
      NeverOverCap(Step(l, policy, actions[0]), policy, actions[1..]);
    }
  }

  // ---------- attempts ----------

  /** Attempts a queued job has left. */
  function Left(policy: Policy, job: Job): (n: int)
    ensures n >= 1
  {
    Max(1, policy.retryBudget + 1 - job.retryCount)
  }

  /** Attempts left to the jobs with an id, or to all jobs when no id is given. */
  function AllLeft(policy: Policy, jobs: seq<Job>, k: Option<Id>): nat {
    if jobs == [] then 0
    else AllLeft(policy, jobs[..|jobs| - 1], k)
         + if k == None || Some(JobId(jobs[|jobs| - 1])) == k then Left(policy, jobs[|jobs| - 1]) else 0
  }

  function Matching(jobs: seq<Job>, k: Option<Id>): nat {
    if jobs == [] then 0
    else Matching(jobs[..|jobs| - 1], k) + if k == None || Some(JobId(jobs[|jobs| - 1])) == k then 1 else 0
  }

  lemma LeftSnoc(policy: Policy, jobs: seq<Job>, job: Job, k: Option<Id>)
    ensures AllLeft(policy, jobs + [job], k) ==
            AllLeft(policy, jobs, k) + if k == None || Some(JobId(job)) == k then Left(policy, job) else 0
    ensures Matching(jobs + [job], k) == Matching(jobs, k) + if k == None || Some(JobId(job)) == k then 1 else 0
  {
    assert (jobs + [job])[..|jobs|] == jobs;
  }

  lemma {:induction false} LeftConcat(policy: Policy, a: seq<Job>, b: seq<Job>, k: Option<Id>)
    ensures AllLeft(policy, a + b, k) == AllLeft(policy, a, k) + AllLeft(policy, b, k)
  {
    if b == [] {
      assert a + b == a;
    } else {
      assert (a + b)[..|a + b| - 1] == a + b[..|b| - 1];
      LeftConcat(policy, a, b[..|b| - 1], k);
    }
  }

  /** An attempt uses up at least one of the attempts left to that job. */
  lemma AttemptLeft(l: Ledger, policy: Policy, tenant: string, day: string, job: Job, o: Outcome, k: Option<Id>)
    requires job.tenant == tenant
    ensures AllLeft(policy, Queue(Attempt(l, policy, tenant, day, job, o), tenant), k) + Matching([job], k)
            <= AllLeft(policy, Queue(l, tenant), k) + AllLeft(policy, [job], k)
    ensures forall t :: t != tenant ==> Queue(Attempt(l, policy, tenant, day, job, o), t) == Queue(l, t)
  {
    hide AllLeft, Matching;
    assert [] + [job] == [job];
    LeftNone(policy, k);
    LeftSnoc(policy, [], job, k);
    LeftSnoc(policy, Queue(l, tenant), job.(retryCount := job.retryCount + 1), k);
  }

  lemma LeftNone(policy: Policy, k: Option<Id>)
    ensures AllLeft(policy, [], k) == 0 && Matching([], k) == 0
  {
  }

  lemma {:induction false} BatchLeft(l: Ledger, policy: Policy, tenant: string, day: string, jobs: seq<Job>,
      publish: nat -> Outcome, n: nat, k: Option<Id>)
    requires n <= |jobs| && forall job :: job in jobs ==> job.tenant == tenant
    ensures AllLeft(policy, Queue(Batch(l, policy, tenant, day, jobs, publish, n), tenant), k) + Matching(jobs[..n], k)
            <= AllLeft(policy, Queue(l, tenant), k) + AllLeft(policy, jobs[..n], k)
    ensures forall t :: t != tenant ==> Queue(Batch(l, policy, tenant, day, jobs, publish, n), t) == Queue(l, t)
  {
    hide AllLeft, Matching, Attempt, Queue, Left;
    if n > 0 {
      BatchLeft(l, policy, tenant, day, jobs, publish, n - 1, k);
      AttemptLeft(Batch(l, policy, tenant, day, jobs, publish, n - 1), policy, tenant, day, jobs[n-1],
          publish(n - 1), k);
      SplitLast(policy, jobs, n, k);
    } else {
      LeftNone(policy, k);
    }
  }

  lemma SplitLast(policy: Policy, jobs: seq<Job>, n: nat, k: Option<Id>)
    requires 0 < n <= |jobs|
    ensures AllLeft(policy, jobs[..n], k) == AllLeft(policy, jobs[..n-1], k) + AllLeft(policy, [jobs[n-1]], k)
    ensures Matching(jobs[..n], k) == Matching(jobs[..n-1], k) + Matching([jobs[n-1]], k)
  {
    hide AllLeft, Matching, Left;
    LeftNone(policy, k);
    assert jobs[..n] == jobs[..n-1] + [jobs[n-1]] && [jobs[n-1]] == [] + [jobs[n-1]];
    LeftSnoc(policy, jobs[..n-1], jobs[n-1], k);
    LeftSnoc(policy, [], jobs[n-1], k);
  }

  lemma RunLeft(l: Ledger, policy: Policy, tenant: string, day: string, publish: nat -> Outcome, k: Option<Id>)
    requires Filed(l)
    ensures var after := RunForTenant(l, policy, tenant, day, publish);
            AllLeft(policy, Queue(after, tenant), k) + Matching(Drawn(l, policy, tenant, day), k)
            <= AllLeft(policy, Queue(l, tenant), k)
    ensures forall t :: t != tenant ==> Queue(RunForTenant(l, policy, tenant, day, publish), t) == Queue(l, t)
  {
    hide AllLeft, Matching, Batch;
    var touched, n := Touch(l, tenant, day), Capacity(l, policy, tenant, day);
    var q, m, jobs := Queue(l, tenant), Take(l, tenant, n), Drawn(l, policy, tenant, day);
    assert q == q[..m] + q[m..];
    assert forall job :: job in jobs ==> job in q;
    DequeueFiled(l, tenant, n);
    LeftConcat(policy, q[..m], q[m..], k);
    BatchLeft(Dequeue(touched, tenant, n), policy, tenant, day, jobs, publish, |jobs|, k);
    assert jobs[..|jobs|] == jobs;
    if n == 0 { NoneMatch(policy, jobs, k); }
  }

  lemma NoneMatch(policy: Policy, jobs: seq<Job>, k: Option<Id>)
    requires jobs == []
    ensures Matching(jobs, k) == 0
  {
  }

  function AttemptedIn(l: Ledger, policy: Policy, a: Action, k: Id): nat {
    match a
    case Submit(_) => 0
    case Run(tenant, day, _) => Matching(Drawn(l, policy, tenant, day), Some(k))
  }

  function EntitledBy(policy: Policy, a: Action, k: Id): nat {
    if a.Submit? && JobId(a.job) == k then Left(policy, a.job) else 0
  }

  /** Attempts made on jobs with an id over a run. */
  ghost function Attempts(l: Ledger, policy: Policy, actions: seq<Action>, k: Id): nat
    decreases |actions|
  {
    if actions == [] then 0
    else
      AttemptedIn(l, policy, actions[0], k) + Attempts(Step(l, policy, actions[0]), policy, actions[1..], k)
  }

  /** Attempts that the submitted jobs with an id were entitled to. */
  ghost function Entitled(policy: Policy, actions: seq<Action>, k: Id): nat {
    if actions == [] then 0
    else
      EntitledBy(policy, actions[0], k) + Entitled(policy, actions[1..], k)
  }

  /** A job is attempted at most `retry_budget + 1` times, less what its retry count says was used. */
  lemma {:induction false} AttemptsBounded(l: Ledger, policy: Policy, actions: seq<Action>, k: Id)
    requires Filed(l)
    ensures Attempts(l, policy, actions, k) + AllLeft(policy, Queue(Play(l, policy, actions), k.tenant), Some(k))
            <= AllLeft(policy, Queue(l, k.tenant), Some(k)) + Entitled(policy, actions, k)
    decreases |actions|
  {
    if actions != [] {
      StepFiled(l, policy, actions[0]);
      AttemptsBounded(Step(l, policy, actions[0]), policy, actions[1..], k);
      AttemptsStep(l, policy, actions[0], k);
    }
  }

  lemma AttemptsStep(l: Ledger, policy: Policy, a: Action, k: Id)
    requires Filed(l)
    ensures AllLeft(policy, Queue(Step(l, policy, a), k.tenant), Some(k)) + AttemptedIn(l, policy, a, k)
            <= AllLeft(policy, Queue(l, k.tenant), Some(k)) + EntitledBy(policy, a, k)
  {
    hide AllLeft, Matching, RunForTenant;
    match a {
      case Submit(job) => LeftSnoc(policy, Queue(l, job.tenant), job, Some(k));
      case Run(tenant, day, publish) =>
        RunLeft(l, policy, tenant, day, publish, Some(k));
        if tenant != k.tenant {
          DequeueFiled(l, tenant, 0);
          forall job | job in Drawn(l, policy, tenant, day) ensures JobId(job) != k {
            assert job in Queue(l, tenant);
          }
          OthersDoNotMatch(Drawn(l, policy, tenant, day), k);
        }
    }
  }

  lemma {:induction false} OthersDoNotMatch(jobs: seq<Job>, k: Id)
    requires forall job :: job in jobs ==> JobId(job) != k
    ensures Matching(jobs, Some(k)) == 0
  {
    if jobs != [] { OthersDoNotMatch(jobs[..|jobs| - 1], k); }
  }

  // ---------- order ----------

  /** The jobs of a batch that go back to the queue, in the order they failed. */
  function Retries(policy: Policy, jobs: seq<Job>, publish: nat -> Outcome, n: nat): seq<Job>
    requires n <= |jobs|
  {
    if n == 0 then []
    else
      var job := jobs[n-1];
      Retries(policy, jobs, publish, n - 1)
      + if !Submitted(publish(n - 1)) && job.retryCount < policy.retryBudget
        then [job.(retryCount := job.retryCount + 1)] else []
  }

  lemma AttemptQueue(l: Ledger, policy: Policy, tenant: string, day: string, job: Job, o: Outcome)
    requires job.tenant == tenant
    ensures Queue(Attempt(l, policy, tenant, day, job, o), tenant) ==
            Queue(l, tenant) + if !Submitted(o) && job.retryCount < policy.retryBudget
                               then [job.(retryCount := job.retryCount + 1)] else []
  {
  }

  lemma {:induction false} BatchQueue(l: Ledger, policy: Policy, tenant: string, day: string, jobs: seq<Job>,
      publish: nat -> Outcome, n: nat)
    requires n <= |jobs| && forall job :: job in jobs ==> job.tenant == tenant
    ensures Queue(Batch(l, policy, tenant, day, jobs, publish, n), tenant) ==
            Queue(l, tenant) + Retries(policy, jobs, publish, n)
  {
    hide Submitted, Queue, Attempt;
    if n == 0 {
      assert Queue(l, tenant) + [] == Queue(l, tenant);
    } else {
      var before, o := Batch(l, policy, tenant, day, jobs, publish, n - 1), publish(n - 1);
      var retry := if !Submitted(o) && jobs[n-1].retryCount < policy.retryBudget
                   then [jobs[n-1].(retryCount := jobs[n-1].retryCount + 1)] else [];
      BatchQueue(l, policy, tenant, day, jobs, publish, n - 1);
      AttemptQueue(before, policy, tenant, day, jobs[n-1], o);
      Regroup(Queue(l, tenant), Retries(policy, jobs, publish, n - 1), retry);
    }
  }

  lemma Regroup(a: seq<Job>, b: seq<Job>, c: seq<Job>)
    ensures a + (b + c) == (a + b) + c
  {
  }

  /** What a run hands to the batch: the counter is read, the head of the queue taken off. */
  lemma DrawnQueue(l: Ledger, policy: Policy, tenant: string, day: string)
    ensures var n := Capacity(l, policy, tenant, day);
            Queue(Dequeue(Touch(l, tenant, day), tenant, n), tenant)
            == Queue(l, tenant)[|Drawn(l, policy, tenant, day)|..]
  {
    hide Capacity;
  }

  /** First in, first out: a run leaves the undrawn jobs in order and its retries behind them, so no
      job is attempted twice in one run. */
  lemma RunQueue(l: Ledger, policy: Policy, tenant: string, day: string, publish: nat -> Outcome)
    requires Filed(l)
    ensures var jobs := Drawn(l, policy, tenant, day);
            Queue(RunForTenant(l, policy, tenant, day, publish), tenant) ==
            Queue(l, tenant)[|jobs|..] + Retries(policy, jobs, publish, |jobs|)
  {
    var n := Capacity(l, policy, tenant, day);
    var jobs := Drawn(l, policy, tenant, day);
    if n == 0 {
      assert jobs == [] && Queue(Touch(l, tenant, day), tenant) == Queue(l, tenant);
      assert Retries(policy, jobs, publish, 0) == [];
    } else {
      assert forall job :: job in jobs ==> job in Queue(l, tenant);
      hide Batch, Queue, Dequeue, Touch, Capacity, Drawn, Retries, Filed;
      DequeueFiled(l, tenant, n);
      DrawnQueue(l, policy, tenant, day);
      BatchQueue(Dequeue(Touch(l, tenant, day), tenant, n), policy, tenant, day, jobs, publish, |jobs|);
    }
  }

  // ---------- how much a run does ----------

  /** A dequeue of `n` takes the first `n` jobs, or the whole queue when it is not longer, and leaves the rest. */
  lemma DequeueExactly(l: Ledger, tenant: string, n: nat)
    ensures var queue, m := Queue(l, tenant), Take(l, tenant, n);
            && (n <= |queue| ==> queue[..m] == queue[..n] && Queue(Dequeue(l, tenant, n), tenant) == queue[n..])
            && (n > |queue| ==> queue[..m] == queue && Queue(Dequeue(l, tenant, n), tenant) == [])
  {
  }

  /** A run attempts the whole queue, or exactly as much of its head as the target still asks for. */
  lemma DrawnExactly(l: Ledger, policy: Policy, tenant: string, day: string)
    ensures var queue, left := Queue(l, tenant), policy.dailyTarget - Counter(l, tenant, day);
            Drawn(l, policy, tenant, day) == if left <= 0 then [] else if left <= |queue| then queue[..left] else queue
  {
  }

  lemma {:induction false} AllSubmitted(l: Ledger, policy: Policy, tenant: string, day: string, jobs: seq<Job>,
      publish: nat -> Outcome, n: nat)
    requires n <= |jobs| && forall i: nat :: i < n ==> Submitted(publish(i))
    ensures Counter(Batch(l, policy, tenant, day, jobs, publish, n), tenant, day) == Counter(l, tenant, day) + n
    ensures Batch(l, policy, tenant, day, jobs, publish, n).queues == l.queues
    ensures Batch(l, policy, tenant, day, jobs, publish, n).dead == l.dead
  {
    if n > 0 { AllSubmitted(l, policy, tenant, day, jobs, publish, n - 1); }
  }

  /** When everything attempted is submitted, a run reaches the day's target or empties the queue, and what
      it leaves is what it did not attempt. */
  lemma RunReaches(l: Ledger, policy: Policy, tenant: string, day: string, publish: nat -> Outcome)
    requires forall i: nat :: i < |Drawn(l, policy, tenant, day)| ==> Submitted(publish(i))
    ensures var after, jobs := RunForTenant(l, policy, tenant, day, publish), Drawn(l, policy, tenant, day);
            && Counter(after, tenant, day) == Counter(l, tenant, day) + |jobs|
            && Queue(after, tenant) == Queue(l, tenant)[|jobs|..]
            && after.dead == l.dead
            && (Counter(after, tenant, day) >= policy.dailyTarget || Queue(after, tenant) == [])
  {
    hide Batch, Dequeue, Touch, RunForTenant, Queue, Drawn, Counter, Submitted;
    var n, jobs := Capacity(l, policy, tenant, day), Drawn(l, policy, tenant, day);
    DrawnExactly(l, policy, tenant, day);
    DrawnQueue(l, policy, tenant, day);
    RunIs(l, policy, tenant, day, publish);
    PreparedLedger(l, policy, tenant, day);
    if n > 0 {
      AllSubmitted(Dequeue(Touch(l, tenant, day), tenant, n), policy, tenant, day, jobs, publish, |jobs|);
      SameQueues(RunForTenant(l, policy, tenant, day, publish), Dequeue(Touch(l, tenant, day), tenant, n), tenant);
    }
  }

  lemma SameQueues(l: Ledger, m: Ledger, tenant: string)
    requires l.queues == m.queues
    ensures Queue(l, tenant) == Queue(m, tenant)
  {
  }

  /** Reading the counter and dequeuing change no count and bury nothing. */
  lemma PreparedLedger(l: Ledger, policy: Policy, tenant: string, day: string)
    ensures var n := Capacity(l, policy, tenant, day);
            var touched, next := Touch(l, tenant, day), Dequeue(Touch(l, tenant, day), tenant, n);
            && Counter(touched, tenant, day) == Counter(next, tenant, day) == Counter(l, tenant, day)
            && touched.dead == next.dead == l.dead && Queue(touched, tenant) == Queue(l, tenant)
  {
    hide Capacity;
  }

  /** A run in the terms of its parts. */
  lemma RunIs(l: Ledger, policy: Policy, tenant: string, day: string, publish: nat -> Outcome)
    ensures var n, jobs := Capacity(l, policy, tenant, day), Drawn(l, policy, tenant, day);
            var touched := Touch(l, tenant, day);
            && touched.results == l.results && touched.dead == l.dead && (tenant, day) in touched.counters
            && (n == 0 ==> jobs == [] && RunForTenant(l, policy, tenant, day, publish) == touched)
            && (n > 0 ==>
                  RunForTenant(l, policy, tenant, day, publish) ==
                  Batch(Dequeue(touched, tenant, n), policy, tenant, day, jobs, publish, |jobs|))
  {
    hide Batch;
  }

  // ---------- what a run writes down ----------

  /** Where a job of tenant `tenant` is to be found after what its publishing call did. */
  predicate WrittenDown(l: Ledger, policy: Policy, tenant: string, job: Job, o: Outcome) {
    match o
    case Raised(text) =>
      if job.retryCount < policy.retryBudget
      then Job(tenant, job.product, job.video, job.url, job.retryCount + 1) in Queue(l, tenant)
      else DeadLetter(tenant, job.product, job.video, text, job.retryCount) in l.dead
    case Returned(Some(status), network, externalId) =>
      if status == "submitted"
      then PublishResult(tenant, job.product, job.video, network, "submitted", externalId) in l.results
      else if job.retryCount < policy.retryBudget
      then Job(tenant, job.product, job.video, job.url, job.retryCount + 1) in Queue(l, tenant)
      else DeadLetter(tenant, job.product, job.video, "publish status=" + status, job.retryCount) in l.dead
    case Returned(None, network, externalId) =>
      PublishResult(tenant, job.product, job.video, network, "submitted", externalId) in l.results
  }

  lemma AttemptWrites(l: Ledger, policy: Policy, tenant: string, day: string, job: Job, o: Outcome)
    requires job.tenant == tenant
    ensures WrittenDown(Attempt(l, policy, tenant, day, job, o), policy, tenant, job, o)
  {
  }

  lemma AttemptErasesNothing(l: Ledger, policy: Policy, tenant: string, day: string, job: Job, o: Outcome, other: Job,
      p: Outcome)
    requires job.tenant == tenant && WrittenDown(l, policy, tenant, other, p)
    ensures WrittenDown(Attempt(l, policy, tenant, day, job, o), policy, tenant, other, p)
  {
    var after := Attempt(l, policy, tenant, day, job, o);
    assert forall r :: r in l.results ==> r in after.results;
    assert forall d :: d in l.dead ==> d in after.dead;
    assert forall q :: q in Queue(l, tenant) ==> q in Queue(after, tenant);
  }

  lemma {:induction false} BatchWrites(l: Ledger, policy: Policy, tenant: string, day: string, jobs: seq<Job>,
      publish: nat -> Outcome, n: nat, i: nat)
    requires i < n <= |jobs| && forall job :: job in jobs ==> job.tenant == tenant
    ensures WrittenDown(Batch(l, policy, tenant, day, jobs, publish, n), policy, tenant, jobs[i], publish(i))
  {
    hide WrittenDown, Attempt;
    var before := Batch(l, policy, tenant, day, jobs, publish, n - 1);
    if i == n - 1 {
      AttemptWrites(before, policy, tenant, day, jobs[i], publish(i));
    } else {
      BatchWrites(l, policy, tenant, day, jobs, publish, n - 1, i);
      AttemptErasesNothing(before, policy, tenant, day, jobs[n-1], publish(n - 1), jobs[i], publish(i));
    }
  }

  /** After a run each attempted job is recorded with its network and external id, back in the queue with one
      retry more, or dead with the text of what went wrong. */
  lemma RunWrites(l: Ledger, policy: Policy, tenant: string, day: string, publish: nat -> Outcome, i: nat)
    requires Filed(l) && i < |Drawn(l, policy, tenant, day)|
    ensures WrittenDown(RunForTenant(l, policy, tenant, day, publish), policy, tenant,
                Drawn(l, policy, tenant, day)[i], publish(i))
  {
    var n, jobs := Capacity(l, policy, tenant, day), Drawn(l, policy, tenant, day);
    assert forall job :: job in jobs ==> job in Queue(l, tenant);
    DequeueFiled(l, tenant, n);
    hide Batch, Dequeue, Touch, RunForTenant, Queue, Drawn, Counter, WrittenDown, Capacity;
    RunIs(l, policy, tenant, day, publish);
    BatchWrites(Dequeue(Touch(l, tenant, day), tenant, n), policy, tenant, day, jobs, publish, |jobs|, i);
  }

  // ---------- what the counters count ----------

  lemma RunCounts(l: Ledger, policy: Policy, tenant: string, day: string, publish: nat -> Outcome, t: string, d: string)
    ensures var after := RunForTenant(l, policy, tenant, day, publish);
            Counter(after, t, d) ==
            Counter(l, t, d) + if (t, d) == (tenant, day) then |after.results| - |l.results| else 0
  {
    hide Batch;
    var touched, n := Touch(l, tenant, day), Capacity(l, policy, tenant, day);
    var jobs := Drawn(l, policy, tenant, day);
    BatchCounter(Dequeue(touched, tenant, n), policy, tenant, day, jobs, publish, |jobs|, t, d);
  }

  /** Results that the runs of a tenant on a day recorded. */
  ghost function RecordedOn(l: Ledger, policy: Policy, actions: seq<Action>, t: string, d: string): int
    decreases |actions|
  {
    if actions == [] then 0
    else
      var next := Step(l, policy, actions[0]);
      RecordedOn(next, policy, actions[1..], t, d)
      + if actions[0].Run? && (actions[0].tenant, actions[0].day) == (t, d) then |next.results| - |l.results| else 0
  }

  /** Over any sequence of submissions and runs a tenant's counter for a day grows by exactly the results
      recorded for the tenant on that day. */
  lemma {:induction false} CounterCounts(l: Ledger, policy: Policy, actions: seq<Action>, t: string, d: string)
    ensures Counter(Play(l, policy, actions), t, d) == Counter(l, t, d) + RecordedOn(l, policy, actions, t, d)
    decreases |actions|
  {
    if actions != [] {
      hide RunForTenant, Counter;
      match actions[0] {
        case Submit(job) => SubmitCounts(l, job, t, d);
        case Run(tenant, day, publish) => RunCounts(l, policy, tenant, day, publish, t, d);
      }
      CounterCounts(Step(l, policy, actions[0]), policy, actions[1..], t, d);
    }
  }

  lemma SubmitCounts(l: Ledger, job: Job, t: string, d: string)
    ensures Counter(Enqueue(l, job), t, d) == Counter(l, t, d)
  {
  }

  // ---------- attempts of new jobs ----------

  lemma {:induction false} EntitledPlain(policy: Policy, actions: seq<Action>, k: Id)
    requires policy.retryBudget >= 0
    requires forall a :: a in actions && a.Submit? && JobId(a.job) == k ==> a.job.retryCount == 0
    ensures Entitled(policy, actions, k) == TotalSubmitted(actions, k) * (policy.retryBudget + 1)
  {
    if actions != [] {
      assert actions[0] in actions;
      assert forall a :: a in actions[1..] ==> a in actions;
      EntitledPlain(policy, actions[1..], k);
    }
  }

  /** From an empty ledger, new jobs are attempted at most `retry_budget + 1` times each. */
  lemma AttemptsPlain(policy: Policy, actions: seq<Action>, k: Id)
    requires policy.retryBudget >= 0
    requires forall a :: a in actions && a.Submit? && JobId(a.job) == k ==> a.job.retryCount == 0
    ensures Attempts(EMPTY, policy, actions, k) <= TotalSubmitted(actions, k) * (policy.retryBudget + 1)
  {
    AttemptsBounded(EMPTY, policy, actions, k);
    EntitledPlain(policy, actions, k);
    assert Queue(EMPTY, k.tenant) == [];
  }

  // ---------- draining ----------

  /** Runs for one tenant, each on a day with capacity to spare when it starts. */
  ghost predicate CapacityDays(l: Ledger, policy: Policy, tenant: string, actions: seq<Action>)
    decreases |actions|
  {
    actions == [] ||
    (&& actions[0].Run? && actions[0].tenant == tenant
     && Capacity(l, policy, tenant, actions[0].day) > 0
     && CapacityDays(Step(l, policy, actions[0]), policy, tenant, actions[1..]))
  }

  lemma {:induction false} AllMatch(policy: Policy, jobs: seq<Job>)
    ensures Matching(jobs, None) == |jobs| && AllLeft(policy, jobs, None) >= |jobs|
  {
    if jobs != [] { AllMatch(policy, jobs[..|jobs| - 1]); }
  }

  /** Enough days with capacity empty the queue, whatever the publishing outcomes. */
  lemma {:induction false} QueueDrains(l: Ledger, policy: Policy, tenant: string, actions: seq<Action>)
    requires Filed(l) && CapacityDays(l, policy, tenant, actions)
    requires |actions| >= AllLeft(policy, Queue(l, tenant), None)
    ensures Queue(Play(l, policy, actions), tenant) == []
    decreases |actions|
  {
    AllMatch(policy, Queue(l, tenant));
    if actions != [] {
      var a := actions[0];
      hide AllLeft, Matching, RunForTenant;
      StepFiled(l, policy, a);
      RunLeft(l, policy, tenant, a.day, a.publish, None);
      AllMatch(policy, Drawn(l, policy, tenant, a.day));
      if Queue(l, tenant) == [] {
        NothingLeft(policy, Queue(l, tenant));
      }
      QueueDrains(Step(l, policy, a), policy, tenant, actions[1..]);
    }
  }

  lemma NothingLeft(policy: Policy, jobs: seq<Job>)
    requires jobs == []
    ensures AllLeft(policy, jobs, None) == 0
  {
  }
}
