/** Service discovery and the round-robin gateway of enterprise_maturity/v3_runtime: registration keeps
    endpoints distinct, and routing spreads requests evenly while the healthy instances stand still. */
module Gateway {

  datatype Instance = Instance(service: string, endpoint: string, version: string, healthy: bool)

  datatype Result = Ok(url: string, chosen: Instance) | KeyError | LookupError

  // ---------- registry lists ----------

  function Without(instances: seq<Instance>, endpoint: string): (r: seq<Instance>)
    ensures forall x :: x in r <==> x in instances && x.endpoint != endpoint
  {
    if instances == [] then []
    else
      assert instances == [instances[0]] + instances[1..];
      (if instances[0].endpoint != endpoint then [instances[0]] else []) + Without(instances[1..], endpoint)
  }

  function Healthy(instances: seq<Instance>): (r: seq<Instance>)
    ensures forall x :: x in r <==> x in instances && x.healthy
  {
    if instances == [] then []
    else
      assert instances == [instances[0]] + instances[1..];
      (if instances[0].healthy then [instances[0]] else []) + Healthy(instances[1..])
  }

  ghost predicate DistinctEndpoints(instances: seq<Instance>) {
    forall i, j :: 0 <= i < j < |instances| ==> instances[i].endpoint != instances[j].endpoint
  }

  lemma {:induction false} WithoutDistinct(instances: seq<Instance>, endpoint: string)
    requires DistinctEndpoints(instances)
    ensures DistinctEndpoints(Without(instances, endpoint))
  {
    if instances != [] {
      var rest := Without(instances[1..], endpoint);
      WithoutDistinct(instances[1..], endpoint);
      forall j | 0 <= j < |rest| ensures rest[j].endpoint != instances[0].endpoint { assert rest[j] in instances[1..]; }
    }
  }

  lemma {:induction false} HealthyDistinct(instances: seq<Instance>)
    requires DistinctEndpoints(instances)
    ensures DistinctEndpoints(Healthy(instances))
  {
    if instances != [] {
      var rest := Healthy(instances[1..]);
      HealthyDistinct(instances[1..]);
      forall j | 0 <= j < |rest| ensures rest[j].endpoint != instances[0].endpoint { assert rest[j] in instances[1..]; }
    }
  }

  /** Registering replaces whatever had the same endpoint. */
  function Registered(instances: seq<Instance>, x: Instance): seq<Instance> {
    Without(instances, x.endpoint) + [x]
  }

  class ServiceDiscovery {
    var services: map<string, seq<Instance>>

    constructor ()
      ensures Valid() && services == map[]
    {
      services := map[];
    }

    function Instances(service: string): seq<Instance>
      reads this
    {
      if service in services then services[service] else []
    }

    function Resolve(service: string): seq<Instance>
      reads this
    {
      Healthy(Instances(service))
    }

    /** Instances are listed under their own service, with pairwise distinct endpoints. */
    ghost predicate Valid()
      reads this
    {
      forall service :: service in services ==>
        && DistinctEndpoints(services[service])
        && forall x :: x in services[service] ==> x.service == service
    }

    method Register(x: Instance)
      requires Valid()
      modifies this
      ensures Valid()
      ensures services == old(services)[x.service := Registered(old(Instances(x.service)), x)]
    {
      WithoutDistinct(Instances(x.service), x.endpoint);
      services := services[x.service := Without(Instances(x.service), x.endpoint) + [x]];
    }

    method Deregister(service: string, endpoint: string)
      requires Valid()
      modifies this
      ensures Valid()
      ensures services == old(services)[service := Without(old(Instances(service)), endpoint)]
    {
      WithoutDistinct(Instances(service), endpoint);
      services := services[service := Without(Instances(service), endpoint)];
    }
  }

  /** A registered instance is listed once, last, and nothing else of its service changed. */
  lemma RegisterThenDeregister(instances: seq<Instance>, x: Instance)
    ensures x in Registered(instances, x)
    ensures forall y :: y in Registered(instances, x) <==> y == x || (y in instances && y.endpoint != x.endpoint)
    ensures Without(Registered(instances, x), x.endpoint) == Without(instances, x.endpoint)
  {
    WithoutConcat(Without(instances, x.endpoint), [x], x.endpoint);
    WithoutTwice(instances, x.endpoint);
    assert [x][1..] == [];
  }

  lemma {:induction false} WithoutConcat(a: seq<Instance>, b: seq<Instance>, endpoint: string)
    ensures Without(a + b, endpoint) == Without(a, endpoint) + Without(b, endpoint)
  {
    if a == [] {
      assert a + b == b;
    } else {
      assert (a + b)[1..] == a[1..] + b;
      WithoutConcat(a[1..], b, endpoint);
    }
  }

  lemma {:induction false} WithoutTwice(instances: seq<Instance>, endpoint: string)
    ensures Without(Without(instances, endpoint), endpoint) == Without(instances, endpoint)
  {
    if instances != [] {
      WithoutTwice(instances[1..], endpoint);
      WithoutConcat(if instances[0].endpoint != endpoint then [instances[0]] else [],
                    Without(instances[1..], endpoint), endpoint);
    }
  }

  // ---------- round robin ----------

  /** Position served when the stored index is `index`, among `n` candidates. */
  function Slot(index: nat, n: nat): (k: nat)
    requires n > 0
    ensures k < n
  {
    index % n
  }

  /** The stored index after `m` consecutive routes. */
  function IndexAfter(index: nat, n: nat, m: nat): nat
    requires n > 0
  {
    if m == 0 then index else Slot(IndexAfter(index, n, m - 1), n) + 1
  }

  /** How many of `m` consecutive routes hit position `k`. */
  function HitCount(index: nat, n: nat, m: nat, k: nat): nat
    requires n > 0
  {
    if m == 0 then 0 else HitCount(index, n, m - 1, k) + if Slot(IndexAfter(index, n, m - 1), n) == k then 1 else 0
  }

  /** The index wraps: after at least one route it is one past the slot just served. */
  lemma {:induction false} SlotAfter(index: nat, n: nat, m: nat)
    requires n > 0
    ensures Slot(IndexAfter(index, n, m), n) == (index + m) % n
    ensures m > 0 ==> 1 <= IndexAfter(index, n, m) <= n
  {
    if m > 0 {
      SlotAfter(index, n, m - 1);
      ModSucc(index + m - 1, n);
    }
  }

  /** Quotient and remainder of the successor. */
  lemma DivSucc(a: nat, n: nat)
    requires n > 0
    ensures if a % n + 1 < n then (a + 1) / n == a / n && (a + 1) % n == a % n + 1
            else (a + 1) / n == a / n + 1 && (a + 1) % n == 0
  {
    var q, r := a / n, a % n;
    assert a == n * q + r;
    if r + 1 < n {
      DivUnique(a + 1, n, q, r + 1);
    } else {
      assert n * (q + 1) == n * q + n;
      DivUnique(a + 1, n, q + 1, 0);
    }
  }

  lemma ModSucc(a: nat, n: nat)
    requires n > 0
    ensures (a % n + 1) % n == (a + 1) % n
  {
    DivSucc(a, n);
    if a % n + 1 < n {
      DivUnique(a % n + 1, n, 0, a % n + 1);
    } else {
      DivUnique(n, n, 1, 0);
    }
  }

  lemma {:induction false} ModSum(a: nat, b: nat, n: nat)
    requires n > 0
    ensures (a + b) % n == if a % n + b % n < n then a % n + b % n else a % n + b % n - n
    decreases b
  {
    if b == 0 {
      DivUnique(0, n, 0, 0);
    } else {
      ModSum(a, b - 1, n);
      DivSucc(a + b - 1, n);
      DivSucc(b - 1, n);
    }
  }

  /** A multiple of `n` other than zero is at least `n` away from zero. */
  lemma MultipleFar(n: int, d: int)
    requires n > 0
    ensures d >= 1 ==> n * d >= n
    ensures d <= -1 ==> n * d <= -n
  {
  }

  lemma ModUnique(a: int, n: nat, q: int, r: nat)
    requires n > 0 && r < n && a == n * q + r
    ensures a % n == r
  {
    assert n * (q - a / n) == a % n - r;
    MultipleFar(n, q - a / n);
  }

  /** Distance from the first slot served to position `k`, going round. */
  function Offset(index: nat, n: nat, k: nat): (d: nat)
    requires n > 0 && k < n
    ensures d < n
  {
    var s := index % n;
    if k >= s then k - s else k + n - s
  }

  /** Position `k` is served by the routes at its offset, and then every n-th one. */
  lemma ServedAt(index: nat, n: nat, k: nat, m: nat)
    requires n > 0 && k < n
    ensures Slot(IndexAfter(index, n, m), n) == k <==> m % n == Offset(index, n, k)
  {
    SlotAfter(index, n, m);
    ModSum(index, m, n);
    hide IndexAfter, Slot;
  }

  /** A position is served once per full round, plus once when the last round got to its offset. */
  lemma {:induction false} HitsExactly(index: nat, n: nat, m: nat, k: nat)
    requires n > 0 && k < n
    ensures HitCount(index, n, m, k) == m / n + if Offset(index, n, k) < m % n then 1 else 0
  {
    hide IndexAfter, Slot, Offset;
    if m > 0 {
      HitsExactly(index, n, m - 1, k);
      ServedAt(index, n, k, m - 1);
      DivSucc(m - 1, n);
    } else {
      DivUnique(0, n, 0, 0);
    }
  }

  lemma DivUnique(a: nat, n: nat, q: nat, r: nat)
    requires n > 0 && r < n && a == n * q + r
    ensures a % n == r && a / n == q
  {
    ModUnique(a, n, q, r);
    assert n * (q - a / n) == 0;
    MultipleFar(n, q - a / n);
  }

  /** Fairness: `rounds * n` consecutive routes hit every candidate exactly `rounds` times, and any run
      hits no two candidates a different number of times by more than one. */
  lemma RoundRobinFair(index: nat, n: nat, rounds: nat, m: nat, j: nat, k: nat)
    requires n > 0 && j < n && k < n
    ensures HitCount(index, n, n * rounds, k) == rounds
    ensures HitCount(index, n, m, j) - HitCount(index, n, m, k) <= 1
  {
    HitsExactly(index, n, n * rounds, k);
    DivUnique(n * rounds, n, rounds, 0);
    HitsExactly(index, n, m, j);
    HitsExactly(index, n, m, k);
  }

  class APIGateway {
    const discovery: ServiceDiscovery
    var routes: map<string, string>
    var roundRobin: map<string, nat>

    constructor (discovery: ServiceDiscovery)
      ensures this.discovery == discovery && routes == map[] && roundRobin == map[]
      ensures forall service :: Index(service) == 0
    {
      this.discovery := discovery;
      routes, roundRobin := map[], map[];
    }

    method AddRoute(path: string, service: string)
      modifies this
      ensures routes == old(routes)[path := service] && roundRobin == old(roundRobin)
    {
      routes := routes[path := service];
    }

    function Index(service: string): nat
      reads this
    {
      if service in roundRobin then roundRobin[service] else 0
    }

    /** Routes a request; the index advances per service, whichever of its paths was used. */
    method Route(path: string) returns (r: Result)
      modifies this
      ensures routes == old(routes)
      ensures r.KeyError? <==> path !in routes
      ensures r.LookupError? <==> path in routes && discovery.Resolve(routes[path]) == []
      ensures !r.Ok? ==> roundRobin == old(roundRobin)
      ensures r.Ok? ==>
                var service := routes[path];
                var candidates := discovery.Resolve(service);
                && r.chosen == candidates[Slot(old(Index(service)), |candidates|)]
                && r.url == r.chosen.endpoint + path
                && roundRobin == old(roundRobin)[service := IndexAfter(old(Index(service)), |candidates|, 1)]
    {
      if path !in routes {
        return KeyError;
      }
      var service := routes[path];
      var candidates := discovery.Resolve(service);
      if candidates == [] {
        return LookupError;
      }
      var idx := Index(service) % |candidates|;
      assert IndexAfter(Index(service), |candidates|, 1) ==
          Slot(IndexAfter(Index(service), |candidates|, 0), |candidates|) + 1;
      roundRobin := roundRobin[service := idx + 1];
      return Ok(candidates[idx].endpoint + path, candidates[idx]);
    }
  }

  // ---------- whole runs of the gateway ----------

  /** The instances of a service that a run of routes chose, in order. */
  function Chosen(results: seq<Result>, service: string): seq<Instance> {
    if results == [] then []
    else
      var last := results[|results| - 1];
      Chosen(results[..|results| - 1], service)
      + if last.Ok? && last.chosen.service == service then [last.chosen] else []
  }

  lemma ChosenSnoc(results: seq<Result>, r: Result, service: string)
    ensures Chosen(results + [r], service) ==
            if r.Ok? && r.chosen.service == service then Chosen(results, service) + [r.chosen]
            else Chosen(results, service)
  {
    assert (results + [r])[..|results|] == results;
  }

  /** How many of the paths lead to a service. */
  function Arrivals(routes: map<string, string>, paths: seq<string>, service: string): nat {
    if paths == [] then 0
    else
      var last := paths[|paths| - 1];
      Arrivals(routes, paths[..|paths| - 1], service) + if last in routes && routes[last] == service then 1 else 0
  }

  lemma ArrivalsSnoc(routes: map<string, string>, paths: seq<string>, i: nat, service: string)
    requires i < |paths|
    ensures Arrivals(routes, paths[..i+1], service) ==
            Arrivals(routes, paths[..i], service) + if paths[i] in routes && routes[paths[i]] == service then 1 else 0
  {
    assert paths[..i+1][..i] == paths[..i];
  }

  /** The list goes round the candidates from where the index points. */
  ghost predicate Rotates(chosen: seq<Instance>, candidates: seq<Instance>, index: nat)
    requires candidates != []
  {
    forall i :: 0 <= i < |chosen| ==>
      chosen[i] == candidates[Slot(IndexAfter(index, |candidates|, i), |candidates|)]
  }

  /** In such a list each candidate occurs as often as its position is hit. */
  lemma {:induction false} RotationHits(chosen: seq<Instance>, candidates: seq<Instance>, index: nat, k: nat)
    requires candidates != [] && DistinctEndpoints(candidates) && k < |candidates|
    requires Rotates(chosen, candidates, index)
    ensures multiset(chosen)[candidates[k]] == HitCount(index, |candidates|, |chosen|, k)
  {
    hide IndexAfter, Slot;
    if chosen != [] {
      var m := |chosen| - 1;
      assert chosen == chosen[..m] + [chosen[m]];
      RotationHits(chosen[..m], candidates, index, k);
      var served := Slot(IndexAfter(index, |candidates|, m), |candidates|);
      assert chosen[m] == candidates[served];
      assert candidates[served] == candidates[k] <==> served == k by {
        if served != k { assert candidates[served].endpoint != candidates[k].endpoint; }
      }
    }
  }

  /** Whole rounds hit every candidate equally often, and any run hits no two more than one apart. */
  ghost predicate Fair(chosen: seq<Instance>, candidates: seq<Instance>)
    requires candidates != []
  {
    && (forall x :: x in candidates && |chosen| % |candidates| == 0 ==>
          multiset(chosen)[x] == |chosen| / |candidates|)
    && (forall x, y :: x in candidates && y in candidates ==> multiset(chosen)[x] <= multiset(chosen)[y] + 1)
  }

  lemma FairCounts(index: nat, n: nat, m: nat, j: nat, k: nat)
    requires n > 0 && j < n && k < n
    ensures m % n == 0 ==> HitCount(index, n, m, j) == m / n
    ensures HitCount(index, n, m, j) - HitCount(index, n, m, k) <= 1
  {
    hide HitCount, Offset;
    HitsExactly(index, n, m, j);
    HitsExactly(index, n, m, k);
  }

  lemma RotationFair(chosen: seq<Instance>, candidates: seq<Instance>, index: nat)
    requires candidates != [] && DistinctEndpoints(candidates) && Rotates(chosen, candidates, index)
    ensures Fair(chosen, candidates)
  {
    hide Rotates, DistinctEndpoints, HitCount;
    var n := |candidates|;
    forall x, y | x in candidates && y in candidates
      ensures |chosen| % n == 0 ==> multiset(chosen)[x] == |chosen| / n
      ensures multiset(chosen)[x] <= multiset(chosen)[y] + 1
    {
      var j :| 0 <= j < n && candidates[j] == x;
      var k :| 0 <= k < n && candidates[k] == y;
      RotationHits(chosen, candidates, index, j);
      RotationHits(chosen, candidates, index, k);
      FairCounts(index, n, |chosen|, j, k);
    }
  }

  lemma RotatesSnoc(chosen: seq<Instance>, candidates: seq<Instance>, index: nat, x: Instance)
    requires candidates != [] && Rotates(chosen, candidates, index)
    requires x == candidates[Slot(IndexAfter(index, |candidates|, |chosen|), |candidates|)]
    ensures Rotates(chosen + [x], candidates, index)
  {
    hide IndexAfter, Slot;
  }

  /** Serves requests over any paths. For any service whose healthy instances stand still meanwhile, every
      request to it over any of its paths succeeds, and its instances are chosen in turn, hence fairly. */
  method RouteAll(gateway: APIGateway, paths: seq<string>, ghost service: string) returns (results: seq<Result>)
    requires gateway.discovery.Valid() && gateway.discovery.Resolve(service) != []
    modifies gateway
    ensures |results| == |paths|
    ensures |Chosen(results, service)| == Arrivals(old(gateway.routes), paths, service)
    ensures Rotates(Chosen(results, service), gateway.discovery.Resolve(service), old(gateway.Index(service)))
    ensures Fair(Chosen(results, service), gateway.discovery.Resolve(service))
  {
    hide IndexAfter, Slot, Chosen, Arrivals, Rotates, Fair, DistinctEndpoints, Healthy;
    ghost var candidates, start := gateway.discovery.Resolve(service), gateway.Index(service);
    results := [];
    EmptyRun(gateway.routes, paths, service, candidates, start);
    for i := 0 to |paths|
      invariant gateway.routes == old(gateway.routes) && |results| == i
      invariant |Chosen(results, service)| == Arrivals(gateway.routes, paths[..i], service)
      invariant Rotates(Chosen(results, service), candidates, start)
      invariant gateway.Index(service) == IndexAfter(start, |candidates|, |Chosen(results, service)|)
    {
      ghost var chosen := Chosen(results, service);
      var r := gateway.Route(paths[i]);
      ChosenSnoc(results, r, service);
      ArrivalsSnoc(gateway.routes, paths, i, service);
      if r.Ok? {
        ResolvedService(gateway.discovery, gateway.routes[paths[i]], r.chosen);
        if r.chosen.service == service {
          RotatesSnoc(chosen, candidates, start, r.chosen);
          IndexAfterAdds(start, |candidates|, |chosen|);
        }
      }
      results := results + [r];
    }
    assert paths[..|paths|] == paths;
    ResolvedDistinct(gateway.discovery, service);
    RotationFair(Chosen(results, service), candidates, start);
  }

  lemma ResolvedService(discovery: ServiceDiscovery, service: string, x: Instance)
    requires discovery.Valid() && x in discovery.Resolve(service)
    ensures x.service == service
  {
    assert x in discovery.Instances(service);
  }

  lemma ResolvedDistinct(discovery: ServiceDiscovery, service: string)
    requires discovery.Valid()
    ensures DistinctEndpoints(discovery.Resolve(service))
  {
    HealthyDistinct(discovery.Instances(service));
  }

  lemma EmptyRun(routes: map<string, string>, paths: seq<string>, service: string, candidates: seq<Instance>,
      start: nat)
    requires candidates != []
    ensures Chosen([], service) == [] && Arrivals(routes, paths[..0], service) == 0
    ensures Rotates([], candidates, start) && IndexAfter(start, |candidates|, 0) == start
  {
  }

  /** One request as the gateway's state sees it: the service its path leads to. */
  function RouteIndex(indices: map<string, nat>, counts: map<string, nat>, service: string): map<string, nat> {
    if service !in counts || counts[service] == 0 then indices
    else indices[service := IndexAfter(if service in indices then indices[service] else 0, counts[service], 1)]
  }

  /** The indices after a sequence of requests to services with fixed numbers of healthy instances. */
  function RunIndices(indices: map<string, nat>, counts: map<string, nat>, requests: seq<string>): map<string, nat> {
    if requests == [] then indices
    else RouteIndex(RunIndices(indices, counts, requests[..|requests| - 1]), counts, requests[|requests| - 1])
  }

  function Requests(requests: seq<string>, service: string): nat {
    if requests == [] then 0
    else Requests(requests[..|requests| - 1], service) + if requests[|requests| - 1] == service then 1 else 0
  }

  lemma {:induction false} IndexAfterAdds(index: nat, n: nat, m: nat)
    requires n > 0
    ensures IndexAfter(IndexAfter(index, n, m), n, 1) == IndexAfter(index, n, m + 1)
  {
    assert IndexAfter(IndexAfter(index, n, m), n, 1) == Slot(IndexAfter(IndexAfter(index, n, m), n, 0), n) + 1;
  }

  /** Requests to other services in between do not disturb a service's rotation. */
  lemma {:induction false} RotationIndependent(indices: map<string, nat>, counts: map<string, nat>,
      requests: seq<string>, service: string)
    requires service in counts && counts[service] > 0
    ensures var after := RunIndices(indices, counts, requests);
            var start := if service in indices then indices[service] else 0;
            (if service in after then after[service] else 0) ==
                IndexAfter(start, counts[service], Requests(requests, service))
  {
    if requests != [] {
      RotationIndependent(indices, counts, requests[..|requests| - 1], service);
      var start := if service in indices then indices[service] else 0;
      IndexAfterAdds(start, counts[service], Requests(requests[..|requests| - 1], service));
    }
  }
}
