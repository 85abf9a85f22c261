/** The event pipeline of services/singularity/src: agents subscribed to topics publish further events
    while the orchestrator drains the bus. Payloads are typed by topic. */
module EventPipeline {
  import opened Wrappers

  datatype Finding = Finding(rule: string, severity: string, rootCause: string, impact: string)

  datatype Probe = Probe(payload: string, blocked: bool)

  /** The topics that agents subscribe to or publish on. */
  const TOPICS: set<string> := {
    "repo.pushed", "sarif.ready", "findings.enriched", "patch.generated",
    "attack.results", "verify.done", "deploy.policy", "patch.revise"
  }

  type UnheardTopic = topic: string | topic !in TOPICS witness ""

  datatype Event =
    | RepoPushed(sarif: Option<string>)
    | SarifReady(text: string)
    | FindingsEnriched(findings: seq<Finding>)
    | PatchGenerated(patch: string, findingCount: nat)
    | AttackResults(results: seq<Probe>, attacked: string)
    | VerifyDone(ok: bool, verified: string, outcomes: seq<Probe>)
    | DeployPolicy(policy: seq<string>)
    | PatchRevise(reason: string, previous: Event)
    | Other(topic: UnheardTopic)

  function Topic(e: Event): string {
    match e
    case RepoPushed(_) => "repo.pushed"
    case SarifReady(_) => "sarif.ready"
    case FindingsEnriched(_) => "findings.enriched"
    case PatchGenerated(_, _) => "patch.generated"
    case AttackResults(_, _) => "attack.results"
    case VerifyDone(_, _, _) => "verify.done"
    case DeployPolicy(_) => "deploy.policy"
    case PatchRevise(_, _) => "patch.revise"
    case Other(topic) => topic
  }

  datatype Agent = Scan | Reason | Fix | Attack | Verify | Defend | PRBot | Learn

  /** The agents as the service wires them. */
  const WIRED: seq<Agent> := [Scan, Reason, Fix, Attack, Verify, Defend, PRBot, Learn]

  /** What the agents compute with: `strip` being empty, reading a SARIF text into (rule, level) pairs
      or failing, and the bytes of the patch digest. */
  datatype Env = Env(
    blank: string -> bool,
    parse: string -> Option<seq<(string, string)>>,
    digest: (string, nat) -> nat)

  function RootCause(rule: string): string {
    if rule == "py/sql-injection" then "unsanitized user input reaches database query"
    else if rule == "py/path-injection" then "path input is not canonicalized"
    else if rule == "py/ssrf" then "outbound URL is not allow-listed"
    else "unknown input handling weakness"
  }

  function Impact(rule: string): string {
    if rule == "py/sql-injection" then "data exfiltration and data tampering"
    else if rule == "py/path-injection" then "arbitrary file read"
    else if rule == "py/ssrf" then "metadata credential leakage"
    else "security impact requires triage"
  }

  function Enrich(results: seq<(string, string)>): seq<Finding> {
    seq(|results|, i requires 0 <= i < |results| =>
      var (rule, level) := results[i]; Finding(rule, level, RootCause(rule), Impact(rule)))
  }

  function RuleLine(f: Finding): string {
    "# enforce remediation for " + f.rule
  }

  function PatchText(findings: seq<Finding>): string {
    if findings == [] then ""
    else
      RuleLine(findings[0])
      + if |findings| == 1 then "" else "\n" + PatchText(findings[1..])
  }

  const ATTACKS: seq<string> := [
    "../../etc/passwd", "http://169.254.169.254/latest/meta-data/", "' OR 1=1 --"
  ]

  function Simulate(env: Env, patch: string): seq<Probe> {
    seq(|ATTACKS|, i requires 0 <= i < |ATTACKS| => Probe(ATTACKS[i], env.digest(patch, i) % 5 != 0))
  }

  predicate AllBlocked(results: seq<Probe>) {
    forall i :: 0 <= i < |results| ==> results[i].blocked
  }

  const POLICY: seq<string> := [
    "block egress to 169.254.169.254/32", "enforce path normalization", "enforce parameterized database queries"
  ]

  predicate Subscribed(agent: Agent, e: Event) {
    match agent
    case Scan => e.RepoPushed?
    case Reason => e.SarifReady?
    case Fix => e.FindingsEnriched?
    case Attack => e.PatchGenerated?
    case Verify => e.AttackResults?
    case Defend => e.VerifyDone?
    case PRBot => e.VerifyDone?
    case Learn => e.VerifyDone?
  }

  /** What an agent publishes on an event of its topic, or that it raises. */
  function Handle(env: Env, agent: Agent, e: Event): Option<seq<Event>>
    requires Subscribed(agent, e)
  {
    match agent
    case Scan =>
      if e.sarif.None? || env.blank(e.sarif.value) then None else Some([SarifReady(e.sarif.value)])
    case Reason =>
      (match env.parse(e.text)
       case None => None
       case Some(results) => Some([FindingsEnriched(Enrich(results))]))
    case Fix => Some([PatchGenerated(PatchText(e.findings), |e.findings|)])
    case Attack => Some([AttackResults(Simulate(env, e.patch), e.patch)])
    case Verify => Some([VerifyDone(AllBlocked(e.results), e.attacked, e.results)])
    case Defend => Some([if e.ok then DeployPolicy(POLICY) else PatchRevise("attack simulation failed", e)])
    case PRBot => Some([])
    case Learn => Some([])
  }

  /** Events published so far, and whether an agent raised. */
  datatype Published = Published(events: seq<Event>, raised: bool)

  function Dispatch(env: Env, agents: seq<Agent>, e: Event): Published {
    if agents == [] then Published([], false)
    else if !Subscribed(agents[0], e) then Dispatch(env, agents[1..], e)
    else
      match Handle(env, agents[0], e)
      case None => Published([], true)
      case Some(events) =>
        var rest := Dispatch(env, agents[1..], e);
        Published(events + rest.events, rest.raised)
  }

  // ---------- termination ----------

  /** Distance of a topic from the end of the pipeline. */
  function Rank(e: Event): nat {
    match e
    case RepoPushed(_) => 6
    case SarifReady(_) => 5
    case FindingsEnriched(_) => 4
    case PatchGenerated(_, _) => 3
    case AttackResults(_, _) => 2
    case VerifyDone(_, _, _) => 1
    case DeployPolicy(_) => 0
    case PatchRevise(_, _) => 0
    case Other(_) => 0
  }

  function Pow(base: nat, n: nat): (p: nat)
    ensures base >= 1 ==> p >= 1
  {
    if n == 0 then 1 else base * Pow(base, n - 1)
  }

  /** Work a queue still stands for when an event can trigger up to `n` agents. */
  function Work(n: nat, queue: seq<Event>): nat {
    if queue == [] then 0 else Pow(n + 1, Rank(queue[0])) + Work(n, queue[1..])
  }

  lemma {:induction false} WorkConcat(n: nat, a: seq<Event>, b: seq<Event>)
    ensures Work(n, a + b) == Work(n, a) + Work(n, b)
  {
    if a == [] {
      assert a + b == b;
    } else {
      assert (a + b)[1..] == a[1..] + b;
      WorkConcat(n, a[1..], b);
    }
  }

  /** Whatever the agents, an event leads to at most one event per agent, each one rank lower. */
  lemma {:induction false} DispatchRank(env: Env, agents: seq<Agent>, e: Event)
    ensures |Dispatch(env, agents, e).events| <= |agents|
    ensures forall x :: x in Dispatch(env, agents, e).events ==> Rank(x) + 1 == Rank(e)
  {
    if agents != [] {
      DispatchRank(env, agents[1..], e);
    }
  }

  lemma {:induction false} WorkOfLevel(n: nat, events: seq<Event>, r: nat)
    requires forall x :: x in events ==> Rank(x) == r
    ensures Work(n, events) == |events| * Pow(n + 1, r)
  {
    if events != [] {
      WorkOfLevel(n, events[1..], r);
      assert events[0] in events;
      assert (1 + |events[1..]|) * Pow(n + 1, r) == Pow(n + 1, r) + |events[1..]| * Pow(n + 1, r);
    }
  }

  lemma Times(a: nat, b: nat, p: nat)
    requires a <= b
    ensures a * p <= b * p
  {
  }

  /** Handling one event strictly lowers the work left. */
  lemma DispatchWorks(env: Env, agents: seq<Agent>, e: Event, rest: seq<Event>)
    ensures Work(|agents|, rest + Dispatch(env, agents, e).events) < Work(|agents|, [e] + rest)
  {
    var n, out, r := |agents|, Dispatch(env, agents, e).events, Rank(e);
    DispatchRank(env, agents, e);
    hide Dispatch, Work, Rank, Pow;
    WorkConcat(n, rest, out);
    WorkConcat(n, [e], rest);
    WorkOne(n, e);
    if out == [] {
      WorkOfLevel(n, out, 0);
    } else {
      assert out[0] in out;
      WorkOfLevel(n, out, r - 1);
      PowStep(n, r - 1);
      Times(|out|, n, Pow(n + 1, r - 1));
    }
  }

  lemma WorkOne(n: nat, e: Event)
    ensures Work(n, [e]) == Pow(n + 1, Rank(e)) >= 1
  {
  }

  lemma PowStep(n: nat, r: nat)
    ensures Pow(n + 1, r + 1) == n * Pow(n + 1, r) + Pow(n + 1, r)
  {
    assert (n + 1) * Pow(n + 1, r) == n * Pow(n + 1, r) + Pow(n + 1, r);
  }

  // ---------- draining the queue ----------

  /** What draining a queue publishes in all, what is left in the queue, and whether an agent raised. */
  datatype Drained = Drained(events: seq<Event>, left: seq<Event>, raised: bool)

  function Drain(env: Env, agents: seq<Agent>, queue: seq<Event>): Drained
    decreases Work(|agents|, queue)
  {
    if queue == [] then Drained([], [], false)
    else
      var out := Dispatch(env, agents, queue[0]);
      var next := queue[1..] + out.events;
      if out.raised then Drained(out.events, next, true)
      else
        assert queue == [queue[0]] + queue[1..];
        DispatchWorks(env, agents, queue[0], queue[1..]);
        var rest := Drain(env, agents, next);
        Drained(out.events + rest.events, rest.left, rest.raised)
  }

  // ---------- the wired pipeline ----------

  /** A push that no agent rejects. */
  predicate ValidPush(env: Env, e: Event) {
    e.RepoPushed? && e.sarif.Some? && !env.blank(e.sarif.value) && env.parse(e.sarif.value).Some?
  }

  /** The event `stage` steps after a valid push. */
  function Derived(env: Env, push: Event, stage: nat): (e: Event)
    requires ValidPush(env, push) && stage <= 6
    ensures Rank(e) == 6 - stage
    ensures stage == 1 ==> e == SarifReady(push.sarif.value)
  {
    if stage == 0 then push
    else
      var e := Derived(env, push, stage - 1);
      match stage
      case 1 => SarifReady(e.sarif.value)
      case 2 => FindingsEnriched(Enrich(env.parse(e.text).value))
      case 3 => PatchGenerated(PatchText(e.findings), |e.findings|)
      case 4 => AttackResults(Simulate(env, e.patch), e.patch)
      case 5 => VerifyDone(AllBlocked(e.results), e.attacked, e.results)
      case _ => if e.ok then DeployPolicy(POLICY) else PatchRevise("attack simulation failed", e)
  }

  function Stage(env: Env, pushes: seq<Event>, stage: nat): (r: seq<Event>)
    requires forall p :: p in pushes ==> ValidPush(env, p)
    requires stage <= 6
    ensures |r| == |pushes|
    ensures forall k :: 0 <= k < |pushes| ==> r[k] == Derived(env, pushes[k], stage)
  {
    seq(|pushes|, k requires 0 <= k < |pushes| => Derived(env, pushes[k], stage))
  }

  /** The stages after `stage`, in order. */
  function Later(env: Env, pushes: seq<Event>, stage: nat): (r: seq<Event>)
    requires forall p :: p in pushes ==> ValidPush(env, p)
    requires stage <= 6
    ensures |r| == (6 - stage) * |pushes|
    decreases 6 - stage
  {
    if stage == 6 then [] else Stage(env, pushes, stage + 1) + Later(env, pushes, stage + 1)
  }

  lemma DispatchNone(env: Env, e: Event)
    ensures Dispatch(env, [], e) == Published([], false)
  {
  }

  /** One unfolding of the dispatch loop. */
  lemma DispatchStep(env: Env, agents: seq<Agent>, e: Event, i: nat)
    requires i < |agents|
    ensures Dispatch(env, agents[i..], e) ==
            if !Subscribed(agents[i], e) then Dispatch(env, agents[i+1..], e)
            else match Handle(env, agents[i], e)
                 case None => Published([], true)
                 case Some(events) =>
                   Published(events + Dispatch(env, agents[i+1..], e).events, Dispatch(env, agents[i+1..], e).raised)
  {
    assert agents[i..][1..] == agents[i+1..];
  }

  /** Which wired agents listen to which stage. */
  lemma SubscribedByRank(e: Event, i: nat)
    requires i < |WIRED|
    ensures Subscribed(WIRED[i], e) <==> (i + Rank(e) == 6 && i < 6) || (Rank(e) == 1 && i >= 6)
  {
  }

  lemma StageHandled(env: Env, push: Event, stage: nat)
    requires ValidPush(env, push) && stage < 6
    ensures Subscribed(WIRED[stage], Derived(env, push, stage))
    ensures Handle(env, WIRED[stage], Derived(env, push, stage)) == Some([Derived(env, push, stage + 1)])
  {
  }

  lemma {:induction false} SkipTo(env: Env, e: Event, i: nat, j: nat)
    requires i <= j <= |WIRED|
    requires forall k :: i <= k < j ==> !Subscribed(WIRED[k], e)
    ensures Dispatch(env, WIRED[i..], e) == Dispatch(env, WIRED[j..], e)
    decreases j - i
  {
    hide Dispatch, Subscribed, Handle;
    if i < j {
      DispatchStep(env, WIRED, e, i);
      SkipTo(env, e, i + 1, j);
    }
  }

  /** The wired agents turn an event into exactly the event of the next stage. */
  lemma DispatchWired(env: Env, push: Event, stage: nat)
    requires ValidPush(env, push) && stage <= 6
    ensures Dispatch(env, WIRED, Derived(env, push, stage)) ==
            Published(if stage == 6 then [] else [Derived(env, push, stage + 1)], false)
  {
    hide Dispatch, Derived, Handle, Subscribed;
    var e := Derived(env, push, stage);
    forall i | 0 <= i < |WIRED|
      ensures Subscribed(WIRED[i], e) <==> (i + Rank(e) == 6 && i < 6) || (Rank(e) == 1 && i >= 6)
    {
      SubscribedByRank(e, i);
    }
    assert WIRED[0..] == WIRED && WIRED[8..] == [];
    DispatchNone(env, e);
    if stage == 6 {
      SkipTo(env, e, 0, 8);
    } else {
      StageHandled(env, push, stage);
      SkipTo(env, e, 0, stage);
      DispatchStep(env, WIRED, e, stage);
      if stage < 5 { SkipTo(env, e, stage + 1, 8); } else { Bystanders(env, e); }
    }
  }

  /** The two agents behind the defender only write logs. */
  lemma Bystanders(env: Env, e: Event)
    requires e.VerifyDone?
    ensures Dispatch(env, WIRED[6..], e) == Published([], false)
  {
    hide Dispatch;
    DispatchStep(env, WIRED, e, 6);
    DispatchStep(env, WIRED, e, 7);
    DispatchNone(env, e);
    assert WIRED[8..] == [];
  }

  function NextStage(env: Env, pushes: seq<Event>, stage: nat): seq<Event>
    requires forall p :: p in pushes ==> ValidPush(env, p)
    requires stage <= 6
  {
    if stage == 6 then [] else Stage(env, pushes, stage + 1)
  }

  lemma NextHead(env: Env, pushes: seq<Event>, stage: nat)
    requires forall p :: p in pushes ==> ValidPush(env, p)
    requires stage <= 6 && pushes != []
    ensures Dispatch(env, WIRED, Derived(env, pushes[0], stage)) ==
            Published(NextStage(env, pushes[..1], stage), false)
    ensures NextStage(env, pushes, stage) == NextStage(env, pushes[..1], stage) + NextStage(env, pushes[1..], stage)
  {
    hide Derived, Dispatch, Stage;
    DispatchWired(env, pushes[0], stage);
    if stage < 6 {
      StageHead(env, pushes, stage + 1);
      StageHead(env, pushes[..1], stage + 1);
      assert pushes[..1][1..] == [];
    }
  }

  /** Draining one stage queues the next stage behind whatever was queued. */
  lemma {:induction false} DrainStage(env: Env, pushes: seq<Event>, stage: nat, behind: seq<Event>)
    requires forall p :: p in pushes ==> ValidPush(env, p)
    requires stage <= 6
    ensures var next := NextStage(env, pushes, stage);
            var rest := Drain(env, WIRED, behind + next);
            Drain(env, WIRED, Stage(env, pushes, stage) + behind) == Drained(next + rest.events, rest.left, rest.raised)
    decreases pushes
  {
    hide Derived, Dispatch, Drain, Stage, NextStage, ValidPush;
    var queue := Stage(env, pushes, stage) + behind;
    if pushes == [] {
      NothingNext(env, stage);
      assert queue == behind && behind + [] == behind;
    } else {
      var head, tail := NextStage(env, pushes[..1], stage), NextStage(env, pushes[1..], stage);
      NextHead(env, pushes, stage);
      StageHead(env, pushes, stage);
      DrainNext(env, WIRED, queue);
      assert queue[1..] + head == Stage(env, pushes[1..], stage) + (behind + head);
      DrainStage(env, pushes[1..], stage, behind + head);
      assert (behind + head) + tail == behind + (head + tail);
    }
  }

  lemma NothingNext(env: Env, stage: nat)
    requires stage <= 6
    ensures Stage(env, [], stage) == [] && NextStage(env, [], stage) == []
  {
  }

  /** Draining handles the first event and goes on with the rest and the reactions, unless an agent raises. */
  lemma DrainNext(env: Env, agents: seq<Agent>, queue: seq<Event>)
    requires queue != []
    ensures var d := Dispatch(env, agents, queue[0]);
            var rest := Drain(env, agents, queue[1..] + d.events);
            Drain(env, agents, queue) ==
            if d.raised then Drained(d.events, queue[1..] + d.events, true)
            else Drained(d.events + rest.events, rest.left, rest.raised)
  {
    hide Dispatch;
    DispatchWorks(env, agents, queue[0], queue[1..]);
  }

  lemma StageHead(env: Env, pushes: seq<Event>, stage: nat)
    requires forall p :: p in pushes ==> ValidPush(env, p)
    requires stage <= 6 && pushes != []
    ensures Stage(env, pushes, stage) == [Derived(env, pushes[0], stage)] + Stage(env, pushes[1..], stage)
  {
    hide Derived, Stage;
    var r := Stage(env, pushes, stage);
    assert forall k :: 0 <= k < |pushes| - 1 ==>
             r[k+1] == Derived(env, pushes[k+1], stage) && pushes[1..][k] == pushes[k+1];
  }

  /** From a full stage on, draining publishes exactly the later stages, in order, and ends cleanly. */
  lemma {:induction false} DrainFrom(env: Env, pushes: seq<Event>, stage: nat)
    requires forall p :: p in pushes ==> ValidPush(env, p)
    requires stage <= 6
    ensures Drain(env, WIRED, Stage(env, pushes, stage)) == Drained(Later(env, pushes, stage), [], false)
    decreases 6 - stage
  {
    var level := Stage(env, pushes, stage);
    assert level + [] == level;
    DrainStage(env, pushes, stage, []);
    if stage < 6 {
      var next := Stage(env, pushes, stage + 1);
      assert [] + next == next;
      DrainFrom(env, pushes, stage + 1);
    }
  }

  /** N valid pushes give exactly seven events each, stage by stage, the k-th of every stage coming
      from the k-th push. */
  lemma SevenPerPush(env: Env, pushes: seq<Event>)
    requires forall p :: p in pushes ==> ValidPush(env, p)
    ensures var r := Drain(env, WIRED, pushes);
            && !r.raised && r.left == []
            && |pushes + r.events| == 7 * |pushes|
            && forall stage, k :: 0 <= stage <= 6 && 0 <= k < |pushes| ==>
                 (pushes + r.events)[stage * |pushes| + k] == Derived(env, pushes[k], stage)
  {
    hide Later, Drain, Stage, ValidPush;
    assert Stage(env, pushes, 0) == pushes && Onward(env, pushes, 0) == pushes + Later(env, pushes, 0);
    DrainFrom(env, pushes, 0);
    forall stage, k | 0 <= stage <= 6 && 0 <= k < |pushes|
      ensures (pushes + Later(env, pushes, 0))[stage * |pushes| + k] == Derived(env, pushes[k], stage)
    {
      OnwardAt(env, pushes, 0, stage, k);
    }
  }

  /** A stage and all later ones, and where the k-th event `d` stages on is. */
  function Onward(env: Env, pushes: seq<Event>, stage: nat): (r: seq<Event>)
    requires forall p :: p in pushes ==> ValidPush(env, p)
    requires stage <= 6
    ensures |r| == |pushes| + (6 - stage) * |pushes|
  {
    Stage(env, pushes, stage) + Later(env, pushes, stage)
  }

  lemma {:induction false} OnwardAt(env: Env, pushes: seq<Event>, stage: nat, d: nat, k: nat)
    requires forall p :: p in pushes ==> ValidPush(env, p)
    requires stage + d <= 6 && k < |pushes|
    ensures d * |pushes| + k < |Onward(env, pushes, stage)|
    ensures Onward(env, pushes, stage)[d * |pushes| + k] == Derived(env, pushes[k], stage + d)
    decreases d
  {
    hide Derived, ValidPush, Onward;
    StageIndex(d, 6 - stage, |pushes|, k);
    if d == 0 {
      OnwardNow(env, pushes, stage, k);
    } else {
      OnwardAt(env, pushes, stage + 1, d - 1, k);
      OnwardNext(env, pushes, stage, (d - 1) * |pushes| + k);
    }
  }

  lemma OnwardNow(env: Env, pushes: seq<Event>, stage: nat, k: nat)
    requires forall p :: p in pushes ==> ValidPush(env, p)
    requires stage <= 6 && k < |pushes|
    ensures Onward(env, pushes, stage)[k] == Derived(env, pushes[k], stage)
  {
    hide Derived, ValidPush, Later;
  }

  lemma OnwardNext(env: Env, pushes: seq<Event>, stage: nat, j: nat)
    requires forall p :: p in pushes ==> ValidPush(env, p)
    requires stage < 6 && j < |Onward(env, pushes, stage + 1)|
    ensures Onward(env, pushes, stage)[|pushes| + j] == Onward(env, pushes, stage + 1)[j]
  {
    hide Derived, ValidPush, Stage;
    assert Onward(env, pushes, stage) == Stage(env, pushes, stage) + Onward(env, pushes, stage + 1);
  }

  lemma StageIndex(d: nat, m: nat, n: nat, k: nat)
    requires d <= m && k < n
    ensures d * n + k < n + m * n
    ensures d > 0 ==> d * n + k == n + ((d - 1) * n + k)
  {
    Times(d, m, n);
    assert d > 0 ==> d * n == n + (d - 1) * n;
  }

  predicate NoMultipleOfFive(env: Env, patch: string) {
    forall i :: 0 <= i < |ATTACKS| ==> env.digest(patch, i) % 5 != 0
  }

  /** The last event of a push is the policy exactly when none of the three digest bytes is a multiple of five. */
  lemma PolicyIff(env: Env, push: Event)
    requires ValidPush(env, push)
    ensures Derived(env, push, 6).DeployPolicy? <==> NoMultipleOfFive(env, Derived(env, push, 3).patch)
  {
    var patch := Derived(env, push, 3).patch;
    assert Derived(env, push, 4) == AttackResults(Simulate(env, patch), patch);
    var results := Derived(env, push, 4).results;
    assert Derived(env, push, 5) == VerifyDone(AllBlocked(results), patch, results);
    assert Derived(env, push, 6).DeployPolicy? <==> Derived(env, push, 5).ok;
    SimulateBlocked(env, patch);
  }

  lemma SimulateBlocked(env: Env, patch: string)
    ensures AllBlocked(Simulate(env, patch)) <==> NoMultipleOfFive(env, patch)
  {
    var results := Simulate(env, patch);
    if AllBlocked(results) {
      forall i | 0 <= i < |ATTACKS| ensures env.digest(patch, i) % 5 != 0 {
        assert results[i].blocked;
      }
    } else {
      var i :| 0 <= i < |results| && !results[i].blocked;
      assert env.digest(patch, i) % 5 == 0;
    }
  }

  /** The patch has one line for each finding, in order. */
  lemma {:induction false} PatchLines(findings: seq<Finding>, last: Finding)
    ensures PatchText(findings + [last]) ==
            PatchText(findings) + (if findings == [] then "" else "\n") + RuleLine(last)
  {
    hide RuleLine;
    if findings == [] {
      assert [] + [last] == [last];
      OneLine(last);
      assert "" + "" + RuleLine(last) == RuleLine(last);
    } else {
      hide PatchText;
      var both, rest := findings + [last], findings[1..];
      assert both[1..] == rest + [last] && both[0] == findings[0];
      PatchLines(rest, last);
      FirstLine(findings);
      FirstLine(both);
      if rest == [] {
        OneLine(last);
      } else {
        JoinLines(RuleLine(findings[0]), PatchText(rest), RuleLine(last));
      }
    }
  }

  lemma OneLine(last: Finding)
    ensures PatchText([last]) == RuleLine(last) && PatchText([]) == ""
  {
    hide RuleLine;
    assert RuleLine(last) + "" == RuleLine(last);
  }

  lemma FirstLine(findings: seq<Finding>)
    requires findings != []
    ensures PatchText(findings) ==
            if |findings| == 1 then RuleLine(findings[0])
            else RuleLine(findings[0]) + ("\n" + PatchText(findings[1..]))
  {
    hide RuleLine;
    if |findings| == 1 { assert RuleLine(findings[0]) + "" == RuleLine(findings[0]); }
  }

  lemma JoinLines(first: string, middle: string, final: string)
    ensures first + ("\n" + (middle + "\n" + final)) == (first + ("\n" + middle)) + "\n" + final
  {
  }

  /** What the first events of a push carry: a finding for each result of the report, and the patch for all. */
  lemma PatchStory(env: Env, push: Event)
    requires ValidPush(env, push)
    ensures var results := env.parse(push.sarif.value).value;
            var findings, made := Derived(env, push, 2), Derived(env, push, 3);
            && findings.FindingsEnriched? && |findings.findings| == |results|
            && (forall k :: 0 <= k < |results| ==>
                  (findings.findings[k].rule, findings.findings[k].severity) == results[k])
            && made == PatchGenerated(PatchText(findings.findings), |results|)
  {
    hide PatchText, Simulate;
    assert Derived(env, push, 2) == FindingsEnriched(Enrich(env.parse(push.sarif.value).value));
  }

  /** What the later ones carry: three named attacks on that patch, their outcome, and when one of them was not
      blocked a revision holding the verdict. */
  lemma AttackStory(env: Env, push: Event)
    requires ValidPush(env, push)
    ensures var patch, attacked, verified := Derived(env, push, 3).patch, Derived(env, push, 4), Derived(env, push, 5);
            && attacked.AttackResults? && attacked.attacked == patch
            && attacked.results ==
               [Probe("../../etc/passwd", env.digest(patch, 0) % 5 != 0),
                Probe("http://169.254.169.254/latest/meta-data/", env.digest(patch, 1) % 5 != 0),
                Probe("' OR 1=1 --", env.digest(patch, 2) % 5 != 0)]
            && verified.VerifyDone? && verified.verified == patch && verified.outcomes == attacked.results
            && (verified.ok <==> forall probe :: probe in verified.outcomes ==> probe.blocked)
    ensures !Derived(env, push, 5).ok ==>
              Derived(env, push, 6) == PatchRevise("attack simulation failed", Derived(env, push, 5))
  {
    var patch := Derived(env, push, 3).patch;
    var probes := Simulate(env, patch);
    assert Derived(env, push, 4) == AttackResults(probes, patch);
    assert Derived(env, push, 5) == VerifyDone(AllBlocked(probes), patch, probes);
    hide Derived, Enrich, PatchText;
    assert AllBlocked(probes) <==> forall probe :: probe in probes ==> probe.blocked;
  }

  /** A push without a report or with a blank one raises at once; one with an unreadable report raises after
      it was passed on. */
  lemma RejectedPush(env: Env, push: Event)
    requires push.RepoPushed? && !ValidPush(env, push)
    ensures Drain(env, WIRED, [push]) ==
            if push.sarif.None? || env.blank(push.sarif.value) then Drained([], [], true)
            else Drained([SarifReady(push.sarif.value)], [], true)
  {
    hide Drain, Dispatch;
    assert WIRED[0..] == WIRED && [push][1..] == [] && WIRED[8..] == [];
    DispatchStep(env, WIRED, push, 0);
    DrainNext(env, WIRED, [push]);
    if push.sarif.Some? && !env.blank(push.sarif.value) {
      var ready := SarifReady(push.sarif.value);
      SkipTo(env, push, 1, 8);
      DispatchNone(env, push);
      assert [ready] + [] == [ready] && [ready][1..] == [] && [] + [ready] == [ready];
      SkipTo(env, ready, 0, 1);
      DispatchStep(env, WIRED, ready, 1);
      DrainNext(env, WIRED, [ready]);
    }
  }

  // ---------- the objects ----------

  /** How a publication ends. */
  datatype Receipt = Appended | ValueError | TypeError

  class EventBus {
    var queue: seq<Event>
    var history: seq<Event>

    constructor ()
      ensures queue == [] && history == []
    {
      queue, history := [], [];
    }

    /** An event is appended unless its topic is empty or its payload, None here, is not a dictionary. */
    method Publish(topic: string, payload: Option<Event>) returns (r: Receipt)
      requires payload.Some? ==> Topic(payload.value) == topic
      modifies this
      ensures r.ValueError? <==> topic == ""
      ensures r.TypeError? <==> topic != "" && payload.None?
      ensures if r.Appended? then queue == old(queue) + [payload.value] && history == old(history) + [payload.value]
              else queue == old(queue) && history == old(history)
    {
      if topic == "" {
        return ValueError;
      }
      if payload.None? {
        return TypeError;
      }
      queue := queue + [payload.value];
      history := history + [payload.value];
      return Appended;
    }

    method PublishAll(events: seq<Event>)
      requires forall e :: e in events ==> Topic(e) != ""
      modifies this
      ensures queue == old(queue) + events && history == old(history) + events
    {
      hide Topic;
      for i := 0 to |events|
        invariant queue == old(queue) + events[..i] && history == old(history) + events[..i]
      {
        assert events[..i+1] == events[..i] + [events[i]];
        var r := Publish(Topic(events[i]), Some(events[i]));
      }
      assert events[..|events|] == events;
    }
  }

  /** Agents publish on named topics only, so none of their events is refused. */
  lemma HandledTopics(env: Env, agent: Agent, e: Event, x: Event)
    requires Subscribed(agent, e) && Handle(env, agent, e).Some? && x in Handle(env, agent, e).value
    ensures Topic(x) != ""
  {
  }

  class Orchestrator {
    const env: Env
    const agents: seq<Agent>
    const bus: EventBus

    constructor (env: Env, agents: seq<Agent>, bus: EventBus)
      ensures this.env == env && this.agents == agents && this.bus == bus
    {
      this.env, this.agents, this.bus := env, agents, bus;
    }

    method DispatchEvent(e: Event) returns (raised: bool)
      modifies bus
      ensures raised == Dispatch(env, agents, e).raised
      ensures bus.queue == old(bus.queue) + Dispatch(env, agents, e).events
      ensures bus.history == old(bus.history) + Dispatch(env, agents, e).events
    {
      hide Handle, Subscribed, Dispatch, Topic;
      ghost var sent: seq<Event> := [];
      ghost var all := Dispatch(env, agents, e);
      assert agents[0..] == agents;
      for i := 0 to |agents|
        invariant bus.queue == old(bus.queue) + sent && bus.history == old(bus.history) + sent
        invariant all.raised == Dispatch(env, agents[i..], e).raised
        invariant all.events == sent + Dispatch(env, agents[i..], e).events
      {
        DispatchStep(env, agents, e, i);
        if Subscribed(agents[i], e) {
          var published := Handle(env, agents[i], e);
          if published.None? {
            assert sent + [] == sent;
            return true;
          }
          forall x | x in published.value ensures Topic(x) != "" { HandledTopics(env, agents[i], e, x); }
          bus.PublishAll(published.value);
          Regroup(old(bus.queue), sent, published.value);
          Regroup(old(bus.history), sent, published.value);
          Regroup(sent, published.value, Dispatch(env, agents[i+1..], e).events);
          sent := sent + published.value;
        }
      }
      DispatchNone(env, e);
      assert agents[|agents|..] == [] && sent + [] == sent;
      return false;
    }

    /** Handlers publish while the queue is being consumed, yet the loop ends; the history is always
        what was handled followed by what is queued. */
    method Run(ghost handled: seq<Event>) returns (raised: bool, ghost consumed: seq<Event>)
      requires bus.history == handled + bus.queue
      modifies bus
      ensures var r := Drain(env, agents, old(bus.queue));
              && raised == r.raised && bus.queue == r.left
              && bus.history == old(bus.history) + r.events
      ensures bus.history == consumed + bus.queue
    {
      hide Drain, Dispatch, Work;
      consumed := handled;
      ghost var sent: seq<Event> := [];
      ghost var all := Drain(env, agents, bus.queue);
      while bus.queue != []
        invariant bus.history == consumed + bus.queue && bus.history == old(bus.history) + sent
        invariant all.raised == Drain(env, agents, bus.queue).raised && all.left == Drain(env, agents, bus.queue).left
        invariant all.events == sent + Drain(env, agents, bus.queue).events
        decreases Work(|agents|, bus.queue)
      {
        ghost var before := bus.queue;
        var e := bus.queue[0];
        bus.queue := bus.queue[1..];
        ghost var out := Dispatch(env, agents, e).events;
        assert before == [e] + bus.queue;
        Regroup(consumed, [e], bus.queue);
        consumed := consumed + [e];
        DispatchWorks(env, agents, e, bus.queue);
        DrainNext(env, agents, before);
        Regroup(consumed, bus.queue, out);
        Regroup(old(bus.history), sent, out);
        Regroup(sent, out, Drain(env, agents, bus.queue + out).events);
        raised := DispatchEvent(e);
        sent := sent + out;
        if raised {
          return;
        }
      }
      DrainEmpty(env, agents);
      assert sent + [] == sent;
      return false, consumed;
    }
  }

  lemma Regroup(a: seq<Event>, b: seq<Event>, c: seq<Event>)
    ensures a + (b + c) == (a + b) + c
  {
  }

  lemma DrainEmpty(env: Env, agents: seq<Agent>)
    ensures Drain(env, agents, []) == Drained([], [], false)
  {
  }
}
