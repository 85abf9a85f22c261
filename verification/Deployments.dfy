/** The deployment store of services/master-orchestrator/src/deployment_controller.py: what its
    operations do to the two dictionaries, and what every reachable store satisfies. */
module Deployments {
  import opened Wrappers

  datatype Phase = Queued | Building | Failed | Fixing | Deploying | Succeeded

  /** The transition table. */
  function Next(phase: Phase, event: string): Option<Phase> {
    match phase
    case Queued => if event == "build.started" then Some(Building) else None
    case Building =>
      if event == "build.failed" then Some(Failed)
      else if event == "build.succeeded" then Some(Deploying) else None
    case Failed => if event == "ai.fix.started" then Some(Fixing) else None
    case Fixing => if event == "ai.fix.applied" then Some(Building) else None
    case Deploying =>
      if event == "deploy.failed" then Some(Failed)
      else if event == "deploy.succeeded" then Some(Succeeded) else None
    case Succeeded => None
  }

  datatype Entry = Entry(event: string, source: string, timestamp: string, metadata: string, nextState: Option<Phase>)

  datatype Rec = Rec(
    id: string, project: string, commit: string, environment: string,
    phase: Phase, createdAt: string, updatedAt: string, history: seq<Entry>)

  datatype CreateRequest = CreateRequest(project: string, commit: string, environment: string, key: string)

  datatype EventRequest = EventRequest(id: string, event: string, source: string, metadata: string)

  datatype Store = Store(deployments: map<string, Rec>, index: map<string, string>)

  datatype Error = KeyError | ValueError

  datatype Result<T> = Ok(value: T) | Err(error: Error)

  /** Functions the store relies on: lower-casing, and the rendering of the creation metadata. */
  datatype Env = Env(lower: string -> string, describe: CreateRequest -> string)

  function Created(env: Env, q: CreateRequest, id: string, now: string): Rec {
    Rec(id, q.project, q.commit, env.lower(q.environment), Queued, now, now,
        [Entry("deployment.created", "platform-core", now, env.describe(q), None)])
  }

  function Create(env: Env, s: Store, q: CreateRequest, id: string, now: string): Store {
    if q.key in s.index then s
    else Store(s.deployments[id := Created(env, q, id, now)], s.index[q.key := id])
  }

  function Advance(r: Rec, q: EventRequest, next: Phase, now: string): Rec {
    r.(phase := next, updatedAt := now,
       history := r.history + [Entry(q.event, q.source, now, q.metadata, Some(next))])
  }

  function ApplyEvent(s: Store, q: EventRequest, now: string): Result<Store> {
    if q.id !in s.deployments then Err(KeyError)
    else
      match Next(s.deployments[q.id].phase, q.event)
      case None => Err(ValueError)
      case Some(next) => Ok(s.(deployments := s.deployments[q.id := Advance(s.deployments[q.id], q, next, now)]))
  }

  // ---------- runs ----------

  /** A call to the store; `id` is the identifier uuid4 would yield if one is needed. */
  datatype Call = New(request: CreateRequest, id: string, now: string) | Event(event: EventRequest, at: string)

  function Step(env: Env, s: Store, c: Call): Store {
    match c
    case New(q, id, now) => Create(env, s, q, id, now)
    case Event(q, now) =>
      match ApplyEvent(s, q, now)
      case Ok(t) => t
      case Err(_) => s
  }

  predicate FreshIds(env: Env, s: Store, calls: seq<Call>)
    decreases calls
  {
    calls == [] ||
    ((calls[0].New? ==> calls[0].id !in s.deployments) && FreshIds(env, Step(env, s, calls[0]), calls[1..]))
  }

  function Play(env: Env, s: Store, calls: seq<Call>): Store
    decreases calls
  {
    if calls == [] then s else Play(env, Step(env, s, calls[0]), calls[1..])
  }

  const EMPTY := Store(map[], map[])

  // ---------- what a history says ----------

  /** The state that replaying a history through the table ends in, if it can be replayed. */
  function Replay(history: seq<Entry>): Option<Phase> {
    if history == [] then None
    else
      var last := history[|history| - 1];
      if |history| == 1 then
        (if last.event == "deployment.created" && last.nextState == None then Some(Queued) else None)
      else
        match Replay(history[..|history| - 1])
        case None => None
        case Some(phase) => if last.nextState == Next(phase, last.event) then last.nextState else None
  }

  predicate IsFailure(event: string) { event == "build.failed" || event == "deploy.failed" }

  function Failures(history: seq<Entry>): int {
    if history == [] then 0
    else Failures(history[..|history| - 1]) + if IsFailure(history[|history| - 1].event) then 1 else 0
  }

  function Fixes(history: seq<Entry>): int {
    if history == [] then 0
    else Fixes(history[..|history| - 1]) + if history[|history| - 1].event == "ai.fix.applied" then 1 else 0
  }

  function OpenFailures(phase: Phase): int { if phase == Failed || phase == Fixing then 1 else 0 }

  /** Failures not yet fixed: one while failed or fixing, otherwise none. */
  lemma {:induction false} FailureBalance(history: seq<Entry>)
    requires Replay(history).Some?
    ensures Failures(history) - Fixes(history) == OpenFailures(Replay(history).value)
  {
    if |history| > 1 {
      FailureBalance(history[..|history| - 1]);
    } else {
      assert history[..0] == [];
    }
  }

  function Events(history: seq<Entry>, event: string): int {
    if history == [] then 0
    else Events(history[..|history| - 1], event) + if history[|history| - 1].event == event then 1 else 0
  }

  function In(phase: Phase, here: Phase): int { if phase == here then 1 else 0 }

  /** Each phase is entered as often as it was left, plus one for the phase a deployment is in. */
  ghost predicate Balanced(history: seq<Entry>, phase: Phase) {
    && Events(history, "build.started") == 1 - In(phase, Queued)
    && Events(history, "build.started") + Events(history, "ai.fix.applied")
         == Events(history, "build.failed") + Events(history, "build.succeeded") + In(phase, Building)
    && Events(history, "build.failed") + Events(history, "deploy.failed")
         == Events(history, "ai.fix.started") + In(phase, Failed)
    && Events(history, "ai.fix.started") == Events(history, "ai.fix.applied") + In(phase, Fixing)
    && Events(history, "build.succeeded")
         == Events(history, "deploy.failed") + Events(history, "deploy.succeeded") + In(phase, Deploying)
    && Events(history, "deploy.succeeded") == In(phase, Succeeded)
  }

  /** The events of a replayable history determine the state, by the balance of every phase. */
  lemma {:induction false} PhaseBalance(history: seq<Entry>)
    requires Replay(history).Some?
    ensures Balanced(history, Replay(history).value)
  {
    if |history| > 1 {
      PhaseBalance(history[..|history| - 1]);
    } else {
      assert history[..0] == [];
    }
  }

  lemma ReplayAdvance(r: Rec, q: EventRequest, next: Phase, now: string)
    requires Replay(r.history) == Some(r.phase) && Next(r.phase, q.event) == Some(next)
    ensures Replay(Advance(r, q, next, now).history) == Some(next)
  {
    var h := Advance(r, q, next, now).history;
    assert h[..|h| - 1] == r.history;
  }

  // ---------- the invariant ----------

  /** Keys and deployments correspond one to one. */
  ghost predicate KeysOk(s: Store) {
    && (forall key :: key in s.index ==> s.index[key] in s.deployments)
    && (forall a, b :: a in s.index && b in s.index && s.index[a] == s.index[b] ==> a == b)
    && (forall id :: id in s.deployments ==> exists key :: key in s.index && s.index[key] == id)
  }

  /** Every record carries its own identifier and is its own replayed history. */
  ghost predicate RecordsOk(s: Store) {
    forall id :: id in s.deployments ==>
      s.deployments[id].id == id && Replay(s.deployments[id].history) == Some(s.deployments[id].phase)
  }

  ghost predicate Inv(s: Store) {
    KeysOk(s) && RecordsOk(s)
  }

  lemma CreateKeys(env: Env, s: Store, q: CreateRequest, id: string, now: string)
    requires KeysOk(s) && id !in s.deployments
    ensures KeysOk(Create(env, s, q, id, now))
  {
    hide Created;
    var t := Create(env, s, q, id, now);
    if q.key !in s.index {
      forall i | i in t.deployments ensures exists key :: key in t.index && t.index[key] == i {
        if i == id {
          assert q.key in t.index && t.index[q.key] == id;
        } else {
          var key :| key in s.index && s.index[key] == i;
          assert key in t.index && t.index[key] == i;
        }
      }
    }
  }

  lemma CreatedReplays(env: Env, q: CreateRequest, id: string, now: string)
    ensures var r := Created(env, q, id, now); r.id == id && Replay(r.history) == Some(r.phase)
  {
  }

  lemma CreateInv(env: Env, s: Store, q: CreateRequest, id: string, now: string)
    requires Inv(s) && id !in s.deployments
    ensures Inv(Create(env, s, q, id, now))
  {
    hide KeysOk, Replay, Created;
    CreateKeys(env, s, q, id, now);
    CreatedReplays(env, q, id, now);
  }

  lemma ApplyKeys(s: Store, q: EventRequest, now: string)
    requires KeysOk(s) && ApplyEvent(s, q, now).Ok?
    ensures KeysOk(ApplyEvent(s, q, now).value)
  {
    var t := ApplyEvent(s, q, now).value;
    assert t.index == s.index && t.deployments.Keys == s.deployments.Keys;
    hide ApplyEvent;
    forall id | id in t.deployments ensures exists key :: key in t.index && t.index[key] == id {
      assert id in s.deployments;
      var key :| key in s.index && s.index[key] == id;
    }
  }

  /** What an applied event does to the dictionary. */
  lemma Applied(s: Store, q: EventRequest, now: string)
    requires ApplyEvent(s, q, now).Ok?
    ensures q.id in s.deployments && Next(s.deployments[q.id].phase, q.event).Some?
    ensures ApplyEvent(s, q, now).value.deployments ==
            s.deployments[q.id := Advance(s.deployments[q.id], q, Next(s.deployments[q.id].phase, q.event).value, now)]
  {
  }

  lemma ApplyInv(s: Store, q: EventRequest, now: string)
    requires Inv(s) && ApplyEvent(s, q, now).Ok?
    ensures Inv(ApplyEvent(s, q, now).value)
  {
    hide KeysOk, ApplyEvent, Next, Replay;
    Applied(s, q, now);
    ApplyKeys(s, q, now);
    var r := s.deployments[q.id];
    ReplayAdvance(r, q, Next(r.phase, q.event).value, now);
  }

  /** Every reachable store satisfies the invariant. */
  lemma {:induction false} PlayInv(env: Env, s: Store, calls: seq<Call>)
    requires Inv(s) && FreshIds(env, s, calls)
    ensures Inv(Play(env, s, calls))
    decreases calls
  {
    hide Inv, Create, ApplyEvent;
    if calls != [] {
      match calls[0] {
        case New(q, id, now) => CreateInv(env, s, q, id, now);
        case Event(q, now) => if ApplyEvent(s, q, now).Ok? { ApplyInv(s, q, now); }
      }
      PlayInv(env, Step(env, s, calls[0]), calls[1..]);
    }
  }

  /** In every reachable store each deployment's state is the replay of its history, and its open
      failures are exactly what its state says. */
  lemma ReachableStates(env: Env, calls: seq<Call>, id: string)
    requires FreshIds(env, EMPTY, calls) && id in Play(env, EMPTY, calls).deployments
    ensures var r := Play(env, EMPTY, calls).deployments[id];
            && Replay(r.history) == Some(r.phase)
            && Failures(r.history) - Fixes(r.history) == OpenFailures(r.phase)
            && Balanced(r.history, r.phase)
  {
    PlayInv(env, EMPTY, calls);
    PhaseBalance(Play(env, EMPTY, calls).deployments[id].history);
    FailureBalance(Play(env, EMPTY, calls).deployments[id].history);
  }

  /** In every reachable store idempotency keys and deployments are in bijection: a key names a
      deployment, each deployment has exactly one key, and a record carries its own identifier. */
  lemma KeysNameDeployments(env: Env, calls: seq<Call>)
    requires FreshIds(env, EMPTY, calls)
    ensures var s := Play(env, EMPTY, calls);
            && s.index.Values == s.deployments.Keys
            && (forall a, b :: a in s.index && b in s.index && s.index[a] == s.index[b] ==> a == b)
            && (forall id :: id in s.deployments ==> s.deployments[id].id == id)
  {
    PlayInv(env, EMPTY, calls);
  }

  // ---------- which events are accepted ----------

  /** What a sequence of events leads to from a state; None if one of them is refused. */
  function Follow(phase: Phase, events: seq<string>): Option<Phase> {
    if events == [] then Some(phase)
    else
      match Follow(phase, events[..|events| - 1])
      case None => None
      case Some(before) => Next(before, events[|events| - 1])
  }

  /** A way to fail. */
  datatype Fault = InBuild | InDeploy

  function Failing(fault: Fault): seq<string> {
    match fault
    case InBuild => ["build.failed"]
    case InDeploy => ["build.succeeded", "deploy.failed"]
  }

  /** The start of a build, and any number of failures each with its fix. */
  function Rounds(faults: seq<Fault>): seq<string> {
    if faults == [] then ["build.started"]
    else Rounds(faults[..|faults| - 1]) + Failing(faults[|faults| - 1]) + ["ai.fix.started", "ai.fix.applied"]
  }

  /** The events that lead to a state: rounds of failure and fix, then the way from building to there. */
  function Story(phase: Phase, faults: seq<Fault>, last: Fault): seq<string> {
    match phase
    case Queued => []
    case Building => Rounds(faults)
    case Failed => Rounds(faults) + Failing(last)
    case Fixing => Rounds(faults) + Failing(last) + ["ai.fix.started"]
    case Deploying => Rounds(faults) + ["build.succeeded"]
    case Succeeded => Rounds(faults) + ["build.succeeded", "deploy.succeeded"]
  }

  lemma FollowOne(phase: Phase, events: seq<string>, event: string)
    ensures Follow(phase, events + [event]) ==
            match Follow(phase, events)
            case None => None
            case Some(before) => Next(before, event)
  {
    assert (events + [event])[..|events|] == events;
  }

  lemma FollowFailing(phase: Phase, events: seq<string>, fault: Fault)
    requires Follow(phase, events) == Some(Building)
    ensures Follow(phase, events + Failing(fault)) == Some(Failed)
  {
    FollowOne(phase, events, "build.failed");
    FollowOne(phase, events, "build.succeeded");
    FollowOne(phase, events + ["build.succeeded"], "deploy.failed");
    assert events + ["build.succeeded", "deploy.failed"] == (events + ["build.succeeded"]) + ["deploy.failed"];
  }

  /** After any rounds of failure and fix a deployment is building again. */
  lemma {:induction false} RoundsBuild(faults: seq<Fault>)
    ensures Follow(Queued, Rounds(faults)) == Some(Building)
  {
    if faults == [] {
      FollowOne(Queued, [], "build.started");
      assert [] + ["build.started"] == ["build.started"] && Follow(Queued, []) == Some(Queued);
    } else {
      hide Follow;
      var before, fault := Rounds(faults[..|faults| - 1]), faults[|faults| - 1];
      RoundsBuild(faults[..|faults| - 1]);
      FollowFailing(Queued, before, fault);
      var failed := before + Failing(fault);
      FollowOne(Queued, failed, "ai.fix.started");
      FollowOne(Queued, failed + ["ai.fix.started"], "ai.fix.applied");
      assert failed + ["ai.fix.started", "ai.fix.applied"] == (failed + ["ai.fix.started"]) + ["ai.fix.applied"];
    }
  }

  /** Every story is accepted, event by event, and ends where it says. */
  lemma StoryAccepted(phase: Phase, faults: seq<Fault>, last: Fault)
    ensures Follow(Queued, Story(phase, faults, last)) == Some(phase)
  {
    assert Follow(Queued, []) == Some(Queued);
    hide Follow, Rounds, Failing;
    var start := Rounds(faults);
    RoundsBuild(faults);
    FollowFailing(Queued, start, last);
    FollowOne(Queued, start + Failing(last), "ai.fix.started");
    FollowOne(Queued, start, "build.succeeded");
    FollowOne(Queued, start + ["build.succeeded"], "deploy.succeeded");
    assert start + ["build.succeeded", "deploy.succeeded"] == (start + ["build.succeeded"]) + ["deploy.succeeded"];
  }

  /** Only stories are accepted. */
  lemma {:induction false} AcceptedIsStory(events: seq<string>) returns (faults: seq<Fault>, last: Fault)
    requires Follow(Queued, events).Some?
    ensures events == Story(Follow(Queued, events).value, faults, last)
  {
    faults, last := [], InBuild;
    if events != [] {
      var n := |events| - 1;
      faults, last := AcceptedIsStory(events[..n]);
      var before, event := Follow(Queued, events[..n]).value, events[n];
      assert events == events[..n] + [event];
      hide Follow;
      faults, last := StoryStep(before, faults, last, event);
    }
  }

  /** One more accepted event continues a story. */
  lemma StoryStep(before: Phase, faults: seq<Fault>, last: Fault, event: string)
    returns (more: seq<Fault>, late: Fault)
    requires Next(before, event).Some?
    ensures Story(before, faults, last) + [event] == Story(Next(before, event).value, more, late)
  {
    more, late := faults, last;
    match before {
      case Queued => more := [];
      case Building => late := InBuild;
      case Failed =>
      case Fixing =>
        more := faults + [last];
        assert more[..|more| - 1] == faults;
      case Deploying => late := InDeploy;
      case Succeeded =>
    }
  }

  /** Exactly which event sequences a new deployment accepts, and where they lead. */
  lemma AcceptedExactly(events: seq<string>, phase: Phase)
    ensures Follow(Queued, events) == Some(phase) <==>
            exists faults: seq<Fault>, last: Fault :: events == Story(phase, faults, last)
  {
    if Follow(Queued, events) == Some(phase) {
      var faults, last := AcceptedIsStory(events);
    } else if faults: seq<Fault>, last: Fault :| events == Story(phase, faults, last) {
      StoryAccepted(phase, faults, last);
    }
  }

  /** Delivers events to one deployment, one `ApplyEvent` each; None if one of them is an error. */
  function Deliver(s: Store, id: string, events: seq<string>, source: string, now: string): Option<Store> {
    if events == [] then Some(s)
    else
      match Deliver(s, id, events[..|events| - 1], source, now)
      case None => None
      case Some(t) =>
        match ApplyEvent(t, EventRequest(id, events[|events| - 1], source, ""), now)
        case Err(_) => None
        case Ok(next) => Some(next)
  }

  /** Delivering follows the table. */
  lemma {:induction false} DeliverFollows(s: Store, id: string, events: seq<string>, source: string, now: string)
    requires id in s.deployments
    ensures Deliver(s, id, events, source, now).Some? <==> Follow(s.deployments[id].phase, events).Some?
    ensures Deliver(s, id, events, source, now).Some? ==>
              var t := Deliver(s, id, events, source, now).value;
              id in t.deployments && Some(t.deployments[id].phase) == Follow(s.deployments[id].phase, events)
  {
    hide Next;
    if events != [] { DeliverFollows(s, id, events[..|events| - 1], source, now); }
  }

  /** From a new deployment, any failures in building and deploying, each followed by its fix, and then a
      build and a deployment that succeed: all these events are accepted and it has succeeded. */
  lemma EventuallySucceeds(env: Env, s: Store, q: CreateRequest, id: string, now: string, source: string,
                           faults: seq<Fault>)
    requires q.key !in s.index && id !in s.deployments
    ensures var events := Rounds(faults) + ["build.succeeded", "deploy.succeeded"];
            var t := Deliver(Create(env, s, q, id, now), id, events, source, now);
            t.Some? && id in t.value.deployments && t.value.deployments[id].phase == Succeeded
  {
    StoryAccepted(Succeeded, faults, InBuild);
    DeliverFollows(Create(env, s, q, id, now), id, Story(Succeeded, faults, InBuild), source, now);
  }

  /** The shortest way to success. */
  function Way(phase: Phase): seq<string> {
    match phase
    case Queued => ["build.started", "build.succeeded", "deploy.succeeded"]
    case Building => ["build.succeeded", "deploy.succeeded"]
    case Failed => ["ai.fix.started", "ai.fix.applied", "build.succeeded", "deploy.succeeded"]
    case Fixing => ["ai.fix.applied", "build.succeeded", "deploy.succeeded"]
    case Deploying => ["deploy.succeeded"]
    case Succeeded => []
  }

  lemma {:induction false} FollowFront(phase: Phase, events: seq<string>)
    requires events != [] && Next(phase, events[0]).Some?
    ensures Follow(phase, events) == Follow(Next(phase, events[0]).value, events[1..])
  {
    hide Next;
    if |events| == 1 {
      FollowOne(phase, [], events[0]);
      assert [] + [events[0]] == events;
    } else {
      var n := |events| - 1;
      FollowFront(phase, events[..n]);
      assert events[..n][1..] == events[1..][..n - 1] && events[1..][n - 1] == events[n];
    }
  }

  lemma WaySucceeds(phase: Phase)
    ensures Follow(phase, Way(phase)) == Some(Succeeded)
    decreases |Way(phase)|
  {
    if phase == Succeeded {
    } else {
      hide Follow;
      var next := Next(phase, Way(phase)[0]).value;
      assert Way(phase)[1..] == Way(next);
      FollowFront(phase, Way(phase));
      WaySucceeds(next);
    }
  }

  /** No reachable deployment is stuck: some accepted events lead it to success. */
  lemma NeverStuck(env: Env, calls: seq<Call>, id: string, source: string, now: string)
    requires FreshIds(env, EMPTY, calls) && id in Play(env, EMPTY, calls).deployments
    ensures var s := Play(env, EMPTY, calls);
            var t := Deliver(s, id, Way(s.deployments[id].phase), source, now);
            t.Some? && id in t.value.deployments && t.value.deployments[id].phase == Succeeded
  {
    hide Play, Follow, Way, Deliver;
    var s := Play(env, EMPTY, calls);
    WaySucceeds(s.deployments[id].phase);
    DeliverFollows(s, id, Way(s.deployments[id].phase), source, now);
  }

  // ---------- succeeded is final, keys are idempotent ----------

  lemma StepKeeps(env: Env, s: Store, c: Call, id: string)
    requires id in s.deployments && (c.New? ==> c.id !in s.deployments)
    ensures id in Step(env, s, c).deployments
    ensures s.deployments[id].history <= Step(env, s, c).deployments[id].history
    ensures s.deployments[id].phase == Succeeded ==> Step(env, s, c).deployments[id] == s.deployments[id]
  {
  }

  /** Histories only grow, and a succeeded deployment never changes again. */
  lemma {:induction false} PlayKeeps(env: Env, s: Store, calls: seq<Call>, id: string)
    requires id in s.deployments && FreshIds(env, s, calls)
    ensures id in Play(env, s, calls).deployments
    ensures s.deployments[id].history <= Play(env, s, calls).deployments[id].history
    ensures s.deployments[id].phase == Succeeded ==> Play(env, s, calls).deployments[id] == s.deployments[id]
    decreases calls
  {
    hide Step;
    if calls != [] {
      StepKeeps(env, s, calls[0], id);
      PlayKeeps(env, Step(env, s, calls[0]), calls[1..], id);
    }
  }

  lemma {:induction false} KeyStays(env: Env, s: Store, calls: seq<Call>, key: string)
    requires key in s.index
    ensures key in Play(env, s, calls).index && Play(env, s, calls).index[key] == s.index[key]
    decreases calls
  {
    if calls != [] { KeyStays(env, Step(env, s, calls[0]), calls[1..], key); }
  }

  /** However much happens in between, creating again with the same key changes nothing and answers
      with the deployment first created for it. */
  lemma RepeatedCreate(env: Env, s: Store, q: CreateRequest, id: string, now: string,
                       calls: seq<Call>, again: CreateRequest, id2: string, now2: string)
    requires Inv(s) && q.key !in s.index && again.key == q.key
    ensures var t := Play(env, Create(env, s, q, id, now), calls);
            && Create(env, t, again, id2, now2) == t
            && again.key in t.index && t.index[again.key] == id
  {
    KeyStays(env, Create(env, s, q, id, now), calls, q.key);
  }

  // ---------- what a record says about the calls ----------

  /** What a call writes into the history of a deployment: an event for it that its state accepts. */
  function Noted(s: Store, c: Call, id: string): seq<Entry>
    requires id in s.deployments
  {
    if c.Event? && c.event.id == id then
      match Next(s.deployments[id].phase, c.event.event)
      case None => []
      case next => [Entry(c.event.event, c.event.source, c.at, c.event.metadata, next)]
    else []
  }

  /** What a run writes into the history of a deployment. */
  function Logged(env: Env, s: Store, calls: seq<Call>, id: string): seq<Entry>
    requires id in s.deployments && FreshIds(env, s, calls)
    decreases calls
  {
    if calls == [] then []
    else
      StepKeeps(env, s, calls[0], id);
      Noted(s, calls[0], id) + Logged(env, Step(env, s, calls[0]), calls[1..], id)
  }

  /** Two values of a record: the second has more history, and is otherwise as it was created. */
  ghost predicate Grown(before: Rec, after: Rec, entries: seq<Entry>) {
    && after.id == before.id && after.project == before.project && after.commit == before.commit
    && after.environment == before.environment && after.createdAt == before.createdAt
    && after.history == before.history + entries
    && after.updatedAt == if entries == [] then before.updatedAt else entries[|entries| - 1].timestamp
  }

  lemma StepGrows(env: Env, s: Store, c: Call, id: string)
    requires id in s.deployments && (c.New? ==> c.id !in s.deployments)
    ensures id in Step(env, s, c).deployments
    ensures Grown(s.deployments[id], Step(env, s, c).deployments[id], Noted(s, c, id))
  {
    hide Next;
  }

  lemma GrownTwice(a: Rec, b: Rec, c: Rec, first: seq<Entry>, second: seq<Entry>)
    requires Grown(a, b, first) && Grown(b, c, second)
    ensures Grown(a, c, first + second)
  {
  }

  lemma {:induction false} PlayGrows(env: Env, s: Store, calls: seq<Call>, id: string)
    requires id in s.deployments && FreshIds(env, s, calls)
    ensures id in Play(env, s, calls).deployments
    ensures Grown(s.deployments[id], Play(env, s, calls).deployments[id], Logged(env, s, calls, id))
    decreases calls
  {
    if calls != [] {
      hide Step, Grown, Noted;
      var t := Step(env, s, calls[0]);
      StepKeeps(env, s, calls[0], id);
      StepGrows(env, s, calls[0], id);
      PlayGrows(env, t, calls[1..], id);
      GrownTwice(s.deployments[id], t.deployments[id], Play(env, s, calls).deployments[id], Noted(s, calls[0], id),
          Logged(env, t, calls[1..], id));
    }
  }

  /** A record is what its creation asked for and, in order, exactly the events it was sent and accepted,
      each with its source, time and metadata; it was last updated at the time of its last entry. */
  lemma Provenance(env: Env, s: Store, q: CreateRequest, id: string, now: string, calls: seq<Call>)
    requires q.key !in s.index && id !in s.deployments && FreshIds(env, Create(env, s, q, id, now), calls)
    ensures id in Play(env, Create(env, s, q, id, now), calls).deployments
    ensures var r := Play(env, Create(env, s, q, id, now), calls).deployments[id];
            && r.id == id && r.project == q.project && r.commit == q.commit
            && r.environment == env.lower(q.environment) && r.createdAt == now
            && r.history == [Entry("deployment.created", "platform-core", now, env.describe(q), None)]
                            + Logged(env, Create(env, s, q, id, now), calls, id)
            && r.updatedAt == r.history[|r.history| - 1].timestamp
  {
    var t := Create(env, s, q, id, now);
    hide Create, Logged, FreshIds, Play;
    assert t.deployments[id] == Created(env, q, id, now) by { CreateFiles(env, s, q, id, now); }
    PlayGrows(env, t, calls, id);
  }

  lemma CreateFiles(env: Env, s: Store, q: CreateRequest, id: string, now: string)
    requires q.key !in s.index && id !in s.deployments
    ensures var t := Create(env, s, q, id, now);
            && id in t.deployments && t.deployments[id] == Created(env, q, id, now)
            && q.key in t.index && t.index[q.key] == id
            && (forall other :: other in s.deployments ==>
                  other in t.deployments && t.deployments[other] == s.deployments[other])
  {
  }

  /** An accepted event changes its own deployment and no other; a refused one is an error. */
  lemma EventTouches(s: Store, q: EventRequest, now: string)
    ensures ApplyEvent(s, q, now).Ok? <==> q.id in s.deployments && Next(s.deployments[q.id].phase, q.event).Some?
    ensures ApplyEvent(s, q, now) == Err(KeyError) <==> q.id !in s.deployments
    ensures ApplyEvent(s, q, now).Ok? ==>
              var t := ApplyEvent(s, q, now).value;
              && t.index == s.index && t.deployments.Keys == s.deployments.Keys
              && Some(t.deployments[q.id].phase) == Next(s.deployments[q.id].phase, q.event)
              && forall other :: other in s.deployments && other != q.id ==>
                   t.deployments[other] == s.deployments[other]
  {
  }
}
