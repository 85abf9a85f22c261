/** The asynchronous inference pipeline of services/model-service/src: the API enqueues a job, the
    request loop scores it onto the response or the dead-letter topic, the response loop stores the
    outcome. Topics are logs with a consumer offset that redelivery may move back. */
module InferencePipeline {
  import opened Wrappers

  // ---------- the predictor ----------

  datatype Features = Features(views: nat, clicks: nat, conversions: nat)

  datatype Prediction = Prediction(score: real, ctr: real, cvr: real, version: string)

  /** What calling the predictor gives: a result, or an exception with its text. */
  datatype Outcome = Scored(prediction: Prediction) | Raised(error: string)

  /** A loaded ONNX model maps the two rates to its first output row, or raises. */
  type OnnxModel = (real, real) -> Option<seq<real>>

  datatype Config = Config(version: string, model: Option<OnnxModel>)

  function Featurize(f: Features): (rates: (real, real)) {
    (if f.views != 0 then f.clicks as real / f.views as real else 0.0,
     if f.clicks != 0 then f.conversions as real / f.clicks as real else 0.0)
  }

  function FallbackPredict(ctr: real, cvr: real): (score: real)
    ensures 0.0 <= score <= 1.0
    ensures 0.0 <= 0.3 * ctr + 0.7 * cvr <= 1.0 ==> score == 0.3 * ctr + 0.7 * cvr
    ensures 0.3 * ctr + 0.7 * cvr < 0.0 ==> score == 0.0
    ensures 0.3 * ctr + 0.7 * cvr > 1.0 ==> score == 1.0
  {
    var score := 0.3 * ctr + 0.7 * cvr;
    var capped := if score <= 1.0 then score else 1.0;
    if capped >= 0.0 then capped else 0.0
  }

  function Predict(cfg: Config, f: Features): Outcome {
    var (ctr, cvr) := Featurize(f);
    match cfg.model
    case None => Scored(Prediction(FallbackPredict(ctr, cvr), ctr, cvr, cfg.version))
    case Some(run) =>
      match run(ctr, cvr)
      case None => Raised("inference failed")
      case Some(outputs) =>
        if outputs == [] then Raised("list index out of range")
        else Scored(Prediction(if |outputs| > 1 then outputs[1] else outputs[0], ctr, cvr, cfg.version))
  }

  /** On counts that make sense the fallback score is the plain weighted sum of the two rates: it is
      never clamped, and a job without clicks scores nothing. */
  lemma SensibleCounts(cfg: Config, f: Features)
    requires cfg.model.None? && f.conversions <= f.clicks <= f.views
    ensures Predict(cfg, f).Scored?
    ensures var p := Predict(cfg, f).prediction;
            && 0.0 <= p.ctr <= 1.0 && p.ctr * f.views as real == f.clicks as real
            && 0.0 <= p.cvr <= 1.0 && p.cvr * f.clicks as real == f.conversions as real
            && p.score == 0.3 * p.ctr + 0.7 * p.cvr
            && (f.clicks == 0 ==> p.score == 0.0)
            && p.version == cfg.version
  {
    RateInRange(f.clicks, f.views);
    RateInRange(f.conversions, f.clicks);
  }

  lemma RateInRange(part: nat, whole: nat)
    requires part <= whole
    ensures whole != 0 ==> 0.0 <= part as real / whole as real <= 1.0
    ensures whole != 0 ==> part as real / whole as real * whole as real == part as real
  {
  }

  /** What fraction of a count another is; nothing of nothing. */
  predicate IsRate(rate: real, part: nat, whole: nat) {
    if whole == 0 then rate == 0.0 else rate * whole as real == part as real
  }

  /** The rates are those of clicks to views and of conversions to clicks, and a loaded model is asked for
      exactly them; its second output is the score if there is one, else its first, else the call raises. */
  lemma LoadedModel(cfg: Config, f: Features, ctr: real, cvr: real)
    requires IsRate(ctr, f.clicks, f.views) && IsRate(cvr, f.conversions, f.clicks)
    ensures cfg.model.None? ==> Predict(cfg, f) == Scored(Prediction(FallbackPredict(ctr, cvr), ctr, cvr, cfg.version))
    ensures cfg.model.Some? ==>
              match cfg.model.value(ctr, cvr)
              case None => Predict(cfg, f).Raised?
              case Some(outputs) =>
                && (|outputs| == 0 ==> Predict(cfg, f).Raised?)
                && (|outputs| == 1 ==> Predict(cfg, f) == Scored(Prediction(outputs[0], ctr, cvr, cfg.version)))
                && (|outputs| >= 2 ==> Predict(cfg, f) == Scored(Prediction(outputs[1], ctr, cvr, cfg.version)))
  {
    RateUnique(ctr, f.clicks, f.views);
    RateUnique(cvr, f.conversions, f.clicks);
  }

  lemma RateUnique(rate: real, part: nat, whole: nat)
    requires IsRate(rate, part, whole)
    ensures rate == if whole != 0 then part as real / whole as real else 0.0
  {
  }

  // ---------- the protocol ----------

  /** A stored record; the fields `set_result` leaves empty are not repeated. */
  datatype Record = Queued(version: string) | Done(prediction: Prediction) | Failed(error: string) {
    predicate Final() { !Queued? }
  }

  /** A message on the request topic: a job with features that can be scored, which is all the API ever
      produces; an object that cannot be scored for want of a job id or of valid features, with the id it
      gives and the text of the exception; or bytes that do not decode to an object. */
  datatype Request =
    | Request(job: string, features: Features)
    | Malformed(name: Option<string>, error: string)
    | Garbage(error: string)

  datatype Response = Response(job: string, prediction: Prediction)

  datatype DeadLetter = DeadLetter(job: Option<string>, error: string)

  datatype State = State(
    store: map<string, Record>,
    submitting: map<string, Features>,  // API calls between `set_result` and `produce`
    accepted: map<string, Features>,    // jobs the API has answered for
    requests: seq<Request>, requestAt: nat,
    responses: seq<Response>, responseAt: nat,
    deadLetters: seq<DeadLetter>, deadLetterAt: nat,
    payloadJob: Option<string>)         // job id in the request loop's `payload` variable, which outlives an iteration

  datatype Action =
    | Submit(job: string, features: Features)
    | Produce(job: string)
    | Reject(job: string)
    | Foreign(message: Request)
    | HandleRequest
    | HandleResponse
    | HandleDeadLetter
    | RedeliverRequests(offset: nat)
    | RedeliverResponses(offset: nat)
    | RedeliverDeadLetters(offset: nat)

  /** What can happen next. A foreign message is anything on the request topic that the API did not
      produce; the id it gives, if any, is that of an accepted job. */
  predicate Enabled(s: State, a: Action) {
    match a
    case Submit(job, _) => job != "" && job !in s.submitting
    case Produce(job) => job in s.submitting
    case Reject(job) => job in s.submitting
    case Foreign(Request(job, _)) => job in s.accepted
    case Foreign(Malformed(name, _)) => name.Some? ==> name.value in s.accepted
    case Foreign(Garbage(_)) => true
    case HandleRequest => s.requestAt < |s.requests|
    case HandleResponse => s.responseAt < |s.responses|
    case HandleDeadLetter => s.deadLetterAt < |s.deadLetters|
    case RedeliverRequests(k) => k <= s.requestAt
    case RedeliverResponses(k) => k <= s.responseAt
    case RedeliverDeadLetters(k) => k <= s.deadLetterAt
  }

  /** One iteration of the request loop; a message that does not decode leaves `payload` as it was. */
  function Handle(cfg: Config, s: State, request: Request): State {
    match request
    case Garbage(error) => s.(deadLetters := s.deadLetters + [DeadLetter(s.payloadJob, error)])
    case Malformed(name, error) =>
      s.(payloadJob := name, deadLetters := s.deadLetters + [DeadLetter(name, error)])
    case Request(job, features) =>
      var t := s.(payloadJob := Some(job));
      match Predict(cfg, features)
      case Scored(p) => t.(responses := t.responses + [Response(job, p)])
      case Raised(error) => t.(deadLetters := t.deadLetters + [DeadLetter(Some(job), error)])
  }

  function Step(cfg: Config, s: State, a: Action): State
    requires Enabled(s, a)
  {
    match a
    case Submit(job, features) =>
      s.(store := s.store[job := Queued(cfg.version)], submitting := s.submitting[job := features])
    case Produce(job) =>
      s.(requests := s.requests + [Request(job, s.submitting[job])],
         accepted := s.accepted[job := s.submitting[job]],
         submitting := s.submitting - {job})
    case Reject(job) => s.(submitting := s.submitting - {job})
    case Foreign(message) => s.(requests := s.requests + [message])
    case HandleRequest => Handle(cfg, s.(requestAt := s.requestAt + 1), s.requests[s.requestAt])
    case HandleResponse =>
      var message := s.responses[s.responseAt];
      s.(responseAt := s.responseAt + 1, store := s.store[message.job := Done(message.prediction)])
    case HandleDeadLetter =>
      var message := s.deadLetters[s.deadLetterAt];
      var t := s.(deadLetterAt := s.deadLetterAt + 1);
      if message.job.None? then t else t.(store := t.store[message.job.value := Failed(message.error)])
    case RedeliverRequests(k) => s.(requestAt := k)
    case RedeliverResponses(k) => s.(responseAt := k)
    case RedeliverDeadLetters(k) => s.(deadLetterAt := k)
  }

  const START := State(map[], map[], map[], [], 0, [], 0, [], 0, None)

  /** The one assumption on clients: a job id is new when the API has never stored anything under it. */
  predicate NewIds(s: State, a: Action) {
    a.Submit? ==> a.job !in s.store
  }

  /** An interleaving of the API, the two loops, redeliveries and foreign messages on the request topic. */
  ghost predicate IsRun(cfg: Config, s: State, actions: seq<Action>)
    decreases actions
  {
    actions == [] ||
    (Enabled(s, actions[0]) && NewIds(s, actions[0]) && IsRun(cfg, Step(cfg, s, actions[0]), actions[1..]))
  }

  ghost function After(cfg: Config, s: State, actions: seq<Action>): State
    requires IsRun(cfg, s, actions)
    decreases actions
  {
    if actions == [] then s else After(cfg, Step(cfg, s, actions[0]), actions[1..])
  }

  // ---------- the invariant of every run ----------

  function Expected(cfg: Config, features: Features): Record {
    match Predict(cfg, features)
    case Scored(p) => Done(p)
    case Raised(error) => Failed(error)
  }

  ghost predicate InFlight(s: State, job: string) {
    || (job in s.accepted &&
          exists i :: s.requestAt <= i < |s.requests| && s.requests[i] == Request(job, s.accepted[job]))
    || (exists i :: s.responseAt <= i < |s.responses| && s.responses[i].job == job)
    || (exists i :: s.deadLetterAt <= i < |s.deadLetters| && s.deadLetters[i].job == Some(job))
  }

  /** The job can still be completed from a topic, by its own request or an outcome of it, or an outcome is
      stored. */
  ghost predicate Recoverable(s: State, job: string) {
    InFlight(s, job) || (job in s.store && s.store[job].Final())
  }

  ghost predicate JobsOk(s: State) {
    && (forall job :: job in s.submitting ==> job in s.store && s.store[job].Queued? && job !in s.accepted)
    && (forall job :: job in s.accepted ==> job in s.store)
    && (forall job :: job in s.store && s.store[job].Final() ==> job in s.accepted)
  }

  /** Messages and the leftover payload name accepted jobs, if any. */
  ghost predicate TopicsOk(s: State) {
    && s.requestAt <= |s.requests| && s.responseAt <= |s.responses| && s.deadLetterAt <= |s.deadLetters|
    && (forall i :: 0 <= i < |s.requests| && s.requests[i].Request? ==> s.requests[i].job in s.accepted)
    && (forall i :: 0 <= i < |s.requests| && s.requests[i].Malformed? && s.requests[i].name.Some? ==>
          s.requests[i].name.value in s.accepted)
    && (forall i :: 0 <= i < |s.responses| ==> s.responses[i].job in s.accepted)
    && (forall i :: 0 <= i < |s.deadLetters| && s.deadLetters[i].job.Some? ==>
          s.deadLetters[i].job.value in s.accepted)
    && (s.payloadJob.Some? ==> s.payloadJob.value in s.accepted)
  }

  ghost predicate Inv(cfg: Config, s: State) {
    JobsOk(s) && TopicsOk(s) && forall job :: job in s.accepted ==> Recoverable(s, job)
  }

  lemma StepJobs(cfg: Config, s: State, a: Action)
    requires JobsOk(s) && TopicsOk(s) && Enabled(s, a) && NewIds(s, a)
    ensures JobsOk(Step(cfg, s, a))
  {
    hide Predict;
  }

  lemma StepTopics(cfg: Config, s: State, a: Action)
    requires JobsOk(s) && TopicsOk(s) && Enabled(s, a) && NewIds(s, a)
    ensures TopicsOk(Step(cfg, s, a))
  {
    hide Predict;
  }

  /** Accepted jobs and their features stay, and no topic forgets a message. */
  lemma StepGrows(cfg: Config, s: State, a: Action)
    requires JobsOk(s) && Enabled(s, a)
    ensures forall job :: job in s.accepted ==>
              job in Step(cfg, s, a).accepted && Step(cfg, s, a).accepted[job] == s.accepted[job]
    ensures s.responses <= Step(cfg, s, a).responses && s.deadLetters <= Step(cfg, s, a).deadLetters
  {
    hide Predict;
  }

  lemma StepRecoverable(cfg: Config, s: State, a: Action, job: string)
    requires Inv(cfg, s) && Enabled(s, a) && NewIds(s, a) && job in Step(cfg, s, a).accepted
    ensures Recoverable(Step(cfg, s, a), job)
  {
    hide Predict, Expected;
    var t := Step(cfg, s, a);
    if a.Produce? && a.job == job {
      assert t.requests[|s.requests|] == Request(job, t.accepted[job]);
    } else {
      assert Recoverable(s, job);
      StillRecoverable(cfg, s, a, job);
    }
  }

  lemma StillRecoverable(cfg: Config, s: State, a: Action, job: string)
    requires JobsOk(s) && Enabled(s, a) && NewIds(s, a) && Recoverable(s, job)
    requires s.requestAt <= |s.requests| && s.responseAt <= |s.responses| && s.deadLetterAt <= |s.deadLetters|
    ensures Recoverable(Step(cfg, s, a), job)
  {
    hide Step;
    if job in s.accepted &&
       exists i :: s.requestAt <= i < |s.requests| && s.requests[i] == Request(job, s.accepted[job])
    {
      var i :| s.requestAt <= i < |s.requests| && s.requests[i] == Request(job, s.accepted[job]);
      RequestStays(cfg, s, a, job, i);
    } else if i :| s.responseAt <= i < |s.responses| && s.responses[i].job == job {
      ResponseStays(cfg, s, a, i);
    } else if i :| s.deadLetterAt <= i < |s.deadLetters| && s.deadLetters[i].job == Some(job) {
      LetterStays(cfg, s, a, i);
    } else {
      FinalStays(cfg, s, a, job);
    }
  }

  lemma RequestStays(cfg: Config, s: State, a: Action, job: string, i: nat)
    requires JobsOk(s) && Enabled(s, a) && s.requestAt <= i < |s.requests|
    requires job in s.accepted && s.requests[i] == Request(job, s.accepted[job])
    requires s.responseAt <= |s.responses| && s.deadLetterAt <= |s.deadLetters|
    ensures Recoverable(Step(cfg, s, a), job)
  {
    hide Predict;
    var t := Step(cfg, s, a);
    StepGrows(cfg, s, a);
    if a.HandleRequest? && i == s.requestAt {
      assert (|t.responses| > |s.responses| && t.responses[|s.responses|].job == job)
          || (|t.deadLetters| > |s.deadLetters| && t.deadLetters[|s.deadLetters|].job == Some(job));
    } else {
      assert t.requests[i] == s.requests[i];
    }
  }

  lemma ResponseStays(cfg: Config, s: State, a: Action, i: nat)
    requires Enabled(s, a) && s.responseAt <= i < |s.responses|
    ensures Recoverable(Step(cfg, s, a), s.responses[i].job)
  {
    hide Predict;
    var t := Step(cfg, s, a);
    if !(a.HandleResponse? && i == s.responseAt) { assert t.responses[i] == s.responses[i]; }
  }

  lemma LetterStays(cfg: Config, s: State, a: Action, i: nat)
    requires Enabled(s, a) && s.deadLetterAt <= i < |s.deadLetters| && s.deadLetters[i].job.Some?
    ensures Recoverable(Step(cfg, s, a), s.deadLetters[i].job.value)
  {
    hide Predict;
    var t := Step(cfg, s, a);
    if !(a.HandleDeadLetter? && i == s.deadLetterAt) { assert t.deadLetters[i] == s.deadLetters[i]; }
  }

  lemma FinalStays(cfg: Config, s: State, a: Action, job: string)
    requires Enabled(s, a) && NewIds(s, a) && job in s.store && s.store[job].Final()
    ensures Recoverable(Step(cfg, s, a), job)
  {
    hide Predict, InFlight;
  }

  lemma StepInv(cfg: Config, s: State, a: Action)
    requires Inv(cfg, s) && Enabled(s, a) && NewIds(s, a)
    ensures Inv(cfg, Step(cfg, s, a))
  {
    hide Step, Recoverable, JobsOk, TopicsOk;
    StepJobs(cfg, s, a);
    StepTopics(cfg, s, a);
    forall job | job in Step(cfg, s, a).accepted ensures Recoverable(Step(cfg, s, a), job) {
      StepRecoverable(cfg, s, a, job);
    }
  }

  lemma {:induction false} RunInv(cfg: Config, s: State, actions: seq<Action>)
    requires Inv(cfg, s) && IsRun(cfg, s, actions)
    ensures Inv(cfg, After(cfg, s, actions))
    decreases actions
  {
    hide Step, Inv, Enabled, NewIds;
    if actions != [] {
      StepInv(cfg, s, actions[0]);
      RunInv(cfg, Step(cfg, s, actions[0]), actions[1..]);
    }
  }

  lemma Reached(cfg: Config, actions: seq<Action>)
    requires IsRun(cfg, START, actions)
    ensures Inv(cfg, After(cfg, START, actions))
  {
    RunInv(cfg, START, actions);
  }

  // ---------- when what is reported is true ----------

  /** An outcome reported for a job is not that job's own. */
  predicate Misreports(cfg: Config, s: State, job: Option<string>, record: Record) {
    job.Some? && job.value in s.accepted && Expected(cfg, s.accepted[job.value]) != record
  }

  predicate ResponseLies(cfg: Config, s: State, message: Response) {
    Misreports(cfg, s, Some(message.job), Done(message.prediction))
  }

  predicate LetterLies(cfg: Config, s: State, letter: DeadLetter) {
    Misreports(cfg, s, letter.job, Failed(letter.error))
  }

  /** No response and no dead letter ever published lies. */
  ghost predicate OutcomesOk(cfg: Config, s: State) {
    && (forall i :: 0 <= i < |s.responses| ==> !ResponseLies(cfg, s, s.responses[i]))
    && (forall i :: 0 <= i < |s.deadLetters| ==> !LetterLies(cfg, s, s.deadLetters[i]))
  }

  /** Every stored outcome is the predictor's for that job's own features. */
  ghost predicate StoreOk(cfg: Config, s: State) {
    forall job :: job in s.store && s.store[job].Final() && job in s.accepted ==>
      s.store[job] == Expected(cfg, s.accepted[job])
  }

  /** The job that handling a request reports on: for bytes that do not decode, whichever job `payload`
      still holds. */
  function ReportsOn(s: State, request: Request): Option<string> {
    match request
    case Request(job, _) => Some(job)
    case Malformed(name, _) => name
    case Garbage(_) => s.payloadJob
  }

  function Report(cfg: Config, request: Request): Record {
    match request
    case Request(_, features) => Expected(cfg, features)
    case Malformed(_, error) => Failed(error)
    case Garbage(error) => Failed(error)
  }

  /** The step handles a request and reports something else than the outcome of the job it reports on. */
  predicate Misattributes(cfg: Config, s: State, a: Action)
    requires Enabled(s, a)
  {
    a.HandleRequest? &&
    Misreports(cfg, s, ReportsOn(s, s.requests[s.requestAt]), Report(cfg, s.requests[s.requestAt]))
  }

  /** Some step of the run does. */
  ghost predicate Misattributed(cfg: Config, s: State, actions: seq<Action>)
    requires IsRun(cfg, s, actions)
    decreases actions
  {
    actions != [] &&
    (Misattributes(cfg, s, actions[0]) || Misattributed(cfg, Step(cfg, s, actions[0]), actions[1..]))
  }

  /** The API's own requests, which carry the features of their job, never misattribute. */
  lemma OwnRequests(cfg: Config, s: State, a: Action)
    requires Enabled(s, a) && Misattributes(cfg, s, a)
    ensures var request := s.requests[s.requestAt];
            request.Request? ==> request.job in s.accepted && request.features != s.accepted[request.job]
  {
    hide Predict;
  }

  /** One step makes an outcome on the topics lie if and only if it misattributes. */
  lemma StalePayload(cfg: Config, s: State, a: Action)
    requires Inv(cfg, s) && Enabled(s, a) && NewIds(s, a)
    ensures OutcomesOk(cfg, Step(cfg, s, a)) <==> OutcomesOk(cfg, s) && !Misattributes(cfg, s, a)
  {
    var t := Step(cfg, s, a);
    StepGrows(cfg, s, a);
    if a.HandleRequest? {
      NewOutcome(cfg, s);
    } else {
      assert t.responses == s.responses && t.deadLetters == s.deadLetters by { SameOutcomes(cfg, s, a); }
    }
    hide Step, Expected, Misattributes, Inv;
    forall i | 0 <= i < |s.responses|
      ensures ResponseLies(cfg, t, t.responses[i]) <==> ResponseLies(cfg, s, s.responses[i])
    {
      OldOutcome(cfg, s, t, Some(s.responses[i].job), Done(s.responses[i].prediction));
    }
    forall i | 0 <= i < |s.deadLetters|
      ensures LetterLies(cfg, t, t.deadLetters[i]) <==> LetterLies(cfg, s, s.deadLetters[i])
    {
      OldOutcome(cfg, s, t, s.deadLetters[i].job, Failed(s.deadLetters[i].error));
    }
  }

  lemma SameOutcomes(cfg: Config, s: State, a: Action)
    requires Enabled(s, a) && !a.HandleRequest?
    ensures Step(cfg, s, a).responses == s.responses && Step(cfg, s, a).deadLetters == s.deadLetters
  {
  }

  /** What was published keeps its truth. */
  lemma OldOutcome(cfg: Config, s: State, t: State, job: Option<string>, record: Record)
    requires job.Some? ==> job.value in s.accepted
    requires forall j :: j in s.accepted ==> j in t.accepted && t.accepted[j] == s.accepted[j]
    ensures Misreports(cfg, t, job, record) <==> Misreports(cfg, s, job, record)
  {
    hide Expected;
  }

  /** Handling a request publishes one outcome, which lies exactly if the step misattributes. */
  lemma NewOutcome(cfg: Config, s: State)
    requires s.requestAt < |s.requests|
    ensures var t := Step(cfg, s, HandleRequest);
            || (&& |t.responses| == |s.responses| + 1 && s.responses <= t.responses && t.deadLetters == s.deadLetters
                && (ResponseLies(cfg, t, t.responses[|s.responses|]) <==> Misattributes(cfg, s, HandleRequest)))
            || (&& |t.deadLetters| == |s.deadLetters| + 1 && s.deadLetters <= t.deadLetters
                && t.responses == s.responses
                && (LetterLies(cfg, t, t.deadLetters[|s.deadLetters|]) <==> Misattributes(cfg, s, HandleRequest)))
  {
    hide Predict;
  }

  /** Over any run with new job ids and foreign messages anywhere: the outcomes on the topics are truthful
      in the end if and only if they were at the start and no step misattributed. */
  lemma {:induction false} OutcomesExactly(cfg: Config, s: State, actions: seq<Action>)
    requires Inv(cfg, s) && IsRun(cfg, s, actions)
    ensures OutcomesOk(cfg, After(cfg, s, actions)) <==> OutcomesOk(cfg, s) && !Misattributed(cfg, s, actions)
    decreases actions
  {
    hide Step, Inv, Enabled, NewIds, OutcomesOk, Misattributes;
    if actions != [] {
      StepInv(cfg, s, actions[0]);
      StalePayload(cfg, s, actions[0]);
      OutcomesExactly(cfg, Step(cfg, s, actions[0]), actions[1..]);
    }
  }

  lemma StepStore(cfg: Config, s: State, a: Action)
    requires Inv(cfg, s) && OutcomesOk(cfg, s) && StoreOk(cfg, s) && Enabled(s, a) && NewIds(s, a)
    ensures StoreOk(cfg, Step(cfg, s, a))
  {
    hide Predict, Recoverable;
  }

  lemma {:induction false} StoreStaysTrue(cfg: Config, s: State, actions: seq<Action>)
    requires Inv(cfg, s) && OutcomesOk(cfg, s) && StoreOk(cfg, s)
    requires IsRun(cfg, s, actions) && !Misattributed(cfg, s, actions)
    ensures StoreOk(cfg, After(cfg, s, actions)) && OutcomesOk(cfg, After(cfg, s, actions))
    decreases actions
  {
    hide Step, Inv, Enabled, NewIds, OutcomesOk, StoreOk, Misattributes;
    if actions != [] {
      StepInv(cfg, s, actions[0]);
      StalePayload(cfg, s, actions[0]);
      StepStore(cfg, s, actions[0]);
      StoreStaysTrue(cfg, Step(cfg, s, actions[0]), actions[1..]);
    }
  }

  // ---------- the promises, for every run with new job ids ----------

  /** An accepted job is never lost, whatever arrives on the request topic; and its final record is the
      predictor's answer for its own features as long as no step misattributed. */
  lemma AcceptedJobs(cfg: Config, actions: seq<Action>, job: string)
    requires IsRun(cfg, START, actions) && job in After(cfg, START, actions).accepted
    ensures var t := After(cfg, START, actions);
            && job in t.store && Recoverable(t, job)
            && (!Misattributed(cfg, START, actions) ==>
                  t.store[job].Queued? || t.store[job] == Expected(cfg, t.accepted[job]))
  {
    hide Predict;
    Reached(cfg, actions);
    StartInv(cfg);
    if !Misattributed(cfg, START, actions) { StoreStaysTrue(cfg, START, actions); }
  }

  predicate Drained(s: State) {
    s.requestAt == |s.requests| && s.responseAt == |s.responses| && s.deadLetterAt == |s.deadLetters|
  }

  /** Once the consumers have caught up, every accepted job has its outcome stored. */
  lemma DrainedIsComplete(cfg: Config, actions: seq<Action>, job: string)
    requires IsRun(cfg, START, actions) && Drained(After(cfg, START, actions))
    requires job in After(cfg, START, actions).accepted
    ensures var t := After(cfg, START, actions);
            && job in t.store && t.store[job].Final()
            && (!Misattributed(cfg, START, actions) ==> t.store[job] == Expected(cfg, t.accepted[job]))
  {
    hide Predict, Expected;
    AcceptedJobs(cfg, actions, job);
  }

  function Backlog(s: State): int {
    2 * (|s.requests| - s.requestAt) + |s.responses| - s.responseAt + |s.deadLetters| - s.deadLetterAt
  }

  /** The consumers can always catch up: these steps are enabled in turn and drain every topic. */
  ghost function CatchUp(cfg: Config, s: State): (actions: seq<Action>)
    requires JobsOk(s) && TopicsOk(s)
    ensures IsRun(cfg, s, actions) && Drained(After(cfg, s, actions))
    ensures After(cfg, s, actions).accepted == s.accepted
    decreases Backlog(s)
  {
    if Drained(s) then []
    else
      var a := if s.requestAt < |s.requests| then HandleRequest
               else if s.responseAt < |s.responses| then HandleResponse else HandleDeadLetter;
      CatchUpStep(cfg, s, a);
      [a] + CatchUp(cfg, Step(cfg, s, a))
  }

  lemma CatchUpStep(cfg: Config, s: State, a: Action)
    requires JobsOk(s) && TopicsOk(s) && Enabled(s, a)
    requires a.HandleRequest? || a.HandleResponse? || a.HandleDeadLetter?
    ensures NewIds(s, a) && JobsOk(Step(cfg, s, a)) && TopicsOk(Step(cfg, s, a))
    ensures Step(cfg, s, a).accepted == s.accepted && 0 <= Backlog(Step(cfg, s, a)) < Backlog(s)
  {
    hide Predict, Expected;
    StepJobs(cfg, s, a);
    StepTopics(cfg, s, a);
  }

  // ---------- when a stored outcome changes ----------

  /** The step consumes an outcome reported for the job that is not its own. */
  predicate ConsumesLie(cfg: Config, s: State, a: Action, job: string)
    requires Enabled(s, a)
  {
    || (a.HandleResponse? && s.responses[s.responseAt].job == job && ResponseLies(cfg, s, s.responses[s.responseAt]))
    || (&& a.HandleDeadLetter? && s.deadLetters[s.deadLetterAt].job == Some(job)
        && LetterLies(cfg, s, s.deadLetters[s.deadLetterAt]))
  }

  /** A correct final record changes if and only if its job id is submitted again or a lying outcome that
      names it is consumed, in every state that a run can reach. */
  lemma OutcomeStable(cfg: Config, s: State, a: Action, job: string)
    requires Inv(cfg, s) && Enabled(s, a)
    requires job in s.accepted && job in s.store && s.store[job] == Expected(cfg, s.accepted[job])
    ensures job in Step(cfg, s, a).store
    ensures Step(cfg, s, a).store[job] == s.store[job] <==>
            !(a.Submit? && a.job == job) && !ConsumesLie(cfg, s, a, job)
  {
    hide Predict, Recoverable;
  }

  /** The steps that read published outcomes again. */
  ghost predicate OnlyOutcomes(actions: seq<Action>) {
    forall i :: 0 <= i < |actions| ==>
      || actions[i].HandleDeadLetter? || actions[i].RedeliverDeadLetters?
      || actions[i].HandleResponse? || actions[i].RedeliverResponses?
  }

  /** Reading the published outcomes, possibly again, can leave a wrong one in the store. */
  ghost predicate CanSpoil(cfg: Config, s: State) {
    exists more :: IsRun(cfg, s, more) && OnlyOutcomes(more) && !StoreOk(cfg, After(cfg, s, more))
  }

  lemma {:induction false} ReadingIsHarmless(cfg: Config, s: State, more: seq<Action>)
    requires IsRun(cfg, s, more) && OnlyOutcomes(more)
    ensures !Misattributed(cfg, s, more)
    decreases more
  {
    hide Step;
    if more != [] { ReadingIsHarmless(cfg, Step(cfg, s, more[0]), more[1..]); }
  }

  /** Steps that go back or forward to the i-th dead letter and read it. */
  ghost function ReadLetter(cfg: Config, s: State, i: nat): (more: seq<Action>)
    requires s.deadLetterAt <= |s.deadLetters| && i < |s.deadLetters|
    ensures IsRun(cfg, s, more) && OnlyOutcomes(more)
    ensures var t := After(cfg, s, more);
            && t.accepted == s.accepted
            && (s.deadLetters[i].job.Some? ==>
                  && s.deadLetters[i].job.value in t.store
                  && t.store[s.deadLetters[i].job.value] == Failed(s.deadLetters[i].error))
    decreases if i < s.deadLetterAt then 1 else 0, i - s.deadLetterAt
  {
    if i == s.deadLetterAt then
      assert IsRun(cfg, Step(cfg, s, HandleDeadLetter), [HandleDeadLetter][1..]);
      [HandleDeadLetter]
    else
      var a := if i < s.deadLetterAt then RedeliverDeadLetters(i) else HandleDeadLetter;
      var t := Step(cfg, s, a);
      assert t.deadLetters == s.deadLetters && t.accepted == s.accepted;
      var rest := ReadLetter(cfg, t, i);
      assert ([a] + rest)[1..] == rest;
      [a] + rest
  }

  /** Steps that go back or forward to the i-th response and read it. */
  ghost function ReadResponse(cfg: Config, s: State, i: nat): (more: seq<Action>)
    requires s.responseAt <= |s.responses| && i < |s.responses|
    ensures IsRun(cfg, s, more) && OnlyOutcomes(more)
    ensures var t := After(cfg, s, more);
            && t.accepted == s.accepted && s.responses[i].job in t.store
            && t.store[s.responses[i].job] == Done(s.responses[i].prediction)
    decreases if i < s.responseAt then 1 else 0, i - s.responseAt
  {
    if i == s.responseAt then
      assert IsRun(cfg, Step(cfg, s, HandleResponse), [HandleResponse][1..]);
      [HandleResponse]
    else
      var a := if i < s.responseAt then RedeliverResponses(i) else HandleResponse;
      var t := Step(cfg, s, a);
      assert t.responses == s.responses && t.accepted == s.accepted;
      var rest := ReadResponse(cfg, t, i);
      assert ([a] + rest)[1..] == rest;
      [a] + rest
  }

  /** Over every run from the empty system: the store can be spoilt by reading the outcomes if and only
      if some step reported for a job something else than its outcome. */
  lemma SpoiltExactly(cfg: Config, actions: seq<Action>)
    requires IsRun(cfg, START, actions)
    ensures CanSpoil(cfg, After(cfg, START, actions)) <==> Misattributed(cfg, START, actions)
  {
    hide Step, Inv, Enabled, NewIds, Misattributed, Expected, Predict;
    var t := After(cfg, START, actions);
    Reached(cfg, actions);
    StartInv(cfg);
    OutcomesExactly(cfg, START, actions);
    if !Misattributed(cfg, START, actions) {
      StoreStaysTrue(cfg, START, actions);
      forall more | IsRun(cfg, t, more) && OnlyOutcomes(more) ensures StoreOk(cfg, After(cfg, t, more)) {
        ReadingIsHarmless(cfg, t, more);
        StoreStaysTrue(cfg, t, more);
      }
    } else {
      OffsetsOk(cfg, t);
      if i :| 0 <= i < |t.deadLetters| && LetterLies(cfg, t, t.deadLetters[i]) {
        var more := ReadLetter(cfg, t, i);
        assert !StoreOk(cfg, After(cfg, t, more));
      } else {
        var i :| 0 <= i < |t.responses| && ResponseLies(cfg, t, t.responses[i]);
        var more := ReadResponse(cfg, t, i);
        assert !StoreOk(cfg, After(cfg, t, more));
      }
    }
  }

  lemma StartInv(cfg: Config)
    ensures Inv(cfg, START) && OutcomesOk(cfg, START) && StoreOk(cfg, START)
  {
  }

  lemma OffsetsOk(cfg: Config, s: State)
    requires Inv(cfg, s)
    ensures s.responseAt <= |s.responses| && s.deadLetterAt <= |s.deadLetters|
  {
  }

  // ---------- concrete runs ----------

  lemma OneStep(cfg: Config, s: State, a: Action, rest: seq<Action>, actions: seq<Action>)
    requires Enabled(s, a) && NewIds(s, a) && IsRun(cfg, Step(cfg, s, a), rest) && actions == [a] + rest
    ensures IsRun(cfg, s, actions) && After(cfg, s, actions) == After(cfg, Step(cfg, s, a), rest)
  {
    hide Step;
    assert actions[1..] == rest;
  }

  /** The system once a single job has been accepted. */
  function Waiting(cfg: Config, job: string, f: Features): State {
    State(map[job := Queued(cfg.version)], map[], map[job := f], [Request(job, f)], 0, [], 0, [], 0, None)
  }

  /** The system once that job has been scored and stored. */
  function Finished(job: string, f: Features, p: Prediction): State {
    State(map[job := Done(p)], map[], map[job := f], [Request(job, f)], 1, [Response(job, p)], 1, [], 0, Some(job))
  }

  lemma AcceptedFirst(cfg: Config, job: string, f: Features, rest: seq<Action>)
    requires job != "" && IsRun(cfg, Waiting(cfg, job, f), rest)
    ensures var run := [Submit(job, f)] + ([Produce(job)] + rest);
            IsRun(cfg, START, run) && After(cfg, START, run) == After(cfg, Waiting(cfg, job, f), rest)
    ensures JobsOk(Waiting(cfg, job, f)) && TopicsOk(Waiting(cfg, job, f))
  {
    hide After, IsRun;
    var s1 := Step(cfg, START, Submit(job, f));
    assert NewIds(START, Submit(job, f)) && Enabled(s1, Produce(job));
    assert Step(cfg, s1, Produce(job)) == Waiting(cfg, job, f);
    hide Step;
    OneStep(cfg, s1, Produce(job), rest, [Produce(job)] + rest);
    OneStep(cfg, START, Submit(job, f), [Produce(job)] + rest, [Submit(job, f)] + ([Produce(job)] + rest));
  }

  lemma ScoredAndStored(cfg: Config, job: string, f: Features, rest: seq<Action>)
    requires job != "" && Predict(cfg, f).Scored? && IsRun(cfg, Finished(job, f, Predict(cfg, f).prediction), rest)
    ensures var run := [Submit(job, f)] + ([Produce(job)] + ([HandleRequest] + ([HandleResponse] + rest)));
            && IsRun(cfg, START, run)
            && After(cfg, START, run) == After(cfg, Finished(job, f, Predict(cfg, f).prediction), rest)
  {
    hide Predict, After, IsRun;
    var s2 := Waiting(cfg, job, f);
    var s3 := Step(cfg, s2, HandleRequest);
    assert s3.responses == [Response(job, Predict(cfg, f).prediction)] && Enabled(s3, HandleResponse);
    assert Step(cfg, s3, HandleResponse) == Finished(job, f, Predict(cfg, f).prediction);
    hide Step;
    OneStep(cfg, s3, HandleResponse, rest, [HandleResponse] + rest);
    OneStep(cfg, s2, HandleRequest, [HandleResponse] + rest, [HandleRequest] + ([HandleResponse] + rest));
    AcceptedFirst(cfg, job, f, [HandleRequest] + ([HandleResponse] + rest));
  }

  /** A message that reports on the finished job: bytes that do not decode, as `payload` still holds it, a
      malformed object with its id, or a request with its id and whatever features. */
  predicate Concerns(message: Request, job: string) {
    match message
    case Request(id, _) => id == job
    case Malformed(id, _) => id == Some(job)
    case Garbage(_) => true
  }

  /** The steps by which such a message arrives, is handled, and its report is stored. */
  function Overwriting(cfg: Config, message: Request): seq<Action> {
    [Foreign(message), HandleRequest, if Report(cfg, message).Done? then HandleResponse else HandleDeadLetter]
  }

  lemma Overwritten(cfg: Config, job: string, f: Features, p: Prediction, message: Request)
    requires Concerns(message, job)
    ensures var run := Overwriting(cfg, message);
            && IsRun(cfg, Finished(job, f, p), run)
            && After(cfg, Finished(job, f, p), run).store == map[job := Report(cfg, message)]
  {
    hide Predict, After, IsRun;
    var s4, last := Finished(job, f, p), Overwriting(cfg, message)[2];
    var s5 := Step(cfg, s4, Foreign(message));
    assert s5.requests[1] == message;
    var s6 := Step(cfg, s5, HandleRequest);
    assert Enabled(s6, last) && Step(cfg, s6, last).store == map[job := Report(cfg, message)];
    NoStep(cfg, Step(cfg, s6, last));
    hide Step;
    OneStep(cfg, s6, last, [], [last]);
    OneStep(cfg, s5, HandleRequest, [last], [HandleRequest, last]);
    OneStep(cfg, s4, Foreign(message), [HandleRequest, last], [Foreign(message), HandleRequest, last]);
  }

  /** A job is accepted, scored and stored; then a foreign message that concerns it arrives, and the
      finished job turns into whatever that message reports, although nobody submitted its id again. */
  lemma ForeignOverwrites(cfg: Config, job: string, f: Features, message: Request)
    requires job != "" && Predict(cfg, f).Scored? && Concerns(message, job)
    ensures var run := [Submit(job, f), Produce(job), HandleRequest, HandleResponse];
            && IsRun(cfg, START, run)
            && After(cfg, START, run).store == map[job := Done(Predict(cfg, f).prediction)]
    ensures var run := [Submit(job, f), Produce(job), HandleRequest, HandleResponse] + Overwriting(cfg, message);
            && IsRun(cfg, START, run)
            && After(cfg, START, run).store == map[job := Report(cfg, message)]
  {
    hide Predict, After, IsRun;
    var p, first := Predict(cfg, f).prediction, [Submit(job, f), Produce(job), HandleRequest, HandleResponse];
    NoStep(cfg, Finished(job, f, p));
    ScoredAndStored(cfg, job, f, []);
    assert [Submit(job, f)] + ([Produce(job)] + ([HandleRequest] + ([HandleResponse] + []))) == first;
    Overwritten(cfg, job, f, p, message);
    var tail := Overwriting(cfg, message);
    ScoredAndStored(cfg, job, f, tail);
    assert [Submit(job, f)] + ([Produce(job)] + ([HandleRequest] + ([HandleResponse] + tail))) == first + tail;
  }

  lemma NoStep(cfg: Config, s: State)
    ensures IsRun(cfg, s, []) && After(cfg, s, []) == s
  {
  }

  /** After this run the job is finished, and submitting its id once more puts it back to queued. */
  ghost predicate Regresses(cfg: Config, actions: seq<Action>, job: string, f: Features) {
    && IsRun(cfg, START, actions)
    && var t := After(cfg, START, actions);
       && job in t.store && t.store[job].Final() && Enabled(t, Submit(job, f))
       && Step(cfg, t, Submit(job, f)).store[job] == Queued(cfg.version)
  }

  lemma Resubmitted(cfg: Config, t: State, job: string, f: Features)
    requires JobsOk(t) && job != "" && job in t.store && t.store[job].Final()
    ensures Enabled(t, Submit(job, f)) && Step(cfg, t, Submit(job, f)).store[job] == Queued(cfg.version)
  {
  }

  /** A client that repeats its Idempotency-Key after completion does see that. */
  lemma ResubmissionRegresses(cfg: Config, job: string, f: Features)
    requires job != ""
    ensures exists actions :: Regresses(cfg, actions, job, f)
  {
    hide Predict, Expected, Recoverable, JobsOk, TopicsOk, Step;
    NoStep(cfg, Waiting(cfg, job, f));
    AcceptedFirst(cfg, job, f, []);
    var rest := CatchUp(cfg, Waiting(cfg, job, f));
    var actions := [Submit(job, f)] + ([Produce(job)] + rest);
    AcceptedFirst(cfg, job, f, rest);
    hide IsRun, After, Enabled;
    DrainedIsComplete(cfg, actions, job);
    Reached(cfg, actions);
    Resubmitted(cfg, After(cfg, START, actions), job, f);
    assert Regresses(cfg, actions, job, f);
  }
}
