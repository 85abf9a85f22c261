/** The optimistic WATCH/MULTI/EXEC counter update of services/stream-consumer/src/main.py, run by any
    number of consumers against one Redis server under every interleaving of their steps. */
module StreamConsumer {

  datatype Kind = View | Click | Conversion

  datatype Event = Event(campaign: string, kind: Kind)

  datatype Counters = Counters(views: int, clicks: int, conv: int) {
    function Total(): int { views + clicks + conv }

    function Of(kind: Kind): int {
      match kind
      case View => views
      case Click => clicks
      case Conversion => conv
    }
  }

  /** Where a consumer is in `process`: polling, about to WATCH, watching, with its HSET queued after
      MULTI, or returned from the update with the snapshot still to be inserted in the database. */
  datatype Phase =
    | Idle
    | Started(event: Event)
    | Watching(event: Event)
    | Ready(event: Event, snapshot: Counters)
    | Returned(event: Event, snapshot: Counters, at: nat)

  /** `dirty` is the server's flag that a watched key was written; `since` is when WATCH was issued. */
  datatype Consumer = Consumer(phase: Phase, dirty: bool, since: nat) {
    predicate Watches() { phase.Watching? || phase.Ready? }
  }

  datatype Commit = Commit(consumer: nat, event: Event, snapshot: Counters)

  /** A row of campaign_metrics, with the position of the commit it reports. */
  datatype Row = Row(campaign: string, metrics: Counters, at: nat)

  datatype State = State(
    store: map<string, Counters>,
    consumers: seq<Consumer>,
    commits: seq<Commit>,
    rows: seq<Row>,
    retries: nat)

  datatype Action =
    | Poll(c: nat, event: Event)
    | Watch(c: nat)
    | Read(c: nat)
    | Exec(c: nat)
    | Persist(c: nat)
    | Fail(c: nat)

  function Lookup(store: map<string, Counters>, key: string): Counters {
    if key in store then store[key] else Counters(0, 0, 0)
  }

  function Bump(n: Counters, kind: Kind): Counters {
    match kind
    case View => n.(views := n.views + 1)
    case Click => n.(clicks := n.clicks + 1)
    case Conversion => n.(conv := n.conv + 1)
  }

  predicate Enabled(s: State, a: Action) {
    && a.c < |s.consumers|
    && var phase := s.consumers[a.c].phase;
       match a
       case Poll(_, _) => phase.Idle?
       case Watch(_) => phase.Started?
       case Read(_) => phase.Watching?
       case Exec(_) => phase.Ready?
       case Persist(_) => phase.Returned?
       case Fail(_) => !phase.Idle?
  }

  /** A write to `key` marks every other client that watches it. */
  function Touch(consumers: seq<Consumer>, key: string, writer: nat): (r: seq<Consumer>)
    ensures |r| == |consumers|
    ensures forall i :: 0 <= i < |r| ==>
              r[i] == if i != writer && consumers[i].Watches() && consumers[i].phase.event.campaign == key
                      then consumers[i].(dirty := true) else consumers[i]
  {
    seq(|consumers|, i requires 0 <= i < |consumers| =>
      if i != writer && consumers[i].Watches() && consumers[i].phase.event.campaign == key
      then consumers[i].(dirty := true) else consumers[i])
  }

  function Become(s: State, c: nat, me: Consumer): State
    requires c < |s.consumers|
  {
    s.(consumers := s.consumers[c := me])
  }

  function Step(s: State, a: Action): State
    requires Enabled(s, a)
  {
    var me := s.consumers[a.c];
    match a
    case Poll(c, event) => Become(s, c, Consumer(Started(event), false, 0))
    case Watch(c) => Become(s, c, Consumer(Watching(me.phase.event), false, |s.commits|))
    case Read(c) =>
      var event := me.phase.event;
      Become(s, c, me.(phase := Ready(event, Bump(Lookup(s.store, event.campaign), event.kind))))
    case Exec(c) =>
      var event, snapshot := me.phase.event, me.phase.snapshot;
      if me.dirty then Become(s, c, Consumer(Started(event), false, 0)).(retries := s.retries + 1)
      else s.(
        store := s.store[event.campaign := snapshot],
        consumers := Touch(s.consumers, event.campaign, c)
          [c := Consumer(Returned(event, snapshot, |s.commits|), false, 0)],
        commits := s.commits + [Commit(c, event, snapshot)])
    case Persist(c) =>
      Become(s, c, Consumer(Idle, false, 0)).(
        rows := s.rows + [Row(me.phase.event.campaign, me.phase.snapshot, me.phase.at)])
    case Fail(c) => Become(s, c, Consumer(Idle, false, 0))
  }

  /** A run: each action is enabled when its turn comes. */
  predicate IsRun(s: State, actions: seq<Action>)
    decreases actions
  {
    actions == [] || (Enabled(s, actions[0]) && IsRun(Step(s, actions[0]), actions[1..]))
  }

  function After(s: State, actions: seq<Action>): State
    requires IsRun(s, actions)
    decreases actions
  {
    if actions == [] then s else After(Step(s, actions[0]), actions[1..])
  }

  predicate Initial(s: State) {
    && s.commits == [] && s.rows == [] && s.retries == 0
    && forall c :: 0 <= c < |s.consumers| ==> s.consumers[c] == Consumer(Idle, false, 0)
  }

  // ---------- what the commits amount to ----------

  /** The counters of a key after replaying the commits on it one by one. */
  function Tally(start: Counters, commits: seq<Commit>, key: string): Counters {
    if commits == [] then start
    else
      var n, last := Tally(start, commits[..|commits| - 1], key), commits[|commits| - 1];
      if last.event.campaign == key then Bump(n, last.event.kind) else n
  }

  /** How many commits on a key carried an event of a kind. */
  function Occurrences(commits: seq<Commit>, key: string, kind: Kind): nat {
    if commits == [] then 0
    else
      Occurrences(commits[..|commits| - 1], key, kind)
      + if commits[|commits| - 1].event == Event(key, kind) then 1 else 0
  }

  function OnKey(commits: seq<Commit>, key: string): nat {
    Occurrences(commits, key, View) + Occurrences(commits, key, Click) + Occurrences(commits, key, Conversion)
  }

  lemma {:induction false} TallyCounts(start: Counters, commits: seq<Commit>, key: string, kind: Kind)
    ensures Tally(start, commits, key).Of(kind) == start.Of(kind) + Occurrences(commits, key, kind)
    ensures Tally(start, commits, key).Total() == start.Total() + OnKey(commits, key)
  {
    if commits != [] {
      TallyCounts(start, commits[..|commits| - 1], key, kind);
    }
  }

  lemma TallySnoc(start: Counters, commits: seq<Commit>, c: Commit, key: string)
    ensures Tally(start, commits + [c], key) ==
            if c.event.campaign == key then Bump(Tally(start, commits, key), c.event.kind)
            else Tally(start, commits, key)
  {
    assert (commits + [c])[..|commits|] == commits;
  }

  // ---------- the invariant ----------

  ghost predicate StoreIsTally(init: map<string, Counters>, s: State) {
    forall key :: Lookup(s.store, key) == Tally(Lookup(init, key), s.commits, key)
  }

  ghost predicate SnapshotsAreTallies(init: map<string, Counters>, s: State) {
    forall i :: 0 <= i < |s.commits| ==>
      s.commits[i].snapshot ==
        Tally(Lookup(init, s.commits[i].event.campaign), s.commits[..i+1], s.commits[i].event.campaign)
  }

  /** Some consumer other than `c` committed on the key after position `since`. */
  ghost predicate Overtaken(s: State, c: nat, key: string, since: nat) {
    exists i :: since <= i < |s.commits| && s.commits[i].event.campaign == key && s.commits[i].consumer != c
  }

  ghost predicate ConsumerOk(s: State, c: nat)
    requires c < |s.consumers|
  {
    var me := s.consumers[c];
    && (me.Watches() ==>
          && me.since <= |s.commits|
          && (me.dirty <==> Overtaken(s, c, me.phase.event.campaign, me.since)))
    && (!me.Watches() ==> !me.dirty)
    && (me.phase.Ready? && !me.dirty ==>
          me.phase.snapshot == Bump(Lookup(s.store, me.phase.event.campaign), me.phase.event.kind))
    && (me.phase.Returned? ==>
          && me.phase.at < |s.commits|
          && s.commits[me.phase.at] == Commit(c, me.phase.event, me.phase.snapshot)
          && forall r :: r in s.rows ==> r.at != me.phase.at)
  }

  ghost predicate RowsOk(s: State) {
    && (forall r :: r in s.rows ==>
          r.at < |s.commits| && s.commits[r.at].event.campaign == r.campaign && s.commits[r.at].snapshot == r.metrics)
    && (forall i, j :: 0 <= i < j < |s.rows| ==> s.rows[i].at != s.rows[j].at)
  }

  function Dirty(consumers: seq<Consumer>): (n: nat)
    ensures n <= |consumers|
  {
    if consumers == [] then 0 else (if consumers[0].dirty then 1 else 0) + Dirty(consumers[1..])
  }

  ghost predicate Inv(init: map<string, Counters>, s: State) {
    && StoreIsTally(init, s)
    && SnapshotsAreTallies(init, s)
    && (forall c :: 0 <= c < |s.consumers| ==> ConsumerOk(s, c))
    && RowsOk(s)
    && (s.consumers == [] ==> s.commits == [] && s.retries == 0)
    && (s.consumers != [] ==> s.retries + Dirty(s.consumers) <= (|s.consumers| - 1) * |s.commits|)
  }

  lemma {:induction false} DirtyUpdate(consumers: seq<Consumer>, c: nat, me: Consumer)
    requires c < |consumers|
    ensures Dirty(consumers[c := me]) ==
            Dirty(consumers) - (if consumers[c].dirty then 1 else 0) + (if me.dirty then 1 else 0)
  {
    if c == 0 {
      assert consumers[0 := me][1..] == consumers[1..];
    } else {
      assert consumers[c := me][1..] == consumers[1..][c - 1 := me];
      DirtyUpdate(consumers[1..], c - 1, me);
    }
  }

  lemma {:induction false} DirtySpared(consumers: seq<Consumer>, c: nat)
    requires c < |consumers| && !consumers[c].dirty
    ensures Dirty(consumers) <= |consumers| - 1
  {
    if c > 0 { DirtySpared(consumers[1..], c - 1); }
  }

  lemma {:induction false} DirtyNone(consumers: seq<Consumer>)
    requires forall c :: 0 <= c < |consumers| ==> !consumers[c].dirty
    ensures Dirty(consumers) == 0
  {
    if consumers != [] { DirtyNone(consumers[1..]); }
  }

  lemma InitInv(s: State)
    requires Initial(s)
    ensures Inv(s.store, s)
  {
    DirtyNone(s.consumers);
  }

  /** A step in which one consumer moves without writing to the server. */
  lemma QuietStep(init: map<string, Counters>, s: State, a: Action)
    requires Inv(init, s) && Enabled(s, a) && !a.Exec? && !a.Persist?
    ensures Inv(init, Step(s, a))
  {
    var t := Step(s, a);
    DirtyUpdate(s.consumers, a.c, t.consumers[a.c]);
    forall c | 0 <= c < |t.consumers| ensures ConsumerOk(t, c) {
      assert ConsumerOk(s, c);
    }
  }

  lemma PersistStep(init: map<string, Counters>, s: State, a: Action)
    requires Inv(init, s) && Enabled(s, a) && a.Persist?
    requires forall c, d :: 0 <= c < |s.consumers| && 0 <= d < |s.consumers| && c != d
               && s.consumers[c].phase.Returned? && s.consumers[d].phase.Returned?
               ==> s.consumers[c].phase.at != s.consumers[d].phase.at
    ensures Inv(init, Step(s, a))
  {
    var t := Step(s, a);
    PersistRows(s, a);
    DirtyUpdate(s.consumers, a.c, t.consumers[a.c]);
    hide RowsOk;
    forall c | 0 <= c < |t.consumers| ensures ConsumerOk(t, c) {
      assert ConsumerOk(s, c);
    }
  }

  lemma PersistRows(s: State, a: Action)
    requires Enabled(s, a) && a.Persist? && RowsOk(s) && ConsumerOk(s, a.c)
    requires forall c, d :: 0 <= c < |s.consumers| && 0 <= d < |s.consumers| && c != d
               && s.consumers[c].phase.Returned? && s.consumers[d].phase.Returned?
               ==> s.consumers[c].phase.at != s.consumers[d].phase.at
    ensures RowsOk(Step(s, a))
  {
  }

  lemma ReturnedApart(init: map<string, Counters>, s: State, c: nat, d: nat)
    requires Inv(init, s) && c < |s.consumers| && d < |s.consumers| && c != d
    requires s.consumers[c].phase.Returned? && s.consumers[d].phase.Returned?
    ensures s.consumers[c].phase.at != s.consumers[d].phase.at
  {
    assert ConsumerOk(s, c) && ConsumerOk(s, d);
  }

  /** EXEC on a touched key: nothing is written, and another consumer really did commit since WATCH. */
  lemma RetryStep(init: map<string, Counters>, s: State, a: Action)
    requires Inv(init, s) && Enabled(s, a) && a.Exec? && s.consumers[a.c].dirty
    ensures Inv(init, Step(s, a))
  {
    var t := Step(s, a);
    DirtyUpdate(s.consumers, a.c, t.consumers[a.c]);
    forall c | 0 <= c < |t.consumers| ensures ConsumerOk(t, c) {
      assert ConsumerOk(s, c);
    }
  }

  lemma CommitTallies(init: map<string, Counters>, s: State, c: nat)
    requires Inv(init, s) && Enabled(s, Exec(c)) && !s.consumers[c].dirty
    ensures StoreIsTally(init, Step(s, Exec(c))) && SnapshotsAreTallies(init, Step(s, Exec(c)))
  {
    var t := Step(s, Exec(c));
    assert ConsumerOk(s, c);
    var commit := t.commits[|s.commits|];
    forall key ensures Lookup(t.store, key) == Tally(Lookup(init, key), t.commits, key) {
      TallySnoc(Lookup(init, key), s.commits, commit, key);
    }
    forall i | 0 <= i < |t.commits|
      ensures t.commits[i].snapshot ==
        Tally(Lookup(init, t.commits[i].event.campaign), t.commits[..i+1], t.commits[i].event.campaign)
    {
      if i < |s.commits| {
        assert t.commits[..i+1] == s.commits[..i+1];
      } else {
        assert t.commits[..i+1] == t.commits;
        TallySnoc(Lookup(init, commit.event.campaign), s.commits, commit, commit.event.campaign);
      }
    }
  }

  lemma CommitConsumer(init: map<string, Counters>, s: State, c: nat, d: nat)
    requires Inv(init, s) && Enabled(s, Exec(c)) && !s.consumers[c].dirty && d < |s.consumers|
    ensures ConsumerOk(Step(s, Exec(c)), d)
  {
    var t := Step(s, Exec(c));
    assert ConsumerOk(s, d) && ConsumerOk(s, c);
    var n := |s.commits|;
    assert t.commits[..n] == s.commits;
    if d != c && s.consumers[d].Watches() {
      var key, since := s.consumers[d].phase.event.campaign, s.consumers[d].since;
      assert Overtaken(s, d, key, since) ==> Overtaken(t, d, key, since) by {
        if Overtaken(s, d, key, since) {
          var i :| since <= i < n && s.commits[i].event.campaign == key && s.commits[i].consumer != d;
          assert t.commits[i] == s.commits[i];
        }
      }
      assert t.commits[n].consumer == c;
      if t.commits[n].event.campaign == key {
        assert Overtaken(t, d, key, since);
      } else if Overtaken(t, d, key, since) {
        var i :| since <= i < n + 1 && t.commits[i].event.campaign == key && t.commits[i].consumer != d;
        assert s.commits[i] == t.commits[i];
      }
    }
  }

  /** EXEC on an untouched key: the snapshot becomes the key's value and every other watcher is marked. */
  lemma CommitStep(init: map<string, Counters>, s: State, a: Action)
    requires Inv(init, s) && Enabled(s, a) && a.Exec? && !s.consumers[a.c].dirty
    ensures Inv(init, Step(s, a))
  {
    var t := Step(s, a);
    CommitTallies(init, s, a.c);
    hide StoreIsTally, SnapshotsAreTallies;
    forall d | 0 <= d < |t.consumers| ensures ConsumerOk(t, d) {
      CommitConsumer(init, s, a.c, d);
    }
    DirtySpared(t.consumers, a.c);
    assert |t.commits| == |s.commits| + 1;
    assert (|s.consumers| - 1) * (|s.commits| + 1) == (|s.consumers| - 1) * |s.commits| + (|s.consumers| - 1);
  }

  lemma StepInv(init: map<string, Counters>, s: State, a: Action)
    requires Inv(init, s) && Enabled(s, a)
    ensures Inv(init, Step(s, a))
  {
    if a.Exec? {
      if s.consumers[a.c].dirty { RetryStep(init, s, a); } else { CommitStep(init, s, a); }
    } else if a.Persist? {
      forall c, d | 0 <= c < |s.consumers| && 0 <= d < |s.consumers| && c != d
        && s.consumers[c].phase.Returned? && s.consumers[d].phase.Returned?
        ensures s.consumers[c].phase.at != s.consumers[d].phase.at
      {
        ReturnedApart(init, s, c, d);
      }
      PersistStep(init, s, a);
    } else {
      QuietStep(init, s, a);
    }
  }

  /** The invariant holds in every state any interleaving can reach. */
  lemma {:induction false} RunInv(init: map<string, Counters>, s: State, actions: seq<Action>)
    requires Inv(init, s) && IsRun(s, actions)
    ensures Inv(init, After(s, actions))
    decreases actions
  {
    if actions != [] {
      StepInv(init, s, actions[0]);
      RunInv(init, Step(s, actions[0]), actions[1..]);
    }
  }

  lemma Reached(s: State, actions: seq<Action>)
    requires Initial(s) && IsRun(s, actions)
    ensures Inv(s.store, After(s, actions))
  {
    InitInv(s);
    RunInv(s.store, s, actions);
  }

  // ---------- the promises, for every run ----------

  lemma InvCounts(init: map<string, Counters>, t: State, key: string, kind: Kind)
    requires Inv(init, t)
    ensures Lookup(t.store, key).Of(kind) == Lookup(init, key).Of(kind) + Occurrences(t.commits, key, kind)
  {
    hide Tally, ConsumerOk, RowsOk, SnapshotsAreTallies, Occurrences, Lookup;
    TallyCounts(Lookup(init, key), t.commits, key, kind);
  }

  lemma InvTotals(init: map<string, Counters>, t: State, i: nat)
    requires Inv(init, t) && i < |t.commits|
    ensures var key := t.commits[i].event.campaign;
            t.commits[i].snapshot.Total() == Lookup(init, key).Total() + OnKey(t.commits[..i], key) + 1
  {
    hide ConsumerOk, RowsOk, StoreIsTally, Lookup;
    var key := t.commits[i].event.campaign;
    TallyCounts(Lookup(init, key), t.commits[..i], key, View);
    assert t.commits[..i+1] == t.commits[..i] + [t.commits[i]];
    TallySnoc(Lookup(init, key), t.commits[..i], t.commits[i], key);
  }

  lemma InvRows(init: map<string, Counters>, t: State, i: nat, j: nat)
    requires Inv(init, t) && i < j < |t.rows| && t.rows[i].campaign == t.rows[j].campaign
    ensures t.rows[i].metrics.Total() != t.rows[j].metrics.Total()
  {
    hide ConsumerOk, StoreIsTally, SnapshotsAreTallies, Lookup, OnKey;
    var a, b := t.rows[i].at, t.rows[j].at;
    assert t.rows[i] in t.rows && t.rows[j] in t.rows;
    InvTotals(init, t, a);
    InvTotals(init, t, b);
    OnKeyGrows(t.commits, if a < b then a else b, if a < b then b else a, t.rows[i].campaign);
  }

  /** No update is lost: a counter is its initial value plus the committed events of its kind. */
  lemma NoLostUpdate(s: State, actions: seq<Action>, key: string, kind: Kind)
    requires Initial(s) && IsRun(s, actions)
    ensures Lookup(After(s, actions).store, key).Of(kind) ==
            Lookup(s.store, key).Of(kind) + Occurrences(After(s, actions).commits, key, kind)
  {
    hide *;
    Reached(s, actions);
    InvCounts(s.store, After(s, actions), key, kind);
  }

  /** The snapshots committed on a key have consecutive totals, in commit order. */
  lemma SnapshotTotals(s: State, actions: seq<Action>, i: nat)
    requires Initial(s) && IsRun(s, actions) && i < |After(s, actions).commits|
    ensures var commits, key := After(s, actions).commits, After(s, actions).commits[i].event.campaign;
            commits[i].snapshot.Total() == Lookup(s.store, key).Total() + OnKey(commits[..i], key) + 1
  {
    hide *;
    Reached(s, actions);
    InvTotals(s.store, After(s, actions), i);
  }

  lemma {:induction false} OnKeyGrows(commits: seq<Commit>, i: nat, j: nat, key: string)
    requires i <= j <= |commits|
    ensures OnKey(commits[..i], key) <= OnKey(commits[..j], key)
    ensures i < j && commits[i].event.campaign == key ==> OnKey(commits[..i], key) < OnKey(commits[..j], key)
    decreases j - i
  {
    if i < j {
      OnKeyGrows(commits, i, j - 1, key);
      OnKeySnoc(commits[..j-1], commits[j-1], key);
      assert commits[..j] == commits[..j-1] + [commits[j-1]];
    }
  }

  lemma OnKeySnoc(commits: seq<Commit>, c: Commit, key: string)
    ensures OnKey(commits + [c], key) == OnKey(commits, key) + if c.event.campaign == key then 1 else 0
  {
    hide Occurrences;
    OccurrencesSnoc(commits, c, key, View);
    OccurrencesSnoc(commits, c, key, Click);
    OccurrencesSnoc(commits, c, key, Conversion);
    match c.event.kind {
      case View =>
      case Click =>
      case Conversion =>
    }
  }

  lemma OccurrencesSnoc(commits: seq<Commit>, c: Commit, key: string, kind: Kind)
    ensures Occurrences(commits + [c], key, kind) ==
            Occurrences(commits, key, kind) + if c.event.campaign == key && c.event.kind == kind then 1 else 0
  {
    assert (commits + [c])[..|commits|] == commits;
  }

  /** No two inserted rows of a campaign report the same total. */
  lemma RowsDistinct(s: State, actions: seq<Action>, i: nat, j: nat)
    requires Initial(s) && IsRun(s, actions)
    requires i < j < |After(s, actions).rows|
    requires After(s, actions).rows[i].campaign == After(s, actions).rows[j].campaign
    ensures After(s, actions).rows[i].metrics.Total() != After(s, actions).rows[j].metrics.Total()
  {
    hide *;
    Reached(s, actions);
    InvRows(s.store, After(s, actions), i, j);
  }

  /** A consumer's EXEC fails if and only if another consumer committed on its key after its WATCH. */
  lemma RetryMeansConflict(s: State, actions: seq<Action>, c: nat)
    requires Initial(s) && IsRun(s, actions) && Enabled(After(s, actions), Exec(c))
    ensures var t := After(s, actions);
            var me := t.consumers[c];
            var next := Step(t, Exec(c));
            && (next.retries == t.retries + 1 <==> Overtaken(t, c, me.phase.event.campaign, me.since))
            && (if next.retries == t.retries + 1
                then next.consumers[c].phase == Started(me.phase.event) && next.commits == t.commits
                else next.consumers[c].phase == Returned(me.phase.event, me.phase.snapshot, |t.commits|))
  {
    Reached(s, actions);
    assert ConsumerOk(After(s, actions), c);
  }

  /** Conflicts cost at most one retry per commit and other consumer: some consumer always gets through. */
  lemma RetriesBounded(s: State, actions: seq<Action>)
    requires Initial(s) && IsRun(s, actions) && s.consumers != []
    ensures After(s, actions).retries <= (|s.consumers| - 1) * |After(s, actions).commits|
  {
    hide IsRun, After, Step, Initial, ConsumerOk, RowsOk, StoreIsTally, SnapshotsAreTallies;
    Reached(s, actions);
    ConsumersStay(s, actions);
  }

  lemma {:induction false} ConsumersStay(s: State, actions: seq<Action>)
    requires IsRun(s, actions)
    ensures |After(s, actions).consumers| == |s.consumers|
    decreases actions
  {
    if actions != [] { ConsumersStay(Step(s, actions[0]), actions[1..]); }
  }

  // ---------- no event is lost on the way ----------

  /** Consumers to be counted: those that hold an event they have not committed, and those that have
      committed it and not yet inserted its row. */
  datatype Query = Uncommitted(event: Event) | Unsaved(event: Event)

  predicate Fits(q: Query, me: Consumer) {
    match q
    case Uncommitted(e) => (me.phase.Started? || me.phase.Watching? || me.phase.Ready?) && me.phase.event == e
    case Unsaved(e) => me.phase.Returned? && me.phase.event == e
  }

  function Holding(consumers: seq<Consumer>, q: Query): nat {
    if consumers == [] then 0 else (if Fits(q, consumers[0]) then 1 else 0) + Holding(consumers[1..], q)
  }

  /** How often a run polls an event. */
  function Polls(actions: seq<Action>, e: Event): nat {
    if actions == [] then 0 else (if actions[0].Poll? && actions[0].event == e then 1 else 0) + Polls(actions[1..], e)
  }

  /** How often a run fails a consumer that is then among the counted ones. */
  function GivenUp(s: State, actions: seq<Action>, q: Query): nat
    requires IsRun(s, actions)
    decreases actions
  {
    if actions == [] then 0
    else
      (if actions[0].Fail? && Fits(q, s.consumers[actions[0].c]) then 1 else 0)
      + GivenUp(Step(s, actions[0]), actions[1..], q)
  }

  function Committed(s: State, e: Event): nat { Occurrences(s.commits, e.campaign, e.kind) }

  /** Rows that report a commit of the event. */
  function Saved(rows: seq<Row>, commits: seq<Commit>, e: Event): nat {
    if rows == [] then 0
    else
      var last := rows[|rows| - 1];
      Saved(rows[..|rows| - 1], commits, e) + if last.at < |commits| && commits[last.at].event == e then 1 else 0
  }

  lemma {:induction false} HoldingUpdate(consumers: seq<Consumer>, c: nat, me: Consumer, q: Query)
    requires c < |consumers|
    ensures Holding(consumers[c := me], q) ==
            Holding(consumers, q) - (if Fits(q, consumers[c]) then 1 else 0) + (if Fits(q, me) then 1 else 0)
  {
    if c == 0 {
      assert consumers[0 := me][1..] == consumers[1..];
    } else {
      assert consumers[c := me][1..] == consumers[1..][c - 1 := me];
      HoldingUpdate(consumers[1..], c - 1, me, q);
    }
  }

  lemma {:induction false} HoldingTouch(consumers: seq<Consumer>, touched: seq<Consumer>, q: Query)
    requires |touched| == |consumers|
    requires forall i :: 0 <= i < |touched| ==> touched[i].phase == consumers[i].phase
    ensures Holding(touched, q) == Holding(consumers, q)
  {
    if consumers != [] { HoldingTouch(consumers[1..], touched[1..], q); }
  }

  lemma {:induction false} HoldingNone(consumers: seq<Consumer>, q: Query)
    requires forall c :: 0 <= c < |consumers| ==> consumers[c].phase.Idle?
    ensures Holding(consumers, q) == 0
  {
    if consumers != [] { HoldingNone(consumers[1..], q); }
  }

  /** How a step changes a count of consumers. */
  lemma HoldingStep(s: State, a: Action, q: Query)
    requires Enabled(s, a)
    ensures Holding(Step(s, a).consumers, q) ==
            Holding(s.consumers, q) - (if Fits(q, s.consumers[a.c]) then 1 else 0)
            + (if Fits(q, Step(s, a).consumers[a.c]) then 1 else 0)
  {
    var t := Step(s, a);
    if a.Exec? && !s.consumers[a.c].dirty {
      var touched := Touch(s.consumers, s.consumers[a.c].phase.event.campaign, a.c);
      HoldingTouch(s.consumers, touched, q);
      HoldingUpdate(touched, a.c, t.consumers[a.c], q);
    } else {
      HoldingUpdate(s.consumers, a.c, t.consumers[a.c], q);
    }
  }

  /** One step neither makes up nor loses an event: polled ones are held until committed or given up. */
  lemma PollAccount(s: State, a: Action, e: Event)
    requires Enabled(s, a)
    ensures Committed(Step(s, a), e) + Holding(Step(s, a).consumers, Uncommitted(e))
            + (if a.Fail? && Fits(Uncommitted(e), s.consumers[a.c]) then 1 else 0)
            == Committed(s, e) + Holding(s.consumers, Uncommitted(e)) + (if a.Poll? && a.event == e then 1 else 0)
  {
    HoldingStep(s, a, Uncommitted(e));
    if a.Exec? && !s.consumers[a.c].dirty {
      var commit := Step(s, a).commits[|s.commits|];
      OccurrencesSnoc(s.commits, commit, e.campaign, e.kind);
    }
  }

  /** Over every run: the events polled are those committed, those still held and those given up. */
  lemma {:induction false} PollsAccounted(s: State, actions: seq<Action>, e: Event)
    requires IsRun(s, actions)
    ensures Committed(After(s, actions), e) + Holding(After(s, actions).consumers, Uncommitted(e))
            + GivenUp(s, actions, Uncommitted(e))
            == Committed(s, e) + Holding(s.consumers, Uncommitted(e)) + Polls(actions, e)
    decreases actions
  {
    hide Step, Enabled, Fits, Committed, Holding;
    if actions != [] {
      PollAccount(s, actions[0], e);
      PollsAccounted(Step(s, actions[0]), actions[1..], e);
    }
  }

  lemma {:induction false} SavedStays(rows: seq<Row>, commits: seq<Commit>, c: Commit, e: Event)
    requires forall r :: r in rows ==> r.at < |commits|
    ensures Saved(rows, commits + [c], e) == Saved(rows, commits, e)
  {
    if rows != [] {
      assert rows[|rows| - 1] in rows;
      SavedStays(rows[..|rows| - 1], commits, c, e);
    }
  }

  lemma SavedSnoc(rows: seq<Row>, commits: seq<Commit>, r: Row, e: Event)
    ensures Saved(rows + [r], commits, e) ==
            Saved(rows, commits, e) + if r.at < |commits| && commits[r.at].event == e then 1 else 0
  {
    assert (rows + [r])[..|rows|] == rows;
  }

  /** One step neither makes up nor loses a row: commits are held until inserted or given up. */
  lemma RowAccount(init: map<string, Counters>, s: State, a: Action, e: Event)
    requires Inv(init, s) && Enabled(s, a)
    ensures Saved(Step(s, a).rows, Step(s, a).commits, e) + Holding(Step(s, a).consumers, Unsaved(e))
            + (if a.Fail? && Fits(Unsaved(e), s.consumers[a.c]) then 1 else 0) + Committed(s, e)
            == Saved(s.rows, s.commits, e) + Holding(s.consumers, Unsaved(e)) + Committed(Step(s, a), e)
  {
    assert ConsumerOk(s, a.c);
    HoldingStep(s, a, Unsaved(e));
    var t := Step(s, a);
    hide StoreIsTally, SnapshotsAreTallies;
    if a.Exec? && !s.consumers[a.c].dirty {
      OccurrencesSnoc(s.commits, t.commits[|s.commits|], e.campaign, e.kind);
      SavedStays(s.rows, s.commits, t.commits[|s.commits|], e);
    } else if a.Persist? {
      SavedSnoc(s.rows, s.commits, t.rows[|s.rows|], e);
    }
  }

  /** Over every run: the events committed are those whose row is inserted, those whose row is still to be
      inserted, and those given up in between. */
  lemma {:induction false} RowsAccounted(init: map<string, Counters>, s: State, actions: seq<Action>, e: Event)
    requires Inv(init, s) && IsRun(s, actions)
    ensures Saved(After(s, actions).rows, After(s, actions).commits, e)
            + Holding(After(s, actions).consumers, Unsaved(e)) + GivenUp(s, actions, Unsaved(e)) + Committed(s, e)
            == Saved(s.rows, s.commits, e) + Holding(s.consumers, Unsaved(e)) + Committed(After(s, actions), e)
    decreases actions
  {
    hide Inv, Step, Enabled, Fits, Committed, Holding, Saved;
    if actions != [] {
      RowAccount(init, s, actions[0], e);
      StepInv(init, s, actions[0]);
      RowsAccounted(init, Step(s, actions[0]), actions[1..], e);
    }
  }

  lemma {:induction false} NothingGivenUp(s: State, actions: seq<Action>, q: Query)
    requires IsRun(s, actions) && forall a :: a in actions ==> !a.Fail?
    ensures GivenUp(s, actions, q) == 0
    decreases actions
  {
    hide Step, Fits;
    if actions != [] {
      assert actions[0] in actions && forall a :: a in actions[1..] ==> a in actions;
      NothingGivenUp(Step(s, actions[0]), actions[1..], q);
    }
  }

  /** A run in which nothing fails and every consumer has finished has committed and inserted every event
      it polled, and the counters have grown by exactly those. */
  lemma EveryEventServed(s: State, actions: seq<Action>, e: Event)
    requires Initial(s) && IsRun(s, actions) && forall a :: a in actions ==> !a.Fail?
    requires forall c :: 0 <= c < |After(s, actions).consumers| ==> After(s, actions).consumers[c].phase.Idle?
    ensures var t := After(s, actions);
            && Committed(t, e) == Polls(actions, e) == Saved(t.rows, t.commits, e)
            && Lookup(t.store, e.campaign).Of(e.kind) == Lookup(s.store, e.campaign).Of(e.kind) + Polls(actions, e)
  {
    InitInv(s);
    assert Committed(s, e) == 0 && Saved(s.rows, s.commits, e) == 0;
    hide IsRun, After, Step, Inv, Saved;
    HoldingNone(s.consumers, Uncommitted(e));
    HoldingNone(s.consumers, Unsaved(e));
    HoldingNone(After(s, actions).consumers, Uncommitted(e));
    HoldingNone(After(s, actions).consumers, Unsaved(e));
    NothingGivenUp(s, actions, Uncommitted(e));
    NothingGivenUp(s, actions, Unsaved(e));
    PollsAccounted(s, actions, e);
    RowsAccounted(s.store, s, actions, e);
    NoLostUpdate(s, actions, e.campaign, e.kind);
    assert Event(e.campaign, e.kind) == e;
  }

  // ---------- getting through ----------

  /** Starting from an empty server the counters are the numbers of commits themselves. */
  lemma FromNothing(s: State, actions: seq<Action>, key: string, kind: Kind)
    requires Initial(s) && IsRun(s, actions) && s.store == map[]
    ensures var t := After(s, actions);
            if key in t.store then t.store[key].Of(kind) == Occurrences(t.commits, key, kind)
            else Occurrences(t.commits, key, kind) == 0
  {
    NoLostUpdate(s, actions, key, kind);
    hide IsRun, After, Initial;
  }

  /** A consumer left alone: from polling an event to inserting its row. */
  function Alone(c: nat, e: Event): seq<Action> {
    [Poll(c, e), Watch(c), Read(c), Exec(c), Persist(c)]
  }

  lemma OneStep(s: State, a: Action, rest: seq<Action>, actions: seq<Action>)
    requires Enabled(s, a) && IsRun(Step(s, a), rest) && actions == [a] + rest
    ensures IsRun(s, actions) && After(s, actions) == After(Step(s, a), rest)
  {
    hide Step, Enabled;
    assert actions[1..] == rest;
  }

  lemma NoStep(s: State)
    ensures IsRun(s, []) && After(s, []) == s
  {
  }

  /** From any state an idle consumer that is left alone gets its event through at the first try: the counter
      grows by one, the row reports it, and nothing else changes hands. */
  lemma AloneGetsThrough(s: State, c: nat, e: Event)
    requires c < |s.consumers| && s.consumers[c].phase.Idle?
    ensures IsRun(s, Alone(c, e))
    ensures var t := After(s, Alone(c, e));
            var next := Bump(Lookup(s.store, e.campaign), e.kind);
            && t.store == s.store[e.campaign := next]
            && t.commits == s.commits + [Commit(c, e, next)]
            && t.rows == s.rows + [Row(e.campaign, next, |s.commits|)]
            && t.retries == s.retries && |t.consumers| == |s.consumers| && t.consumers[c].phase.Idle?
  {
    hide IsRun, After;
    var s1 := Step(s, Poll(c, e));
    var s2 := Step(s1, Watch(c));
    var s3 := Step(s2, Read(c));
    var s4 := Step(s3, Exec(c));
    var s5 := Step(s4, Persist(c));
    assert s3.consumers[c] == Consumer(Ready(e, Bump(Lookup(s.store, e.campaign), e.kind)), false, |s.commits|);
    assert s4.consumers[c] == Consumer(Returned(e, s3.consumers[c].phase.snapshot, |s.commits|), false, 0);
    NoStep(s5);
    OneStep(s4, Persist(c), [], [Persist(c)]);
    OneStep(s3, Exec(c), [Persist(c)], [Exec(c), Persist(c)]);
    OneStep(s2, Read(c), [Exec(c), Persist(c)], [Read(c), Exec(c), Persist(c)]);
    OneStep(s1, Watch(c), [Read(c), Exec(c), Persist(c)], [Watch(c), Read(c), Exec(c), Persist(c)]);
    OneStep(s, Poll(c, e), [Watch(c), Read(c), Exec(c), Persist(c)], Alone(c, e));
  }
}
