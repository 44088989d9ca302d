/** The session seen over time: user actions and request completions arrive as events in any
    interleaving, and the session invariant holds after every one of them. Alongside the
    component's state the world records what the surrounding code provides implicitly: the
    ids ever handed out (in submission order), the requests still in flight with the settings
    they were sent with, and the ids whose controller has been told to abort. */
module Lifecycle {
  import opened Wrappers
  import opened AppTypes
  import opened Sequences
  import opened Session

  datatype Event =
    | SubmitEvent(form: ExtractionConfig, id: Id, now: int)
    | CompleteEvent(id: Id, outcome: Outcome)
    | DeleteEvent(id: Id)
    | SelectEvent(id: Id)

  datatype World = World(
    state: State,
    issued: seq<Id>,
    inflight: map<Id, ExtractionConfig>,
    aborted: set<Id>)

  const Start: World := World(Initial, [], map[], {})

  /** Which events the environment can produce. A submission draws an id never drawn before;
      only a request still in flight can return, and it can fail with `AbortError` only after
      its controller was told to abort; only an existing tab can be clicked. */
  predicate Enabled(w: World, e: Event) {
    match e
    case SubmitEvent(_, id, _) => id !in w.issued && id !in Ids(w.state.extractions)
    case CompleteEvent(id, outcome) =>
      && id in w.inflight
      && (outcome.Rejected? && outcome.name == AbortErrorName ==> id in w.aborted)
    case DeleteEvent(_) => true
    case SelectEvent(id) => id in Ids(w.state.extractions)
  }

  /** Applies one event. An admitted submission starts a request carrying the form's
      settings; a completion ends its request; a deletion records an abort request. */
  function Step(w: World, e: Event): World
    requires Enabled(w, e)
  {
    match e
    case SubmitEvent(form, id, now) =>
      if |w.state.extractions| >= MaxExtractions then w
      else World(Submit(w.state, form, id, now), w.issued + [id], w.inflight[id := form], w.aborted)
    case CompleteEvent(id, outcome) =>
      World(Complete(w.state, id, outcome), w.issued, w.inflight - {id}, w.aborted)
    case DeleteEvent(id) =>
      var d := Delete(w.state, id);
      World(d.state, w.issued, w.inflight, if d.abortRequested then w.aborted + {id} else w.aborted)
    case SelectEvent(id) =>
      World(Select(w.state, id), w.issued, w.inflight, w.aborted)
  }

  /** Applies a sequence of events, or yields nothing if one of them cannot happen. */
  function Run(w: World, events: seq<Event>): Option<World>
    decreases |events|
  {
    if |events| == 0 then Some(w)
    else if !Enabled(w, events[0]) then None
    else Run(Step(w, events[0]), events[1..])
  }

  /** The per-job invariant: the tool shown is the snapshotted tool, the controller is
      attached, and payload and error are present exactly as the status says. */
  predicate JobWellFormed(j: Extraction) {
    && j.tool == j.config.tool
    && j.hasAbortController
    && (j.status == Pending ==> j.data == None && j.error == None)
    && (j.status == Success ==> j.data.Some? && j.error == None)
    && (j.status == Error ==> j.error.Some? && j.data == None)
  }

  /** A job is pending exactly while its request is in flight, and that request carries
      the job's own settings. */
  predicate TracksRequest(w: World, j: Extraction) {
    && (j.status == Pending <==> j.id in w.inflight)
    && (j.id in w.inflight ==> w.inflight[j.id] == j.config)
  }

  predicate Inv(w: World) {
    var jobs := w.state.extractions;
    && |jobs| <= MaxExtractions
    && Distinct(w.issued)
    && Subseq(Ids(jobs), w.issued)
    && (forall id :: id in w.inflight ==> id in w.issued)
    && (forall id :: id in w.aborted ==> id in w.issued && id !in Ids(jobs))
    && (forall j :: j in jobs ==> JobWellFormed(j) && TracksRequest(w, j))
    && (|jobs| > 0 ==> w.state.activeTab in Ids(jobs))
  }

  lemma StartInv()
    ensures Inv(Start)
  {
  }

  lemma IdsMembership(jobs: seq<Extraction>, id: Id)
    ensures id in Ids(jobs) <==> exists j :: j in jobs && j.id == id
  {
    if id in Ids(jobs) {
      var i :| 0 <= i < |jobs| && Ids(jobs)[i] == id;
      assert jobs[i] in jobs;
    }
  }

  lemma SubmitKeepsInv(w: World, form: ExtractionConfig, id: Id, now: int)
    requires Inv(w) && Enabled(w, SubmitEvent(form, id, now))
    ensures Inv(Step(w, SubmitEvent(form, id, now)))
  {
    var jobs := w.state.extractions;
    if |jobs| < MaxExtractions {
      var w' := Step(w, SubmitEvent(form, id, now));
      var jobs' := w'.state.extractions;
      assert jobs' == jobs + [jobs'[|jobs|]];
      SubseqAppend(Ids(jobs), w.issued, id);
      forall j | j in jobs'
        ensures JobWellFormed(j) && TracksRequest(w', j)
      {
        if j != jobs'[|jobs|] {
          assert j in jobs;
          IdsMembership(jobs, j.id);
        }
      }
      forall a | a in w'.aborted
        ensures a in w'.issued && a !in Ids(jobs')
      {
        assert a != id;
      }
    }
  }

  lemma CompleteKeepsInv(w: World, id: Id, outcome: Outcome)
    requires Inv(w) && Enabled(w, CompleteEvent(id, outcome))
    ensures Inv(Step(w, CompleteEvent(id, outcome)))
  {
    var jobs := w.state.extractions;
    var w' := Step(w, CompleteEvent(id, outcome));
    var jobs' := w'.state.extractions;
    forall j | j in jobs'
      ensures JobWellFormed(j) && TracksRequest(w', j)
    {
      var i :| 0 <= i < |jobs'| && jobs'[i] == j;
      assert jobs[i] in jobs;
      if jobs[i].id == id && !(outcome.Rejected? && outcome.name == AbortErrorName) {
        assert jobs[i].status == Pending;
      }
    }
  }

  /** The jobs left by a deletion carry only ids the old list carried. */
  lemma DeleteKeepsIds(w: World, id: Id)
    requires Inv(w)
    ensures Subseq(Ids(Delete(w.state, id).state.extractions), w.issued)
    ensures forall x :: x in Ids(Delete(w.state, id).state.extractions) ==> x in Ids(w.state.extractions)
  {
    var jobs := w.state.extractions;
    var jobs' := Delete(w.state, id).state.extractions;
    SubseqIds(jobs', jobs);
    SubseqTrans(Ids(jobs'), Ids(jobs), w.issued);
    SubseqMembers(Ids(jobs'), Ids(jobs));
  }

  lemma DeleteKeepsAborted(w: World, id: Id)
    requires Inv(w)
    ensures forall a :: a in Step(w, DeleteEvent(id)).aborted ==>
      a in w.issued && a !in Ids(Delete(w.state, id).state.extractions)
  {
    var d := Delete(w.state, id);
    DeleteKeepsIds(w, id);
    if d.abortRequested {
      IdsMembership(w.state.extractions, id);
      SubseqMembers(Ids(w.state.extractions), w.issued);
    }
  }

  lemma DeleteKeepsActive(w: World, id: Id)
    requires Inv(w)
    ensures var s' := Delete(w.state, id).state;
      |s'.extractions| > 0 ==> s'.activeTab in Ids(s'.extractions)
  {
    var jobs := w.state.extractions;
    var s' := Delete(w.state, id).state;
    if |s'.extractions| > 0 && s'.activeTab != s'.extractions[0].id {
      assert s'.activeTab == w.state.activeTab != id;
      IdsMembership(jobs, w.state.activeTab);
      IdsMembership(s'.extractions, w.state.activeTab);
    }
  }

  lemma DeleteKeepsInv(w: World, id: Id)
    requires Inv(w)
    ensures Inv(Step(w, DeleteEvent(id)))
  {
    var d := Delete(w.state, id);
    var w' := World(d.state, w.issued, w.inflight, if d.abortRequested then w.aborted + {id} else w.aborted);
    assert Step(w, DeleteEvent(id)) == w';
    DeleteKeepsIds(w, id);
    DeleteKeepsAborted(w, id);
    DeleteKeepsActive(w, id);
    forall j | j in d.state.extractions
      ensures JobWellFormed(j) && TracksRequest(w', j)
    {
      assert j in w.state.extractions;
      assert TracksRequest(w, j);
    }
  }

  lemma SelectKeepsInv(w: World, id: Id)
    requires Inv(w) && id in Ids(w.state.extractions)
    ensures Inv(Step(w, SelectEvent(id)))
  {
    var w' := Step(w, SelectEvent(id));
    assert w'.state.extractions == w.state.extractions;
    forall j | j in w'.state.extractions
      ensures JobWellFormed(j) && TracksRequest(w', j)
    {
      assert TracksRequest(w, j);
    }
  }

  /** Every event the environment can produce keeps the invariant. */
  lemma StepKeepsInv(w: World, e: Event)
    requires Inv(w) && Enabled(w, e)
    ensures Inv(Step(w, e))
  {
    match e
    case SubmitEvent(form, id, now) => SubmitKeepsInv(w, form, id, now);
    case CompleteEvent(id, outcome) => CompleteKeepsInv(w, id, outcome);
    case DeleteEvent(id) => DeleteKeepsInv(w, id);
    case SelectEvent(id) => SelectKeepsInv(w, id);
  }

  lemma {:induction false} RunKeepsInv(w: World, events: seq<Event>)
    requires Inv(w)
    ensures Run(w, events).Some? ==> Inv(Run(w, events).value)
    decreases |events|
  {
    if |events| > 0 && Enabled(w, events[0]) {
      StepKeepsInv(w, events[0]);
      RunKeepsInv(Step(w, events[0]), events[1..]);
    }
  }

  /** What holds of every session the component can reach: at most five jobs, unique ids
      listed in submission order, each job's payload and error matching its status, and,
      while any job exists, an active tab that names one of them. */
  predicate Safe(w: World) {
    var jobs := w.state.extractions;
    && |jobs| <= MaxExtractions
    && Distinct(Ids(jobs))
    && Subseq(Ids(jobs), w.issued)
    && (forall j :: j in jobs ==> JobWellFormed(j))
    && (|jobs| > 0 ==> w.state.activeTab in Ids(jobs))
  }

  /** Whatever submissions, completions, deletions and selections happen, in whatever
      order, starting from the empty session, the session stays safe. */
  lemma Reachable(events: seq<Event>)
    ensures Run(Start, events).Some? ==> Safe(Run(Start, events).value)
  {
    StartInv();
    RunKeepsInv(Start, events);
    if Run(Start, events).Some? {
      var w := Run(Start, events).value;
      SubseqDistinct(Ids(w.state.extractions), w.issued);
    }
  }

  /** One event never brings back an id that was issued and is no longer held. */
  lemma StepKeepsDeleted(w: World, e: Event, id: Id)
    requires Inv(w) && Enabled(w, e)
    requires id in w.issued && id !in Ids(w.state.extractions)
    ensures id in Step(w, e).issued && id !in Ids(Step(w, e).state.extractions)
  {
    match e
    case SubmitEvent(form, nid, now) =>
      if |w.state.extractions| < MaxExtractions {
        assert Ids(Step(w, e).state.extractions) == Ids(w.state.extractions) + [nid];
      }
    case CompleteEvent(_, _) =>
    case DeleteEvent(did) =>
      DeleteKeepsIds(w, did);
    case SelectEvent(_) =>
  }

  /** Once a job is gone it never comes back: later events, including its own request
      returning late, never put its id into the list again. */
  lemma {:induction false} DeletedStaysDeleted(w: World, events: seq<Event>, id: Id)
    requires Inv(w)
    requires id in w.issued && id !in Ids(w.state.extractions)
    ensures Run(w, events).Some? ==> id !in Ids(Run(w, events).value.state.extractions)
    decreases |events|
  {
    if |events| > 0 && Enabled(w, events[0]) {
      StepKeepsInv(w, events[0]);
      StepKeepsDeleted(w, events[0], id);
      DeletedStaysDeleted(Step(w, events[0]), events[1..], id);
    }
  }
}
