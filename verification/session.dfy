/** The extraction session store of `PDFResults` (components/pdf-results.tsx): the ordered
    list of extraction jobs, the active tab, and the transitions that replace them. Each
    transition is one atomic "replace the list" step, as the component's state updaters are. */
module Session {
  import opened Wrappers
  import opened AppTypes
  import opened Sequences

  /** `MAX_EXTRACTIONS`: the most jobs the session holds at once. */
  const MaxExtractions: nat := 5

  /** The `name` a rejected request carries when it was cancelled through its abort signal. */
  const AbortErrorName: string := "AbortError"

  type Id = string

  datatype Status = Pending | Success | Error

  /** The form's settings, snapshotted into each job when it is submitted. */
  datatype ExtractionConfig = ExtractionConfig(tool: Tool, processOutput: bool, tables: bool, text: bool)

  /** One extraction job. `hasAbortController` records whether the optional abort controller
      is attached; calling its `abort()` is reported by `Delete` rather than performed. */
  datatype Extraction = Extraction(
    id: Id,
    tool: Tool,
    status: Status,
    data: Option<ExtractionResult>,
    error: Option<string>,
    timestamp: int,
    hasAbortController: bool,
    config: ExtractionConfig)

  /** The component's `extractions` list and `activeTab` id. */
  datatype State = State(extractions: seq<Extraction>, activeTab: Id)

  /** The state a freshly mounted component starts from. */
  const Initial: State := State([], "")

  /** How an extraction request ended: it resolved with a payload, or it was rejected with
      an error carrying a `name` and a `message`. */
  datatype Outcome = Resolved(result: ExtractionResult) | Rejected(name: string, message: string)

  /** What `Delete` produced: the new state, and whether it called `abort()` on the removed
      job's controller. */
  datatype Deletion = Deletion(state: State, abortRequested: bool)

  /** The ids of the jobs, in list order. */
  function Ids(jobs: seq<Extraction>): (r: seq<Id>)
    ensures |r| == |jobs|
    ensures forall i :: 0 <= i < |jobs| ==> r[i] == jobs[i].id
  {
    if |jobs| == 0 then [] else Ids(jobs[..|jobs| - 1]) + [jobs[|jobs| - 1].id]
  }

  /** `j` is the job that submission creates from `form` under `id` at time `now`: pending,
      with an abort controller, no payload or error yet, and the form's settings copied. */
  predicate IsNewJob(j: Extraction, id: Id, form: ExtractionConfig, now: int) {
    && j.id == id
    && j.status == Pending
    && j.tool == form.tool
    && j.config == form
    && j.data == None
    && j.error == None
    && j.timestamp == now
    && j.hasAbortController
  }

  /** `b` is `a` with at most its status, payload and error rewritten: the fields a
      completion never touches are equal. */
  predicate SameJob(a: Extraction, b: Extraction) {
    && a.id == b.id
    && a.tool == b.tool
    && a.timestamp == b.timestamp
    && a.hasAbortController == b.hasAbortController
    && a.config == b.config
  }

  /** `handleSubmit`'s admission and append. At the cap nothing changes; below it exactly one
      pending job is appended after the untouched earlier jobs and becomes the active tab.
      The random id and `Date.now()` are parameters; the id must not name a held job. */
  function Submit(s: State, form: ExtractionConfig, id: Id, now: int): (r: State)
    requires id !in Ids(s.extractions)
    ensures |s.extractions| >= MaxExtractions ==> r == s
    ensures |s.extractions| < MaxExtractions ==>
      && |r.extractions| == |s.extractions| + 1
      && r.extractions[..|s.extractions|] == s.extractions
      && IsNewJob(r.extractions[|s.extractions|], id, form, now)
      && r.activeTab == id
    ensures |s.extractions| < MaxExtractions ==> Ids(r.extractions) == Ids(s.extractions) + [id]
    ensures |r.extractions| <= MaxExtractions || r == s
  {
    if |s.extractions| >= MaxExtractions then s
    else
      var job := Extraction(id, form.tool, Pending, None, None, now, true, form);
      assert (s.extractions + [job])[..|s.extractions|] == s.extractions;
      State(s.extractions + [job], id)
  }

  /** The success updater: every job with `id` gets status success and the payload; every
      other job, and every untouched field, stays as it was. */
  function MarkSuccess(jobs: seq<Extraction>, id: Id, result: ExtractionResult): (r: seq<Extraction>)
    ensures |r| == |jobs|
    ensures forall i :: 0 <= i < |jobs| && jobs[i].id != id ==> r[i] == jobs[i]
    ensures forall i :: 0 <= i < |jobs| && jobs[i].id == id ==>
      && SameJob(jobs[i], r[i])
      && r[i].status == Success
      && r[i].data == Some(result)
      && r[i].error == jobs[i].error
  {
    seq(|jobs|, i requires 0 <= i < |jobs| =>
      if jobs[i].id == id then jobs[i].(status := Success, data := Some(result)) else jobs[i])
  }

  /** The error updater: every job with `id` gets status error and the message; every
      other job, and every untouched field, stays as it was. */
  function MarkError(jobs: seq<Extraction>, id: Id, message: string): (r: seq<Extraction>)
    ensures |r| == |jobs|
    ensures forall i :: 0 <= i < |jobs| && jobs[i].id != id ==> r[i] == jobs[i]
    ensures forall i :: 0 <= i < |jobs| && jobs[i].id == id ==>
      && SameJob(jobs[i], r[i])
      && r[i].status == Error
      && r[i].error == Some(message)
      && r[i].data == jobs[i].data
  {
    seq(|jobs|, i requires 0 <= i < |jobs| =>
      if jobs[i].id == id then jobs[i].(status := Error, error := Some(message)) else jobs[i])
  }

  /** The completion half of `handleSubmit`. A rejection named `AbortError` changes nothing;
      otherwise only jobs with `id` are rewritten, so the list keeps its length, its ids in
      their order and the active tab, and an id that is no longer held is a no-op. */
  function Complete(s: State, id: Id, outcome: Outcome): (r: State)
    ensures r.activeTab == s.activeTab
    ensures Ids(r.extractions) == Ids(s.extractions)
    ensures outcome.Rejected? && outcome.name == AbortErrorName ==> r == s
    ensures id !in Ids(s.extractions) ==> r == s
    ensures forall i :: 0 <= i < |s.extractions| && s.extractions[i].id != id ==>
      r.extractions[i] == s.extractions[i]
    ensures forall i :: 0 <= i < |s.extractions| ==> SameJob(s.extractions[i], r.extractions[i])
    ensures outcome.Resolved? ==> forall i :: 0 <= i < |s.extractions| && s.extractions[i].id == id ==>
      && r.extractions[i].status == Success
      && r.extractions[i].data == Some(outcome.result)
      && r.extractions[i].error == s.extractions[i].error
    ensures outcome.Rejected? && outcome.name != AbortErrorName ==>
      forall i :: 0 <= i < |s.extractions| && s.extractions[i].id == id ==>
        && r.extractions[i].status == Error
        && r.extractions[i].error == Some(outcome.message)
        && r.extractions[i].data == s.extractions[i].data
  {
    match outcome
    case Resolved(result) =>
      State(MarkSuccess(s.extractions, id, result), s.activeTab)
    case Rejected(name, message) =>
      if name == AbortErrorName then s
      else State(MarkError(s.extractions, id, message), s.activeTab)
  }

  /** Position `i` holds the first job with `id`. */
  predicate FirstWith(jobs: seq<Extraction>, id: Id, i: int) {
    0 <= i < |jobs| && jobs[i].id == id && forall k :: 0 <= k < i ==> jobs[k].id != id
  }

  /** The position of the first job with `id`, or the list's length when there is none. */
  function FirstIndex(jobs: seq<Extraction>, id: Id): (r: nat)
    ensures r <= |jobs|
    ensures forall k :: 0 <= k < r ==> jobs[k].id != id
    ensures r < |jobs| ==> jobs[r].id == id
    decreases |jobs|
  {
    if |jobs| == 0 then 0
    else if jobs[0].id == id then 0
    else 1 + FirstIndex(jobs[1..], id)
  }

  /** `prev.find`: the first job with `id`, or nothing when no job has it. */
  function Find(jobs: seq<Extraction>, id: Id): (r: Option<Extraction>)
    ensures r.None? <==> id !in Ids(jobs)
    ensures r.Some? ==> r.value.id == id
    ensures r.Some? ==> exists i :: FirstWith(jobs, id, i) && jobs[i] == r.value
  {
    var i := FirstIndex(jobs, id);
    if i < |jobs| then
      assert FirstWith(jobs, id, i);
      Some(jobs[i])
    else
      None
  }

  /** `prev.filter(e => e.id !== id)`: exactly the jobs without `id` remain, in their
      original relative order; an id that is not held leaves the list as it was. */
  function Without(jobs: seq<Extraction>, id: Id): (r: seq<Extraction>)
    ensures forall j :: j in r <==> j in jobs && j.id != id
    ensures forall j :: multiset(r)[j] == if j.id == id then 0 else multiset(jobs)[j]
    ensures id !in Ids(r)
    ensures Subseq(r, jobs)
    ensures |r| <= |jobs|
    ensures id !in Ids(jobs) ==> r == jobs
  {
    if |jobs| == 0 then []
    else
      var init := jobs[..|jobs| - 1];
      var last := jobs[|jobs| - 1];
      assert jobs == init + [last];
      var rest := Without(init, id);
      var r := if last.id == id then rest else rest + [last];
      WithoutStepCounts(init, last, id, rest, r);
      WithoutStepOrder(init, last, id, rest, r);
      r
  }

  /** One step of `Without` keeps the multiplicities: appending `last` to `init` appends it
      to the filtered `rest` exactly when its id differs. */
  lemma WithoutStepCounts(init: seq<Extraction>, last: Extraction, id: Id, rest: seq<Extraction>, r: seq<Extraction>)
    requires forall j :: multiset(rest)[j] == if j.id == id then 0 else multiset(init)[j]
    requires r == if last.id == id then rest else rest + [last]
    ensures forall j :: multiset(r)[j] == if j.id == id then 0 else multiset(init + [last])[j]
    ensures forall j :: j in r <==> j in init + [last] && j.id != id
  {
    assert multiset(init + [last]) == multiset(init) + multiset{last};
    if last.id != id {
      assert multiset(rest + [last]) == multiset(rest) + multiset{last};
    }
    forall j
      ensures j in r <==> j in init + [last] && j.id != id
    {
      assert j in r <==> multiset(r)[j] > 0;
      assert j in init + [last] <==> multiset(init + [last])[j] > 0;
    }
  }

  /** One step of `Without` keeps the order and removes the id. */
  lemma WithoutStepOrder(init: seq<Extraction>, last: Extraction, id: Id, rest: seq<Extraction>, r: seq<Extraction>)
    requires id !in Ids(rest)
    requires Subseq(rest, init)
    requires |rest| <= |init|
    requires id !in Ids(init) ==> rest == init
    requires r == if last.id == id then rest else rest + [last]
    ensures id !in Ids(r)
    ensures Subseq(r, init + [last])
    ensures |r| <= |init + [last]|
    ensures id !in Ids(init + [last]) ==> r == init + [last]
  {
    assert Ids(init + [last]) == Ids(init) + [last.id];
    if last.id != id {
      SubseqAppend(rest, init, last);
      assert Ids(rest + [last]) == Ids(rest) + [last.id];
    } else {
      assert (init + [last])[..|init|] == init;
    }
  }

  /** `handleDelete`. It calls `abort()` exactly when the first job with `id` is pending and
      has a controller, removes every job with `id`, and moves the active tab to the first
      remaining job when the deleted job was active and some job remains; otherwise the
      active tab is untouched, even when the list becomes empty. */
  function Delete(s: State, id: Id): (r: Deletion)
    ensures r.abortRequested <==> (match Find(s.extractions, id)
      case Some(j) => j.status == Pending && j.hasAbortController
      case None => false)
    ensures forall j :: j in r.state.extractions <==> j in s.extractions && j.id != id
    ensures forall j :: multiset(r.state.extractions)[j] == if j.id == id then 0 else multiset(s.extractions)[j]
    ensures Subseq(r.state.extractions, s.extractions)
    ensures id !in Ids(r.state.extractions)
    ensures s.activeTab == id && |r.state.extractions| > 0 ==>
      r.state.activeTab == r.state.extractions[0].id
    ensures !(s.activeTab == id && |r.state.extractions| > 0) ==> r.state.activeTab == s.activeTab
    ensures id !in Ids(s.extractions) ==> r.state.extractions == s.extractions && !r.abortRequested
  {
    var found := Find(s.extractions, id);
    var abort := found.Some? && found.value.status == Pending && found.value.hasAbortController;
    var filtered := Without(s.extractions, id);
    var active := if s.activeTab == id && |filtered| > 0 then filtered[0].id else s.activeTab;
    Deletion(State(filtered, active), abort)
  }

  /** The tab strip's `onValueChange`: the clicked tab becomes active; the jobs are untouched. */
  function Select(s: State, id: Id): (r: State)
    ensures r.activeTab == id
    ensures r.extractions == s.extractions
  {
    State(s.extractions, id)
  }

  /** Completions of two different jobs commute: whichever request returns first, the
      resulting list is the same, so completion order never reorders or alters the outcome. */
  lemma CompletionsCommute(s: State, a: Id, oa: Outcome, b: Id, ob: Outcome)
    requires a != b
    ensures Complete(Complete(s, a, oa), b, ob) == Complete(Complete(s, b, ob), a, oa)
  {
  }

  /** Two submissions below the cap list their ids after the earlier ones, in order. */
  lemma SubmitTwiceIds(s: State, fa: ExtractionConfig, a: Id, ta: int, fb: ExtractionConfig, b: Id, tb: int)
    requires |s.extractions| + 2 <= MaxExtractions
    requires a != b && a !in Ids(s.extractions) && b !in Ids(s.extractions)
    ensures b !in Ids(Submit(s, fa, a, ta).extractions)
    ensures Ids(Submit(Submit(s, fa, a, ta), fb, b, tb).extractions) == Ids(s.extractions) + [a, b]
  {
    var s1 := Submit(s, fa, a, ta);
    assert Ids(s1.extractions) == Ids(s.extractions) + [a];
    var s2 := Submit(s1, fb, b, tb);
    assert Ids(s2.extractions) == Ids(s.extractions) + [a] + [b];
    assert Ids(s.extractions) + [a] + [b] == Ids(s.extractions) + [a, b];
  }

  /** Two jobs submitted as A then B stay listed as A then B even when B's request returns
      before A's. */
  lemma CompletionOrderKeepsListOrder(s: State, fa: ExtractionConfig, a: Id, ta: int,
                                      fb: ExtractionConfig, b: Id, tb: int, oa: Outcome, ob: Outcome)
    requires |s.extractions| + 2 <= MaxExtractions
    requires a != b && a !in Ids(s.extractions) && b !in Ids(s.extractions)
    ensures b !in Ids(Submit(s, fa, a, ta).extractions)
    ensures Ids(Complete(Complete(Submit(Submit(s, fa, a, ta), fb, b, tb), b, ob), a, oa).extractions) ==
      Ids(s.extractions) + [a, b]
  {
    SubmitTwiceIds(s, fa, a, ta, fb, b, tb);
  }

  /** A request that returns after its job was deleted leaves the state as the deletion
      left it: the race between deletion and completion is settled by the missing id. */
  lemma LateCompletionIsNoOp(s: State, id: Id, outcome: Outcome)
    ensures Complete(Delete(s, id).state, id, outcome) == Delete(s, id).state
  {
  }

  /** When ids are unique, `abort()` is called exactly when the job being deleted is
      pending and has a controller. */
  lemma DeleteAbortsPendingJob(s: State, id: Id)
    requires Distinct(Ids(s.extractions))
    ensures Delete(s, id).abortRequested <==>
      exists i :: 0 <= i < |s.extractions| && s.extractions[i].id == id &&
        s.extractions[i].status == Pending && s.extractions[i].hasAbortController
  {
    var f := Find(s.extractions, id);
    if f.Some? {
      var i :| FirstWith(s.extractions, id, i) && s.extractions[i] == f.value;
      forall k | 0 <= k < |s.extractions| && s.extractions[k].id == id
        ensures k == i
      {
        assert Ids(s.extractions)[k] == Ids(s.extractions)[i];
      }
    }
  }

  /** Deleting the active job moves the selection to the first job, in the original order,
      that does not carry the deleted id. */
  lemma DeleteActiveSelectsFirstSurvivor(s: State, id: Id, i: nat)
    requires s.activeTab == id
    requires i < |s.extractions| && s.extractions[i].id != id
    requires forall k :: 0 <= k < i ==> s.extractions[k].id == id
    ensures Delete(s, id).state.activeTab == s.extractions[i].id
  {
    WithoutFirstSurvivor(s.extractions, id, i);
  }

  lemma {:induction false} WithoutFirstSurvivor(jobs: seq<Extraction>, id: Id, i: nat)
    requires i < |jobs| && jobs[i].id != id
    requires forall k :: 0 <= k < i ==> jobs[k].id == id
    ensures |Without(jobs, id)| > 0 && Without(jobs, id)[0] == jobs[i]
    decreases |jobs|
  {
    var init := jobs[..|jobs| - 1];
    if i < |jobs| - 1 {
      WithoutFirstSurvivor(init, id, i);
    } else {
      assert forall j :: j in init ==> j.id == id;
      assert Without(init, id) == [];
    }
  }

  /** Keeping a subsequence of the jobs keeps a subsequence of their ids. */
  lemma {:induction false} SubseqIds(a: seq<Extraction>, b: seq<Extraction>)
    requires Subseq(a, b)
    ensures Subseq(Ids(a), Ids(b))
    decreases |b|
  {
    if |b| > 0 {
      assert Ids(b)[..|b| - 1] == Ids(b[..|b| - 1]);
      if Subseq(a, b[..|b| - 1]) {
        SubseqIds(a, b[..|b| - 1]);
      } else {
        SubseqIds(a[..|a| - 1], b[..|b| - 1]);
        assert Ids(a)[..|a| - 1] == Ids(a[..|a| - 1]);
      }
    }
  }
}
