/**
  When a restart is at risk, told from the events a log shows: which nonces
  were renamed into the mark file, which were handed out although their write
  failed, and in what order.
*/
module NonceLog {
  import opened Wrappers
  import opened Nonce
  import opened NonceProtocol

  predicate Writes(e: Event) {
    e.Rename? || e.FailToPersist?
  }

  /** The nonce a write is about. */
  function Carried(st: State, e: Event): U64
    requires Writes(e) && Enabled(st, e)
  {
    ThreadOf(st.procs[e.p], e.t).nonce
  }

  function RenamedNonces(st: State, events: seq<Event>): set<U64>
    requires IsRun(st, events)
  {
    if events == [] then {}
    else
      var init, e := events[..|events| - 1], events[|events| - 1];
      RenamedNonces(st, init) + if e.Rename? then {Carried(After(st, init), e)} else {}
  }

  function FailedNonces(st: State, events: seq<Event>): set<U64>
    requires IsRun(st, events)
  {
    if events == [] then {}
    else
      var init, e := events[..|events| - 1], events[|events| - 1];
      FailedNonces(st, init) + if e.FailToPersist? then {Carried(After(st, init), e)} else {}
  }

  // ---- exposed, by the log ----

  /** What a state owes to the writes before it. */
  ghost predicate Accounted(st: State, renamed: set<U64>, failed: set<U64>) {
    && (forall r :: r in renamed ==> r <= st.mark)
    && (st.mark == 0 || st.mark in renamed)
    && (forall f :: f in failed ==> f > 0 && f in st.issued)
    && (forall n :: n in st.issued ==> n <= st.mark || n in failed)
  }

  lemma StepAccounted(st: State, e: Event, renamed: set<U64>, failed: set<U64>)
    requires Orderly(st) && Enabled(st, e) && Accounted(st, renamed, failed)
    ensures Accounted(
      Next(st, e), renamed + (if e.Rename? then {Carried(st, e)} else {}),
      failed + (if e.FailToPersist? then {Carried(st, e)} else {}))
  {
    StepOrderly(st, e);
    if !IsLifecycle(e) {
      assert TurnsApart(st.procs[e.p], st.mark);
    }
  }

  lemma {:induction false} RunAccounted(events: seq<Event>)
    requires IsRun(INITIAL, events)
    ensures Accounted(After(INITIAL, events), RenamedNonces(INITIAL, events), FailedNonces(INITIAL, events))
  {
    if events != [] {
      var init := events[..|events| - 1];
      RunAccounted(init);
      MarkCoversEveryNonce(INITIAL, init);
      StepAccounted(
        After(INITIAL, init), events[|events| - 1], RenamedNonces(INITIAL, init), FailedNonces(INITIAL, init));
    }
  }

  /** Some nonce whose write failed is above every nonce ever renamed. */
  ghost predicate FailedOnTop(renamed: set<U64>, failed: set<U64>) {
    exists f :: f in failed && forall r :: r in renamed ==> r < f
  }

  lemma AccountedExposure(st: State, renamed: set<U64>, failed: set<U64>)
    requires Accounted(st, renamed, failed)
    ensures Exposed(st) <==> FailedOnTop(renamed, failed)
  {
    if Exposed(st) {
      var i :| 0 <= i < |st.issued| && st.issued[i] > st.mark;
      assert st.issued[i] in st.issued;
    }
    if f :| f in failed && forall r :: r in renamed ==> r < f {
      assert f > st.mark;
      assert f in st.issued;
    }
  }

  /**
    In every reachable state, a restart is at risk exactly when some nonce
    whose write failed is above every nonce ever renamed into the file.
  */
  lemma ExposedExactlyByTheLog(events: seq<Event>)
    requires IsRun(INITIAL, events)
    ensures Exposed(After(INITIAL, events)) <==>
      FailedOnTop(RenamedNonces(INITIAL, events), FailedNonces(INITIAL, events))
  {
    RunAccounted(events);
    AccountedExposure(After(INITIAL, events), RenamedNonces(INITIAL, events), FailedNonces(INITIAL, events));
  }

  // ---- one thread per process ----

  predicate SingleThreaded(events: seq<Event>) {
    forall i :: 0 <= i < |events| ==> IsLifecycle(events[i]) || events[i].t == 0
  }

  /** A write has failed and none has succeeded since. */
  predicate WritePending(events: seq<Event>) {
    events != [] &&
    var e := events[|events| - 1];
    e.FailToPersist? || (!e.Rename? && WritePending(events[..|events| - 1]))
  }

  /** No process starts from the mark before the next successful write. */
  predicate HeedsTheMessage(events: seq<Event>) {
    events == [] ||
    (HeedsTheMessage(events[..|events| - 1]) &&
     (events[|events| - 1].ReadMark? ==> !WritePending(events[..|events| - 1])))
  }

  /** A lone thread's nonce is its process's latest. */
  ghost predicate LoneThread(proc: Process)
    requires proc.Serving?
  {
    (forall t :: t in proc.threads ==> t == 0) && (HasNonce(ThreadOf(proc, 0)) ==> ThreadOf(proc, 0).nonce == proc.last)
  }

  ghost predicate AllLone(st: State) {
    forall p :: p in st.procs && st.procs[p].Serving? ==> LoneThread(st.procs[p])
  }

  lemma StepLone(st: State, e: Event)
    requires AllLone(st) && Enabled(st, e) && (IsLifecycle(e) || e.t == 0)
    ensures AllLone(Next(st, e))
  {
    if !IsLifecycle(e) {
      assert LoneThread(st.procs[e.p]);
    }
  }

  /** A lone thread's rename covers everything returned before it. */
  lemma LoneRenameCovers(st: State, e: Event)
    requires Safe(st) && AllLone(st) && Enabled(st, e) && e.Rename? && e.t == 0
    ensures !Exposed(Next(st, e))
  {
    assert LoneThread(st.procs[e.p]) && Apart(st.procs[e.p], st.issued);
  }

  lemma FailureExposes(st: State, e: Event)
    requires Orderly(st) && Enabled(st, e) && e.FailToPersist?
    ensures Exposed(Next(st, e))
  {
    assert TurnsApart(st.procs[e.p], st.mark);
    var issued := Next(st, e).issued;
    assert issued[|issued| - 1] > st.mark;
  }

  lemma StaysExposed(st: State, e: Event)
    requires Orderly(st) && Enabled(st, e) && !e.Rename? && Exposed(st)
    ensures Exposed(Next(st, e))
  {
    var i :| 0 <= i < |st.issued| && st.issued[i] > st.mark;
    assert Next(st, e).issued[i] == st.issued[i];
  }

  /**
    With one thread per process the message logged for a failed write is
    exact: a restart is at risk precisely until the next write that succeeds,
    and if none starts in between, no nonce is ever returned twice.
  */
  lemma {:induction false} NextWriteIsEnoughForOneThread(events: seq<Event>)
    requires IsRun(INITIAL, events) && SingleThreaded(events) && HeedsTheMessage(events) && NeverWraps(INITIAL, events)
    ensures Exposed(After(INITIAL, events)) <==> WritePending(events)
    ensures NoDuplicates(After(INITIAL, events).issued)
    ensures Safe(After(INITIAL, events)) && AllLone(After(INITIAL, events))
  {
    if events != [] {
      var init, e := events[..|events| - 1], events[|events| - 1];
      NextWriteIsEnoughForOneThread(init);
      var st := After(INITIAL, init);
      StepSafe(st, e);
      StepLone(st, e);
      if e.Rename? {
        LoneRenameCovers(st, e);
      } else if e.FailToPersist? {
        FailureExposes(st, e);
      } else if Exposed(st) {
        StaysExposed(st, e);
      } else {
        StepCovers(st, e);
      }
    }
  }
}
