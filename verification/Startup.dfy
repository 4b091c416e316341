/**
  Starting up live: take the writer lock of the network and agent, scan every
  run on disk, and only then start a new run, resume the incomplete one or
  abandon it.  Processes interleave freely and may die anywhere.
*/
module Startup {
  import opened Wrappers
  import opened JournalRecords
  import opened Replay
  import opened ReplayTheory

  type Pid = nat
  type RunId = nat

  /** A run's directory holds the records its journal reads as; none yet, or none readable, is `[]`. */
  datatype World = World(runs: map<RunId, seq<JournalRecord>>, locks: map<RunKey, Pid>, procs: map<Pid, Process>)

  datatype Stage =
    | Started
    | Locked
    | Scanning(todo: set<RunId>)
    | Cleared
    | Found(found: RunId)
    | Creating(creating: RunId)
    | Owning(owned: RunId)
    | Refused

  datatype Process = Process(key: RunKey, stage: Stage)

  const INITIAL := World(map[], map[], map[])

  datatype Event =
    | Start(p: Pid, key: RunKey)
    | Acquire(p: Pid)
    | ListRuns(p: Pid)
    | ReadRun(p: Pid, id: RunId)
    | FinishScan(p: Pid)
    | CreateRun(p: Pid, id: RunId)
    | WriteHeader(p: Pid, header: RunHeader)
    | OpenFound(p: Pid)
    | Append(p: Pid, rec: JournalRecord)
    | Die(p: Pid)

  /** The incomplete-run test of the scan. */
  predicate IsIncompleteFor(records: seq<JournalRecord>, key: RunKey) {
    ReplayJournal(records).Ok? && KeyOf(ReplayJournal(records).value.summary.header) == key &&
    ReplayJournal(records).value.summary.IsIncomplete()
  }

  // ---- one scan ----

  datatype Listed = Listed(id: RunId, records: seq<JournalRecord>)

  datatype ScanResult = NoneIncomplete | IncompleteRun(id: RunId) | ScanFailed(error: ReplayError)

  /** An accepted journal of this network and agent whose run is not complete. */
  predicate IsIncompleteRunOf(records: seq<JournalRecord>, network: string, agent: Option<string>) {
    ReplayJournal(records).Ok? &&
    var summary := ReplayJournal(records).value.summary;
    summary.header.network == network && summary.header.agent == agent && summary.IsIncomplete()
  }

  /** The scan gets past this run: it is accepted, and complete or of another network or agent. */
  predicate PassesOver(run: Listed, key: RunKey) {
    ReplayJournal(run.records).Ok? && !IsIncompleteRunOf(run.records, key.network, key.agent)
  }

  /** The scan stops here, with this result. */
  predicate StopsAt(run: Listed, key: RunKey, result: ScanResult) {
    match result
    case NoneIncomplete => false
    case IncompleteRun(id) => id == run.id && IsIncompleteRunOf(run.records, key.network, key.agent)
    case ScanFailed(error) => ReplayJournal(run.records) == Err(error)
  }

  /**
    The first run that is refused or incomplete decides: nothing past it is
    looked at, and a refused run is never skipped.
  */
  method FindIncompleteRun(listing: seq<Listed>, key: RunKey) returns (result: ScanResult)
    ensures result.NoneIncomplete? <==> forall i :: 0 <= i < |listing| ==> PassesOver(listing[i], key)
    ensures !result.NoneIncomplete? ==>
      exists n :: 0 <= n < |listing| && StopsAt(listing[n], key, result) &&
        forall i :: 0 <= i < n ==> PassesOver(listing[i], key)
  {
    for n := 0 to |listing|
      invariant forall i :: 0 <= i < n ==> PassesOver(listing[i], key)
    {
      var run := listing[n];
      var replay := ReplayJournal(run.records);
      if replay.Err? {
        assert StopsAt(run, key, ScanFailed(replay.error)) && !PassesOver(run, key);
        return ScanFailed(replay.error);
      }
      var summary := replay.value.summary;
      if KeyOf(summary.header) == key && summary.IsIncomplete() {
        assert StopsAt(run, key, IncompleteRun(run.id)) && !PassesOver(run, key);
        return IncompleteRun(run.id);
      }
    }
    return NoneIncomplete;
  }

  predicate Enabled(st: World, e: Event) {
    if e.Start? then
      e.p !in st.procs
    else
      e.p in st.procs &&
      var stage := st.procs[e.p].stage;
      match e
      case Acquire(_) => stage.Started? && st.procs[e.p].key !in st.locks
      case ListRuns(_) => stage.Locked?
      case ReadRun(_, id) => stage.Scanning? && id in stage.todo && id in st.runs
      case FinishScan(_) => stage.Scanning? && stage.todo == {}
      case CreateRun(_, id) => stage.Cleared? && id !in st.runs
      case WriteHeader(_, header) => stage.Creating? && KeyOf(header) == st.procs[e.p].key
      case OpenFound(_) => stage.Found?
      case Append(_, _) => stage.Owning? && stage.owned in st.runs
      case Die(_) => true
  }

  function WithStage(st: World, p: Pid, stage: Stage): World
    requires p in st.procs
  {
    st.(procs := st.procs[p := st.procs[p].(stage := stage)])
  }

  /** What reading one run does to the scan. */
  function AfterReading(key: RunKey, todo: set<RunId>, id: RunId, records: seq<JournalRecord>): Stage {
    if ReplayJournal(records).Err? then Refused
    else if IsIncompleteFor(records, key) then Found(id)
    else Scanning(todo - {id})
  }

  function Next(st: World, e: Event): World
    requires Enabled(st, e)
  {
    match e
    case Start(p, key) => st.(procs := st.procs[p := Process(key, Started)])
    case Acquire(p) => WithStage(st, p, Locked).(locks := st.locks[st.procs[p].key := p])
    case ListRuns(p) => WithStage(st, p, Scanning(st.runs.Keys))
    case ReadRun(p, id) => WithStage(st, p, AfterReading(st.procs[p].key, st.procs[p].stage.todo, id, st.runs[id]))
    case FinishScan(p) => WithStage(st, p, Cleared)
    case CreateRun(p, id) => WithStage(st, p, Creating(id)).(runs := st.runs[id := []])
    case WriteHeader(p, header) =>
      var id := st.procs[p].stage.creating;
      WithStage(st, p, Owning(id)).(runs := st.runs[id := [Header(header)]])
    case OpenFound(p) => WithStage(st, p, Owning(st.procs[p].stage.found))
    case Append(p, rec) =>
      var id := st.procs[p].stage.owned;
      st.(runs := st.runs[id := st.runs[id] + [rec]])
    case Die(p) =>
      var key := st.procs[p].key;
      World(st.runs, if key in st.locks && st.locks[key] == p then st.locks - {key} else st.locks, st.procs - {p})
  }

  predicate IsRun(st: World, events: seq<Event>)
    decreases |events|, 0
  {
    events == [] ||
    (IsRun(st, events[..|events| - 1]) && Enabled(After(st, events[..|events| - 1]), events[|events| - 1]))
  }

  function After(st: World, events: seq<Event>): World
    requires IsRun(st, events)
    decreases |events|, 1
  {
    if events == [] then st else Next(After(st, events[..|events| - 1]), events[|events| - 1])
  }

  // ---- what every state keeps ----

  /** Past the lock, a process holds its key's. */
  ghost predicate LocksHeld(st: World) {
    && (forall p :: p in st.procs && !st.procs[p].stage.Started? ==>
          st.procs[p].key in st.locks && st.locks[st.procs[p].key] == p)
    && (forall key :: key in st.locks ==>
          st.locks[key] in st.procs && st.procs[st.locks[key]].key == key && !st.procs[st.locks[key]].stage.Started?)
  }

  ghost predicate IncompleteIn(st: World, id: RunId, key: RunKey) {
    id in st.runs && IsIncompleteFor(st.runs[id], key)
  }

  /** The journal begins with a header of this key. */
  predicate BelongsTo(records: seq<JournalRecord>, key: RunKey) {
    records != [] && records[0].Header? && KeyOf(records[0].header) == key
  }

  /** What a process at this stage may count on. */
  ghost predicate StageKnows(st: World, proc: Process) {
    match proc.stage
    case Started => true
    case Locked => true
    case Refused => true
    case Scanning(todo) => todo <= st.runs.Keys && forall id :: IncompleteIn(st, id, proc.key) ==> id in todo
    case Cleared => forall id :: !IncompleteIn(st, id, proc.key)
    case Found(found) => IncompleteIn(st, found, proc.key)
    case Creating(creating) =>
      creating in st.runs && st.runs[creating] == [] && forall id :: !IncompleteIn(st, id, proc.key)
    case Owning(owned) =>
      owned in st.runs && BelongsTo(st.runs[owned], proc.key) &&
      forall id :: IncompleteIn(st, id, proc.key) ==> id == owned
  }

  ghost predicate AtMostOneIncomplete(st: World) {
    forall key, a, b :: IncompleteIn(st, a, key) && IncompleteIn(st, b, key) ==> a == b
  }

  ghost predicate CreatorsApart(st: World) {
    forall p, q ::
      p in st.procs && q in st.procs && p != q && st.procs[p].stage.Creating? && st.procs[q].stage.Creating? ==>
      st.procs[p].stage.creating != st.procs[q].stage.creating
  }

  ghost predicate Safe(st: World) {
    && LocksHeld(st) && AtMostOneIncomplete(st) && CreatorsApart(st)
    && forall p :: p in st.procs ==> StageKnows(st, st.procs[p])
  }

  lemma IncompleteByNetworkAndAgent(records: seq<JournalRecord>, key: RunKey)
    ensures IsIncompleteFor(records, key) <==> IsIncompleteRunOf(records, key.network, key.agent)
  {
  }

  /** A journal's key is in its first record. */
  lemma IncompleteBelongs(records: seq<JournalRecord>, key: RunKey)
    requires IsIncompleteFor(records, key)
    ensures BelongsTo(records, key)
  {
    HeaderIsFrozen(records, 1);
    LastStep(records[..1]);
    assert records[..1][..0] == [];
  }

  lemma NeverIncompleteFor(records: seq<JournalRecord>, key: RunKey)
    requires records == [] || !BelongsTo(records, key)
    ensures !IsIncompleteFor(records, key)
  {
    if IsIncompleteFor(records, key) {
      IncompleteBelongs(records, key);
    }
  }

  lemma OneProcessPerKey(st: World, p: Pid, q: Pid)
    requires LocksHeld(st) && p in st.procs && q in st.procs && p != q
    requires !st.procs[p].stage.Started? && !st.procs[q].stage.Started?
    ensures st.procs[p].key != st.procs[q].key
  {
  }

  predicate Writes(e: Event) {
    e.CreateRun? || e.WriteHeader? || e.Append?
  }

  lemma StageKeepsLocks(st: World, p: Pid, stage: Stage)
    requires LocksHeld(st) && p in st.procs && !st.procs[p].stage.Started? && !stage.Started?
    ensures LocksHeld(WithStage(st, p, stage))
  {
  }

  lemma NewLock(st: World, p: Pid)
    requires LocksHeld(st) && Enabled(st, Acquire(p))
    ensures LocksHeld(Next(st, Acquire(p)))
  {
  }

  lemma DeathFreesOneLock(st: World, p: Pid)
    requires LocksHeld(st) && p in st.procs
    ensures LocksHeld(Next(st, Die(p)))
  {
  }

  lemma NewProcess(st: World, p: Pid, key: RunKey)
    requires LocksHeld(st) && p !in st.procs
    ensures LocksHeld(Next(st, Start(p, key)))
  {
  }

  /** The lock is taken before anything is read and given up only by dying. */
  lemma LocksStayHeld(st: World, e: Event)
    requires LocksHeld(st) && Enabled(st, e)
    ensures LocksHeld(Next(st, e))
  {
    if e.Die? {
      DeathFreesOneLock(st, e.p);
    } else if e.Acquire? {
      NewLock(st, e.p);
    } else if e.Start? {
      NewProcess(st, e.p, e.key);
    } else {
      StageKeepsLocks(st, e.p, Next(st, e).procs[e.p].stage);
      assert Next(st, e).procs == WithStage(st, e.p, Next(st, e).procs[e.p].stage).procs;
    }
  }

  lemma OpenerKnows(st: World, p: Pid)
    requires Safe(st) && Enabled(st, OpenFound(p))
    ensures StageKnows(Next(st, OpenFound(p)), Next(st, OpenFound(p)).procs[p])
  {
    var key, found := st.procs[p].key, st.procs[p].stage.found;
    assert StageKnows(st, st.procs[p]);
    IncompleteBelongs(st.runs[found], key);
    forall id | IncompleteIn(Next(st, OpenFound(p)), id, key)
      ensures id == found
    {
      assert IncompleteIn(st, id, key) && IncompleteIn(st, found, key);
    }
  }

  lemma ReaderKnows(st: World, e: Event)
    requires Safe(st) && Enabled(st, e) && !Writes(e) && !e.Die? && !e.OpenFound?
    ensures StageKnows(Next(st, e), Next(st, e).procs[e.p])
  {
    var next := Next(st, e);
    if !e.Start? {
      assert StageKnows(st, st.procs[e.p]);
    }
    forall id
      ensures IncompleteIn(next, id, next.procs[e.p].key) <==> IncompleteIn(st, id, next.procs[e.p].key)
    {
    }
  }

  lemma SameRunsSameKnowledge(st: World, next: World, proc: Process)
    requires next.runs == st.runs && StageKnows(st, proc)
    ensures StageKnows(next, proc)
  {
    assert forall id :: IncompleteIn(next, id, proc.key) <==> IncompleteIn(st, id, proc.key);
  }

  lemma SameRunsOneIncomplete(st: World, next: World)
    requires next.runs == st.runs && AtMostOneIncomplete(st)
    ensures AtMostOneIncomplete(next)
  {
    assert forall id, key :: IncompleteIn(next, id, key) <==> IncompleteIn(st, id, key);
  }

  lemma EveryoneKnows(st: World, e: Event, p: Pid)
    requires Safe(st) && Enabled(st, e) && !Writes(e) && p in Next(st, e).procs
    ensures StageKnows(Next(st, e), Next(st, e).procs[p])
  {
    if p != e.p {
      SameRunsSameKnowledge(st, Next(st, e), st.procs[p]);
    } else if e.OpenFound? {
      OpenerKnows(st, p);
    } else {
      ReaderKnows(st, e);
    }
  }

  lemma ReadKeepsCreatorsApart(st: World, e: Event)
    requires CreatorsApart(st) && Enabled(st, e) && !Writes(e)
    ensures CreatorsApart(Next(st, e))
  {
  }

  lemma ReadSafe(st: World, e: Event)
    requires Safe(st) && Enabled(st, e) && !Writes(e)
    ensures Safe(Next(st, e))
  {
    LocksStayHeld(st, e);
    SameRunsOneIncomplete(st, Next(st, e));
    ReadKeepsCreatorsApart(st, e);
    forall p | p in Next(st, e).procs
      ensures StageKnows(Next(st, e), Next(st, e).procs[p])
    {
      EveryoneKnows(st, e, p);
    }
  }

  /** The run a writing process changes, and what it becomes. */
  function Target(st: World, e: Event): RunId
    requires Writes(e) && Enabled(st, e)
  {
    match e
    case CreateRun(_, id) => id
    case WriteHeader(p, _) => st.procs[p].stage.creating
    case Append(p, _) => st.procs[p].stage.owned
  }

  /** A write touches one run, of the writer's key or of none yet. */
  lemma WriteStaysInKey(st: World, e: Event)
    requires Safe(st) && Enabled(st, e) && Writes(e)
    ensures var id, next := Target(st, e), Next(st, e);
      && id in next.runs && (forall r :: r != id ==> (r in next.runs <==> r in st.runs))
      && (forall r :: r in st.runs && r != id ==> next.runs[r] == st.runs[r])
      && (next.runs[id] == [] || BelongsTo(next.runs[id], st.procs[e.p].key))
      && (id in st.runs ==> st.runs[id] == [] || BelongsTo(st.runs[id], st.procs[e.p].key))
  {
    assert StageKnows(st, st.procs[e.p]);
  }

  lemma WriteAndOthers(st: World, e: Event, r: RunId, other: RunKey)
    requires Safe(st) && Enabled(st, e) && Writes(e) && other != st.procs[e.p].key
    ensures IncompleteIn(Next(st, e), r, other) <==> IncompleteIn(st, r, other)
  {
    WriteStaysInKey(st, e);
    var id, next := Target(st, e), Next(st, e);
    if r == id {
      NeverIncompleteFor(next.runs[id], other);
      if id in st.runs {
        NeverIncompleteFor(st.runs[id], other);
      }
    }
  }

  /** The writer's own key has no incomplete run but the one it writes. */
  lemma WriteAndOwn(st: World, e: Event, r: RunId)
    requires Safe(st) && Enabled(st, e) && Writes(e) && IncompleteIn(Next(st, e), r, st.procs[e.p].key)
    ensures r == Target(st, e)
  {
    WriteStaysInKey(st, e);
    assert StageKnows(st, st.procs[e.p]);
    if r != Target(st, e) {
      assert IncompleteIn(st, r, st.procs[e.p].key);
    }
  }

  lemma WriterKnows(st: World, e: Event)
    requires Safe(st) && Enabled(st, e) && Writes(e)
    ensures StageKnows(Next(st, e), Next(st, e).procs[e.p])
  {
    WriteStaysInKey(st, e);
    var key, next := st.procs[e.p].key, Next(st, e);
    assert StageKnows(st, st.procs[e.p]);
    forall r | IncompleteIn(next, r, key)
      ensures r == Target(st, e)
    {
      WriteAndOwn(st, e, r);
    }
    if e.CreateRun? {
      NeverIncompleteFor([], key);
    }
  }

  lemma OthersStillKnow(st: World, e: Event, q: Pid)
    requires Safe(st) && Enabled(st, e) && Writes(e) && q in st.procs && q != e.p
    ensures StageKnows(Next(st, e), st.procs[q])
  {
    var proc := st.procs[q];
    if !proc.stage.Started? {
      OneProcessPerKey(st, e.p, q);
      WriteStaysInKey(st, e);
      assert StageKnows(st, proc);
      forall r
        ensures IncompleteIn(Next(st, e), r, proc.key) <==> IncompleteIn(st, r, proc.key)
      {
        WriteAndOthers(st, e, r, proc.key);
      }
    }
  }

  lemma WriteKeepsCreatorsApart(st: World, e: Event)
    requires Safe(st) && Enabled(st, e) && Writes(e)
    ensures CreatorsApart(Next(st, e))
  {
    forall p | p in st.procs && st.procs[p].stage.Creating?
      ensures st.procs[p].stage.creating in st.runs
    {
      assert StageKnows(st, st.procs[p]);
    }
  }

  lemma WriteKeepsOneIncomplete(st: World, e: Event)
    requires Safe(st) && Enabled(st, e) && Writes(e)
    ensures AtMostOneIncomplete(Next(st, e))
  {
    var next, key := Next(st, e), st.procs[e.p].key;
    forall k, a, b | IncompleteIn(next, a, k) && IncompleteIn(next, b, k)
      ensures a == b
    {
      if k == key {
        WriteAndOwn(st, e, a);
        WriteAndOwn(st, e, b);
      } else {
        WriteAndOthers(st, e, a, k);
        WriteAndOthers(st, e, b, k);
      }
    }
  }

  lemma WriteSafe(st: World, e: Event)
    requires Safe(st) && Enabled(st, e) && Writes(e)
    ensures Safe(Next(st, e))
  {
    var next := Next(st, e);
    LocksStayHeld(st, e);
    WriteKeepsCreatorsApart(st, e);
    WriteKeepsOneIncomplete(st, e);
    forall q | q in next.procs
      ensures StageKnows(next, next.procs[q])
    {
      if q == e.p {
        WriterKnows(st, e);
      } else {
        OthersStillKnow(st, e, q);
      }
    }
  }

  lemma StepSafe(st: World, e: Event)
    requires Safe(st) && Enabled(st, e)
    ensures Safe(Next(st, e))
  {
    if Writes(e) {
      WriteSafe(st, e);
    } else {
      ReadSafe(st, e);
    }
  }

  lemma {:induction false} AlwaysSafe(events: seq<Event>)
    requires IsRun(INITIAL, events)
    ensures Safe(After(INITIAL, events))
  {
    if events != [] {
      AlwaysSafe(events[..|events| - 1]);
      StepSafe(After(INITIAL, events[..|events| - 1]), events[|events| - 1]);
    }
  }

  /**
    In every reachable state, for every network and agent: at most one run on
    disk is incomplete, at most one process may create or write runs, and no
    run is written by two processes.
  */
  lemma AtMostOneIncompleteRun(events: seq<Event>)
    requires IsRun(INITIAL, events)
    ensures var st := After(INITIAL, events);
      && AtMostOneIncomplete(st)
      && (forall p, q ::
            p in st.procs && q in st.procs && p != q && st.procs[p].stage.Owning? && st.procs[q].stage.Owning? ==>
            st.procs[p].stage.owned != st.procs[q].stage.owned)
      && (forall p :: p in st.procs && (st.procs[p].stage.Cleared? || st.procs[p].stage.Creating?) ==>
            forall id :: !IncompleteIn(st, id, st.procs[p].key))
  {
    var st := After(INITIAL, events);
    AlwaysSafe(events);
    forall p, q | p in st.procs && q in st.procs && p != q && st.procs[p].stage.Owning? && st.procs[q].stage.Owning?
      ensures st.procs[p].stage.owned != st.procs[q].stage.owned
    {
      assert StageKnows(st, st.procs[p]) && StageKnows(st, st.procs[q]);
      OneProcessPerKey(st, p, q);
    }
    forall p | p in st.procs
      ensures StageKnows(st, st.procs[p])
    {
    }
  }

  /** In every reachable state, one incomplete run at most carries a given network and agent in its header. */
  lemma OneIncompletePerNetworkAndAgent(events: seq<Event>, a: RunId, b: RunId, network: string, agent: Option<string>)
    requires IsRun(INITIAL, events) && a in After(INITIAL, events).runs && b in After(INITIAL, events).runs
    requires IsIncompleteRunOf(After(INITIAL, events).runs[a], network, agent)
    requires IsIncompleteRunOf(After(INITIAL, events).runs[b], network, agent)
    ensures a == b
    ensures var first := After(INITIAL, events).runs[a];
      first != [] && first[0].Header? && first[0].header.network == network && first[0].header.agent == agent
  {
    var st, key := After(INITIAL, events), RunKey(network, agent);
    AlwaysSafe(events);
    IncompleteByNetworkAndAgent(st.runs[a], key);
    IncompleteByNetworkAndAgent(st.runs[b], key);
    assert IncompleteIn(st, a, key) && IncompleteIn(st, b, key);
    IncompleteBelongs(st.runs[a], key);
  }

  // ---- failing closed ----

  /** A refused journal that nobody is writing or about to write. */
  ghost predicate Blocked(st: World, bad: RunId) {
    && bad in st.runs && ReplayJournal(st.runs[bad]).Err?
    && forall p :: p in st.procs ==> LeavesAlone(st.procs[p].stage, bad)
  }

  predicate LeavesAlone(stage: Stage, bad: RunId) {
    stage != Found(bad) && stage != Creating(bad) && stage != Owning(bad)
  }

  /** Past this run in its scan, or done scanning: nothing stops it from creating a run. */
  predicate IsPast(stage: Stage, bad: RunId) {
    stage.Cleared? || (stage.Scanning? && bad !in stage.todo)
  }

  function PastIt(st: World, bad: RunId): set<Pid> {
    set p | p in st.procs && IsPast(st.procs[p].stage, bad)
  }

  lemma BlockedStays(st: World, bad: RunId, e: Event)
    requires Safe(st) && Blocked(st, bad) && Enabled(st, e)
    ensures Blocked(Next(st, e), bad)
  {
    var next := Next(st, e);
    if !e.Start? {
      assert LeavesAlone(st.procs[e.p].stage, bad) && StageKnows(st, st.procs[e.p]);
    }
    forall p | p in next.procs
      ensures LeavesAlone(next.procs[p].stage, bad)
    {
      if p in st.procs {
        assert LeavesAlone(st.procs[p].stage, bad);
      }
    }
  }

  /** Nobody gets past a refused run, and creating one is only for those who are. */
  lemma NobodyElseGetsPast(st: World, bad: RunId, e: Event)
    requires Safe(st) && Blocked(st, bad) && Enabled(st, e)
    ensures PastIt(Next(st, e), bad) <= PastIt(st, bad)
    ensures e.CreateRun? ==> e.p in PastIt(st, bad) && e.p !in PastIt(Next(st, e), bad)
  {
    forall p | p in PastIt(Next(st, e), bad)
      ensures p in PastIt(st, bad)
    {
      if p in st.procs {
        assert StageKnows(st, st.procs[p]);
      }
    }
  }

  lemma RunsGrowOnlyByCreating(st: World, e: Event)
    requires Safe(st) && Enabled(st, e)
    ensures Next(st, e).runs.Keys == st.runs.Keys + if e.CreateRun? then {e.id} else {}
  {
    if !e.Start? {
      assert StageKnows(st, st.procs[e.p]);
    }
  }

  lemma Fewer(a: set<Pid>, b: set<Pid>)
    requires a <= b
    ensures |a| <= |b|
  {
    if a != b {
      assert |b - a| + |a| == |b| by {
        assert b == (b - a) + a;
      }
    }
  }

  lemma BlockedStep(st: World, bad: RunId, e: Event)
    requires Safe(st) && Blocked(st, bad) && Enabled(st, e)
    ensures var next := Next(st, e);
      && Blocked(next, bad) && PastIt(next, bad) <= PastIt(st, bad) && st.runs.Keys <= next.runs.Keys
      && |next.runs.Keys| + |PastIt(next, bad)| <= |st.runs.Keys| + |PastIt(st, bad)|
  {
    var next := Next(st, e);
    BlockedStays(st, bad, e);
    NobodyElseGetsPast(st, bad, e);
    RunsGrowOnlyByCreating(st, e);
    if e.CreateRun? {
      Fewer(PastIt(next, bad), PastIt(st, bad) - {e.p});
    } else {
      Fewer(PastIt(next, bad), PastIt(st, bad));
    }
  }

  /**
    One refused journal stops new runs, for every network and agent and for
    good: from then on no more runs are created than there were processes
    already past it in their scan, one each, and the journal stays refused.
  */
  lemma {:induction false} RefusedJournalStopsNewRuns(st: World, bad: RunId, events: seq<Event>)
    requires Safe(st) && Blocked(st, bad) && IsRun(st, events)
    ensures var now := After(st, events);
      && Safe(now) && Blocked(now, bad) && PastIt(now, bad) <= PastIt(st, bad) && st.runs.Keys <= now.runs.Keys
      && |now.runs.Keys| + |PastIt(now, bad)| <= |st.runs.Keys| + |PastIt(st, bad)|
  {
    if events != [] {
      var init := events[..|events| - 1];
      RefusedJournalStopsNewRuns(st, bad, init);
      StepSafe(After(st, init), events[|events| - 1]);
      BlockedStep(After(st, init), bad, events[|events| - 1]);
    }
  }

  /**
    A process that dies between creating a run's directory and its header
    leaves such a journal, whatever the other processes are doing.
  */
  lemma DeathBeforeHeaderBlocks(st: World, p: Pid)
    requires Safe(st) && p in st.procs && st.procs[p].stage.Creating?
    ensures Blocked(Next(st, Die(p)), st.procs[p].stage.creating)
  {
    var bad, next := st.procs[p].stage.creating, Next(st, Die(p));
    assert StageKnows(st, st.procs[p]);
    forall q | q in next.procs
      ensures LeavesAlone(next.procs[q].stage, bad)
    {
      assert StageKnows(st, st.procs[q]);
      NeverIncompleteFor([], st.procs[q].key);
    }
  }

  /** From there on, with nobody past it at its death, there is never a new run. */
  lemma NoNewRunAfterDeath(events: seq<Event>, p: Pid, later: seq<Event>)
    requires IsRun(INITIAL, events) && p in After(INITIAL, events).procs &&
      After(INITIAL, events).procs[p].stage.Creating?
    requires IsRun(Next(After(INITIAL, events), Die(p)), later)
    requires PastIt(Next(After(INITIAL, events), Die(p)), After(INITIAL, events).procs[p].stage.creating) == {}
    ensures var died := Next(After(INITIAL, events), Die(p)); After(died, later).runs.Keys == died.runs.Keys
  {
    var st := After(INITIAL, events);
    var died, bad := Next(st, Die(p)), st.procs[p].stage.creating;
    AlwaysSafe(events);
    StepSafe(st, Die(p));
    DeathBeforeHeaderBlocks(st, p);
    RefusedJournalStopsNewRuns(died, bad, later);
    SameSize(died.runs.Keys, After(died, later).runs.Keys);
  }

  lemma SameSize(a: set<RunId>, b: set<RunId>)
    requires a <= b && |b| <= |a|
    ensures a == b
  {
    assert b == a + (b - a) && |b| == |a| + |b - a|;
  }
}
