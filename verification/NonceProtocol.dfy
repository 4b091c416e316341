/**
  The life of the nonces of one network and agent: processes that take the
  writer lock, read the mark and seed their counter before any thread mints;
  threads that race on the counter and then take turns at the mark; writes
  that fail, processes that die, and clocks that say anything.
*/
module NonceProtocol {
  import opened Wrappers
  import opened Nonce

  type Pid = nat
  type Tid = nat

  /** Where a thread is in `next_nonce`. */
  datatype Thread =
    | Idle
    | Timed(now: U64)
    | Loaded(now: U64, last: U64)
    | Minted(nonce: U64)
    | Holding(nonce: U64)
    | Persisted(nonce: U64)

  /** Start-up runs lock, then mark, then seed; minting comes after. */
  datatype Process =
    | Started
    | Locked
    | MarkRead(mark: U64)
    | Serving(last: U64, current: U64, threads: map<Tid, Thread>)

  datatype State = State(mark: U64, lock: Option<Pid>, procs: map<Pid, Process>, issued: seq<U64>)

  const INITIAL := State(0, None, map[], [])

  datatype Event =
    | Start(p: Pid)
    | Acquire(p: Pid)
    | ReadMark(p: Pid)
    | Seed(p: Pid, now: U64)
    | Die(p: Pid)
    | ReadClock(p: Pid, t: Tid, now: U64)
    | LoadLast(p: Pid, t: Tid)
    | Exchange(p: Pid, t: Tid)
    | TakeTurn(p: Pid, t: Tid)
    | Rename(p: Pid, t: Tid)
    | FailToPersist(p: Pid, t: Tid)
    | Return(p: Pid, t: Tid)

  function ThreadOf(proc: Process, t: Tid): Thread
    requires proc.Serving?
  {
    if t in proc.threads then proc.threads[t] else Idle
  }

  predicate HasTurn(thread: Thread) {
    thread.Holding? || thread.Persisted?
  }

  /** The mutex around the mark is free. */
  predicate TurnFree(proc: Process)
    requires proc.Serving?
  {
    forall t :: t in proc.threads ==> !HasTurn(proc.threads[t])
  }

  predicate Enabled(st: State, e: Event) {
    if e.Start? then
      e.p !in st.procs
    else
      e.p in st.procs &&
      var proc := st.procs[e.p];
      match e
      case Acquire(_) => proc.Started? && st.lock.None?
      case ReadMark(_) => proc.Locked?
      case Seed(_, _) => proc.MarkRead?
      case Die(_) => true
      case ReadClock(_, t, _) => proc.Serving? && ThreadOf(proc, t).Idle?
      case LoadLast(_, t) => proc.Serving? && ThreadOf(proc, t).Timed?
      case Exchange(_, t) => proc.Serving? && ThreadOf(proc, t).Loaded?
      case TakeTurn(_, t) => proc.Serving? && ThreadOf(proc, t).Minted? && TurnFree(proc)
      case Rename(_, t) => proc.Serving? && ThreadOf(proc, t).Holding? && ThreadOf(proc, t).nonce > proc.current
      case FailToPersist(_, t) => proc.Serving? && ThreadOf(proc, t).Holding? && ThreadOf(proc, t).nonce > proc.current
      case Return(_, t) =>
        proc.Serving? &&
        (ThreadOf(proc, t).Persisted? || (ThreadOf(proc, t).Holding? && ThreadOf(proc, t).nonce <= proc.current))
  }

  function WithProc(st: State, p: Pid, proc: Process): State {
    st.(procs := st.procs[p := proc])
  }

  function WithThread(st: State, p: Pid, t: Tid, thread: Thread): State
    requires p in st.procs && st.procs[p].Serving?
  {
    WithProc(st, p, st.procs[p].(threads := st.procs[p].threads[t := thread]))
  }

  function Next(st: State, e: Event): State
    requires Enabled(st, e)
  {
    match e
    case Start(p) => WithProc(st, p, Started)
    case Acquire(p) => WithProc(st, p, Locked).(lock := Some(p))
    case ReadMark(p) => WithProc(st, p, MarkRead(st.mark))
    case Seed(p, now) => WithProc(st, p, Serving(SeedCounter(st.procs[p].mark, now), st.procs[p].mark, map[]))
    case Die(p) => st.(procs := st.procs - {p}, lock := if st.lock == Some(p) then None else st.lock)
    case ReadClock(p, t, now) => WithThread(st, p, t, Timed(now))
    case LoadLast(p, t) => WithThread(st, p, t, Loaded(ThreadOf(st.procs[p], t).now, st.procs[p].last))
    case Exchange(p, t) =>
      var Loaded(now, last) := ThreadOf(st.procs[p], t);
      if st.procs[p].last == last
      then
        var next := WithThread(st, p, t, Minted(Mint(last, now)));
        WithProc(next, p, next.procs[p].(last := Mint(last, now)))
      else WithThread(st, p, t, Timed(now))
    case TakeTurn(p, t) => WithThread(st, p, t, Holding(ThreadOf(st.procs[p], t).nonce))
    case Rename(p, t) =>
      var nonce := ThreadOf(st.procs[p], t).nonce;
      WithThread(st, p, t, Persisted(nonce)).(mark := nonce)
    case FailToPersist(p, t) => Handed(st, p, t)
    case Return(p, t) =>
      var thread := ThreadOf(st.procs[p], t);
      var next := Handed(st, p, t);
      if thread.Persisted? then WithProc(next, p, next.procs[p].(current := thread.nonce)) else next
  }

  /** The thread gives up its turn and returns its nonce. */
  function Handed(st: State, p: Pid, t: Tid): State
    requires p in st.procs && st.procs[p].Serving? && HasTurn(ThreadOf(st.procs[p], t))
  {
    WithThread(st, p, t, Idle).(issued := st.issued + [ThreadOf(st.procs[p], t).nonce])
  }

  /** Nothing is ruled out: clocks say anything, any write can fail, and any process can die at any step. */
  lemma AnythingCanGoWrong(st: State, p: Pid, t: Tid, now: U64)
    requires p in st.procs
    ensures Enabled(st, Die(p)) && p !in Next(st, Die(p)).procs && Next(st, Die(p)).mark == st.mark
    ensures st.procs[p].MarkRead? ==> Enabled(st, Seed(p, now))
    ensures st.procs[p].Serving? && ThreadOf(st.procs[p], t).Idle? ==>
      Enabled(st, ReadClock(p, t, now)) && ThreadOf(Next(st, ReadClock(p, t, now)).procs[p], t) == Timed(now)
    ensures Enabled(st, Rename(p, t)) ==>
      Enabled(st, FailToPersist(p, t)) && Next(st, FailToPersist(p, t)).mark == st.mark &&
      Next(st, FailToPersist(p, t)).issued == st.issued + [ThreadOf(st.procs[p], t).nonce]
  {
  }

  predicate IsRun(st: State, events: seq<Event>)
    decreases |events|, 0
  {
    events == [] ||
    (IsRun(st, events[..|events| - 1]) && Enabled(After(st, events[..|events| - 1]), events[|events| - 1]))
  }

  function After(st: State, events: seq<Event>): State
    requires IsRun(st, events)
    decreases |events|, 1
  {
    if events == [] then st else Next(After(st, events[..|events| - 1]), events[|events| - 1])
  }

  // ---- the two ways to be unlucky ----

  /** Some nonce already returned lies above the mark a process would start from. */
  predicate Exposed(st: State) {
    exists i :: 0 <= i < |st.issued| && st.issued[i] > st.mark
  }

  /** Taking the successor of the counter or of the mark would not wrap. */
  predicate NoWrap(st: State, e: Event) {
    (e.Seed? && Enabled(st, e) ==> st.procs[e.p].mark < U64_MAX) &&
    (e.Exchange? && Enabled(st, e) ==> st.procs[e.p].last < U64_MAX)
  }

  predicate Lucky(st: State, e: Event) {
    NoWrap(st, e) && (e.ReadMark? ==> !Exposed(st))
  }

  predicate LuckyRun(st: State, events: seq<Event>)
    requires IsRun(st, events)
  {
    events == [] ||
    (LuckyRun(st, events[..|events| - 1]) && Lucky(After(st, events[..|events| - 1]), events[|events| - 1]))
  }

  // ---- what every state keeps ----

  ghost predicate OneHolder(st: State) {
    && (forall p :: p in st.procs && !st.procs[p].Started? ==> st.lock == Some(p))
    && (st.lock.Some? ==> st.lock.value in st.procs && !st.procs[st.lock.value].Started?)
  }

  predicate HasNonce(thread: Thread) {
    thread.Minted? || HasTurn(thread)
  }

  /** Nonces on their way out are not above the counter, and no two threads carry the same. */
  ghost predicate PendingApart(proc: Process)
    requires proc.Serving?
  {
    && (forall t :: t in proc.threads && HasNonce(proc.threads[t]) ==> proc.threads[t].nonce <= proc.last)
    && (forall t, u ::
          t in proc.threads && u in proc.threads && t != u &&
          HasNonce(proc.threads[t]) && HasNonce(proc.threads[u]) ==>
          proc.threads[t].nonce != proc.threads[u].nonce)
  }

  /** One thread at a time writes the mark, and memory lags the file only while it does. */
  ghost predicate TurnsApart(proc: Process, mark: U64)
    requires proc.Serving?
  {
    && proc.current <= mark
    && (forall t, u :: t in proc.threads && u in proc.threads && t != u ==>
          !(HasTurn(proc.threads[t]) && HasTurn(proc.threads[u])))
    && ((forall t :: t in proc.threads ==> !proc.threads[t].Persisted?) ==> proc.current == mark)
    && (forall t :: t in proc.threads && proc.threads[t].Persisted? ==> proc.threads[t].nonce == mark)
  }

  /** Nothing returned so far is above the counter or still on its way out. */
  ghost predicate IssuedBelow(proc: Process, issued: seq<U64>)
    requires proc.Serving?
  {
    && (forall i :: 0 <= i < |issued| ==> issued[i] <= proc.last)
    && (forall i, t :: 0 <= i < |issued| && t in proc.threads && HasNonce(proc.threads[t]) ==>
          issued[i] != proc.threads[t].nonce)
  }

  /** What holds whatever the luck: one writer at a time, and memory that agrees with the file. */
  ghost predicate Orderly(st: State) {
    && OneHolder(st)
    && (forall p :: p in st.procs && st.procs[p].MarkRead? ==> st.procs[p].mark == st.mark)
    && (forall p :: p in st.procs && st.procs[p].Serving? ==> TurnsApart(st.procs[p], st.mark))
  }

  ghost predicate Apart(proc: Process, issued: seq<U64>)
    requires proc.Serving?
  {
    PendingApart(proc) && IssuedBelow(proc, issued)
  }

  ghost predicate Safe(st: State) {
    && Orderly(st)
    && NoDuplicates(st.issued)
    && (forall p :: p in st.procs && st.procs[p].MarkRead? ==> !Exposed(st))
    && (forall p :: p in st.procs && st.procs[p].Serving? ==> Apart(st.procs[p], st.issued))
  }

  predicate IsLifecycle(e: Event) {
    e.Start? || e.Acquire? || e.ReadMark? || e.Seed? || e.Die?
  }

  predicate HandsOut(e: Event) {
    e.FailToPersist? || e.Return?
  }

  // ---- the mark ----

  lemma LifecycleOrderly(st: State, e: Event)
    requires IsLifecycle(e) && Orderly(st) && Enabled(st, e)
    ensures Orderly(Next(st, e)) && Next(st, e).mark == st.mark
  {
  }

  /** A thread may take a free turn, or give one up once memory agrees with the file. */
  lemma TurnChanges(proc: Process, mark: U64, t: Tid, thread: Thread, mark': U64, current': U64)
    requires proc.Serving? && TurnsApart(proc, mark) && current' <= mark'
    requires HasTurn(thread) ==> HasTurn(ThreadOf(proc, t)) || TurnFree(proc)
    requires if thread.Persisted? then thread.nonce == mark' else current' == mark' || !HasTurn(ThreadOf(proc, t))
    requires mark' == mark || HasTurn(ThreadOf(proc, t))
    requires current' == proc.current || HasTurn(ThreadOf(proc, t))
    ensures TurnsApart(proc.(threads := proc.threads[t := thread], current := current'), mark')
  {
    var after := proc.threads[t := thread];
    assert t in after && after[t] == thread;
    if (forall u :: u in after ==> !after[u].Persisted?) && !HasTurn(ThreadOf(proc, t)) {
      forall u | u in proc.threads
        ensures !proc.threads[u].Persisted?
      {
        if u != t {
          assert after[u] == proc.threads[u];
        }
      }
    }
  }

  lemma TurnsStayApart(st: State, e: Event)
    requires !IsLifecycle(e) && Orderly(st) && Enabled(st, e)
    ensures TurnsApart(Next(st, e).procs[e.p], Next(st, e).mark) && Next(st, e).mark >= st.mark
  {
    var proc, next := st.procs[e.p], Next(st, e);
    assert TurnsApart(proc, st.mark);
    TurnChanges(proc, st.mark, e.t, ThreadOf(next.procs[e.p], e.t), next.mark, next.procs[e.p].current);
  }

  lemma StepOrderly(st: State, e: Event)
    requires Orderly(st) && Enabled(st, e)
    ensures Orderly(Next(st, e)) && Next(st, e).mark >= st.mark
  {
    if IsLifecycle(e) {
      LifecycleOrderly(st, e);
    } else {
      TurnsStayApart(st, e);
      assert forall p :: p in st.procs && p != e.p ==> st.procs[p].Started?;
    }
  }

  /** A nonce is only returned above the mark when its write failed. */
  lemma StepCovers(st: State, e: Event)
    requires Orderly(st) && Enabled(st, e) && !Exposed(st) && !e.FailToPersist?
    ensures !Exposed(Next(st, e))
  {
    StepOrderly(st, e);
    if e.Return? {
      assert TurnsApart(st.procs[e.p], st.mark);
    }
  }

  predicate NoFailures(events: seq<Event>) {
    forall i :: 0 <= i < |events| ==> !events[i].FailToPersist?
  }

  /**
    The mark never falls, and one process at most is past the lock.  If no
    write fails the mark is at least every nonce returned, however out of
    order the threads reach it.
  */
  lemma {:induction false} MarkCoversEveryNonce(st: State, events: seq<Event>)
    requires Orderly(st) && IsRun(st, events)
    ensures Orderly(After(st, events)) && After(st, events).mark >= st.mark
    ensures !Exposed(st) && NoFailures(events) ==> !Exposed(After(st, events))
  {
    if events != [] {
      var init, last := events[..|events| - 1], events[|events| - 1];
      MarkCoversEveryNonce(st, init);
      StepOrderly(After(st, init), last);
      if !Exposed(st) && NoFailures(events) {
        StepCovers(After(st, init), last);
      }
    }
  }

  // ---- no nonce twice ----

  /** Start-up, before any thread runs, and death. */
  lemma LifecycleSafe(st: State, e: Event)
    requires IsLifecycle(e) && Safe(st) && Enabled(st, e) && Lucky(st, e)
    ensures Safe(Next(st, e))
  {
    LifecycleOrderly(st, e);
    var next := Next(st, e);
    forall p | p in next.procs && next.procs[p].Serving?
      ensures Apart(next.procs[p], next.issued)
    {
    }
  }

  /** A step that mints nothing and returns nothing keeps the nonces on their way out. */
  lemma QuietApart(st: State, e: Event)
    requires !IsLifecycle(e) && !e.Exchange? && !HandsOut(e) && Safe(st) && Enabled(st, e)
    ensures Apart(Next(st, e).procs[e.p], Next(st, e).issued)
  {
    var proc, next := st.procs[e.p], Next(st, e).procs[e.p];
    assert Apart(proc, st.issued);
    SameNonces(proc, st.issued, e.t, ThreadOf(next, e.t));
  }

  lemma SameNonces(proc: Process, issued: seq<U64>, t: Tid, thread: Thread)
    requires proc.Serving? && Apart(proc, issued)
    requires HasNonce(thread) ==> HasNonce(ThreadOf(proc, t)) && ThreadOf(proc, t).nonce == thread.nonce
    ensures Apart(proc.(threads := proc.threads[t := thread]), issued)
  {
  }

  lemma ExchangeApart(st: State, e: Event)
    requires e.Exchange? && Safe(st) && Enabled(st, e) && NoWrap(st, e)
    ensures Apart(Next(st, e).procs[e.p], Next(st, e).issued)
  {
    assert Apart(st.procs[e.p], st.issued);
  }

  lemma HandOutApart(st: State, e: Event)
    requires HandsOut(e) && Safe(st) && Enabled(st, e)
    ensures Apart(Next(st, e).procs[e.p], Next(st, e).issued) && NoDuplicates(Next(st, e).issued)
  {
    assert Apart(st.procs[e.p], st.issued);
  }

  lemma ThreadSafe(st: State, e: Event)
    requires !IsLifecycle(e) && Safe(st) && Enabled(st, e) && NoWrap(st, e)
    ensures Apart(Next(st, e).procs[e.p], Next(st, e).issued) && NoDuplicates(Next(st, e).issued)
  {
    if e.Exchange? {
      ExchangeApart(st, e);
    } else if HandsOut(e) {
      HandOutApart(st, e);
    } else {
      QuietApart(st, e);
    }
  }

  lemma StepSafe(st: State, e: Event)
    requires Safe(st) && Enabled(st, e) && Lucky(st, e)
    ensures Safe(Next(st, e))
  {
    if IsLifecycle(e) {
      LifecycleSafe(st, e);
    } else {
      StepOrderly(st, e);
      ThreadSafe(st, e);
      assert forall p :: p in st.procs && p != e.p ==> st.procs[p].Started?;
    }
  }

  lemma {:induction false} RunSafe(st: State, events: seq<Event>)
    requires Safe(st) && IsRun(st, events) && LuckyRun(st, events)
    ensures Safe(After(st, events))
  {
    if events != [] {
      RunSafe(st, events[..|events| - 1]);
      StepSafe(After(st, events[..|events| - 1]), events[|events| - 1]);
    }
  }

  /**
    No nonce is ever returned twice, whatever the interleaving, the deaths,
    the failed writes and the clocks, as long as no process reads a mark below
    a nonce already returned and the counter does not wrap.
  */
  lemma NoNonceReturnedTwice(events: seq<Event>)
    requires IsRun(INITIAL, events) && LuckyRun(INITIAL, events)
    ensures NoDuplicates(After(INITIAL, events).issued)
  {
    RunSafe(INITIAL, events);
  }

  // ---- exactly when a restart can repeat a nonce ----

  predicate NeverWraps(st: State, events: seq<Event>)
    requires IsRun(st, events)
  {
    events == [] ||
    (NeverWraps(st, events[..|events| - 1]) && NoWrap(After(st, events[..|events| - 1]), events[|events| - 1]))
  }

  lemma {:induction false} NoFailuresAreLucky(st: State, events: seq<Event>)
    requires Orderly(st) && !Exposed(st) && IsRun(st, events) && NoFailures(events) && NeverWraps(st, events)
    ensures LuckyRun(st, events)
  {
    if events != [] {
      NoFailuresAreLucky(st, events[..|events| - 1]);
      MarkCoversEveryNonce(st, events[..|events| - 1]);
    }
  }

  /** `events` can happen from `st`, without failed writes or wrapping, and end in `end`. */
  predicate Leads(st: State, events: seq<Event>, end: State) {
    IsRun(st, events) && NeverWraps(st, events) && After(st, events) == end
  }

  lemma Extend(st: State, events: seq<Event>, mid: State, e: Event)
    requires Leads(st, events, mid) && Enabled(mid, e) && NoWrap(mid, e)
    ensures Leads(st, events + [e], Next(mid, e))
  {
    assert (events + [e])[..|events|] == events;
  }

  /** The key's only process, past the lock, with one thread. */
  function Alone(st: State, last: U64, current: U64, thread: Thread): State {
    st.(lock := Some(0), procs := map[0 := Serving(last, current, map[0 := thread])])
  }

  /** A restart with its clock at zero serves from the mark, and a thread reads `n` on its clock. */
  lemma RestartAt(st: State, n: U64) returns (events: seq<Event>)
    requires st.procs == map[] && st.lock == None && st.mark < n
    ensures NoFailures(events) && Leads(st, events, Alone(st, st.mark, st.mark, Timed(n)))
  {
    var s1, s2 := Next(st, Start(0)), Next(Next(st, Start(0)), Acquire(0));
    var s3 := Next(s2, ReadMark(0));
    var s4 := Next(s3, Seed(0, 0));
    Extend(st, [], st, Start(0));
    Extend(st, [] + [Start(0)], s1, Acquire(0));
    Extend(st, [] + [Start(0)] + [Acquire(0)], s2, ReadMark(0));
    Extend(st, [] + [Start(0)] + [Acquire(0)] + [ReadMark(0)], s3, Seed(0, 0));
    events := [] + [Start(0)] + [Acquire(0)] + [ReadMark(0)] + [Seed(0, 0)];
    Extend(st, events, s4, ReadClock(0, 0, n));
    events := events + [ReadClock(0, 0, n)];
    assert Next(s4, ReadClock(0, 0, n)).procs == Alone(st, st.mark, st.mark, Timed(n)).procs;
  }

  lemma Loads(st: State, m: U64, n: U64)
    ensures var a := Alone(st, m, m, Timed(n));
      Enabled(a, LoadLast(0, 0)) && Next(a, LoadLast(0, 0)) == Alone(st, m, m, Loaded(n, m))
  {
    assert map[0 := Timed(n)][0 := Loaded(n, m)] == map[0 := Loaded(n, m)];
    assert Next(Alone(st, m, m, Timed(n)), LoadLast(0, 0)).procs == Alone(st, m, m, Loaded(n, m)).procs;
  }

  lemma Exchanges(st: State, m: U64, n: U64)
    requires m < n
    ensures var a := Alone(st, m, m, Loaded(n, m));
      Enabled(a, Exchange(0, 0)) && NoWrap(a, Exchange(0, 0)) && Next(a, Exchange(0, 0)) == Alone(st, n, m, Minted(n))
  {
    assert map[0 := Loaded(n, m)][0 := Minted(n)] == map[0 := Minted(n)];
    assert Next(Alone(st, m, m, Loaded(n, m)), Exchange(0, 0)).procs == Alone(st, n, m, Minted(n)).procs;
  }

  lemma Persists(st: State, m: U64, n: U64)
    requires m < n
    ensures var a := Alone(st, n, m, Minted(n));
      && Enabled(a, TakeTurn(0, 0)) && Next(a, TakeTurn(0, 0)) == Alone(st, n, m, Holding(n))
      && Enabled(Alone(st, n, m, Holding(n)), Rename(0, 0))
      && Next(Alone(st, n, m, Holding(n)), Rename(0, 0)) == Alone(st, n, m, Persisted(n)).(mark := n)
  {
    assert map[0 := Minted(n)][0 := Holding(n)] == map[0 := Holding(n)];
    assert map[0 := Holding(n)][0 := Persisted(n)] == map[0 := Persisted(n)];
    assert Next(Alone(st, n, m, Minted(n)), TakeTurn(0, 0)).procs == Alone(st, n, m, Holding(n)).procs;
    assert Next(Alone(st, n, m, Holding(n)), Rename(0, 0)).procs == Alone(st, n, m, Persisted(n)).procs;
  }

  /** From there it mints `n`, since that is above the mark. */
  lemma MintsAfterRestart(st: State, n: U64) returns (events: seq<Event>)
    requires st.procs == map[] && st.lock == None && st.mark < n
    ensures NoFailures(events) && Leads(st, events, Alone(st, n, st.mark, Minted(n)))
  {
    var m := st.mark;
    events := RestartAt(st, n);
    Loads(st, m, n);
    Extend(st, events, Alone(st, m, m, Timed(n)), LoadLast(0, 0));
    events := events + [LoadLast(0, 0)];
    Exchanges(st, m, n);
    Extend(st, events, Alone(st, m, m, Loaded(n, m)), Exchange(0, 0));
    events := events + [Exchange(0, 0)];
  }

  lemma ReplayOne(st: State, n: U64) returns (events: seq<Event>, end: State)
    requires st.procs == map[] && st.lock == None && st.mark < n
    ensures NoFailures(events) && Leads(st, events, end) && end.issued == st.issued + [n]
  {
    var m := st.mark;
    events := MintsAfterRestart(st, n);
    Persists(st, m, n);
    Extend(st, events, Alone(st, n, m, Minted(n)), TakeTurn(0, 0));
    events := events + [TakeTurn(0, 0)];
    Extend(st, events, Alone(st, n, m, Holding(n)), Rename(0, 0));
    events := events + [Rename(0, 0)];
    Extend(st, events, Alone(st, n, m, Persisted(n)).(mark := n), Return(0, 0));
    events := events + [Return(0, 0)];
    end := Next(Alone(st, n, m, Persisted(n)).(mark := n), Return(0, 0));
  }

  lemma ExposedRepeats(st: State)
    requires st.procs == map[] && st.lock == None && Exposed(st)
    ensures exists events ::
      IsRun(st, events) && NoFailures(events) && NeverWraps(st, events) && !NoDuplicates(After(st, events).issued)
  {
    var i :| 0 <= i < |st.issued| && st.issued[i] > st.mark;
    var events, end := ReplayOne(st, st.issued[i]);
    assert end.issued[i] == end.issued[|st.issued|];
  }

  /**
    With no process alive, a restart whose writes all succeed can return some
    nonce a second time if and only if the mark was left below a nonce
    already returned.
  */
  lemma RestartRepeatsExactlyWhenExposed(st: State)
    requires Safe(st) && st.procs == map[] && st.mark < U64_MAX
    ensures Exposed(st) <==>
      exists events ::
        IsRun(st, events) && NoFailures(events) && NeverWraps(st, events) && !NoDuplicates(After(st, events).issued)
  {
    if Exposed(st) {
      ExposedRepeats(st);
    } else {
      forall events | IsRun(st, events) && NoFailures(events) && NeverWraps(st, events)
        ensures NoDuplicates(After(st, events).issued)
      {
        NoFailuresAreLucky(st, events);
        RunSafe(st, events);
      }
    }
  }

  // ---- a later successful write need not be enough ----

  function Two(mark: U64, last: U64, t: Thread, u: Thread, issued: seq<U64>): State {
    State(mark, Some(0), map[0 := Serving(last, 0, map[0 := t, 1 := u])], issued)
  }

  lemma SecondMints()
    ensures var a := Alone(INITIAL, 5, 0, Minted(5));
      Enabled(a, ReadClock(0, 1, 7)) && Next(a, ReadClock(0, 1, 7)) == Two(0, 5, Minted(5), Timed(7), [])
    ensures var a := Two(0, 5, Minted(5), Timed(7), []);
      Enabled(a, LoadLast(0, 1)) && Next(a, LoadLast(0, 1)) == Two(0, 5, Minted(5), Loaded(7, 5), [])
    ensures var a := Two(0, 5, Minted(5), Loaded(7, 5), []);
      Enabled(a, Exchange(0, 1)) && Next(a, Exchange(0, 1)) == Two(0, 7, Minted(5), Minted(7), [])
  {
    var t := Minted(5);
    assert map[0 := t][1 := Timed(7)] == map[0 := t, 1 := Timed(7)];
    assert map[0 := t, 1 := Timed(7)][1 := Loaded(7, 5)] == map[0 := t, 1 := Loaded(7, 5)];
    assert map[0 := t, 1 := Loaded(7, 5)][1 := Minted(7)] == map[0 := t, 1 := Minted(7)];
    assert Next(Alone(INITIAL, 5, 0, t), ReadClock(0, 1, 7)).procs == Two(0, 5, t, Timed(7), []).procs;
    assert Next(Two(0, 5, t, Timed(7), []), LoadLast(0, 1)).procs == Two(0, 5, t, Loaded(7, 5), []).procs;
    assert Next(Two(0, 5, t, Loaded(7, 5), []), Exchange(0, 1)).procs == Two(0, 7, t, Minted(7), []).procs;
  }

  lemma SecondFails()
    ensures var a := Two(0, 7, Minted(5), Minted(7), []);
      Enabled(a, TakeTurn(0, 1)) && Next(a, TakeTurn(0, 1)) == Two(0, 7, Minted(5), Holding(7), [])
    ensures var a := Two(0, 7, Minted(5), Holding(7), []);
      Enabled(a, FailToPersist(0, 1)) && Next(a, FailToPersist(0, 1)) == Two(0, 7, Minted(5), Idle, [7])
  {
    var t := Minted(5);
    assert map[0 := t, 1 := Minted(7)][1 := Holding(7)] == map[0 := t, 1 := Holding(7)];
    assert map[0 := t, 1 := Holding(7)][1 := Idle] == map[0 := t, 1 := Idle];
    assert Next(Two(0, 7, t, Minted(7), []), TakeTurn(0, 1)).procs == Two(0, 7, t, Holding(7), []).procs;
    assert Next(Two(0, 7, t, Holding(7), []), FailToPersist(0, 1)).procs == Two(0, 7, t, Idle, []).procs;
  }

  lemma FirstPersists()
    ensures var a := Two(0, 7, Minted(5), Idle, [7]);
      Enabled(a, TakeTurn(0, 0)) && Next(a, TakeTurn(0, 0)) == Two(0, 7, Holding(5), Idle, [7])
    ensures var a := Two(0, 7, Holding(5), Idle, [7]);
      Enabled(a, Rename(0, 0)) && Next(a, Rename(0, 0)) == Two(5, 7, Persisted(5), Idle, [7])
  {
    assert map[0 := Minted(5), 1 := Idle][0 := Holding(5)] == map[0 := Holding(5), 1 := Idle];
    assert map[0 := Holding(5), 1 := Idle][0 := Persisted(5)] == map[0 := Persisted(5), 1 := Idle];
    assert Next(Two(0, 7, Minted(5), Idle, [7]), TakeTurn(0, 0)).procs == Two(0, 7, Holding(5), Idle, [7]).procs;
    assert Next(Two(0, 7, Holding(5), Idle, [7]), Rename(0, 0)).procs == Two(5, 7, Persisted(5), Idle, [7]).procs;
  }

  lemma FirstReturnsAndDies()
    ensures var a := Two(5, 7, Persisted(5), Idle, [7]);
      Enabled(a, Return(0, 0)) && var b := Next(a, Return(0, 0));
      Enabled(b, Die(0)) && Next(b, Die(0)) == State(5, None, map[], [7, 5])
  {
    assert Next(Next(Two(5, 7, Persisted(5), Idle, [7]), Return(0, 0)), Die(0)).procs == map[];
  }

  /** Two threads mint 5 and 7; the write of 7 fails. */
  lemma FailedWrite() returns (events: seq<Event>)
    ensures Leads(INITIAL, events, Two(0, 7, Minted(5), Idle, [7])) && events != [] &&
      events[|events| - 1].FailToPersist?
  {
    events := MintsAfterRestart(INITIAL, 5);
    SecondMints();
    Extend(INITIAL, events, Alone(INITIAL, 5, 0, Minted(5)), ReadClock(0, 1, 7));
    events := events + [ReadClock(0, 1, 7)];
    Extend(INITIAL, events, Two(0, 5, Minted(5), Timed(7), []), LoadLast(0, 1));
    events := events + [LoadLast(0, 1)];
    Extend(INITIAL, events, Two(0, 5, Minted(5), Loaded(7, 5), []), Exchange(0, 1));
    events := events + [Exchange(0, 1)];
    SecondFails();
    Extend(INITIAL, events, Two(0, 7, Minted(5), Minted(7), []), TakeTurn(0, 1));
    events := events + [TakeTurn(0, 1)];
    Extend(INITIAL, events, Two(0, 7, Minted(5), Holding(7), []), FailToPersist(0, 1));
    events := events + [FailToPersist(0, 1)];
  }

  /**
    After a failed write, the next write that succeeds may be that of a lower
    nonce minted earlier: the restart is then still exposed, and can repeat
    the nonce whose write failed.
  */
  lemma LaterWriteIsNotEnough() returns (events: seq<Event>, failed: nat, written: nat)
    ensures failed < written < |events| && events[failed].FailToPersist? && events[written].Rename?
    ensures IsRun(INITIAL, events) && NeverWraps(INITIAL, events)
    ensures After(INITIAL, events) == State(5, None, map[], [7, 5]) && Exposed(After(INITIAL, events))
    ensures exists again ::
      IsRun(After(INITIAL, events), again) && NoFailures(again) && NeverWraps(After(INITIAL, events), again) &&
      !NoDuplicates(After(After(INITIAL, events), again).issued)
  {
    events := FailedWrite();
    failed, written := |events| - 1, |events| + 1;
    FirstPersists();
    FirstReturnsAndDies();
    Extend(INITIAL, events, Two(0, 7, Minted(5), Idle, [7]), TakeTurn(0, 0));
    Extend(INITIAL, events + [TakeTurn(0, 0)], Two(0, 7, Holding(5), Idle, [7]), Rename(0, 0));
    events := events + [TakeTurn(0, 0)] + [Rename(0, 0)];
    Extend(INITIAL, events, Two(5, 7, Persisted(5), Idle, [7]), Return(0, 0));
    Extend(INITIAL, events + [Return(0, 0)], Next(Two(5, 7, Persisted(5), Idle, [7]), Return(0, 0)), Die(0));
    events := events + [Return(0, 0)] + [Die(0)];
    var end := State(5, None, map[], [7, 5]);
    assert end.issued[0] > end.mark;
    ExposedRepeats(end);
  }
}
