/**
 The request scheduler of the language server. `Scheduler` gives its operations as if each ran alone.
 The second half is the real protocol: every lock region is a step of its own, any number of threads
 interleave, and a read guard on `executing` blocks its writers.
 */
module SchedulerModel {
  import opened Wrappers

  datatype RequestKind =
    | Completion | Hover | GotoDefinition | GotoImplementation | SignatureHelp | DocumentSymbol
    | CallHierarchy | References | InlayHint | CodeAction | CodeLens | FoldingRange
    | CompletionResolve | InlayHintResolve | CodeActionResolve | SemanticTokensFull | Other

  function Priority(kind: RequestKind): nat {
    match kind
    case Completion => 0
    case Hover => 5
    case GotoDefinition => 10
    case GotoImplementation => 15
    case SignatureHelp => 20
    case DocumentSymbol => 25
    case CallHierarchy => 30
    case References => 35
    case InlayHint => 40
    case CodeAction => 45
    case CodeLens => 50
    case FoldingRange => 55
    case CompletionResolve => 60
    case InlayHintResolve => 65
    case CodeActionResolve => 70
    case SemanticTokensFull => 75
    case Other => 255
  }

  /** The kinds of requests from the most urgent on. */
  const URGENCY: seq<RequestKind> := [
    Completion, Hover, GotoDefinition, GotoImplementation, SignatureHelp, DocumentSymbol,
    CallHierarchy, References, InlayHint, CodeAction, CodeLens, FoldingRange,
    CompletionResolve, InlayHintResolve, CodeActionResolve, SemanticTokensFull, Other]

  /** Every kind has its rank, no two kinds share one, and a smaller priority means more urgent. */
  lemma PriorityFollowsUrgency(i: nat, j: nat, kind: RequestKind)
    requires i < |URGENCY| && j < |URGENCY|
    ensures Priority(URGENCY[i]) < Priority(URGENCY[j]) <==> i < j
    ensures kind in URGENCY && Priority(kind) < 256
  {
    assert forall k {:trigger URGENCY[k]} :: 0 <= k < 16 ==> Priority(URGENCY[k]) == 5 * k;
    var n := match kind case Other => 16 case _ => Priority(kind) / 5;
    assert URGENCY[n] == kind;
  }

  datatype Task = Task(kind: RequestKind, id: int)

  const MAX_WORKERS: nat := 10

  /** The position of the first task with a given id. */
  function Position(tasks: seq<Task>, id: int): (r: Option<nat>)
    ensures r.Some? ==> r.value < |tasks| && tasks[r.value].id == id
    ensures r.Some? ==> forall i :: 0 <= i < r.value ==> tasks[i].id != id
    ensures r.None? <==> forall i :: 0 <= i < |tasks| ==> tasks[i].id != id
  {
    if tasks == [] then None
    else if tasks[0].id == id then Some(0)
    else match Position(tasks[1..], id)
      case None => assert forall i :: 1 <= i < |tasks| ==> tasks[i] == tasks[1..][i - 1]; None
      case Some(i) => Some(i + 1)
  }

  function RemoveAt(tasks: seq<Task>, i: nat): (r: seq<Task>)
    requires i < |tasks|
    ensures |r| == |tasks| - 1 && multiset(r) == multiset(tasks) - multiset{tasks[i]}
  {
    assert tasks == tasks[..i] + [tasks[i]] + tasks[i + 1..];
    tasks[..i] + tasks[i + 1..]
  }

  predicate LeastPriority(tasks: seq<Task>, task: Task) {
    forall t :: t in tasks ==> Priority(t.kind) >= Priority(task.kind)
  }

  datatype Acquired = Granted(task: Task) | Cancelled | MustWait

  class Scheduler {
    var pending: seq<Task>
    var executing: seq<Task>

    ghost predicate Valid()
      reads this
    {
      |executing| <= MAX_WORKERS
    }

    constructor ()
      ensures Valid() && pending == [] && executing == []
    {
      pending, executing := [], [];
    }

    method Register(id: int, kind: RequestKind)
      requires Valid()
      modifies this
      ensures Valid()
      ensures old(|executing|) < MAX_WORKERS ==> executing == old(executing) + [Task(kind, id)] && pending == old(pending)
      ensures old(|executing|) == MAX_WORKERS ==> pending == old(pending) + [Task(kind, id)] && executing == old(executing)
    {
      if |executing| < MAX_WORKERS {
        executing := executing + [Task(kind, id)];
      } else {
        pending := pending + [Task(kind, id)];
      }
    }

    /** One attempt: a pending task is admitted only into a free place and only if none pending is more urgent. */
    method Acquire(id: int) returns (r: Acquired)
      requires Valid()
      modifies this
      ensures Valid()
      ensures r.Cancelled? <==> Position(old(executing), id).None? && Position(old(pending), id).None?
      ensures !r.Granted? ==> executing == old(executing) && pending == old(pending)
      ensures r.Granted? ==> r.task.id == id && r.task in executing
      ensures r.Granted? ==> multiset(pending) + multiset(executing) == old(multiset(pending) + multiset(executing))
      ensures r.Granted? && executing != old(executing) ==>
                executing == old(executing) + [r.task] && LeastPriority(old(pending), r.task)
      ensures r.MustWait? ==> Position(pending, id).Some? && Position(executing, id).None?
      ensures r.MustWait? ==>
                (|executing| == MAX_WORKERS || !LeastPriority(pending, pending[Position(pending, id).value]))
    {
      var found := Position(executing, id);
      if found.Some? {
        return Granted(executing[found.value]);
      }
      var idx := Position(pending, id);
      if idx.None? {
        return Cancelled;
      }
      var task := pending[idx.value];
      if |executing| < MAX_WORKERS && LeastPriority(pending, task) {
        pending := RemoveAt(pending, idx.value);
        executing := executing + [task];
        return Granted(task);
      }
      return MustWait;
    }

    /** Only a pending task can be cancelled. */
    method Cancel(id: int) returns (r: Option<Task>)
      requires Valid()
      modifies this
      ensures Valid() && executing == old(executing)
      ensures r.Some? <==> Position(old(pending), id).Some?
      ensures r.Some? ==> r.value.id == id && multiset(pending) == old(multiset(pending)) - multiset{r.value}
      ensures r.None? ==> pending == old(pending)
    {
      var idx := Position(pending, id);
      if idx.None? {
        return None;
      }
      r := Some(pending[idx.value]);
      pending := RemoveAt(pending, idx.value);
    }

    method Finish(id: int) returns (r: Option<Task>)
      requires Valid()
      modifies this
      ensures Valid() && pending == old(pending)
      ensures r.Some? <==> Position(old(executing), id).Some?
      ensures r.Some? ==> r.value.id == id && multiset(executing) == old(multiset(executing)) - multiset{r.value}
      ensures r.None? ==> executing == old(executing)
    {
      var idx := Position(executing, id);
      if idx.None? {
        return None;
      }
      r := Some(executing[idx.value]);
      executing := RemoveAt(executing, idx.value);
    }
  }

  // ---- the protocol ----

  /**
   Where a thread is between two lock regions. In `acquire` the read guard taken by the first lookup in
   `executing` is alive in the whole `else` branch if the language keeps scrutinee temporaries that long.
   */
  datatype Pc =
    | Idle
    | Registering(task: Task)
    | ToExecuting(task: Task)
    | ToPending(task: Task)
    | Looking(id: int)
    | Waiting(task: Task)
    | Comparing(task: Task)
    | Locating(task: Task)
    | Removing(task: Task, at: nat)
    | Admitting(id: int, task: Task)
    | Dead

  /**
   `holds` says whether the guard of the first lookup lives through the `else` branch; `readers` are the
   threads whose guard is alive. The logs record what became of each registered task;
   `admitted` lists what `acquire` moved out of `pending`, with the id it was asked for.
   */
  datatype State = State(
    holds: bool, pcs: seq<Pc>, pending: seq<Task>, executing: seq<Task>, readers: set<nat>,
    registered: seq<Task>, finished: seq<Task>, cancelled: seq<Task>, lost: seq<Task>,
    admitted: seq<(int, Task)>)

  datatype Action =
    | StartRegister(t: nat, task: Task)
    | ReadLength(t: nat)
    | PushExecuting(t: nat)
    | PushPending(t: nat)
    | FindExecuting(t: nat, id: int)
    | FindPending(t: nat)
    | CheckLength(t: nat)
    | ComparePriority(t: nat)
    | Locate(t: nat)
    | Remove(t: nat)
    | Admit(t: nat)
    | Cancel(id: int)
    | Finish(id: int)
    | Panic(t: nat)

  function Init(holds: bool, threads: nat): State {
    State(holds, seq(threads, i => Idle), [], [], {}, [], [], [], [], [])
  }

  predicate At(s: State, t: nat, p: Pc -> bool) {
    t < |s.pcs| && p(s.pcs[t])
  }

  /** A write lock on `executing` is granted only while nobody holds a read guard on it. */
  predicate Writable(s: State) {
    s.readers == {}
  }

  predicate Enabled(s: State, a: Action) {
    match a
    case StartRegister(t, task) => At(s, t, (p: Pc) => p.Idle?) && forall x :: x in s.registered ==> x.id != task.id
    case ReadLength(t) => At(s, t, (p: Pc) => p.Registering?)
    case PushExecuting(t) => At(s, t, (p: Pc) => p.ToExecuting?) && Writable(s)
    case PushPending(t) => At(s, t, (p: Pc) => p.ToPending?)
    case FindExecuting(t, id) => At(s, t, (p: Pc) => p.Idle?)
    case FindPending(t) => At(s, t, (p: Pc) => p.Looking?)
    case CheckLength(t) => At(s, t, (p: Pc) => p.Waiting?)
    case ComparePriority(t) => At(s, t, (p: Pc) => p.Comparing?)
    case Locate(t) => At(s, t, (p: Pc) => p.Locating?)
    case Remove(t) => At(s, t, (p: Pc) => p.Removing?)
    case Admit(t) => At(s, t, (p: Pc) => p.Admitting?) && Writable(s)
    case Cancel(id) => true
    case Finish(id) => Writable(s)
    case Panic(t) => At(s, t, (p: Pc) => p.ToExecuting? || p.Admitting?) && !Writable(s)
  }

  /** The thread goes on at `pc`. */
  function Goto(s: State, t: nat, pc: Pc): State
    requires t < |s.pcs|
  {
    s.(pcs := s.pcs[t := pc])
  }

  /** `acquire` returns: its guard, if still alive, is dropped. */
  function Return(s: State, t: nat): State
    requires t < |s.pcs|
  {
    Goto(s, t, Idle).(readers := s.readers - {t})
  }

  function Step(s: State, a: Action): State
    requires Enabled(s, a)
  {
    match a
    case StartRegister(t, task) => Goto(s, t, Registering(task)).(registered := s.registered + [task])
    case ReadLength(t) =>
      var task := s.pcs[t].task;
      Goto(s, t, if |s.executing| < MAX_WORKERS then ToExecuting(task) else ToPending(task))
    case PushExecuting(t) => Goto(s, t, Idle).(executing := s.executing + [s.pcs[t].task])
    case PushPending(t) => Goto(s, t, Idle).(pending := s.pending + [s.pcs[t].task])
    case FindExecuting(t, id) =>
      if Position(s.executing, id).Some? then s
      else Goto(s, t, Looking(id)).(readers := if s.holds then s.readers + {t} else s.readers)
    case FindPending(t) =>
      var idx := Position(s.pending, s.pcs[t].id);
      if idx.Some? then Goto(s, t, Waiting(s.pending[idx.value])) else Return(s, t)
    case CheckLength(t) =>
      if |s.executing| < MAX_WORKERS then Goto(s, t, Comparing(s.pcs[t].task)) else s
    case ComparePriority(t) =>
      var task := s.pcs[t].task;
      Goto(s, t, if LeastPriority(s.pending, task) then Locating(task) else Waiting(task))
    case Locate(t) =>
      var task := s.pcs[t].task;
      var idx := Position(s.pending, task.id);
      if idx.Some? then Goto(s, t, Removing(task, idx.value)) else Return(s, t)
    case Remove(t) =>
      var i := s.pcs[t].at;
      if i < |s.pending| then
        Goto(s, t, Admitting(s.pcs[t].task.id, s.pending[i])).(pending := RemoveAt(s.pending, i))
      else Return(s, t)
    case Admit(t) =>
      Return(s, t).(executing := s.executing + [s.pcs[t].task], admitted := s.admitted + [(s.pcs[t].id, s.pcs[t].task)])
    case Cancel(id) =>
      var idx := Position(s.pending, id);
      if idx.Some? then
        s.(pending := RemoveAt(s.pending, idx.value), cancelled := s.cancelled + [s.pending[idx.value]])
      else s
    case Finish(id) =>
      var idx := Position(s.executing, id);
      if idx.Some? then
        s.(executing := RemoveAt(s.executing, idx.value), finished := s.finished + [s.executing[idx.value]])
      else s
    case Panic(t) => Return(s, t).(pcs := s.pcs[t := Dead], lost := s.lost + [s.pcs[t].task])
  }

  /** `run` is a run from the initial state, and `s` is where it ends. */
  ghost predicate Run(holds: bool, threads: nat, run: seq<Action>, s: State) {
    if run == [] then s == Init(holds, threads)
    else
      var n := |run| - 1;
      exists r :: Run(holds, threads, run[..n], r) && Enabled(r, run[n]) && s == Step(r, run[n])
  }

  /** Actions that can be taken one after the other. */
  predicate AllEnabled(s: State, acts: seq<Action>)
    decreases |acts|
  {
    acts == [] || (Enabled(s, acts[0]) && AllEnabled(Step(s, acts[0]), acts[1..]))
  }

  function End(s: State, acts: seq<Action>): State
    requires AllEnabled(s, acts)
    decreases |acts|
  {
    if acts == [] then s else End(Step(s, acts[0]), acts[1..])
  }

  // ---- every task is in exactly one place ----

  /** How often a task occurs in a list. */
  function Count(tasks: seq<Task>, x: Task): nat {
    multiset(tasks)[x]
  }

  lemma CountAppend(tasks: seq<Task>, y: Task, x: Task)
    ensures Count(tasks + [y], x) == Count(tasks, x) + (if x == y then 1 else 0)
  {
  }

  lemma CountRemove(tasks: seq<Task>, i: nat, x: Task)
    requires i < |tasks|
    ensures Count(RemoveAt(tasks, i), x) == Count(tasks, x) - (if x == tasks[i] then 1 else 0)
  {
  }

  /** Whether a thread has the task in its hand: not yet stored, or taken out and not yet put back. */
  function Holds(pc: Pc, x: Task): nat {
    if (pc.Registering? || pc.ToExecuting? || pc.ToPending? || pc.Admitting?) && pc.task == x then 1 else 0
  }

  function Held(pcs: seq<Pc>, x: Task): nat {
    if pcs == [] then 0 else Holds(pcs[0], x) + Held(pcs[1..], x)
  }

  lemma {:induction false} HeldUpdate(pcs: seq<Pc>, t: nat, pc: Pc, x: Task)
    requires t < |pcs|
    ensures Held(pcs[t := pc], x) == Held(pcs, x) - Holds(pcs[t], x) + Holds(pc, x)
  {
    if t > 0 {
      HeldUpdate(pcs[1..], t - 1, pc, x);
      assert pcs[t := pc][1..] == pcs[1..][t - 1 := pc];
    } else {
      assert pcs[t := pc][1..] == pcs[1..];
    }
  }

  /** In how many places a task is. */
  function Places(s: State, x: Task): nat {
    Count(s.pending, x) + Count(s.executing, x) + Held(s.pcs, x)
    + Count(s.finished, x) + Count(s.cancelled, x) + Count(s.lost, x)
  }

  predicate UniqueIds(ts: seq<Task>) {
    forall i, j :: 0 <= i < j < |ts| ==> ts[i].id != ts[j].id
  }

  /** Threads that have been told there is a free place and have not used it yet. */
  predicate PastGuard(pc: Pc) {
    pc.ToExecuting? || pc.Comparing? || pc.Locating? || pc.Removing? || pc.Admitting?
  }

  function CountPast(pcs: seq<Pc>): (n: nat)
    ensures n <= |pcs|
  {
    if pcs == [] then 0 else (if PastGuard(pcs[0]) then 1 else 0) + CountPast(pcs[1..])
  }

  lemma {:induction false} CountPastUpdate(pcs: seq<Pc>, t: nat, pc: Pc)
    requires t < |pcs|
    ensures CountPast(pcs[t := pc]) ==
              CountPast(pcs) - (if PastGuard(pcs[t]) then 1 else 0) + (if PastGuard(pc) then 1 else 0)
  {
    if t > 0 {
      CountPastUpdate(pcs[1..], t - 1, pc);
      assert pcs[t := pc][1..] == pcs[1..][t - 1 := pc];
    } else {
      assert pcs[t := pc][1..] == pcs[1..];
    }
  }

  /** In the `else` branch of `acquire`. */
  predicate InSlowPath(pc: Pc) {
    pc.Looking? || pc.Waiting? || pc.Comparing? || pc.Locating? || pc.Removing? || pc.Admitting?
  }

  /** Read guards are alive exactly in the slow path, if they outlive the first lookup at all. */
  ghost predicate ReadersShape(s: State) {
    && (forall t :: t in s.readers ==> s.holds && t < |s.pcs| && InSlowPath(s.pcs[t]))
    && (forall t: nat :: t < |s.pcs| && s.holds && InSlowPath(s.pcs[t]) ==> t in s.readers)
  }

  /** The position of the pending task that an action takes out. */
  function TakesOut(s: State, a: Action): (r: Option<nat>)
    requires Enabled(s, a)
    ensures r.Some? ==> r.value < |s.pending|
  {
    match a
    case Cancel(id) => Position(s.pending, id)
    case Remove(u) => if s.pcs[u].at < |s.pending| then Some(s.pcs[u].at) else None
    case _ => None
  }

  /** The action belongs to thread `t`. */
  predicate By(a: Action, t: nat) {
    !a.Cancel? && !a.Finish? && a.t == t
  }

  /** What a step does to the queue, and that it moves no thread but its own. */
  lemma StepPending(s: State, a: Action)
    requires Enabled(s, a)
    ensures Step(s, a).pending ==
              if TakesOut(s, a).Some? then RemoveAt(s.pending, TakesOut(s, a).value)
              else if a.PushPending? then s.pending + [s.pcs[a.t].task] else s.pending
    ensures |Step(s, a).pcs| == |s.pcs|
    ensures forall t: nat :: t < |s.pcs| && !By(a, t) ==> Step(s, a).pcs[t] == s.pcs[t]
    ensures a.PushPending? ==> a.t < |s.pcs| && s.pcs[a.t].ToPending?
  {
    hide Position, RemoveAt, LeastPriority;
  }

  /** If the id is still pending, it is not behind position `i`: removals only move tasks forward. */
  ghost predicate NotBehind(pending: seq<Task>, id: int, i: nat) {
    forall j :: 0 <= j < |pending| && pending[j].id == id ==> j <= i
  }

  /** In the hand of a thread that is registering it. */
  predicate Entering(pc: Pc, id: int) {
    (pc.Registering? || pc.ToExecuting? || pc.ToPending?) && pc.task.id == id
  }

  /** The id has been registered, and no thread is still about to store it. */
  ghost predicate Settled(s: State, id: int) {
    && (exists x :: x in s.registered && x.id == id)
    && (forall u: nat :: u < |s.pcs| ==> !Entering(s.pcs[u], id))
  }

  ghost predicate PositionsShape(s: State) {
    forall t: nat :: t < |s.pcs| && s.pcs[t].Removing? ==>
      NotBehind(s.pending, s.pcs[t].task.id, s.pcs[t].at) && Settled(s, s.pcs[t].task.id)
  }

  /** What was admitted is being executed or has finished. */
  ghost predicate AdmittedShape(s: State) {
    forall e :: e in s.admitted ==> Count(s.executing, e.1) + Count(s.finished, e.1) >= 1
  }

  ghost predicate Conserved(s: State) {
    UniqueIds(s.registered) && forall x :: Count(s.registered, x) == Places(s, x)
  }

  ghost predicate Bounded(s: State) {
    if |s.pcs| == 0 then s.executing == [] else |s.executing| + CountPast(s.pcs) <= MAX_WORKERS - 1 + |s.pcs|
  }

  ghost predicate Inv(s: State) {
    && Conserved(s)
    && Bounded(s)
    && ReadersShape(s)
    && PositionsShape(s)
    && AdmittedShape(s)
    && (s.holds ==> s.admitted == [])
  }

  /** A step that removes a task from a list. */
  lemma RemovalConserves(s: State, a: Action, x: Task)
    requires Enabled(s, a) && (a.Remove? || a.Cancel? || a.Finish?)
    ensures Places(Step(s, a), x) == Places(s, x) && Step(s, a).registered == s.registered
  {
    hide Count;
    hide Held;
    match a
    case Remove(t) =>
      var i := s.pcs[t].at;
      HeldUpdate(s.pcs, t, Step(s, a).pcs[t], x);
      if i < |s.pending| {
        CountRemove(s.pending, i, x);
      }
    case Cancel(id) =>
      var idx := Position(s.pending, id);
      if idx.Some? {
        CountRemove(s.pending, idx.value, x);
        CountAppend(s.cancelled, s.pending[idx.value], x);
      }
    case Finish(id) =>
      var idx := Position(s.executing, id);
      if idx.Some? {
        CountRemove(s.executing, idx.value, x);
        CountAppend(s.finished, s.executing[idx.value], x);
      }
  }

  /** No step loses or duplicates a task. */
  lemma StepConserves(s: State, a: Action, x: Task)
    requires Enabled(s, a) && Count(s.registered, x) == Places(s, x)
    ensures Count(Step(s, a).registered, x) == Places(Step(s, a), x)
  {
    hide Count;
    hide Held;
    hide RemoveAt;
    if a.Remove? || a.Cancel? || a.Finish? {
      RemovalConserves(s, a, x);
    } else {
      HeldUpdate(s.pcs, a.t, Step(s, a).pcs[a.t], x);
      assert Step(s, a).pcs == s.pcs[a.t := Step(s, a).pcs[a.t]];
      if a.StartRegister? {
        CountAppend(s.registered, a.task, x);
      } else if a.PushExecuting? || a.Admit? {
        CountAppend(s.executing, s.pcs[a.t].task, x);
      } else if a.PushPending? {
        CountAppend(s.pending, s.pcs[a.t].task, x);
      } else if a.Panic? {
        CountAppend(s.lost, s.pcs[a.t].task, x);
      }
    }
  }

  lemma StepKeepsUnique(s: State, a: Action)
    requires Enabled(s, a) && UniqueIds(s.registered)
    ensures UniqueIds(Step(s, a).registered)
  {
  }

  /** A thread is let past the guard only while there is a free place, whatever happens before it uses it. */
  lemma StepKeepsBound(s: State, a: Action)
    requires Enabled(s, a) && Bounded(s)
    ensures Bounded(Step(s, a))
  {
    hide CountPast;
    hide Position;
    if !a.Cancel? && !a.Finish? {
      CountPastUpdate(s.pcs, a.t, Step(s, a).pcs[a.t]);
      assert Step(s, a).pcs == s.pcs[a.t := Step(s, a).pcs[a.t]];
    }
  }

  lemma StepKeepsReaders(s: State, a: Action)
    requires Enabled(s, a) && ReadersShape(s)
    ensures ReadersShape(Step(s, a)) == true
  {
    hide Step, Enabled;
    StepReaders(s, a);
    StepPending(s, a);
  }

  /** What a step does to the guards: only a thread's own step changes its guard, and it goes with the slow path. */
  lemma StepReaders(s: State, a: Action)
    requires Enabled(s, a)
    ensures Step(s, a).holds == s.holds
    ensures a.Cancel? || a.Finish? ==> Step(s, a).readers == s.readers
    ensures !a.Cancel? && !a.Finish? ==>
              && a.t < |s.pcs| == |Step(s, a).pcs|
              && (forall u :: u != a.t ==> (u in Step(s, a).readers <==> u in s.readers))
              && var (slow, slow', held, held') :=
                   (InSlowPath(s.pcs[a.t]), InSlowPath(Step(s, a).pcs[a.t]), a.t in s.readers, a.t in Step(s, a).readers);
                 && (slow && slow' ==> held' == held)
                 && (slow && !slow' ==> !held')
                 && (!slow && slow' ==> held' == (s.holds || held))
                 && (!slow && !slow' ==> held' ==> held)
  {
    hide Position, RemoveAt, LeastPriority;
  }

  lemma NotBehindAfterRemove(pending: seq<Task>, k: nat, id: int, i: nat)
    requires k < |pending| && NotBehind(pending, id, i)
    ensures NotBehind(RemoveAt(pending, k), id, i)
  {
  }

  /** A pending id occurs once, so its first position is its only one. */
  lemma PendingOnce(s: State, i: nat, j: nat)
    requires Conserved(s) && i < j < |s.pending|
    ensures s.pending[i].id != s.pending[j].id
  {
    var x, y := s.pending[i], s.pending[j];
    assert x in multiset(s.pending) && y in multiset(s.pending);
    assert Count(s.registered, x) == Places(s, x) && Count(s.registered, y) == Places(s, y);
    assert x in multiset(s.registered) && y in multiset(s.registered);
    RegisteredOnce(s.registered, x);
    if x == y {
      CountTwice(s.pending, i, j);
    }
  }

  lemma CountTwice(ts: seq<Task>, i: nat, j: nat)
    requires i < j < |ts| && ts[i] == ts[j]
    ensures Count(ts, ts[i]) >= 2
  {
    assert ts == ts[..j] + [ts[j]] + ts[j + 1..];
    assert ts[..j][i] == ts[i];
    assert ts[i] in multiset(ts[..j]);
  }

  lemma {:induction false} RegisteredOnce(ts: seq<Task>, x: Task)
    requires UniqueIds(ts)
    ensures Count(ts, x) <= 1
  {
    if ts != [] {
      var n := |ts| - 1;
      RegisteredOnce(ts[..n], x);
      assert ts == ts[..n] + [ts[n]];
      assert ts[n] !in ts[..n];
    }
  }

  lemma {:induction false} HeldByOne(pcs: seq<Pc>, t: nat, x: Task)
    requires t < |pcs|
    ensures Held(pcs, x) >= Holds(pcs[t], x)
  {
    if t > 0 {
      HeldByOne(pcs[1..], t - 1, x);
    }
  }

  lemma SameIdSameTask(ts: seq<Task>, x: Task, y: Task)
    requires UniqueIds(ts) && x in ts && y in ts && x.id == y.id
    ensures x == y
  {
  }

  lemma RegisteredIfSomewhere(s: State, x: Task)
    requires Conserved(s) && Places(s, x) > 0
    ensures x in s.registered && Places(s, x) == 1
  {
    assert Count(s.registered, x) == Places(s, x);
    RegisteredOnce(s.registered, x);
    assert x in multiset(s.registered);
  }

  /** A pending task has been stored by the thread that registered it. */
  lemma PendingSettled(s: State, i: nat)
    requires Conserved(s) && i < |s.pending|
    ensures Settled(s, s.pending[i].id)
  {
    var x := s.pending[i];
    assert x in multiset(s.pending);
    RegisteredIfSomewhere(s, x);
    forall u: nat | u < |s.pcs|
      ensures !Entering(s.pcs[u], x.id)
    {
      if Entering(s.pcs[u], x.id) {
        var y := s.pcs[u].task;
        HeldByOne(s.pcs, u, y);
        RegisteredIfSomewhere(s, y);
        SameIdSameTask(s.registered, x, y);
      }
    }
  }

  lemma StepKeepsSettled(s: State, a: Action, id: int)
    requires Enabled(s, a) && Settled(s, id)
    ensures Settled(Step(s, a), id)
  {
    hide Step, Enabled;
    StepPending(s, a);
    RegisteredGrows(s, a);
    if !a.Cancel? && !a.Finish? {
      StepEnters(s, a, id);
    }
  }

  /** Only a thread that starts to register, with a new id, comes to have a task to store. */
  lemma StepEnters(s: State, a: Action, id: int)
    requires Enabled(s, a) && !a.Cancel? && !a.Finish?
    ensures a.t < |s.pcs| == |Step(s, a).pcs|
    ensures Entering(Step(s, a).pcs[a.t], id) && !Entering(s.pcs[a.t], id) ==> forall x :: x in s.registered ==> x.id != id
  {
    hide Position, RemoveAt, LeastPriority;
  }

  /** The position a thread has located is never before the task it located, as long as that is pending. */
  lemma LocatedNotBehind(s: State, a: Action, t: nat)
    requires Enabled(s, a) && PositionsShape(s) && Conserved(s)
    requires t < |Step(s, a).pcs| && Step(s, a).pcs[t].Removing?
    ensures NotBehind(Step(s, a).pending, Step(s, a).pcs[t].task.id, Step(s, a).pcs[t].at)
  {
    hide Conserved, RemoveAt;
    StepPending(s, a);
    if By(a, t) {
      FoundNotBehind(s, Position(s.pending, s.pcs[t].task.id).value);
    } else {
      hide Step, Enabled, TakesOut;
      if TakesOut(s, a).Some? {
        NotBehindAfterRemove(s.pending, TakesOut(s, a).value, s.pcs[t].task.id, s.pcs[t].at);
      } else if a.PushPending? {
        assert !Entering(s.pcs[a.t], s.pcs[t].task.id);
      }
    }
  }

  lemma FoundNotBehind(s: State, i: nat)
    requires Conserved(s) && i < |s.pending|
    ensures NotBehind(s.pending, s.pending[i].id, i)
  {
    hide Conserved;
    forall j | 0 <= j < |s.pending| && s.pending[j].id == s.pending[i].id
      ensures j <= i
    {
      if i < j {
        PendingOnce(s, i, j);
      }
    }
  }

  lemma StepKeepsPositions(s: State, a: Action)
    requires Enabled(s, a) && PositionsShape(s) && Conserved(s)
    ensures PositionsShape(Step(s, a))
  {
    hide Conserved;
    hide NotBehind;
    var r := Step(s, a);
    forall t: nat | t < |r.pcs| && r.pcs[t].Removing?
      ensures NotBehind(r.pending, r.pcs[t].task.id, r.pcs[t].at) && Settled(r, r.pcs[t].task.id)
    {
      LocatedNotBehind(s, a, t);
      if a == Locate(t) {
        PendingSettled(s, Position(s.pending, s.pcs[t].task.id).value);
      }
      StepKeepsSettled(s, a, r.pcs[t].task.id);
    }
  }

  lemma StepKeepsAdmitted(s: State, a: Action)
    requires Enabled(s, a) && AdmittedShape(s)
    ensures AdmittedShape(Step(s, a))
  {
    hide Count;
    hide RemoveAt;
    var r := Step(s, a);
    forall e | e in r.admitted
      ensures Count(r.executing, e.1) + Count(r.finished, e.1) >= 1
    {
      if a.PushExecuting? || a.Admit? {
        CountAppend(s.executing, s.pcs[a.t].task, e.1);
      } else if a.Finish? && Position(s.executing, a.id).Some? {
        var i := Position(s.executing, a.id).value;
        CountRemove(s.executing, i, e.1);
        CountAppend(s.finished, s.executing[i], e.1);
      }
    }
  }

  lemma InitInv(holds: bool, threads: nat)
    ensures Inv(Init(holds, threads))
  {
    NothingHeld(seq(threads, i => Idle));
  }

  lemma {:induction false} NothingHeld(pcs: seq<Pc>)
    requires forall t :: 0 <= t < |pcs| ==> pcs[t].Idle?
    ensures CountPast(pcs) == 0 && forall x :: Held(pcs, x) == 0
  {
    if pcs != [] {
      NothingHeld(pcs[1..]);
    }
  }

  lemma StepKeepsInv(s: State, a: Action)
    requires Enabled(s, a) && Inv(s)
    ensures Inv(Step(s, a)) == true
  {
    hide Bounded;
    hide PositionsShape;
    hide AdmittedShape;
    hide Count;
    hide Places;
    hide UniqueIds;
    StepKeepsUnique(s, a);
    forall x
      ensures Count(Step(s, a).registered, x) == Places(Step(s, a), x)
    {
      StepConserves(s, a, x);
    }
    StepKeepsBound(s, a);
    StepKeepsReaders(s, a);
    StepKeepsPositions(s, a);
    StepKeepsAdmitted(s, a);
  }

  lemma StepKeepsThreads(s: State, a: Action)
    requires Enabled(s, a)
    ensures |Step(s, a).pcs| == |s.pcs| && Step(s, a).holds == s.holds
  {
  }

  /** The invariant holds at the end of every run, of any length, with any number of threads. */
  lemma {:induction false} RunInv(holds: bool, threads: nat, run: seq<Action>, s: State)
    requires Run(holds, threads, run, s)
    ensures Inv(s) && |s.pcs| == threads && s.holds == holds
    decreases |run|
  {
    hide Inv;
    hide Step;
    hide Enabled;
    if run == [] {
      InitInv(holds, threads);
    } else {
      var n := |run| - 1;
      var r :| Run(holds, threads, run[..n], r) && Enabled(r, run[n]) && s == Step(r, run[n]);
      RunInv(holds, threads, run[..n], r);
      StepKeepsInv(r, run[n]);
      StepKeepsThreads(r, run[n]);
    }
  }

  // ---- what every run satisfies ----

  /** A registered task is in exactly one place; nothing else is anywhere. */
  lemma ExactlyOnePlace(holds: bool, threads: nat, run: seq<Action>, s: State, x: Task)
    requires Run(holds, threads, run, s)
    ensures Places(s, x) == if x in s.registered then 1 else 0
  {
    RunInv(holds, threads, run, s);
    assert Count(s.registered, x) == Places(s, x);
    RegisteredOnce(s.registered, x);
    assert x in s.registered <==> x in multiset(s.registered);
  }

  /** A cancelled task is not being executed, was never admitted and never will be: it is nowhere else. */
  lemma CancelledNeverRuns(holds: bool, threads: nat, run: seq<Action>, s: State, x: Task)
    requires Run(holds, threads, run, s) && x in s.cancelled
    ensures x !in s.executing && x !in s.pending && x !in s.finished && Held(s.pcs, x) == 0
    ensures forall e :: e in s.admitted ==> e.1 != x
  {
    RunInv(holds, threads, run, s);
    ExactlyOnePlace(holds, threads, run, s, x);
    assert x in multiset(s.cancelled);
    assert x in s.executing ==> x in multiset(s.executing);
    assert x in s.pending ==> x in multiset(s.pending);
    assert x in s.finished ==> x in multiset(s.finished);
  }

  /** With one step per lock region the limit can be exceeded, but by no more than one less than the number of threads. */
  lemma ExecutingBounded(holds: bool, threads: nat, run: seq<Action>, s: State)
    requires Run(holds, threads, run, s) && threads > 0
    ensures |s.executing| + CountPast(s.pcs) <= MAX_WORKERS - 1 + threads
  {
    RunInv(holds, threads, run, s);
  }

  /**
   While the guard of the first lookup outlives it, `acquire` can take a task out of `pending`
   but never completes: it waits for a write lock that its own read guard blocks.
   */
  lemma HoldingNeverAdmits(threads: nat, run: seq<Action>, s: State, t: nat)
    requires Run(true, threads, run, s)
    ensures s.admitted == []
    ensures t < |s.pcs| && s.pcs[t].Admitting? ==> !Enabled(s, Admit(t)) && Enabled(s, Panic(t))
  {
    RunInv(true, threads, run, s);
    if t < |s.pcs| && s.pcs[t].Admitting? {
      assert InSlowPath(s.pcs[t]);
    }
  }

  /** ... and meanwhile no other thread can store, finish or admit anything in `executing`. */
  lemma HoldingFreezes(s: State, a: Action)
    requires Inv(s) && s.holds && Enabled(s, a)
    requires exists t: nat :: t < |s.pcs| && InSlowPath(s.pcs[t])
    ensures Step(s, a).executing == s.executing
  {
  }

  /** If the guard were dropped after the first lookup, a waiting task with a free place would get in, undisturbed. */
  lemma ReleasingAdmits(s: State, t: nat, i: nat)
    requires Inv(s) && !s.holds && t < |s.pcs| && i < |s.pending| && s.pcs[t] == Waiting(s.pending[i])
    requires |s.executing| < MAX_WORKERS && LeastPriority(s.pending, s.pending[i])
    ensures Enabled(s, CheckLength(t)) && Enabled(Step(s, CheckLength(t)), ComparePriority(t))
    ensures var s2 := Step(Step(s, CheckLength(t)), ComparePriority(t));
            && Enabled(s2, Locate(t)) && Enabled(Step(s2, Locate(t)), Remove(t))
            && var s4 := Step(Step(s2, Locate(t)), Remove(t));
            Enabled(s4, Admit(t)) && Step(s4, Admit(t)).executing == s.executing + [s.pending[i]]
  {
    FoundWhereItIs(s, i);
    PassesGuard(s, t, i);
    NoReaders(s);
    hide *;
    TakesPlace(s, t, i);
  }

  lemma NoReaders(s: State)
    requires Inv(s) && !s.holds
    ensures s.readers == {}
  {
    assert forall u :: u !in s.readers;
  }

  /** The two steps from a located position to a place. */
  lemma TakesPlace(s: State, t: nat, i: nat)
    requires t < |s.pcs| && i < |s.pending| && s.readers == {}
    ensures var s3 := Goto(s, t, Removing(s.pending[i], i));
            && Enabled(s3, Remove(t)) && Enabled(Step(s3, Remove(t)), Admit(t))
            && Step(Step(s3, Remove(t)), Admit(t)).executing == s.executing + [s.pending[i]]
  {
    hide RemoveAt;
  }

  /** The three steps from waiting to a located position. */
  lemma PassesGuard(s: State, t: nat, i: nat)
    requires t < |s.pcs| && i < |s.pending| && s.pcs[t] == Waiting(s.pending[i])
    requires |s.executing| < MAX_WORKERS && LeastPriority(s.pending, s.pending[i])
    requires Position(s.pending, s.pending[i].id) == Some(i)
    ensures Enabled(s, CheckLength(t)) && Enabled(Step(s, CheckLength(t)), ComparePriority(t))
    ensures var s2 := Step(Step(s, CheckLength(t)), ComparePriority(t));
            Enabled(s2, Locate(t)) && Step(s2, Locate(t)) == Goto(s, t, Removing(s.pending[i], i))
  {
    hide Position, LeastPriority;
    var s1 := Step(s, CheckLength(t));
    assert s1 == Goto(s, t, Comparing(s.pending[i]));
    var s2 := Step(s1, ComparePriority(t));
    assert s2.pcs == s.pcs[t := Locating(s.pending[i])];
    assert Step(s2, Locate(t)).pcs == s.pcs[t := Removing(s.pending[i], i)];
  }

  lemma FoundWhereItIs(s: State, i: nat)
    requires Inv(s) && i < |s.pending|
    ensures Position(s.pending, s.pending[i].id) == Some(i)
  {
    var p := Position(s.pending, s.pending[i].id);
    if p.Some? && p.value < i {
      PendingOnce(s, p.value, i);
    }
  }

  // ---- priorities ----

  /** Something more urgent than the task is pending. */
  predicate Overtaken(pending: seq<Task>, task: Task) {
    exists x :: x in pending && Priority(x.kind) < Priority(task.kind)
  }

  /** ... before, between and after all the steps. */
  predicate OvertakenThroughout(s: State, acts: seq<Action>, task: Task)
    requires AllEnabled(s, acts)
    decreases |acts|
  {
    Overtaken(s.pending, task) && (acts == [] || OvertakenThroughout(Step(s, acts[0]), acts[1..], task))
  }

  /** As long as something more urgent stays pending, a thread that waits goes on waiting, whatever anyone does. */
  lemma {:induction false} WaitsWhileOvertaken(s: State, acts: seq<Action>, t: nat, task: Task)
    requires AllEnabled(s, acts) && t < |s.pcs| && (s.pcs[t] == Waiting(task) || s.pcs[t] == Comparing(task))
    requires OvertakenThroughout(s, acts, task)
    ensures t < |End(s, acts).pcs| && (End(s, acts).pcs[t] == Waiting(task) || End(s, acts).pcs[t] == Comparing(task))
    decreases |acts|
  {
    if acts != [] {
      OneStepOvertaken(s, acts[0], t, task);
      WaitsWhileOvertaken(Step(s, acts[0]), acts[1..], t, task);
    }
  }

  lemma OneStepOvertaken(s: State, a: Action, t: nat, task: Task)
    requires Enabled(s, a) && t < |s.pcs| && (s.pcs[t] == Waiting(task) || s.pcs[t] == Comparing(task))
    requires Overtaken(s.pending, task)
    ensures t < |Step(s, a).pcs| && (Step(s, a).pcs[t] == Waiting(task) || Step(s, a).pcs[t] == Comparing(task))
  {
    StepPending(s, a);
  }

  lemma {:induction false} OneMoreStep(s: State, acts: seq<Action>, a: Action)
    requires AllEnabled(s, acts) && Enabled(End(s, acts), a)
    ensures AllEnabled(s, acts + [a]) && End(s, acts + [a]) == Step(End(s, acts), a)
    decreases |acts|
  {
    hide Step, Enabled;
    if acts == [] {
      assert [a][1..] == [];
    } else {
      OneMoreStep(Step(s, acts[0]), acts[1..], a);
      assert (acts + [a])[1..] == acts[1..] + [a];
    }
  }

  /**
   A thread that has located the task it asks for, or is about to, compared priorities in some state `q` of the run,
   after `k` steps, and nothing more urgent was pending then. Since then it has done nothing but locate the task.
   */
  lemma {:induction false} WasLeast(holds: bool, threads: nat, run: seq<Action>, s: State, t: nat) returns (k: nat, q: State)
    requires Run(holds, threads, run, s) && t < |s.pcs| && (s.pcs[t].Locating? || s.pcs[t].Removing?)
    ensures k < |run| && Run(holds, threads, run[..k], q) && run[k] == ComparePriority(t)
    ensures t < |q.pcs| && q.pcs[t] == Comparing(s.pcs[t].task) && !Overtaken(q.pending, s.pcs[t].task)
    ensures AllEnabled(q, run[k..]) && End(q, run[k..]) == s
    ensures forall j :: k < j < |run| && By(run[j], t) ==> run[j] == Locate(t)
    decreases |run|
  {
    hide Overtaken, LeastPriority, Step, Enabled;
    var n := |run| - 1;
    var r :| Run(holds, threads, run[..n], r) && Enabled(r, run[n]) && s == Step(r, run[n]);
    CameFrom(r, run[n], t);
    if run[n] == ComparePriority(t) {
      k, q := n, r;
      assert run[n..] == [run[n]] && [run[n]][1..] == [];
      LeastIffNotOvertaken(r.pending, s.pcs[t].task);
    } else {
      k, q := WasLeast(holds, threads, run[..n], r, t);
      OneMoreStep(q, run[..n][k..], run[n]);
      assert run[..n][k..] + [run[n]] == run[k..] && run[..n][..k] == run[..k];
      forall j | k < j < |run| && By(run[j], t)
        ensures run[j] == Locate(t)
      {
        assert j < n ==> run[..n][j] == run[j];
      }
    }
  }

  lemma LeastIffNotOvertaken(pending: seq<Task>, task: Task)
    ensures LeastPriority(pending, task) <==> !Overtaken(pending, task)
  {
  }

  /** How a thread comes to locate a task. */
  lemma CameFrom(r: State, a: Action, t: nat)
    requires Enabled(r, a) && t < |Step(r, a).pcs| && (Step(r, a).pcs[t].Locating? || Step(r, a).pcs[t].Removing?)
    ensures var task := Step(r, a).pcs[t].task;
            && t < |r.pcs|
            && (a == ComparePriority(t) ==> r.pcs[t] == Comparing(task) && LeastPriority(r.pending, task))
            && (a != ComparePriority(t) ==> (r.pcs[t].Locating? || r.pcs[t].Removing?) && r.pcs[t].task == task)
            && (By(a, t) ==> a == ComparePriority(t) || a == Locate(t))
  {
    hide LeastPriority, RemoveAt, Position;
    if !By(a, t) {
      hide Step, Enabled;
      StepPending(r, a);
    }
  }

  /** The tasks put into the queue by the steps. */
  function Pushed(s: State, acts: seq<Action>): set<Task>
    requires AllEnabled(s, acts)
    decreases |acts|
  {
    if acts == [] then {}
    else (if acts[0].PushPending? then {s.pcs[acts[0].t].task} else {}) + Pushed(Step(s, acts[0]), acts[1..])
  }

  lemma {:induction false} PendingOrPushed(s: State, acts: seq<Action>, x: Task)
    requires AllEnabled(s, acts) && x in End(s, acts).pending
    ensures x in s.pending || x in Pushed(s, acts)
    decreases |acts|
  {
    if acts != [] {
      var r := Step(s, acts[0]);
      PendingOrPushed(r, acts[1..], x);
      if x in r.pending {
        hide Step, Enabled, TakesOut, RemoveAt;
        StepPending(s, acts[0]);
        if TakesOut(s, acts[0]).Some? {
          TakenIsElsewhere(s.pending, TakesOut(s, acts[0]).value, x);
        }
      }
    }
  }

  lemma TakenIsElsewhere(pending: seq<Task>, i: nat, x: Task)
    requires i < |pending| && x in RemoveAt(pending, i)
    ensures x in pending
  {
  }

  /**
   Nothing more urgent than the task is pending when it comes to be removed exactly if
   nothing more urgent was pushed since the priorities were compared and is pending still.
   */
  lemma StillLeastIff(s: State, acts: seq<Action>, task: Task)
    requires AllEnabled(s, acts) && !Overtaken(s.pending, task)
    ensures !Overtaken(End(s, acts).pending, task) <==>
              forall x :: x in Pushed(s, acts) && Priority(x.kind) < Priority(task.kind) ==> x !in End(s, acts).pending
  {
    hide AllEnabled, End, Pushed, Priority;
    forall x | x in End(s, acts).pending
      ensures x in s.pending || x in Pushed(s, acts)
    {
      PendingOrPushed(s, acts, x);
    }
  }

  // ---- a located position can become stale ----

  /** The position thread `t` has located is that of the task it was asked for. */
  predicate Right(s: State, t: nat) {
    t < |s.pcs| && s.pcs[t].Removing? && s.pcs[t].at < |s.pending| && s.pending[s.pcs[t].at].id == s.pcs[t].task.id
  }

  /** The action takes a pending task out, from a position that is not behind `at`. */
  predicate TakesUpTo(s: State, a: Action, at: nat)
    requires Enabled(s, a)
  {
    TakesOut(s, a).Some? && TakesOut(s, a).value <= at
  }

  /** No step of the others takes a task from a position that is not behind the one thread `t` has located. */
  predicate Undisturbed(s: State, acts: seq<Action>, t: nat)
    requires AllEnabled(s, acts)
    decreases |acts|
  {
    acts == [] ||
    (t < |s.pcs| && s.pcs[t].Removing? && !TakesUpTo(s, acts[0], s.pcs[t].at) && Undisturbed(Step(s, acts[0]), acts[1..], t))
  }

  /** A task moves up when one is taken out before it. */
  lemma TakenOut(pending: seq<Task>, k: nat, at: nat)
    requires k < |pending|
    ensures var r := RemoveAt(pending, k);
            at < |r| ==> r[at] == pending[if at < k then at else at + 1]
  {
  }

  /** One step of another thread leaves the position right exactly if it was right and the step takes nothing up to it. */
  lemma StaysRightIff(s: State, a: Action, t: nat)
    requires Inv(s) && Enabled(s, a) && !By(a, t) && t < |s.pcs| && s.pcs[t].Removing?
    ensures t < |Step(s, a).pcs| && Step(s, a).pcs[t] == s.pcs[t]
    ensures Right(Step(s, a), t) <==> Right(s, t) && !TakesUpTo(s, a, s.pcs[t].at)
  {
    hide Bounded, ReadersShape, AdmittedShape, Conserved, RemoveAt, Step, Enabled, TakesOut;
    var (id, at) := (s.pcs[t].task.id, s.pcs[t].at);
    assert NotBehind(s.pending, id, at) && Settled(s, id);
    StepPending(s, a);
    if TakesOut(s, a).Some? {
      TakenAndRight(s, TakesOut(s, a).value, at, id);
    } else if a.PushPending? {
      assert !Entering(s.pcs[a.t], id);
    }
  }

  lemma TakenAndRight(s: State, k: nat, at: nat, id: int)
    requires k < |s.pending| && NotBehind(s.pending, id, at)
    ensures var r := RemoveAt(s.pending, k);
            (at < |r| && r[at].id == id) <==> (at < |s.pending| && s.pending[at].id == id && at < k)
  {
    TakenOut(s.pending, k, at);
  }

  /** Over any stretch of steps of others, the position is right in the end exactly if it was, and nothing disturbed it. */
  lemma {:induction false} StretchStaysRightIff(s: State, acts: seq<Action>, t: nat)
    requires Inv(s) && AllEnabled(s, acts) && t < |s.pcs| && s.pcs[t].Removing?
    requires forall a :: a in acts ==> !By(a, t)
    ensures t < |End(s, acts).pcs| && End(s, acts).pcs[t] == s.pcs[t]
    ensures Right(End(s, acts), t) <==> Right(s, t) && Undisturbed(s, acts, t)
    decreases |acts|
  {
    hide Inv, Step, Enabled, Right, TakesUpTo;
    if acts != [] {
      assert acts[0] in acts;
      StaysRightIff(s, acts[0], t);
      StepKeepsInv(s, acts[0]);
      StretchStaysRightIff(Step(s, acts[0]), acts[1..], t);
    }
  }

  /**
   Between locating a task and removing it by position, any steps of other threads and clients may come.
   `acquire` takes the task it was asked for exactly if none of them takes out a task that is not behind it,
   by cancelling it or by removing it for another `acquire`.
   */
  lemma StalePosition(s: State, t: nat, acts: seq<Action>)
    requires Inv(s) && Enabled(s, Locate(t)) && Position(s.pending, s.pcs[t].task.id).Some?
    requires AllEnabled(Step(s, Locate(t)), acts) && forall a :: a in acts ==> !By(a, t)
    ensures var s1 := Step(s, Locate(t));
            var r := End(s1, acts);
            && Enabled(r, Remove(t))
            && (var q := Step(r, Remove(t)).pcs[t]; q.Admitting? && q.task.id == s.pcs[t].task.id <==> Undisturbed(s1, acts, t))
  {
    hide Inv, Undisturbed;
    var s1 := Step(s, Locate(t));
    StepKeepsInv(s, Locate(t));
    StretchStaysRightIff(s1, acts, t);
    assert Right(s1, t);
  }

  /** A waiting thread knows the task it waits for by a copy; that task has been registered. */
  ghost predicate CopiesRegistered(s: State) {
    forall t: nat :: t < |s.pcs| && (s.pcs[t].Waiting? || s.pcs[t].Comparing? || s.pcs[t].Locating? || s.pcs[t].Removing?)
      ==> s.pcs[t].task in s.registered
  }

  lemma StepKeepsCopies(s: State, a: Action)
    requires Enabled(s, a) && Conserved(s) && CopiesRegistered(s)
    ensures CopiesRegistered(Step(s, a))
  {
    hide Step, Enabled, Conserved;
    StepPending(s, a);
    RegisteredGrows(s, a);
    var r := Step(s, a);
    forall t: nat | t < |r.pcs| && By(a, t) && (r.pcs[t].Waiting? || r.pcs[t].Comparing? || r.pcs[t].Locating? || r.pcs[t].Removing?)
      ensures r.pcs[t].task in s.registered
    {
      OwnCopy(s, a);
    }
  }

  lemma RegisteredGrows(s: State, a: Action)
    requires Enabled(s, a)
    ensures forall x :: x in s.registered ==> x in Step(s, a).registered
  {
    hide Position, RemoveAt, LeastPriority;
  }

  lemma OwnCopy(s: State, a: Action)
    requires Enabled(s, a) && Conserved(s) && CopiesRegistered(s) && !a.Cancel? && !a.Finish? && a.t < |s.pcs|
    ensures var pc := Step(s, a).pcs[a.t];
            pc.Waiting? || pc.Comparing? || pc.Locating? || pc.Removing? ==> pc.task in s.registered
  {
    hide Conserved, RemoveAt, LeastPriority, Position;
    if a.FindPending? && Position(s.pending, s.pcs[a.t].id).Some? {
      PendingRegistered(s, Position(s.pending, s.pcs[a.t].id).value);
    }
  }

  lemma PendingRegistered(s: State, i: nat)
    requires Conserved(s) && i < |s.pending|
    ensures s.pending[i] in s.registered
  {
    assert s.pending[i] in multiset(s.pending);
    RegisteredIfSomewhere(s, s.pending[i]);
  }

  lemma {:induction false} RunKeepsCopies(holds: bool, threads: nat, run: seq<Action>, s: State)
    requires Run(holds, threads, run, s)
    ensures CopiesRegistered(s)
    decreases |run|
  {
    hide CopiesRegistered, Step, Enabled, Conserved;
    if run == [] {
      NoCopies(holds, threads);
    } else {
      var n := |run| - 1;
      var r :| Run(holds, threads, run[..n], r) && Enabled(r, run[n]) && s == Step(r, run[n]);
      RunInv(holds, threads, run[..n], r);
      RunKeepsCopies(holds, threads, run[..n], r);
      StepKeepsCopies(r, run[n]);
    }
  }

  lemma NoCopies(holds: bool, threads: nat)
    ensures CopiesRegistered(Init(holds, threads))
  {
  }

  /** A located position that is right is that of the task the thread compared, with its kind. */
  lemma RightTask(holds: bool, threads: nat, run: seq<Action>, s: State, t: nat)
    requires Run(holds, threads, run, s) && Right(s, t)
    ensures s.pending[s.pcs[t].at] == s.pcs[t].task
  {
    hide Run;
    RunInv(holds, threads, run, s);
    RunKeepsCopies(holds, threads, run, s);
    PendingRegistered(s, s.pcs[t].at);
    SameIdSameTask(s.registered, s.pending[s.pcs[t].at], s.pcs[t].task);
  }

  /**
   The task `acquire` was asked for, when it comes to be removed: it was of least priority value among all that
   was pending in some state `q` of the run, in which its thread was waiting. It still is exactly if nothing
   more urgent was pushed since and is pending. (`WrongTaskTaken` is about any other task.)
   */
  lemma RemovedWasLeast(holds: bool, threads: nat, run: seq<Action>, s: State, t: nat) returns (k: nat, q: State)
    requires Run(holds, threads, run, s) && Enabled(s, Remove(t)) && Right(s, t)
    ensures k <= |run| && Run(holds, threads, run[..k], q) && AllEnabled(q, run[k..]) && End(q, run[k..]) == s
    ensures var task := s.pending[s.pcs[t].at];
            && t < |q.pcs| && q.pcs[t] == Comparing(task)
            && (forall x :: x in q.pending ==> Priority(x.kind) >= Priority(task.kind))
            && ((forall x :: x in s.pending ==> Priority(x.kind) >= Priority(task.kind)) <==>
                forall x :: x in Pushed(q, run[k..]) && x in s.pending ==> Priority(x.kind) >= Priority(task.kind))
  {
    hide Run, Priority, Step, AllEnabled, End, Pushed;
    RightTask(holds, threads, run, s, t);
    k, q := WasLeast(holds, threads, run, s, t);
    StillLeastIff(q, run[k..], s.pcs[t].task);
  }

  // ---- a run in which it does, without any cancellation ----

  function Tasks(n: nat): seq<Task> {
    seq(n, i => Task(Other, i))
  }

  /** Two threads have registered `n` tasks, which all execute. */
  function Busy(holds: bool, n: nat): State {
    State(holds, [Idle, Idle], [], Tasks(n), {}, Tasks(n), [], [], [], [])
  }

  lemma RunOne(holds: bool, threads: nat, run: seq<Action>, s: State, a: Action)
    requires Run(holds, threads, run, s) && Enabled(s, a)
    ensures Run(holds, threads, run + [a], Step(s, a))
  {
    hide Step, Enabled;
    var longer := run + [a];
    assert longer[..|longer| - 1] == run;
  }

  lemma {:induction false} BusyRun(holds: bool, n: nat) returns (run: seq<Action>)
    requires n <= MAX_WORKERS
    ensures Run(holds, 2, run, Busy(holds, n)) && forall a :: a in run ==> !a.Cancel?
  {
    hide Run;
    if n == 0 {
      run := [];
      assert Init(holds, 2) == Busy(holds, 0);
      RunNone(holds, 2);
    } else {
      var before := BusyRun(holds, n - 1);
      var s := Busy(holds, n - 1);
      run, s := Registers(holds, before, s, Task(Other, n - 1));
      assert Tasks(n) == Tasks(n - 1) + [Task(Other, n - 1)];
    }
  }

  lemma RunNone(holds: bool, threads: nat)
    ensures Run(holds, threads, [], Init(holds, threads))
  {
  }

  /** The first thread registers a task from the start to the end. */
  lemma Registers(holds: bool, before: seq<Action>, s: State, task: Task) returns (run: seq<Action>, r: State)
    requires Run(holds, 2, before, s) && s.pcs == [Idle, Idle] && s.readers == {}
    requires forall x :: x in s.registered ==> x.id != task.id
    requires forall a :: a in before ==> !a.Cancel?
    ensures Run(holds, 2, run, r) && forall a :: a in run ==> !a.Cancel?
    ensures r == if |s.executing| < MAX_WORKERS
                 then s.(registered := s.registered + [task], executing := s.executing + [task])
                 else s.(registered := s.registered + [task], pending := s.pending + [task])
  {
    hide Run;
    var s1 := Step(s, StartRegister(0, task));
    RunOne(holds, 2, before, s, StartRegister(0, task));
    var s2 := Step(s1, ReadLength(0));
    RunOne(holds, 2, before + [StartRegister(0, task)], s1, ReadLength(0));
    var a := if |s.executing| < MAX_WORKERS then PushExecuting(0) else PushPending(0);
    r := Step(s2, a);
    RunOne(holds, 2, before + [StartRegister(0, task)] + [ReadLength(0)], s2, a);
    run := before + [StartRegister(0, task)] + [ReadLength(0)] + [a];
    assert r.pcs == s.pcs;
  }

  /** Two completions wait for a place, and then a request of the least urgent kind. */
  function ThreeWaiting(): seq<Task> {
    [Task(Completion, 10), Task(Completion, 11), Task(Other, 12)]
  }

  /** Ten tasks execute, three wait, and then one of the ten finishes. */
  function OneFree(holds: bool): State {
    State(holds, [Idle, Idle], ThreeWaiting(), Tasks(10)[1..], {}, Tasks(10) + ThreeWaiting(), [Task(Other, 0)], [], [], [])
  }

  lemma FirstFinishes(holds: bool, s: State)
    requires s == Busy(holds, 10).(registered := s.registered, pending := ThreeWaiting())
    ensures Enabled(s, Finish(0)) && Step(s, Finish(0)) == OneFree(holds).(registered := s.registered)
  {
    assert s.executing[0] == Task(Other, 0);
  }

  lemma OneFreeRun(holds: bool) returns (run: seq<Action>)
    ensures Run(holds, 2, run, OneFree(holds)) && forall a :: a in run ==> !a.Cancel?
  {
    hide Run, Enabled, Step;
    run := BusyRun(holds, 10);
    var s := Busy(holds, 10);
    run, s := Registers(holds, run, s, Task(Completion, 10));
    run, s := Registers(holds, run, s, Task(Completion, 11));
    run, s := Registers(holds, run, s, Task(Other, 12));
    assert s.registered == OneFree(holds).registered && s.pending == ThreeWaiting();
    FirstFinishes(holds, s);
    RunOne(holds, 2, run, s, Finish(0));
    run := run + [Finish(0)];
  }

  /** From one free place the steps lead to `s`, without a cancellation, and a completion is pending all the time. */
  ghost predicate Leads(holds: bool, acts: seq<Action>, s: State) {
    && AllEnabled(OneFree(holds), acts) && End(OneFree(holds), acts) == s
    && OvertakenThroughout(OneFree(holds), acts, Task(Other, 12))
    && forall a :: a in acts ==> !a.Cancel?
  }

  lemma LeadsOn(holds: bool, acts: seq<Action>, s: State, a: Action)
    requires Leads(holds, acts, s) && Enabled(s, a) && !a.Cancel? && Overtaken(Step(s, a).pending, Task(Other, 12))
    ensures Leads(holds, acts + [a], Step(s, a))
  {
    hide Overtaken, Step, Enabled, OneFree;
    OneMoreStep(OneFree(holds), acts, a);
    OvertakenOneMore(OneFree(holds), acts, a, Task(Other, 12));
  }

  lemma {:induction false} OvertakenOneMore(s: State, acts: seq<Action>, a: Action, task: Task)
    requires AllEnabled(s, acts) && AllEnabled(s, acts + [a]) && Overtaken(End(s, acts + [a]).pending, task)
    requires OvertakenThroughout(s, acts, task)
    ensures OvertakenThroughout(s, acts + [a], task)
    decreases |acts|
  {
    hide Overtaken, Step, Enabled;
    if acts == [] {
      assert ([] + [a])[1..] == [];
    } else {
      assert (acts + [a])[1..] == acts[1..] + [a];
      OvertakenOneMore(Step(s, acts[0]), acts[1..], a, task);
    }
  }

  lemma {:induction false} RunThenSteps(holds: bool, run: seq<Action>, s: State, acts: seq<Action>)
    requires Run(holds, 2, run, s) && AllEnabled(s, acts)
    ensures Run(holds, 2, run + acts, End(s, acts))
    decreases |acts|
  {
    hide Run, Step, Enabled;
    if acts == [] {
      assert run + [] == run;
    } else {
      RunOne(holds, 2, run, s, acts[0]);
      RunThenSteps(holds, run + [acts[0]], Step(s, acts[0]), acts[1..]);
      assert run + [acts[0]] + acts[1..] == run + acts;
    }
  }

  lemma CompletionOvertakes(pending: seq<Task>)
    requires Task(Completion, 11) in pending
    ensures Overtaken(pending, Task(Other, 12))
  {
  }

  /** A thread asks for task `i` of those waiting. */
  lemma Asks(holds: bool, before: seq<Action>, s: State, t: nat, i: nat) returns (acts: seq<Action>, r: State)
    requires Leads(holds, before, s) && t < 2 && |s.pcs| == 2 && s.pcs[t] == Idle && i < 2
    requires s.pending == ThreeWaiting() && s.executing == OneFree(holds).executing && s.holds == holds
    ensures Leads(holds, acts, r)
    ensures r == Goto(s, t, Waiting(s.pending[i])).(readers := if holds then s.readers + {t} else s.readers)
  {
    hide Leads, OneFree, LeastPriority, Position, Overtaken;
    WaitingAt(holds, i);
    CompletionOvertakes(s.pending);
    var s1 := Step(s, FindExecuting(t, 10 + i));
    LeadsOn(holds, before, s, FindExecuting(t, 10 + i));
    acts := before + [FindExecuting(t, 10 + i)];
    r := Step(s1, FindPending(t));
    LeadsOn(holds, acts, s1, FindPending(t));
    acts := acts + [FindPending(t)];
  }

  lemma WaitingAt(holds: bool, i: nat)
    requires i < 2
    ensures var s := OneFree(holds);
            && s.pending == ThreeWaiting() && s.pending[i].id == 10 + i && LeastPriority(s.pending, s.pending[i])
            && |s.executing| < MAX_WORKERS && Position(s.executing, 10 + i).None? && Position(s.pending, 10 + i) == Some(i)
  {
  }

  /** A thread that waits for task `i` passes the guard and has located it. */
  lemma Locates(holds: bool, before: seq<Action>, s: State, t: nat, i: nat) returns (acts: seq<Action>, r: State)
    requires Leads(holds, before, s) && t < 2 && |s.pcs| == 2 && i < 2
    requires s.pending == ThreeWaiting() && s.executing == OneFree(holds).executing
    requires s.pcs[t] == Waiting(s.pending[i])
    ensures Leads(holds, acts, r)
    ensures r == Goto(s, t, Removing(s.pending[i], i))
  {
    hide Leads, OneFree, LeastPriority, Position, Enabled, Overtaken;
    WaitingAt(holds, i);
    PassesGuard(s, t, i);
    CompletionOvertakes(s.pending);
    var s1 := Step(s, CheckLength(t));
    LeadsOn(holds, before, s, CheckLength(t));
    acts := before + [CheckLength(t)];
    var s2 := Step(s1, ComparePriority(t));
    LeadsOn(holds, acts, s1, ComparePriority(t));
    acts := acts + [ComparePriority(t)];
    r := Step(s2, Locate(t));
    LeadsOn(holds, acts, s2, Locate(t));
    acts := acts + [Locate(t)];
  }

  lemma BothLocate(holds: bool) returns (acts: seq<Action>, s: State)
    ensures Leads(holds, acts, s) && s.pending == ThreeWaiting()
    ensures s.pcs == [Removing(Task(Completion, 10), 0), Removing(Task(Completion, 11), 1)]
  {
    hide Tasks, Step, Enabled, Overtaken, Leads, Position, LeastPriority;
    acts, s := [], OneFree(holds);
    NoStepsLead(holds);
    acts, s := Asks(holds, acts, s, 0, 0);
    acts, s := Asks(holds, acts, s, 1, 1);
    acts, s := Locates(holds, acts, s, 0, 0);
    acts, s := Locates(holds, acts, s, 1, 1);
  }

  lemma NoStepsLead(holds: bool)
    ensures Leads(holds, [], OneFree(holds))
  {
    CompletionOvertakes(ThreeWaiting());
  }

  /**
   Two threads locate the completions, the first is removed, and the other thread takes the third task:
   the least urgent request overtakes a completion that is pending from before anyone asked until after.
   */
  lemma WrongTaskTaken(holds: bool) returns (run: seq<Action>, acts: seq<Action>, s: State)
    ensures Run(holds, 2, run, OneFree(holds)) && Run(holds, 2, run + acts, s)
    ensures forall a :: a in run + acts ==> !a.Cancel?
    ensures AllEnabled(OneFree(holds), acts) && OvertakenThroughout(OneFree(holds), acts, Task(Other, 12))
    ensures |s.pcs| == 2 && s.pcs[1] == Admitting(11, Task(Other, 12)) && s.pending == [Task(Completion, 11)]
  {
    hide Leads, Run, Step, Enabled, AllEnabled, End, Overtaken, OneFree, RemoveAt;
    run := OneFreeRun(holds);
    acts, s := BothLocate(holds);
    BothRemoved();
    acts, s := Removes(holds, acts, s, 0);
    acts, s := Removes(holds, acts, s, 1);
    LeadsFromRun(holds, run, acts, s);
  }

  lemma BothRemoved()
    ensures RemoveAt(ThreeWaiting(), 0) == [Task(Completion, 11), Task(Other, 12)]
    ensures RemoveAt([Task(Completion, 11), Task(Other, 12)], 1) == [Task(Completion, 11)]
  {
    EndsRemoved(Task(Completion, 10), Task(Completion, 11), Task(Other, 12));
  }

  lemma EndsRemoved(x: Task, y: Task, z: Task)
    ensures RemoveAt([x, y, z], 0) == [y, z] && RemoveAt([y, z], 1) == [y]
  {
    assert [x, y, z][..0] == [] && [x, y, z][1..] == [y, z];
    assert [y, z][..1] == [y] && [y, z][2..] == [];
  }

  lemma LeadsFromRun(holds: bool, run: seq<Action>, acts: seq<Action>, s: State)
    requires Run(holds, 2, run, OneFree(holds)) && Leads(holds, acts, s)
    ensures AllEnabled(OneFree(holds), acts) && OvertakenThroughout(OneFree(holds), acts, Task(Other, 12))
    ensures Run(holds, 2, run + acts, s) && forall a :: a in acts ==> !a.Cancel?
  {
    hide Run, AllEnabled, End, OvertakenThroughout, OneFree;
    RunThenSteps(holds, run, OneFree(holds), acts);
  }

  lemma Removes(holds: bool, before: seq<Action>, s: State, t: nat) returns (acts: seq<Action>, r: State)
    requires Leads(holds, before, s) && t < |s.pcs| && s.pcs[t].Removing? && s.pcs[t].at < |s.pending|
    requires Task(Completion, 11) in RemoveAt(s.pending, s.pcs[t].at)
    ensures Leads(holds, acts, r)
    ensures var i := s.pcs[t].at;
            r == Goto(s, t, Admitting(s.pcs[t].task.id, s.pending[i])).(pending := RemoveAt(s.pending, i))
  {
    hide Leads, RemoveAt, Overtaken;
    CompletionOvertakes(RemoveAt(s.pending, s.pcs[t].at));
    LeadsOn(holds, before, s, Remove(t));
    acts, r := before + [Remove(t)], Step(s, Remove(t));
  }
}
