/** The caption data receiver: a table of 32 slots shared by a worker thread, which delivers the data
    of slot 0 to a callback, and one control thread, which calls Init, Install, Uninstall and DeInit.

    Every access to shared state and every driver call is a step of its own; an action picks the
    thread to move and the driver's answer, and a run is any sequence of actions.  Some control steps
    take the mutex and some do not, exactly as in the code. */
module CaptionReceiver {
  import opened Types

  const SLOT_COUNT := 32

  type Handle = nat

  datatype Params = Params(dmxId: nat, pid: nat, userData: nat, callback: Option<nat>)

  datatype Slot = Slot(enabled: bool, params: Params, channel: Handle, filter: Handle)

  const CLEARED := Slot(false, Params(0, 0, 0, None), 0, 0)

  /** The table after its `memset`. */
  function Cleared(n: nat): (slots: seq<Slot>)
    ensures |slots| == n && forall k :: 0 <= k < n ==> slots[k] == CLEARED
  {
    if n == 0 then [] else Cleared(n - 1) + [CLEARED]
  }

  datatype Thread = Worker | Control

  /** Where the worker is: `Scan` to `Release` are rounds of its loop over the ready handles. */
  datatype WorkerPc =
    | Absent
    | Test
    | Lock
    | Check
    | Poll
    | Scan(handles: seq<Handle>, i: nat)
    | Deliver(handles: seq<Handle>, i: nat)
    | InCallback(handles: seq<Handle>, i: nat, params: Params)
    | Release(handles: seq<Handle>, i: nat)
    | Unlock
    | Exited

  /** Where the control thread is. `back` is the position at which DeInit resumes after uninstalling
      a slot, or `None` for a direct call. */
  datatype ControlPc =
    | Idle
    | InitClear | InitMutex | InitReady | InitSpawn | InitDone
    | DeLoop(i: nat) | DeClear | DeStop | DeJoin | DeMutex | DeDone
    | InstCreate(k: nat, p: Params) | InstPid(k: nat, p: Params) | InstOpen(k: nat, p: Params) | InstAbort(k: nat)
    | InstLock(k: nat, p: Params) | InstParams(k: nat, p: Params) | InstEnable(k: nat, p: Params) | InstUnlock
    | UnClose(k: nat, back: Option<nat>) | UnDestroy(k: nat, back: Option<nat>) | UnLock(k: nat, back: Option<nat>)
    | UnClear(k: nat, back: Option<nat>) | UnDisable(k: nat, back: Option<nat>) | UnUnlock(back: Option<nat>)

  datatype Event =
    | Enabled(k: nat, params: Params)
    | Disabled(k: nat)
    | CalledBack(params: Params)

  datatype State = State(
    slots: seq<Slot>,
    init: bool,
    ready: bool,
    mutexAlive: bool,
    owner: Option<Thread>,
    worker: WorkerPc,
    control: ControlPc,
    live: set<Handle>,
    log: seq<Event>)

  /** `live` is the set of demux channels created and not destroyed; `log` is history. */
  const START := State(Cleared(SLOT_COUNT), false, false, false, None, Absent, Idle, {}, [])

  datatype Action =
    | CallInit
    | CallDeInit
    | CallInstall(params: Params, attrOk: bool)
    | CallUninstall(k: nat)
    | MoveControl(ok: bool, handle: Handle)
    | MoveWorker(ok: bool, handles: seq<Handle>)

  // ----- The worker -----

  function WorkerStep(s: State, ok: bool, handles: seq<Handle>): (t: Option<State>)
    requires |s.slots| == SLOT_COUNT
    ensures t.Some? ==> |t.value.slots| == SLOT_COUNT
  {
    match s.worker
    case Absent => None
    case Exited => None
    case Test => Some(s.(worker := if s.ready then Lock else Exited))
    case Lock => if s.owner.None? then Some(s.(owner := Some(Worker), worker := Check)) else None
    case Check => Some(s.(worker := if s.slots[0].enabled then Poll else Unlock))
    case Poll => Some(s.(worker := if ok then Scan(handles, 0) else Unlock))
    case Scan(hs, i) =>
      if i >= |hs| then Some(s.(worker := Unlock))
      else if hs[i] == s.slots[0].channel && ok then Some(s.(worker := Deliver(hs, i)))
      else Some(s.(worker := Scan(hs, i + 1)))
    case Deliver(hs, i) =>
      if s.slots[0].params.callback.Some? then
        Some(s.(worker := InCallback(hs, i, s.slots[0].params), log := s.log + [CalledBack(s.slots[0].params)]))
      else Some(s.(worker := Release(hs, i)))
    case InCallback(hs, i, p) => Some(s.(worker := Release(hs, i)))
    case Release(hs, i) => Some(s.(worker := Scan(hs, i + 1)))
    case Unlock => Some(s.(owner := None, worker := Test))
  }

  // ----- The control thread -----

  function FirstFree(slots: seq<Slot>): (k: nat)
    ensures k <= |slots|
    ensures forall i :: 0 <= i < k ==> slots[i].enabled
    ensures k < |slots| ==> !slots[k].enabled
  {
    if slots == [] then 0 else if !slots[0].enabled then 0 else 1 + FirstFree(slots[1..])
  }

  /** A call from outside; it returns at once where the code does. */
  function Call(s: State, a: Action): (t: Option<State>)
    requires |s.slots| == SLOT_COUNT
    ensures t.Some? ==> |t.value.slots| == SLOT_COUNT
  {
    if !s.control.Idle? then None
    else
      match a
      case CallInit => Some(if s.init then s else s.(control := InitClear))
      case CallDeInit => Some(if s.init then s.(control := DeLoop(0)) else s)
      case CallInstall(p, attrOk) =>
        var k := FirstFree(s.slots);
        Some(if s.init && k < SLOT_COUNT && attrOk then s.(control := InstCreate(k, p)) else s)
      case CallUninstall(k) =>
        if k >= SLOT_COUNT then None else Some(if s.init then s.(control := UnClose(k, None)) else s)
      case _ => None
  }

  function InitStep(s: State): (t: Option<State>)
    requires |s.slots| == SLOT_COUNT
    ensures t.Some? ==> |t.value.slots| == SLOT_COUNT
  {
    match s.control
    case InitClear => Some(s.(slots := Cleared(SLOT_COUNT), control := InitMutex))
    case InitMutex => Some(s.(mutexAlive := true, owner := None, control := InitReady))
    case InitReady => Some(s.(ready := true, control := InitSpawn))
    case InitSpawn => Some(s.(worker := Test, control := InitDone))
    case InitDone => Some(s.(init := true, control := Idle))
    case _ => None
  }

  function DeInitStep(s: State): (t: Option<State>)
    requires |s.slots| == SLOT_COUNT
    ensures t.Some? ==> |t.value.slots| == SLOT_COUNT
  {
    match s.control
    case DeLoop(i) =>
      if i >= SLOT_COUNT then Some(s.(control := DeClear))
      else if s.slots[i].enabled then Some(s.(control := UnClose(i, Some(i + 1))))
      else Some(s.(control := DeLoop(i + 1)))
    case DeClear => Some(s.(slots := Cleared(SLOT_COUNT), control := DeStop))
    case DeStop => Some(s.(ready := false, control := DeJoin))
    case DeJoin => if s.worker.Exited? then Some(s.(worker := Absent, control := DeMutex)) else None
    case DeMutex => Some(s.(mutexAlive := false, control := DeDone))
    case DeDone => Some(s.(init := false, control := Idle))
    case _ => None
  }

  /** The driver returns a handle that is not in use. */
  function InstallStep(s: State, ok: bool, handle: Handle): (t: Option<State>)
    requires |s.slots| == SLOT_COUNT
    ensures t.Some? ==> |t.value.slots| == SLOT_COUNT
  {
    match s.control
    case InstCreate(k, p) =>
      if k >= SLOT_COUNT || handle in s.live then None
      else if !ok then Some(s.(control := Idle))
      else
        Some(s.(slots := s.slots[k := s.slots[k].(channel := handle)], live := s.live + {handle},
                control := InstPid(k, p)))
    case InstPid(k, p) => Some(s.(control := if ok then InstOpen(k, p) else InstAbort(k)))
    case InstOpen(k, p) => Some(s.(control := if ok then InstLock(k, p) else InstAbort(k)))
    case InstAbort(k) =>
      if k >= SLOT_COUNT then None else Some(s.(live := s.live - {s.slots[k].channel}, control := Idle))
    case InstLock(k, p) => if s.owner.None? then Some(s.(owner := Some(Control), control := InstParams(k, p))) else None
    case InstParams(k, p) =>
      if k >= SLOT_COUNT then None
      else Some(s.(slots := s.slots[k := s.slots[k].(params := p)], control := InstEnable(k, p)))
    case InstEnable(k, p) =>
      if k >= SLOT_COUNT then None
      else
        Some(s.(slots := s.slots[k := s.slots[k].(enabled := true)], log := s.log + [Enabled(k, p)],
                control := InstUnlock))
    case InstUnlock => Some(s.(owner := None, control := Idle))
    case _ => None
  }

  function UninstallStep(s: State): (t: Option<State>)
    requires |s.slots| == SLOT_COUNT
    ensures t.Some? ==> |t.value.slots| == SLOT_COUNT
  {
    match s.control
    case UnClose(k, back) => Some(s.(control := UnDestroy(k, back)))
    case UnDestroy(k, back) =>
      if k >= SLOT_COUNT then None else Some(s.(live := s.live - {s.slots[k].channel}, control := UnLock(k, back)))
    case UnLock(k, back) =>
      if s.owner.None? then Some(s.(owner := Some(Control), control := UnClear(k, back))) else None
    case UnClear(k, back) =>
      if k >= SLOT_COUNT then None
      else Some(s.(slots := s.slots[k := s.slots[k].(channel := 0, filter := 0)], control := UnDisable(k, back)))
    case UnDisable(k, back) =>
      if k >= SLOT_COUNT then None
      else
        Some(s.(slots := s.slots[k := s.slots[k].(enabled := false)], log := s.log + [Disabled(k)],
                control := UnUnlock(back)))
    case UnUnlock(back) => Some(s.(owner := None, control := if back.Some? then DeLoop(back.value) else Idle))
    case _ => None
  }

  function ControlStep(s: State, ok: bool, handle: Handle): (t: Option<State>)
    requires |s.slots| == SLOT_COUNT
    ensures t.Some? ==> |t.value.slots| == SLOT_COUNT
  {
    if InInit(s.control) then InitStep(s)
    else if InDeInit(s.control) then DeInitStep(s)
    else if InInstall(s.control) then InstallStep(s, ok, handle)
    else UninstallStep(s)
  }

  predicate InInit(c: ControlPc) {
    c.InitClear? || c.InitMutex? || c.InitReady? || c.InitSpawn? || c.InitDone?
  }

  predicate InDeInit(c: ControlPc) {
    c.DeLoop? || c.DeClear? || c.DeStop? || c.DeJoin? || c.DeMutex? || c.DeDone?
  }

  predicate InInstall(c: ControlPc) {
    || c.InstCreate? || c.InstPid? || c.InstOpen? || c.InstAbort?
    || c.InstLock? || c.InstParams? || c.InstEnable? || c.InstUnlock?
  }

  // ----- Runs -----

  /** One step of the system; `None` if the action is not possible in this state. */
  function Step(s: State, a: Action): (t: Option<State>)
    requires |s.slots| == SLOT_COUNT
    ensures t.Some? ==> |t.value.slots| == SLOT_COUNT
  {
    match a
    case MoveWorker(ok, handles) => WorkerStep(s, ok, handles)
    case MoveControl(ok, handle) => ControlStep(s, ok, handle)
    case _ => Call(s, a)
  }

  function Run(s: State, actions: seq<Action>): (t: Option<State>)
    requires |s.slots| == SLOT_COUNT
    ensures t.Some? ==> |t.value.slots| == SLOT_COUNT
    decreases |actions|
  {
    if actions == [] then Some(s)
    else
      var t := Step(s, actions[0]);
      if t.None? then None else Run(t.value, actions[1..])
  }

  // ----- The invariant of every run -----

  predicate Active(w: WorkerPc) {
    !w.Absent? && !w.Exited?
  }

  /** The worker is between its lock and its unlock. */
  predicate WorkerLocked(w: WorkerPc) {
    w.Check? || w.Unlock? || WorkerInside(w)
  }

  /** The worker has found slot 0 enabled and works with it. */
  predicate WorkerInside(w: WorkerPc) {
    w.Poll? || w.Scan? || w.Deliver? || w.InCallback? || w.Release?
  }

  predicate ControlLocked(c: ControlPc) {
    c.InstParams? || c.InstEnable? || c.InstUnlock? || c.UnClear? || c.UnDisable? || c.UnUnlock?
  }

  predicate Locks(s: State) {
    && (s.owner == Some(Worker) <==> WorkerLocked(s.worker))
    && (s.owner == Some(Control) <==> ControlLocked(s.control))
  }

  predicate Up(s: State) {
    s.init && s.mutexAlive && s.ready && Active(s.worker)
  }

  predicate Down(s: State) {
    !s.init && !s.mutexAlive && !s.ready && s.worker.Absent?
  }

  /** Which threads and objects exist at each point of the control thread. */
  predicate Phase(s: State) {
    match s.control
    case Idle => if s.init then Up(s) else Down(s)
    case InitClear => Down(s)
    case InitMutex => Down(s)
    case InitReady => !s.init && s.mutexAlive && !s.ready && s.worker.Absent?
    case InitSpawn => !s.init && s.mutexAlive && s.ready && s.worker.Absent?
    case InitDone => !s.init && s.mutexAlive && s.ready && Active(s.worker)
    case DeJoin => s.init && s.mutexAlive && !s.ready && !s.worker.Absent?
    case DeMutex => s.init && s.mutexAlive && !s.ready && s.worker.Absent?
    case DeDone => s.init && !s.mutexAlive && !s.ready && s.worker.Absent?
    case _ => Up(s)
  }

  predicate DisabledBelow(slots: seq<Slot>, n: nat) {
    n <= |slots| && forall j :: 0 <= j < n ==> !slots[j].enabled
  }

  /** The slot an operation works on, and the slots known to be disabled around it. */
  predicate SlotsAt(slots: seq<Slot>, c: ControlPc, init: bool)
    requires |slots| == SLOT_COUNT
  {
    match c
    case Idle => !init ==> DisabledBelow(slots, SLOT_COUNT)
    case DeLoop(i) => DisabledBelow(slots, i)
    case InstCreate(k, _) => k < SLOT_COUNT && !slots[k].enabled
    case InstPid(k, _) => k < SLOT_COUNT && !slots[k].enabled
    case InstOpen(k, _) => k < SLOT_COUNT && !slots[k].enabled
    case InstAbort(k) => k < SLOT_COUNT && !slots[k].enabled
    case InstLock(k, _) => k < SLOT_COUNT && !slots[k].enabled
    case InstParams(k, _) => k < SLOT_COUNT && !slots[k].enabled
    case InstEnable(k, p) => k < SLOT_COUNT && !slots[k].enabled && slots[k].params == p
    case InstUnlock => true
    case UnClose(k, back) => Resumes(slots, k, back)
    case UnDestroy(k, back) => Resumes(slots, k, back)
    case UnLock(k, back) => Resumes(slots, k, back)
    case UnClear(k, back) => Resumes(slots, k, back)
    case UnDisable(k, back) => Resumes(slots, k, back)
    case UnUnlock(back) => back.Some? ==> DisabledBelow(slots, back.value)
    case _ => DisabledBelow(slots, SLOT_COUNT)
  }

  predicate Resumes(slots: seq<Slot>, k: nat, back: Option<nat>) {
    k < |slots| && (back.Some? ==> back.value == k + 1 && DisabledBelow(slots, k))
  }

  /** The parameters of the installation that last enabled slot `k`, if it is still enabled. */
  function EnabledBy(log: seq<Event>, k: nat): Option<Params> {
    if log == [] then None
    else
      match log[|log| - 1]
      case Enabled(j, p) => if j == k then Some(p) else EnabledBy(log[..|log| - 1], k)
      case Disabled(j) => if j == k then None else EnabledBy(log[..|log| - 1], k)
      case CalledBack(_) => EnabledBy(log[..|log| - 1], k)
  }

  predicate LogMatches(slots: seq<Slot>, log: seq<Event>) {
    forall k :: 0 <= k < |slots| ==> EnabledBy(log, k) == if slots[k].enabled then Some(slots[k].params) else None
  }

  /** Every callback was made for the installation in force at that moment. */
  predicate CallbacksGenuine(log: seq<Event>) {
    forall j :: 0 <= j < |log| && log[j].CalledBack? ==> EnabledBy(log[..j], 0) == Some(log[j].params)
  }

  predicate WorkerSees(w: WorkerPc, slot: Slot) {
    (WorkerInside(w) ==> slot.enabled) && (w.InCallback? ==> w.params == slot.params)
  }

  predicate Inv(s: State) {
    && |s.slots| == SLOT_COUNT
    && Locks(s) && Phase(s) && SlotsAt(s.slots, s.control, s.init)
    && WorkerSees(s.worker, s.slots[0])
    && LogMatches(s.slots, s.log) && CallbacksGenuine(s.log)
  }

  lemma LogExtends(log: seq<Event>, e: Event)
    ensures e.CalledBack? ==> forall k :: EnabledBy(log + [e], k) == EnabledBy(log, k)
    ensures e.Enabled? ==> EnabledBy(log + [e], e.k) == Some(e.params)
    ensures e.Disabled? ==> EnabledBy(log + [e], e.k) == None
    ensures !e.CalledBack? ==> forall k :: k != e.k ==> EnabledBy(log + [e], k) == EnabledBy(log, k)
    ensures CallbacksGenuine(log) && (e.CalledBack? ==> EnabledBy(log, 0) == Some(e.params)) ==>
            CallbacksGenuine(log + [e])
  {
    assert (log + [e])[..|log|] == log;
    forall j | 0 <= j < |log|
      ensures (log + [e])[..j] == log[..j]
    {
    }
  }

  lemma WorkerKeepsInv(s: State, ok: bool, handles: seq<Handle>)
    requires Inv(s) && WorkerStep(s, ok, handles).Some?
    ensures Inv(WorkerStep(s, ok, handles).value)
  {
    hide EnabledBy, CallbacksGenuine;
    if s.worker.Deliver? {
      LogExtends(s.log, CalledBack(s.slots[0].params));
    }
  }

  lemma CallKeepsInv(s: State, a: Action)
    requires Inv(s) && Call(s, a).Some?
    ensures Inv(Call(s, a).value)
  {
    hide EnabledBy, CallbacksGenuine;
  }

  lemma InitKeepsInv(s: State)
    requires Inv(s) && InitStep(s).Some?
    ensures Inv(InitStep(s).value)
  {
    hide EnabledBy, CallbacksGenuine, Cleared;
  }

  lemma DeInitKeepsInv(s: State)
    requires Inv(s) && DeInitStep(s).Some?
    ensures Inv(DeInitStep(s).value)
  {
    hide EnabledBy, CallbacksGenuine, Cleared;
  }

  lemma InstallKeepsInv(s: State, ok: bool, handle: Handle)
    requires Inv(s) && InstallStep(s, ok, handle).Some?
    ensures Inv(InstallStep(s, ok, handle).value)
  {
    hide EnabledBy, CallbacksGenuine;
    if s.control.InstEnable? {
      LogExtends(s.log, Enabled(s.control.k, s.control.p));
    }
  }

  lemma UninstallKeepsInv(s: State)
    requires Inv(s) && UninstallStep(s).Some?
    ensures Inv(UninstallStep(s).value)
  {
    hide EnabledBy, CallbacksGenuine;
    if s.control.UnDisable? {
      LogExtends(s.log, Disabled(s.control.k));
    }
  }

  lemma StepKeepsInv(s: State, a: Action)
    requires Inv(s) && Step(s, a).Some?
    ensures Inv(Step(s, a).value)
  {
    hide Inv, WorkerStep, Call, InitStep, DeInitStep, InstallStep, UninstallStep;
    match a {
      case MoveWorker(ok, handles) => WorkerKeepsInv(s, ok, handles);
      case MoveControl(ok, handle) =>
        if InInit(s.control) {
          InitKeepsInv(s);
        } else if InDeInit(s.control) {
          DeInitKeepsInv(s);
        } else if InInstall(s.control) {
          InstallKeepsInv(s, ok, handle);
        } else {
          UninstallKeepsInv(s);
        }
      case _ => CallKeepsInv(s, a);
    }
  }

  lemma {:induction false} RunKeepsInv(s: State, actions: seq<Action>)
    requires Inv(s) && Run(s, actions).Some?
    ensures Inv(Run(s, actions).value)
    decreases |actions|
  {
    if actions != [] {
      hide Inv, Step;
      StepKeepsInv(s, actions[0]);
      RunKeepsInv(Step(s, actions[0]).value, actions[1..]);
    }
  }

  lemma StartInv()
    ensures Inv(START)
  {
  }

  // ----- Safety of the callback and of the mutex -----

  /** In every interleaving: while a callback runs the worker holds the mutex, slot 0 is enabled, the
      callback has the parameters of the installation that enabled it, and neither of the unlocked
      `memset`s of the table can be the next control step.  Every callback of the past was equally
      genuine. */
  lemma CallbackSafety(actions: seq<Action>)
    requires Run(START, actions).Some?
    ensures var s := Run(START, actions).value;
            && (s.worker.InCallback? ==>
                  && s.owner == Some(Worker) && s.slots[0].enabled
                  && EnabledBy(s.log, 0) == Some(s.worker.params)
                  && !s.control.InitClear? && !s.control.DeClear?)
            && CallbacksGenuine(s.log)
  {
    StartInv();
    RunKeepsInv(START, actions);
  }

  /** In every interleaving: the mutex is destroyed only when nobody holds it and after the worker has
      been joined, and it exists whenever a thread is about to take it or holds it. */
  lemma MutexSafety(actions: seq<Action>)
    requires Run(START, actions).Some?
    ensures var s := Run(START, actions).value;
            && (s.control.DeMutex? ==> s.owner.None? && s.worker.Absent?)
            && (s.owner.Some? || s.worker.Lock? || s.control.InstLock? || s.control.UnLock? ==> s.mutexAlive)
  {
    hide LogMatches, CallbacksGenuine, SlotsAt, Run;
    StartInv();
    RunKeepsInv(START, actions);
    OwnerIsLocked(Run(START, actions).value);
  }

  lemma OwnerIsLocked(s: State)
    requires Locks(s)
    ensures s.owner.None? || WorkerLocked(s.worker) || ControlLocked(s.control)
  {
    if s.owner.Some? {
      match s.owner.value {
        case Worker =>
        case Control =>
      }
    }
  }

  lemma {:induction false} FreshHandle(live: set<Handle>) returns (h: Handle)
    ensures forall x :: x in live ==> x < h
  {
    h := 0;
    if x :| x in live {
      var g := FreshHandle(live - {x});
      h := if g <= x then x + 1 else g;
      assert live == (live - {x}) + {x};
    }
  }

  /** A control operation in progress never gets stuck: one of the two threads can move. */
  lemma NoDeadlock(s: State) returns (a: Action)
    requires Inv(s) && !s.control.Idle?
    ensures (a.MoveControl? || a.MoveWorker?) && Step(s, a).Some?
  {
    hide LogMatches, CallbacksGenuine, FirstFree;
    var h := FreshHandle(s.live);
    assert h !in s.live;
    OwnerIsLocked(s);
    a := if ControlStep(s, true, h).Some? then MoveControl(true, h) else MoveWorker(true, []);
  }

  /** How many steps the worker is from its exit once it has been told to stop. */
  function ExitDistance(w: WorkerPc): nat {
    match w
    case Exited => 0
    case Test => 1
    case Unlock => 2
    case Check => 3
    case _ => 4
  }

  /** The join in DeInit is never blocked and needs at most four more steps of the worker. */
  lemma JoinTerminates(s: State, ok: bool, handles: seq<Handle>)
    requires Inv(s) && s.control.DeJoin? && !s.worker.Exited?
    ensures ExitDistance(s.worker) <= 4
    ensures WorkerStep(s, ok, handles).Some?
    ensures ExitDistance(WorkerStep(s, ok, handles).value.worker) < ExitDistance(s.worker)
  {
    hide LogMatches, CallbacksGenuine;
    OwnerIsLocked(s);
  }

  // ----- Conservation of demux channels -----

  /** Slot `k` is answerable for the channel it names. */
  predicate Owns(s: State, k: nat)
    requires k < |s.slots|
  {
    match s.control
    case InstPid(j, _) => j == k || s.slots[k].enabled
    case InstOpen(j, _) => j == k || s.slots[k].enabled
    case InstAbort(j) => j == k || s.slots[k].enabled
    case InstLock(j, _) => j == k || s.slots[k].enabled
    case InstParams(j, _) => j == k || s.slots[k].enabled
    case InstEnable(j, _) => j == k || s.slots[k].enabled
    case UnLock(j, _) => j != k && s.slots[k].enabled
    case UnClear(j, _) => j != k && s.slots[k].enabled
    case UnDisable(j, _) => j != k && s.slots[k].enabled
    case _ => s.slots[k].enabled
  }

  ghost predicate Held(s: State, h: Handle) {
    exists k :: 0 <= k < |s.slots| && Owns(s, k) && s.slots[k].channel == h
  }

  /** The live channels are those of the owning slots, one each; an uninstallation in progress is that
      of an enabled slot, and once its channel is gone nobody else has it. */
  ghost predicate Ledger(s: State) {
    && (forall k :: 0 <= k < |s.slots| && Owns(s, k) ==> s.slots[k].channel in s.live)
    && (forall h :: h in s.live ==> Held(s, h))
    && (forall j, k :: 0 <= j < k < |s.slots| && Owns(s, j) && Owns(s, k) ==> s.slots[j].channel != s.slots[k].channel)
    && (Uninstalls(s.control) ==> s.control.k < |s.slots| && s.slots[s.control.k].enabled)
    && (s.control.UnLock? || s.control.UnClear? ==> s.slots[s.control.k].channel !in s.live)
  }

  predicate Uninstalls(c: ControlPc) {
    c.UnClose? || c.UnDestroy? || c.UnLock? || c.UnClear? || c.UnDisable?
  }

  /** Only handles of enabled slots are uninstalled. */
  predicate Proper(s: State, a: Action)
    requires |s.slots| == SLOT_COUNT
  {
    a.CallUninstall? && a.k < SLOT_COUNT ==> s.slots[a.k].enabled
  }

  predicate ProperRun(s: State, actions: seq<Action>)
    requires |s.slots| == SLOT_COUNT
    decreases |actions|
  {
    actions != [] ==>
      && Proper(s, actions[0])
      && (Step(s, actions[0]).Some? ==> ProperRun(Step(s, actions[0]).value, actions[1..]))
  }

  /** Steps that leave slots, channels and ownership alone. */
  lemma LedgerUnmoved(s: State, t: State)
    requires Ledger(s) && t.live == s.live && |t.slots| == |s.slots|
    requires forall k :: 0 <= k < |s.slots| ==>
             Owns(t, k) == Owns(s, k) && (Owns(s, k) ==> t.slots[k].channel == s.slots[k].channel)
    requires Uninstalls(t.control) ==> t.control.k < |t.slots| && t.slots[t.control.k].enabled
    requires t.control.UnLock? || t.control.UnClear? ==> t.slots[t.control.k].channel !in t.live
    ensures Ledger(t)
  {
    forall h | h in t.live
      ensures Held(t, h)
    {
      assert Held(s, h);
      var k :| 0 <= k < |s.slots| && Owns(s, k) && s.slots[k].channel == h;
      assert Owns(t, k) && t.slots[k].channel == h;
    }
  }

  lemma LedgerCreates(s: State, t: State, k: nat, h: Handle)
    requires Ledger(s) && h !in s.live && k < |s.slots| == |t.slots|
    requires !Owns(s, k) && t.live == s.live + {h} && Owns(t, k) && t.slots[k].channel == h
    requires forall j :: 0 <= j < |s.slots| && j != k ==> Owns(t, j) == Owns(s, j) && t.slots[j] == s.slots[j]
    requires !Uninstalls(t.control)
    ensures Ledger(t)
  {
    forall x | x in t.live
      ensures Held(t, x)
    {
      if x == h {
        assert Owns(t, k) && t.slots[k].channel == x;
      } else {
        assert Held(s, x);
        var j :| 0 <= j < |s.slots| && Owns(s, j) && s.slots[j].channel == x;
        assert Owns(t, j) && t.slots[j].channel == x;
      }
    }
  }

  lemma LedgerDestroys(s: State, t: State, k: nat)
    requires Ledger(s) && k < |s.slots| && t.slots == s.slots
    requires Owns(s, k) && t.live == s.live - {s.slots[k].channel} && !Owns(t, k)
    requires forall j :: 0 <= j < |s.slots| && j != k ==> Owns(t, j) == Owns(s, j)
    requires Uninstalls(t.control) ==> t.control.k == k && s.slots[k].enabled
    ensures Ledger(t)
  {
    forall x | x in t.live
      ensures Held(t, x)
    {
      assert Held(s, x);
      var j :| 0 <= j < |s.slots| && Owns(s, j) && s.slots[j].channel == x;
      assert Owns(t, j) && t.slots[j].channel == x;
    }
  }

  /** With every slot disabled and no operation on a slot under way, there are no live channels. */
  lemma NobodyOwns(s: State)
    requires Ledger(s) && forall k :: 0 <= k < |s.slots| ==> !Owns(s, k)
    ensures s.live == {}
  {
    forall h: Handle
      ensures !Held(s, h)
    {
    }
  }

  lemma ClearingKeepsLedger(s: State, t: State)
    requires Ledger(s) && |s.slots| == SLOT_COUNT && DisabledBelow(s.slots, SLOT_COUNT)
    requires s.control.InitClear? || s.control.DeClear?
    requires t.live == s.live && |t.slots| == SLOT_COUNT && DisabledBelow(t.slots, SLOT_COUNT)
    requires t.control.InitMutex? || t.control.DeStop?
    ensures Ledger(t)
  {
    NobodyOwns(s);
  }

  lemma InitKeepsLedger(s: State)
    requires Inv(s) && Ledger(s) && InitStep(s).Some?
    ensures Ledger(InitStep(s).value)
  {
    hide Ledger, LogMatches, CallbacksGenuine;
    var t := InitStep(s).value;
    if s.control.InitClear? {
      ClearingKeepsLedger(s, t);
    } else {
      LedgerUnmoved(s, t);
    }
  }

  lemma DeInitKeepsLedger(s: State)
    requires Inv(s) && Ledger(s) && DeInitStep(s).Some?
    ensures Ledger(DeInitStep(s).value)
  {
    hide Ledger, LogMatches, CallbacksGenuine;
    var t := DeInitStep(s).value;
    if s.control.DeClear? {
      ClearingKeepsLedger(s, t);
    } else {
      LedgerUnmoved(s, t);
    }
  }

  lemma InstallKeepsLedger(s: State, ok: bool, handle: Handle)
    requires Inv(s) && Ledger(s) && InstallStep(s, ok, handle).Some?
    ensures Ledger(InstallStep(s, ok, handle).value)
  {
    hide Ledger, LogMatches, CallbacksGenuine;
    var t := InstallStep(s, ok, handle).value;
    if s.control.InstCreate? && ok {
      LedgerCreates(s, t, s.control.k, handle);
    } else if s.control.InstAbort? {
      LedgerDestroys(s, t, s.control.k);
    } else {
      LedgerUnmoved(s, t);
    }
  }

  lemma UninstallKeepsLedger(s: State)
    requires Inv(s) && Ledger(s) && UninstallStep(s).Some?
    ensures Ledger(UninstallStep(s).value)
  {
    hide LogMatches, CallbacksGenuine, Held;
    var t := UninstallStep(s).value;
    if s.control.UnDestroy? {
      LedgerDestroys(s, t, s.control.k);
    } else {
      LedgerUnmoved(s, t);
    }
  }

  lemma StepKeepsLedger(s: State, a: Action)
    requires Inv(s) && Ledger(s) && Proper(s, a) && Step(s, a).Some?
    ensures Ledger(Step(s, a).value)
  {
    hide Ledger, LogMatches, CallbacksGenuine;
    match a {
      case MoveWorker(ok, handles) => LedgerUnmovedByWorker(s, ok, handles);
      case MoveControl(ok, handle) =>
        hide *;
        if InInit(s.control) {
          InitKeepsLedger(s);
        } else if InDeInit(s.control) {
          DeInitKeepsLedger(s);
        } else if InInstall(s.control) {
          InstallKeepsLedger(s, ok, handle);
        } else {
          UninstallKeepsLedger(s);
        }
      case _ => LedgerUnmoved(s, Step(s, a).value);
    }
  }

  lemma LedgerUnmovedByWorker(s: State, ok: bool, handles: seq<Handle>)
    requires Inv(s) && Ledger(s) && WorkerStep(s, ok, handles).Some?
    ensures Ledger(WorkerStep(s, ok, handles).value)
  {
    hide LogMatches, CallbacksGenuine, Held, WorkerStep;
    WorkerLeavesTheRest(s, ok, handles);
    LedgerUnmoved(s, WorkerStep(s, ok, handles).value);
  }

  lemma {:induction false} RunKeepsLedger(s: State, actions: seq<Action>)
    requires Inv(s) && Ledger(s) && ProperRun(s, actions) && Run(s, actions).Some?
    ensures Inv(Run(s, actions).value) && Ledger(Run(s, actions).value)
    decreases |actions|
  {
    if actions != [] {
      hide Inv, Step, Ledger, Proper;
      StepKeepsInv(s, actions[0]);
      StepKeepsLedger(s, actions[0]);
      RunKeepsLedger(Step(s, actions[0]).value, actions[1..]);
    }
  }

  /** Between control operations of every run that uninstalls only enabled handles, and so also after
      any failed step of an Install, the live channels are exactly those of the enabled slots, one
      each; after DeInit there are none. */
  lemma ChannelConservation(actions: seq<Action>)
    requires ProperRun(START, actions) && Run(START, actions).Some?
    requires Run(START, actions).value.control.Idle?
    ensures var s := Run(START, actions).value;
            && (forall h :: h in s.live <==>
                exists k :: 0 <= k < SLOT_COUNT && s.slots[k].enabled && s.slots[k].channel == h)
            && (forall j, k :: 0 <= j < k < SLOT_COUNT && s.slots[j].enabled && s.slots[k].enabled ==>
                  s.slots[j].channel != s.slots[k].channel)
            && (!s.init ==> s.live == {})
  {
    hide Run, ProperRun, LogMatches, CallbacksGenuine;
    StartInv();
    RunKeepsLedger(START, actions);
    var s := Run(START, actions).value;
    forall h | h in s.live
      ensures exists k :: 0 <= k < SLOT_COUNT && s.slots[k].enabled && s.slots[k].channel == h
    {
      assert Held(s, h);
    }
    if !s.init {
      NobodyOwns(s);
    }
  }

  const GO := MoveControl(true, 0)

  function Moves(n: nat): seq<Action> {
    if n == 0 then [] else [GO] + Moves(n - 1)
  }

  /** An Uninstall of slot `k` carried out while the worker is not inside its lock. */
  function UninstallAlone(k: nat): seq<Action> {
    [CallUninstall(k)] + Moves(6)
  }

  function AfterUninstall(s: State, k: nat): State
    requires k < |s.slots|
  {
    var slot := s.slots[k];
    s.(slots := s.slots[k := slot.(enabled := false, channel := 0, filter := 0)],
       live := s.live - {slot.channel}, log := s.log + [Disabled(k)])
  }

  lemma RunHead(s: State, a: Action, rest: seq<Action>)
    requires |s.slots| == SLOT_COUNT && Step(s, a).Some?
    ensures Run(s, [a] + rest) == Run(Step(s, a).value, rest)
  {
    hide Step;
    assert ([a] + rest)[1..] == rest;
  }

  lemma MoveHead(s: State, n: nat)
    requires |s.slots| == SLOT_COUNT && n > 0 && UninstallStep(s).Some?
    requires !InInit(s.control) && !InDeInit(s.control) && !InInstall(s.control)
    ensures |UninstallStep(s).value.slots| == SLOT_COUNT
    ensures Run(s, Moves(n)) == Run(UninstallStep(s).value, Moves(n - 1))
  {
    hide Run, UninstallStep, InitStep, DeInitStep, InstallStep;
    assert Step(s, GO) == UninstallStep(s);
    RunHead(s, GO, Moves(n - 1));
  }

  /** Uninstall from taking the mutex to clearing the handles. */
  lemma UninstallClears(s: State, k: nat)
    requires |s.slots| == SLOT_COUNT && s.control == UnLock(k, None) && s.owner.None? && k < SLOT_COUNT
    ensures Run(s, Moves(4)) == Run(s.(slots := s.slots[k := s.slots[k].(channel := 0, filter := 0)],
                                       owner := Some(Control), control := UnDisable(k, None)), Moves(2))
  {
    hide Run, Moves;
    MoveHead(s, 4);
    MoveHead(UninstallStep(s).value, 3);
  }

  /** Uninstall from disabling the slot to its return. */
  lemma UninstallReturns(s: State, k: nat)
    requires |s.slots| == SLOT_COUNT && s.control == UnDisable(k, None) && k < SLOT_COUNT
    ensures Run(s, Moves(2)) == Some(s.(slots := s.slots[k := s.slots[k].(enabled := false)],
                                        log := s.log + [Disabled(k)], owner := None, control := Idle))
  {
    hide Run, Moves;
    MoveHead(s, 2);
    var t := UninstallStep(s).value;
    MoveHead(t, 1);
    RunsNowhere(UninstallStep(t).value);
  }

  lemma RunsNowhere(s: State)
    requires |s.slots| == SLOT_COUNT
    ensures Run(s, Moves(0)) == Some(s)
  {
  }

  /** Uninstall from the call to the mutex. */
  lemma UninstallBegins(s: State, k: nat)
    requires |s.slots| == SLOT_COUNT && s.control.Idle? && s.init && k < SLOT_COUNT
    ensures Run(s, UninstallAlone(k)) ==
            Run(s.(live := s.live - {s.slots[k].channel}, control := UnLock(k, None)), Moves(4))
  {
    hide Run, Moves;
    assert Step(s, CallUninstall(k)) == Some(s.(control := UnClose(k, None)));
    RunHead(s, CallUninstall(k), Moves(6));
    var t := s.(control := UnClose(k, None));
    MoveHead(t, 6);
    MoveHead(UninstallStep(t).value, 5);
  }

  /** An Uninstall that is not disturbed completes. */
  lemma UninstallRuns(s: State, k: nat)
    requires |s.slots| == SLOT_COUNT && s.control.Idle? && s.init && s.owner.None? && k < SLOT_COUNT
    ensures Run(s, UninstallAlone(k)) == Some(AfterUninstall(s, k))
  {
    hide Run, Moves, UninstallAlone;
    UninstallBegins(s, k);
    var s3 := s.(live := s.live - {s.slots[k].channel}, control := UnLock(k, None));
    UninstallClears(s3, k);
    var s5 := s3.(slots := s.slots[k := s.slots[k].(channel := 0, filter := 0)], owner := Some(Control),
                  control := UnDisable(k, None));
    UninstallReturns(s5, k);
    assert s5.slots[k := s5.slots[k].(enabled := false)] == AfterUninstall(s, k).slots;
  }

  /** Where an Uninstall of slot `k` that was called in state `s` has got to in state `t`, whatever the worker
      has done meanwhile. */
  predicate Uninstalling(s: State, k: nat, t: State)
    requires k < |s.slots|
  {
    var slot := s.slots[k];
    match t.control
    case UnClose(j, back) => j == k && back.None? && t.slots == s.slots && t.live == s.live
    case UnDestroy(j, back) => j == k && back.None? && t.slots == s.slots && t.live == s.live
    case UnLock(j, back) => j == k && back.None? && t.slots == s.slots && t.live == s.live - {slot.channel}
    case UnClear(j, back) => j == k && back.None? && t.slots == s.slots && t.live == s.live - {slot.channel}
    case UnDisable(j, back) =>
      && j == k && back.None? && t.live == s.live - {slot.channel}
      && t.slots == s.slots[k := slot.(channel := 0, filter := 0)]
    case UnUnlock(back) => back.None? && Uninstalled(s, k, t)
    case Idle => Uninstalled(s, k, t)
    case _ => false
  }

  predicate Uninstalled(s: State, k: nat, t: State)
    requires k < |s.slots|
  {
    && t.live == s.live - {s.slots[k].channel}
    && t.slots == s.slots[k := s.slots[k].(enabled := false, channel := 0, filter := 0)]
  }

  predicate IsMove(a: Action) {
    a.MoveControl? || a.MoveWorker?
  }

  predicate OnlyMoves(actions: seq<Action>) {
    forall i :: 0 <= i < |actions| ==> IsMove(actions[i])
  }

  lemma MoveKeepsUninstalling(s: State, k: nat, t: State, a: Action)
    requires |s.slots| == |t.slots| == SLOT_COUNT && k < SLOT_COUNT && Uninstalling(s, k, t)
    requires IsMove(a) && Step(t, a).Some?
    ensures Uninstalling(s, k, Step(t, a).value)
  {
    if a.MoveWorker? {
      WorkerLeavesTheRest(t, a.ok, a.handles);
    } else {
      hide WorkerStep, Call, UninstallStep, InitStep, DeInitStep, InstallStep;
      assert Step(t, a) == UninstallStep(t);
      UninstallStepMovesOn(s, k, t);
    }
  }

  lemma UninstallStepMovesOn(s: State, k: nat, t: State)
    requires |s.slots| == |t.slots| == SLOT_COUNT && k < SLOT_COUNT && Uninstalling(s, k, t)
    requires UninstallStep(t).Some?
    ensures Uninstalling(s, k, UninstallStep(t).value)
  {
    if t.control.UnDisable? {
      assert t.slots[k := t.slots[k].(enabled := false)] ==
             s.slots[k := s.slots[k].(enabled := false, channel := 0, filter := 0)];
    }
  }

  lemma WorkerLeavesTheRest(t: State, ok: bool, handles: seq<Handle>)
    requires |t.slots| == SLOT_COUNT && WorkerStep(t, ok, handles).Some?
    ensures var u := WorkerStep(t, ok, handles).value;
            u.slots == t.slots && u.live == t.live && u.control == t.control
  {
  }

  lemma {:induction false} MovesKeepUninstalling(s: State, k: nat, t: State, moves: seq<Action>)
    requires |s.slots| == |t.slots| == SLOT_COUNT && k < SLOT_COUNT && Uninstalling(s, k, t)
    requires OnlyMoves(moves) && Run(t, moves).Some?
    ensures Uninstalling(s, k, Run(t, moves).value)
    decreases |moves|
  {
    if moves != [] {
      hide Uninstalling, Step;
      MoveKeepsUninstalling(s, k, t, moves[0]);
      MovesKeepUninstalling(s, k, Step(t, moves[0]).value, moves[1..]);
    }
  }

  /** Uninstalling is the one call that can break the ledger. However the worker's steps fall between those
      of the call, once it has returned the ledger is in order if and only if the slot was enabled or the
      handle left in it was nobody's. */
  lemma UninstallKeepsLedgerExactly(s: State, k: nat, moves: seq<Action>)
    requires Inv(s) && Ledger(s) && s.control.Idle? && s.init && k < SLOT_COUNT
    requires OnlyMoves(moves) && Run(s, [CallUninstall(k)] + moves).Some?
    requires Run(s, [CallUninstall(k)] + moves).value.control.Idle?
    ensures Ledger(Run(s, [CallUninstall(k)] + moves).value) <==> s.slots[k].enabled || s.slots[k].channel !in s.live
  {
    var t := Run(s, [CallUninstall(k)] + moves).value;
    var s1 := s.(control := UnClose(k, None));
    assert Step(s, CallUninstall(k)) == Some(s1);
    RunHead(s, CallUninstall(k), moves);
    MovesKeepUninstalling(s, k, s1, moves);
    hide Inv, Run, Step;
    LedgerAfterUninstall(s, k, t);
  }

  lemma LedgerAfterUninstall(s: State, k: nat, t: State)
    requires |s.slots| == SLOT_COUNT && Ledger(s) && s.control.Idle? && t.control.Idle? && k < SLOT_COUNT &&
             Uninstalled(s, k, t)
    ensures Ledger(t) <==> s.slots[k].enabled || s.slots[k].channel !in s.live
  {
    var h := s.slots[k].channel;
    if s.slots[k].enabled || h !in s.live {
      forall x | x in t.live
        ensures Held(t, x)
      {
        assert Held(s, x);
        var j :| 0 <= j < |s.slots| && Owns(s, j) && s.slots[j].channel == x;
        assert j != k && t.slots[j] == s.slots[j];
      }
    } else {
      assert Held(s, h);
      var j :| 0 <= j < |s.slots| && Owns(s, j) && s.slots[j].channel == h;
      assert t.slots[j] == s.slots[j] && Owns(t, j) && t.slots[j].channel !in t.live;
    }
  }

  // ----- What the other calls have done when they return -----

  /** The steps of the control thread in a run. */
  function ControlMoves(actions: seq<Action>): (moves: seq<Action>)
    ensures forall i :: 0 <= i < |moves| ==> moves[i].MoveControl?
  {
    if actions == [] then []
    else
      var a := actions[|actions| - 1];
      ControlMoves(actions[..|actions| - 1]) + if a.MoveControl? then [a] else []
  }

  /** The driver created the channel, took the PID and opened the channel. */
  predicate Granted(done: seq<Action>)
    requires forall i :: 0 <= i < |done| ==> done[i].MoveControl?
  {
    |done| >= 3 && done[0].ok && done[1].ok && done[2].ok
  }

  /** It refused one of the requests. */
  predicate Denied(done: seq<Action>)
    requires forall i :: 0 <= i < |done| ==> done[i].MoveControl?
  {
    exists i :: 0 <= i < 3 && i < |done| && !done[i].ok
  }

  predicate Installed(s: State, k: nat, p: Params, h: Handle, t: State)
    requires k < |s.slots|
  {
    && t.live == s.live + {h}
    && t.slots == s.slots[k := s.slots[k].(enabled := true, params := p, channel := h)]
  }

  /** At most the channel handle of slot `k` differs. */
  predicate Refused(s: State, k: nat, t: State)
    requires k < |s.slots|
  {
    && t.live == s.live && |t.slots| == |s.slots|
    && t.slots == s.slots[k := s.slots[k].(channel := t.slots[k].channel)]
  }

  predicate Created(s: State, k: nat, done: seq<Action>, t: State)
    requires k < |s.slots| && done != [] && done[0].MoveControl?
  {
    && done[0].ok && done[0].handle !in s.live && t.live == s.live + {done[0].handle}
    && t.slots == s.slots[k := s.slots[k].(channel := done[0].handle)]
  }

  /** Where an Install on slot `k` that was called in state `s` has got to in state `t`, after the steps `done`. */
  predicate Installing(s: State, k: nat, p: Params, done: seq<Action>, t: State)
    requires k < |s.slots| && forall i :: 0 <= i < |done| ==> done[i].MoveControl?
  {
    match t.control
    case InstCreate(j, q) => j == k && q == p && done == [] && t.slots == s.slots && t.live == s.live
    case InstPid(j, q) => j == k && q == p && |done| == 1 && Created(s, k, done, t)
    case InstOpen(j, q) => j == k && q == p && |done| == 2 && Created(s, k, done, t) && done[1].ok
    case InstAbort(j) => j == k && |done| > 0 && Created(s, k, done, t) && Denied(done)
    case InstLock(j, q) => j == k && q == p && Granted(done) && Created(s, k, done, t)
    case InstParams(j, q) => j == k && q == p && Granted(done) && Created(s, k, done, t)
    case InstEnable(j, q) =>
      && j == k && q == p && Granted(done) && t.live == s.live + {done[0].handle}
      && t.slots == s.slots[k := s.slots[k].(params := p, channel := done[0].handle)]
    case InstUnlock => Granted(done) && Installed(s, k, p, done[0].handle, t)
    case Idle => if Granted(done) then Installed(s, k, p, done[0].handle, t) else Refused(s, k, t)
    case _ => false
  }

  lemma DeniedStays(done: seq<Action>, a: Action)
    requires a.MoveControl? && forall i :: 0 <= i < |done| ==> done[i].MoveControl?
    ensures Denied(done) ==> Denied(done + [a])
    ensures Denied(done) ==> !Granted(done)
    ensures |done| < 3 && !a.ok ==> Denied(done + [a])
    ensures Granted(done) ==> Granted(done + [a])
  {
    if Denied(done) {
      var i :| 0 <= i < 3 && i < |done| && !done[i].ok;
      assert (done + [a])[i] == done[i];
    }
    if |done| < 3 && !a.ok {
      assert (done + [a])[|done|] == a;
    }
  }

  /** The three requests to the driver, and giving up. */
  lemma RequestMovesOn(s: State, k: nat, p: Params, done: seq<Action>, t: State, a: Action)
    requires |s.slots| == |t.slots| == SLOT_COUNT && k < SLOT_COUNT
    requires forall i :: 0 <= i < |done| ==> done[i].MoveControl?
    requires Installing(s, k, p, done, t) && a.MoveControl? && InstallStep(t, a.ok, a.handle).Some?
    requires t.control.InstCreate? || t.control.InstPid? || t.control.InstOpen? || t.control.InstAbort?
    ensures Installing(s, k, p, done + [a], InstallStep(t, a.ok, a.handle).value)
  {
    DeniedStays(done, a);
    DeniedStays(done + [a], a);
    hide Denied;
    if t.control.InstAbort? {
      assert s.live + {done[0].handle} - {done[0].handle} == s.live;
    } else if t.control.InstCreate? {
      assert s.slots[k := s.slots[k].(channel := s.slots[k].channel)] == s.slots;
    }
  }

  /** The part under the mutex. */
  lemma EntryMovesOn(s: State, k: nat, p: Params, done: seq<Action>, t: State, a: Action)
    requires |s.slots| == |t.slots| == SLOT_COUNT && k < SLOT_COUNT
    requires forall i :: 0 <= i < |done| ==> done[i].MoveControl?
    requires Installing(s, k, p, done, t) && a.MoveControl? && InstallStep(t, a.ok, a.handle).Some?
    requires t.control.InstLock? || t.control.InstParams? || t.control.InstEnable? || t.control.InstUnlock?
    ensures Installing(s, k, p, done + [a], InstallStep(t, a.ok, a.handle).value)
  {
    DeniedStays(done, a);
    assert (done + [a])[0] == done[0];
    hide Denied, Granted;
    if t.control.InstParams? {
      assert t.slots[k := t.slots[k].(params := p)] ==
             s.slots[k := s.slots[k].(params := p, channel := done[0].handle)];
    } else if t.control.InstEnable? {
      assert t.slots[k := t.slots[k].(enabled := true)] ==
             s.slots[k := s.slots[k].(enabled := true, params := p, channel := done[0].handle)];
    }
  }

  lemma MoveKeepsInstalling(s: State, k: nat, p: Params, done: seq<Action>, t: State, a: Action)
    requires |s.slots| == |t.slots| == SLOT_COUNT && k < SLOT_COUNT
    requires forall i :: 0 <= i < |done| ==> done[i].MoveControl?
    requires Installing(s, k, p, done, t) && IsMove(a) && Step(t, a).Some?
    ensures Installing(s, k, p, if a.MoveControl? then done + [a] else done, Step(t, a).value)
  {
    if a.MoveWorker? {
      WorkerLeavesTheRest(t, a.ok, a.handles);
      hide WorkerStep;
    } else {
      hide WorkerStep, Call, InitStep, DeInitStep, InstallStep;
      assert Step(t, a) == InstallStep(t, a.ok, a.handle);
      if t.control.InstCreate? || t.control.InstPid? || t.control.InstOpen? || t.control.InstAbort? {
        RequestMovesOn(s, k, p, done, t, a);
      } else {
        EntryMovesOn(s, k, p, done, t, a);
      }
    }
  }

  lemma {:induction false} MovesKeepInstalling(s: State, k: nat, p: Params, t: State, moves: seq<Action>)
    requires |s.slots| == |t.slots| == SLOT_COUNT && k < SLOT_COUNT && Installing(s, k, p, [], t)
    requires OnlyMoves(moves) && Run(t, moves).Some?
    ensures Installing(s, k, p, ControlMoves(moves), Run(t, moves).value)
    decreases |moves|
  {
    hide Installing, Step;
    if moves != [] {
      var n := |moves| - 1;
      RunLast(t, moves);
      MovesKeepInstalling(s, k, p, t, moves[..n]);
      MoveKeepsInstalling(s, k, p, ControlMoves(moves[..n]), Run(t, moves[..n]).value, moves[n]);
      assert ControlMoves(moves[..n]) + [] == ControlMoves(moves[..n]);
    }
  }

  lemma {:induction false} RunLast(s: State, actions: seq<Action>)
    requires |s.slots| == SLOT_COUNT && actions != [] && Run(s, actions).Some?
    ensures var n := |actions| - 1;
            Run(s, actions[..n]).Some? && Run(s, actions) == Step(Run(s, actions[..n]).value, actions[n])
    decreases |actions|
  {
    hide Step;
    var n := |actions| - 1;
    if n > 0 {
      RunLast(Step(s, actions[0]).value, actions[1..]);
      assert actions[1..][..n - 1] == actions[..n][1..];
    } else {
      assert actions[1..] == [] && actions[..0] == [];
    }
  }

  /** However the worker's steps fall between those of an Install, once it has returned the first free slot is
      enabled with the given parameters and the new channel if the driver granted all three requests, and otherwise
      nothing has changed but possibly the handle in that slot. */
  lemma {:induction false} InstallExactly(s: State, p: Params, moves: seq<Action>)
    requires |s.slots| == SLOT_COUNT && s.control.Idle? && s.init && FirstFree(s.slots) < SLOT_COUNT
    requires OnlyMoves(moves) && Run(s, [CallInstall(p, true)] + moves).Some?
    requires Run(s, [CallInstall(p, true)] + moves).value.control.Idle?
    ensures var t := Run(s, [CallInstall(p, true)] + moves).value;
            var k, done := FirstFree(s.slots), ControlMoves(moves);
            if Granted(done) then Installed(s, k, p, done[0].handle, t) else Refused(s, k, t)
  {
    hide FirstFree, Installed, Refused, Granted, ControlMoves;
    var k := FirstFree(s.slots);
    var s1 := s.(control := InstCreate(k, p));
    assert Step(s, CallInstall(p, true)) == Some(s1);
    RunHead(s, CallInstall(p, true), moves);
    hide Run, Step;
    MovesKeepInstalling(s, k, p, s1, moves);
  }

  /** Calls that return at once, with nothing changed. */
  lemma CallsRefused(s: State, p: Params, attrOk: bool, k: nat)
    requires |s.slots| == SLOT_COUNT && s.control.Idle?
    ensures Step(s, CallInstall(p, attrOk)) == Some(s) <==>
            !s.init || !attrOk || forall j :: 0 <= j < 32 ==> s.slots[j].enabled
    ensures Step(s, CallInit) == Some(s) <==> s.init
    ensures Step(s, CallDeInit) == Some(s) <==> !s.init
    ensures k < 32 ==> (Step(s, CallUninstall(k)) == Some(s) <==> !s.init)
  {
    hide FirstFree;
  }

  /** Init and DeInit, by how far they have come. */
  predicate SettingUp(t: State) {
    match t.control
    case InitClear => true
    case InitMutex => t.slots == Cleared(SLOT_COUNT)
    case InitReady => t.slots == Cleared(SLOT_COUNT)
    case InitSpawn => t.slots == Cleared(SLOT_COUNT)
    case InitDone => t.slots == Cleared(SLOT_COUNT)
    case Idle => t.init && t.slots == Cleared(SLOT_COUNT)
    case _ => false
  }

  predicate TearingDown(t: State) {
    match t.control
    case DeLoop(_) => true
    case UnClose(_, back) => back.Some?
    case UnDestroy(_, back) => back.Some?
    case UnLock(_, back) => back.Some?
    case UnClear(_, back) => back.Some?
    case UnDisable(_, back) => back.Some?
    case UnUnlock(back) => back.Some?
    case DeClear => true
    case DeStop => t.slots == Cleared(SLOT_COUNT)
    case DeJoin => t.slots == Cleared(SLOT_COUNT)
    case DeMutex => t.slots == Cleared(SLOT_COUNT)
    case DeDone => t.slots == Cleared(SLOT_COUNT)
    case Idle => !t.init && t.slots == Cleared(SLOT_COUNT)
    case _ => false
  }

  lemma MoveKeepsSettingUp(t: State, a: Action)
    requires |t.slots| == SLOT_COUNT && SettingUp(t) && IsMove(a) && Step(t, a).Some?
    ensures SettingUp(Step(t, a).value)
  {
    hide Cleared;
    if a.MoveWorker? {
      WorkerLeavesTheRest(t, a.ok, a.handles);
      WorkerLeavesFlags(t, a.ok, a.handles);
      hide WorkerStep;
    }
  }

  lemma MoveKeepsTearingDown(t: State, a: Action)
    requires |t.slots| == SLOT_COUNT && TearingDown(t) && IsMove(a) && Step(t, a).Some?
    ensures TearingDown(Step(t, a).value)
  {
    hide Cleared, DeInitStep, UninstallStep, InitStep, InstallStep, WorkerStep, Call;
    if a.MoveWorker? {
      WorkerLeavesTheRest(t, a.ok, a.handles);
      WorkerLeavesFlags(t, a.ok, a.handles);
    } else if InDeInit(t.control) {
      DeInitTearsDown(t);
    } else {
      UninstallTearsDown(t);
    }
  }

  lemma DeInitTearsDown(t: State)
    requires |t.slots| == SLOT_COUNT && TearingDown(t) && InDeInit(t.control) && DeInitStep(t).Some?
    ensures TearingDown(DeInitStep(t).value)
  {
    hide Cleared;
  }

  lemma UninstallTearsDown(t: State)
    requires |t.slots| == SLOT_COUNT && TearingDown(t) && !InDeInit(t.control) && UninstallStep(t).Some?
    ensures TearingDown(UninstallStep(t).value)
  {
    UninstallGoesTo(t);
    hide Cleared, UninstallStep;
  }

  lemma WorkerLeavesFlags(t: State, ok: bool, handles: seq<Handle>)
    requires |t.slots| == SLOT_COUNT && WorkerStep(t, ok, handles).Some?
    ensures WorkerStep(t, ok, handles).value.init == t.init
  {
  }

  lemma {:induction false} MovesKeepBoth(t: State, moves: seq<Action>)
    requires |t.slots| == SLOT_COUNT && OnlyMoves(moves) && Run(t, moves).Some?
    ensures SettingUp(t) ==> SettingUp(Run(t, moves).value)
    ensures TearingDown(t) ==> TearingDown(Run(t, moves).value)
    decreases |moves|
  {
    hide SettingUp, TearingDown, Step;
    if moves != [] {
      if SettingUp(t) {
        MoveKeepsSettingUp(t, moves[0]);
      }
      if TearingDown(t) {
        MoveKeepsTearingDown(t, moves[0]);
      }
      MovesKeepBoth(Step(t, moves[0]).value, moves[1..]);
    }
  }

  /** When Init has returned the receiver is initialised, and when DeInit has returned it is not; the table is all
      zeros either way. */
  lemma {:induction false} InitDeInitExactly(s: State, moves: seq<Action>)
    requires |s.slots| == SLOT_COUNT && s.control.Idle? && OnlyMoves(moves)
    ensures !s.init && Run(s, [CallInit] + moves).Some? && Run(s, [CallInit] + moves).value.control.Idle? ==>
              var t := Run(s, [CallInit] + moves).value; t.init && t.slots == Cleared(32)
    ensures s.init && Run(s, [CallDeInit] + moves).Some? && Run(s, [CallDeInit] + moves).value.control.Idle? ==>
              var t := Run(s, [CallDeInit] + moves).value; !t.init && t.slots == Cleared(32)
  {
    hide Cleared, Run;
    if !s.init && Run(s, [CallInit] + moves).Some? {
      RunHead(s, CallInit, moves);
      MovesKeepBoth(s.(control := InitClear), moves);
    }
    if s.init && Run(s, [CallDeInit] + moves).Some? {
      RunHead(s, CallDeInit, moves);
      MovesKeepBoth(s.(control := DeLoop(0)), moves);
    }
  }

  // ----- How long a call can take -----

  /** An upper bound on the steps of the control thread until its call returns. */
  function StepsLeft(c: ControlPc): nat {
    match c
    case Idle => 0
    case InitClear => 5 case InitMutex => 4 case InitReady => 3 case InitSpawn => 2 case InitDone => 1
    case DeLoop(i) => LoopSteps(i)
    case DeClear => 5 case DeStop => 4 case DeJoin => 3 case DeMutex => 2 case DeDone => 1
    case InstCreate(_, _) => 7 case InstPid(_, _) => 6 case InstOpen(_, _) => 5 case InstAbort(_) => 1
    case InstLock(_, _) => 4 case InstParams(_, _) => 3 case InstEnable(_, _) => 2 case InstUnlock => 1
    case UnClose(_, back) => 6 + ResumeSteps(back)
    case UnDestroy(_, back) => 5 + ResumeSteps(back)
    case UnLock(_, back) => 4 + ResumeSteps(back)
    case UnClear(_, back) => 3 + ResumeSteps(back)
    case UnDisable(_, back) => 2 + ResumeSteps(back)
    case UnUnlock(back) => 1 + ResumeSteps(back)
  }

  function LoopSteps(i: nat): nat {
    6 + if i < SLOT_COUNT then 7 * (SLOT_COUNT - i) else 0
  }

  function ResumeSteps(back: Option<nat>): nat {
    if back.Some? then LoopSteps(back.value) else 0
  }

  lemma ControlMovesOn(s: State, ok: bool, handle: Handle)
    requires Inv(s) && ControlStep(s, ok, handle).Some?
    ensures StepsLeft(ControlStep(s, ok, handle).value.control) < StepsLeft(s.control)
  {
    hide Inv, StepsLeft, InitStep, DeInitStep, InstallStep, UninstallStep;
    InvIsSized(s);
    if InInit(s.control) {
      InitMovesOn(s);
    } else if InDeInit(s.control) {
      DeInitMovesOn(s);
    } else if InInstall(s.control) {
      InstallMovesOn(s, ok, handle);
    } else {
      UninstallMovesOn(s);
    }
  }

  lemma InitMovesOn(s: State)
    requires |s.slots| == SLOT_COUNT && InitStep(s).Some?
    ensures StepsLeft(InitStep(s).value.control) < StepsLeft(s.control)
  {
    hide Cleared;
  }

  lemma DeInitMovesOn(s: State)
    requires |s.slots| == SLOT_COUNT && DeInitStep(s).Some?
    ensures StepsLeft(DeInitStep(s).value.control) < StepsLeft(s.control)
  {
    hide Cleared;
  }

  lemma InstallMovesOn(s: State, ok: bool, handle: Handle)
    requires |s.slots| == SLOT_COUNT && InstallStep(s, ok, handle).Some?
    ensures StepsLeft(InstallStep(s, ok, handle).value.control) < StepsLeft(s.control)
  {
  }

  lemma UninstallMovesOn(s: State)
    requires |s.slots| == SLOT_COUNT && UninstallStep(s).Some?
    ensures StepsLeft(UninstallStep(s).value.control) < StepsLeft(s.control)
  {
    UninstallGoesTo(s);
    hide UninstallStep, LoopSteps;
  }

  lemma UninstallGoesTo(s: State)
    requires |s.slots| == SLOT_COUNT && UninstallStep(s).Some?
    ensures var c, d := s.control, UninstallStep(s).value.control;
            || (c.UnClose? && d == UnDestroy(c.k, c.back))
            || (c.UnDestroy? && d == UnLock(c.k, c.back))
            || (c.UnLock? && d == UnClear(c.k, c.back))
            || (c.UnClear? && d == UnDisable(c.k, c.back))
            || (c.UnDisable? && d == UnUnlock(c.back))
            || (c.UnUnlock? && d == if c.back.Some? then DeLoop(c.back.value) else Idle)
  {
  }

  /** In every interleaving a call returns after a bounded number of steps of its own: at most 230, for a DeInit of 32
      enabled slots. */
  lemma {:induction false} CallsReturn(s: State, moves: seq<Action>)
    requires Inv(s) && OnlyMoves(moves) && Run(s, moves).Some?
    ensures Inv(Run(s, moves).value)
    ensures |ControlMoves(moves)| + StepsLeft(Run(s, moves).value.control) <= StepsLeft(s.control)
    ensures s.control == DeLoop(0) ==> StepsLeft(s.control) == 230
    decreases |moves|
  {
    InvIsSized(s);
    hide Inv, Step, StepsLeft;
    if moves != [] {
      var n, a := |moves| - 1, moves[|moves| - 1];
      RunLast(s, moves);
      CallsReturn(s, moves[..n]);
      var t := Run(s, moves[..n]).value;
      StepKeepsInv(t, a);
      MoveCounts(t, a);
    }
    LongestCall();
  }

  lemma LongestCall()
    ensures StepsLeft(DeLoop(0)) == 230
  {
  }

  lemma MoveCounts(t: State, a: Action)
    requires Inv(t) && IsMove(a) && Step(t, a).Some?
    ensures StepsLeft(Step(t, a).value.control) + (if a.MoveControl? then 1 else 0) <= StepsLeft(t.control)
  {
    hide StepsLeft;
    InvIsSized(t);
    if a.MoveControl? {
      ControlMovesOn(t, a.ok, a.handle);
      hide Inv, ControlStep;
    } else {
      hide Inv;
      WorkerLeavesTheRest(t, a.ok, a.handles);
      hide WorkerStep;
    }
  }

  /** Uninstall destroys the channel before it takes the mutex.  The worker's driver calls on the
      channel of slot 0 therefore go to a live channel exactly as long as the control thread is not
      waiting for the mutex in the middle of uninstalling slot 0. */
  lemma AcquireOnLiveChannel(actions: seq<Action>)
    requires ProperRun(START, actions) && Run(START, actions).Some?
    ensures var s := Run(START, actions).value;
            WorkerInside(s.worker) ==>
              (s.slots[0].channel in s.live <==> !(s.control.UnLock? && s.control.k == 0))
  {
    hide Run, ProperRun, LogMatches, CallbacksGenuine, Held;
    StartInv();
    RunKeepsLedger(START, actions);
  }

  lemma {:induction false} RunConcat(s: State, a: seq<Action>, t: State, b: seq<Action>)
    requires |s.slots| == |t.slots| == SLOT_COUNT && Run(s, a) == Some(t) && ProperRun(s, a)
    ensures Run(s, a + b) == Run(t, b) && (ProperRun(t, b) ==> ProperRun(s, a + b))
    decreases |a|
  {
    hide Step;
    if a == [] {
      assert a + b == b;
    } else {
      assert (a + b)[1..] == a[1..] + b;
      RunConcat(Step(s, a[0]).value, a[1..], t, b);
    }
  }

  // ----- Runs built from single operations -----

  function Table(slot0: Slot): seq<Slot> {
    Cleared(SLOT_COUNT)[0 := slot0]
  }

  /** A proper run from the start to `s`. */
  ghost predicate Reaches(actions: seq<Action>, s: State) {
    |s.slots| == SLOT_COUNT && Run(START, actions) == Some(s) && ProperRun(START, actions)
  }

  lemma Extend(actions: seq<Action>, s: State, a: Action, t: State) returns (longer: seq<Action>)
    requires Reaches(actions, s) && Proper(s, a) && Step(s, a) == Some(t)
    ensures Reaches(longer, t)
  {
    longer := actions + [a];
    RunHead(s, a, []);
    assert [a] + [] == [a] && [a][1..] == [];
    hide Step, Proper;
    assert Run(t, []) == Some(t) && ProperRun(t, []);
    assert ProperRun(s, [a]);
    hide Run, ProperRun;
    RunConcat(START, actions, s, [a]);
  }

  lemma ReachInitialised() returns (actions: seq<Action>)
    ensures Reaches(actions, State(Table(CLEARED), true, true, true, None, Test, Idle, {}, []))
  {
    var s0 := State(Table(CLEARED), false, false, false, None, Absent, Idle, {}, []);
    assert Cleared(SLOT_COUNT) == Table(CLEARED);
    actions := [];
    assert Reaches(actions, s0);
    hide Reaches;
    var s1 := s0.(control := InitClear);
    actions := Extend(actions, s0, CallInit, s1);
    var s2 := s1.(control := InitMutex);
    actions := Extend(actions, s1, GO, s2);
    var s3 := s2.(mutexAlive := true, control := InitReady);
    actions := Extend(actions, s2, GO, s3);
    var s4 := s3.(ready := true, control := InitSpawn);
    actions := Extend(actions, s3, GO, s4);
    var s5 := s4.(worker := Test, control := InitDone);
    actions := Extend(actions, s4, GO, s5);
    actions := Extend(actions, s5, GO, s5.(init := true, control := Idle));
  }

  /** Nobody is inside an operation and nobody holds the mutex. */
  predicate Quiet(s: State) {
    |s.slots| == SLOT_COUNT && s.init && s.control.Idle? && s.owner.None?
  }

  /** Install as far as the creation of its channel. */
  lemma ReachCreated(actions: seq<Action>, s: State, k: nat, p: Params, h: Handle) returns (longer: seq<Action>)
    requires Reaches(actions, s) && Quiet(s) && k == FirstFree(s.slots) < SLOT_COUNT && h !in s.live
    ensures Reaches(longer, s.(slots := s.slots[k := s.slots[k].(channel := h)], live := s.live + {h},
                               control := InstPid(k, p)))
  {
    hide Reaches, FirstFree;
    var s1 := s.(control := InstCreate(k, p));
    longer := Extend(actions, s, CallInstall(p, true), s1);
    longer := Extend(longer, s1, MoveControl(true, h),
      s.(slots := s.slots[k := s.slots[k].(channel := h)], live := s.live + {h}, control := InstPid(k, p)));
  }

  function AfterAbort(s: State, k: nat, h: Handle): State
    requires k < |s.slots|
  {
    s.(slots := s.slots[k := s.slots[k].(channel := h)])
  }

  /** An Install whose PID cannot be set leaves the handle of the destroyed channel in its slot. */
  lemma ReachAborted(actions: seq<Action>, s: State, k: nat, p: Params, h: Handle) returns (longer: seq<Action>)
    requires Reaches(actions, s) && Quiet(s) && k == FirstFree(s.slots) < SLOT_COUNT && h !in s.live
    ensures Reaches(longer, AfterAbort(s, k, h))
  {
    longer := ReachCreated(actions, s, k, p, h);
    hide Reaches, FirstFree;
    var s2 := s.(slots := s.slots[k := s.slots[k].(channel := h)], live := s.live + {h}, control := InstPid(k, p));
    var s3 := s2.(control := InstAbort(k));
    longer := Extend(longer, s2, MoveControl(false, 0), s3);
    assert s.live + {h} - {h} == s.live;
    longer := Extend(longer, s3, GO, AfterAbort(s, k, h));
  }

  function AfterInstall(s: State, k: nat, p: Params, h: Handle): State
    requires k < |s.slots|
  {
    s.(slots := s.slots[k := Slot(true, p, h, s.slots[k].filter)], live := s.live + {h}, log := s.log + [Enabled(k, p)])
  }

  lemma ReachInstalled(actions: seq<Action>, s: State, k: nat, p: Params, h: Handle) returns (longer: seq<Action>)
    requires Reaches(actions, s) && Quiet(s) && k == FirstFree(s.slots) < SLOT_COUNT && h !in s.live
    ensures Reaches(longer, AfterInstall(s, k, p, h))
  {
    longer := ReachCreated(actions, s, k, p, h);
    hide Reaches, FirstFree;
    var s2 := s.(slots := s.slots[k := s.slots[k].(channel := h)], live := s.live + {h}, control := InstPid(k, p));
    longer := ReachOpened(longer, s2, k, p);
    longer := ReachEnabled(longer, s2.(control := InstLock(k, p)), k, p);
    assert s2.slots[k := s2.slots[k].(params := p, enabled := true)] == AfterInstall(s, k, p, h).slots;
  }

  /** Install from the PID to the mutex. */
  lemma ReachOpened(actions: seq<Action>, s: State, k: nat, p: Params) returns (longer: seq<Action>)
    requires Reaches(actions, s) && |s.slots| == SLOT_COUNT && s.control == InstPid(k, p)
    ensures Reaches(longer, s.(control := InstLock(k, p)))
  {
    hide Reaches;
    var t := s.(control := InstOpen(k, p));
    longer := Extend(actions, s, GO, t);
    longer := Extend(longer, t, GO, s.(control := InstLock(k, p)));
  }

  /** Install from the mutex on. */
  lemma ReachEnabled(actions: seq<Action>, s: State, k: nat, p: Params) returns (longer: seq<Action>)
    requires Reaches(actions, s) && |s.slots| == SLOT_COUNT && s.control == InstLock(k, p) && s.owner.None? &&
             k < SLOT_COUNT
    ensures Reaches(longer, s.(slots := s.slots[k := s.slots[k].(params := p, enabled := true)],
                               log := s.log + [Enabled(k, p)], control := Idle))
  {
    hide Reaches;
    var s1 := s.(owner := Some(Control), control := InstParams(k, p));
    longer := Extend(actions, s, GO, s1);
    var s2 := s1.(slots := s.slots[k := s.slots[k].(params := p)], control := InstEnable(k, p));
    longer := Extend(longer, s1, GO, s2);
    var s3 := s2.(slots := s.slots[k := s.slots[k].(params := p, enabled := true)], log := s.log + [Enabled(k, p)],
                  control := InstUnlock);
    assert s2.slots[k := s2.slots[k].(enabled := true)] == s3.slots;
    longer := Extend(longer, s2, GO, s3);
    longer := Extend(longer, s3, GO, s3.(owner := None, control := Idle));
  }

  lemma {:induction false} MovesAreProper(s: State, n: nat)
    requires |s.slots| == SLOT_COUNT
    ensures ProperRun(s, Moves(n))
    decreases n
  {
    hide Step;
    if n > 0 {
      assert Moves(n)[1..] == Moves(n - 1);
      if Step(s, GO).Some? {
        MovesAreProper(Step(s, GO).value, n - 1);
      }
    }
  }

  lemma ReachUninstalled(actions: seq<Action>, s: State, k: nat) returns (longer: seq<Action>)
    requires Reaches(actions, s) && Quiet(s) && k < SLOT_COUNT && s.slots[k].enabled
    ensures Reaches(longer, AfterUninstall(s, k))
  {
    var b := UninstallAlone(k);
    longer := actions + b;
    UninstallRuns(s, k);
    assert b[1..] == Moves(6);
    var s1 := Step(s, b[0]);
    if s1.Some? {
      MovesAreProper(s1.value, 6);
    }
    hide Step, Moves, Run, UninstallAlone;
    assert ProperRun(s, b);
    hide ProperRun;
    RunConcat(START, actions, s, b);
  }

  const PARAMS := Params(0, 0x100, 1, Some(1))
  const CHANNEL: Handle := 7

  lemma ReachRunning() returns (actions: seq<Action>)
    ensures Reaches(actions, State(Table(Slot(true, PARAMS, CHANNEL, 0)), true, true, true, None, Test, Idle, {CHANNEL},
                                   [Enabled(0, PARAMS)]))
  {
    actions := ReachInitialised();
    var s := State(Table(CLEARED), true, true, true, None, Test, Idle, {}, []);
    assert FirstFree(s.slots) == 0;
    hide Reaches, FirstFree;
    actions := ReachInstalled(actions, s, 0, PARAMS, CHANNEL);
    assert s.slots[0 := Slot(true, PARAMS, CHANNEL, 0)] == Table(Slot(true, PARAMS, CHANNEL, 0));
    assert s.live + {CHANNEL} == {CHANNEL} && s.log + [Enabled(0, PARAMS)] == [Enabled(0, PARAMS)];
  }

  // ----- What the worker delivers -----

  /** The callbacks in a log, in order. */
  function Callbacks(log: seq<Event>): seq<Event> {
    if log == [] then []
    else
      var e := log[|log| - 1];
      Callbacks(log[..|log| - 1]) + if e.CalledBack? then [e] else []
  }

  lemma CallbacksExtend(log: seq<Event>, e: Event)
    ensures Callbacks(log + [e]) == Callbacks(log) + if e.CalledBack? then [e] else []
  {
    assert (log + [e])[..|log|] == log;
  }

  /** What is due for the first `n` ready handles: a call of slot 0's callback, if there is one, for each handle that
      is slot 0's channel and whose data could be acquired. `acquired` are the answers of the driver. */
  function Due(handles: seq<Handle>, acquired: nat -> bool, slot: Slot, n: nat): seq<Event>
    requires n <= |handles|
  {
    if n == 0 then []
    else
      var yes := handles[n - 1] == slot.channel && acquired(n - 1) && slot.params.callback.Some?;
      Due(handles, acquired, slot, n - 1) + if yes then [CalledBack(slot.params)] else []
  }

  /** Where a pass over `handles` that started in state `s` has got to in state `t`. */
  predicate Passing(s: State, handles: seq<Handle>, acquired: nat -> bool, t: State)
    requires |s.slots| == |t.slots| == SLOT_COUNT
  {
    var slot := s.slots[0];
    && t.slots[0] == slot
    && match t.worker
       case Scan(hs, i) => hs == handles && i <= |hs| && Called(s, handles, acquired, t, i)
       case Deliver(hs, i) =>
         && hs == handles && i < |hs| && Called(s, handles, acquired, t, i) && hs[i] == slot.channel && acquired(i)
       case InCallback(hs, i, p) => hs == handles && i < |hs| && Called(s, handles, acquired, t, i + 1)
       case Release(hs, i) => hs == handles && i < |hs| && Called(s, handles, acquired, t, i + 1)
       case Unlock => Called(s, handles, acquired, t, |handles|)
       case _ => false
  }

  predicate Called(s: State, handles: seq<Handle>, acquired: nat -> bool, t: State, n: nat)
    requires |s.slots| == SLOT_COUNT && n <= |handles|
  {
    Callbacks(t.log) == Callbacks(s.log) + Due(handles, acquired, s.slots[0], n)
  }

  /** What is due in a whole round: nothing if slot 0 is disabled or the driver has no ready handles to report. */
  function DueInRound(polled: Option<seq<Handle>>, acquired: nat -> bool, slot: Slot): seq<Event> {
    if slot.enabled && polled.Some? then Due(polled.value, acquired, slot, |polled.value|) else []
  }

  /** Where a round that started in state `s`, with the worker just inside its lock, has got to in state `t`. */
  predicate Rounding(s: State, polled: Option<seq<Handle>>, acquired: nat -> bool, t: State)
    requires |s.slots| == |t.slots| == SLOT_COUNT
  {
    var slot := s.slots[0];
    && t.slots[0].enabled == slot.enabled && (slot.enabled ==> t.slots[0] == slot)
    && match t.worker
       case Check => Callbacks(t.log) == Callbacks(s.log)
       case Poll => slot.enabled && Callbacks(t.log) == Callbacks(s.log)
       case Unlock => Callbacks(t.log) == Callbacks(s.log) + DueInRound(polled, acquired, slot)
       case _ => slot.enabled && polled.Some? && WorkerInside(t.worker) && Passing(s, polled.value, acquired, t)
  }

  /** The driver answers as given to the poll for ready handles and to the worker's attempts to acquire data. */
  predicate Answers(t: State, a: Action, polled: Option<seq<Handle>>, acquired: nat -> bool) {
    a.MoveWorker? ==>
      && (t.worker.Poll? ==> a.ok == polled.Some? && (a.ok ==> a.handles == polled.value))
      && (t.worker.Scan? ==> a.ok == acquired(t.worker.i))
  }

  /** The run stays in one round of the worker, whatever the control thread does meanwhile. */
  predicate RoundRun(t: State, actions: seq<Action>, polled: Option<seq<Handle>>, acquired: nat -> bool)
    requires |t.slots| == SLOT_COUNT
    decreases |actions|
  {
    actions != [] ==>
      && (t.worker.Check? || WorkerInside(t.worker)) && Answers(t, actions[0], polled, acquired)
      && (Step(t, actions[0]).Some? ==> RoundRun(Step(t, actions[0]).value, actions[1..], polled, acquired))
  }

  lemma DueStep(handles: seq<Handle>, acquired: nat -> bool, slot: Slot, n: nat)
    requires 0 < n <= |handles|
    ensures var yes := handles[n - 1] == slot.channel && acquired(n - 1) && slot.params.callback.Some?;
            var before := Due(handles, acquired, slot, n - 1);
            && (yes ==> Due(handles, acquired, slot, n) == before + [CalledBack(slot.params)])
            && (!yes ==> Due(handles, acquired, slot, n) == before)
  {
  }

  lemma WorkerPasses(s: State, handles: seq<Handle>, acquired: nat -> bool, t: State, ok: bool, hs: seq<Handle>)
    requires |s.slots| == |t.slots| == SLOT_COUNT && Passing(s, handles, acquired, t) && WorkerInside(t.worker)
    requires t.worker.Scan? ==> ok == acquired(t.worker.i)
    requires WorkerStep(t, ok, hs).Some?
    ensures Passing(s, handles, acquired, WorkerStep(t, ok, hs).value)
  {
    hide Callbacks, Due;
    if (t.worker.Scan? && t.worker.i < |handles|) || t.worker.Deliver? {
      DueStep(handles, acquired, s.slots[0], t.worker.i + 1);
    }
    if t.worker.Deliver? {
      CallbacksExtend(t.log, CalledBack(t.slots[0].params));
    }
  }

  lemma WorkerRounds(s: State, polled: Option<seq<Handle>>, acquired: nat -> bool, t: State, a: Action)
    requires |s.slots| == |t.slots| == SLOT_COUNT && Rounding(s, polled, acquired, t) && !t.worker.Unlock?
    requires a.MoveWorker? && Answers(t, a, polled, acquired) && WorkerStep(t, a.ok, a.handles).Some?
    ensures Rounding(s, polled, acquired, WorkerStep(t, a.ok, a.handles).value)
  {
    hide Callbacks, Due;
    WorkerLeavesTheRest(t, a.ok, a.handles);
    if WorkerInside(t.worker) && !t.worker.Poll? {
      WorkerPasses(s, polled.value, acquired, t, a.ok, a.handles);
      InsideOrUnlock(t, a.ok, a.handles);
      hide WorkerStep;
    } else {
      NothingDue(s, polled, acquired);
    }
  }

  lemma InsideOrUnlock(t: State, ok: bool, handles: seq<Handle>)
    requires |t.slots| == SLOT_COUNT && WorkerInside(t.worker) && !t.worker.Poll? && WorkerStep(t, ok, handles).Some?
    ensures var w := WorkerStep(t, ok, handles).value.worker; (WorkerInside(w) && !w.Poll?) || w.Unlock?
  {
  }

  lemma NothingDue(s: State, polled: Option<seq<Handle>>, acquired: nat -> bool)
    requires |s.slots| == SLOT_COUNT
    ensures Callbacks(s.log) + [] == Callbacks(s.log)
    ensures polled.Some? ==> Due(polled.value, acquired, s.slots[0], 0) == []
  {
  }

  /** While the worker is inside its lock, the control thread touches neither an enabled slot 0 nor its flag, nor the
      callbacks in the log. */
  lemma ControlLeavesSlotZero(t: State, a: Action)
    requires Inv(t) && (t.worker.Check? || WorkerInside(t.worker)) && !a.MoveWorker? && Step(t, a).Some?
    ensures var u := Step(t, a).value;
            && u.slots[0].enabled == t.slots[0].enabled && (t.slots[0].enabled ==> u.slots[0] == t.slots[0])
            && u.worker == t.worker && Callbacks(u.log) == Callbacks(t.log)
  {
    hide LogMatches, CallbacksGenuine, Callbacks, Cleared, FirstFree;
    if a.MoveControl? {
      hide Call, WorkerStep;
      LockedOut(t);
    }
  }

  lemma LockedOut(t: State)
    requires Inv(t) && (t.worker.Check? || WorkerInside(t.worker))
    ensures !ControlLocked(t.control) && (InInit(t.control) ==> t.control.InitDone?)
    ensures t.control.InstCreate? ==> !t.slots[t.control.k].enabled
    ensures t.control.DeClear? ==> !t.slots[0].enabled
  {
    hide LogMatches, CallbacksGenuine;
  }

  lemma ControlKeepsRounding(s: State, polled: Option<seq<Handle>>, acquired: nat -> bool, t: State, u: State)
    requires |s.slots| == |t.slots| == |u.slots| == SLOT_COUNT && Rounding(s, polled, acquired, t)
    requires u.slots[0].enabled == t.slots[0].enabled && (t.slots[0].enabled ==> u.slots[0] == t.slots[0])
    requires u.worker == t.worker && Callbacks(u.log) == Callbacks(t.log)
    ensures Rounding(s, polled, acquired, u)
  {
    hide Callbacks, Due;
  }

  lemma {:induction false} RoundRunRounds(s: State, polled: Option<seq<Handle>>, acquired: nat -> bool, t: State,
                                          actions: seq<Action>)
    requires |s.slots| == SLOT_COUNT && Inv(t) && Rounding(s, polled, acquired, t)
    requires RoundRun(t, actions, polled, acquired) && Run(t, actions).Some?
    ensures |Run(t, actions).value.slots| == SLOT_COUNT && Rounding(s, polled, acquired, Run(t, actions).value)
    decreases |actions|
  {
    InvIsSized(t);
    hide Inv, Rounding, Answers;
    if actions != [] {
      var a := actions[0];
      StepKeepsInv(t, a);
      var u := Step(t, a).value;
      if a.MoveWorker? {
        WorkerRounds(s, polled, acquired, t, a);
      } else {
        ControlLeavesSlotZero(t, a);
        hide Step;
        ControlKeepsRounding(s, polled, acquired, t, u);
      }
      hide Step;
      RoundRunRounds(s, polled, acquired, u, actions[1..]);
    }
  }

  /** A round of the worker, however the control thread's steps fall into it, makes exactly the calls that are due: if
      slot 0 is enabled and the driver reports ready handles, one for each of them that is slot 0's channel and whose
      data could be acquired, with slot 0's parameters; otherwise none. */
  lemma {:induction false} RoundDelivers(s: State, polled: Option<seq<Handle>>, acquired: nat -> bool,
                                         actions: seq<Action>)
    requires Inv(s) && s.worker.Check?
    requires RoundRun(s, actions, polled, acquired) && Run(s, actions).Some? && Run(s, actions).value.worker.Unlock?
    ensures Callbacks(Run(s, actions).value.log) == Callbacks(s.log) + DueInRound(polled, acquired, s.slots[0])
  {
    hide Inv, Run, RoundRun, Callbacks, Due;
    InvIsSized(s);
    assert Rounding(s, polled, acquired, s);
    RoundRunRounds(s, polled, acquired, s, actions);
  }

  lemma InvIsSized(s: State)
    requires Inv(s)
    ensures |s.slots| == SLOT_COUNT
  {
  }

  /** The worker finds slot 0 enabled, its channel ready and its data there, and calls the callback. */
  lemma CallbackReachable() returns (actions: seq<Action>, s: State)
    ensures Reaches(actions, s) && s.log == [Enabled(0, PARAMS), CalledBack(PARAMS)]
    ensures s.worker == InCallback([CHANNEL], 0, PARAMS) && s.slots[0].channel == CHANNEL
  {
    actions := ReachRunning();
    hide Reaches;
    var s0 := State(Table(Slot(true, PARAMS, CHANNEL, 0)), true, true, true, None, Test, Idle, {CHANNEL},
                    [Enabled(0, PARAMS)]);
    var s1 := s0.(worker := Lock);
    actions := Extend(actions, s0, MoveWorker(true, []), s1);
    var s2 := s1.(owner := Some(Worker), worker := Check);
    actions := Extend(actions, s1, MoveWorker(true, []), s2);
    var s3 := s2.(worker := Poll);
    actions := Extend(actions, s2, MoveWorker(true, []), s3);
    var s4 := s3.(worker := Scan([CHANNEL], 0));
    actions := Extend(actions, s3, MoveWorker(true, [CHANNEL]), s4);
    var s5 := s4.(worker := Deliver([CHANNEL], 0));
    actions := Extend(actions, s4, MoveWorker(true, []), s5);
    s := s5.(worker := InCallback([CHANNEL], 0, PARAMS), log := [Enabled(0, PARAMS), CalledBack(PARAMS)]);
    assert s5.log + [CalledBack(PARAMS)] == s.log;
    actions := Extend(actions, s5, MoveWorker(true, []), s);
  }

  // ----- A run in which a disabled slot names a live channel -----

  const REUSED: Handle := 9

  /** Slot 0 is installed; an Install on slot 1 fails after its channel was created; slot 0 is uninstalled and
      installed again, and the driver gives it the handle that the failed Install left in slot 1. */
  lemma StaleHandleReachable() returns (actions: seq<Action>, s: State)
    ensures Reaches(actions, s) && Quiet(s)
    ensures s.slots[0].enabled && !s.slots[1].enabled && s.slots[0].channel == s.slots[1].channel == REUSED
    ensures s.live == {REUSED}
  {
    actions := ReachRunning();
    var s1 := State(Table(Slot(true, PARAMS, CHANNEL, 0)), true, true, true, None, Test, Idle, {CHANNEL},
                    [Enabled(0, PARAMS)]);
    FirstFreeIs(s1.slots, 1);
    hide Reaches, FirstFree, Cleared;
    actions := ReachAborted(actions, s1, 1, PARAMS, REUSED);
    var s2 := AfterAbort(s1, 1, REUSED);
    actions := ReachUninstalled(actions, s2, 0);
    var s3 := AfterUninstall(s2, 0);
    FirstFreeIs(s3.slots, 0);
    actions := ReachInstalled(actions, s3, 0, PARAMS, REUSED);
    s := AfterInstall(s3, 0, PARAMS, REUSED);
  }

  lemma {:induction false} FirstFreeIs(slots: seq<Slot>, k: nat)
    requires k < |slots| && !slots[k].enabled && forall i :: 0 <= i < k ==> slots[i].enabled
    ensures FirstFree(slots) == k
  {
    if k > 0 {
      FirstFreeIs(slots[1..], k - 1);
    }
  }

  /** Uninstalling slot 1, which is not enabled, then destroys the channel of slot 0 under it. */
  lemma UninstallBreaksLedger() returns (actions: seq<Action>, s: State, t: State)
    ensures Reaches(actions, s) && !s.slots[1].enabled && Run(s, UninstallAlone(1)) == Some(t)
    ensures |t.slots| == SLOT_COUNT && t.slots[0].enabled && t.slots[0].channel !in t.live && !Ledger(t)
  {
    actions, s := StaleHandleReachable();
    UninstallRuns(s, 1);
    t := AfterUninstall(s, 1);
    hide Run, Reaches, UninstallAlone;
    assert Owns(t, 0);
  }

  // ----- A run in which the worker meets a destroyed channel -----

  /** The worker has the ready handle of slot 0 in hand and is about to acquire its data, but the channel
      is already destroyed. */
  lemma DeadChannelReachable() returns (actions: seq<Action>, s: State)
    ensures Reaches(actions, s) && s.worker == Scan([s.slots[0].channel], 0) && s.slots[0].channel !in s.live
  {
    actions := ReachRunning();
    hide Reaches;
    var s0 := State(Table(Slot(true, PARAMS, CHANNEL, 0)), true, true, true, None, Test, Idle, {CHANNEL},
                    [Enabled(0, PARAMS)]);
    var s1 := s0.(worker := Lock);
    actions := Extend(actions, s0, MoveWorker(true, []), s1);
    var s2 := s1.(owner := Some(Worker), worker := Check);
    actions := Extend(actions, s1, MoveWorker(true, []), s2);
    var s3 := s2.(worker := Poll);
    actions := Extend(actions, s2, MoveWorker(true, []), s3);
    var s4 := s3.(worker := Scan([CHANNEL], 0));
    actions := Extend(actions, s3, MoveWorker(true, [CHANNEL]), s4);
    var s5 := s4.(control := UnClose(0, None));
    actions := Extend(actions, s4, CallUninstall(0), s5);
    var s6 := s5.(control := UnDestroy(0, None));
    actions := Extend(actions, s5, MoveControl(true, 0), s6);
    s := s6.(live := {}, control := UnLock(0, None));
    assert s6.live - {CHANNEL} == s.live;
    actions := Extend(actions, s6, MoveControl(true, 0), s);
  }
}
