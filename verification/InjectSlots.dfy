/** The injection slot tables of the demux adapter.  Each port has an inject flag, and each running
    injection occupies one of sixteen slots, which names its port and owns a resource: the reader
    thread of an IP injection, the open file of a file injection. */
module InjectSlots {
  import opened Types

  const SLOT_COUNT := 16
  const DVB_PORTS := 3
  const PORTS := 7

  datatype Slot = Slot(used: bool, port: nat, resource: nat)

  /** Resources are numbered from 1 as they are acquired, so `acquired` counts them all; `released` lists
      those given back, in order. Number 0 is the zeroed handle of a slot never used. */
  datatype Table = Table(flags: seq<bool>, slots: seq<Slot>, acquired: nat, released: seq<nat>)

  predicate Shaped(t: Table) {
    |t.flags| == PORTS && |t.slots| == SLOT_COUNT
  }

  // ----- Specification of the operations -----

  function FirstFree(slots: seq<Slot>): (i: nat)
    ensures i <= |slots|
    ensures i < |slots| ==> !slots[i].used
    ensures forall j :: 0 <= j < i ==> slots[j].used
  {
    if slots == [] || !slots[0].used then 0 else 1 + FirstFree(slots[1..])
  }

  predicate Carries(slot: Slot, port: nat) {
    slot.used && slot.port == port
  }

  function FirstCarrying(slots: seq<Slot>, port: nat): (i: nat)
    ensures i <= |slots|
    ensures i < |slots| ==> Carries(slots[i], port)
    ensures forall j :: 0 <= j < i ==> !Carries(slots[j], port)
  {
    if slots == [] || Carries(slots[0], port) then 0 else 1 + FirstCarrying(slots[1..], port)
  }

  /** Slot `i` gives its resource back and its port is no longer injecting. */
  function Release(t: Table, i: nat, port: nat): Table
    requires Shaped(t) && i < SLOT_COUNT && port < PORTS
  {
    t.(slots := t.slots[i := t.slots[i].(used := false)],
       flags := t.flags[port := false],
       released := t.released + [t.slots[i].resource])
  }

  /** Slot `i` takes a new resource for `port`. */
  function Occupy(t: Table, i: nat, port: nat): Table
    requires Shaped(t) && i < SLOT_COUNT && port < PORTS
  {
    t.(slots := t.slots[i := Slot(true, port, t.acquired + 1)],
       flags := t.flags[port := true],
       acquired := t.acquired + 1)
  }

  /** Stopping the IP injection of a port. Ports of the tuner inputs are rejected. */
  function IpStop(t: Table, port: nat): (Table, bool)
    requires Shaped(t)
  {
    if port < DVB_PORTS || port >= PORTS then (t, false)
    else if !t.flags[port] then (t, true)
    else
      var i := FirstCarrying(t.slots, port);
      if i == SLOT_COUNT then (t, false) else (Release(t, i, port), true)
  }

  /** `threadOk` is the answer of `pthread_create`, which the code does not look at: if there is no
      thread, the slot is used all the same, with whatever thread handle it had before. */
  function IpStart(t: Table, port: nat, threadOk: bool): (Table, bool)
    requires Shaped(t) && port < PORTS
  {
    var u := if t.flags[port] then IpStop(t, port).0 else t;
    var i := FirstFree(u.slots);
    if i == SLOT_COUNT then (u, false) else (IpEnter(u, i, port, threadOk), true)
  }

  function IpEnter(u: Table, i: nat, port: nat, threadOk: bool): Table
    requires Shaped(u) && i < SLOT_COUNT && port < PORTS
  {
    if threadOk then Occupy(u, i, port) else OccupyStale(u, i, port)
  }

  /** Slot `i` is used for `port` with the handle it was left with. */
  function OccupyStale(t: Table, i: nat, port: nat): Table
    requires Shaped(t) && i < SLOT_COUNT && port < PORTS
  {
    t.(slots := t.slots[i := t.slots[i].(used := true, port := port)], flags := t.flags[port := true])
  }

  /** Stopping the file injection of a port. The code does not test whether it found a slot; what it
      relies on is `Consistent`. */
  function FileStop(t: Table, port: nat): Table
    requires Shaped(t) && port < PORTS
    requires t.flags[port] ==> FirstCarrying(t.slots, port) < SLOT_COUNT
  {
    if !t.flags[port] then t else Release(t, FirstCarrying(t.slots, port), port)
  }

  /** `openOk` and `threadOk` are the answers of `fopen` and `pthread_create`. If the thread cannot be
      created the file is closed at once and the slot stays free, although the file and the port have
      been entered in it. */
  function FileStart(t: Table, port: nat, openOk: bool, threadOk: bool): (Table, bool)
    requires Shaped(t) && port < PORTS
    requires t.flags[port] ==> FirstCarrying(t.slots, port) < SLOT_COUNT
  {
    FileEnter(FileStop(t, port), port, openOk, threadOk)
  }

  function FileEnter(u: Table, port: nat, openOk: bool, threadOk: bool): (Table, bool)
    requires Shaped(u) && port < PORTS
  {
    var i := FirstFree(u.slots);
    if i == SLOT_COUNT || !openOk then (u, false)
    else if threadOk then (Occupy(u, i, port), true)
    else (Abort(u, i, port), false)
  }

  // ----- The invariant -----

  /** A port's flag is set exactly when some used slot carries it. */
  ghost predicate FlagsMatch(t: Table) {
    && (forall i :: 0 <= i < |t.slots| && t.slots[i].used ==> t.slots[i].port < |t.flags| && t.flags[t.slots[i].port])
    && (forall p :: 0 <= p < |t.flags| && t.flags[p] ==> FirstCarrying(t.slots, p) < |t.slots|)
  }

  /** No two used slots share a port. */
  ghost predicate DistinctPorts(slots: seq<Slot>) {
    forall i, j :: 0 <= i < j < |slots| && slots[i].used && slots[j].used ==> slots[i].port != slots[j].port
  }

  /** Flags and slots are in step: one used slot for each flagged port. */
  ghost predicate Paired(t: Table) {
    Shaped(t) && FlagsMatch(t) && DistinctPorts(t.slots)
  }

  ghost predicate HeldBySlot(slots: seq<Slot>, r: nat) {
    exists i :: 0 <= i < |slots| && slots[i].used && slots[i].resource == r
  }

  /** Every resource ever acquired is either held by a used slot or released, exactly once. */
  ghost predicate Accounted(t: Table) {
    && (forall i :: 0 <= i < |t.slots| && t.slots[i].used ==>
        0 < t.slots[i].resource <= t.acquired && t.slots[i].resource !in t.released)
    && (forall i, j :: 0 <= i < j < |t.slots| && t.slots[i].used && t.slots[j].used ==>
        t.slots[i].resource != t.slots[j].resource)
    && (forall i :: 0 <= i < |t.released| ==> 0 < t.released[i] <= t.acquired)
    && (forall i, j :: 0 <= i < j < |t.released| ==> t.released[i] != t.released[j])
    && (forall r: nat :: 0 < r <= t.acquired ==> r in t.released || HeldBySlot(t.slots, r))
  }

  ghost predicate Consistent(t: Table) {
    Paired(t) && Accounted(t)
  }

  lemma ReleaseKeeps(t: Table, port: nat)
    requires Paired(t) && port < PORTS && t.flags[port]
    ensures Paired(Release(t, FirstCarrying(t.slots, port), port))
    ensures Accounted(t) ==> Accounted(Release(t, FirstCarrying(t.slots, port), port))
  {
    var i := FirstCarrying(t.slots, port);
    var u := Release(t, i, port);
    if Accounted(t) {
      ReleaseAccounted(t, u, i);
    }
    ReleaseFlags(t, i, port);
    assert DistinctPorts(u.slots);
    hide Accounted, FlagsMatch, DistinctPorts, FirstCarrying;
  }

  lemma ReleaseFlags(t: Table, i: nat, port: nat)
    requires Paired(t) && i < SLOT_COUNT && port < PORTS && Carries(t.slots[i], port)
    ensures FlagsMatch(Release(t, i, port))
  {
    hide FirstCarrying;
    var u := Release(t, i, port);
    forall p | 0 <= p < PORTS && u.flags[p]
      ensures FirstCarrying(u.slots, p) < SLOT_COUNT
    {
      var j := FirstCarrying(t.slots, p);
      assert u.slots[j] == t.slots[j];
    }
  }

  lemma ReleaseAccounted(t: Table, u: Table, i: nat)
    requires Accounted(t) && i < |t.slots| && t.slots[i].used
    requires u.slots == t.slots[i := t.slots[i].(used := false)]
    requires u.acquired == t.acquired && u.released == t.released + [t.slots[i].resource]
    ensures Accounted(u)
  {
    assert u.released[|t.released|] == t.slots[i].resource;
    forall r: nat | 0 < r <= u.acquired
      ensures r in u.released || HeldBySlot(u.slots, r)
    {
      if r !in t.released {
        assert HeldBySlot(t.slots, r);
        var j :| 0 <= j < |t.slots| && t.slots[j].used && t.slots[j].resource == r;
        assert j == i || u.slots[j] == t.slots[j];
      }
    }
  }

  lemma OccupyKeeps(t: Table, i: nat, port: nat)
    requires Consistent(t) && i < SLOT_COUNT && !t.slots[i].used && port < PORTS && !t.flags[port]
    ensures Consistent(Occupy(t, i, port))
  {
    var u := Occupy(t, i, port);
    OccupyAccounted(t, u, i);
    EntryPairs(t, u, i, port);
    hide Accounted, Paired;
  }

  /** Entering an unflagged port in a free slot keeps flags and slots in step. */
  lemma EntryPairs(t: Table, u: Table, i: nat, port: nat)
    requires Paired(t) && i < SLOT_COUNT && !t.slots[i].used && port < PORTS && !t.flags[port]
    requires u.flags == t.flags[port := true] && |u.slots| == SLOT_COUNT && Carries(u.slots[i], port)
    requires forall j :: 0 <= j < SLOT_COUNT && j != i ==> u.slots[j] == t.slots[j]
    ensures Paired(u)
  {
    hide FirstCarrying;
    forall p | 0 <= p < PORTS && u.flags[p]
      ensures FirstCarrying(u.slots, p) < SLOT_COUNT
    {
      assert Carries(u.slots[if p == port then i else FirstCarrying(t.slots, p)], p);
    }
  }

  lemma OccupyAccounted(t: Table, u: Table, i: nat)
    requires Accounted(t) && i < |t.slots| && !t.slots[i].used
    requires |u.slots| == |t.slots| && u.slots[i].used && u.slots[i].resource == t.acquired + 1
    requires forall j :: 0 <= j < |t.slots| && j != i ==> u.slots[j] == t.slots[j]
    requires u.acquired == t.acquired + 1 && u.released == t.released
    ensures Accounted(u)
  {
    forall r: nat | 0 < r <= u.acquired
      ensures r in u.released || HeldBySlot(u.slots, r)
    {
      if r == t.acquired + 1 {
        assert u.slots[i].used && u.slots[i].resource == r;
      } else if r !in t.released {
        assert HeldBySlot(t.slots, r);
        var j :| 0 <= j < |t.slots| && t.slots[j].used && t.slots[j].resource == r;
        assert u.slots[j] == t.slots[j];
      }
    }
  }

  /** A file that was opened for nothing: opened, closed, and the slot still free. */
  function Abort(t: Table, i: nat, port: nat): Table
    requires Shaped(t) && i < SLOT_COUNT
  {
    t.(slots := t.slots[i := Slot(false, port, t.acquired + 1)],
       acquired := t.acquired + 1,
       released := t.released + [t.acquired + 1])
  }

  lemma AbortKeeps(t: Table, i: nat, port: nat)
    requires Consistent(t) && i < SLOT_COUNT && !t.slots[i].used
    ensures Consistent(Abort(t, i, port))
  {
    var u := Abort(t, i, port);
    AbortAccounted(t, u, i);
    hide Accounted, FirstCarrying;
    forall p | 0 <= p < PORTS && u.flags[p]
      ensures FirstCarrying(u.slots, p) < SLOT_COUNT
    {
      assert Carries(u.slots[FirstCarrying(t.slots, p)], p);
    }
  }

  lemma AbortAccounted(t: Table, u: Table, i: nat)
    requires Accounted(t) && i < |t.slots| == |u.slots| && !t.slots[i].used && !u.slots[i].used
    requires forall j :: 0 <= j < |t.slots| && j != i ==> u.slots[j] == t.slots[j]
    requires u.acquired == t.acquired + 1 && u.released == t.released + [t.acquired + 1]
    ensures Accounted(u)
  {
    assert u.released[|t.released|] == t.acquired + 1;
    forall r: nat | 0 < r <= u.acquired
      ensures r in u.released || HeldBySlot(u.slots, r)
    {
      if r <= t.acquired && r !in t.released {
        assert HeldBySlot(t.slots, r);
        var j :| 0 <= j < |t.slots| && t.slots[j].used && t.slots[j].resource == r;
        assert u.slots[j] == t.slots[j];
      }
    }
  }

  // ----- There is always room -----

  function UsedSlots(slots: seq<Slot>): (s: set<nat>)
    ensures forall i: nat :: i in s <==> i < |slots| && slots[i].used
  {
    if slots == [] then {}
    else
      var n := |slots| - 1;
      UsedSlots(slots[..n]) + (if slots[n].used then {n} else {})
  }

  function FlaggedPorts(flags: seq<bool>): (s: set<nat>)
    ensures |s| <= |flags| && forall p: nat :: p in s <==> p < |flags| && flags[p]
  {
    if flags == [] then {}
    else
      var n := |flags| - 1;
      FlaggedPorts(flags[..n]) + (if flags[n] then {n} else {})
  }

  lemma {:induction false} OnePortEach(slots: seq<Slot>, used: set<nat>, ports: set<nat>)
    requires DistinctPorts(slots)
    requires forall i :: i in used ==> i < |slots| && slots[i].used && slots[i].port in ports
    ensures |used| <= |ports|
  {
    if i :| i in used {
      OnePortEach(slots, used - {i}, ports - {slots[i].port});
    }
  }

  /** In use are at most as many slots as ports are flagged, hence at most 7 of the 16. */
  lemma RoomToSpare(t: Table)
    requires Paired(t)
    ensures |UsedSlots(t.slots)| <= |FlaggedPorts(t.flags)| <= 7
    ensures FirstFree(t.slots) < 16 == |t.slots|
  {
    OnePortEach(t.slots, UsedSlots(t.slots), FlaggedPorts(t.flags));
    if FirstFree(t.slots) == SLOT_COUNT {
      AllUsed(t.slots, SLOT_COUNT);
    }
  }

  lemma {:induction false} AllUsed(slots: seq<Slot>, n: nat)
    requires n == |slots| && forall i :: 0 <= i < n ==> slots[i].used
    ensures |UsedSlots(slots)| == n
  {
    if n > 0 {
      AllUsed(slots[..n - 1], n - 1);
      assert n - 1 !in UsedSlots(slots[..n - 1]);
    }
  }

  // ----- Every operation keeps the invariant -----

  /** `Stop` always finds its slot, releases exactly the resource of its port and clears the flag. */
  lemma FileStopKeeps(t: Table, port: nat)
    requires Consistent(t) && port < PORTS
    ensures var u := FileStop(t, port);
            && Consistent(u) && !u.flags[port] && u.acquired == t.acquired
            && (forall p :: 0 <= p < PORTS && p != port ==> u.flags[p] == t.flags[p])
            && (forall i :: 0 <= i < SLOT_COUNT && !Carries(t.slots[i], port) ==> u.slots[i] == t.slots[i])
            && if t.flags[port] then
                 exists i :: 0 <= i < SLOT_COUNT && Carries(t.slots[i], port) &&
                   u.released == t.released + [t.slots[i].resource]
               else u == t
  {
    hide Accounted;
    if t.flags[port] {
      ReleaseKeeps(t, port);
    }
  }

  /** `Start` never runs out of slots: it fails only if the file cannot be opened or the thread cannot
      be created, and then leaves its port stopped and no file open for it. */
  lemma FileStartKeeps(t: Table, port: nat, openOk: bool, threadOk: bool)
    requires Consistent(t) && port < PORTS
    ensures var r := FileStart(t, port, openOk, threadOk);
            && Consistent(r.0) && r.1 == (openOk && threadOk) && r.0.flags[port] == r.1
            && (forall p :: 0 <= p < PORTS && p != port ==> r.0.flags[p] == t.flags[p])
            && r.0.acquired == t.acquired + if openOk then 1 else 0
  {
    var u := FileStop(t, port);
    FileStopKeeps(t, port);
    RoomToSpare(u);
    ConsistentIsShaped(u);
    hide Consistent, FileStop, FirstFree, FirstCarrying;
    var i := FirstFree(u.slots);
    if openOk && threadOk {
      OccupyKeeps(u, i, port);
    } else if openOk {
      AbortKeeps(u, i, port);
    }
  }

  lemma ConsistentIsShaped(t: Table)
    requires Consistent(t)
    ensures Shaped(t)
  {
  }

  /** With flags and slots in step, IP `Stop` succeeds exactly on the memory ports. */
  lemma IpStopKeeps(t: Table, port: nat)
    requires Paired(t)
    ensures var r := IpStop(t, port);
            && Paired(r.0) && (r.1 <==> 3 <= port < 7)
            && (r.1 ==> !r.0.flags[port])
            && (Accounted(t) ==> Accounted(r.0))
  {
    hide Accounted;
    if DVB_PORTS <= port < PORTS && t.flags[port] {
      ReleaseKeeps(t, port);
    }
  }

  lemma PairedIsShaped(t: Table)
    requires Paired(t)
    ensures Shaped(t)
  {
  }

  lemma IpEnterKeeps(u: Table, i: nat, port: nat, threadOk: bool)
    requires Paired(u) && i < SLOT_COUNT && !u.slots[i].used && port < PORTS && !u.flags[port]
    ensures Paired(IpEnter(u, i, port, threadOk))
    ensures Accounted(u) ==> (Accounted(IpEnter(u, i, port, threadOk)) <==> threadOk)
  {
    var v := IpEnter(u, i, port, threadOk);
    EntryPairs(u, v, i, port);
    hide Accounted;
    if Accounted(u) {
      if threadOk {
        OccupyAccounted(u, v, i);
      } else {
        StaleIsUnaccounted(u, i, port);
      }
    }
  }

  lemma IpStartKeeps(t: Table, port: nat, threadOk: bool)
    requires Paired(t) && port < PORTS && (port >= DVB_PORTS || !t.flags[port])
    ensures Paired(IpStart(t, port, threadOk).0) && IpStart(t, port, threadOk).1
    ensures Accounted(t) ==> (Accounted(IpStart(t, port, threadOk).0) <==> threadOk)
  {
    var u := if t.flags[port] then IpStop(t, port).0 else t;
    IpStopKeeps(t, port);
    RoomToSpare(u);
    PairedIsShaped(u);
    hide Paired, IpStop, FirstFree, Accounted, IpEnter;
    IpEnterKeeps(u, FirstFree(u.slots), port, threadOk);
  }

  /** The handle left in a free slot is nobody's to hold: it has been released, another slot has it, or
      it never was one. */
  lemma StaleIsUnaccounted(t: Table, i: nat, port: nat)
    requires Shaped(t) && Accounted(t) && i < SLOT_COUNT && !t.slots[i].used && port < PORTS
    ensures !Accounted(OccupyStale(t, i, port))
  {
    var u := OccupyStale(t, i, port);
    var r := t.slots[i].resource;
    assert u.slots[i].used && u.slots[i].resource == r;
    if 0 < r <= t.acquired && r !in t.released {
      assert HeldBySlot(t.slots, r);
      var j :| 0 <= j < |t.slots| && t.slots[j].used && t.slots[j].resource == r;
      assert u.slots[j] == t.slots[j] && j != i;
    }
  }

  lemma IpStartLeaks(t: Table, port: nat, threadOk: bool)
    requires Paired(t) && port < DVB_PORTS && t.flags[port]
    ensures IpStart(t, port, threadOk).1 && !Paired(IpStart(t, port, threadOk).0)
  {
    RoomToSpare(t);
    hide FirstFree, FirstCarrying;
    var i, j := FirstFree(t.slots), FirstCarrying(t.slots, port);
    var v := IpStart(t, port, threadOk).0;
    assert Carries(v.slots[i], port) && v.slots[j] == t.slots[j];
    assert !DistinctPorts(v.slots);
  }

  /** IP `Start` always finds a slot. It keeps flags and slots in step unless it is repeated on a tuner
      port, whose running injection the nested `Stop` refuses to end; and it keeps the threads accounted
      for if, besides, the thread could be created. */
  lemma IpStartKeepsExactly(t: Table, port: nat, threadOk: bool)
    requires Paired(t) && port < PORTS
    ensures var r := IpStart(t, port, threadOk);
            && r.1 && (Paired(r.0) <==> port >= 3 || !t.flags[port])
            && (Accounted(t) ==> (Consistent(r.0) <==> threadOk && (port >= 3 || !t.flags[port])))
  {
    PairedIsShaped(t);
    hide Paired, Accounted, IpStart;
    if port >= DVB_PORTS || !t.flags[port] {
      IpStartKeeps(t, port, threadOk);
    } else {
      IpStartLeaks(t, port, threadOk);
    }
  }

  // ----- Runs -----

  function FreeSlots(n: nat): (s: seq<Slot>)
    ensures |s| == n && forall i :: 0 <= i < n ==> !s[i].used
  {
    if n == 0 then [] else FreeSlots(n - 1) + [Slot(false, 0, 0)]
  }

  const NO_FLAGS: seq<bool> := [false, false, false, false, false, false, false]

  /** The tables after initialisation. */
  function Fresh(): Table {
    Table(NO_FLAGS, FreeSlots(SLOT_COUNT), 0, [])
  }

  lemma FreshConsistent()
    ensures Consistent(Fresh())
  {
    hide FreeSlots, FirstCarrying;
  }

  datatype Op =
    | OpFileStart(port: nat, openOk: bool, threadOk: bool)
    | OpFileStop(port: nat)

  predicate ValidOps(ops: seq<Op>) {
    forall i :: 0 <= i < |ops| ==> ops[i].port < PORTS
  }

  /** A run of file operations; it stops short if one of them would leave the table. */
  function FileRun(t: Table, ops: seq<Op>): Option<Table>
    requires Shaped(t) && ValidOps(ops)
    decreases |ops|
  {
    if ops == [] then Some(t)
    else
      var port := ops[0].port;
      if t.flags[port] && FirstCarrying(t.slots, port) == SLOT_COUNT then None
      else
        match ops[0]
        case OpFileStart(_, openOk, threadOk) => FileRun(FileStart(t, port, openOk, threadOk).0, ops[1..])
        case OpFileStop(_) => FileRun(FileStop(t, port), ops[1..])
  }

  /** No run of file operations leaves the slot table, and every run ends in a consistent table. */
  lemma {:induction false} FileRunKeeps(t: Table, ops: seq<Op>)
    requires Consistent(t) && ValidOps(ops)
    ensures FileRun(t, ops).Some? && Consistent(FileRun(t, ops).value)
    decreases |ops|
  {
    if ops != [] {
      var port := ops[0].port;
      assert !t.flags[port] || FirstCarrying(t.slots, port) < SLOT_COUNT;
      hide Consistent, FileStart, FileStop;
      match ops[0] {
        case OpFileStart(_, openOk, threadOk) =>
          FileStartKeeps(t, port, openOk, threadOk);
          FileRunKeeps(FileStart(t, port, openOk, threadOk).0, ops[1..]);
        case OpFileStop(_) =>
          FileStopKeeps(t, port);
          FileRunKeeps(FileStop(t, port), ops[1..]);
      }
    }
  }

  datatype IpOp =
    | OpIpStart(port: nat, threadOk: bool)
    | OpIpStop(port: nat)

  predicate MemoryOps(ops: seq<IpOp>) {
    forall i :: 0 <= i < |ops| ==> DVB_PORTS <= ops[i].port < PORTS
  }

  predicate ThreadsCreated(ops: seq<IpOp>) {
    forall i :: 0 <= i < |ops| && ops[i].OpIpStart? ==> ops[i].threadOk
  }

  function IpApply(t: Table, op: IpOp): Table
    requires Shaped(t) && op.port < PORTS
  {
    match op
    case OpIpStart(port, threadOk) => IpStart(t, port, threadOk).0
    case OpIpStop(port) => IpStop(t, port).0
  }

  function IpRun(t: Table, ops: seq<IpOp>): Table
    requires Shaped(t) && forall i :: 0 <= i < |ops| ==> ops[i].port < PORTS
    decreases |ops|
  {
    if ops == [] then t else IpRun(IpApply(t, ops[0]), ops[1..])
  }

  // ----- Counting the threads -----

  function Uncreated(ops: seq<IpOp>): (n: nat)
    ensures n == 0 <==> ThreadsCreated(ops)
    decreases |ops|
  {
    if ops == [] then 0
    else
      assert forall i :: 1 <= i < |ops| ==> ops[i] == ops[1..][i - 1];
      Uncreated(ops[1..]) + if ops[0].OpIpStart? && !ops[0].threadOk then 1 else 0
  }

  /** Threads joined and threads to be joined, beyond those there have been. */
  function Excess(t: Table): int {
    |t.released| + |UsedSlots(t.slots)| - t.acquired
  }

  lemma ReleaseExcess(t: Table, i: nat, port: nat)
    requires Shaped(t) && i < SLOT_COUNT && port < PORTS && t.slots[i].used
    ensures Excess(Release(t, i, port)) == Excess(t)
  {
    hide UsedSlots;
    assert UsedSlots(Release(t, i, port).slots) == UsedSlots(t.slots) - {i};
  }

  lemma IpEnterExcess(t: Table, i: nat, port: nat, threadOk: bool)
    requires Shaped(t) && i < SLOT_COUNT && port < PORTS && !t.slots[i].used
    ensures Excess(IpEnter(t, i, port, threadOk)) == Excess(t) + if threadOk then 0 else 1
  {
    hide UsedSlots;
    assert UsedSlots(IpEnter(t, i, port, threadOk).slots) == UsedSlots(t.slots) + {i};
  }

  lemma IpApplyExcess(t: Table, op: IpOp)
    requires Paired(t) && DVB_PORTS <= op.port < PORTS
    ensures Excess(IpApply(t, op)) == Excess(t) + if op.OpIpStart? && !op.threadOk then 1 else 0
  {
    var port := op.port;
    var u := if t.flags[port] then IpStop(t, port).0 else t;
    IpStopKeeps(t, port);
    RoomToSpare(u);
    if t.flags[port] {
      ReleaseExcess(t, FirstCarrying(t.slots, port), port);
    }
    hide FirstFree, FirstCarrying, Release, IpEnter, Excess, Accounted, FlagsMatch, DistinctPorts;
    if op.OpIpStart? {
      IpEnterExcess(u, FirstFree(u.slots), port, op.threadOk);
    }
  }

  /** The first `n` numbers, from 1. */
  function Numbers(n: nat): (s: set<nat>)
    ensures |s| == n && forall r: nat :: r in s <==> 0 < r <= n
  {
    if n == 0 then {} else Numbers(n - 1) + {n}
  }

  function ElementsOf(s: seq<nat>): (r: set<nat>)
    ensures forall x :: x in r <==> x in s
    ensures (forall i, j :: 0 <= i < j < |s| ==> s[i] != s[j]) ==> |r| == |s|
  {
    if s == [] then {}
    else
      var n := |s| - 1;
      assert s == s[..n] + [s[n]];
      ElementsOf(s[..n]) + {s[n]}
  }

  /** The resources of the slots in `used`. */
  function HeldBy(slots: seq<Slot>, used: set<nat>): set<nat>
    requires forall i :: i in used ==> i < |slots|
  {
    set i | i in used :: slots[i].resource
  }

  lemma {:induction false} HeldBySize(slots: seq<Slot>, used: set<nat>)
    requires forall i :: i in used ==> i < |slots|
    requires forall i, j :: i in used && j in used && i != j ==> slots[i].resource != slots[j].resource
    ensures |HeldBy(slots, used)| == |used|
  {
    if i :| i in used {
      HeldBySize(slots, used - {i});
      assert HeldBy(slots, used) == HeldBy(slots, used - {i}) + {slots[i].resource};
    }
  }

  /** In an accounted table joins and running threads add up. */
  lemma AccountedExcess(t: Table)
    requires Accounted(t)
    ensures Excess(t) == 0
  {
    hide UsedSlots, ElementsOf, Numbers;
    var used := UsedSlots(t.slots);
    var joined, held := ElementsOf(t.released), HeldBy(t.slots, used);
    HeldBySize(t.slots, used);
    forall r: nat
      ensures r in joined + held <==> r in Numbers(t.acquired)
    {
      if 0 < r <= t.acquired && r !in t.released {
        assert HeldBySlot(t.slots, r);
      }
    }
    assert joined + held == Numbers(t.acquired);
    assert joined !! held;
  }

  /** On the memory ports every run of IP operations keeps flags and slots in step, and keeps the threads
      accounted for if and only if every thread it asked for could be created. */
  lemma IpRunKeeps(t: Table, ops: seq<IpOp>)
    requires Paired(t) && MemoryOps(ops)
    ensures Paired(IpRun(t, ops))
    ensures Accounted(t) ==> (Accounted(IpRun(t, ops)) <==> ThreadsCreated(ops))
  {
    hide Paired, Accounted, IpRun, Excess, ThreadsCreated;
    PairedIsShaped(t);
    IpRunAdds(t, ops);
    if Accounted(t) {
      AccountedExcess(t);
      if Accounted(IpRun(t, ops)) {
        AccountedExcess(IpRun(t, ops));
      }
    }
  }

  lemma IpApplyKeeps(t: Table, op: IpOp)
    requires Paired(t) && DVB_PORTS <= op.port < PORTS
    ensures Paired(IpApply(t, op))
    ensures Accounted(t) && (op.OpIpStart? ==> op.threadOk) ==> Accounted(IpApply(t, op))
  {
    hide Paired, Accounted, IpStart, IpStop;
    PairedIsShaped(t);
    match op {
      case OpIpStart(port, threadOk) => IpStartKeeps(t, port, threadOk);
      case OpIpStop(port) => IpStopKeeps(t, port);
    }
  }

  lemma {:induction false} IpRunAdds(t: Table, ops: seq<IpOp>)
    requires Paired(t) && MemoryOps(ops)
    ensures Paired(IpRun(t, ops)) && Excess(IpRun(t, ops)) == Excess(t) + Uncreated(ops)
    ensures Accounted(t) && ThreadsCreated(ops) ==> Accounted(IpRun(t, ops))
    decreases |ops|
  {
    hide Paired, Accounted, IpApply, Excess;
    PairedIsShaped(t);
    if ops != [] {
      IpApplyExcess(t, ops[0]);
      IpApplyKeeps(t, ops[0]);
      IpRunAdds(IpApply(t, ops[0]), ops[1..]);
    }
  }

  /** In step means, for a port: its flag is set exactly when one used slot, and only one, carries it. */
  lemma OneSlotPerFlag(t: Table, port: nat)
    requires Paired(t) && port < PORTS
    ensures t.flags[port] <==> exists i :: 0 <= i < SLOT_COUNT && Carries(t.slots[i], port)
    ensures forall i, j | 0 <= i < SLOT_COUNT && 0 <= j < SLOT_COUNT ::
              Carries(t.slots[i], port) && Carries(t.slots[j], port) ==> i == j
  {
    if t.flags[port] {
      assert Carries(t.slots[FirstCarrying(t.slots, port)], port);
    }
  }

  /** What consistency says about the resources: each has been released exactly once or is held by a
      used slot, and if no port is injecting, all have been released. */
  lemma ReleasedOrHeld(t: Table)
    requires Consistent(t)
    ensures forall i, j :: 0 <= i < j < |t.released| ==> t.released[i] != t.released[j]
    ensures forall r: nat :: 0 < r <= t.acquired ==> (r in t.released <==> !HeldBySlot(t.slots, r))
    ensures (forall p :: 0 <= p < PORTS ==> !t.flags[p]) ==> forall r: nat :: 0 < r <= t.acquired ==> r in t.released
  {
    hide FirstCarrying, FirstFree;
    forall r: nat | 0 < r <= t.acquired && HeldBySlot(t.slots, r)
      ensures r !in t.released && exists p :: 0 <= p < PORTS && t.flags[p]
    {
      var i :| 0 <= i < |t.slots| && t.slots[i].used && t.slots[i].resource == r;
      assert t.flags[t.slots[i].port];
    }
  }

  /** After any run of file operations from initialisation: each flag has its one slot, at most seven
      slots are in use, and every file ever opened has been closed exactly once or is the file of a
      flagged port; if no port is injecting, all have been closed. */
  lemma FileRunSummary(ops: seq<Op>)
    requires ValidOps(ops)
    ensures FileRun(Fresh(), ops).Some?
    ensures var t := FileRun(Fresh(), ops).value;
            && Consistent(t) && |UsedSlots(t.slots)| <= 7
            && (forall i, j :: 0 <= i < j < |t.released| ==> t.released[i] != t.released[j])
            && (forall r: nat :: 0 < r <= t.acquired ==> (r in t.released <==> !HeldBySlot(t.slots, r)))
            && ((forall p :: 0 <= p < PORTS ==> !t.flags[p]) ==>
                  forall r: nat :: 0 < r <= t.acquired ==> r in t.released)
  {
    hide FileRun;
    FreshConsistent();
    FileRunKeeps(Fresh(), ops);
    var t := FileRun(Fresh(), ops).value;
    RoomToSpare(t);
    ReleasedOrHeld(t);
  }

  lemma {:induction false} IpRunLeavesTuners(t: Table, ops: seq<IpOp>)
    requires Shaped(t) && MemoryOps(ops)
    ensures Shaped(IpRun(t, ops)) && IpRun(t, ops).flags[..DVB_PORTS] == t.flags[..DVB_PORTS]
    decreases |ops|
  {
    if ops != [] {
      var u := IpApply(t, ops[0]);
      assert u.flags[..DVB_PORTS] == t.flags[..DVB_PORTS];
      IpRunLeavesTuners(u, ops[1..]);
    }
  }

  /** After any run of IP operations on the memory ports, whether or not its threads could be created, flags
      and slots are in step and at most four slots are in use. Exactly if they could, every thread ever started has
      been joined exactly once or belongs to a used slot, and if no port is injecting, all have been joined. */
  lemma IpRunSummary(ops: seq<IpOp>)
    requires MemoryOps(ops)
    ensures var t := IpRun(Fresh(), ops);
            && Paired(t) && |UsedSlots(t.slots)| <= 4
            && (Accounted(t) <==> ThreadsCreated(ops))
            && (ThreadsCreated(ops) ==>
                  && (forall i, j :: 0 <= i < j < |t.released| ==> t.released[i] != t.released[j])
                  && (forall r: nat :: 0 < r <= t.acquired ==> (r in t.released <==> !HeldBySlot(t.slots, r)))
                  && ((forall p :: 0 <= p < PORTS ==> !t.flags[p]) ==>
                        forall r: nat :: 0 < r <= t.acquired ==> r in t.released))
  {
    FreshConsistent();
    IpRunKeeps(Fresh(), ops);
    IpRunLeavesTuners(Fresh(), ops);
    var t := IpRun(Fresh(), ops);
    hide Paired, Accounted, IpRun, Fresh, HeldBySlot, UsedSlots, ThreadsCreated;
    MemoryPortsOnly(t);
    if ThreadsCreated(ops) {
      ReleasedOrHeld(t);
    }
  }

  lemma MemoryPortsOnly(t: Table)
    requires Paired(t) && t.flags[..DVB_PORTS] == NO_FLAGS[..DVB_PORTS]
    ensures |UsedSlots(t.slots)| <= PORTS - DVB_PORTS
  {
    hide FirstCarrying;
    assert forall p :: 0 <= p < DVB_PORTS ==> t.flags[p] == t.flags[..DVB_PORTS][p];
    OnePortEach(t.slots, UsedSlots(t.slots), {3, 4, 5, 6});
  }

  /** Two starts on tuner port 0: two slots carry it and neither can be stopped. */
  lemma TunerPortLeaks()
    ensures var t := IpStart(Fresh(), 0, true).0; var u := IpStart(t, 0, true).0;
            && Carries(u.slots[0], 0) && Carries(u.slots[1], 0) && !Paired(u)
            && IpStop(u, 0) == (u, false)
  {
    FreshConsistent();
    IpStartKeepsExactly(Fresh(), 0, true);
    var t := IpStart(Fresh(), 0, true).0;
    assert FirstFree(Fresh().slots) == 0;
    assert FirstFree(t.slots) == 1;
    IpStartKeepsExactly(t, 0, true);
  }

  lemma StepOnSlotZero(t: Table, op: IpOp)
    requires Shaped(t) && op.port == 3 && t.slots[0].used == t.flags[3] == op.OpIpStop?
    requires t.slots[0].used ==> t.slots[0].port == 3
    ensures var u := IpApply(t, op);
            && Shaped(u) && u.slots[0].used == u.flags[3] == op.OpIpStart? && u.slots[0].port == 3
            && u.slots[0].resource == (if op.OpIpStart? && op.threadOk then t.acquired + 1 else t.slots[0].resource)
            && u.released == (if op.OpIpStop? then t.released + [t.slots[0].resource] else t.released)
  {
    assert FirstCarrying(t.slots, 3) == 0 || op.OpIpStart?;
    assert FirstFree(t.slots) == 0 || op.OpIpStop?;
  }

  /** A thread runs on memory port 3 and is stopped, the next one cannot be created, and the stop after
      that joins the first thread a second time. */
  lemma JoinedTwice()
    ensures IpRun(Fresh(), [OpIpStart(3, true), OpIpStop(3), OpIpStart(3, false), OpIpStop(3)]).released == [1, 1]
  {
    var t0 := Fresh();
    assert Shaped(t0) && t0.acquired == 0 && t0.released == [] && !t0.slots[0].used && !t0.flags[3];
    hide IpApply, Fresh;
    var a, b, c := OpIpStart(3, true), OpIpStop(3), OpIpStart(3, false);
    StepOnSlotZero(t0, a);
    var t1 := IpApply(t0, a);
    StepOnSlotZero(t1, b);
    var t2 := IpApply(t1, b);
    StepOnSlotZero(t2, c);
    var t3 := IpApply(t2, c);
    StepOnSlotZero(t3, b);
    assert [a, b, c, b][1..] == [b, c, b] && [b, c, b][1..] == [c, b] && [c, b][1..] == [b] && [b][1..] == [];
    assert IpRun(t2, [c, b]) == IpRun(t3, [b]) == IpRun(IpApply(t3, b), []);
    assert IpRun(t0, [a, b, c, b]) == IpRun(t1, [b, c, b]) == IpRun(t2, [c, b]);
  }

  // ----- The code -----

  /** Both search loops of the adapter: the first slot that is free, the first that carries a port. */
  method SearchFree(slots: array<Slot>) returns (i: nat)
    ensures i == FirstFree(slots[..])
  {
    i := 0;
    while i < slots.Length && slots[i].used
      invariant i <= slots.Length && forall j :: 0 <= j < i ==> slots[j].used
    {
      i := i + 1;
    }
    FirstFreeUnique(slots[..], i);
  }

  lemma {:induction false} FirstFreeUnique(slots: seq<Slot>, i: nat)
    requires i <= |slots| && (i < |slots| ==> !slots[i].used) && forall j :: 0 <= j < i ==> slots[j].used
    ensures i == FirstFree(slots)
  {
    if i > 0 {
      FirstFreeUnique(slots[1..], i - 1);
    }
  }

  method SearchCarrying(slots: array<Slot>, port: nat) returns (i: nat)
    ensures i == FirstCarrying(slots[..], port)
  {
    i := 0;
    while i < slots.Length && !Carries(slots[i], port)
      invariant i <= slots.Length && forall j :: 0 <= j < i ==> !Carries(slots[j], port)
    {
      i := i + 1;
    }
    FirstCarryingUnique(slots[..], port, i);
  }

  lemma {:induction false} FirstCarryingUnique(slots: seq<Slot>, port: nat, i: nat)
    requires i <= |slots| && (i < |slots| ==> Carries(slots[i], port))
    requires forall j :: 0 <= j < i ==> !Carries(slots[j], port)
    ensures i == FirstCarrying(slots, port)
  {
    if i > 0 {
      FirstCarryingUnique(slots[1..], port, i - 1);
    }
  }

  class FileInjection {
    const flags: array<bool>
    const slots: array<Slot>
    var acquired: nat
    var released: seq<nat>

    ghost function View(): Table
      reads this, flags, slots
    {
      Table(flags[..], slots[..], acquired, released)
    }

    ghost predicate Valid()
      reads this, flags, slots
    {
      Consistent(View())
    }

    constructor ()
      ensures Valid() && View() == Fresh()
      ensures fresh(flags) && fresh(slots)
    {
      flags := new bool[PORTS](_ => false);
      slots := new Slot[SLOT_COUNT](_ => Slot(false, 0, 0));
      acquired, released := 0, [];
      new;
      FreshSlots(slots[..]);
      assert flags[..] == NO_FLAGS;
      FreshConsistent();
    }

    method StopInject(port: nat)
      requires Valid() && port < PORTS
      modifies this, flags, slots
      ensures Valid() && View() == FileStop(old(View()), port)
    {
      ghost var t := View();
      FileStopKeeps(t, port);
      if !flags[port] {
        return;
      }
      var i := SearchCarrying(slots, port);
      released := released + [slots[i].resource];
      slots[i] := slots[i].(used := false);
      flags[port] := false;
      assert View() == Release(t, i, port);
    }

    /** The part of `StartInject` after the nested stop. */
    method Enter(port: nat, openOk: bool, threadOk: bool) returns (ok: bool)
      requires Shaped(View()) && port < PORTS
      modifies this, flags, slots
      ensures (View(), ok) == FileEnter(old(View()), port, openOk, threadOk)
    {
      ghost var u := View();
      var i := SearchFree(slots);
      if i == SLOT_COUNT || !openOk {
        return false;
      }
      var file := acquired + 1;
      acquired := acquired + 1;
      slots[i] := slots[i].(port := port, resource := file);
      if !threadOk {
        released := released + [file];
        assert slots[..] == u.slots[i := Slot(false, port, u.acquired + 1)];
        return false;
      }
      slots[i] := slots[i].(used := true);
      flags[port] := true;
      assert slots[..] == u.slots[i := Slot(true, port, u.acquired + 1)];
      return true;
    }

    method StartInject(port: nat, openOk: bool, threadOk: bool) returns (ok: bool)
      requires Valid() && port < PORTS
      modifies this, flags, slots
      ensures Valid() && (View(), ok) == FileStart(old(View()), port, openOk, threadOk)
    {
      ghost var t := View();
      FileStartKeeps(t, port, openOk, threadOk);
      FileStopKeeps(t, port);
      hide Accounted, FlagsMatch, DistinctPorts, FileEnter;
      if flags[port] {
        StopInject(port);
      }
      ok := Enter(port, openOk, threadOk);
    }
  }

  lemma FreshSlots(s: seq<Slot>)
    requires |s| == SLOT_COUNT && forall i :: 0 <= i < |s| ==> s[i] == Slot(false, 0, 0)
    ensures s == FreeSlots(SLOT_COUNT)
  {
    FreeSlotsAt(SLOT_COUNT);
  }

  lemma {:induction false} FreeSlotsAt(n: nat)
    ensures forall i :: 0 <= i < n ==> FreeSlots(n)[i] == Slot(false, 0, 0)
  {
    if n > 0 {
      FreeSlotsAt(n - 1);
    }
  }

  class IpInjection {
    const flags: array<bool>
    const slots: array<Slot>
    var acquired: nat
    var released: seq<nat>

    ghost function View(): Table
      reads this, flags, slots
    {
      Table(flags[..], slots[..], acquired, released)
    }

    constructor ()
      ensures View() == Fresh()
      ensures fresh(flags) && fresh(slots)
    {
      flags := new bool[PORTS](_ => false);
      slots := new Slot[SLOT_COUNT](_ => Slot(false, 0, 0));
      acquired, released := 0, [];
      new;
      FreshSlots(slots[..]);
      assert flags[..] == NO_FLAGS;
    }

    method StopInject(port: nat) returns (ok: bool)
      requires Shaped(View())
      modifies this, flags, slots
      ensures (View(), ok) == IpStop(old(View()), port)
    {
      ghost var t := View();
      if port < DVB_PORTS || port >= PORTS {
        return false;
      }
      if !flags[port] {
        return true;
      }
      var i := SearchCarrying(slots, port);
      if i == SLOT_COUNT {
        return false;
      }
      released := released + [slots[i].resource];
      slots[i] := slots[i].(used := false);
      flags[port] := false;
      assert View() == Release(t, i, port);
      return true;
    }

    method StartInject(port: nat, threadOk: bool) returns (ok: bool)
      requires Shaped(View()) && port < PORTS
      modifies this, flags, slots
      ensures (View(), ok) == IpStart(old(View()), port, threadOk)
    {
      ghost var t := View();
      if flags[port] {
        var stopped := StopInject(port);
      }
      ghost var u := View();
      hide IpStop;
      var i := SearchFree(slots);
      if i == SLOT_COUNT {
        return false;
      }
      slots[i] := slots[i].(port := port);
      if threadOk {
        acquired := acquired + 1;
        slots[i] := slots[i].(resource := acquired);
      }
      slots[i] := slots[i].(used := true);
      flags[port] := true;
      assert View() == IpEnter(u, i, port, threadOk);
      return true;
    }
  }
}
