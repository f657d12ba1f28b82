/** The polling loops that gather the sections of a DVB/MPEG table from a demux channel.

    The same loop exists three times: in the NIT and CAT samples, which keep polling after an
    unsuccessful acquire, and in the shared demux adapter, which gives up at once and numbers
    event-schedule and time sections differently.  The demux driver is an oracle: poll `i` of a run
    returns `oracle(i)`. */
module SectionCollector {
  import opened Types
  import Crc32

  const MAX_SECTION_LEN := 4096
  const MAX_SECTION_NUM := 256
  const BUFFER_LEN := MAX_SECTION_LEN * MAX_SECTION_NUM

  // ----- What the demux driver delivers -----

  datatype Item = Item(whole: bool, data: seq<Byte>)

  datatype Poll = Failed | Acquired(items: seq<Item>)

  /** The driver's side of the bargain: a whole section has its full header and fits a slot. */
  predicate Deliverable(item: Item) {
    item.whole ==> 8 <= |item.data| <= MAX_SECTION_LEN
  }

  predicate DeliverableAll(items: seq<Item>) {
    forall i :: 0 <= i < |items| ==> Deliverable(items[i])
  }

  ghost predicate Driver(oracle: nat -> Poll) {
    forall i: nat :: oracle(i).Acquired? ==> DeliverableAll(oracle(i).items)
  }

  predicate Fruitful(poll: Poll) {
    poll.Acquired? && poll.items != []
  }

  // ----- The specification: what a history of received items amounts to -----

  /** `Plain` is the NIT and CAT loop, `Shared` the one in the demux adapter, whose got-flags are on the stack:
      `garbage` are those that happen to be nonzero when it is called. */
  datatype Policy = Plain | Shared(garbage: set<nat>)

  /** The got-flag of slot `n` is up from the beginning. Only flag 0 is cleared by the adapter. */
  predicate Stale(policy: Policy, n: nat) {
    policy.Shared? && n != 0 && n in policy.garbage
  }

  predicate IsEventSchedule(tableId: Byte) {
    0x50 <= tableId <= 0x5F || 0x60 <= tableId <= 0x6F
  }

  predicate IsTime(tableId: Byte) {
    tableId == 0x70 || tableId == 0x73
  }

  function SlotOf(policy: Policy, item: Item): (n: nat)
    requires item.whole && Deliverable(item)
    ensures n < MAX_SECTION_NUM
  {
    if policy.Plain? then item.data[6]
    else if IsEventSchedule(item.data[0]) then item.data[6] / 8
    else if IsTime(item.data[0]) then 0
    else item.data[6]
  }

  function TotalOf(policy: Policy, item: Item): (n: nat)
    requires item.whole && Deliverable(item)
    ensures 1 <= n <= MAX_SECTION_NUM
  {
    if policy.Plain? then item.data[7] as nat + 1
    else if IsEventSchedule(item.data[0]) then item.data[7] / 8 + 1
    else if IsTime(item.data[0]) then 1
    else item.data[7] as nat + 1
  }

  function Wire(data: seq<Byte>): (w: seq<bv8>)
    ensures |w| == |data|
  {
    seq(|data|, i requires 0 <= i < |data| => data[i] as bv8)
  }

  /** The plain loop compares CRC and trailer, logs a mismatch, and keeps the section all the same. */
  predicate Mismatch(policy: Policy, data: seq<Byte>) {
    policy.Plain? && Crc32.Crc(Wire(data)) != 0
  }

  /** `slots` maps a slot to the section kept in it, `total` is the section count announced by the
      latest whole section, and `badCrc` counts the mismatches that were logged. */
  datatype Progress = Progress(slots: map<nat, seq<Byte>>, total: nat, badCrc: nat)

  function Keep(policy: Policy, p: Progress, item: Item): Progress
    requires Deliverable(item)
  {
    if !item.whole then p
    else
      var n := SlotOf(policy, item);
      Progress(
        if n in p.slots || Stale(policy, n) then p.slots else p.slots[n := item.data],
        TotalOf(policy, item),
        if Mismatch(policy, item.data) then p.badCrc + 1 else p.badCrc)
  }

  function KeepAll(policy: Policy, items: seq<Item>): Progress
    requires DeliverableAll(items)
  {
    if items == [] then Progress(map[], 0, 0)
    else Keep(policy, KeepAll(policy, items[..|items| - 1]), items[|items| - 1])
  }

  /** The completeness test made after every fruitful poll. */
  predicate Complete(p: Progress) {
    p.total == |p.slots|
  }

  /** Everything received in the first `n` polls. */
  ghost function History(oracle: nat -> Poll, n: nat): (items: seq<Item>)
    requires Driver(oracle)
    ensures DeliverableAll(items)
  {
    if n == 0 then []
    else History(oracle, n - 1) + (if oracle(n - 1).Acquired? then oracle(n - 1).items else [])
  }

  /** The polls among the first `n` whose buffers have to be handed back. */
  ghost function FruitfulPolls(oracle: nat -> Poll, n: nat): seq<nat> {
    if n == 0 then []
    else FruitfulPolls(oracle, n - 1) + (if Fruitful(oracle(n - 1)) then [n - 1] else [])
  }

  /** The run can end successfully after `n` polls. */
  ghost predicate Completes(policy: Policy, oracle: nat -> Poll, n: nat)
    requires Driver(oracle)
  {
    n > 0 && Fruitful(oracle(n - 1)) && Complete(KeepAll(policy, History(oracle, n)))
  }

  /** The run has not ended before poll `n`. */
  ghost predicate Pending(policy: Policy, oracle: nat -> Poll, n: nat)
    requires Driver(oracle)
  {
    && (forall m: nat :: m <= n ==> !Completes(policy, oracle, m))
    && (policy.Shared? ==> forall m: nat :: m < n ==> Fruitful(oracle(m)))
  }

  lemma PendingStep(policy: Policy, oracle: nat -> Poll, n: nat)
    requires Driver(oracle) && n > 0 && Pending(policy, oracle, n - 1)
    requires !Completes(policy, oracle, n) && (policy.Shared? ==> Fruitful(oracle(n - 1)))
    ensures Pending(policy, oracle, n)
  {
  }

  /** `--u32Times` on an unsigned word: a count of zero wraps around. */
  function Decrement(times: U32): U32 {
    if times == 0 then 0xFFFF_FFFF else times - 1
  }

  datatype Outcome = Success | TimedOut | AcquireFailed

  /** How a run of `polls` polls with at most `budget` allowed must have ended. */
  ghost predicate Ends(policy: Policy, oracle: nat -> Poll, budget: nat, outcome: Outcome, polls: nat)
    requires Driver(oracle)
  {
    match outcome
    case Success => 0 < polls <= budget && Pending(policy, oracle, polls - 1) && Completes(policy, oracle, polls) &&
                    (policy.Shared? ==> Fruitful(oracle(polls - 1)))
    case TimedOut => polls == budget && Pending(policy, oracle, polls)
    case AcquireFailed => policy.Shared? && 0 < polls <= budget && Pending(policy, oracle, polls - 1) &&
                          !Fruitful(oracle(polls - 1))
  }

  lemma BatchDecides(policy: Policy, oracle: nat -> Poll, n: nat)
    requires Driver(oracle) && n > 0
    ensures Completes(policy, oracle, n) <==>
            && Fruitful(oracle(n - 1))
            && KeepAll(policy, History(oracle, n)).total == |KeepAll(policy, History(oracle, n)).slots|
  {
    hide KeepAll, History;
  }

  lemma EndsHere(policy: Policy, oracle: nat -> Poll, budget: nat, outcome: Outcome, polls: nat)
    requires Driver(oracle) && polls <= budget
    requires outcome.TimedOut? ==> polls == budget && Pending(policy, oracle, polls)
    requires !outcome.TimedOut? ==> 0 < polls && Pending(policy, oracle, polls - 1)
    requires outcome.Success? ==> Completes(policy, oracle, polls)
    requires outcome.AcquireFailed? ==> policy.Shared? && !Fruitful(oracle(polls - 1))
    ensures Ends(policy, oracle, budget, outcome, polls)
  {
    hide KeepAll, History, Pending;
  }

  // ----- The code -----

  /** Slot `n` of the flat buffer. */
  function SlotBytes(buffer: seq<Byte>, n: nat): seq<Byte>
    requires |buffer| == BUFFER_LEN && n < MAX_SECTION_NUM
  {
    buffer[n * MAX_SECTION_LEN..(n + 1) * MAX_SECTION_LEN]
  }

  /** 256 slots of 4096 bytes. */
  lemma SlotGeometry(buffer: seq<Byte>, n: nat)
    requires |buffer| == BUFFER_LEN && n < MAX_SECTION_NUM
    ensures |buffer| == 0x10_0000 && n < 256 && SlotBytes(buffer, n) == buffer[n * 4096..n * 4096 + 4096]
  {
  }

  /** The buffers hold exactly the kept sections; every other slot, and every slot behind its section, is as
      it was. */
  ghost predicate Holds(buffer: seq<Byte>, sizes: seq<nat>, buffer0: seq<Byte>, sizes0: seq<nat>,
                        slots: map<nat, seq<Byte>>) {
    && |buffer| == |buffer0| == BUFFER_LEN && |sizes| == |sizes0| == MAX_SECTION_NUM
    && (forall n :: n in slots ==> n < MAX_SECTION_NUM && |slots[n]| <= MAX_SECTION_LEN)
    && (forall n :: 0 <= n < MAX_SECTION_NUM ==>
          if n in slots then
            sizes[n] == |slots[n]| && SlotBytes(buffer, n) == slots[n] + SlotBytes(buffer0, n)[|slots[n]|..]
          else
            sizes[n] == sizes0[n] && SlotBytes(buffer, n) == SlotBytes(buffer0, n))
  }

  /** `memcpy` into a slot. */
  method CopyToSlot(buffer: array<Byte>, n: nat, data: seq<Byte>)
    requires buffer.Length == BUFFER_LEN && n < MAX_SECTION_NUM && |data| <= MAX_SECTION_LEN
    modifies buffer
    ensures SlotBytes(buffer[..], n) == data + SlotBytes(old(buffer[..]), n)[|data|..]
    ensures forall m :: 0 <= m < MAX_SECTION_NUM && m != n ==> SlotBytes(buffer[..], m) == SlotBytes(old(buffer[..]), m)
  {
    var start := n * MAX_SECTION_LEN;
    for i := 0 to |data|
      invariant buffer[start..start + i] == data[..i]
      invariant forall k :: 0 <= k < buffer.Length && !(start <= k < start + i) ==> buffer[k] == old(buffer[k])
    {
      buffer[start + i] := data[i];
    }
    assert SlotBytes(buffer[..], n)[..|data|] == buffer[start..start + |data|];
    assert SlotBytes(buffer[..], n)[|data|..] == SlotBytes(old(buffer[..]), n)[|data|..];
    forall m | 0 <= m < MAX_SECTION_NUM && m != n
      ensures SlotBytes(buffer[..], m) == SlotBytes(old(buffer[..]), m)
    {
      assert m < n || n < m;
    }
  }

  ghost predicate FlagsMatch(policy: Policy, slots: map<nat, seq<Byte>>, gotFlag: seq<bool>) {
    && |gotFlag| == MAX_SECTION_NUM
    && forall n :: 0 <= n < MAX_SECTION_NUM ==> (gotFlag[n] <==> n in slots || Stale(policy, n))
  }

  /** The loop counts exactly the slots it has filled. */
  ghost predicate Counts(p: Progress, count: nat, total: nat, badCrc: nat) {
    count == |p.slots| && total == p.total && badCrc == p.badCrc
  }

  /** The slot is free: copy the section in, raise its flag, note its size. */
  method FillSlot(n: nat, data: seq<Byte>, ghost policy: Policy, ghost slots: map<nat, seq<Byte>>,
                  gotFlag: array<bool>, buffer: array<Byte>, sizes: array<nat>, ghost buffer0: seq<Byte>,
                  ghost sizes0: seq<nat>)
    requires n < MAX_SECTION_NUM && n !in slots && |data| <= MAX_SECTION_LEN
    requires gotFlag.Length == MAX_SECTION_NUM && FlagsMatch(policy, slots, gotFlag[..])
    requires Holds(buffer[..], sizes[..], buffer0, sizes0, slots)
    modifies gotFlag, buffer, sizes
    ensures FlagsMatch(policy, slots[n := data], gotFlag[..])
    ensures Holds(buffer[..], sizes[..], buffer0, sizes0, slots[n := data])
  {
    CopyToSlot(buffer, n, data);
    gotFlag[n] := true;
    sizes[n] := |data|;
  }

  method KeepItem(policy: Policy, item: Item, ghost p: Progress,
                  gotFlag: array<bool>, buffer: array<Byte>, sizes: array<nat>,
                  count0: nat, total0: nat, badCrc0: nat, ghost buffer0: seq<Byte>, ghost sizes0: seq<nat>)
    returns (count: nat, total: nat, badCrc: nat)
    requires Deliverable(item)
    requires FlagsMatch(policy, p.slots, gotFlag[..]) && Counts(p, count0, total0, badCrc0)
    requires Holds(buffer[..], sizes[..], buffer0, sizes0, p.slots)
    modifies gotFlag, buffer, sizes
    ensures FlagsMatch(policy, Keep(policy, p, item).slots, gotFlag[..]) &&
            Counts(Keep(policy, p, item), count, total, badCrc)
    ensures Holds(buffer[..], sizes[..], buffer0, sizes0, Keep(policy, p, item).slots)
  {
    hide Crc32.Crc, Holds, SlotOf, TotalOf, Stale;
    count, total, badCrc := count0, total0, badCrc0;
    if item.whole {
      var n := SlotOf(policy, item);
      total := TotalOf(policy, item);
      if policy.Plain? {
        var matches := Crc32.CrcMatches(Wire(item.data));
        if !matches {
          badCrc := badCrc + 1;
        }
      }
      if !gotFlag[n] {
        FillSlot(n, item.data, policy, p.slots, gotFlag, buffer, sizes, buffer0, sizes0);
        count := count + 1;
      }
    }
  }

  method KeepBatch(policy: Policy, items: seq<Item>, ghost before: seq<Item>,
                   gotFlag: array<bool>, buffer: array<Byte>, sizes: array<nat>,
                   count0: nat, total0: nat, badCrc0: nat, ghost buffer0: seq<Byte>, ghost sizes0: seq<nat>)
    returns (count: nat, total: nat, badCrc: nat)
    requires DeliverableAll(before) && DeliverableAll(items)
    requires FlagsMatch(policy, KeepAll(policy, before).slots, gotFlag[..])
    requires Counts(KeepAll(policy, before), count0, total0, badCrc0)
    requires Holds(buffer[..], sizes[..], buffer0, sizes0, KeepAll(policy, before).slots)
    modifies gotFlag, buffer, sizes
    ensures FlagsMatch(policy, KeepAll(policy, before + items).slots, gotFlag[..])
    ensures Counts(KeepAll(policy, before + items), count, total, badCrc)
    ensures Holds(buffer[..], sizes[..], buffer0, sizes0, KeepAll(policy, before + items).slots)
  {
    hide Holds, FlagsMatch, Counts, Keep;
    count, total, badCrc := count0, total0, badCrc0;
    assert before + items[..0] == before;
    for i := 0 to |items|
      invariant FlagsMatch(policy, KeepAll(policy, before + items[..i]).slots, gotFlag[..])
      invariant Counts(KeepAll(policy, before + items[..i]), count, total, badCrc)
      invariant Holds(buffer[..], sizes[..], buffer0, sizes0, KeepAll(policy, before + items[..i]).slots)
    {
      ghost var next := before + items[..i + 1];
      assert next[..|next| - 1] == before + items[..i] && next[|next| - 1] == items[i];
      count, total, badCrc := KeepItem(policy, items[i], KeepAll(policy, before + items[..i]), gotFlag, buffer, sizes,
        count, total, badCrc, buffer0, sizes0);
    }
    assert before + items[..|items|] == before + items;
  }

  /** Decides a run: how it ended, after how many polls, which buffers were released, and, by way
      of `Holds`, what the caller finds in its buffers. */
  method Collect(policy: Policy, oracle: nat -> Poll, times: U32, buffer: array<Byte>, sizes: array<nat>)
    returns (outcome: Outcome, acquired: nat, polls: nat, released: seq<nat>, badCrc: nat)
    requires Driver(oracle)
    requires buffer.Length == BUFFER_LEN && sizes.Length == MAX_SECTION_NUM
    modifies buffer, sizes
    ensures Ends(policy, oracle, Decrement(times), outcome, polls)
    ensures released == FruitfulPolls(oracle, polls)
    ensures var p := KeepAll(policy, History(oracle, polls));
            && Holds(buffer[..], sizes[..], old(buffer[..]), old(sizes[..]), p.slots)
            && badCrc == p.badCrc
            && acquired == if outcome.Success? then p.total else 0
  {
    hide Holds, FlagsMatch, KeepAll, Pending, History, FruitfulPolls, Driver, DeliverableAll, Ends, Completes, Stale;
    var gotFlag := new bool[MAX_SECTION_NUM](n requires 0 <= n => Stale(policy, n));
    var count, total := 0, 0;
    outcome, acquired, polls, released, badCrc := TimedOut, 0, 0, [], 0;
    ghost var buffer0, sizes0 := buffer[..], sizes[..];
    NothingYet(policy, oracle, gotFlag[..], buffer0, sizes0);
    var left := Decrement(times);
    while left != 0
      invariant polls + left == Decrement(times)
      invariant Pending(policy, oracle, polls)
      invariant released == FruitfulPolls(oracle, polls)
      invariant FlagsMatch(policy, KeepAll(policy, History(oracle, polls)).slots, gotFlag[..])
      invariant Counts(KeepAll(policy, History(oracle, polls)), count, total, badCrc)
      invariant Holds(buffer[..], sizes[..], buffer0, sizes0, KeepAll(policy, History(oracle, polls)).slots)
    {
      var poll := oracle(polls);
      PollStep(oracle, polls);
      if Fruitful(poll) {
        count, total, badCrc := KeepBatch(policy, poll.items, History(oracle, polls), gotFlag, buffer, sizes,
          count, total, badCrc, buffer0, sizes0);
        released := released + [polls];
        polls := polls + 1;
        BatchDecides(policy, oracle, polls);
        if total == count {
          EndsHere(policy, oracle, Decrement(times), Success, polls);
          outcome, acquired := Success, total;
          return;
        }
      } else {
        polls := polls + 1;
        BatchDecides(policy, oracle, polls);
        if policy.Shared? {
          EndsHere(policy, oracle, Decrement(times), AcquireFailed, polls);
          outcome := AcquireFailed;
          return;
        }
      }
      PendingStep(policy, oracle, polls);
      left := left - 1;
    }
    EndsHere(policy, oracle, Decrement(times), TimedOut, polls);
  }

  lemma NothingYet(policy: Policy, oracle: nat -> Poll, gotFlag: seq<bool>, buffer: seq<Byte>, sizes: seq<nat>)
    requires Driver(oracle)
    requires |gotFlag| == |sizes| == MAX_SECTION_NUM && |buffer| == BUFFER_LEN
    requires forall n :: 0 <= n < MAX_SECTION_NUM ==> gotFlag[n] == Stale(policy, n)
    ensures History(oracle, 0) == [] && FruitfulPolls(oracle, 0) == []
    ensures KeepAll(policy, []) == Progress(map[], 0, 0)
    ensures Pending(policy, oracle, 0)
    ensures FlagsMatch(policy, map[], gotFlag) && Holds(buffer, sizes, buffer, sizes, map[])
  {
  }

  lemma PollStep(oracle: nat -> Poll, n: nat)
    requires Driver(oracle)
    ensures Fruitful(oracle(n)) ==> DeliverableAll(oracle(n).items)
    ensures Fruitful(oracle(n)) ==> History(oracle, n + 1) == History(oracle, n) + oracle(n).items
    ensures Fruitful(oracle(n)) ==> FruitfulPolls(oracle, n + 1) == FruitfulPolls(oracle, n) + [n]
    ensures !Fruitful(oracle(n)) ==> History(oracle, n + 1) == History(oracle, n)
    ensures !Fruitful(oracle(n)) ==> FruitfulPolls(oracle, n + 1) == FruitfulPolls(oracle, n)
  {
  }

  /** The number of acquire calls that a timeout pays for. */
  function PollBudget(timeoutMs: U32): nat {
    Decrement(timeoutMs / 10)
  }

  /** The NIT sample's reader: one poll for every ten milliseconds but the last. */
  method NitDataRead(oracle: nat -> Poll, timeoutMs: U32, buffer: array<Byte>, sizes: array<nat>)
    returns (outcome: Outcome, acquired: nat, polls: nat, released: seq<nat>, badCrc: nat)
    requires Driver(oracle)
    requires buffer.Length == BUFFER_LEN && sizes.Length == MAX_SECTION_NUM
    modifies buffer, sizes
    ensures polls <= if timeoutMs >= 10 then timeoutMs / 10 - 1 else 0xFFFF_FFFF
    ensures outcome == TimedOut ==> polls == if timeoutMs >= 10 then timeoutMs / 10 - 1 else 0xFFFF_FFFF
    ensures Ends(Plain, oracle, PollBudget(timeoutMs), outcome, polls)
    ensures released == FruitfulPolls(oracle, polls)
    ensures var p := KeepAll(Plain, History(oracle, polls));
            && Holds(buffer[..], sizes[..], old(buffer[..]), old(sizes[..]), p.slots)
            && badCrc == p.badCrc
            && acquired == if outcome.Success? then p.total else 0
  {
    outcome, acquired, polls, released, badCrc := Collect(Plain, oracle, timeoutMs / 10, buffer, sizes);
  }

  /** The CAT sample's reader: the same loop with nine polls. */
  method CatSectionRecv(oracle: nat -> Poll, buffer: array<Byte>, sizes: array<nat>)
    returns (outcome: Outcome, acquired: nat, polls: nat, released: seq<nat>, badCrc: nat)
    requires Driver(oracle)
    requires buffer.Length == BUFFER_LEN && sizes.Length == MAX_SECTION_NUM
    modifies buffer, sizes
    ensures polls <= 9 && Ends(Plain, oracle, 9, outcome, polls) && (outcome == TimedOut ==> polls == 9)
    ensures released == FruitfulPolls(oracle, polls)
    ensures var p := KeepAll(Plain, History(oracle, polls));
            && Holds(buffer[..], sizes[..], old(buffer[..]), old(sizes[..]), p.slots)
            && badCrc == p.badCrc
            && acquired == if outcome.Success? then p.total else 0
  {
    outcome, acquired, polls, released, badCrc := Collect(Plain, oracle, 10, buffer, sizes);
  }

  /** The sections handed to the parser, in order: slot after slot up to the announced total. A slot
      that was never filled is handed over empty. */
  function Delivered(p: Progress): seq<seq<Byte>> {
    seq(p.total, k => if k in p.slots then p.slots[k] else [])
  }

  lemma SlotContents(buffer: seq<Byte>, sizes: seq<nat>, buffer0: seq<Byte>, sizes0: seq<nat>,
                     slots: map<nat, seq<Byte>>, n: nat)
    requires Holds(buffer, sizes, buffer0, sizes0, slots) && n < MAX_SECTION_NUM && sizes0[n] == 0
    ensures sizes[n] <= MAX_SECTION_LEN
    ensures buffer[n * MAX_SECTION_LEN..n * MAX_SECTION_LEN + sizes[n]] == if n in slots then slots[n] else []
  {
    if n in slots {
      assert SlotBytes(buffer, n)[..sizes[n]] == slots[n];
      assert SlotBytes(buffer, n)[..sizes[n]] == buffer[n * MAX_SECTION_LEN..n * MAX_SECTION_LEN + sizes[n]];
    }
  }

  /** The dispatch loop: one parser call per slot, the slot pointer advancing by a slot each time. */
  method Dispatch(buffer: array<Byte>, sizes: array<nat>, acquired: nat, ghost p: Progress,
                  ghost buffer0: seq<Byte>, ghost sizes0: seq<nat>)
    returns (visited: seq<seq<Byte>>)
    requires acquired == p.total <= MAX_SECTION_NUM
    requires buffer.Length == BUFFER_LEN && sizes.Length == |sizes0| == MAX_SECTION_NUM
    requires Holds(buffer[..], sizes[..], buffer0, sizes0, p.slots)
    requires forall n :: 0 <= n < MAX_SECTION_NUM ==> sizes0[n] == 0
    ensures visited == Delivered(p)
  {
    hide Holds;
    visited := [];
    var start := 0;
    for i := 0 to acquired
      invariant start == i * MAX_SECTION_LEN
      invariant |visited| == i
      invariant forall k :: 0 <= k < i ==> visited[k] == if k in p.slots then p.slots[k] else []
    {
      SlotContents(buffer[..], sizes[..], buffer0, sizes0, p.slots, i);
      visited := visited + [buffer[start..start + sizes[i]]];
      start := start + MAX_SECTION_LEN;
    }
  }

  /** The reader of the demux adapter together with its caller: clear the buffers, collect, and call
      the parser on each slot in turn. */
  method SectionStartDataFilter(oracle: nat -> Poll, timeoutMs: U32, garbage: set<nat>)
    returns (outcome: Outcome, polls: nat, visited: seq<seq<Byte>>)
    requires Driver(oracle)
    ensures Ends(Shared(garbage), oracle, PollBudget(timeoutMs), outcome, polls)
    ensures outcome == TimedOut ==> polls == if timeoutMs >= 10 then timeoutMs / 10 - 1 else 0xFFFF_FFFF
    ensures visited == if outcome.Success? then Delivered(KeepAll(Shared(garbage), History(oracle, polls))) else []
  {
    hide KeepAll, History, Holds, Delivered, Pending, Completes;
    var buffer := new Byte[BUFFER_LEN](_ => 0);
    var sizes := new nat[MAX_SECTION_NUM](_ => 0);
    ghost var buffer0, sizes0 := buffer[..], sizes[..];
    var acquired, released, badCrc;
    outcome, acquired, polls, released, badCrc := Collect(Shared(garbage), oracle, timeoutMs / 10, buffer, sizes);
    visited := [];
    if outcome.Success? {
      TotalIsLatest(Shared(garbage), History(oracle, polls));
      visited := Dispatch(buffer, sizes, acquired, KeepAll(Shared(garbage), History(oracle, polls)), buffer0, sizes0);
    }
  }

  // ----- What a history leaves behind -----

  predicate SeenAt(policy: Policy, h: seq<Item>, i: nat, k: nat)
    requires DeliverableAll(h)
  {
    i < |h| && h[i].whole && SlotOf(policy, h[i]) == k
  }

  /** The announced total is that of the latest whole section, or zero if there was none. */
  lemma {:induction false} TotalIsLatest(policy: Policy, h: seq<Item>)
    requires DeliverableAll(h)
    ensures KeepAll(policy, h).total <= MAX_SECTION_NUM
    ensures KeepAll(policy, h).total == 0 <==> NoneWhole(h)
    ensures h != [] && h[|h| - 1].whole ==> KeepAll(policy, h).total == TotalOf(policy, h[|h| - 1])
    ensures h != [] && !h[|h| - 1].whole ==> KeepAll(policy, h).total == KeepAll(policy, h[..|h| - 1]).total
  {
    hide Mismatch;
    if h != [] {
      var init := h[..|h| - 1];
      TotalIsLatest(policy, init);
      assert h == init + [h[|h| - 1]];
    }
  }

  predicate NoneWhole(h: seq<Item>) {
    forall i :: 0 <= i < |h| ==> !h[i].whole
  }

  /** Every filled slot holds the first section received for it. */
  lemma {:induction false} FirstKept(policy: Policy, h: seq<Item>, k: nat) returns (i: nat)
    requires DeliverableAll(h) && k in KeepAll(policy, h).slots
    ensures SeenAt(policy, h, i, k) && KeepAll(policy, h).slots[k] == h[i].data && !Stale(policy, k)
    ensures forall j :: 0 <= j < i ==> !SeenAt(policy, h, j, k)
  {
    hide Mismatch;
    var init := h[..|h| - 1];
    if k in KeepAll(policy, init).slots {
      i := FirstKept(policy, init, k);
      assert forall j :: 0 <= j <= i ==> SeenAt(policy, h, j, k) == SeenAt(policy, init, j, k);
    } else {
      i := |h| - 1;
      forall j | 0 <= j < i
        ensures !SeenAt(policy, h, j, k)
      {
        if SeenAt(policy, init, j, k) {
          SeenIsKept(policy, init, j, k);
        }
      }
    }
  }

  /** Every slot a section was received for is filled, unless its flag was up from the beginning. */
  lemma {:induction false} SeenIsKept(policy: Policy, h: seq<Item>, i: nat, k: nat)
    requires DeliverableAll(h) && SeenAt(policy, h, i, k)
    ensures k in KeepAll(policy, h).slots <==> !Stale(policy, k)
  {
    hide Mismatch;
    if i < |h| - 1 {
      assert SeenAt(policy, h[..|h| - 1], i, k);
      SeenIsKept(policy, h[..|h| - 1], i, k);
    }
    if k in KeepAll(policy, h).slots {
      KeptIsNotStale(policy, h, k);
    }
  }

  lemma {:induction false} KeptIsNotStale(policy: Policy, h: seq<Item>, k: nat)
    requires DeliverableAll(h) && k in KeepAll(policy, h).slots
    ensures !Stale(policy, k)
  {
    hide Mismatch;
    if k in KeepAll(policy, h[..|h| - 1]).slots {
      KeptIsNotStale(policy, h[..|h| - 1], k);
    }
  }

  function Upto(n: nat): (s: set<nat>)
    ensures |s| == n && forall k: nat :: k in s <==> k < n
  {
    if n == 0 then {} else Upto(n - 1) + {n - 1}
  }

  lemma {:induction false} SubsetOfSameSize<T>(a: set<T>, b: set<T>)
    requires a <= b && |a| == |b|
    ensures a == b
  {
    if x :| x in b && x !in a {
      SubsetSize(a, b - {x});
    }
  }

  lemma {:induction false} SubsetSize<T>(a: set<T>, b: set<T>)
    requires a <= b
    ensures |a| <= |b|
  {
    if x :| x in a {
      SubsetSize(a - {x}, b - {x});
    }
  }

  /** Passing the completeness test means that slots 0 .. total-1 are the filled ones exactly when
      no section that was kept has a number beyond the final total. */
  lemma CompleteMeansFilled(policy: Policy, h: seq<Item>)
    requires DeliverableAll(h) && Complete(KeepAll(policy, h))
    ensures var p := KeepAll(policy, h);
            p.slots.Keys == Upto(p.total) <==>
            forall i :: 0 <= i < |h| && h[i].whole && !Stale(policy, SlotOf(policy, h[i])) ==>
                SlotOf(policy, h[i]) < p.total
  {
    hide Mismatch;
    var p := KeepAll(policy, h);
    if forall i :: 0 <= i < |h| && h[i].whole && !Stale(policy, SlotOf(policy, h[i])) ==>
         SlotOf(policy, h[i]) < p.total {
      forall k | k in p.slots
        ensures k in Upto(p.total)
      {
        var i := FirstKept(policy, h, k);
      }
      SubsetOfSameSize(p.slots.Keys, Upto(p.total));
    }
    forall i | 0 <= i < |h| && h[i].whole && !Stale(policy, SlotOf(policy, h[i]))
      ensures SlotOf(policy, h[i]) in p.slots.Keys
    {
      SeenIsKept(policy, h, i, SlotOf(policy, h[i]));
    }
  }

  /** The test can pass on slots the dispatch loop never visits: one section numbered 5 that claims
      to be the last of one. */
  lemma CompleteWithoutSlotZero()
    ensures var h := [Item(true, [0x40, 0, 0, 0, 0, 0, 5, 0])];
            && DeliverableAll(h) && Complete(KeepAll(Plain, h))
            && KeepAll(Plain, h).total == 1 && 0 !in KeepAll(Plain, h).slots
  {
    hide Mismatch;
    var item := Item(true, [0x40, 0, 0, 0, 0, 0, 5, 0]);
    var h := [item];
    assert h[..0] == [];
    assert KeepAll(Plain, h) == Keep(Plain, Progress(map[], 0, 0), item);
    assert KeepAll(Plain, h).slots == map[5 := item.data];
  }

  // ----- Order independence -----

  /** Every whole section received belongs to one table of `total` sections. */
  ghost predicate OneTable(policy: Policy, h: seq<Item>, total: nat)
    requires DeliverableAll(h)
  {
    forall i :: 0 <= i < |h| && h[i].whole ==> TotalOf(policy, h[i]) == total && SlotOf(policy, h[i]) < total
  }

  ghost predicate Seen(policy: Policy, h: seq<Item>, k: nat)
    requires DeliverableAll(h)
  {
    exists i: nat :: SeenAt(policy, h, i, k)
  }

  ghost predicate AllSeen(policy: Policy, h: seq<Item>, total: nat)
    requires DeliverableAll(h)
  {
    forall k: nat :: k < total ==> Seen(policy, h, k)
  }

  /** No flag below `total` was up from the beginning. */
  predicate FlagsClear(policy: Policy, total: nat) {
    forall k: nat :: k < total ==> !Stale(policy, k)
  }

  /** Within one table, whatever the order, the repetitions and the batching, the completeness test
      passes exactly when nothing at all has been seen, or everything by a collector that started with clear
      flags. */
  lemma CompletenessTestExact(policy: Policy, h: seq<Item>, total: nat)
    requires DeliverableAll(h) && OneTable(policy, h, total)
    ensures Complete(KeepAll(policy, h)) <==>
            (NoneWhole(h) || (AllSeen(policy, h, total) && FlagsClear(policy, total)))
    ensures KeepAll(policy, h).total > 0 ==> KeepAll(policy, h).total == total
  {
    hide Mismatch;
    var p := KeepAll(policy, h);
    TotalIsLatest(policy, h);
    OneTableTotal(policy, h, total);
    if p.total == 0 {
      NothingKept(policy, h);
    } else {
      if Complete(p) {
        CompleteMeansFilled(policy, h);
        forall k: nat | k < total
          ensures Seen(policy, h, k) && !Stale(policy, k)
        {
          assert k in Upto(total);
          var i := FirstKept(policy, h, k);
        }
      }
      if AllSeen(policy, h, total) && FlagsClear(policy, total) {
        forall k: nat
          ensures k in p.slots.Keys <==> k in Upto(total)
        {
          if k < total {
            assert Seen(policy, h, k);
            var i: nat :| SeenAt(policy, h, i, k);
            SeenIsKept(policy, h, i, k);
          }
          if k in p.slots {
            var i := FirstKept(policy, h, k);
          }
        }
        assert p.slots.Keys == Upto(total);
      }
    }
  }

  lemma {:induction false} OneTableTotal(policy: Policy, h: seq<Item>, total: nat)
    requires DeliverableAll(h) && OneTable(policy, h, total)
    ensures KeepAll(policy, h).total in {0, total}
  {
    hide Mismatch;
    if h != [] {
      OneTableTotal(policy, h[..|h| - 1], total);
    }
  }

  lemma {:induction false} NothingKept(policy: Policy, h: seq<Item>)
    requires DeliverableAll(h) && NoneWhole(h)
    ensures KeepAll(policy, h) == Progress(map[], 0, 0)
  {
    hide Mismatch;
    if h != [] {
      NothingKept(policy, h[..|h| - 1]);
    }
  }

  /** The whole sections received are copies of the sections of `table`. */
  ghost predicate Carries(policy: Policy, h: seq<Item>, table: seq<seq<Byte>>)
    requires DeliverableAll(h)
  {
    forall i :: 0 <= i < |h| && h[i].whole ==>
      && TotalOf(policy, h[i]) == |table|
      && SlotOf(policy, h[i]) < |table| && h[i].data == table[SlotOf(policy, h[i])]
  }

  /** A successful run over any broadcast of a table hands over the table itself, in ascending section
      order, unless it ended before the first whole section arrived. */
  lemma OrderIndependence(policy: Policy, oracle: nat -> Poll, budget: nat, polls: nat, table: seq<seq<Byte>>)
    requires Driver(oracle) && Ends(policy, oracle, budget, Success, polls)
    requires Carries(policy, History(oracle, polls), table)
    ensures var h := History(oracle, polls);
            Delivered(KeepAll(policy, h)) == if NoneWhole(h) then [] else table
  {
    hide Mismatch;
    var h := History(oracle, polls);
    var p := KeepAll(policy, h);
    hide KeepAll, History;
    TotalIsLatest(policy, h);
    CompletenessTestExact(policy, h, |table|);
    if p.total > 0 {
      forall k | 0 <= k < |table|
        ensures k in p.slots && p.slots[k] == table[k]
      {
        assert Seen(policy, h, k);
        var i: nat :| SeenAt(policy, h, i, k);
        SeenIsKept(policy, h, i, k);
        var j := FirstKept(policy, h, k);
      }
    }
  }

  /** Nothing but fragments. */
  function Fragments(i: nat): Poll {
    Acquired([Item(false, [])])
  }

  /** A batch without any whole section ends a run successfully, with nothing. */
  lemma EmptySuccess(policy: Policy, budget: nat)
    requires budget > 0
    ensures Driver(Fragments) && Ends(policy, Fragments, budget, Success, 1)
    ensures Delivered(KeepAll(policy, History(Fragments, 1))) == []
  {
    assert History(Fragments, 1) == History(Fragments, 0) + Fragments(0).items == Fragments(0).items;
    hide History;
    NothingKept(policy, Fragments(0).items);
    assert Completes(policy, Fragments, 1);
  }

  /** A run over one table is cut short only by its budget: if some poll within the budget brings the
      last missing section, and no earlier batch leaves the collector without any whole section, the
      run succeeds, by that poll, with everything.  Only the adapter's loop needs every poll to pay
      off until then. */
  lemma EnoughPollsSucceed(policy: Policy, oracle: nat -> Poll, budget: nat, outcome: Outcome, polls: nat, n: nat,
                           total: nat)
    requires Driver(oracle) && Ends(policy, oracle, budget, outcome, polls)
    requires 0 < n <= budget && Fruitful(oracle(n - 1)) && OneTable(policy, History(oracle, n), total) &&
             FlagsClear(policy, total)
    requires AllSeen(policy, History(oracle, n), total)
    requires policy.Shared? ==> forall m: nat :: m < n ==> Fruitful(oracle(m))
    requires forall m: nat :: 0 < m <= n && Fruitful(oracle(m - 1)) ==> !NoneWhole(History(oracle, m))
    ensures outcome == Success && polls <= n && AllSeen(policy, History(oracle, polls), total)
  {
    hide KeepAll, History, Ends, Complete, OneTable, AllSeen, NoneWhole, FlagsClear;
    CompletenessTestExact(policy, History(oracle, n), total);
    EndsBy(policy, oracle, budget, outcome, polls, n);
    HistoryPrefix(oracle, polls, n);
    PrefixFacts(policy, History(oracle, polls), History(oracle, n), total);
    CompletenessTestExact(policy, History(oracle, polls), total);
  }

  lemma PrefixFacts(policy: Policy, h: seq<Item>, g: seq<Item>, total: nat)
    requires DeliverableAll(g) && h <= g && OneTable(policy, g, total)
    ensures DeliverableAll(h) && OneTable(policy, h, total)
  {
  }

  lemma EndsBy(policy: Policy, oracle: nat -> Poll, budget: nat, outcome: Outcome, polls: nat, n: nat)
    requires Driver(oracle) && Ends(policy, oracle, budget, outcome, polls)
    requires n <= budget && Completes(policy, oracle, n)
    requires policy.Shared? ==> forall m: nat :: m < n ==> Fruitful(oracle(m))
    ensures outcome == Success && 0 < polls <= n && Fruitful(oracle(polls - 1)) &&
            Complete(KeepAll(policy, History(oracle, polls)))
  {
    hide KeepAll, History;
  }

  lemma {:induction false} HistoryPrefix(oracle: nat -> Poll, m: nat, n: nat)
    requires Driver(oracle) && m <= n
    ensures History(oracle, m) <= History(oracle, n)
  {
    if m < n {
      HistoryPrefix(oracle, m, n - 1);
    }
  }

  /** If a got-flag of one of the table's sections but the first was garbage, no run of the adapter's loop reports
      the table; without such a flag, `EnoughPollsSucceed` applies. */
  lemma GarbageBlocks(garbage: set<nat>, oracle: nat -> Poll, budget: nat, polls: nat, total: nat)
    requires Driver(oracle) && Ends(Shared(garbage), oracle, budget, Success, polls)
    requires OneTable(Shared(garbage), History(oracle, polls), total)
    requires exists k :: 0 < k < total && k in garbage
    ensures KeepAll(Shared(garbage), History(oracle, polls)).total == 0 && NoneWhole(History(oracle, polls))
  {
    hide KeepAll, History;
    var k :| 0 < k < total && k in garbage;
    assert Stale(Shared(garbage), k);
    TotalIsLatest(Shared(garbage), History(oracle, polls));
    CompletenessTestExact(Shared(garbage), History(oracle, polls), total);
  }

  /** Both sections of a table arrive, and with flag 1 up from the beginning the test still fails. */
  lemma GarbageHidesSection()
    ensures var h := [Item(true, [0x42, 0, 0, 0, 0, 0, 0, 1]), Item(true, [0x42, 0, 0, 0, 0, 0, 1, 1])];
            && DeliverableAll(h) && Complete(KeepAll(Shared({}), h)) && !Complete(KeepAll(Shared({1}), h))
  {
    hide Mismatch, KeepAll;
    var h := [Item(true, [0x42, 0, 0, 0, 0, 0, 0, 1]), Item(true, [0x42, 0, 0, 0, 0, 0, 1, 1])];
    assert SeenAt(Shared({}), h, 0, 0) && SeenAt(Shared({}), h, 1, 1);
    assert h[0].whole && Stale(Shared({1}), 1);
    CompletenessTestExact(Shared({}), h, 2);
    CompletenessTestExact(Shared({1}), h, 2);
  }

  /** The oracle leaves only one way for a run to end. */
  lemma OutcomeDetermined(policy: Policy, oracle: nat -> Poll, budget: nat, o1: Outcome, n1: nat, o2: Outcome, n2: nat)
    requires Driver(oracle)
    requires Ends(policy, oracle, budget, o1, n1) && Ends(policy, oracle, budget, o2, n2)
    ensures o1 == o2 && n1 == n2
  {
  }

  // ----- What is released, and what fails -----

  /** The buffers released are those of the fruitful polls, each once and in order. */
  lemma {:induction false} ReleasedOnce(oracle: nat -> Poll, n: nat)
    ensures forall i: nat :: i in FruitfulPolls(oracle, n) <==>
              i < n && oracle(i).Acquired? && |oracle(i).items| > 0
    ensures forall i, j :: 0 <= i < j < |FruitfulPolls(oracle, n)| ==>
              FruitfulPolls(oracle, n)[i] < FruitfulPolls(oracle, n)[j]
  {
    if n > 0 {
      ReleasedOnce(oracle, n - 1);
      var before := FruitfulPolls(oracle, n - 1);
      assert forall i :: 0 <= i < |before| ==> before[i] in before;
    }
  }

  /** A channel that delivers nothing: the NIT and CAT loops use up their budget, the adapter's gives up at once. */
  lemma SilentChannel(policy: Policy, oracle: nat -> Poll, budget: nat, outcome: Outcome, polls: nat)
    requires Driver(oracle) && (forall i: nat :: oracle(i) == Failed || oracle(i) == Acquired([]))
    requires Ends(policy, oracle, budget, outcome, polls) && budget > 0
    ensures outcome == (if policy.Plain? then TimedOut else AcquireFailed)
    ensures polls == (if policy.Plain? then budget else 1)
  {
    hide KeepAll, History;
    assert !Fruitful(oracle(0));
    assert polls > 0 ==> !Fruitful(oracle(polls - 1));
  }

  // ----- The mismatches that are logged -----

  /** The CRC of everything but the last four bytes is not the word they form. */
  predicate Corrupt(data: seq<Byte>)
    requires |data| >= 4
  {
    Crc32.Crc(Wire(data)[..|data| - 4]) != Crc32.Trailer(Wire(data))
  }

  function CorruptCount(h: seq<Item>): nat
    requires DeliverableAll(h)
  {
    if h == [] then 0
    else
      var item := h[|h| - 1];
      CorruptCount(h[..|h| - 1]) + if item.whole && Corrupt(item.data) then 1 else 0
  }

  /** The NIT and CAT loops log exactly the corrupt sections, duplicates included; the adapter's logs none. */
  lemma {:induction false} LoggedIsCorrupt(policy: Policy, h: seq<Item>)
    requires DeliverableAll(h)
    ensures KeepAll(policy, h).badCrc == if policy.Plain? then CorruptCount(h) else 0
  {
    hide Keep, Corrupt;
    if h != [] {
      LoggedIsCorrupt(policy, h[..|h| - 1]);
      KeepLogs(policy, KeepAll(policy, h[..|h| - 1]), h[|h| - 1]);
    }
  }

  lemma KeepLogs(policy: Policy, p: Progress, item: Item)
    requires Deliverable(item)
    ensures Keep(policy, p, item).badCrc ==
            p.badCrc + if policy.Plain? && item.whole && Corrupt(item.data) then 1 else 0
  {
    hide Crc32.Crc, Crc32.Trailer, SlotOf, TotalOf, Stale;
    if item.whole {
      Crc32.Residue(Wire(item.data));
      hide Wire;
    }
  }

  // ----- The adapter's numbering -----

  /** A time table is complete with one section, whatever its number fields and the other flags hold. */
  lemma TimeTable(garbage: set<nat>, item: Item)
    requires item.whole && Deliverable(item) && (item.data[0] == 0x70 || item.data[0] == 0x73)
    ensures DeliverableAll([item])
    ensures KeepAll(Shared(garbage), [item]) == Progress(map[0 := item.data], 1, 0)
    ensures Complete(KeepAll(Shared(garbage), [item]))
  {
    assert [item][..0] == [];
    assert KeepAll(Shared(garbage), [item]) == Keep(Shared(garbage), Progress(map[], 0, 0), item);
  }

  /** On every other table the adapter's loop is, from clear flags, the plain loop. */
  lemma {:induction false} OtherTables(garbage: set<nat>, h: seq<Item>)
    requires DeliverableAll(h) && FlagsClear(Shared(garbage), MAX_SECTION_NUM)
    requires forall i :: 0 <= i < |h| && h[i].whole ==>
               var id := h[i].data[0]; !(0x50 <= id <= 0x6F) && id != 0x70 && id != 0x73
    ensures KeepAll(Shared(garbage), h).slots == KeepAll(Plain, h).slots
    ensures KeepAll(Shared(garbage), h).total == KeepAll(Plain, h).total
  {
    hide Mismatch;
    if h != [] {
      OtherTables(garbage, h[..|h| - 1]);
    }
  }

  // ----- Event schedules: eight section numbers to a segment -----

  /** A section with its two number fields divided by eight. */
  function BySegment(data: seq<Byte>): seq<Byte>
    requires |data| >= 8
  {
    data[6 := data[6] / 8][7 := data[7] / 8]
  }

  /** The adapter's loop on event-schedule sections is, from clear flags, the plain loop on segment numbers. */
  lemma {:induction false} ScheduleRefinesPlain(garbage: set<nat>, h: seq<Item>, g: seq<Item>)
    requires DeliverableAll(h) && |g| == |h| && FlagsClear(Shared(garbage), MAX_SECTION_NUM)
    requires forall i :: 0 <= i < |h| ==> g[i] == if h[i].whole then h[i].(data := BySegment(h[i].data)) else h[i]
    requires forall i :: 0 <= i < |h| && h[i].whole ==> 0x50 <= h[i].data[0] <= 0x6F
    ensures DeliverableAll(g)
    ensures SegmentView(KeepAll(Shared(garbage), h), KeepAll(Plain, g))
    ensures Complete(KeepAll(Shared(garbage), h)) <==> Complete(KeepAll(Plain, g))
  {
    hide SegmentView, Keep, BySegment, FlagsClear, Complete;
    if h == [] {
      NothingToView();
    } else {
      var n := |h| - 1;
      ScheduleRefinesPlain(garbage, h[..n], g[..n]);
      KeepBySegment(garbage, KeepAll(Shared(garbage), h[..n]), KeepAll(Plain, g[..n]), h[n], g[n]);
    }
    SameCompleteness(KeepAll(Shared(garbage), h), KeepAll(Plain, g));
  }

  /** The same total and the same slots, each filled with the same section but for its number fields. */
  predicate SegmentView(p: Progress, q: Progress) {
    && p.total == q.total && p.slots.Keys == q.slots.Keys
    && forall k :: k in p.slots ==> |p.slots[k]| >= 8 && q.slots[k] == BySegment(p.slots[k])
  }

  lemma NothingToView()
    ensures SegmentView(Progress(map[], 0, 0), Progress(map[], 0, 0))
  {
  }

  lemma SameCompleteness(p: Progress, q: Progress)
    requires SegmentView(p, q)
    ensures Complete(p) <==> Complete(q)
  {
    assert |p.slots.Keys| == |q.slots.Keys|;
  }

  lemma KeepBySegment(garbage: set<nat>, p: Progress, q: Progress, item: Item, segment: Item)
    requires SegmentView(p, q) && Deliverable(item) && FlagsClear(Shared(garbage), MAX_SECTION_NUM)
    requires item.whole ==> 0x50 <= item.data[0] <= 0x6F
    requires segment == if item.whole then item.(data := BySegment(item.data)) else item
    ensures Deliverable(segment)
    ensures SegmentView(Keep(Shared(garbage), p, item), Keep(Plain, q, segment))
  {
    hide Mismatch;
  }

  /** A complete event schedule with last section number `last` fills exactly the segments
      0 .. last/8, each with the first section received of that segment. */
  lemma ScheduleSegments(garbage: set<nat>, h: seq<Item>, last: Byte)
    requires DeliverableAll(h) && Complete(KeepAll(Shared(garbage), h)) && KeepAll(Shared(garbage), h).total > 0
    requires forall i :: 0 <= i < |h| && h[i].whole ==>
               0x50 <= h[i].data[0] <= 0x6F && h[i].data[6] <= h[i].data[7] == last
    ensures KeepAll(Shared(garbage), h).slots.Keys == Upto(last / 8 + 1)
    ensures forall k: nat :: k <= last / 8 ==> SegmentKept(garbage, h, k)
  {
    hide KeepAll;
    OneTableTotal(Shared(garbage), h, last / 8 + 1);
    CompleteMeansFilled(Shared(garbage), h);
    forall k: nat | k <= last / 8
      ensures SegmentKept(garbage, h, k)
    {
      assert k in Upto(last / 8 + 1);
      var i := FirstKept(Shared(garbage), h, k);
      assert SegmentFirst(garbage, h, i, k);
    }
  }

  ghost predicate SegmentKept(garbage: set<nat>, h: seq<Item>, k: nat)
    requires DeliverableAll(h)
  {
    exists i: nat :: SegmentFirst(garbage, h, i, k)
  }

  /** Slot `k` holds item `i`, the first one received from segment `k`. */
  ghost predicate SegmentFirst(garbage: set<nat>, h: seq<Item>, i: nat, k: nat)
    requires DeliverableAll(h)
  {
    && SeenAt(Shared(garbage), h, i, k) && h[i].data[6] / 8 == k
    && k in KeepAll(Shared(garbage), h).slots && KeepAll(Shared(garbage), h).slots[k] == h[i].data
    && forall j: nat :: j < i ==> !SeenAt(Shared(garbage), h, j, k)
  }
}
