/** The NIT sample from the demux channel to the finished table: collect, then parse every slot. */
module NitSample {
  import opened Types
  import opened SectionCollector
  import NitParser

  const TIMEOUT_MS: U32 := 10000

  // ----- The table that is broadcast -----

  datatype Section = Section(t: NitParser.Nit, sectionLength: nat, crc: seq<Byte>)

  predicate Encodable(s: Section) {
    NitParser.Encodable(s.t) && s.sectionLength < 4096 && |s.crc| == 4
  }

  function Image(s: Section): seq<Byte>
    requires Encodable(s)
  {
    NitParser.Encode(s.t, s.sectionLength, s.crc)
  }

  /** How many bytes behind a section the parser looks at. */
  function Overrun(s: Section): nat {
    if s.t.number != s.t.last then 20 else if s.t.entries == [] then 2 else 0
  }

  /** Section `k` of `total`, with room behind it in its slot. */
  predicate Numbered(s: Section, k: nat, total: nat) {
    && Encodable(s) && s.t.number as nat == k && s.t.last as nat + 1 == total
    && |Image(s)| + Overrun(s) <= MAX_SECTION_LEN
  }

  predicate IsTable(ss: seq<Section>) {
    0 < |ss| <= MAX_SECTION_NUM && forall k :: 0 <= k < |ss| ==> Numbered(ss[k], k, |ss|)
  }

  function Images(ss: seq<Section>): (table: seq<seq<Byte>>)
    requires forall k :: 0 <= k < |ss| ==> Encodable(ss[k])
    ensures |table| == |ss| && forall k :: 0 <= k < |ss| ==> table[k] == Image(ss[k])
  {
    seq(|ss|, k requires 0 <= k < |ss| => Image(ss[k]))
  }

  /** Everything whole that the channel delivers is a copy of a section of the table. */
  ghost predicate Broadcasts(oracle: nat -> Poll, table: seq<seq<Byte>>)
    requires Driver(oracle)
  {
    forall n: nat :: Carries(Plain, History(oracle, n), table)
  }

  predicate HasWhole(poll: Poll) {
    poll.Acquired? && exists i :: 0 <= i < |poll.items| && poll.items[i].whole
  }

  /** Poll `n` is the first to bring anything, and it brings a whole section. */
  ghost predicate FirstBatch(oracle: nat -> Poll, n: nat) {
    HasWhole(oracle(n)) && forall m: nat :: m < n ==> !Fruitful(oracle(m))
  }

  /** The first batch has a whole section in it, and all sections come in time. */
  ghost predicate Arrives(oracle: nat -> Poll, total: nat)
    requires Driver(oracle)
  {
    && (exists n: nat :: n < 999 && FirstBatch(oracle, n))
    && AllSeen(Plain, History(oracle, 999), total)
  }

  // ----- What a client is presented with -----

  /** A client of the table finds exactly the contents of `t`, the summary fields naming its last
      transport stream. */
  ghost predicate Presents(tbl: NitParser.NitTable, netDesc: seq<Byte>, streamDesc: seq<NitParser.Cell>, h: nat,
                           t: NitParser.Nit) {
    && t.entries != []
    && tbl.networkId == t.networkId
    && tbl.netDescLen == |t.netDesc| && t.netDesc <= netDesc
    && NitParser.ReadChain(streamDesc, h, NitParser.At(0)) == Some(t.entries)
    && tbl.streamDescLen == NitParser.Use(h, t.entries)
    && var last := t.entries[|t.entries| - 1];
       && tbl.tsId == last.tsId && tbl.tsDescLen == |last.desc| && tbl.tsDesc + |last.desc| <= |streamDesc|
       && forall j :: 0 <= j < |last.desc| ==> streamDesc[tbl.tsDesc..][j] == NitParser.Raw(last.desc[j])
  }

  /** What the parser makes of a section in its zeroed slot. */
  function Parsed(s: Section): NitParser.Nit
    requires |s.crc| == 4
  {
    if s.t.number == s.t.last then s.t.(entries := NitParser.Found(s.t, s.crc))
    else s.t.(netDesc := [], entries := [NitParser.ZERO_ENTRY])
  }

  /** The transport streams of the whole table. */
  function AllEntries(ss: seq<Section>): seq<NitParser.Entry> {
    if ss == [] then [] else AllEntries(ss[..|ss| - 1]) + ss[|ss| - 1].t.entries
  }

  lemma {:induction false} NoEntries(ss: seq<Section>)
    ensures AllEntries(ss) == [] <==> forall k :: 0 <= k < |ss| ==> ss[k].t.entries == []
  {
    if ss != [] {
      NoEntries(ss[..|ss| - 1]);
    }
  }

  lemma LastIsMarked(ss: seq<Section>)
    requires IsTable(ss)
    ensures var s := ss[|ss| - 1]; |s.crc| == 4 && s.t.number == s.t.last
  {
    hide Image, NitParser.Encodable;
    assert Numbered(ss[|ss| - 1], |ss| - 1, |ss|);
  }

  /** If the last section names a transport stream, what is left at the end is the whole table if and only if no
      other section does. */
  lemma LastSectionAlone(ss: seq<Section>)
    requires ss != []
    requires var s := ss[|ss| - 1]; |s.crc| == 4 && s.t.number == s.t.last && s.t.entries != []
    ensures Parsed(ss[|ss| - 1]).entries == AllEntries(ss) <==>
            forall k :: 0 <= k < |ss| - 1 ==> ss[k].t.entries == []
  {
    var n := |ss| - 1;
    var before := ss[..n];
    NoEntries(before);
    assert AllEntries(ss) == AllEntries(before) + ss[n].t.entries;
    hide AllEntries;
    if AllEntries(ss) == ss[n].t.entries {
      assert |AllEntries(before)| == 0;
    }
    assert forall k :: 0 <= k < n ==> before[k] == ss[k];
  }

  /** Two sections with a transport stream each: the first stream is lost. */
  lemma FirstStreamLost()
    ensures var one := NitParser.Entry(1, 9, []); var two := NitParser.Entry(2, 9, []);
            var ss := [Section(NitParser.Nit(0x40, 0xC1, 0, 1, 9, [], [one]), 0, [0, 0, 0, 0]),
                       Section(NitParser.Nit(0x40, 0xC1, 1, 1, 9, [], [two]), 0, [0, 0, 0, 0])];
            AllEntries(ss) == [one, two] && Parsed(ss[1]).entries == [two]
  {
    var one, two := NitParser.Entry(1, 9, []), NitParser.Entry(2, 9, []);
    var first := Section(NitParser.Nit(0x40, 0xC1, 0, 1, 9, [], [one]), 0, [0, 0, 0, 0]);
    var second := Section(NitParser.Nit(0x40, 0xC1, 1, 1, 9, [], [two]), 0, [0, 0, 0, 0]);
    var ss := [first, second];
    assert ss[..1] == [first] && [first][..0] == [];
    assert AllEntries([first]) == AllEntries([]) + [one];
  }

  // ----- The code -----

  /** Parsing a section in its slot presents what `Parsed` says, whatever lies behind the slot. */
  method ParseSection(d: seq<Byte>, h: nat, base: nat, netDesc: array<Byte>, streamDesc: array<NitParser.Cell>,
                      ghost s: Section, ghost rest: seq<Byte>)
    returns (tbl: NitParser.NitTable)
    requires NitParser.HeaderSize(h) && NitParser.Aligned(base)
    requires netDesc.Length == streamDesc.Length == NitParser.ARENA_SIZE
    requires Encodable(s) && d == Image(s) + rest && NitParser.ZeroFrom(rest, 0, Overrun(s))
    modifies netDesc, streamDesc
    ensures Presents(tbl, netDesc[..], streamDesc[..], h, Parsed(s))
  {
    hide NitParser.Encode, NitParser.Parse, NitParser.SectionEntries, NitParser.ReadChain, NitParser.Chain,
      NitParser.Use;
    NitParser.RoundTrip(s.t, s.sectionLength, s.crc, rest, h);
    NitParser.SectionInSlot(s.t, s.sectionLength, s.crc, rest, h);
    tbl := NitParser.ParseNit(d, h, base, netDesc, streamDesc);
    NitParser.ReadBack(streamDesc[..], h, Parsed(s).entries);
    NitParser.FinalNode(streamDesc[..], h, Parsed(s).entries);
  }

  /** A section at the start of a slot and zeros behind it. */
  ghost predicate InSlot(buffer: seq<Byte>, k: nat, section: seq<Byte>)
    requires |buffer| == BUFFER_LEN && k < MAX_SECTION_NUM
  {
    section <= SlotBytes(buffer, k) && NitParser.ZeroFrom(SlotBytes(buffer, k), |section|, MAX_SECTION_LEN)
  }

  /** Clears the slots and collects. The table is reported exactly if the first batch has a whole section in it and
      all sections come in time; then every slot holds its section, followed by zeros. */
  method CollectNit(oracle: nat -> Poll, ghost table: seq<seq<Byte>>)
    returns (acquired: nat, buffer: array<Byte>)
    requires Driver(oracle) && Broadcasts(oracle, table) && 0 < |table| <= MAX_SECTION_NUM
    ensures fresh(buffer) && buffer.Length == BUFFER_LEN
    ensures acquired == if Arrives(oracle, |table|) then |table| else 0
    ensures acquired > 0 ==> forall k :: 0 <= k < |table| ==> InSlot(buffer[..], k, table[k])
  {
    hide KeepAll, History, Holds, Ends, Broadcasts, Arrives, SlotBytes, InSlot;
    buffer := new Byte[BUFFER_LEN](_ => 0);
    var sizes := new nat[MAX_SECTION_NUM](_ => 0);
    ghost var buffer0, sizes0 := buffer[..], sizes[..];
    var outcome, polls, released, badCrc;
    outcome, acquired, polls, released, badCrc := NitDataRead(oracle, TIMEOUT_MS, buffer, sizes);
    ghost var p := KeepAll(Plain, History(oracle, polls));
    ReportedIffArrives(oracle, outcome, polls, table);
    if outcome.Success? && p.total > 0 {
      forall k | 0 <= k < |table|
        ensures InSlot(buffer[..], k, table[k])
      {
        SlotIsFilled(buffer[..], sizes[..], buffer0, sizes0, p.slots, k);
      }
    }
  }

  lemma SlotIsFilled(buffer: seq<Byte>, sizes: seq<nat>, buffer0: seq<Byte>, sizes0: seq<nat>,
                     slots: map<nat, seq<Byte>>, k: nat)
    requires Holds(buffer, sizes, buffer0, sizes0, slots) && k < MAX_SECTION_NUM && k in slots
    requires forall j :: 0 <= j < |buffer0| ==> buffer0[j] == 0
    ensures InSlot(buffer, k, slots[k])
  {
    var section, was := slots[k], SlotBytes(buffer0, k);
    assert SlotBytes(buffer, k) == section + was[|section|..];
    assert forall j :: 0 <= j < MAX_SECTION_LEN ==> was[j] == buffer0[k * MAX_SECTION_LEN + j];
  }

  lemma BehindSlot(buffer: seq<Byte>, k: nat, s: Section) returns (rest: seq<Byte>)
    requires |buffer| == BUFFER_LEN && k < MAX_SECTION_NUM && Encodable(s) && InSlot(buffer, k, Image(s))
    requires |Image(s)| + Overrun(s) <= MAX_SECTION_LEN
    ensures buffer[k * MAX_SECTION_LEN..] == Image(s) + rest && NitParser.ZeroFrom(rest, 0, Overrun(s))
  {
    hide Image;
    var slot, n := SlotBytes(buffer, k), |Image(s)|;
    var d := buffer[k * MAX_SECTION_LEN..];
    rest := d[n..];
    assert d[..MAX_SECTION_LEN] == slot;
    assert d[..n] == slot[..n] == Image(s);
    forall j | 0 <= j < Overrun(s)
      ensures rest[j] == 0
    {
      assert rest[j] == d[n + j] == slot[n + j];
    }
  }

  /** On the broadcast of a table of any number of sections the finished table presents what is found in the last
      one, exactly if the table is reported; otherwise the caller's table is as it was.  Every parse works on arenas
      of its own. */
  method AcquireNit(oracle: nat -> Poll, h: nat, base: nat, ghost ss: seq<Section>,
                    tbl0: NitParser.NitTable, netDesc0: array<Byte>, streamDesc0: array<NitParser.Cell>)
    returns (acquired: nat, tbl: NitParser.NitTable, netDesc: array<Byte>, streamDesc: array<NitParser.Cell>)
    requires Driver(oracle) && NitParser.HeaderSize(h) && NitParser.Aligned(base)
    requires IsTable(ss) && Broadcasts(oracle, Images(ss))
    ensures acquired == if Arrives(oracle, |ss|) then |ss| else 0
    ensures Arrives(oracle, |ss|) ==>
              fresh(netDesc) && fresh(streamDesc) && Presents(tbl, netDesc[..], streamDesc[..], h, Parsed(ss[|ss| - 1]))
    ensures !Arrives(oracle, |ss|) ==> tbl == tbl0 && netDesc == netDesc0 && streamDesc == streamDesc0
  {
    hide Presents, Broadcasts, Arrives, InSlot, Image, Numbered, Parsed;
    TableIsEncodable(ss);
    var buffer;
    acquired, buffer := CollectNit(oracle, Images(ss));
    tbl, netDesc, streamDesc := tbl0, netDesc0, streamDesc0;
    ghost var image := buffer[..];
    var p := 0;
    for i := 0 to acquired
      invariant p == i * MAX_SECTION_LEN && buffer[..] == image
      invariant i == 0 ==> tbl == tbl0 && netDesc == netDesc0 && streamDesc == streamDesc0
      invariant i > 0 ==> fresh(netDesc) && fresh(streamDesc) && netDesc != buffer
      invariant i > 0 ==> Presents(tbl, netDesc[..], streamDesc[..], h, Parsed(ss[i - 1]))
    {
      var d := buffer[p..];
      SectionIsEncodable(ss, i);
      ghost var rest := BehindSlot(image, i, ss[i]);
      netDesc := new Byte[NitParser.ARENA_SIZE];
      streamDesc := new NitParser.Cell[NitParser.ARENA_SIZE];
      tbl := ParseSection(d, h, base, netDesc, streamDesc, ss[i], rest);
      p := p + MAX_SECTION_LEN;
    }
  }

  lemma SectionIsEncodable(ss: seq<Section>, k: nat)
    requires IsTable(ss) && k < |ss|
    ensures Encodable(ss[k]) && |Image(ss[k])| + Overrun(ss[k]) <= MAX_SECTION_LEN
  {
    assert Numbered(ss[k], k, |ss|);
  }

  lemma TableIsEncodable(ss: seq<Section>)
    requires IsTable(ss)
    ensures forall k :: 0 <= k < |ss| ==> Encodable(ss[k])
  {
    forall k | 0 <= k < |ss|
      ensures Encodable(ss[k])
    {
      SectionIsEncodable(ss, k);
    }
  }

  // ----- When the table is reported -----

  /** The section kept in each slot by a run that reports the table. */
  lemma ReportedTable(oracle: nat -> Poll, polls: nat, table: seq<seq<Byte>>)
    requires Driver(oracle) && Broadcasts(oracle, table) && Complete(KeepAll(Plain, History(oracle, polls)))
    requires !NoneWhole(History(oracle, polls))
    ensures var p := KeepAll(Plain, History(oracle, polls));
            && p.total == |table| && AllSeen(Plain, History(oracle, polls), |table|)
            && forall k :: 0 <= k < |table| ==> k in p.slots && p.slots[k] == table[k]
  {
    hide KeepAll, History, Mismatch;
    var h := History(oracle, polls);
    var p := KeepAll(Plain, h);
    assert Carries(Plain, h, table);
    TotalIsLatest(Plain, h);
    CompletenessTestExact(Plain, h, |table|);
    forall k | 0 <= k < |table|
      ensures k in p.slots && p.slots[k] == table[k]
    {
      assert Seen(Plain, h, k);
      var i: nat :| SeenAt(Plain, h, i, k);
      SeenIsKept(Plain, h, i, k);
      var j := FirstKept(Plain, h, k);
    }
  }

  lemma {:induction false} NothingBefore(oracle: nat -> Poll, n: nat)
    requires Driver(oracle) && forall m: nat :: m < n ==> !Fruitful(oracle(m))
    ensures History(oracle, n) == []
  {
    if n > 0 {
      NothingBefore(oracle, n - 1);
    }
  }

  lemma FirstHistory(oracle: nat -> Poll, n: nat)
    requires Driver(oracle) && Fruitful(oracle(n)) && forall m: nat :: m < n ==> !Fruitful(oracle(m))
    ensures HasWhole(oracle(n)) <==> !NoneWhole(History(oracle, n + 1))
  {
    NothingBefore(oracle, n);
    assert History(oracle, n + 1) == oracle(n).items;
  }

  lemma {:induction false} FirstFruitful(oracle: nat -> Poll, m: nat) returns (n: nat)
    requires Fruitful(oracle(m))
    ensures n <= m && Fruitful(oracle(n)) && forall k: nat :: k < n ==> !Fruitful(oracle(k))
  {
    n := m;
    if k: nat :| k < m && Fruitful(oracle(k)) {
      n := FirstFruitful(oracle, k);
    }
  }

  lemma SeenGrows(oracle: nat -> Poll, m: nat, n: nat, total: nat)
    requires Driver(oracle) && m <= n
    ensures AllSeen(Plain, History(oracle, m), total) ==> AllSeen(Plain, History(oracle, n), total)
    ensures NoneWhole(History(oracle, n)) ==> NoneWhole(History(oracle, m))
  {
    hide History;
    HistoryPrefix(oracle, m, n);
    if AllSeen(Plain, History(oracle, m), total) {
      forall k: nat | k < total
        ensures Seen(Plain, History(oracle, n), k)
      {
        assert Seen(Plain, History(oracle, m), k);
        var i: nat :| SeenAt(Plain, History(oracle, m), i, k);
        assert SeenAt(Plain, History(oracle, n), i, k);
      }
    }
  }

  /** The poll that brings the last missing section. */
  lemma {:induction false} LastMissing(oracle: nat -> Poll, n: nat, total: nat) returns (m: nat)
    requires Driver(oracle) && total > 0 && AllSeen(Plain, History(oracle, n), total)
    ensures 0 < m <= n && AllSeen(Plain, History(oracle, m), total) && Fruitful(oracle(m - 1))
  {
    assert Seen(Plain, History(oracle, n), 0);
    if Fruitful(oracle(n - 1)) {
      m := n;
    } else {
      PollStep(oracle, n - 1);
      m := LastMissing(oracle, n - 1, total);
    }
  }

  lemma ArrivalSucceeds(oracle: nat -> Poll, budget: nat, outcome: Outcome, polls: nat, n: nat, table: seq<seq<Byte>>)
    requires Driver(oracle) && Broadcasts(oracle, table) && table != [] && FirstBatch(oracle, n)
    requires AllSeen(Plain, History(oracle, budget), |table|) && Ends(Plain, oracle, budget, outcome, polls)
    ensures outcome == Success && AllSeen(Plain, History(oracle, polls), |table|)
  {
    assert Fruitful(oracle(n));
    FirstHistory(oracle, n);
    hide History, Ends, AllSeen, NoneWhole, DeliverableAll, KeepAll, Complete, HasWhole, Driver;
    var m := LastMissing(oracle, budget, |table|);
    assert Carries(Plain, History(oracle, m), table);
    forall j: nat | 0 < j <= m && Fruitful(oracle(j - 1))
      ensures !NoneWhole(History(oracle, j))
    {
      SeenGrows(oracle, n + 1, j, |table|);
    }
    EnoughPollsSucceed(Plain, oracle, budget, outcome, polls, m, |table|);
  }

  /** A run that reports a table started with a batch that had a whole section in it. */
  lemma SuccessStartsWhole(oracle: nat -> Poll, budget: nat, polls: nat, table: seq<seq<Byte>>) returns (n: nat)
    requires Driver(oracle) && Broadcasts(oracle, table) && Ends(Plain, oracle, budget, Success, polls)
    requires !NoneWhole(History(oracle, polls))
    ensures n < polls <= budget && FirstBatch(oracle, n)
  {
    hide KeepAll, History, DeliverableAll;
    n := FirstFruitful(oracle, polls - 1);
    FirstHistory(oracle, n);
    assert Completes(Plain, oracle, n + 1) ==> n + 1 == polls;
    if !HasWhole(oracle(n)) {
      CompletenessTestExact(Plain, History(oracle, n + 1), 0);
    }
  }

  lemma ReportedIffArrives(oracle: nat -> Poll, outcome: Outcome, polls: nat, table: seq<seq<Byte>>)
    requires Driver(oracle) && Broadcasts(oracle, table) && table != []
    requires Ends(Plain, oracle, PollBudget(TIMEOUT_MS), outcome, polls)
    ensures var p := KeepAll(Plain, History(oracle, polls));
            && (Arrives(oracle, |table|) <==> outcome.Success? && p.total > 0)
            && (outcome.Success? && p.total > 0 ==>
                  p.total == |table| && forall k :: 0 <= k < |table| ==> k in p.slots && p.slots[k] == table[k])
  {
    hide KeepAll, History, Broadcasts, FirstBatch, NoneWhole, AllSeen, DeliverableAll, Complete;
    var budget, h := PollBudget(TIMEOUT_MS), History(oracle, polls);
    assert budget == 999;
    TotalIsLatest(Plain, h);
    if Arrives(oracle, |table|) {
      var n: nat :| n < budget && FirstBatch(oracle, n);
      ArrivalSucceeds(oracle, budget, outcome, polls, n, table);
      SeenIsNotNone(h, |table|);
    }
    if outcome.Success? && KeepAll(Plain, h).total > 0 {
      ReportedTable(oracle, polls, table);
      var n := SuccessStartsWhole(oracle, budget, polls, table);
      SeenGrows(oracle, polls, budget, |table|);
    }
  }

  /** A table of one section is reported exactly if the first batch comes in time and has the section in it. */
  lemma OneSectionArrives(oracle: nat -> Poll, section: seq<Byte>)
    requires Driver(oracle) && Broadcasts(oracle, [section])
    ensures Arrives(oracle, 1) <==> exists n: nat :: n < 999 && FirstBatch(oracle, n)
  {
    hide History, DeliverableAll;
    if n: nat :| n < 999 && FirstBatch(oracle, n) {
      FirstHistory(oracle, n);
      var h := History(oracle, n + 1);
      var i :| 0 <= i < |h| && h[i].whole;
      assert Carries(Plain, h, [section]);
      assert SeenAt(Plain, h, i, 0);
      SeenGrows(oracle, n + 1, 999, 1);
    }
  }

  lemma SeenIsNotNone(h: seq<Item>, total: nat)
    requires DeliverableAll(h) && total > 0 && AllSeen(Plain, h, total)
    ensures !NoneWhole(h)
  {
    assert Seen(Plain, h, 0);
  }
}
