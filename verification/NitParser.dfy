/** The parser of network information sections (section 5.2.1 of ETSI EN 300 468).

    It copies the network descriptors to one arena and lays out the transport-stream loop in
    another, as a linked list of headers, each followed by its descriptor bytes and padding up to a
    multiple of four.  Arena cells remember what was last written to them, so a header or a
    descriptor that overlapped an earlier one would be seen to destroy it. */
module NitParser {
  import opened Types

  const ARENA_SIZE := 32768

  // ----- The section as the parser reads it -----

  datatype Entry = Entry(tsId: U16, networkId: U16, desc: seq<Byte>)

  function Be16(d: seq<Byte>, p: nat): U16
    requires p + 2 <= |d|
  {
    d[p] as int * 256 + d[p + 1]
  }

  /** A 12-bit length under four reserved bits. */
  function Len12(d: seq<Byte>, p: nat): (n: nat)
    requires p + 2 <= |d|
    ensures n < 4096
  {
    d[p] as int % 16 * 256 + d[p + 1]
  }

  /** The loop entries from position `p` on, `consumed` bytes into a loop of `length` bytes. The
      first entry is taken before the length is looked at, and an entry may overshoot the length.
      `None` means that the bytes run out. */
  function LoopEntries(d: seq<Byte>, p: nat, consumed: nat, length: nat): (r: Option<seq<Entry>>)
    ensures r.Some? ==> r.value != []
    decreases |d| - p
  {
    if p + 6 > |d| then None
    else
      var n := Len12(d, p + 4);
      if p + 6 + n > |d| then None
      else
        var e := Entry(Be16(d, p), Be16(d, p + 2), d[p + 6..p + 6 + n]);
        if consumed + n + 6 >= length then Some([e])
        else
          var rest := LoopEntries(d, p + 6 + n, consumed + n + 6, length);
          if rest.None? then None else Some([e] + rest.value)
  }

  function NetDescLen(d: seq<Byte>): nat
    requires |d| >= 10
  {
    Len12(d, 8)
  }

  function SectionEntries(d: seq<Byte>): (r: Option<seq<Entry>>)
    ensures r.Some? ==> |d| >= 10 && 12 + NetDescLen(d) <= |d|
    ensures r.Some? ==> r.value != []
  {
    if |d| < 10 || 12 + NetDescLen(d) > |d| then None
    else LoopEntries(d, 12 + NetDescLen(d), 0, Len12(d, 10 + NetDescLen(d)))
  }

  // ----- The passes of the outer loop -----

  /** What the passes so far have gathered; `last` is the section number that ends them. */
  datatype Tally = Tally(last: Byte, net: seq<Byte>, entries: seq<Entry>)

  /** A section numbered 0 starts afresh. */
  function Enter(d: seq<Byte>, t: Tally): Tally
    requires |d| >= 10
  {
    if d[6] == 0 then Tally(d[7], [], []) else t
  }

  /** Network descriptors that would come too close to the end of their arena are dropped. */
  function AddNet(net: seq<Byte>, more: seq<Byte>): seq<Byte> {
    if |net| + |more| <= ARENA_SIZE - 256 then net + more else net
  }

  /** The nodes of `es`, laid out behind those of `before`, do not reach the overflow guard. */
  predicate Fits(h: nat, before: seq<Entry>, es: seq<Entry>) {
    forall k :: 0 <= k < |es| ==> Use(h, before + es[..k]) + h + |es[k].desc| + 256 <= ARENA_SIZE
  }

  /** One pass over the section at the start of `d`. `None` if the bytes run out or the arena does. */
  function Pass(d: seq<Byte>, h: nat, t: Tally): (r: Option<Tally>)
    ensures r.Some? ==> SectionEntries(d).Some? && r.value.entries != []
  {
    var es := SectionEntries(d);
    if es.None? || !Fits(h, Enter(d, t).entries, es.value) then None
    else
      var u := Enter(d, t);
      Some(Tally(u.last, AddNet(u.net, d[10..10 + NetDescLen(d)]), u.entries + es.value))
  }

  /** Where the transport-stream loop ends. The CRC behind it is not skipped. */
  function PassEnd(d: seq<Byte>): nat
    requires SectionEntries(d).Some?
  {
    12 + NetDescLen(d) + LoopBytes(SectionEntries(d).value)
  }

  /** Pass after pass, until the section number just read is the last one. */
  function Passes(d: seq<Byte>, h: nat, t: Tally): (r: Option<Tally>)
    ensures r.Some? ==> SectionEntries(d).Some? && r.value.entries != []
    decreases |d|
  {
    var u := Pass(d, h, t);
    if u.None? then None
    else if d[6] == u.value.last then u
    else if PassEnd(d) > |d| then None
    else Passes(d[PassEnd(d)..], h, u.value)
  }

  function Parse(d: seq<Byte>, h: nat): (r: Option<Tally>)
    ensures r.Some? ==> SectionEntries(d).Some? && r.value.entries != []
  {
    if |d| < 8 then None else Passes(d, h, Tally(d[7], [], []))
  }

  /** What the parser needs of its input: all the bytes that its passes lead to, and room in the arena. */
  predicate Readable(d: seq<Byte>, h: nat) {
    Parse(d, h).Some?
  }

  // ----- The arena -----

  datatype Ptr = Null | At(offset: nat)

  datatype Header = Header(tsId: U16, networkId: U16, descLen: U16, next: Ptr, desc: nat)

  /** A header occupies its first cell and turns the rest of its cells into `Rest`. */
  datatype Cell = Raw(b: Byte) | Head(header: Header) | Rest

  /** `sizeof(NIT_TSDESC)` with 32-bit and with 64-bit pointers. */
  predicate HeaderSize(h: nat) {
    h == 16 || h == 24
  }

  predicate Aligned(n: nat) {
    n % 4 == 0
  }

  function Align4(n: nat): (r: nat)
    ensures Aligned(r) && n <= r < n + 4
  {
    if n % 4 == 0 then n else n + 4 - n % 4
  }

  function NodeSize(h: nat, e: Entry): nat {
    Align4(h + |e.desc|)
  }

  /** Arena bytes used by a list; also the offset of the node after it. */
  function Use(h: nat, es: seq<Entry>): nat {
    if es == [] then 0 else Use(h, es[..|es| - 1]) + NodeSize(h, es[|es| - 1])
  }

  /** Section bytes taken by a list. */
  function LoopBytes(es: seq<Entry>): nat {
    if es == [] then 0 else LoopBytes(es[..|es| - 1]) + 6 + |es[|es| - 1].desc|
  }

  ghost predicate NodeAt(a: seq<Cell>, h: nat, p: nat, e: Entry, next: Ptr) {
    && 0 < h && p + h + |e.desc| <= |a| && |e.desc| < 4096
    && a[p] == Head(Header(e.tsId, e.networkId, |e.desc|, next, p + h))
    && (forall j :: p < j < p + h ==> a[j] == Rest)
    && (forall j :: p + h <= j < p + h + |e.desc| ==> a[j] == Raw(e.desc[j - (p + h)]))
  }

  /** The nodes of `es` lie one after the other from offset 0, each linked to the next and the last
      one to `end`. */
  ghost predicate Chain(a: seq<Cell>, h: nat, es: seq<Entry>, end: Ptr) {
    forall k :: 0 <= k < |es| ==> LinkAt(a, h, es, end, k)
  }

  ghost predicate LinkAt(a: seq<Cell>, h: nat, es: seq<Entry>, end: Ptr, k: nat)
    requires k < |es|
  {
    NodeAt(a, h, Use(h, es[..k]), es[k], if k + 1 < |es| then At(Use(h, es[..k + 1])) else end)
  }

  /** A client of the table: follow the links, reading each header and the bytes it points to. It
      refuses a header that is not intact and a link that does not lead onwards. */
  function ReadChain(a: seq<Cell>, h: nat, p: Ptr): Option<seq<Entry>>
    decreases if p.Null? then 0 else 1 + if p.offset < |a| then |a| - p.offset else 0
  {
    match p
    case Null => Some([])
    case At(o) =>
      if o + h > |a| || h == 0 || !a[o].Head? || exists j :: o < j < o + h && a[j] != Rest then None
      else
        var hd := a[o].header;
        if hd.desc + hd.descLen > |a| || exists j :: hd.desc <= j < hd.desc + hd.descLen && !a[j].Raw? then None
        else if hd.next.At? && hd.next.offset <= o then None
        else
          var e := Entry(hd.tsId, hd.networkId, seq(hd.descLen, j requires 0 <= j < hd.descLen => a[hd.desc + j].b));
          var rest := ReadChain(a, h, hd.next);
          if rest.None? then None else Some([e] + rest.value)
  }

  // ----- The parser -----

  /** The summary fields; the two arenas themselves are the caller's arrays. `tsDesc` is an offset
      into the stream arena. */
  datatype NitTable = NitTable(networkId: U16, netDescLen: nat, streamDescLen: nat, tsId: U16, tsDescLen: U16,
                               tsDesc: nat)

  method WriteHeader(a: array<Cell>, h: nat, p: nat, header: Header)
    requires 0 < h && p + h <= a.Length
    modifies a
    ensures a[p] == Head(header)
    ensures forall j :: p < j < p + h ==> a[j] == Rest
    ensures forall j :: 0 <= j < a.Length && !(p <= j < p + h) ==> a[j] == old(a[j])
  {
    a[p] := Head(header);
    for j := p + 1 to p + h
      invariant a[p] == Head(header)
      invariant forall k :: p < k < j ==> a[k] == Rest
      invariant forall k :: 0 <= k < a.Length && !(p <= k < p + h) ==> a[k] == old(a[k])
    {
      a[j] := Rest;
    }
  }

  method CopyDescriptor(a: array<Cell>, p: nat, d: seq<Byte>, from: nat, len: nat)
    requires p + len <= a.Length && from + len <= |d|
    modifies a
    ensures forall j :: p <= j < p + len ==> a[j] == Raw(d[from + (j - p)])
    ensures forall j :: 0 <= j < a.Length && !(p <= j < p + len) ==> a[j] == old(a[j])
  {
    for j := 0 to len
      invariant forall k :: p <= k < p + j ==> a[k] == Raw(d[from + (k - p)])
      invariant forall k :: 0 <= k < a.Length && !(p <= k < p + j) ==> a[k] == old(a[k])
    {
      a[p + j] := Raw(d[from + j]);
    }
  }

  method CopyNetworkDescriptors(netDesc: array<Byte>, at: nat, d: seq<Byte>, len: nat)
    requires at + len <= netDesc.Length && 10 + len <= |d|
    modifies netDesc
    ensures netDesc[..at + len] == old(netDesc[..at]) + d[10..10 + len]
    ensures netDesc[at + len..] == old(netDesc[at + len..])
  {
    for i := 0 to len
      invariant netDesc[..at + i] == old(netDesc[..at]) + d[10..10 + i]
      invariant netDesc[at + i..] == old(netDesc[at + i..])
    {
      netDesc[at + i] := d[10 + i];
    }
  }

  /** One round of the loop: header, guard, descriptor bytes, padding, link. Returns the address after
      the padded node, as an arena offset. */
  method LayOutNode(a: array<Cell>, h: nat, base: nat, node: nat, d: seq<Byte>, cur: nat, ghost e: Entry)
    returns (next: nat)
    requires HeaderSize(h) && Aligned(base) && Aligned(node)
    requires cur + 6 <= |d| && cur + 6 + Len12(d, cur + 4) <= |d|
    requires e == Entry(Be16(d, cur), Be16(d, cur + 2), d[cur + 6..cur + 6 + Len12(d, cur + 4)])
    requires a.Length == ARENA_SIZE && node + h + Len12(d, cur + 4) + 256 <= ARENA_SIZE
    modifies a
    ensures next == node + NodeSize(h, e)
    ensures NodeAt(a[..], h, node, e, At(next))
    ensures forall j :: 0 <= j < ARENA_SIZE && !(node <= j < next) ==> a[j] == old(a[j])
  {
    var len := Len12(d, cur + 4);
    var header := Header(Be16(d, cur), Be16(d, cur + 2), len, Null, node + h);
    WriteHeader(a, h, node, header);
    if node + h + len + 256 > ARENA_SIZE {
      assert false;
    }
    CopyDescriptor(a, header.desc, d, cur + 6, len);
    next := header.desc + len;
    PaddingIsLocal(base, node, h + len);
    if (base + next) % 4 != 0 {
      next := next + (4 - (base + next) % 4);
    }
    a[node] := Head(header.(next := At(next)));
  }

  /** Padding the address pads the offset within the node. */
  lemma PaddingIsLocal(base: nat, node: nat, n: nat)
    requires Aligned(base) && Aligned(node)
    ensures (base + (node + n)) % 4 == n % 4
  {
  }

  /** Unfolds the loop by one entry. */
  lemma LoopStep(d: seq<Byte>, p: nat, consumed: nat, length: nat)
    requires LoopEntries(d, p, consumed, length).Some?
    ensures p + 6 <= |d| && p + 6 + Len12(d, p + 4) <= |d|
    ensures var n := Len12(d, p + 4); var es := LoopEntries(d, p, consumed, length).value;
            && es[0] == Entry(Be16(d, p), Be16(d, p + 2), d[p + 6..p + 6 + n])
            && (consumed + n + 6 >= length ==> |es| == 1)
            && (consumed + n + 6 < length ==> LoopEntries(d, p + 6 + n, consumed + n + 6, length) == Some(es[1..]))
  {
  }

  /** The transport-stream loop. Returns the last node, the number of arena bytes used and the position
      behind the loop. */
  method LayOutLoop(d: seq<Byte>, h: nat, base: nat, start: nat, streamDescLen: nat, first: nat, a: array<Cell>,
                    ghost before: seq<Entry>, ghost es: seq<Entry>)
    returns (node: nat, tsDescBytesCopied: nat, cur: nat)
    requires LoopEntries(d, start, 0, streamDescLen) == Some(es)
    requires HeaderSize(h) && Aligned(base) && a.Length == ARENA_SIZE && Fits(h, before, es)
    requires first == Use(h, before) && Chain(a[..], h, before, At(first))
    modifies a
    ensures es != [] && node == Use(h, before + es[..|es| - 1])
    ensures tsDescBytesCopied == Use(h, before + es) <= ARENA_SIZE
    ensures cur == start + LoopBytes(es) <= |d|
    ensures Chain(a[..], h, before + es, At(tsDescBytesCopied))
    ensures forall j :: tsDescBytesCopied <= j < ARENA_SIZE ==> a[j] == old(a[j])
  {
    hide Chain, NodeAt, LoopEntries, Use, LoopBytes, Fits, Len12, Be16;
    node, tsDescBytesCopied := first, first;
    cur := start;
    var i: nat := 0;
    ghost var done: seq<Entry> := [];
    assert es[0..] == es && before + [] == before;
    NoLoopBytes();
    while true
      invariant |done| < |es| && done == es[..|done|]
      invariant LoopEntries(d, cur, i, streamDescLen) == Some(es[|done|..])
      invariant node == tsDescBytesCopied == Use(h, before + done)
      invariant i == LoopBytes(done) && cur == start + i
      invariant Chain(a[..], h, before + done, At(node))
      invariant forall j :: node <= j < ARENA_SIZE ==> a[j] == old(a[j])
      decreases |d| - cur
    {
      ghost var e := es[|done|];
      ghost var was := a[..];
      LoopStep(d, cur, i, streamDescLen);
      UseIsBounded(h, before + done);
      FitsAt(h, before, es, |done|);
      var len := Len12(d, cur + 4);
      var next := LayOutNode(a, h, base, node, d, cur, e);
      ChainExtends(was, a[..], h, before + done, e);
      LoopBytesAppend(done, e);
      assert before + (done + [e]) == before + done + [e];
      cur := cur + 6 + len;
      tsDescBytesCopied := tsDescBytesCopied + (next - node);
      i := i + len + 6;
      assert es[|done|..][1..] == es[|done| + 1..];
      done := done + [e];
      if i >= streamDescLen {
        break;
      } else {
        node := next;
      }
    }
    assert done == es && es[..|es| - 1] == done[..|done| - 1];
  }

  lemma FitsAt(h: nat, before: seq<Entry>, es: seq<Entry>, k: nat)
    requires Fits(h, before, es) && k < |es|
    ensures Use(h, before + es[..k]) + h + |es[k].desc| + 256 <= ARENA_SIZE
  {
  }

  lemma LoopBytesAppend(es: seq<Entry>, e: Entry)
    ensures LoopBytes(es + [e]) == LoopBytes(es) + 6 + |e.desc|
  {
    assert (es + [e])[..|es|] == es;
  }

  /** The arenas hold what the passes so far have gathered. */
  ghost predicate Laid(netDesc: seq<Byte>, a: seq<Cell>, h: nat, t: Tally) {
    && t.net <= netDesc && Use(h, t.entries) <= |a|
    && Chain(a, h, t.entries, At(Use(h, t.entries)))
  }

  lemma LaidAfresh(netDesc: seq<Byte>, a: seq<Cell>, h: nat, last: Byte)
    ensures Use(h, []) == 0 && Laid(netDesc, a, h, Tally(last, [], []))
  {
  }

  /** One round of the outer loop. Returns the section number read, the one that ends the passes, both byte
      counts, the last node and the position behind the loop. */
  method ParsePass(d: seq<Byte>, h: nat, base: nat, last0: Byte, bytesCopied0: nat, tsDescBytesCopied0: nat,
                   netDesc: array<Byte>, streamDesc: array<Cell>, ghost t: Tally)
    returns (section: Byte, last: Byte, bytesCopied: nat, tsDescBytesCopied: nat, node: nat, end: nat)
    requires Pass(d, h, t).Some? && HeaderSize(h) && Aligned(base)
    requires netDesc.Length == streamDesc.Length == ARENA_SIZE
    requires Laid(netDesc[..], streamDesc[..], h, t)
    requires last0 == t.last && bytesCopied0 == |t.net| && tsDescBytesCopied0 == Use(h, t.entries)
    modifies netDesc, streamDesc
    ensures section == d[6]
    ensures var v := Pass(d, h, t).value;
            && Laid(netDesc[..], streamDesc[..], h, v)
            && last == v.last && bytesCopied == |v.net| && tsDescBytesCopied == Use(h, v.entries)
            && node == Use(h, v.entries[..|v.entries| - 1])
    ensures end == PassEnd(d) <= |d|
    ensures netDesc[bytesCopied..] == old(netDesc[bytesCopied..])
    ensures streamDesc[tsDescBytesCopied..] == old(streamDesc[tsDescBytesCopied..])
  {
    hide Chain, LoopEntries, Use, LoopBytes;
    section, last, bytesCopied, tsDescBytesCopied := d[6], last0, bytesCopied0, tsDescBytesCopied0;
    ghost var u := Enter(d, t);
    if section == 0 {
      LaidAfresh(netDesc[..], streamDesc[..], h, d[7]);
      last, bytesCopied, tsDescBytesCopied := d[7], 0, 0;
    }
    var netDescLen := Len12(d, 8);
    var streamDescLen := Len12(d, 10 + netDescLen);
    ghost var es := SectionEntries(d).value;

    if bytesCopied + netDescLen <= ARENA_SIZE - 256 {
      CopyNetworkDescriptors(netDesc, bytesCopied, d, netDescLen);
      bytesCopied := bytesCopied + netDescLen;
    }

    FirstFits(h, u.entries, es);
    if tsDescBytesCopied + h + 256 > ARENA_SIZE {
      assert false;
    }
    node, tsDescBytesCopied, end := LayOutLoop(d, h, base, 12 + netDescLen, streamDescLen, tsDescBytesCopied,
                                               streamDesc, u.entries, es);
    assert (u.entries + es)[..|u.entries + es| - 1] == u.entries + es[..|es| - 1];
  }

  lemma FirstFits(h: nat, before: seq<Entry>, es: seq<Entry>)
    requires es != [] && Fits(h, before, es)
    ensures Use(h, before) + h + 256 <= ARENA_SIZE
  {
    assert before + es[..0] == before;
  }

  /** Parses the section at the start of `d` and goes on behind it while the section number just read is not
      the last one. `base` is the address of the stream arena, which `malloc` aligns. */
  method ParseNit(d: seq<Byte>, h: nat, base: nat, netDesc: array<Byte>, streamDesc: array<Cell>)
    returns (tbl: NitTable)
    requires Readable(d, h) && HeaderSize(h) && Aligned(base)
    requires netDesc.Length == streamDesc.Length == ARENA_SIZE
    modifies netDesc, streamDesc
    ensures tbl.networkId == Be16(d, 3)
    ensures var t := Parse(d, h).value; var es := t.entries; var n := |es| - 1;
            && tbl.netDescLen == |t.net| && t.net <= netDesc[..]
            && Chain(streamDesc[..], h, es, Null)
            && tbl.streamDescLen == Use(h, es) <= ARENA_SIZE
            && tbl.tsId == es[n].tsId && tbl.tsDescLen == |es[n].desc| && tbl.tsDesc == Use(h, es[..n]) + h
    ensures d[6] == d[7] ==> netDesc[tbl.netDescLen..] == old(netDesc[tbl.netDescLen..])
    ensures d[6] == d[7] ==> streamDesc[tbl.streamDescLen..] == old(streamDesc[tbl.streamDescLen..])
  {
    hide Chain, Use, Pass, PassEnd, SectionEntries;
    var last, bytesCopied, tsDescBytesCopied := d[7], 0, 0;
    var section, node, end;
    var rest := d;
    ghost var t := Tally(d[7], [], []);
    LaidAfresh(netDesc[..], streamDesc[..], h, d[7]);
    while true
      invariant Passes(rest, h, t) == Parse(d, h)
      invariant Laid(netDesc[..], streamDesc[..], h, t)
      invariant last == t.last && bytesCopied == |t.net| && tsDescBytesCopied == Use(h, t.entries)
      invariant d[6] == d[7] ==> rest == d && last == d[7]
      invariant d[6] == d[7] ==> netDesc[..] == old(netDesc[..]) && streamDesc[..] == old(streamDesc[..])
      decreases |rest|
    {
      PassStep(rest, h, t);
      section, last, bytesCopied, tsDescBytesCopied, node, end :=
        ParsePass(rest, h, base, last, bytesCopied, tsDescBytesCopied, netDesc, streamDesc, t);
      ghost var v := Pass(rest, h, t).value;
      LastStays(rest, h, t);
      t := v;
      if section == last {
        break;
      }
      rest := rest[end..];
    }
    var es := t.entries;
    ghost var linked := streamDesc[..];
    LastNode(linked, h, es);
    var lastNode := streamDesc[node].header;
    UseGrows(h, es, |es| - 1);
    NodeIsBounded(h, es[|es| - 1]);
    streamDesc[node] := Head(lastNode.(next := Null));
    ChainCloses(linked, streamDesc[..], h, es);
    tbl := NitTable(Be16(d, 3), bytesCopied, tsDescBytesCopied, lastNode.tsId, lastNode.descLen, lastNode.desc);
  }

  lemma PassStep(d: seq<Byte>, h: nat, t: Tally)
    requires Passes(d, h, t).Some?
    ensures Pass(d, h, t).Some? && |d| >= 10 && PassEnd(d) >= 12
    ensures var u := Pass(d, h, t).value;
            Passes(d, h, t) ==
            if d[6] == u.last then Some(u) else if PassEnd(d) > |d| then None else Passes(d[PassEnd(d)..], h, u)
  {
  }

  /** A section that is its own last one ends the passes that start with it. */
  lemma LastStays(d: seq<Byte>, h: nat, t: Tally)
    requires Pass(d, h, t).Some?
    ensures |d| >= 10 && (t.last == d[7] ==> Pass(d, h, t).value.last == d[7])
  {
  }

  lemma NodeIsBounded(h: nat, e: Entry)
    requires HeaderSize(h)
    ensures Aligned(NodeSize(h, e)) && h + |e.desc| <= NodeSize(h, e) <= 4 * (6 + |e.desc|)
  {
    if |e.desc| == 0 {
      assert Align4(16) == 16 && Align4(24) == 24;
    }
  }

  lemma SumAligned(m: nat, n: nat)
    requires Aligned(m) && Aligned(n)
    ensures Aligned(m + n)
  {
  }

  /** A node takes at most four arena bytes for each byte of its loop entry. */
  lemma {:induction false} UseIsBounded(h: nat, es: seq<Entry>)
    requires HeaderSize(h)
    ensures Aligned(Use(h, es)) && Use(h, es) <= 4 * LoopBytes(es)
  {
    if es == [] {
      assert Aligned(0);
    } else {
      hide NodeSize, Aligned;
      UseIsBounded(h, es[..|es| - 1]);
      NodeIsBounded(h, es[|es| - 1]);
      SumAligned(Use(h, es[..|es| - 1]), NodeSize(h, es[|es| - 1]));
    }
  }

  lemma {:induction false} UseGrows(h: nat, es: seq<Entry>, k: nat)
    requires k < |es| && HeaderSize(h)
    ensures Use(h, es[..k]) + NodeSize(h, es[k]) == Use(h, es[..k + 1]) <= Use(h, es)
  {
    hide NodeSize;
    assert es[..k + 1][..k] == es[..k];
    if k + 1 < |es| {
      var init := es[..|es| - 1];
      assert init[..k] == es[..k] && init[..k + 1] == es[..k + 1];
      UseGrows(h, init, k);
    } else {
      assert es[..k + 1] == es;
    }
  }

  lemma NodeKept(a: seq<Cell>, b: seq<Cell>, h: nat, p: nat, e: Entry, next: Ptr, limit: nat)
    requires NodeAt(a, h, p, e, next) && p + h + |e.desc| <= limit <= |a| == |b|
    requires forall j :: 0 <= j < limit ==> a[j] == b[j]
    ensures NodeAt(b, h, p, e, next)
  {
  }

  lemma ChainExtends(a: seq<Cell>, b: seq<Cell>, h: nat, done: seq<Entry>, e: Entry)
    requires HeaderSize(h) && |a| == |b| && Use(h, done) <= |a|
    requires Chain(a, h, done, At(Use(h, done)))
    requires forall j :: 0 <= j < Use(h, done) ==> a[j] == b[j]
    requires NodeAt(b, h, Use(h, done), e, At(Use(h, done) + NodeSize(h, e)))
    ensures Chain(b, h, done + [e], At(Use(h, done + [e])))
    ensures Use(h, done + [e]) == Use(h, done) + NodeSize(h, e)
    ensures LoopBytes(done + [e]) == LoopBytes(done) + 6 + |e.desc|
  {
    hide NodeAt, NodeSize;
    var es := done + [e];
    assert es[..|done|] == done;
    forall k | 0 <= k < |es|
      ensures LinkAt(b, h, es, At(Use(h, es)), k)
    {
      assert es[..k] == done[..k];
      if k < |done| {
        assert LinkAt(a, h, done, At(Use(h, done)), k);
        assert es[..k + 1] == done[..k + 1];
        assert k + 1 == |done| ==> done[..k + 1] == done;
        UseGrows(h, done, k);
        NodeIsBounded(h, done[k]);
        NodeKept(a, b, h, Use(h, done[..k]), done[k], At(Use(h, done[..k + 1])), Use(h, done));
      } else {
        assert es[..k + 1] == es;
      }
    }
  }

  lemma LastNode(a: seq<Cell>, h: nat, es: seq<Entry>)
    requires es != [] && Chain(a, h, es, At(Use(h, es)))
    ensures var n := |es| - 1; NodeAt(a, h, Use(h, es[..n]), es[n], At(Use(h, es)))
  {
    hide NodeAt;
    assert LinkAt(a, h, es, At(Use(h, es)), |es| - 1);
  }

  lemma ChainCloses(a: seq<Cell>, b: seq<Cell>, h: nat, es: seq<Entry>)
    requires HeaderSize(h) && es != [] && |a| == |b| && Chain(a, h, es, At(Use(h, es)))
    requires var p := Use(h, es[..|es| - 1]);
             && p < |a| && a[p].Head? && b == a[p := Head(a[p].header.(next := Null))]
    ensures Chain(b, h, es, Null)
  {
    hide NodeSize, NodeAt;
    var n := |es| - 1;
    LastNode(a, h, es);
    NodeRelinked(a, b, h, Use(h, es[..n]), es[n], At(Use(h, es)));
    forall k | 0 <= k < |es|
      ensures LinkAt(b, h, es, Null, k)
    {
      if k < n {
        assert LinkAt(a, h, es, At(Use(h, es)), k);
        assert es[..n][..k] == es[..k] && es[..n][..k + 1] == es[..k + 1];
        UseGrows(h, es[..n], k);
        NodeIsBounded(h, es[k]);
        NodeKept(a, b, h, Use(h, es[..k]), es[k], At(Use(h, es[..k + 1])), Use(h, es[..n]));
      }
    }
  }

  lemma NodeRelinked(a: seq<Cell>, b: seq<Cell>, h: nat, p: nat, e: Entry, next: Ptr)
    requires NodeAt(a, h, p, e, next) && b == a[p := Head(a[p].header.(next := Null))]
    ensures NodeAt(b, h, p, e, Null)
  {
  }

  // ----- What a client reads back -----

  lemma {:induction false} ReadChainFrom(a: seq<Cell>, h: nat, es: seq<Entry>, k: nat)
    requires HeaderSize(h) && Chain(a, h, es, Null) && k < |es|
    ensures ReadChain(a, h, At(Use(h, es[..k]))) == Some(es[k..])
    decreases |es| - k
  {
    hide NodeSize, NodeAt, ReadChain, Use;
    var e := es[k];
    var next := if k + 1 < |es| then At(Use(h, es[..k + 1])) else Null;
    assert LinkAt(a, h, es, Null, k);
    UseGrows(h, es, k);
    NodeIsBounded(h, e);
    if k + 1 < |es| {
      ReadChainFrom(a, h, es, k + 1);
    } else {
      ReadEnd(a, h);
    }
    ReadNode(a, h, Use(h, es[..k]), e, next, es[k + 1..]);
    assert es[k..] == [e] + es[k + 1..];
  }

  lemma ReadEnd(a: seq<Cell>, h: nat)
    ensures ReadChain(a, h, Null) == Some([])
  {
  }

  lemma ReadNode(a: seq<Cell>, h: nat, p: nat, e: Entry, next: Ptr, rest: seq<Entry>)
    requires NodeAt(a, h, p, e, next) && (next.At? ==> p < next.offset) && ReadChain(a, h, next) == Some(rest)
    ensures ReadChain(a, h, At(p)) == Some([e] + rest)
  {
    NodeIsIntact(a, h, p, e, next);
    DescriptorReadsBack(a, h, p, e, next);
    hide NodeAt;
  }

  lemma NodeIsIntact(a: seq<Cell>, h: nat, p: nat, e: Entry, next: Ptr)
    requires NodeAt(a, h, p, e, next)
    ensures 0 < h && p + h + |e.desc| <= |a| && |e.desc| < 4096
    ensures a[p] == Head(Header(e.tsId, e.networkId, |e.desc|, next, p + h))
    ensures !exists j :: p < j < p + h && a[j] != Rest
    ensures !exists j :: p + h <= j < p + h + |e.desc| && !a[j].Raw?
  {
  }

  lemma DescriptorReadsBack(a: seq<Cell>, h: nat, p: nat, e: Entry, next: Ptr)
    requires NodeAt(a, h, p, e, next)
    ensures p + h + |e.desc| <= |a| && forall j :: p + h <= j < p + h + |e.desc| ==> a[j].Raw?
    ensures seq(|e.desc|, j requires 0 <= j < |e.desc| => a[p + h + j].b) == e.desc
  {
    forall j | 0 <= j < |e.desc|
      ensures a[p + h + j] == Raw(e.desc[j])
    {
      assert a[p + h + j] == Raw(e.desc[(p + h + j) - (p + h)]);
    }
  }

  /** Following the links of a finished table from the start of the arena yields the entries, in
      order, and stops at the NULL link. */
  lemma ReadBack(a: seq<Cell>, h: nat, es: seq<Entry>)
    requires HeaderSize(h) && es != [] && Chain(a, h, es, Null)
    ensures ReadChain(a, h, At(0)) == Some(es)
  {
    ReadChainFrom(a, h, es, 0);
    assert es[0..] == es;
  }

  lemma FinalNode(a: seq<Cell>, h: nat, es: seq<Entry>)
    requires es != [] && Chain(a, h, es, Null)
    ensures var p := Use(h, es[..|es| - 1]); var e := es[|es| - 1];
            p + h + |e.desc| <= |a| && forall j :: 0 <= j < |e.desc| ==> a[p + h..][j] == Raw(e.desc[j])
  {
    assert LinkAt(a, h, es, Null, |es| - 1);
  }

  /** Nodes are aligned, contiguous and disjoint: node `k` ends, padding included, where node `k + 1`
      starts. */
  lemma Layout(h: nat, es: seq<Entry>, k: nat)
    requires HeaderSize(h) && k < |es|
    ensures Aligned(Use(h, es[..k]))
    ensures Use(h, es[..k]) + h + |es[k].desc| <= Use(h, es[..k + 1]) < Use(h, es[..k]) + h + |es[k].desc| + 4
    ensures Use(h, es[..k + 1]) <= Use(h, es)
  {
    UseIsBounded(h, es[..k]);
    UseGrows(h, es, k);
  }

  // ----- The section as the standard lays it out -----

  datatype Nit = Nit(tableId: Byte, version: Byte, number: Byte, last: Byte, networkId: U16, netDesc: seq<Byte>,
                     entries: seq<Entry>)

  /** Every length fits its 12-bit field. */
  predicate Encodable(t: Nit) {
    && |t.netDesc| < 4096 && LoopBytes(t.entries) < 4096
    && forall k :: 0 <= k < |t.entries| ==> |t.entries[k].desc| < 4096
  }

  /** Sixteen bits, most significant byte first. */
  function Put16(n: U16): seq<Byte> {
    [n / 256, n % 256]
  }

  /** A 12-bit length with its four reserved bits set. */
  function PutLen12(n: nat): seq<Byte>
    requires n < 4096
  {
    [0xF0 + n / 256, n % 256]
  }

  function EncodeEntry(e: Entry): seq<Byte>
    requires |e.desc| < 4096
  {
    Put16(e.tsId) + Put16(e.networkId) + PutLen12(|e.desc|) + e.desc
  }

  function EncodeLoop(es: seq<Entry>): seq<Byte>
    requires forall k :: 0 <= k < |es| ==> |es[k].desc| < 4096
  {
    if es == [] then [] else EncodeEntry(es[0]) + EncodeLoop(es[1..])
  }

  /** One section; `sectionLength` and the CRC are not looked at by the parser. */
  function Encode(t: Nit, sectionLength: nat, crc: seq<Byte>): seq<Byte>
    requires Encodable(t) && sectionLength < 4096
  {
    [t.tableId] + PutLen12(sectionLength) + Put16(t.networkId) + [t.version, t.number, t.last] +
    PutLen12(|t.netDesc|) + t.netDesc + PutLen12(LoopBytes(t.entries)) + EncodeLoop(t.entries) + crc
  }

  lemma {:induction false} LoopBytesFront(es: seq<Entry>)
    requires es != []
    ensures LoopBytes(es) == 6 + |es[0].desc| + LoopBytes(es[1..])
  {
    if |es| > 1 {
      var init := es[..|es| - 1];
      LoopBytesFront(init);
      assert init[1..] == es[1..][..|es| - 2];
    } else {
      assert es[..0] == [] && es[1..] == [];
    }
  }

  /** The entry just encoded is the entry read. */
  lemma EntryReadsBack(d: seq<Byte>, p: nat, e: Entry)
    requires |e.desc| < 4096 && p + 6 + |e.desc| <= |d|
    requires d[p..p + 6 + |e.desc|] == EncodeEntry(e)
    ensures Len12(d, p + 4) == |e.desc|
    ensures e == Entry(Be16(d, p), Be16(d, p + 2), d[p + 6..p + 6 + |e.desc|])
  {
    var s := EncodeEntry(e);
    assert forall j :: 0 <= j < |s| ==> d[p + j] == s[j];
    assert d[p + 6..p + 6 + |e.desc|] == s[6..];
  }

  lemma TakeHead(d: seq<Byte>, p: nat, head: seq<Byte>, tail: seq<Byte>)
    requires p <= |d| && d[p..] == head + tail
    ensures p + |head| <= |d| && d[p..p + |head|] == head && d[p + |head|..] == tail
  {
    assert d[p..p + |head|] == d[p..][..|head|];
    assert d[p + |head|..] == d[p..][|head|..];
  }

  lemma EncodeLoopSplits(es: seq<Entry>, rest: seq<Byte>)
    requires es != [] && forall k :: 0 <= k < |es| ==> |es[k].desc| < 4096
    ensures EncodeLoop(es) + rest == EncodeEntry(es[0]) + (EncodeLoop(es[1..]) + rest)
  {
    hide EncodeEntry;
  }

  lemma {:induction false} LoopReadsBack(d: seq<Byte>, p: nat, es: seq<Entry>, rest: seq<Byte>, consumed: nat)
    requires es != [] && forall k :: 0 <= k < |es| ==> |es[k].desc| < 4096
    requires p <= |d| && d[p..] == EncodeLoop(es) + rest
    ensures LoopEntries(d, p, consumed, consumed + LoopBytes(es)) == Some(es)
    decreases |es|
  {
    hide LoopEntries, LoopBytes, EncodeEntry, EncodeLoop, Len12, Be16;
    var e := es[0];
    var n := |e.desc|;
    LoopBytesFront(es);
    EntryLength(e);
    var tail := EncodeLoop(es[1..]) + rest;
    EncodeLoopSplits(es, rest);
    TakeHead(d, p, EncodeEntry(e), tail);
    EntryReadsBack(d, p, e);
    LoopFolds(d, p, consumed, consumed + LoopBytes(es), e);
    if |es| > 1 {
      LoopReadsBack(d, p + 6 + n, es[1..], rest, consumed + 6 + n);
      LoopBytesFront(es[1..]);
      assert es == [e] + es[1..];
    } else {
      NoLoopBytes();
      assert es[1..] == [] && es == [e];
    }
  }

  lemma NoLoopBytes()
    ensures LoopBytes([]) == 0
  {
  }

  lemma EntryLength(e: Entry)
    requires |e.desc| < 4096
    ensures |EncodeEntry(e)| == 6 + |e.desc|
  {
  }

  lemma LoopFolds(d: seq<Byte>, p: nat, consumed: nat, length: nat, e: Entry)
    requires p + 6 + |e.desc| <= |d| && Len12(d, p + 4) == |e.desc|
    requires e == Entry(Be16(d, p), Be16(d, p + 2), d[p + 6..p + 6 + |e.desc|])
    ensures var after := consumed + 6 + |e.desc|;
            && (after >= length ==> LoopEntries(d, p, consumed, length) == Some([e]))
            && (after < length && LoopEntries(d, p + 6 + |e.desc|, after, length).Some? ==>
                  LoopEntries(d, p, consumed, length) ==
                  Some([e] + LoopEntries(d, p + 6 + |e.desc|, after, length).value))
  {
  }

  lemma HeaderReadsBack(t: Nit, sectionLength: nat, crc: seq<Byte>, rest: seq<Byte>)
    requires Encodable(t) && sectionLength < 4096
    ensures var d := Encode(t, sectionLength, crc) + rest; var n := |t.netDesc|;
            && |d| >= 12 + n && d[6] == t.number && d[7] == t.last && Be16(d, 3) == t.networkId
            && NetDescLen(d) == n && d[10..10 + n] == t.netDesc
            && Len12(d, 10 + n) == LoopBytes(t.entries)
            && d[12 + n..] == EncodeLoop(t.entries) + (crc + rest)
  {
    hide LoopBytes, EncodeLoop;
    var n, len := |t.netDesc|, PutLen12(LoopBytes(t.entries));
    var head := [t.tableId] + PutLen12(sectionLength) + Put16(t.networkId) + [t.version, t.number, t.last] +
                PutLen12(n);
    var loop := EncodeLoop(t.entries) + (crc + rest);
    var d := Encode(t, sectionLength, crc) + rest;
    assert |head| == 10;
    assert d == head + t.netDesc + len + loop;
    FourParts(head, t.netDesc, len, loop);
    assert d[..10] == head && forall j :: 0 <= j < 10 ==> d[j] == head[j];
    assert d[10 + n] == len[0] && d[11 + n] == len[1];
  }

  lemma FourParts(a: seq<Byte>, b: seq<Byte>, c: seq<Byte>, e: seq<Byte>)
    ensures var d := a + b + c + e; var i := |a| + |b|;
            && d[..|a|] == a && d[|a|..i] == b && d[i + |c|..] == e
            && forall j :: 0 <= j < |c| ==> d[i + j] == c[j]
  {
  }

  /** Whatever follows the section in memory, its loop is read back if and only if it names at least one
      transport stream; and a section that is the last one is then read back as a whole. */
  lemma RoundTrip(t: Nit, sectionLength: nat, crc: seq<Byte>, rest: seq<Byte>, h: nat)
    requires Encodable(t) && sectionLength < 4096 && HeaderSize(h)
    ensures var d := Encode(t, sectionLength, crc) + rest;
            && |d| >= 10 && NetDescLen(d) == |t.netDesc| && d[10..10 + |t.netDesc|] == t.netDesc
            && Be16(d, 3) == t.networkId
            && (SectionEntries(d) == Some(t.entries) <==> t.entries != [])
            && (t.number == t.last && t.entries != [] ==> Parse(d, h) == Some(Tally(t.last, t.netDesc, t.entries)))
  {
    var d := Encode(t, sectionLength, crc) + rest;
    HeaderReadsBack(t, sectionLength, crc, rest);
    hide Encode;
    if t.entries != [] {
      LoopReadsBack(d, 12 + |t.netDesc|, t.entries, crc + rest, 0);
      hide Parse, LoopEntries;
      if t.number == t.last {
        SinglePass(d, h);
      }
    }
  }

  /** The entries of an encoded loop stay clear of the overflow guard: only the first one is taken without a
      look at the length, and up to any later one the loop has used less than its length. */
  lemma {:induction false} LoopBelow(d: seq<Byte>, p: nat, consumed: nat, length: nat, k: nat)
    requires LoopEntries(d, p, consumed, length).Some? && k < |LoopEntries(d, p, consumed, length).value|
    ensures var es := LoopEntries(d, p, consumed, length).value;
            && |es[k].desc| < 4096
            && (k > 0 ==> consumed + LoopBytes(es[..k]) < length)
    decreases |d| - p
  {
    hide LoopEntries, LoopBytes, Len12, Be16;
    var es := LoopEntries(d, p, consumed, length).value;
    LoopStep(d, p, consumed, length);
    if k > 0 {
      var n := Len12(d, p + 4);
      LoopBelow(d, p + 6 + n, consumed + n + 6, length, k - 1);
      LoopBytesFront(es[..k]);
      assert es[..k][1..] == es[1..][..k - 1];
      if k == 1 {
        assert es[1..][..0] == [];
        NoLoopBytes();
      }
    }
  }

  /** No loop laid out from the start of the arena reaches the overflow guard, even one whose last entry
      overshoots its length. */
  lemma LoopFits(d: seq<Byte>, p: nat, length: nat, h: nat)
    requires LoopEntries(d, p, 0, length).Some? && length < 4096 && HeaderSize(h)
    ensures Fits(h, [], LoopEntries(d, p, 0, length).value)
  {
    hide LoopEntries, Use, LoopBytes;
    var es := LoopEntries(d, p, 0, length).value;
    forall k | 0 <= k < |es|
      ensures Use(h, [] + es[..k]) + h + |es[k].desc| + 256 <= ARENA_SIZE
    {
      assert [] + es[..k] == es[..k];
      LoopBelow(d, p, 0, length, k);
      UseIsBounded(h, es[..k]);
      if k == 0 {
        assert es[..k] == [];
        NoLoopBytes();
      }
    }
  }

  /** A section taken afresh passes with its own descriptors and entries. */
  lemma FreshPass(d: seq<Byte>, h: nat, t: Tally)
    requires SectionEntries(d).Some? && HeaderSize(h) && (d[6] == 0 || (t.net == [] && t.entries == []))
    ensures Pass(d, h, t) ==
            Some(Tally(if d[6] == 0 then d[7] else t.last, d[10..10 + NetDescLen(d)], SectionEntries(d).value))
  {
    LoopFits(d, 12 + NetDescLen(d), Len12(d, 10 + NetDescLen(d)), h);
    hide Fits, LoopEntries;
    var u := Enter(d, t);
    var net, es := d[10..10 + NetDescLen(d)], SectionEntries(d).value;
    assert u.net + net == net && u.entries + es == es;
  }

  lemma SinglePass(d: seq<Byte>, h: nat)
    requires SectionEntries(d).Some? && d[6] == d[7] && HeaderSize(h)
    ensures Parse(d, h) == Some(Tally(d[7], d[10..10 + NetDescLen(d)], SectionEntries(d).value))
  {
    hide SectionEntries, Pass, PassEnd;
    FreshPass(d, h, Tally(d[7], [], []));
  }

  const ZERO_ENTRY := Entry(0, 0, [])

  predicate ZeroFrom(d: seq<Byte>, from: nat, to: nat) {
    to <= |d| && forall j :: from <= j < to ==> d[j] == 0
  }

  /** Zeros taken for a section: number 0 of 0, no descriptors, and one entry of zeros. */
  lemma ZeroSection(d: seq<Byte>, h: nat, t: Tally)
    requires ZeroFrom(d, 6, 18) && HeaderSize(h)
    ensures Passes(d, h, t) == Some(Tally(0, [], [ZERO_ENTRY]))
  {
    assert NetDescLen(d) == 0 && Len12(d, 10) == 0;
    hide LoopEntries;
    assert d[18..18] == [];
    LoopFolds(d, 12, 0, 0, ZERO_ENTRY);
    assert SectionEntries(d) == Some([ZERO_ENTRY]);
    hide SectionEntries, Pass, PassEnd;
    FreshPass(d, h, t);
    assert d[10..10] == [];
  }

  /** The entries found in a section in a zeroed slot. */
  function Found(t: Nit, crc: seq<Byte>): seq<Entry>
    requires |crc| == 4
  {
    if t.entries == [] then [Entry(Be16(crc, 0), Be16(crc, 2), [])] else t.entries
  }

  lemma FoundInSlot(t: Nit, sectionLength: nat, crc: seq<Byte>, rest: seq<Byte>)
    requires Encodable(t) && sectionLength < 4096 && |crc| == 4
    requires t.entries == [] ==> ZeroFrom(rest, 0, 2)
    ensures SectionEntries(Encode(t, sectionLength, crc) + rest) == Some(Found(t, crc))
  {
    if t.entries == [] {
      EmptyLoopReadsCrc(t, sectionLength, crc, rest);
    } else {
      RoundTrip(t, sectionLength, crc, rest, 16);
    }
  }

  /** What the parser makes of any section in a zeroed slot.  The last section of a table is found as above.
      Any other one is lost: the parser goes on at its CRC, takes the zeros for a section, and starts afresh. */
  lemma SectionInSlot(t: Nit, sectionLength: nat, crc: seq<Byte>, rest: seq<Byte>, h: nat)
    requires Encodable(t) && sectionLength < 4096 && |crc| == 4 && HeaderSize(h)
    requires t.entries == [] ==> ZeroFrom(rest, 0, 2)
    requires t.number != t.last ==> ZeroFrom(rest, 0, 20)
    ensures Parse(Encode(t, sectionLength, crc) + rest, h) ==
            Some(if t.number == t.last then Tally(t.last, t.netDesc, Found(t, crc)) else Tally(0, [], [ZERO_ENTRY]))
  {
    var d := Encode(t, sectionLength, crc) + rest;
    HeaderReadsBack(t, sectionLength, crc, rest);
    FoundInSlot(t, sectionLength, crc, rest);
    hide Encode, SectionEntries, Pass;
    if t.number == t.last {
      SinglePass(d, h);
    } else {
      var first := Tally(t.last, [], []);
      FreshPass(d, h, first);
      BehindSection(t, sectionLength, crc, rest);
      ZeroSection(d[PassEnd(d)..], h, Pass(d, h, first).value);
      hide PassEnd, Found;
    }
  }

  lemma {:induction false} EncodeLoopLength(es: seq<Entry>)
    requires forall k :: 0 <= k < |es| ==> |es[k].desc| < 4096
    ensures |EncodeLoop(es)| == LoopBytes(es)
  {
    if es == [] {
      NoLoopBytes();
    } else {
      hide LoopBytes, EncodeEntry;
      EncodeLoopLength(es[1..]);
      LoopBytesFront(es);
      EntryLength(es[0]);
    }
  }

  lemma BehindSection(t: Nit, sectionLength: nat, crc: seq<Byte>, rest: seq<Byte>)
    requires Encodable(t) && sectionLength < 4096 && |crc| == 4 && ZeroFrom(rest, 0, 20)
    ensures var d := Encode(t, sectionLength, crc) + rest;
            && SectionEntries(d).Some? && PassEnd(d) <= |d| && ZeroFrom(d[PassEnd(d)..], 6, 18)
  {
    var d := Encode(t, sectionLength, crc) + rest;
    HeaderReadsBack(t, sectionLength, crc, rest);
    FoundInSlot(t, sectionLength, crc, rest);
    EncodeLoopLength(t.entries);
    hide Encode, SectionEntries, LoopBytes, EncodeLoop;
    var p := 12 + |t.netDesc|;
    if t.entries == [] {
      NoLoopBytes();
      OneEntryBytes(Found(t, crc)[0]);
      assert d[PassEnd(d)..] == d[p..][6..] == (crc + rest)[6..];
    } else {
      assert d[PassEnd(d)..] == d[p..][LoopBytes(t.entries)..] == crc + rest;
    }
  }

  lemma OneEntryBytes(e: Entry)
    ensures LoopBytes([e]) == 6 + |e.desc|
  {
    assert [e][..0] == [];
  }

  /** With an empty loop in a zeroed slot the CRC is taken for a transport stream. */
  lemma EmptyLoopReadsCrc(t: Nit, sectionLength: nat, crc: seq<Byte>, rest: seq<Byte>)
    requires Encodable(t) && sectionLength < 4096 && t.entries == [] && |crc| == 4
    requires |rest| >= 2 && rest[0] == rest[1] == 0
    ensures SectionEntries(Encode(t, sectionLength, crc) + rest) == Some([Entry(Be16(crc, 0), Be16(crc, 2), [])])
  {
    var d := Encode(t, sectionLength, crc) + rest;
    var p := 12 + |t.netDesc|;
    HeaderReadsBack(t, sectionLength, crc, rest);
    hide Encode, LoopEntries;
    var tail := crc + rest;
    assert d[p..] == tail;
    assert d[p] == tail[0] && d[p + 1] == tail[1] && d[p + 2] == tail[2] && d[p + 3] == tail[3];
    assert d[p + 4] == tail[4] == 0 && d[p + 5] == tail[5] == 0;
    LoopFolds(d, p, 0, 0, Entry(Be16(crc, 0), Be16(crc, 2), []));
  }

  // ----- What the outer loop is for: sections one behind the other -----

  /** Sections 0, 1, ..., each naming at least one transport stream. */
  predicate IsTable(ts: seq<Nit>) {
    0 < |ts| <= 256 && forall k :: 0 <= k < |ts| ==> IsSection(ts[k], k, |ts|)
  }

  predicate IsSection(t: Nit, k: nat, total: nat) {
    Encodable(t) && t.entries != [] && t.number as nat == k && t.last as nat + 1 == total
  }

  /** The sections from number `i` on, without their CRCs. */
  function Joined(ts: seq<Nit>, i: nat, sectionLength: nat): seq<Byte>
    requires IsTable(ts) && i <= |ts| && sectionLength < 4096
    decreases |ts| - i
  {
    if i == |ts| then []
    else
      assert IsSection(ts[i], i, |ts|);
      Encode(ts[i], sectionLength, []) + Joined(ts, i + 1, sectionLength)
  }

  /** The transport streams and the network descriptors of the first `i` sections. */
  function EntriesUpto(ts: seq<Nit>, i: nat): seq<Entry>
    requires i <= |ts|
  {
    if i == 0 then [] else EntriesUpto(ts, i - 1) + ts[i - 1].entries
  }

  function NetsUpto(ts: seq<Nit>, i: nat): seq<Byte>
    requires i <= |ts|
  {
    if i == 0 then [] else NetsUpto(ts, i - 1) + ts[i - 1].netDesc
  }

  lemma {:induction false} PartsGrow(ts: seq<Nit>, i: nat, j: nat)
    requires i <= j <= |ts|
    ensures EntriesUpto(ts, i) <= EntriesUpto(ts, j) && NetsUpto(ts, i) <= NetsUpto(ts, j)
    decreases j
  {
    if i < j {
      PartsGrow(ts, i, j - 1);
    }
  }

  lemma FitsWithin(h: nat, before: seq<Entry>, es: seq<Entry>, all: seq<Entry>)
    requires HeaderSize(h) && before + es <= all && Use(h, all) + 256 <= ARENA_SIZE
    ensures Fits(h, before, es)
  {
    hide Use, NodeSize;
    forall k | 0 <= k < |es|
      ensures Use(h, before + es[..k]) + h + |es[k].desc| + 256 <= ARENA_SIZE
    {
      var m := |before| + k;
      assert before + es[..k] == all[..m] && es[k] == all[m];
      UseGrows(h, all, m);
      NodeIsBounded(h, all[m]);
    }
  }

  /** One of the sections, with the others behind it. */
  lemma JoinedPass(u: Nit, sectionLength: nat, tail: seq<Byte>, h: nat, t: Tally)
    requires Encodable(u) && u.entries != [] && sectionLength < 4096 && HeaderSize(h)
    requires var v := if u.number == 0 then Tally(u.last, [], []) else t;
             Fits(h, v.entries, u.entries) && |v.net| + |u.netDesc| <= 32512
    ensures var d := Encode(u, sectionLength, []) + tail;
            var v := if u.number == 0 then Tally(u.last, [], []) else t;
            && |d| >= 10 && d[6] == u.number
            && Pass(d, h, t) == Some(Tally(v.last, v.net + u.netDesc, v.entries + u.entries))
            && PassEnd(d) <= |d| && d[PassEnd(d)..] == tail
  {
    var d := Encode(u, sectionLength, []) + tail;
    HeaderReadsBack(u, sectionLength, [], tail);
    RoundTrip(u, sectionLength, [], tail, h);
    EncodeLoopLength(u.entries);
    hide Encode, SectionEntries, LoopBytes, EncodeLoop, Fits;
    var p := 12 + |u.netDesc|;
    assert [] + tail == tail;
    assert d[PassEnd(d)..] == d[p..][LoopBytes(u.entries)..] == tail;
  }

  /** What the table asks of the arenas. */
  predicate HasRoom(ts: seq<Nit>, h: nat) {
    Use(h, EntriesUpto(ts, |ts|)) + 256 <= 32768 && |NetsUpto(ts, |ts|)| <= 32512
  }

  /** The sections before number `i` have been gathered. */
  predicate Gathered(ts: seq<Nit>, i: nat, t: Tally)
    requires i <= |ts|
  {
    && t.last as nat + 1 == |ts|
    && (i > 0 ==> t.entries == EntriesUpto(ts, i) && t.net == NetsUpto(ts, i))
  }

  lemma JoinedSplits(ts: seq<Nit>, i: nat, sectionLength: nat, rest: seq<Byte>)
    requires IsTable(ts) && i < |ts| && sectionLength < 4096
    ensures IsSection(ts[i], i, |ts|)
    ensures Joined(ts, i, sectionLength) + rest ==
            Encode(ts[i], sectionLength, []) + (Joined(ts, i + 1, sectionLength) + rest)
  {
    hide Encode, Encodable;
  }

  lemma UptoNext(ts: seq<Nit>, i: nat)
    requires i < |ts|
    ensures i == 0 ==> EntriesUpto(ts, i) == [] && NetsUpto(ts, i) == []
    ensures EntriesUpto(ts, i + 1) == EntriesUpto(ts, i) + ts[i].entries
    ensures NetsUpto(ts, i + 1) == NetsUpto(ts, i) + ts[i].netDesc
  {
  }

  lemma GatherOne(ts: seq<Nit>, i: nat, sectionLength: nat, rest: seq<Byte>, h: nat, t: Tally)
    requires IsTable(ts) && i < |ts| && sectionLength < 4096 && HeaderSize(h) && HasRoom(ts, h) && Gathered(ts, i, t)
    ensures var d := Joined(ts, i, sectionLength) + rest;
            && |d| >= 10 && d[6] as nat == i
            && Pass(d, h, t) == Some(Tally(t.last, NetsUpto(ts, i + 1), EntriesUpto(ts, i + 1)))
            && PassEnd(d) <= |d| && d[PassEnd(d)..] == Joined(ts, i + 1, sectionLength) + rest
  {
    hide Joined, Encode, EntriesUpto, NetsUpto, Use, Fits, Pass, PassEnd, Encodable, SectionEntries, IsTable;
    var u := ts[i];
    JoinedSplits(ts, i, sectionLength, rest);
    UptoNext(ts, i);
    PartsGrow(ts, i + 1, |ts|);
    var tail := Joined(ts, i + 1, sectionLength) + rest;
    FitsWithin(h, EntriesUpto(ts, i), u.entries, EntriesUpto(ts, |ts|));
    JoinedPass(u, sectionLength, tail, h, t);
  }

  lemma {:induction false} GatherFrom(ts: seq<Nit>, i: nat, sectionLength: nat, rest: seq<Byte>, h: nat, t: Tally)
    requires IsTable(ts) && i < |ts| && sectionLength < 4096 && HeaderSize(h) && HasRoom(ts, h) && Gathered(ts, i, t)
    ensures Passes(Joined(ts, i, sectionLength) + rest, h, t) ==
            Some(Tally(t.last, NetsUpto(ts, |ts|), EntriesUpto(ts, |ts|)))
    decreases |ts| - i
  {
    hide Joined, EntriesUpto, NetsUpto, Pass, PassEnd, SectionEntries, HasRoom, IsTable;
    GatherOne(ts, i, sectionLength, rest, h, t);
    if i + 1 < |ts| {
      GatherFrom(ts, i + 1, sectionLength, rest, h, Tally(t.last, NetsUpto(ts, i + 1), EntriesUpto(ts, i + 1)));
    }
  }

  /** Sections with no CRC between them are gathered by the outer loop: all network descriptors, and all transport
      streams in one chain, as long as they fit. */
  lemma SectionsGathered(ts: seq<Nit>, sectionLength: nat, rest: seq<Byte>, h: nat)
    requires IsTable(ts) && sectionLength < 4096 && HeaderSize(h) && HasRoom(ts, h)
    ensures Parse(Joined(ts, 0, sectionLength) + rest, h) ==
            Some(Tally(ts[0].last, NetsUpto(ts, |ts|), EntriesUpto(ts, |ts|)))
  {
    FirstOfTable(ts, sectionLength, rest);
    hide Joined, EntriesUpto, NetsUpto, Passes, HasRoom, IsTable;
    GatherFrom(ts, 0, sectionLength, rest, h, Tally(ts[0].last, [], []));
  }

  lemma FirstOfTable(ts: seq<Nit>, sectionLength: nat, rest: seq<Byte>)
    requires IsTable(ts) && sectionLength < 4096
    ensures var d := Joined(ts, 0, sectionLength) + rest; |d| >= 10 && d[7] == ts[0].last
    ensures ts[0].last as nat + 1 == |ts|
  {
    hide Joined, Encode, Encodable;
    JoinedSplits(ts, 0, sectionLength, rest);
    HeaderReadsBack(ts[0], sectionLength, [], Joined(ts, 1, sectionLength) + rest);
  }

  /** The room in the two arenas of 32768 bytes: 256 bytes at the end of either are never used. */
  lemma ArenaLimits(h: nat, before: seq<Entry>, es: seq<Entry>, net: seq<Byte>, more: seq<Byte>)
    requires HeaderSize(h)
    ensures AddNet(net, more) == if |net| + |more| <= 32512 then net + more else net
    ensures Fits(h, before, es) <==>
            forall k :: 0 <= k < |es| ==> Use(h, before + es[..k]) + h + |es[k].desc| <= 32512
  {
    hide Use;
  }

  /** A loop that fits its length field uses at most four times its own length, so at most half the arena. */
  lemma ArenaNeverFills(t: Nit, h: nat)
    requires Encodable(t) && HeaderSize(h)
    ensures Use(h, t.entries) <= 4 * LoopBytes(t.entries) <= 16380
  {
    UseIsBounded(h, t.entries);
  }

  lemma {:induction false} LoopInBounds(d: seq<Byte>, p: nat, consumed: nat, length: nat)
    requires consumed <= length && p + (length - consumed) + 6 + 4095 <= |d|
    ensures LoopEntries(d, p, consumed, length).Some?
    decreases |d| - p
  {
    var n := Len12(d, p + 4);
    if consumed + n + 6 < length {
      LoopInBounds(d, p + 6 + n, consumed + n + 6, length);
    }
  }

  /** The lengths a section can declare never lead more than 12303 bytes away from its start. */
  lemma LongBufferIsReadable(d: seq<Byte>, h: nat)
    requires |d| >= 12303 && HeaderSize(h)
    ensures SectionEntries(d).Some? && (d[6] == d[7] ==> Readable(d, h))
  {
    var n := NetDescLen(d);
    LoopInBounds(d, 12 + n, 0, Len12(d, 10 + n));
    hide Parse;
    if d[6] == d[7] {
      SinglePass(d, h);
    }
  }
}
