/** The programme database: two static arrays of fixed-size records with their counters, searched
    linearly, and saved to and restored from a byte stream.

    Records are the raw bytes of the C structures, so that saving and restoring are what they are in
    the code: two little-endian length words followed by the two arrays' bytes. */
module ProgramDb {
  import opened Types

  const PROG_SIZE := 108
  const MAX_PROGS := 200
  const FE_SIZE := 276
  const MAX_FES := 30
  const PROG_BYTES := PROG_SIZE * MAX_PROGS
  const FE_BYTES := FE_SIZE * MAX_FES

  /** `DB_PROGRAM_S` and `DB_FRONTEND_S`. */
  type Prog = r: seq<Byte> | |r| == PROG_SIZE witness Zeros(PROG_SIZE)
  type Frontend = r: seq<Byte> | |r| == FE_SIZE witness Zeros(FE_SIZE)

  function Zeros(n: nat): (s: seq<Byte>)
    ensures |s| == n && forall i :: 0 <= i < n ==> s[i] == 0
  {
    if n == 0 then [] else Zeros(n - 1) + [0]
  }

  /** `u16ServiceID`. */
  function ServiceId(r: Prog): U16 {
    r[6] as int + 256 * (r[7] as int)
  }

  /** `eFEType == FE_TYPE_RF`. */
  predicate IsRf(r: Frontend) {
    r[0..4] == [1, 0, 0, 0]
  }

  /** Frequency, symbol rate and modulation of the RF view of the record. */
  function RfKey(r: Frontend): seq<Byte> {
    r[12..24]
  }

  // ----- The state -----

  datatype Db = Db(progMem: seq<Byte>, progCount: nat, feMem: seq<Byte>, feCount: nat)

  predicate Sized(db: Db) {
    |db.progMem| == PROG_BYTES && |db.feMem| == FE_BYTES
  }

  predicate Shaped(db: Db) {
    Sized(db) && db.progCount <= MAX_PROGS && db.feCount <= MAX_FES
  }

  function ProgAt(mem: seq<Byte>, i: nat): Prog
    requires |mem| == PROG_BYTES && i < MAX_PROGS
  {
    mem[i * PROG_SIZE..(i + 1) * PROG_SIZE]
  }

  function FeAt(mem: seq<Byte>, i: nat): Frontend
    requires |mem| == FE_BYTES && i < MAX_FES
  {
    mem[i * FE_SIZE..(i + 1) * FE_SIZE]
  }

  /** The live programmes, in order. */
  function Progs(db: Db): (s: seq<Prog>)
    requires Shaped(db)
    ensures |s| == db.progCount && forall i :: 0 <= i < |s| ==> s[i] == ProgAt(db.progMem, i)
  {
    seq(db.progCount, i requires 0 <= i < db.progCount => ProgAt(db.progMem, i))
  }

  function Fes(db: Db): (s: seq<Frontend>)
    requires Shaped(db)
    ensures |s| == db.feCount && forall i :: 0 <= i < |s| ==> s[i] == FeAt(db.feMem, i)
  {
    seq(db.feCount, i requires 0 <= i < db.feCount => FeAt(db.feMem, i))
  }

  /** `memcpy` of `r` to offset `p`. */
  function Write(mem: seq<Byte>, p: nat, r: seq<Byte>): (m: seq<Byte>)
    requires p + |r| <= |mem|
    ensures |m| == |mem|
  {
    mem[..p] + r + mem[p + |r|..]
  }

  // ----- Specification of the operations -----

  function FindId(ps: seq<Prog>, id: U16): (i: nat)
    ensures i <= |ps|
    ensures i < |ps| ==> ServiceId(ps[i]) == id
    ensures forall j :: 0 <= j < i ==> ServiceId(ps[j]) != id
  {
    if ps == [] || ServiceId(ps[0]) == id then 0 else 1 + FindId(ps[1..], id)
  }

  function FindRf(fs: seq<Frontend>, key: seq<Byte>): (i: nat)
    ensures i <= |fs|
    ensures i < |fs| ==> RfKey(fs[i]) == key
    ensures forall j :: 0 <= j < i ==> RfKey(fs[j]) != key
  {
    if fs == [] || RfKey(fs[0]) == key then 0 else 1 + FindRf(fs[1..], key)
  }

  /** `Existing` carries an index, `Added` the new count. */
  datatype AddResult = Failure | Existing(index: nat) | Added(count: nat)

  function AddProg(db: Db, r: Prog): (Db, AddResult)
    requires Shaped(db)
  {
    if db.progCount >= MAX_PROGS - 1 then (db, Failure)
    else
      var i := FindId(Progs(db), ServiceId(r));
      if i < db.progCount then (db, Existing(i))
      else (db.(progMem := Write(db.progMem, db.progCount * PROG_SIZE, r), progCount := db.progCount + 1),
            Added(db.progCount + 1))
  }

  /** Index and record of the first live programme with the given service ID. */
  function Lookup(db: Db, id: U16): Option<(nat, Prog)>
    requires Shaped(db)
  {
    var i := FindId(Progs(db), id);
    if i < db.progCount then Some((i, ProgAt(db.progMem, i))) else None
  }

  /** Overwrites any of the 200 records, live or not. */
  function SetProg(db: Db, n: nat, r: Prog): (Db, bool)
    requires Shaped(db)
  {
    if n >= MAX_PROGS then (db, false) else (db.(progMem := Write(db.progMem, n * PROG_SIZE, r)), true)
  }

  /** Only an RF record is compared, and it is compared with the RF view of every live record. */
  function AddFe(db: Db, r: Frontend): (Db, AddResult)
    requires Shaped(db)
  {
    if db.feCount >= MAX_FES then (db, Failure)
    else
      var i := if IsRf(r) then FindRf(Fes(db), RfKey(r)) else db.feCount;
      if i < db.feCount then (db, Existing(i))
      else (db.(feMem := Write(db.feMem, db.feCount * FE_SIZE, r), feCount := db.feCount + 1), Added(db.feCount))
  }

  /** The `memset`s clear one record of each array. */
  function Reset(db: Db): Db
    requires Shaped(db)
  {
    Db(Write(db.progMem, 0, Zeros(PROG_SIZE)), 0, Write(db.feMem, 0, Zeros(FE_SIZE)), 0)
  }

  function Put32(n: U32): (s: seq<Byte>)
    ensures |s| == 4
  {
    [n % 256, n / 256 % 256, n / 0x1_0000 % 256, n / 0x100_0000]
  }

  function Get32(s: seq<Byte>): U32
    requires |s| == 4
  {
    s[0] as int + 256 * (s[1] as int) + 0x1_0000 * (s[2] as int) + 0x100_0000 * (s[3] as int)
  }

  function Save(db: Db): seq<Byte>
    requires Shaped(db)
  {
    Put32(db.progCount * PROG_SIZE) + Put32(db.feCount * FE_SIZE) +
    db.progMem[..db.progCount * PROG_SIZE] + db.feMem[..db.feCount * FE_SIZE]
  }

  /** `fread(mem, 1, n, stream)` delivers as many bytes as there are, at most `n`. */
  function Delivered(n: nat, stream: seq<Byte>): nat {
    if n <= |stream| then n else |stream|
  }

  function ReadInto(mem: seq<Byte>, n: nat, stream: seq<Byte>): (r: (seq<Byte>, seq<Byte>))
    requires Delivered(n, stream) <= |mem|
    ensures |r.0| == |mem|
  {
    var k := Delivered(n, stream);
    (stream[..k] + mem[k..], stream[k..])
  }

  /** Reads a length word into a variable that holds `junk`. */
  function ReadWord(junk: U32, stream: seq<Byte>): (U32, seq<Byte>) {
    var (word, rest) := ReadInto(Put32(junk), 4, stream);
    (Get32(word), rest)
  }

  /** The two lengths, and what follows them. */
  function ReadLengths(stream: seq<Byte>, junk: (U32, U32)): (U32, U32, seq<Byte>) {
    var (progSize, rest) := ReadWord(junk.0, stream);
    var (feSize, rest') := ReadWord(junk.1, rest);
    (progSize, feSize, rest')
  }

  /** The two length variables hold `junk` before they are read. `None` if more bytes are delivered than one of
      the arrays can take. */
  function Restore(db: Db, stream: seq<Byte>, junk: (U32, U32)): (r: Option<Db>)
    requires Sized(db)
    ensures r.Some? ==> Sized(r.value)
  {
    var (progSize, feSize, rest) := ReadLengths(stream, junk);
    RestoreBodies(db, progSize, feSize, rest)
  }

  function RestoreBodies(db: Db, progSize: U32, feSize: U32, stream: seq<Byte>): (r: Option<Db>)
    requires Sized(db)
    ensures r.Some? ==> Sized(r.value)
  {
    if Delivered(progSize, stream) > PROG_BYTES then None
    else
      var (progMem, rest) := ReadInto(db.progMem, progSize, stream);
      if Delivered(feSize, rest) > FE_BYTES then None
      else
        var (feMem, _) := ReadInto(db.feMem, feSize, rest);
        Some(Db(progMem, progSize / PROG_SIZE, feMem, feSize / FE_SIZE))
  }

  // ----- The invariant: an ordered map from service IDs to records -----

  predicate DistinctIds(ps: seq<Prog>) {
    forall i, j :: 0 <= i < j < |ps| ==> ServiceId(ps[i]) != ServiceId(ps[j])
  }

  predicate Consistent(db: Db) {
    Shaped(db) && db.progCount <= MAX_PROGS - 1 && DistinctIds(Progs(db))
  }

  lemma WriteProg(mem: seq<Byte>, n: nat, r: Prog)
    requires |mem| == PROG_BYTES && n < MAX_PROGS
    ensures ProgAt(Write(mem, n * PROG_SIZE, r), n) == r
    ensures forall i :: 0 <= i < MAX_PROGS && i != n ==> ProgAt(Write(mem, n * PROG_SIZE, r), i) == ProgAt(mem, i)
  {
    var m := Write(mem, n * PROG_SIZE, r);
    forall i | 0 <= i < MAX_PROGS && i != n
      ensures ProgAt(m, i) == ProgAt(mem, i)
    {
      assert forall k :: i * PROG_SIZE <= k < (i + 1) * PROG_SIZE ==> m[k] == mem[k];
    }
  }

  lemma WriteFe(mem: seq<Byte>, n: nat, r: Frontend)
    requires |mem| == FE_BYTES && n < MAX_FES
    ensures FeAt(Write(mem, n * FE_SIZE, r), n) == r
    ensures forall i :: 0 <= i < MAX_FES && i != n ==> FeAt(Write(mem, n * FE_SIZE, r), i) == FeAt(mem, i)
  {
    var m := Write(mem, n * FE_SIZE, r);
    forall i | 0 <= i < MAX_FES && i != n
      ensures FeAt(m, i) == FeAt(mem, i)
    {
      assert forall k :: i * FE_SIZE <= k < (i + 1) * FE_SIZE ==> m[k] == mem[k];
    }
  }

  /** Below the limit, `Add` appends a record with a new service ID and changes nothing for a known one;
      at 199 records it fails. */
  lemma AddProgEffect(db: Db, r: Prog)
    requires Consistent(db)
    ensures var (u, result) := AddProg(db, r);
            && Consistent(u) && u.feMem == db.feMem && u.feCount == db.feCount
            && (result.Failure? <==> db.progCount == 199)
            && (result.Added? <==> db.progCount < 199 && Lookup(db, ServiceId(r)).None?)
            && (result.Added? ==> Progs(u) == Progs(db) + [r] && result.count == |Progs(u)|)
            && (!result.Added? ==> u == db)
            && (result.Existing? ==> Lookup(db, ServiceId(r)).Some? && Lookup(db, ServiceId(r)).value.0 == result.index)
  {
    hide FindId, ServiceId, Write, ProgAt;
    if db.progCount < MAX_PROGS - 1 {
      WriteProg(db.progMem, db.progCount, r);
      assert Progs(AddProg(db, r).0) == if AddProg(db, r).1.Added? then Progs(db) + [r] else Progs(db);
    }
  }

  /** A look-up finds the one live record with that service ID, if there is one. */
  lemma LookupExact(db: Db, id: U16, i: nat)
    requires Consistent(db)
    ensures (Lookup(db, id).Some? && Lookup(db, id).value.0 == i) <==>
            (i < db.progCount && ServiceId(Progs(db)[i]) == id)
    ensures Lookup(db, id).Some? ==>
              Lookup(db, id).value.0 < db.progCount && Lookup(db, id).value.1 == Progs(db)[Lookup(db, id).value.0]
  {
    hide FindId, ServiceId, ProgAt;
    var k := FindId(Progs(db), id);
    assert i < db.progCount && k < db.progCount && i != k ==> ServiceId(Progs(db)[i]) != ServiceId(Progs(db)[k]);
  }

  /** `Set` keeps the IDs distinct exactly when it writes behind the live records or the new ID is not
      that of another live record; an ID-preserving `Set` is a special case. */
  lemma SetProgKeepsExactly(db: Db, n: nat, r: Prog)
    requires Consistent(db) && n < MAX_PROGS
    ensures Consistent(SetProg(db, n, r).0) <==>
            n >= db.progCount || forall k :: 0 <= k < db.progCount && k != n ==> ServiceId(Progs(db)[k]) != ServiceId(r)
    ensures Progs(SetProg(db, n, r).0) == if n < db.progCount then Progs(db)[n := r] else Progs(db)
  {
    hide ServiceId, Write, ProgAt;
    var u := SetProg(db, n, r).0;
    WriteProg(db.progMem, n, r);
    assert Progs(u) == if n < db.progCount then Progs(db)[n := r] else Progs(db);
    var ps, us := Progs(db), Progs(u);
    if n < db.progCount {
      if k :| 0 <= k < |ps| && k != n && ServiceId(ps[k]) == ServiceId(r) {
        assert us[k] == ps[k] && us[n] == r;
        assert !DistinctIds(us);
      }
    }
  }

  /** `Set` writes any of the 200 records, live or not, and that record only; it refuses higher numbers. */
  lemma SetProgEffect(db: Db, n: nat, r: Prog)
    requires Shaped(db)
    ensures var (u, ok) := SetProg(db, n, r);
            && Shaped(u) && (ok <==> n < 200) && u.progCount == db.progCount
            && u.feMem == db.feMem && u.feCount == db.feCount
            && forall i :: 0 <= i < 200 ==> ProgAt(u.progMem, i) == if i == n then r else ProgAt(db.progMem, i)
  {
    hide ProgAt, Write;
    if n < MAX_PROGS {
      WriteProg(db.progMem, n, r);
    }
  }

  const FIRST: Prog := Zeros(PROG_SIZE)
  const SECOND: Prog := Zeros(PROG_SIZE)[6 := 1]

  lemma TwoIds()
    ensures ServiceId(FIRST) == 0 && ServiceId(SECOND) == 1
  {
  }

  lemma AddToEmpty(db: Db)
    requires Shaped(db) && db.progCount == 0
    ensures var one := AddProg(db, FIRST).0; Consistent(one) && Progs(one) == [FIRST]
  {
    hide Zeros, ServiceId, Write, ProgAt, FindId;
    assert Progs(db) == [];
    AddProgEffect(db, FIRST);
  }

  lemma AddSecond(db: Db)
    requires Consistent(db) && Progs(db) == [FIRST]
    ensures var two := AddProg(db, SECOND).0; Consistent(two) && Progs(two) == [FIRST, SECOND]
  {
    TwoIds();
    hide Zeros, ServiceId, Write, ProgAt, FindId;
    AddProgEffect(db, SECOND);
    assert Progs(db)[0] == FIRST;
  }

  /** Two programmes are added, and the second is then overwritten with the first: both live records
      have service ID 0, and the look-up finds the first only. */
  lemma SetDuplicatesId(db: Db)
    requires Shaped(db) && db.progCount == 0
    ensures var two := AddProg(AddProg(db, FIRST).0, SECOND).0; var u := SetProg(two, 1, FIRST).0;
            && Consistent(two) && Progs(two) == [FIRST, SECOND]
            && Progs(u) == [FIRST, FIRST] && !Consistent(u) && Lookup(u, 0) == Some((0, FIRST))
  {
    AddToEmpty(db);
    var one := AddProg(db, FIRST).0;
    AddSecond(one);
    var two := AddProg(one, SECOND).0;
    TwoIds();
    hide Zeros, ServiceId, Write, ProgAt, FindId, AddProg, DistinctIds;
    SetProgKeepsExactly(two, 1, FIRST);
    assert Progs(two)[0] == FIRST;
    assert Progs(SetProg(two, 1, FIRST).0)[0] == FIRST;
  }

  /** The frontend list is untouched by programme operations and grows only by `AddFe`. */
  lemma AddFeEffect(db: Db, r: Frontend)
    requires Shaped(db)
    ensures var (u, result) := AddFe(db, r);
            && Shaped(u) && u.progMem == db.progMem && u.progCount == db.progCount
            && (result.Failure? <==> db.feCount == 30)
            && (result.Added? <==>
                  && db.feCount < 30
                  && (IsRf(r) ==> forall k :: 0 <= k < db.feCount ==> RfKey(Fes(db)[k]) != RfKey(r)))
            && (result.Added? ==> Fes(u) == Fes(db) + [r] && result.count == |Fes(db)|)
            && (!result.Added? ==> u == db)
            && (result.Existing? ==> result.index < db.feCount && RfKey(Fes(db)[result.index]) == RfKey(r))
  {
    hide FindRf, RfKey, IsRf, Write, FeAt;
    if db.feCount < MAX_FES {
      WriteFe(db.feMem, db.feCount, r);
      assert Fes(AddFe(db, r).0) == if AddFe(db, r).1.Added? then Fes(db) + [r] else Fes(db);
    }
  }

  /** Reset empties both lists. Of the memory it clears the first record of each array and nothing else. */
  lemma ResetEffect(db: Db)
    requires Shaped(db)
    ensures var u := Reset(db);
            && Consistent(u) && Progs(u) == [] && Fes(u) == []
            && (forall j :: 0 <= j < PROG_BYTES ==> u.progMem[j] == if j < PROG_SIZE then 0 else db.progMem[j])
            && (forall j :: 0 <= j < FE_BYTES ==> u.feMem[j] == if j < FE_SIZE then 0 else db.feMem[j])
  {
  }

  // ----- The records as the compiler lays them out -----

  function Put16(n: U16): (s: seq<Byte>)
    ensures |s| == 2
  {
    [n % 256, n / 256]
  }

  /** `DB_PROGRAM_S`: four 16-bit numbers and a hundred bytes of other fields and padding. */
  datatype Program = Program(frontendId: U16, networkId: U16, tsId: U16, serviceId: U16, others: seq<Byte>)

  function ProgRecord(f: Program): Prog
    requires |f.others| == 100
  {
    Put16(f.frontendId) + Put16(f.networkId) + Put16(f.tsId) + Put16(f.serviceId) + f.others
  }

  lemma ServiceIdField(f: Program)
    requires |f.others| == 100
    ensures ServiceId(ProgRecord(f)) == f.serviceId
  {
  }

  /** `DB_FRONTEND_S`: type, two 16-bit numbers, and the union, the RF view of which has four words. */
  datatype Channel = Channel(feType: U32, networkId: U16, tsId: U16, tunerPort: U32, frequency: U32, symbolRate: U32,
                             modulation: U32, others: seq<Byte>)

  function FeRecord(f: Channel): Frontend
    requires |f.others| == 252
  {
    Put32(f.feType) + Put16(f.networkId) + Put16(f.tsId) + Put32(f.tunerPort) +
    (Put32(f.frequency) + Put32(f.symbolRate) + Put32(f.modulation)) + f.others
  }

  lemma Put32Injective(m: U32, n: U32)
    ensures Put32(m) == Put32(n) <==> m == n
  {
    hide Put32, Get32;
    Put32Get32(m);
    Put32Get32(n);
  }

  lemma LittleEndian()
    ensures Put32(0x0403_0201) == [1, 2, 3, 4] && Put32(1) == [1, 0, 0, 0]
  {
  }

  lemma FeFields(f: Channel)
    requires |f.others| == 252
    ensures FeRecord(f)[0..4] == Put32(f.feType)
    ensures RfKey(FeRecord(f)) == Put32(f.frequency) + Put32(f.symbolRate) + Put32(f.modulation)
  {
    hide Put32, Put16;
    var key := Put32(f.frequency) + Put32(f.symbolRate) + Put32(f.modulation);
    var head := Put32(f.feType) + Put16(f.networkId) + Put16(f.tsId) + Put32(f.tunerPort);
    assert |head| == 12 && FeRecord(f) == head + key + f.others;
  }

  /** Channels are compared by frequency, symbol rate and modulation, and by nothing else. */
  lemma RfFields(f: Channel, g: Channel)
    requires |f.others| == |g.others| == 252
    ensures IsRf(FeRecord(f)) <==> f.feType == 1
    ensures RfKey(FeRecord(f)) == RfKey(FeRecord(g)) <==>
            f.frequency == g.frequency && f.symbolRate == g.symbolRate && f.modulation == g.modulation
  {
    FeFields(f);
    FeFields(g);
    LittleEndian();
    hide Put32, FeRecord, RfKey;
    Put32Injective(f.feType, 1);
    var a, b := Put32(f.frequency), Put32(g.frequency);
    var c, d := Put32(f.symbolRate), Put32(g.symbolRate);
    var k, l := Put32(f.modulation), Put32(g.modulation);
    Put32Injective(f.frequency, g.frequency);
    Put32Injective(f.symbolRate, g.symbolRate);
    Put32Injective(f.modulation, g.modulation);
    assert a == (a + c + k)[..4] && c == (a + c + k)[4..8] && k == (a + c + k)[8..];
    assert b == (b + d + l)[..4] && d == (b + d + l)[4..8] && l == (b + d + l)[8..];
  }

  // ----- Save and restore -----

  lemma Put32Get32(n: U32)
    ensures Get32(Put32(n)) == n
  {
    var a := n / 256;
    var b := a / 256;
    assert n == 256 * a + n % 256 && a == 256 * b + a % 256 && b == 256 * (b / 256) + b % 256;
    assert n / 0x1_0000 == b && n / 0x100_0000 == b / 256;
  }

  /** Equal live bytes, equal live records. */
  lemma SamePrefixSameProgs(a: seq<Byte>, b: seq<Byte>, n: nat)
    requires |a| == |b| == PROG_BYTES && n <= MAX_PROGS && a[..n * PROG_SIZE] == b[..n * PROG_SIZE]
    ensures forall i :: 0 <= i < n ==> ProgAt(a, i) == ProgAt(b, i)
  {
    assert forall k :: 0 <= k < n * PROG_SIZE ==> a[k] == a[..n * PROG_SIZE][k] == b[k];
  }

  lemma SamePrefixSameFes(a: seq<Byte>, b: seq<Byte>, n: nat)
    requires |a| == |b| == FE_BYTES && n <= MAX_FES && a[..n * FE_SIZE] == b[..n * FE_SIZE]
    ensures forall i :: 0 <= i < n ==> FeAt(a, i) == FeAt(b, i)
  {
    assert forall k :: 0 <= k < n * FE_SIZE ==> a[k] == a[..n * FE_SIZE][k] == b[k];
  }

  lemma ReadWholeWord(n: U32, rest: seq<Byte>, junk: U32)
    ensures ReadWord(junk, Put32(n) + rest) == (n, rest)
  {
    hide Put32, Get32;
    var s := Put32(n) + rest;
    assert s[..4] + Put32(junk)[4..] == Put32(n) && s[4..] == rest;
    Put32Get32(n);
  }

  /** With both length words there, what the variables held before does not matter. */
  lemma ReadBothLengths(p: U32, f: U32, rest: seq<Byte>, junk: (U32, U32))
    ensures ReadLengths(Put32(p) + Put32(f) + rest, junk) == (p, f, rest)
  {
    hide ReadWord, Put32;
    assert Put32(p) + Put32(f) + rest == Put32(p) + (Put32(f) + rest);
    ReadWholeWord(p, Put32(f) + rest, junk.0);
    ReadWholeWord(f, rest, junk.1);
  }

  /** The bytes of both arrays that are live. */
  function LiveBytes(db: Db): seq<Byte>
    requires Shaped(db)
  {
    db.progMem[..db.progCount * PROG_SIZE] + db.feMem[..db.feCount * FE_SIZE]
  }

  /** The first `k` live bytes of `db`, and behind them what `prior` has in their place. */
  function Overlaid(prior: Db, db: Db, k: nat): Db
    requires Shaped(db) && Sized(prior) && k <= |LiveBytes(db)|
  {
    var p := db.progCount * PROG_SIZE;
    var n, m := Delivered(p, LiveBytes(db)[..k]), if k <= p then 0 else k - p;
    Db(db.progMem[..n] + prior.progMem[n..], db.progCount, db.feMem[..m] + prior.feMem[m..], db.feCount)
  }

  /** A save cut off behind `k` of its live bytes is restored all the same: with both counts, and with the records
      of the prior state in the place of those that are missing. */
  lemma CutSave(db: Db, prior: Db, k: nat, junk: (U32, U32))
    requires Shaped(db) && Sized(prior) && k <= |LiveBytes(db)|
    ensures Restore(prior, Save(db)[..8 + k], junk) == Some(Overlaid(prior, db, k))
  {
    hide Put32, Get32, ReadLengths;
    var p, f := db.progCount * PROG_SIZE, db.feCount * FE_SIZE;
    var live := LiveBytes(db);
    var rest := live[..k];
    assert Save(db)[..8 + k] == Put32(p) + Put32(f) + rest;
    ReadBothLengths(p, f, rest, junk);
    var n := Delivered(p, rest);
    assert rest[..n] == db.progMem[..n];
    var m := if k <= p then 0 else k - p;
    assert rest[n..] == db.feMem[..m] && Delivered(f, rest[n..]) == m;
    assert rest[n..][..m] == db.feMem[..m];
    assert ReadInto(prior.progMem, p, rest) == (Overlaid(prior, db, k).progMem, rest[n..]);
    assert ReadInto(prior.feMem, f, rest[n..]).0 == Overlaid(prior, db, k).feMem;
  }

  lemma SameProgsSamePrefix(a: seq<Byte>, b: seq<Byte>, n: nat)
    requires |a| == |b| == PROG_BYTES && n <= MAX_PROGS && forall i :: 0 <= i < n ==> ProgAt(a, i) == ProgAt(b, i)
    ensures a[..n * PROG_SIZE] == b[..n * PROG_SIZE]
  {
    forall j | 0 <= j < n * PROG_SIZE
      ensures a[j] == b[j]
    {
      var i := j / PROG_SIZE;
      assert a[j] == ProgAt(a, i)[j - i * PROG_SIZE];
      assert b[j] == ProgAt(b, i)[j - i * PROG_SIZE];
    }
  }

  lemma SameFesSamePrefix(a: seq<Byte>, b: seq<Byte>, n: nat)
    requires |a| == |b| == FE_BYTES && n <= MAX_FES && forall i :: 0 <= i < n ==> FeAt(a, i) == FeAt(b, i)
    ensures a[..n * FE_SIZE] == b[..n * FE_SIZE]
  {
    forall j | 0 <= j < n * FE_SIZE
      ensures a[j] == b[j]
    {
      var i := j / FE_SIZE;
      assert a[j] == FeAt(a, i)[j - i * FE_SIZE];
      assert b[j] == FeAt(b, i)[j - i * FE_SIZE];
    }
  }

  /** Equal live bytes, equal lists. */
  lemma ListsAreBytes(a: Db, b: Db)
    requires Shaped(a) && Shaped(b) && a.progCount == b.progCount && a.feCount == b.feCount
    ensures Progs(a) == Progs(b) && Fes(a) == Fes(b) <==> LiveBytes(a) == LiveBytes(b)
  {
    hide ProgAt, FeAt;
    var p, f := a.progCount * PROG_SIZE, a.feCount * FE_SIZE;
    if LiveBytes(a) == LiveBytes(b) {
      assert a.progMem[..p] == LiveBytes(a)[..p] == LiveBytes(b)[..p] == b.progMem[..p];
      assert a.feMem[..f] == LiveBytes(a)[p..] == LiveBytes(b)[p..] == b.feMem[..f];
      SamePrefixSameProgs(a.progMem, b.progMem, a.progCount);
      SamePrefixSameFes(a.feMem, b.feMem, a.feCount);
    }
    if Progs(a) == Progs(b) && Fes(a) == Fes(b) {
      forall i | 0 <= i < a.progCount
        ensures ProgAt(a.progMem, i) == ProgAt(b.progMem, i)
      {
        assert Progs(a)[i] == Progs(b)[i];
      }
      forall i | 0 <= i < a.feCount
        ensures FeAt(a.feMem, i) == FeAt(b.feMem, i)
      {
        assert Fes(a)[i] == Fes(b)[i];
      }
      SameProgsSamePrefix(a.progMem, b.progMem, a.progCount);
      SameFesSamePrefix(a.feMem, b.feMem, a.feCount);
    }
  }

  lemma OverlaidBytes(prior: Db, db: Db, k: nat)
    requires Shaped(db) && Sized(prior) && k <= |LiveBytes(db)|
    ensures var was := prior.(progCount := db.progCount, feCount := db.feCount);
            LiveBytes(Overlaid(prior, db, k)) == LiveBytes(db)[..k] + LiveBytes(was)[k..]
  {
    var p, f := db.progCount * PROG_SIZE, db.feCount * FE_SIZE;
    var n, m := if k <= p then k else p, if k <= p then 0 else k - p;
    SpliceFront(db.progMem, prior.progMem, n, p);
    SpliceFront(db.feMem, prior.feMem, m, f);
    SplicePair(db.progMem[..p], db.feMem[..f], prior.progMem[..p], prior.feMem[..f], k);
  }

  lemma SpliceFront(a: seq<Byte>, b: seq<Byte>, n: nat, p: nat)
    requires n <= p <= |a| == |b|
    ensures (a[..n] + b[n..])[..p] == a[..p][..n] + b[..p][n..]
  {
  }

  lemma SplicePair(a: seq<Byte>, b: seq<Byte>, c: seq<Byte>, d: seq<Byte>, k: nat)
    requires |a| == |c| && |b| == |d| && k <= |a| + |b|
    ensures var n, m := if k <= |a| then k else |a|, if k <= |a| then 0 else k - |a|;
            (a + b)[..k] + (c + d)[k..] == (a[..n] + c[n..]) + (b[..m] + d[m..])
  {
  }

  /** A cut-off save brings back both lists if and only if the prior state has the missing bytes already. */
  lemma CutSaveExactly(db: Db, prior: Db, k: nat, junk: (U32, U32))
    requires Shaped(db) && Sized(prior) && k <= |LiveBytes(db)|
    ensures Restore(prior, Save(db)[..8 + k], junk).Some?
    ensures var u := Restore(prior, Save(db)[..8 + k], junk).value;
            var was := prior.(progCount := db.progCount, feCount := db.feCount);
            && Shaped(u) && u.progCount == db.progCount && u.feCount == db.feCount
            && (Progs(u) == Progs(db) && Fes(u) == Fes(db) <==> LiveBytes(db)[k..] == LiveBytes(was)[k..])
  {
    CutSave(db, prior, k, junk);
    hide Restore, Save;
    var u := Overlaid(prior, db, k);
    OverlaidBytes(prior, db, k);
    ListsAreBytes(u, db);
    var was := prior.(progCount := db.progCount, feCount := db.feCount);
    SameTail(LiveBytes(db), LiveBytes(was), k);
    hide LiveBytes, Progs, Fes;
  }

  lemma SameTail(a: seq<Byte>, b: seq<Byte>, k: nat)
    requires k <= |a| == |b|
    ensures a[..k] + b[k..] == a <==> a[k..] == b[k..]
  {
    assert (a[..k] + b[k..])[k..] == b[k..];
    assert a == a[..k] + a[k..];
  }

  /** Restoring a save into any prior state brings back both counts and both lists. */
  lemma RoundTrip(db: Db, prior: Db, junk: (U32, U32))
    requires Shaped(db) && Sized(prior)
    ensures Restore(prior, Save(db), junk).Some?
    ensures var u := Restore(prior, Save(db), junk).value;
            && Shaped(u) && u.progCount == db.progCount && u.feCount == db.feCount
            && Progs(u) == Progs(db) && Fes(u) == Fes(db)
  {
    var k := |LiveBytes(db)|;
    assert Save(db)[..8 + k] == Save(db) && LiveBytes(db)[k..] == [];
    hide Restore, Save, Progs, Fes;
    CutSaveExactly(db, prior, k, junk);
  }

  /** Lengths that no save has are believed: a stream of two words alone makes 201 programmes live, one more
      than there is room for. */
  lemma BadLengthOutgrows(db: Db, junk: (U32, U32))
    requires Sized(db)
    ensures var r := Restore(db, [0xCC, 0x54, 0, 0, 0, 0, 0, 0], junk);
            r.Some? && r.value.progCount == 201 && !Shaped(r.value)
  {
    assert Put32(201 * PROG_SIZE) + Put32(0) + [] == [0xCC, 0x54, 0, 0, 0, 0, 0, 0];
    hide ReadLengths, Put32;
    ReadBothLengths(201 * PROG_SIZE, 0, [], junk);
  }

  /** A restore stays inside the arrays and leaves a usable database if and only if both lengths are those of at
      most as many records as there is room for, give or take a part of a record, and no more bytes follow than
      the arrays can take. */
  lemma RestoreShapedExactly(db: Db, p: U32, f: U32, rest: seq<Byte>, junk: (U32, U32))
    requires Sized(db)
    ensures var r := Restore(db, Put32(p) + Put32(f) + rest, junk);
            r.Some? && Shaped(r.value) <==>
            && p / PROG_SIZE <= MAX_PROGS && f / FE_SIZE <= MAX_FES
            && (p > PROG_BYTES ==> |rest| <= PROG_BYTES)
            && (f > FE_BYTES ==> |rest| <= p + FE_BYTES)
  {
    hide ReadLengths, Put32;
    ReadBothLengths(p, f, rest, junk);
  }

  // ----- Runs -----

  datatype Op =
    | OpAddProg(prog: Prog)
    | OpSetProg(n: nat, prog: Prog)
    | OpAddFe(fe: Frontend)
    | OpReset
    | OpRestore(saved: Db)

  /** A `Set` does not duplicate an ID, and only saves of consistent databases are restored. */
  predicate Allowed(db: Db, op: Op)
    requires Shaped(db)
  {
    match op
    case OpSetProg(n, r) =>
      n < db.progCount ==> forall k :: 0 <= k < db.progCount && k != n ==> ServiceId(Progs(db)[k]) != ServiceId(r)
    case OpRestore(saved) => Consistent(saved)
    case _ => true
  }

  function Apply(db: Db, op: Op): (u: Db)
    requires Shaped(db) && Allowed(db, op)
    ensures Shaped(u)
  {
    match op
    case OpAddProg(r) => AddProg(db, r).0
    case OpSetProg(n, r) => SetProg(db, n, r).0
    case OpAddFe(r) => AddFe(db, r).0
    case OpReset => Reset(db)
    case OpRestore(saved) => RoundTrip(saved, db, (0, 0)); Restore(db, Save(saved), (0, 0)).value
  }

  lemma ApplyKeeps(db: Db, op: Op)
    requires Consistent(db) && Allowed(db, op)
    ensures Consistent(Apply(db, op))
  {
    match op {
      case OpAddProg(r) => AddProgEffect(db, r);
      case OpSetProg(n, r) =>
        if n < MAX_PROGS {
          SetProgKeepsExactly(db, n, r);
        }
      case OpAddFe(r) =>
        AddFeEffect(db, r);
        assert Progs(Apply(db, op)) == Progs(db);
      case OpReset =>
      case OpRestore(saved) => RoundTrip(saved, db, (0, 0));
    }
  }

  function Run(db: Db, ops: seq<Op>): Option<Db>
    requires Shaped(db)
    decreases |ops|
  {
    if ops == [] then Some(db)
    else if !Allowed(db, ops[0]) then None
    else Run(Apply(db, ops[0]), ops[1..])
  }

  /** Every run keeps the live service IDs distinct and their number at most 199. */
  lemma {:induction false} RunKeeps(db: Db, ops: seq<Op>)
    requires Consistent(db) && Run(db, ops).Some?
    ensures var u := Run(db, ops).value;
            && Consistent(u) && |Progs(u)| <= 199
            && forall i, j :: 0 <= i < j < |Progs(u)| ==> ServiceId(Progs(u)[i]) != ServiceId(Progs(u)[j])
    decreases |ops|
  {
    if ops != [] {
      hide Apply, Allowed;
      ApplyKeeps(db, ops[0]);
      RunKeeps(Apply(db, ops[0]), ops[1..]);
    }
  }

  // ----- Frontends: runs of RF channels only -----

  /** Every live channel is an RF channel, and no two have the same RF parameters. */
  predicate DistinctRf(fs: seq<Frontend>) {
    && (forall i :: 0 <= i < |fs| ==> IsRf(fs[i]))
    && (forall i, j :: 0 <= i < j < |fs| ==> RfKey(fs[i]) != RfKey(fs[j]))
  }

  predicate RfOp(op: Op) {
    match op
    case OpAddFe(r) => IsRf(r)
    case OpRestore(saved) => Shaped(saved) && DistinctRf(Fes(saved))
    case _ => true
  }

  lemma ApplyKeepsRf(db: Db, op: Op)
    requires Shaped(db) && DistinctRf(Fes(db)) && Allowed(db, op) && RfOp(op)
    ensures DistinctRf(Fes(Apply(db, op)))
  {
    hide RfKey, IsRf, FeAt, FindId, ServiceId, Write, ProgAt;
    match op {
      case OpAddProg(r) =>
        assert Fes(Apply(db, op)) == Fes(db);
      case OpSetProg(n, r) =>
        assert Fes(Apply(db, op)) == Fes(db);
      case OpAddFe(r) => AddFeEffect(db, r);
      case OpReset =>
      case OpRestore(saved) => RoundTrip(saved, db, (0, 0));
    }
  }

  /** Over every run that adds RF channels only, the live channels have distinct RF parameters. */
  lemma {:induction false} RunKeepsRf(db: Db, ops: seq<Op>)
    requires Shaped(db) && DistinctRf(Fes(db)) && Run(db, ops).Some?
    requires forall i :: 0 <= i < |ops| ==> RfOp(ops[i])
    ensures Shaped(Run(db, ops).value) && DistinctRf(Fes(Run(db, ops).value))
    decreases |ops|
  {
    hide Apply, Allowed, RfOp, DistinctRf;
    if ops != [] {
      ApplyKeepsRf(db, ops[0]);
      RunKeepsRf(Apply(db, ops[0]), ops[1..]);
    }
  }

  /** A channel of another type is compared by the bytes where RF parameters would be: an RF channel whose
      parameters coincide with them is taken for present and is not added. */
  lemma RfMistakenForPresent(db: Db)
    requires Shaped(db) && db.feCount == 0
    ensures var other := Zeros(FE_SIZE)[0 := 2]; var rf := Zeros(FE_SIZE)[0 := 1];
            && !IsRf(other) && IsRf(rf)
            && AddFe(AddFe(db, other).0, rf) == (AddFe(db, other).0, Existing(0))
  {
    var other: Frontend := Zeros(FE_SIZE)[0 := 2];
    var rf: Frontend := Zeros(FE_SIZE)[0 := 1];
    assert IsRf(rf) && other[0..4][0] == 2;
    assert forall k :: 12 <= k < 24 ==> rf[k] == other[k];
    assert RfKey(rf) == RfKey(other);
    hide Zeros, IsRf, RfKey, Write, FeAt;
    assert Fes(db) == [];
    AddFeEffect(db, other);
    var one := AddFe(db, other).0;
    assert Fes(one) == [other];
    assert Fes(one)[0] == other;
  }

  /** The same operation on the list of live programmes: no arrays, counters or byte streams. */
  function ApplyList(ps: seq<Prog>, op: Op): seq<Prog>
    requires op.OpRestore? ==> Shaped(op.saved)
  {
    match op
    case OpAddProg(r) =>
      if |ps| >= 199 || exists k :: 0 <= k < |ps| && ServiceId(ps[k]) == ServiceId(r) then ps else ps + [r]
    case OpSetProg(n, r) => if n < |ps| then ps[n := r] else ps
    case OpAddFe(_) => ps
    case OpReset => []
    case OpRestore(saved) => Progs(saved)
  }

  lemma ApplyRefinesList(db: Db, op: Op)
    requires Consistent(db) && Allowed(db, op)
    ensures Progs(Apply(db, op)) == ApplyList(Progs(db), op)
  {
    match op {
      case OpAddProg(r) =>
        AddProgEffect(db, r);
        hide FindId, ServiceId, Write, ProgAt;
        var i := FindId(Progs(db), ServiceId(r));
        assert i < db.progCount ==> ServiceId(Progs(db)[i]) == ServiceId(r);
      case OpSetProg(n, r) =>
        if n < MAX_PROGS {
          SetProgKeepsExactly(db, n, r);
        }
      case OpAddFe(r) =>
        AddFeEffect(db, r);
      case OpReset =>
      case OpRestore(saved) => RoundTrip(saved, db, (0, 0));
    }
  }

  function RunList(ps: seq<Prog>, ops: seq<Op>): seq<Prog>
    requires forall i :: 0 <= i < |ops| && ops[i].OpRestore? ==> Shaped(ops[i].saved)
    decreases |ops|
  {
    if ops == [] then ps else RunList(ApplyList(ps, ops[0]), ops[1..])
  }

  /** Every run of the byte-level database computes, on its live programmes, what the list operations
      compute, saving and restoring included. */
  lemma {:induction false} RunRefinesList(db: Db, ops: seq<Op>)
    requires Consistent(db) && Run(db, ops).Some?
    ensures forall i :: 0 <= i < |ops| && ops[i].OpRestore? ==> Shaped(ops[i].saved)
    ensures Shaped(Run(db, ops).value) && Progs(Run(db, ops).value) == RunList(Progs(db), ops)
    decreases |ops|
  {
    if ops != [] {
      assert ops[0].OpRestore? ==> Shaped(ops[0].saved);
      hide Apply, Allowed, ApplyList;
      ApplyKeeps(db, ops[0]);
      ApplyRefinesList(db, ops[0]);
      RunRefinesList(Apply(db, ops[0]), ops[1..]);
      assert forall i :: 1 <= i < |ops| ==> ops[i] == ops[1..][i - 1];
    }
  }

  /** The same for the list of live channels. */
  function ApplyFes(fs: seq<Frontend>, op: Op): seq<Frontend>
    requires op.OpRestore? ==> Shaped(op.saved)
  {
    match op
    case OpAddFe(r) =>
      if |fs| >= 30 || (IsRf(r) && exists k :: 0 <= k < |fs| && RfKey(fs[k]) == RfKey(r)) then fs else fs + [r]
    case OpReset => []
    case OpRestore(saved) => Fes(saved)
    case _ => fs
  }

  lemma ApplyRefinesFes(db: Db, op: Op)
    requires Shaped(db) && Allowed(db, op)
    ensures Fes(Apply(db, op)) == ApplyFes(Fes(db), op)
  {
    hide RfKey, IsRf, FeAt, FindId, ServiceId, Write, ProgAt;
    match op {
      case OpAddProg(r) =>
      case OpSetProg(n, r) =>
      case OpAddFe(r) => AddFeEffect(db, r);
      case OpReset => ResetEffect(db);
      case OpRestore(saved) => RoundTrip(saved, db, (0, 0));
    }
  }

  function RunFes(fs: seq<Frontend>, ops: seq<Op>): seq<Frontend>
    requires forall i :: 0 <= i < |ops| && ops[i].OpRestore? ==> Shaped(ops[i].saved)
    decreases |ops|
  {
    if ops == [] then fs else RunFes(ApplyFes(fs, ops[0]), ops[1..])
  }

  /** And every run computes on its live channels what these list operations compute. */
  lemma {:induction false} RunRefinesFes(db: Db, ops: seq<Op>)
    requires Shaped(db) && Run(db, ops).Some?
    ensures forall i :: 0 <= i < |ops| && ops[i].OpRestore? ==> Shaped(ops[i].saved)
    ensures Shaped(Run(db, ops).value) && Fes(Run(db, ops).value) == RunFes(Fes(db), ops)
    decreases |ops|
  {
    if ops != [] {
      assert ops[0].OpRestore? ==> Shaped(ops[0].saved);
      hide Apply, Allowed, ApplyFes;
      ApplyRefinesFes(db, ops[0]);
      RunRefinesFes(Apply(db, ops[0]), ops[1..]);
      assert forall i :: 1 <= i < |ops| ==> ops[i] == ops[1..][i - 1];
    }
  }

  /** The map view of `Add`: the first record entered under an ID stays, other IDs are not affected. */
  lemma AddThenLookup(db: Db, r: Prog, id: U16)
    requires Consistent(db) && db.progCount < MAX_PROGS - 1
    ensures Lookup(AddProg(db, r).0, id) ==
            if id == ServiceId(r) && Lookup(db, id).None? then Some((db.progCount, r)) else Lookup(db, id)
  {
    AddProgEffect(db, r);
    var u := AddProg(db, r).0;
    hide FindId, ServiceId, ProgAt, AddProg;
    if Lookup(db, ServiceId(r)).None? {
      FindIdAppend(Progs(db), r, id);
      assert Progs(u)[db.progCount] == r;
      assert forall k :: 0 <= k < db.progCount ==> ProgAt(u.progMem, k) == Progs(u)[k] == Progs(db)[k];
    }
  }

  lemma {:induction false} FindIdAppend(ps: seq<Prog>, r: Prog, id: U16)
    ensures FindId(ps + [r], id) ==
            if FindId(ps, id) < |ps| then FindId(ps, id) else if ServiceId(r) == id then |ps| else |ps| + 1
  {
    hide ServiceId;
    if ps == [] {
      assert ps + [r] == [r] && [r][1..] == [];
    } else {
      assert (ps + [r])[1..] == ps[1..] + [r] && (ps + [r])[0] == ps[0];
      FindIdAppend(ps[1..], r, id);
    }
  }

  // ----- The code -----

  /** `memcpy` of a record into one of the arrays. */
  method CopyRecord(mem: array<Byte>, p: nat, r: seq<Byte>)
    requires p + |r| <= mem.Length
    modifies mem
    ensures mem[..] == Write(old(mem[..]), p, r)
  {
    for i := 0 to |r|
      invariant forall k :: 0 <= k < i ==> mem[p + k] == r[k]
      invariant forall k :: 0 <= k < mem.Length && !(p <= k < p + i) ==> mem[k] == old(mem[k])
    {
      mem[p + i] := r[i];
    }
    ghost var w := Write(old(mem[..]), p, r);
    forall k | 0 <= k < mem.Length
      ensures mem[k] == w[k]
    {
      if p <= k < p + |r| {
        assert mem[p + (k - p)] == r[k - p];
      }
    }
  }

  lemma FindIdStep(ps: seq<Prog>, i: nat, id: U16)
    requires i < |ps|
    ensures FindId(ps[i..], id) == if ServiceId(ps[i]) == id then 0 else 1 + FindId(ps[i + 1..], id)
  {
    assert ps[i..][0] == ps[i] && ps[i..][1..] == ps[i + 1..];
  }

  lemma FindInNothing(id: U16)
    ensures FindId([], id) == 0
  {
  }

  lemma IdInMemory(mem: seq<Byte>, i: nat)
    requires |mem| == PROG_BYTES && i < MAX_PROGS
    ensures ServiceId(ProgAt(mem, i)) == mem[i * PROG_SIZE + 6] as int + 256 * (mem[i * PROG_SIZE + 7] as int)
  {
  }

  lemma FindRfStep(fs: seq<Frontend>, i: nat, key: seq<Byte>)
    requires i < |fs|
    ensures FindRf(fs[i..], key) == if RfKey(fs[i]) == key then 0 else 1 + FindRf(fs[i + 1..], key)
  {
    assert fs[i..][0] == fs[i] && fs[i..][1..] == fs[i + 1..];
  }

  lemma FindRfInNothing(key: seq<Byte>)
    ensures FindRf([], key) == 0
  {
  }

  lemma KeyInMemory(mem: seq<Byte>, i: nat)
    requires |mem| == FE_BYTES && i < MAX_FES
    ensures RfKey(FeAt(mem, i)) == mem[i * FE_SIZE + 12..i * FE_SIZE + 24]
  {
    var at := i * FE_SIZE;
    var r := FeAt(mem, i);
    forall k | 0 <= k < 12
      ensures r[12..24][k] == mem[at + 12..at + 24][k]
    {
      assert r[12 + k] == mem[at + (12 + k)];
    }
  }

  lemma WriteAtFront(mem: seq<Byte>, n: nat, stream: seq<Byte>)
    requires Delivered(n, stream) <= |mem|
    ensures Write(mem, 0, stream[..Delivered(n, stream)]) == ReadInto(mem, n, stream).0
  {
  }

  class Database {
    const progList: array<Byte>
    const feChan: array<Byte>
    var progTotalCount: nat
    var feTotalCount: nat

    ghost function View(): Db
      reads this, progList, feChan
    {
      Db(progList[..], progTotalCount, feChan[..], feTotalCount)
    }

    ghost predicate Valid()
      reads this, progList, feChan
    {
      progList != feChan && Shaped(View())
    }

    constructor ()
      ensures Valid() && fresh(progList) && fresh(feChan)
      ensures progTotalCount == 0 && feTotalCount == 0 && Consistent(View())
    {
      progList := new Byte[PROG_BYTES](_ => 0);
      feChan := new Byte[FE_BYTES](_ => 0);
      progTotalCount, feTotalCount := 0, 0;
    }

    /** The linear search shared by `Add` and the look-up by service ID. */
    method FindService(id: U16) returns (i: nat)
      requires Valid()
      ensures i == FindId(Progs(View()), id)
    {
      hide FindId, ServiceId, ProgAt;
      ghost var ps := Progs(View());
      i := 0;
      assert ps[0..] == ps;
      while i < progTotalCount
        invariant i <= progTotalCount
        invariant i + FindId(ps[i..], id) == FindId(ps, id)
      {
        var at := i * PROG_SIZE;
        FindIdStep(ps, i, id);
        IdInMemory(progList[..], i);
        if progList[at + 6] as int + 256 * (progList[at + 7] as int) == id {
          return;
        }
        i := i + 1;
      }
      assert ps[i..] == [];
      FindInNothing(id);
    }

    method GetByServiceId(id: U16) returns (found: Option<(nat, Prog)>)
      requires Valid()
      ensures found == Lookup(View(), id)
    {
      var i := FindService(id);
      if i >= progTotalCount {
        return None;
      }
      return Some((i, progList[i * PROG_SIZE..(i + 1) * PROG_SIZE]));
    }

    method SetDvbProg(n: nat, r: Prog) returns (ok: bool)
      requires Valid()
      modifies progList
      ensures Valid() && (View(), ok) == SetProg(old(View()), n, r)
    {
      if n >= MAX_PROGS {
        return false;
      }
      CopyRecord(progList, n * PROG_SIZE, r);
      return true;
    }

    method AddDvbProg(r: Prog) returns (result: AddResult)
      requires Valid()
      modifies this, progList
      ensures Valid() && (View(), result) == AddProg(old(View()), r)
    {
      if progTotalCount >= MAX_PROGS - 1 {
        return Failure;
      }
      var i := FindService(ServiceId(r));
      if i < progTotalCount {
        return Existing(i);
      }
      CopyRecord(progList, progTotalCount * PROG_SIZE, r);
      progTotalCount := progTotalCount + 1;
      return Added(progTotalCount);
    }

    /** The search for a channel with the same RF parameters. */
    method FindRfChannel(key: seq<Byte>) returns (i: nat)
      requires Valid()
      ensures i == FindRf(Fes(View()), key)
    {
      hide FindRf, RfKey, FeAt;
      ghost var fs := Fes(View());
      i := 0;
      assert fs[0..] == fs;
      while i < feTotalCount
        invariant i <= feTotalCount
        invariant i + FindRf(fs[i..], key) == FindRf(fs, key)
      {
        var at := i * FE_SIZE;
        FindRfStep(fs, i, key);
        KeyInMemory(feChan[..], i);
        assert feChan[..][at + 12..at + 24] == feChan[at + 12..at + 24];
        if feChan[at + 12..at + 24] == key {
          return;
        }
        i := i + 1;
      }
      assert fs[i..] == [];
      FindRfInNothing(key);
    }

    method AddFeChan(r: Frontend) returns (result: AddResult)
      requires Valid()
      modifies this, feChan
      ensures Valid() && (View(), result) == AddFe(old(View()), r)
    {
      if feTotalCount >= MAX_FES {
        return Failure;
      }
      if IsRf(r) {
        var i := FindRfChannel(RfKey(r));
        if i < feTotalCount {
          return Existing(i);
        }
      }
      hide IsRf, RfKey, FindRf;
      CopyRecord(feChan, feTotalCount * FE_SIZE, r);
      feTotalCount := feTotalCount + 1;
      return Added(feTotalCount - 1);
    }

    method ResetAll()
      requires Valid()
      modifies this, progList, feChan
      ensures Valid() && View() == Reset(old(View()))
    {
      progTotalCount, feTotalCount := 0, 0;
      CopyRecord(progList, 0, Zeros(PROG_SIZE));
      CopyRecord(feChan, 0, Zeros(FE_SIZE));
    }

    method SaveToFile() returns (stream: seq<Byte>)
      requires Valid()
      ensures stream == Save(View())
    {
      var progSize, feSize := progTotalCount * PROG_SIZE, feTotalCount * FE_SIZE;
      stream := Put32(progSize) + Put32(feSize) + progList[..progSize] + feChan[..feSize];
    }

    /** Not `ok` means that a read would have run over its array; the code does not notice. */
    method RestoreFromFile(stream: seq<Byte>, junk: (U32, U32)) returns (ok: bool)
      requires Valid()
      modifies this, progList, feChan
      ensures ok <==> Restore(old(View()), stream, junk).Some?
      ensures ok ==> View() == Restore(old(View()), stream, junk).value
    {
      hide Get32, Write, ReadWord;
      var (progSize, feSize, rest) := ReadLengths(stream, junk);
      var k := Delivered(progSize, rest);
      if k > PROG_BYTES {
        return false;
      }
      WriteAtFront(progList[..], progSize, rest);
      CopyRecord(progList, 0, rest[..k]);
      rest := rest[k..];
      k := Delivered(feSize, rest);
      if k > FE_BYTES {
        return false;
      }
      WriteAtFront(feChan[..], feSize, rest);
      CopyRecord(feChan, 0, rest[..k]);
      progTotalCount := progSize / PROG_SIZE;
      feTotalCount := feSize / FE_SIZE;
      return true;
    }
  }
}
