/** The caption text transcoder: UTF-16LE code units to the one- to six-byte forms of section 2 of
    RFC 2279 (the first four are those of section 3 of RFC 3629).  Surrogates are encoded unit by
    unit, so every result is about code units. */
module Utf8 {
  import opened Types

  // ----- One code unit -----

  function UnicodeLen(c: bv32): (n: nat)
    ensures 1 <= n <= 6
  {
    if c < 0x80 then 1
    else if c < 0x800 then 2
    else if c < 0x1_0000 then 3
    else if c < 0x20_0000 then 4
    else if c < 0x400_0000 then 5
    else 6
  }

  /** The marker bits of the first byte of an `n`-byte form. */
  function FirstBits(n: nat): bv8 {
    if n == 1 then 0
    else if n == 2 then 0xC0
    else if n == 3 then 0xE0
    else if n == 4 then 0xF0
    else if n == 5 then 0xF8
    else 0xFC
  }

  function Low6(c: bv32): bv8 {
    ((c & 0x3F) | 0x80) as bv8
  }

  function Drop6(c: bv32): bv32 {
    c >> 6
  }

  /** What remains of `c` above its `n` lowest groups of six bits. */
  function Above(c: bv32, n: nat): bv32
    decreases n
  {
    if n == 0 then c else Above(Drop6(c), n - 1)
  }

  /** The `n` lowest groups of six bits, most significant first, as continuation bytes. */
  function Continuation(c: bv32, n: nat): (s: seq<bv8>)
    ensures |s| == n
    decreases n
  {
    if n == 0 then [] else Continuation(Drop6(c), n - 1) + [Low6(c)]
  }

  /** The bits left for the first byte lie below its marker bits. */
  lemma AboveIsSmall(c: bv32)
    ensures var n := UnicodeLen(c); var x := Above(c, n - 1);
            x < 0x100 && (n == 1 ==> x < 0x80) && (n == 2 ==> x < 0x20) && (n == 3 ==> x < 0x10) &&
            (n == 4 ==> x < 0x08) && (n >= 5 ==> x < 0x04)
  {
    hide Drop6;
    SmallShifts(c);
    var n := UnicodeLen(c);
    if n >= 2 {
      assert Above(c, n - 1) == Above(Drop6(c), n - 2);
    }
    if n >= 4 {
      assert Above(Drop6(Drop6(c)), n - 3) == Above(Drop6(Drop6(Drop6(c))), n - 4);
    }
    if n == 6 {
      var d := Drop6(Drop6(Drop6(c)));
      assert Above(d, 2) == Above(Drop6(d), 1);
    }
  }

  lemma SmallShifts(c: bv32)
    ensures c < 0x800 ==> Drop6(c) < 0x20
    ensures c < 0x1_0000 ==> Drop6(Drop6(c)) < 0x10
    ensures c < 0x20_0000 ==> Drop6(Drop6(Drop6(c))) < 0x08
    ensures c < 0x400_0000 ==> Drop6(Drop6(Drop6(Drop6(c)))) < 0x04
    ensures Drop6(Drop6(Drop6(Drop6(Drop6(c))))) < 0x04
  {
  }

  function Encode(c: bv32): (s: seq<bv8>)
    ensures |s| == UnicodeLen(c)
  {
    var n := UnicodeLen(c);
    AboveIsSmall(c);
    [(Above(c, n - 1) as bv8) | FirstBits(n)] + Continuation(c, n - 1)
  }

  /** Writes the form of `c` at `out[p..]`: continuation bytes from the last to the second, then the
      first byte. */
  method ConvUnicodeToUtf8(c: bv32, out: array<bv8>, p: nat) returns (len: nat)
    requires p + UnicodeLen(c) <= out.Length
    modifies out
    ensures len == UnicodeLen(c)
    ensures out[p..p + len] == Encode(c)
    ensures forall j :: 0 <= j < out.Length && !(p <= j < p + len) ==> out[j] == old(out[j])
  {
    hide UnicodeLen, Low6, Drop6, FirstBits, Above, Continuation;
    len := UnicodeLen(c);
    var first := FirstBits(len);
    var d := c;
    var i := len - 1;
    ghost var tail: seq<bv8> := [];
    while i > 0
      invariant 0 <= i < len
      invariant Above(d, i) == Above(c, len - 1)
      invariant tail == out[p + i + 1..p + len] && Continuation(d, i) + tail == Continuation(c, len - 1)
      invariant forall j :: 0 <= j < out.Length && !(p < j < p + len) ==> out[j] == old(out[j])
    {
      NextGroup(d, i, tail);
      tail := [Low6(d)] + tail;
      out[p + i] := Low6(d);
      d := Drop6(d);
      i := i - 1;
    }
    AboveIsSmall(c);
    NoGroups(d);
    out[p] := (d as bv8) | first;
    assert out[p..p + len] == [out[p]] + tail;
  }

  lemma NoGroups(d: bv32)
    ensures Above(d, 0) == d && Continuation(d, 0) == []
  {
  }

  lemma NextGroup(d: bv32, i: nat, tail: seq<bv8>)
    requires i > 0
    ensures Above(d, i) == Above(Drop6(d), i - 1)
    ensures Continuation(d, i) + tail == Continuation(Drop6(d), i - 1) + ([Low6(d)] + tail)
  {
  }

  // ----- The decoder -----

  predicate IsContinuation(b: bv8) {
    0x80 <= b < 0xC0
  }

  /** The length of the form that a byte starts; 0 for a byte that starts none. */
  function FormLen(b: bv8): nat {
    if b < 0x80 then 1
    else if b < 0xC0 then 0
    else if b < 0xE0 then 2
    else if b < 0xF0 then 3
    else if b < 0xF8 then 4
    else if b < 0xFC then 5
    else 6
  }

  /** The payload of the first byte of an `n`-byte form. */
  function FirstPayload(b: bv8, n: nat): bv32 {
    if n == 1 then b as bv32
    else if n == 2 then (b & 0x1F) as bv32
    else if n == 3 then (b & 0x0F) as bv32
    else if n == 4 then (b & 0x07) as bv32
    else (b & 0x03) as bv32
  }

  function Append6(c: bv32, b: bv8): bv32 {
    (c << 6) | ((b & 0x3F) as bv32)
  }

  function Accumulate(c: bv32, s: seq<bv8>): bv32 {
    if s == [] then c else Append6(Accumulate(c, s[..|s| - 1]), s[|s| - 1])
  }

  /** Reads one form from the front: its value and its length. Over-long forms are accepted. */
  function DecodeOne(s: seq<bv8>): Option<(bv32, nat)> {
    if s == [] then None
    else
      var n := FormLen(s[0]);
      if n == 0 || n > |s| || exists i :: 1 <= i < n && !IsContinuation(s[i]) then None
      else Some((Accumulate(FirstPayload(s[0], n), s[1..n]), n))
  }

  function DecodeAll(s: seq<bv8>): Option<seq<bv32>>
    decreases |s|
  {
    if s == [] then Some([])
    else
      var one := DecodeOne(s);
      if one.None? || one.value.1 == 0 || one.value.1 > |s| then None
      else
        var rest := DecodeAll(s[one.value.1..]);
        if rest.None? then None else Some([one.value.0] + rest.value)
  }

  lemma SixBitsRejoin(c: bv32)
    ensures Append6(Drop6(c), Low6(c)) == c
    ensures IsContinuation(Low6(c))
  {
  }

  lemma {:induction false} GroupsRejoin(c: bv32, n: nat)
    ensures Accumulate(Above(c, n), Continuation(c, n)) == c
    ensures forall i :: 0 <= i < n ==> IsContinuation(Continuation(c, n)[i])
    decreases n
  {
    hide Append6, Drop6, Low6, IsContinuation;
    if n > 0 {
      GroupsRejoin(Drop6(c), n - 1);
      SixBitsRejoin(c);
      var s := Continuation(c, n);
      assert s[..n - 1] == Continuation(Drop6(c), n - 1) && s[n - 1] == Low6(c);
    }
  }

  /** The first byte shows the length of its form and gives its payload back. */
  lemma FirstByteReadsBack(x: bv32, n: nat)
    requires 1 <= n <= 6 && x < 0x100
    requires (n == 1 ==> x < 0x80) && (n == 2 ==> x < 0x20) && (n == 3 ==> x < 0x10) && (n == 4 ==> x < 0x08) &&
             (n >= 5 ==> x < 0x04)
    ensures FormLen((x as bv8) | FirstBits(n)) == n
    ensures FirstPayload((x as bv8) | FirstBits(n), n) == x
  {
    var b := x as bv8;
    FirstByteCases(b);
    assert b as bv32 == x;
    assert n == 1 || n == 2 || n == 3 || n == 4 || n == 5 || n == 6;
  }

  lemma FirstByteCases(b: bv8)
    ensures b < 0x80 ==> b | 0 == b
    ensures b < 0x20 ==> 0xC0 <= b | 0xC0 < 0xE0 && (b | 0xC0) & 0x1F == b
    ensures b < 0x10 ==> 0xE0 <= b | 0xE0 < 0xF0 && (b | 0xE0) & 0x0F == b
    ensures b < 0x08 ==> 0xF0 <= b | 0xF0 < 0xF8 && (b | 0xF0) & 0x07 == b
    ensures b < 0x04 ==> 0xF8 <= b | 0xF8 < 0xFC && (b | 0xF8) & 0x03 == b
    ensures b < 0x04 ==> 0xFC <= b | 0xFC && (b | 0xFC) & 0x03 == b
  {
  }

  /** Every 32-bit value is read back from its form, whatever follows it. */
  lemma DecodeEncode(c: bv32, rest: seq<bv8>)
    ensures DecodeOne(Encode(c) + rest) == Some((c, UnicodeLen(c)))
  {
    hide UnicodeLen, FormLen, FirstPayload, FirstBits, IsContinuation, Above, Accumulate, Continuation;
    var n := UnicodeLen(c);
    var s := Encode(c) + rest;
    AboveIsSmall(c);
    FirstByteReadsBack(Above(c, n - 1), n);
    GroupsRejoin(c, n - 1);
    assert s[1..n] == Continuation(c, n - 1);
    assert forall i :: 1 <= i < n ==> s[i] == Continuation(c, n - 1)[i - 1];
  }

  /** No form is a prefix of another one, so in particular the encoder is injective. */
  lemma PrefixFree(c: bv32, d: bv32, s: seq<bv8>, t: seq<bv8>)
    requires Encode(c) + s == Encode(d) + t
    ensures c == d && s == t
  {
    hide Encode, DecodeOne, UnicodeLen;
    DecodeEncode(c, s);
    DecodeEncode(d, t);
    assert s == (Encode(c) + s)[UnicodeLen(c)..] && t == (Encode(d) + t)[UnicodeLen(d)..];
  }

  // ----- Shortest form -----

  lemma AppendIsSmall(c: bv32, b: bv8)
    ensures c < 0x20 ==> Append6(c, b) < 0x800
    ensures c < 0x10 ==> Append6(c, b) < 0x400
    ensures c < 0x400 ==> Append6(c, b) < 0x1_0000
    ensures c < 0x08 ==> Append6(c, b) < 0x200
    ensures c < 0x200 ==> Append6(c, b) < 0x8000
    ensures c < 0x8000 ==> Append6(c, b) < 0x20_0000
    ensures c < 0x04 ==> Append6(c, b) < 0x100
    ensures c < 0x100 ==> Append6(c, b) < 0x4000
    ensures c < 0x4000 ==> Append6(c, b) < 0x10_0000
    ensures c < 0x10_0000 ==> Append6(c, b) < 0x400_0000
  {
  }

  lemma AccumulateFront(c: bv32, s: seq<bv8>)
    requires s != []
    ensures Accumulate(c, s) == Accumulate(Append6(c, s[0]), s[1..])
    decreases |s|
  {
    hide Append6;
    if |s| == 1 {
      assert s[..0] == [] && s[1..] == [];
    } else {
      var init := s[..|s| - 1];
      AccumulateFront(c, init);
      assert init[1..] == s[1..][..|s| - 2];
    }
  }

  lemma AccumulatedIsSmall(b: bv8, s: seq<bv8>)
    requires |s| + 1 == FormLen(b) && FormLen(b) < 6
    ensures UnicodeLen(Accumulate(FirstPayload(b, FormLen(b)), s)) <= FormLen(b)
  {
    var n := FormLen(b);
    var c := FirstPayload(b, n);
    PayloadIsSmall(b);
    hide FirstPayload, FormLen, Append6;
    if n > 1 {
      AppendIsSmall(c, s[0]);
      AccumulateFront(c, s);
      c := Append6(c, s[0]);
    }
    if n > 2 {
      AppendIsSmall(c, s[1]);
      AccumulateFront(c, s[1..]);
      assert s[1..][1..] == s[2..];
      c := Append6(c, s[1]);
    }
    if n > 3 {
      AppendIsSmall(c, s[2]);
      AccumulateFront(c, s[2..]);
      assert s[2..][1..] == s[3..];
      c := Append6(c, s[2]);
    }
    if n > 4 {
      AppendIsSmall(c, s[3]);
      AccumulateFront(c, s[3..]);
      c := Append6(c, s[3]);
    }
  }

  lemma PayloadIsSmall(b: bv8)
    ensures var n := FormLen(b); var c := FirstPayload(b, n);
            (n == 1 ==> c < 0x80) && (n == 2 ==> c < 0x20) && (n == 3 ==> c < 0x10) && (n == 4 ==> c < 0x08) &&
            (n == 5 ==> c < 0x04)
  {
  }

  /** No sequence that the decoder accepts for a value is shorter than the form the encoder gives it. */
  lemma ShortestForm(s: seq<bv8>)
    requires DecodeOne(s).Some?
    ensures UnicodeLen(DecodeOne(s).value.0) <= DecodeOne(s).value.1 <= |s|
  {
    var n := FormLen(s[0]);
    hide UnicodeLen, FirstPayload, Accumulate;
    if n < 6 {
      AccumulatedIsSmall(s[0], s[1..n]);
    }
  }

  // ----- Strings -----

  function Unit(low: bv8, high: bv8): bv32 {
    (low as bv32) | ((high as bv32) << 8)
  }

  /** The complete code units of a little-endian byte string; an odd last byte is not one. */
  function Units(s: seq<bv8>): (us: seq<bv32>)
    ensures |us| == |s| / 2
  {
    if |s| < 2 then [] else [Unit(s[0], s[1])] + Units(s[2..])
  }

  function EncodeAll(us: seq<bv32>): seq<bv8> {
    if us == [] then [] else Encode(us[0]) + EncodeAll(us[1..])
  }

  lemma {:induction false} DecodeEncodeAll(us: seq<bv32>)
    ensures DecodeAll(EncodeAll(us)) == Some(us)
  {
    if us != [] {
      hide Encode, DecodeOne, UnicodeLen;
      DecodeEncodeAll(us[1..]);
      DecodeEncode(us[0], EncodeAll(us[1..]));
      assert EncodeAll(us)[UnicodeLen(us[0])..] == EncodeAll(us[1..]);
      assert us == [us[0]] + us[1..];
    }
  }

  /** How many units are taken by the greedy rule: one more as long as its form fits. */
  function Taken(us: seq<bv32>, capacity: int): (k: nat)
    ensures k <= |us|
    decreases |us|
  {
    if us == [] || UnicodeLen(us[0]) > capacity then 0 else 1 + Taken(us[1..], capacity - UnicodeLen(us[0]))
  }

  lemma {:induction false} TakenFits(us: seq<bv32>, capacity: int)
    requires capacity >= 0
    ensures |EncodeAll(us[..Taken(us, capacity)])| <= capacity
    decreases |us|
  {
    hide Encode, UnicodeLen;
    if us != [] && UnicodeLen(us[0]) <= capacity {
      TakenFits(us[1..], capacity - UnicodeLen(us[0]));
      var k := Taken(us, capacity);
      assert us[..k][1..] == us[1..][..k - 1];
    }
  }

  /** The greedy prefix is the longest one whose encoding fits. */
  lemma {:induction false} TakenIsLongest(us: seq<bv32>, capacity: int, j: nat)
    requires j <= |us| && |EncodeAll(us[..j])| <= capacity
    ensures j <= Taken(us, capacity)
    decreases |us|
  {
    hide Encode, UnicodeLen;
    if j > 0 {
      assert us[..j][1..] == us[1..][..j - 1];
      TakenIsLongest(us[1..], capacity - UnicodeLen(us[0]), j - 1);
    }
  }

  lemma NothingTaken()
    ensures EncodeAll([]) == [] && forall n :: Taken([], n) == 0
  {
  }

  lemma {:induction false} EncodeAllAppend(us: seq<bv32>, u: bv32)
    ensures EncodeAll(us + [u]) == EncodeAll(us) + Encode(u)
  {
    hide Encode;
    if us == [] {
      assert us + [u] == [u] && [u][1..] == [];
    } else {
      assert (us + [u])[1..] == us[1..] + [u];
      EncodeAllAppend(us[1..], u);
    }
  }

  /** What one round of the loop does to the specification's view of the input. */
  lemma NextUnit(s: seq<bv8>, us: seq<bv32>, i: nat, k: nat, left: int)
    requires i + 2 <= |s| && k <= |us| && Units(s[i..]) == us[k..]
    ensures k < |us| && us[k] == Unit(s[i], s[i + 1]) && Units(s[i + 2..]) == us[k + 1..]
    ensures EncodeAll(us[..k + 1]) == EncodeAll(us[..k]) + Encode(us[k])
    ensures Taken(us[k..], left) ==
            if UnicodeLen(us[k]) > left then 0 else 1 + Taken(us[k + 1..], left - UnicodeLen(us[k]))
  {
    hide Unit, UnicodeLen, Encode, EncodeAll;
    assert s[i..][2..] == s[i + 2..];
    assert us[k] == us[k..][0] && us[k + 1..] == us[k..][1..];
    assert us[..k + 1] == us[..k] + [us[k]];
    EncodeAllAppend(us[..k], us[k]);
  }

  /** `capacity` is what the caller passes in and `outLen` what it gets back; the terminator goes to
      index `outLen`, so the buffer is one byte longer than the capacity. */
  method Utf16LeToUtf8(input: seq<bv8>, inLen: int, out: array<bv8>, capacity: int) returns (outLen: nat)
    requires inLen <= |input|
    requires 0 < out.Length && capacity < out.Length
    modifies out
    ensures outLen < out.Length && out[outLen] == 0
    ensures var us := Units(input[..if inLen < 0 then 0 else inLen]);
            out[..outLen] == EncodeAll(us[..Taken(us, capacity)])
    ensures forall j :: outLen < j < out.Length ==> out[j] == old(out[j])
  {
    hide UnicodeLen, Encode, Units, EncodeAll, Taken;
    ghost var s := input[..if inLen < 0 then 0 else inLen];
    ghost var us := Units(s);
    ghost var k := 0;
    outLen := 0;
    var left := capacity;
    var i := 0;
    assert s[0..] == s && us[0..] == us && us[..0] == [];
    NothingTaken();
    while i < inLen
      invariant i == 2 * k && i <= |s|
      invariant k <= |us| && Units(s[i..]) == us[k..]
      invariant left == capacity - outLen && (left >= 0 || outLen == 0)
      invariant outLen < out.Length && out[..outLen] == EncodeAll(us[..k])
      invariant Taken(us, capacity) == k + Taken(us[k..], left)
      invariant forall j :: outLen <= j < out.Length ==> out[j] == old(out[j])
    {
      var unicode: bv32;
      if i + 1 < inLen {
        unicode := input[i] as bv32;
        var tmp := input[i + 1] as bv32;
        unicode := unicode | (tmp << 8);
      } else {
        break;
      }
      assert unicode == Unit(s[i], s[i + 1]);
      hide Unit;
      NextUnit(s, us, i, k, left);
      var len := UnicodeLen(unicode);
      if left < len {
        break;
      }
      left := left - len;
      ghost var written := out[..outLen];
      var n := ConvUnicodeToUtf8(unicode, out, outLen);
      assert out[..outLen + n] == written + out[outLen..outLen + n];
      outLen := outLen + n;
      k := k + 1;
      i := i + 2;
    }
    assert k == |us| ==> us[k..] == [];
    ghost var written := out[..outLen];
    out[outLen] := 0;
    assert out[..outLen] == written;
  }

  /** Decoding what was written gives the longest prefix of the complete code units that the capacity
      allows, for every input, including odd lengths and capacities too small for anything. */
  lemma TranscodingReadsBack(input: seq<bv8>, capacity: nat)
    ensures var us := Units(input); var k := Taken(us, capacity);
            && |EncodeAll(us[..k])| <= capacity
            && DecodeAll(EncodeAll(us[..k])) == Some(us[..k])
            && forall j: nat :: k < j <= |us| ==> |EncodeAll(us[..j])| > capacity
  {
    var us := Units(input);
    var k := Taken(us, capacity);
    TakenFits(us, capacity);
    DecodeEncodeAll(us[..k]);
    forall j: nat | k < j <= |us|
      ensures |EncodeAll(us[..j])| > capacity
    {
      if |EncodeAll(us[..j])| <= capacity {
        TakenIsLongest(us, capacity, j);
      }
    }
  }

  // ----- UTF-16LE as a writer produces it -----

  /** A code unit as two bytes, the less significant one first. */
  function LeUnit(u: bv16): seq<bv8> {
    [(u & 0xFF) as bv8, (u >> 8) as bv8]
  }

  function LeBytes(us: seq<bv16>): (s: seq<bv8>)
    ensures |s| == 2 * |us|
  {
    if us == [] then [] else LeUnit(us[0]) + LeBytes(us[1..])
  }

  function Widen(us: seq<bv16>): (ws: seq<bv32>)
    ensures |ws| == |us|
  {
    if us == [] then [] else [us[0] as bv32] + Widen(us[1..])
  }

  lemma LowByteFirst(u: bv16)
    ensures Unit((u & 0xFF) as bv8, (u >> 8) as bv8) == u as bv32
  {
  }

  /** The transcoder takes from a little-endian string exactly the units that were written, and leaves an odd
      byte at the end alone. */
  lemma {:induction false} UnitsOfLeBytes(us: seq<bv16>, odd: seq<bv8>)
    requires |odd| < 2
    ensures Units(LeBytes(us) + odd) == Widen(us)
  {
    if us == [] {
      assert LeBytes(us) + odd == odd;
    } else {
      UnitsOfLeBytes(us[1..], odd);
      var s := LeBytes(us) + odd;
      assert s[2..] == LeBytes(us[1..]) + odd;
      LowByteFirst(us[0]);
      hide Unit;
    }
  }

  /** From one writer to the other reader: any UTF-16LE string, transcoded within a capacity and decoded, gives
      back its longest prefix that fits. */
  lemma WrittenIsRead(us: seq<bv16>, odd: seq<bv8>, capacity: nat)
    requires |odd| < 2
    ensures var ws := Units(LeBytes(us) + odd); var k := Taken(ws, capacity);
            && DecodeAll(EncodeAll(ws[..k])) == Some(Widen(us)[..k])
            && |EncodeAll(Widen(us)[..k])| <= capacity
            && forall j: nat :: k < j <= |us| ==> |EncodeAll(Widen(us)[..j])| > capacity
  {
    UnitsOfLeBytes(us, odd);
    TranscodingReadsBack(LeBytes(us) + odd, capacity);
  }

  /** The examples of section 7 of RFC 3629, and the largest values of the five- and six-byte forms of RFC 2279. */
  lemma Examples()
    ensures Encode(0x41) == [0x41]
    ensures Encode(0x391) == [0xCE, 0x91]
    ensures Encode(0x2262) == [0xE2, 0x89, 0xA2]
    ensures Encode(0x233B4) == [0xF0, 0xA3, 0x8E, 0xB4]
    ensures Encode(0x3FF_FFFF) == [0xFB, 0xBF, 0xBF, 0xBF, 0xBF]
    ensures Encode(0x7FFF_FFFF) == [0xFD, 0xBF, 0xBF, 0xBF, 0xBF, 0xBF]
  {
  }
}
