/** The command line of the USB CAM sample.  It is parsed in two passes: one records where each option
    stands, the other scans the options and counts their arguments, and the values are then read from
    the recorded positions. */
module OptionParser {
  import opened Types

  const OPTS := ":?hHc:j:s:o:t:q"
  const NIMS: set<char> := {'c', 'j', 's', 'o', 't'}

  /** A character of a C string; reading at its end gives NUL. */
  function CharAt(s: string, k: nat): char {
    if k < |s| then s[k] else '\0'
  }

  /** How many arguments each option requires. */
  function ParamNum(c: char): nat {
    match c
    case 'c' => 3
    case 'j' => 3
    case 's' => 5
    case 'o' => 5
    case 't' => 2
    case _ => 0
  }

  /** `strchr`, as an index; the length stands for NULL. */
  function IndexOf(s: string, c: char): (i: nat)
    ensures i <= |s| && (i < |s| ==> s[i] == c) && forall j :: 0 <= j < i ==> s[j] != c
  {
    if s == [] || s[0] == c then 0 else 1 + IndexOf(s[1..], c)
  }

  // ----- The parameters -----

  /** The record of one tuner: where its option stands and the numbers read from its arguments. */
  datatype Nim = Nim(position: nat, values: seq<int>)

  datatype Params = Params(nims: map<char, Nim>, nimUse: Option<char>)

  predicate Complete(p: Params) {
    p.nims.Keys == NIMS
  }

  /** First pass: the last argument equal to the option is its position. */
  function LastPosition(argv: seq<string>, x: char, default: nat): nat {
    if argv == [] then default
    else if argv[|argv| - 1] == ['-', x] then |argv| - 1
    else LastPosition(argv[..|argv| - 1], x, default)
  }

  function FindPositions(argv: seq<string>, p: Params): (q: Params)
    requires Complete(p)
    ensures Complete(q)
  {
    p.(nims := map x | x in NIMS :: p.nims[x].(position := LastPosition(argv, x, p.nims[x].position)))
  }

  // ----- The scanner -----

  /** The static variables of the scanner. */
  datatype Scan = Scan(sp: nat, optind: nat)

  /** `Fault` is an access through the NULL that ends `argv`, or behind the option string. */
  datatype Found = Eof | Opt(c: char) | Fault

  /** The run of arguments that do not start with a dash. */
  function CountArgs(argv: seq<string>, i: nat): (n: nat)
    ensures i <= |argv| ==> i + n <= |argv|
    decreases |argv| - i
  {
    if i >= |argv| || CharAt(argv[i], 0) == '-' then 0 else 1 + CountArgs(argv, i + 1)
  }

  function TakesArgs(c: char): bool {
    var i := IndexOf(OPTS, c);
    i + 1 < |OPTS| && OPTS[i + 1] == ':'
  }

  /** The option string lists the tuner options as taking arguments. */
  lemma OptionLetters(c: char)
    ensures c in NIMS ==> IndexOf(OPTS, c) < |OPTS| && TakesArgs(c)
  {
    hide IndexOf;
    if c in NIMS {
      var i := if c == 'c' then 4 else if c == 'j' then 6 else if c == 's' then 8 else if c == 'o' then 10 else 12;
      assert OPTS[i] == c && OPTS[i + 1] == ':' && c != ':';
      LettersDiffer(i);
      IndexAt(OPTS, i);
    }
  }

  lemma LettersDiffer(i: nat)
    requires i < |OPTS| && OPTS[i] != ':'
    ensures forall j :: 0 <= j < i ==> OPTS[j] != OPTS[i]
  {
  }

  lemma {:induction false} IndexAt(s: string, i: nat)
    requires i < |s| && forall j :: 0 <= j < i ==> s[j] != s[i]
    ensures IndexOf(s, s[i]) == i
  {
    if i > 0 {
      IndexAt(s[1..], i - 1);
    }
  }

  /** One call: the new scanner state, what was found, and the argument count if it was stored. */
  function Getopt(argv: seq<string>, st: Scan): (r: (Scan, Found, Option<nat>))
    requires 1 <= st.sp
    ensures 1 <= r.0.sp
    ensures r.1.Opt? && r.1.c in NIMS ==> r.0.sp == 1 && st.optind < r.0.optind <= |argv|
  {
    if st.sp == 1 && st.optind >= |argv| then (st, Eof, None)
    else if st.sp == 1 && argv[st.optind] == "--" then (st.(optind := st.optind + 1), Eof, None)
    else if st.sp == 1 && (CharAt(argv[st.optind], 0) != '-' || CharAt(argv[st.optind], 1) == '\0') then
      (st, Opt('?'), None)
    else if st.optind >= |argv| then (st, Fault, None)
    else
      var word := argv[st.optind];
      var c := CharAt(word, st.sp);
      OptionLetters(c);
      if c == '\0' then (st, Fault, None)
      else if c == ':' || IndexOf(OPTS, c) == |OPTS| then
        (Scan(1, if CharAt(word, st.sp + 1) == '\0' then st.optind + 1 else st.optind), Opt('?'), None)
      else if TakesArgs(c) then
        if st.optind + 1 >= |argv| then (st.(optind := st.optind + 1), Fault, None)
        else
          var n := CountArgs(argv, st.optind + 1);
          (Scan(1, st.optind + 1 + n), Opt(c), Some(n))
      else if CharAt(word, st.sp + 1) == '\0' then (Scan(1, st.optind + 1), Opt(c), Some(0))
      else (st.(sp := st.sp + 1), Opt(c), Some(0))
  }

  // ----- The parser -----

  datatype Outcome = Parsed | Failed | TaskExit | Crashed

  /** The `n` numbers after position `at`. */
  function Numbers(argv: seq<string>, at: nat, n: nat, strtol: string -> int): seq<int>
    requires at + n < |argv|
  {
    seq(n, k requires 0 <= k < n => strtol(argv[at + 1 + k]))
  }

  /** The values of option `c`, read from its recorded position. */
  function ReadValues(argv: seq<string>, p: Params, c: char, strtol: string -> int): (q: Params)
    requires Complete(p) && c in NIMS && p.nims[c].position + ParamNum(c) < |argv|
    ensures Complete(q)
  {
    var at := p.nims[c].position;
    Params(p.nims[c := Nim(at, Numbers(argv, at, ParamNum(c), strtol))], Some(c))
  }

  function ParseFrom(argv: seq<string>, st: Scan, p: Params, strtol: string -> int): (Scan, Params, Outcome)
    requires Complete(p) && 1 <= st.sp
    decreases |argv| - st.optind
  {
    var (u, found, count) := Getopt(argv, st);
    match found
    case Eof => (u, p, Parsed)
    case Fault => (u, p, Crashed)
    case Opt(c) =>
      if c in NIMS && count != Some(ParamNum(c)) then (u, p, Failed)
      else if c in NIMS then
        if p.nims[c].position + ParamNum(c) >= |argv| then (u, p, Crashed)
        else ParseFrom(argv, u, ReadValues(argv, p, c, strtol), strtol)
      else if c == 'q' then (u, p, TaskExit)
      else (u, p, Failed)
  }

  /** `idle` is the flag `g_bTaskQuit`. Past the early exit `optind` is reset; `sp` never is. */
  function ParseArgs(argv: seq<string>, st: Scan, idle: bool, p: Params, strtol: string -> int): (Scan, Params, Outcome)
    requires Complete(p) && 1 <= st.sp
  {
    if |argv| < 4 && idle then (st, p, Failed)
    else ParseFrom(argv, st.(optind := 1), FindPositions(argv, p), strtol)
  }

  // ----- Round trip -----

  /** An option with its arguments. */
  datatype Group = Group(option: char, args: seq<string>)

  predicate DashFree(args: seq<string>) {
    forall k :: 0 <= k < |args| ==> CharAt(args[k], 0) != '-'
  }

  /** Frequency, symbol rate and modulation for cable, two more for satellite, frequency and bandwidth for
      terrestrial. */
  predicate RightCount(option: char, n: nat) {
    || (option in {'c', 'j'} && n == 3)
    || (option in {'s', 'o'} && n == 5)
    || (option == 't' && n == 2)
  }

  predicate WellFormed(g: Group) {
    RightCount(g.option, |g.args|) && DashFree(g.args)
  }

  lemma RightIsRequired(option: char, n: nat)
    ensures RightCount(option, n) <==> option in NIMS && n == ParamNum(option)
  {
  }

  predicate AllWellFormed(gs: seq<Group>) {
    forall i :: 0 <= i < |gs| ==> WellFormed(gs[i])
  }

  function Words(g: Group): seq<string> {
    [['-', g.option]] + g.args
  }

  function Flatten(gs: seq<Group>): seq<string> {
    if gs == [] then [] else Flatten(gs[..|gs| - 1]) + Words(gs[|gs| - 1])
  }

  function CommandLine(program: string, gs: seq<Group>): seq<string> {
    [program] + Flatten(gs)
  }

  /** Where group `i` starts on the command line. */
  function Start(gs: seq<Group>, i: nat): nat
    requires i <= |gs|
  {
    1 + |Flatten(gs[..i])|
  }

  /** The group that counts for an option: the last one with that letter. */
  function LastGroup(gs: seq<Group>, x: char): Option<nat> {
    if gs == [] then None
    else if gs[|gs| - 1].option == x then Some(|gs| - 1)
    else LastGroup(gs[..|gs| - 1], x)
  }

  lemma {:induction false} FlattenSplits(gs: seq<Group>, i: nat)
    requires i < |gs|
    ensures Flatten(gs[..i + 1]) == Flatten(gs[..i]) + Words(gs[i])
    ensures Flatten(gs[..i + 1]) <= Flatten(gs)
  {
    assert gs[..i + 1][..i] == gs[..i];
    if i + 1 < |gs| {
      var init := gs[..|gs| - 1];
      FlattenSplits(init, i);
      assert init[..i + 1] == gs[..i + 1];
    } else {
      assert gs[..i + 1] == gs;
    }
  }

  /** Group `i` occupies its option and its arguments, in order. */
  lemma GroupInPlace(program: string, gs: seq<Group>, i: nat)
    requires i < |gs|
    ensures var argv := CommandLine(program, gs); var at := Start(gs, i); var g := gs[i];
            && Start(gs, i + 1) == at + 1 + |g.args| <= |argv|
            && argv[at] == ['-', g.option]
            && argv[at + 1..at + 1 + |g.args|] == g.args
  {
    var before, after := Parts(program, gs, i);
    hide CommandLine, Start, Flatten;
    WordsInTheMiddle(before, gs[i], after);
  }

  lemma Parts(program: string, gs: seq<Group>, i: nat) returns (before: seq<string>, after: seq<string>)
    requires i < |gs|
    ensures CommandLine(program, gs) == before + Words(gs[i]) + after
    ensures |before| == Start(gs, i) && Start(gs, i + 1) == |before| + 1 + |gs[i].args|
  {
    FlattenSplits(gs, i);
    hide Flatten;
    var upto := Flatten(gs[..i + 1]);
    before, after := [program] + Flatten(gs[..i]), Flatten(gs)[|upto|..];
    assert Flatten(gs) == upto + after;
  }

  lemma WordsInTheMiddle(before: seq<string>, g: Group, after: seq<string>)
    ensures var argv := before + Words(g) + after; var at := |before|;
            && argv[at] == ['-', g.option]
            && argv[at + 1..at + 1 + |g.args|] == g.args
  {
    var argv := before + Words(g) + after;
    assert argv == (before + [['-', g.option]]) + g.args + after;
  }

  lemma {:induction false} CountGroup(argv: seq<string>, i: nat, n: nat)
    requires i + n <= |argv| && (i + n < |argv| ==> CharAt(argv[i + n], 0) == '-')
    requires forall k :: i <= k < i + n ==> CharAt(argv[k], 0) != '-'
    ensures CountArgs(argv, i) == n
    decreases n
  {
    if n > 0 {
      CountGroup(argv, i + 1, n - 1);
    }
  }

  /** The scan takes one group per call. */
  lemma ScanGroup(program: string, gs: seq<Group>, i: nat)
    requires AllWellFormed(gs) && i < |gs|
    ensures Getopt(CommandLine(program, gs), Scan(1, Start(gs, i))) ==
            (Scan(1, Start(gs, i + 1)), Opt(gs[i].option), Some(ParamNum(gs[i].option)))
  {
    hide Flatten, Getopt;
    var argv, at, g := CommandLine(program, gs), Start(gs, i), gs[i];
    GroupInPlace(program, gs, i);
    if i + 1 < |gs| {
      GroupInPlace(program, gs, i + 1);
    } else {
      assert gs[..i + 1] == gs;
    }
    assert WellFormed(g);
    forall k | at + 1 <= k < at + 1 + |g.args|
      ensures CharAt(argv[k], 0) != '-'
    {
      assert argv[k] == argv[at + 1..at + 1 + |g.args|][k - (at + 1)];
    }
    CountGroup(argv, at + 1, |g.args|);
    ScanOption(argv, at, g.option);
  }

  lemma ScanOption(argv: seq<string>, at: nat, c: char)
    requires at + 1 < |argv| && argv[at] == ['-', c] && c in NIMS
    ensures Getopt(argv, Scan(1, at)) ==
            (Scan(1, at + 1 + CountArgs(argv, at + 1)), Opt(c), Some(CountArgs(argv, at + 1)))
  {
    OptionLetters(c);
    hide IndexOf, TakesArgs, CountArgs;
    assert argv[at][1] == c && "--"[1] != c;
  }

  /** Dash-less arguments are not mistaken for options: the recorded position of an option is the start
      of its last group. */
  lemma {:induction false} PositionOfGroup(program: string, gs: seq<Group>, x: char, default: nat, k: nat)
    requires AllWellFormed(gs) && LastGroup(gs, x) == Some(k)
    ensures k < |gs| && gs[k].option == x
    ensures LastPosition(CommandLine(program, gs), x, default) == Start(gs, k)
    decreases |gs|
  {
    var n := |gs| - 1;
    var argv, at, g := CommandLine(program, gs), Start(gs, n), gs[n];
    GroupInPlace(program, gs, n);
    CommandLineFront(program, gs);
    assert WellFormed(g);
    hide Flatten, CommandLine, Start, LastPosition, WellFormed;
    PositionInGroup(argv, x, default, at, g);
    if g.option != x {
      PositionOfGroup(program, gs[..n], x, default, k);
    }
  }

  lemma CommandLineFront(program: string, gs: seq<Group>)
    requires gs != []
    ensures var n := |gs| - 1; var argv := CommandLine(program, gs);
            && Start(gs, n) <= |argv| && argv[..Start(gs, n)] == CommandLine(program, gs[..n])
            && |argv| == Start(gs, n + 1)
            && forall k :: 0 <= k <= n ==> Start(gs[..n], k) == Start(gs, k)
  {
    var n := |gs| - 1;
    assert gs[..n + 1] == gs;
    forall k | 0 <= k <= n
      ensures Start(gs[..n], k) == Start(gs, k)
    {
      assert gs[..n][..k] == gs[..k];
    }
  }

  lemma PositionInGroup(argv: seq<string>, x: char, default: nat, at: nat, g: Group)
    requires WellFormed(g) && |argv| == at + 1 + |g.args| && argv[at] == ['-', g.option]
    requires argv[at + 1..at + 1 + |g.args|] == g.args
    ensures LastPosition(argv, x, default) == if g.option == x then at else LastPosition(argv[..at], x, default)
  {
    forall k | at + 1 <= k < |argv|
      ensures CharAt(argv[k], 0) != '-'
    {
      assert argv[k] == argv[at + 1..at + 1 + |g.args|][k - (at + 1)];
    }
    SkipArgs(argv, x, default, at + 1);
    assert argv[..at + 1][..at] == argv[..at] && argv[..at + 1][at] == ['-', g.option];
    assert g.option != x ==> ['-', g.option][1] != ['-', x][1];
  }

  lemma {:induction false} SkipArgs(argv: seq<string>, x: char, default: nat, from: nat)
    requires from <= |argv| && forall k :: from <= k < |argv| ==> CharAt(argv[k], 0) != '-'
    ensures LastPosition(argv, x, default) == LastPosition(argv[..from], x, default)
    decreases |argv|
  {
    if from < |argv| {
      SkipArgs(argv[..|argv| - 1], x, default, from);
      assert argv[..|argv| - 1][..from] == argv[..from];
    } else {
      assert argv[..from] == argv;
    }
  }

  function Values(g: Group, strtol: string -> int): seq<int> {
    seq(|g.args|, k requires 0 <= k < |g.args| => strtol(g.args[k]))
  }

  lemma {:induction false} GroupHasLast(gs: seq<Group>, i: nat)
    requires i < |gs|
    ensures LastGroup(gs, gs[i].option).Some? && i <= LastGroup(gs, gs[i].option).value < |gs|
    ensures gs[LastGroup(gs, gs[i].option).value].option == gs[i].option
  {
    if gs[|gs| - 1].option != gs[i].option {
      GroupHasLast(gs[..|gs| - 1], i);
    }
  }

  /** Every option that occurs has its recorded position at its last group. */
  ghost predicate Placed(gs: seq<Group>, p: Params) {
    && Complete(p)
    && forall x :: x in NIMS && LastGroup(gs, x).Some? ==>
         LastGroup(gs, x).value < |gs| && p.nims[x].position == Start(gs, LastGroup(gs, x).value)
  }

  /** What the scan does with one group: it loads the values of the last group with the same option. */
  function Load(gs: seq<Group>, i: nat, p: Params, strtol: string -> int): (q: Params)
    requires Complete(p) && i < |gs| && gs[i].option in NIMS
    ensures Complete(q)
  {
    GroupHasLast(gs, i);
    var c := gs[i].option;
    Params(p.nims[c := Nim(p.nims[c].position, Values(gs[LastGroup(gs, c).value], strtol))], Some(c))
  }

  lemma ReadsLastGroup(program: string, gs: seq<Group>, i: nat, p: Params, strtol: string -> int)
    requires AllWellFormed(gs) && i < |gs| && Placed(gs, p)
    ensures var argv := CommandLine(program, gs); var c := gs[i].option;
            && c in NIMS && p.nims[c].position + ParamNum(c) < |argv|
            && ReadValues(argv, p, c, strtol) == Load(gs, i, p, strtol)
  {
    GroupHasLast(gs, i);
    var c := gs[i].option;
    assert WellFormed(gs[i]);
    var k := LastGroup(gs, c).value;
    assert WellFormed(gs[k]);
    GroupInPlace(program, gs, k);
    assert p.nims[c].position == Start(gs, k);
    hide CommandLine, Start, LastGroup, WellFormed, AllWellFormed, Numbers, Values, Placed;
    NumbersOfGroup(CommandLine(program, gs), p.nims[c].position, gs[k], strtol);
  }

  lemma LoadStaysPlaced(gs: seq<Group>, i: nat, p: Params, strtol: string -> int)
    requires i < |gs| && gs[i].option in NIMS && Placed(gs, p)
    ensures Placed(gs, Load(gs, i, p, strtol))
  {
    hide LastGroup, Start, Values;
  }

  lemma NumbersOfGroup(argv: seq<string>, at: nat, g: Group, strtol: string -> int)
    requires at + |g.args| < |argv|
    requires argv[at + 1..at + 1 + |g.args|] == g.args
    ensures Numbers(argv, at, |g.args|, strtol) == Values(g, strtol)
  {
    forall k | 0 <= k < |g.args|
      ensures argv[at + 1 + k] == g.args[k]
    {
      assert argv[at + 1..at + 1 + |g.args|][k] == argv[at + 1 + k];
    }
  }

  /** The result of scanning the groups from `i` on. */
  function LoadFrom(gs: seq<Group>, i: nat, p: Params, strtol: string -> int): (q: Params)
    requires Complete(p) && AllWellFormed(gs) && i <= |gs|
    ensures Complete(q)
    decreases |gs| - i
  {
    if i == |gs| then p
    else
      assert WellFormed(gs[i]);
      LoadFrom(gs, i + 1, Load(gs, i, p, strtol), strtol)
  }

  lemma {:induction false} ScanLoads(program: string, gs: seq<Group>, i: nat, p: Params, strtol: string -> int)
    requires AllWellFormed(gs) && i <= |gs| && Placed(gs, p)
    ensures ParseFrom(CommandLine(program, gs), Scan(1, Start(gs, i)), p, strtol) ==
            (Scan(1, |CommandLine(program, gs)|), LoadFrom(gs, i, p, strtol), Parsed)
    decreases |gs| - i
  {
    var argv := CommandLine(program, gs);
    if i == |gs| {
      assert gs[..i] == gs;
      assert Start(gs, i) == |argv|;
    } else {
      ScanGroup(program, gs, i);
      ReadsLastGroup(program, gs, i, p, strtol);
      LoadStaysPlaced(gs, i, p, strtol);
      hide CommandLine, Start, Getopt, Load, ReadValues, Placed;
      ScanLoads(program, gs, i + 1, Load(gs, i, p, strtol), strtol);
    }
  }

  /** The final record of each option, and the option used last. */
  lemma {:induction false} LoadedResult(gs: seq<Group>, i: nat, p: Params, strtol: string -> int, x: char)
    requires Complete(p) && AllWellFormed(gs) && i <= |gs| && x in NIMS
    ensures var q := LoadFrom(gs, i, p, strtol); var last := LastGroup(gs, x);
            && q.nims[x].position == p.nims[x].position
            && (last.Some? && i <= last.value < |gs| ==> q.nims[x].values == Values(gs[last.value], strtol))
            && ((forall j :: i <= j < |gs| ==> gs[j].option != x) ==> q.nims[x] == p.nims[x])
            && q.nimUse == if i == |gs| then p.nimUse else Some(gs[|gs| - 1].option)
    decreases |gs| - i
  {
    hide Values;
    if i < |gs| {
      assert WellFormed(gs[i]);
      GroupHasLast(gs, i);
      LoadedResult(gs, i + 1, Load(gs, i, p, strtol), strtol, x);
      if last: nat :| LastGroup(gs, x) == Some(last) {
        LastGroupIsOne(gs, x);
        if last == i {
          NoneAfterLast(gs, x);
        }
      }
    }
  }

  lemma {:induction false} LastGroupIsOne(gs: seq<Group>, x: char)
    requires LastGroup(gs, x).Some?
    ensures LastGroup(gs, x).value < |gs| && gs[LastGroup(gs, x).value].option == x
  {
    if gs[|gs| - 1].option != x {
      LastGroupIsOne(gs[..|gs| - 1], x);
    }
  }

  lemma NoneAfterLast(gs: seq<Group>, x: char)
    ensures forall j :: (if LastGroup(gs, x).Some? then LastGroup(gs, x).value else -1) < j < |gs| ==> gs[j].option != x
  {
    forall j | (if LastGroup(gs, x).Some? then LastGroup(gs, x).value else -1) < j < |gs|
      ensures gs[j].option != x
    {
      if gs[j].option == x {
        GroupHasLast(gs, j);
      }
    }
  }

  /** What a parse of complete groups must leave: everything consumed, each option with the numbers of
      its own last group, options that do not occur with their old numbers, and the tuner of the last
      group in use. */
  ghost predicate ReadFrom(program: string, gs: seq<Group>, st: Scan, p: Params, q: Params, strtol: string -> int)
    requires Complete(p) && gs != []
  {
    && st == Scan(1, |CommandLine(program, gs)|)
    && Complete(q) && q.nimUse == Some(gs[|gs| - 1].option)
    && forall x :: x in NIMS ==>
         match LastGroup(gs, x)
         case Some(k) => k < |gs| && q.nims[x] == Nim(Start(gs, k), Values(gs[k], strtol))
         case None => q.nims[x].values == p.nims[x].values
  }

  lemma CommandLineIsLong(program: string, gs: seq<Group>)
    requires AllWellFormed(gs) && gs != []
    ensures |CommandLine(program, gs)| >= 4 && CommandLine(program, gs)[1] == ['-', gs[0].option] && Start(gs, 0) == 1
  {
    assert WellFormed(gs[0]);
    GroupInPlace(program, gs, 0);
    assert gs[..0] == [];
  }

  /** From the start of a word, every command line made of complete option groups, in any order and with
      repetitions, is read back. */
  lemma GroupsAreRead(program: string, gs: seq<Group>, optind: nat, idle: bool, p: Params, strtol: string -> int)
    requires AllWellFormed(gs) && gs != [] && Complete(p)
    ensures var (u, q, outcome) := ParseArgs(CommandLine(program, gs), Scan(1, optind), idle, p, strtol);
            outcome == Parsed && ReadFrom(program, gs, u, p, q, strtol)
  {
    var argv := CommandLine(program, gs);
    var q0 := FindPositions(argv, p);
    CommandLineIsLong(program, gs);
    hide CommandLine, Start, ParseFrom, LoadFrom, Values;
    forall x | x in NIMS && LastGroup(gs, x).Some?
      ensures LastGroup(gs, x).value < |gs| && q0.nims[x].position == Start(gs, LastGroup(gs, x).value)
    {
      PositionOfGroup(program, gs, x, p.nims[x].position, LastGroup(gs, x).value);
    }
    ScanLoads(program, gs, 0, q0, strtol);
    LoadedResult(gs, 0, q0, strtol, 'c');
    forall x | x in NIMS
      ensures match LastGroup(gs, x)
              case Some(k) =>
                k < |gs| && LoadFrom(gs, 0, q0, strtol).nims[x] == Nim(Start(gs, k), Values(gs[k], strtol))
              case None => LoadFrom(gs, 0, q0, strtol).nims[x].values == p.nims[x].values
    {
      LoadedResult(gs, 0, q0, strtol, x);
      NoneAfterLast(gs, x);
    }
  }

  /** For every command line made of complete option groups, in any order and with repetitions, and every
      state of the scanner: the parse succeeds, and then reads everything back, if and only if the scanner
      stands at the start of a word; inside a word it runs off the two-character option. */
  lemma RoundTrip(program: string, gs: seq<Group>, st: Scan, idle: bool, p: Params, strtol: string -> int)
    requires AllWellFormed(gs) && gs != [] && Complete(p) && 1 <= st.sp
    ensures var (u, q, outcome) := ParseArgs(CommandLine(program, gs), st, idle, p, strtol);
            && (outcome == Parsed <==> st.sp == 1)
            && (st.sp == 1 ==> ReadFrom(program, gs, u, p, q, strtol))
            && (st.sp > 1 ==> outcome == Crashed)
  {
    CommandLineIsLong(program, gs);
    if st.sp == 1 {
      hide ParseArgs, ReadFrom;
      GroupsAreRead(program, gs, st.optind, idle, p, strtol);
    } else {
      hide CommandLine, FindPositions;
      assert CharAt(['-', gs[0].option], st.sp) == '\0';
    }
  }

  // ----- Single groups -----

  lemma OneGroup(program: string, option: char, args: seq<string>)
    ensures CommandLine(program, [Group(option, args)]) == [program, ['-', option]] + args
    ensures Start([Group(option, args)], 0) == 1
  {
    var gs := [Group(option, args)];
    assert gs[..0] == [];
    assert Flatten(gs) == Flatten([]) + Words(gs[0]) == Words(gs[0]);
  }

  /** A command line of one tuner option is parsed, into the numbers of its arguments in their order, if and only if
      there are 3 of them for `c` and `j`, 5 for `s` and `o`, 2 for `t`. Without any the scanner runs off the end,
      unless the line is refused for its length. */
  lemma SingleOption(program: string, option: char, args: seq<string>, optind: nat, idle: bool, p: Params,
                     strtol: string -> int)
    requires option in NIMS && DashFree(args) && Complete(p)
    ensures var (u, q, outcome) := ParseArgs([program, ['-', option]] + args, Scan(1, optind), idle, p, strtol);
            && outcome ==
               (if RightCount(option, |args|) then Parsed else if args == [] && !idle then Crashed else Failed)
            && (RightCount(option, |args|) ==>
                  && Complete(q) && q.nimUse == Some(option) && |q.nims[option].values| == |args|
                  && forall k :: 0 <= k < |args| ==> q.nims[option].values[k] == strtol(args[k]))
  {
    hide ParseArgs;
    if RightCount(option, |args|) {
      var gs := [Group(option, args)];
      OneGroup(program, option, args);
      assert WellFormed(gs[0]);
      GroupsAreRead(program, gs, optind, idle, p, strtol);
    } else {
      WrongCount(program, option, args, optind, idle, p, strtol);
    }
  }

  lemma WrongCount(program: string, option: char, args: seq<string>, optind: nat, idle: bool, p: Params,
                   strtol: string -> int)
    requires option in NIMS && DashFree(args) && Complete(p) && !RightCount(option, |args|)
    ensures ParseArgs([program, ['-', option]] + args, Scan(1, optind), idle, p, strtol).2 ==
            if args == [] && !idle then Crashed else Failed
  {
    var argv := [program, ['-', option]] + args;
    hide ParseFrom, CharAt, Getopt, RightCount;
    if args == [] {
      ScanOffTheEnd(argv, option);
      FaultCrashes(argv, FindPositions(argv, p), strtol);
    } else {
      assert forall k :: 2 <= k < |argv| ==> argv[k] == args[k - 2];
      CountGroup(argv, 2, |args|);
      ScanOption(argv, 1, option);
      RightIsRequired(option, |args|);
      WrongCountFails(argv, FindPositions(argv, p), strtol);
    }
  }

  lemma FaultCrashes(argv: seq<string>, p: Params, strtol: string -> int)
    requires Complete(p) && Getopt(argv, Scan(1, 1)).1 == Fault
    ensures ParseFrom(argv, Scan(1, 1), p, strtol).2 == Crashed
  {
    hide Getopt;
  }

  lemma WrongCountFails(argv: seq<string>, p: Params, strtol: string -> int)
    requires Complete(p)
    requires var (u, found, count) := Getopt(argv, Scan(1, 1));
             found.Opt? && found.c in NIMS && count != Some(ParamNum(found.c))
    ensures ParseFrom(argv, Scan(1, 1), p, strtol).2 == Failed
  {
    hide Getopt;
  }

  lemma ScanOffTheEnd(argv: seq<string>, option: char)
    requires |argv| == 2 && argv[1] == ['-', option] && option in NIMS
    ensures Getopt(argv, Scan(1, 1)) == (Scan(1, 2), Fault, None)
  {
    OptionLetters(option);
    hide IndexOf, TakesArgs;
    assert argv[1][1] == option && "--"[1] != option;
  }

  /** The usage lines of the program, word for word. */
  lemma UsageLines(idle: bool, p: Params, strtol: string -> int)
    requires Complete(p)
    ensures var q := ParseArgs(["usbcam", "-t", "585", "8"], Scan(1, 1), idle, p, strtol);
            && q.2 == Parsed && Complete(q.1) && q.1.nims['t'].values == [strtol("585"), strtol("8")]
    ensures var q := ParseArgs(["usbcam", "-c", "314", "6875", "64"], Scan(1, 1), idle, p, strtol);
            && q.2 == Parsed && Complete(q.1)
            && q.1.nims['c'].values == [strtol("314"), strtol("6875"), strtol("64")]
    ensures ParseArgs(["usbcam", "-t", "585"], Scan(1, 1), idle, p, strtol).2 == Failed
  {
    hide ParseArgs;
    assert CharAt("585", 0) == '5' && CharAt("8", 0) == '8';
    assert CharAt("314", 0) == '3' && CharAt("6875", 0) == '6' && CharAt("64", 0) == '6';
    assert ["usbcam", "-t", "585", "8"] == ["usbcam", ['-', 't']] + ["585", "8"];
    SingleOption("usbcam", 't', ["585", "8"], 1, idle, p, strtol);
    assert ["usbcam", "-c", "314", "6875", "64"] == ["usbcam", ['-', 'c']] + ["314", "6875", "64"];
    SingleOption("usbcam", 'c', ["314", "6875", "64"], 1, idle, p, strtol);
    assert ["usbcam", "-t", "585"] == ["usbcam", ['-', 't']] + ["585"];
    SingleOption("usbcam", 't', ["585"], 1, idle, p, strtol);
  }

  /** Without a running task a command line of fewer than four words is refused and nothing changes. */
  lemma ShortLine(argv: seq<string>, st: Scan, p: Params, strtol: string -> int)
    requires Complete(p) && 1 <= st.sp && |argv| <= 3
    ensures ParseArgs(argv, st, true, p, strtol) == (st, p, Failed)
  {
  }

  // ----- Where a parse leaves the scanner -----

  /** The letters that take no arguments. Each of them ends the parse. */
  const BARE: set<char> := {'?', 'h', 'H', 'q'}

  lemma BareLetters(c: char)
    ensures c in BARE <==> c != ':' && IndexOf(OPTS, c) < |OPTS| && !TakesArgs(c)
    ensures c in NIMS <==> c != ':' && IndexOf(OPTS, c) < |OPTS| && TakesArgs(c)
  {
    hide IndexOf, TakesArgs;
    if c in BARE {
      BareIndex(c);
    } else if c in NIMS {
      OptionLetters(c);
    } else {
      OtherLetters(IndexOf(OPTS, c));
    }
  }

  lemma BareIndex(c: char)
    requires c in BARE
    ensures IndexOf(OPTS, c) < |OPTS| && !TakesArgs(c)
  {
    hide IndexOf;
    var k := if c == '?' then 1 else if c == 'h' then 2 else if c == 'H' then 3 else 14;
    assert OPTS[k] == c && c != ':' && (k == 14 || OPTS[k + 1] != ':');
    LettersDiffer(k);
    IndexAt(OPTS, k);
  }

  lemma OtherLetters(i: nat)
    requires i < |OPTS| ==> OPTS[i] !in BARE && OPTS[i] !in NIMS
    ensures i < |OPTS| ==> OPTS[i] == ':'
  {
  }

  /** The scanner is about to take a tuner option with the right number of arguments, and its values can
      be read from the recorded position. */
  predicate TakesGroup(argv: seq<string>, st: Scan, p: Params)
    requires Complete(p)
  {
    && st.optind + 1 < |argv| && (st.sp == 1 ==> CharAt(argv[st.optind], 0) == '-')
    && var c := CharAt(argv[st.optind], st.sp);
       && c in NIMS && CountArgs(argv, st.optind + 1) == ParamNum(c)
       && p.nims[c].position + ParamNum(c) < |argv|
  }

  /** The word, and the place in it, behind all the groups that are taken. */
  function Stop(argv: seq<string>, st: Scan, p: Params): Scan
    requires Complete(p)
    decreases |argv| - st.optind
  {
    if TakesGroup(argv, st, p) then
      Stop(argv, Scan(1, st.optind + 1 + ParamNum(CharAt(argv[st.optind], st.sp))), p)
    else st
  }

  /** A letter that takes no arguments, with another character behind it. */
  predicate Strands(argv: seq<string>, st: Scan) {
    && st.optind < |argv| && (st.sp == 1 ==> CharAt(argv[st.optind], 0) == '-')
    && CharAt(argv[st.optind], st.sp) in BARE && CharAt(argv[st.optind], st.sp + 1) != '\0'
  }

  predicate AtEnd(argv: seq<string>, st: Scan) {
    st.sp == 1 && (st.optind >= |argv| || argv[st.optind] == "--")
  }

  predicate AtQuit(argv: seq<string>, st: Scan) {
    && st.optind < |argv| && (st.sp == 1 ==> CharAt(argv[st.optind], 0) == '-')
    && CharAt(argv[st.optind], st.sp) == 'q'
  }

  /** The scanner stands inside a word that has ended, or at a tuner option that is the last word, or at one whose
      values would be read from behind the command line. */
  predicate RunsOff(argv: seq<string>, st: Scan, p: Params)
    requires Complete(p)
  {
    || (st.sp > 1 && (st.optind >= |argv| || CharAt(argv[st.optind], st.sp) == '\0'))
    || (&& st.optind < |argv| && (st.sp == 1 ==> CharAt(argv[st.optind], 0) == '-')
        && var c := CharAt(argv[st.optind], st.sp);
           && c in NIMS
           && (|| st.optind + 1 == |argv|
               || (CountArgs(argv, st.optind + 1) == ParamNum(c) && p.nims[c].position + ParamNum(c) >= |argv|)))
  }

  /** Where a parse that stops at `st` leaves the scanner: behind "--", before a word without a dash, behind the
      arguments of a tuner option, and otherwise behind the word if that ends there, at the next letter if this one
      was fine, at the start of the same word if it was not. */
  function Behind(argv: seq<string>, st: Scan): Scan {
    if st.optind >= |argv| then st
    else
      var word := argv[st.optind];
      var c := CharAt(word, st.sp);
      if AtEnd(argv, st) then Scan(1, st.optind + 1)
      else if st.sp == 1 && (CharAt(word, 0) != '-' || c == '\0') then st
      else if c in NIMS then Scan(1, st.optind + 1 + CountArgs(argv, st.optind + 1))
      else if CharAt(word, st.sp + 1) == '\0' then Scan(1, st.optind + 1)
      else Scan(if c in BARE then st.sp + 1 else 1, st.optind)
  }

  ghost predicate SamePositions(p: Params, q: Params)
    requires Complete(p) && Complete(q)
  {
    forall x :: x in NIMS ==> p.nims[x].position == q.nims[x].position
  }

  /** A call that does not take a group decides the parse. */
  lemma StopDecides(argv: seq<string>, st: Scan, p: Params, strtol: string -> int)
    requires Complete(p) && 1 <= st.sp && !TakesGroup(argv, st, p)
    ensures var (u, q, outcome) := ParseFrom(argv, st, p, strtol);
            && (outcome == Parsed <==> AtEnd(argv, st))
            && (outcome == TaskExit <==> AtQuit(argv, st))
            && (outcome == Crashed <==> RunsOff(argv, st, p))
            && (outcome != Crashed ==> u == Behind(argv, st))
            && (outcome != Crashed ==> u.sp == if Strands(argv, st) then st.sp + 1 else 1)
  {
    hide IndexOf, TakesArgs, CountArgs;
    if st.optind < |argv| {
      BareLetters(CharAt(argv[st.optind], st.sp));
    }
  }

  lemma GroupIsTaken(argv: seq<string>, st: Scan, p: Params, strtol: string -> int)
    requires Complete(p) && 1 <= st.sp && TakesGroup(argv, st, p)
    ensures var c := CharAt(argv[st.optind], st.sp);
            ParseFrom(argv, st, p, strtol) ==
            ParseFrom(argv, Scan(1, st.optind + 1 + ParamNum(c)), ReadValues(argv, p, c, strtol), strtol)
  {
    hide IndexOf, TakesArgs, CountArgs, ReadValues;
    var c := CharAt(argv[st.optind], st.sp);
    OptionLetters(c);
    assert c != '-' && "--"[1] == '-';
    assert Getopt(argv, st) == (Scan(1, st.optind + 1 + ParamNum(c)), Opt(c), Some(ParamNum(c)));
  }

  /** A parse from anywhere stops where the groups end. It succeeds exactly if nothing, or "--", is left there, asks
      the task to exit exactly at a `q`, and faults exactly if it runs off a word or the line. Unless it faults, it
      leaves the scanner inside a word exactly if it stopped at a letter without arguments that has another
      character behind it. */
  lemma {:induction false} ScanStops(argv: seq<string>, st: Scan, p0: Params, p: Params, strtol: string -> int)
    requires Complete(p0) && Complete(p) && SamePositions(p0, p) && 1 <= st.sp
    ensures var (u, q, outcome) := ParseFrom(argv, st, p, strtol); var stop := Stop(argv, st, p0);
            && (outcome == Parsed <==> AtEnd(argv, stop))
            && (outcome == TaskExit <==> AtQuit(argv, stop))
            && (outcome == Crashed <==> RunsOff(argv, stop, p0))
            && (outcome != Crashed ==> u == Behind(argv, stop))
            && (outcome != Crashed ==> u.sp == if Strands(argv, stop) then stop.sp + 1 else 1)
    decreases |argv| - st.optind
  {
    hide ParseFrom, CountArgs, Strands, AtEnd, AtQuit, Behind;
    if TakesGroup(argv, st, p) {
      var c := CharAt(argv[st.optind], st.sp);
      GroupIsTaken(argv, st, p, strtol);
      ScanStops(argv, Scan(1, st.optind + 1 + ParamNum(c)), p0, ReadValues(argv, p, c, strtol), strtol);
    } else {
      StopDecides(argv, st, p, strtol);
    }
  }

  // ----- One command line after another -----

  datatype Command = Command(argv: seq<string>, idle: bool)

  predicate Rejected(c: Command) {
    |c.argv| < 4 && c.idle
  }

  /** The command lines of a session, parsed one after the other by the same scanner into the same record.
      `None` if one of them faults. */
  function Session(st: Scan, p: Params, cmds: seq<Command>, strtol: string -> int): (r: Option<(Scan, Params)>)
    requires Complete(p) && 1 <= st.sp
    ensures r.Some? ==> 1 <= r.value.0.sp && Complete(r.value.1)
  {
    if cmds == [] then Some((st, p))
    else
      var before := Session(st, p, cmds[..|cmds| - 1], strtol);
      if before.None? then None
      else
        var c := cmds[|cmds| - 1];
        ParseArgsKeeps(c.argv, before.value.0, c.idle, before.value.1, strtol);
        var (u, q, outcome) := ParseArgs(c.argv, before.value.0, c.idle, before.value.1, strtol);
        if outcome == Crashed then None else Some((u, q))
  }

  lemma {:induction false} ParseKeeps(argv: seq<string>, st: Scan, p: Params, strtol: string -> int)
    requires Complete(p) && 1 <= st.sp
    ensures var (u, q, outcome) := ParseFrom(argv, st, p, strtol); 1 <= u.sp && Complete(q)
    decreases |argv| - st.optind
  {
    hide ReadValues, TakesArgs, IndexOf;
    var (u, found, count) := Getopt(argv, st);
    hide Getopt;
    if found.Opt? && found.c in NIMS && count == Some(ParamNum(found.c)) &&
        p.nims[found.c].position + ParamNum(found.c) < |argv| {
      ParseKeeps(argv, u, ReadValues(argv, p, found.c, strtol), strtol);
    }
  }

  lemma ParseArgsKeeps(argv: seq<string>, st: Scan, idle: bool, p: Params, strtol: string -> int)
    requires Complete(p) && 1 <= st.sp
    ensures var (u, q, outcome) := ParseArgs(argv, st, idle, p, strtol); 1 <= u.sp && Complete(q)
  {
    hide ParseFrom;
    ParseKeeps(argv, st.(optind := 1), FindPositions(argv, p), strtol);
  }

  /** The last command line of the session that was looked at did not stop at a letter that strands the
      scanner. */
  ghost predicate Clean(p: Params, cmds: seq<Command>, strtol: string -> int)
    requires Complete(p)
  {
    cmds == [] ||
    var n := |cmds| - 1;
    if Rejected(cmds[n]) then Clean(p, cmds[..n], strtol)
    else
      var before := Session(Scan(1, 1), p, cmds[..n], strtol);
      before.Some? ==>
        var argv := cmds[n].argv;
        !Strands(argv, Stop(argv, before.value.0.(optind := 1), FindPositions(argv, before.value.1)))
  }

  /** After any session of a new scanner. */
  lemma {:induction false} CleanMeansWordStart(p: Params, cmds: seq<Command>, strtol: string -> int)
    requires Complete(p) && Session(Scan(1, 1), p, cmds, strtol).Some?
    ensures Session(Scan(1, 1), p, cmds, strtol).value.0.sp == 1 <==> Clean(p, cmds, strtol)
  {
    if cmds != [] {
      var n := |cmds| - 1;
      var c := cmds[n];
      var (st, q) := Session(Scan(1, 1), p, cmds[..n], strtol).value;
      if Rejected(c) {
        CleanMeansWordStart(p, cmds[..n], strtol);
      } else {
        hide Strands, Stop, ParseFrom;
        var positions := FindPositions(c.argv, q);
        StopIsInAWord(c.argv, st.(optind := 1), positions);
        ScanStops(c.argv, st.(optind := 1), positions, positions, strtol);
      }
    }
  }

  lemma {:induction false} StopIsInAWord(argv: seq<string>, st: Scan, p: Params)
    requires Complete(p) && 1 <= st.sp
    ensures 1 <= Stop(argv, st, p).sp
    decreases |argv| - st.optind
  {
    hide CountArgs;
    if TakesGroup(argv, st, p) {
      StopIsInAWord(argv, Scan(1, st.optind + 1 + ParamNum(CharAt(argv[st.optind], st.sp))), p);
    }
  }

  /** After any session of a new scanner, a command line of complete groups is parsed, and read back, if
      and only if the session is clean. */
  lemma SessionRoundTrip(p: Params, cmds: seq<Command>, program: string, gs: seq<Group>, idle: bool,
                         strtol: string -> int)
    requires Complete(p) && AllWellFormed(gs) && gs != [] && Session(Scan(1, 1), p, cmds, strtol).Some?
    ensures var (st, q) := Session(Scan(1, 1), p, cmds, strtol).value;
            var (u, r, outcome) := ParseArgs(CommandLine(program, gs), st, idle, q, strtol);
            && (outcome == Parsed <==> Clean(p, cmds, strtol))
            && (outcome == Parsed ==> ReadFrom(program, gs, u, q, r, strtol))
  {
    hide ParseArgs, ReadFrom, Clean;
    var (st, q) := Session(Scan(1, 1), p, cmds, strtol).value;
    CleanMeansWordStart(p, cmds, strtol);
    RoundTrip(program, gs, st, idle, q, strtol);
  }

  /** No word starts with a dash, a letter without arguments and another character. */
  predicate NoClusters(argv: seq<string>) {
    forall i :: 0 <= i < |argv| ==> !Strands(argv, Scan(1, i))
  }

  lemma {:induction false} StopAtWordStart(argv: seq<string>, i: nat, p: Params)
    requires Complete(p)
    ensures Stop(argv, Scan(1, i), p).sp == 1
    decreases |argv| - i
  {
    hide CountArgs;
    if TakesGroup(argv, Scan(1, i), p) {
      StopAtWordStart(argv, i + 1 + ParamNum(CharAt(argv[i], 1)), p);
    }
  }

  /** A condition on the words alone: a session without such words is clean. */
  lemma {:induction false} NoClustersIsClean(p: Params, cmds: seq<Command>, strtol: string -> int)
    requires Complete(p) && Session(Scan(1, 1), p, cmds, strtol).Some?
    requires forall i :: 0 <= i < |cmds| ==> NoClusters(cmds[i].argv)
    ensures Clean(p, cmds, strtol)
  {
    if cmds != [] {
      var n := |cmds| - 1;
      var argv := cmds[n].argv;
      NoClustersIsClean(p, cmds[..n], strtol);
      CleanMeansWordStart(p, cmds[..n], strtol);
      var (st, q) := Session(Scan(1, 1), p, cmds[..n], strtol).value;
      StopAtWordStart(argv, 1, FindPositions(argv, q));
      var stop := Stop(argv, Scan(1, 1), FindPositions(argv, q));
      assert NoClusters(argv);
      assert stop.optind < |argv| ==> !Strands(argv, Scan(1, stop.optind));
    }
  }

  /** Asking for help by "-help" leaves the scanner behind the `h`, and no command line of complete groups
      can be parsed after that. */
  lemma HelpStrands(program: string, gs: seq<Group>, idle: bool, p: Params, strtol: string -> int)
    requires Complete(p) && AllWellFormed(gs) && gs != []
    ensures var (st, q, outcome) := ParseArgs(["usbcam", "-help"], Scan(1, 1), false, p, strtol);
            && outcome == Failed && st == Scan(2, 1) && Complete(q)
            && ParseArgs(CommandLine(program, gs), st, idle, q, strtol).2 == Crashed
  {
    hide IndexOf, CommandLine, FindPositions;
    var argv := ["usbcam", "-help"];
    BareLetters('h');
    var q := FindPositions(argv, p);
    assert argv[1][1] == 'h' && argv[1][2] == 'e' && "--"[1] != 'h';
    assert Getopt(argv, Scan(1, 1)) == (Scan(2, 1), Opt('h'), Some(0));
    assert ParseFrom(argv, Scan(1, 1), q, strtol) == (Scan(2, 1), q, Failed);
    RoundTrip(program, gs, Scan(2, 1), idle, q, strtol);
  }

  // ----- The code -----

  lemma NextPosition(argv: seq<string>, idx: nat, x: char, default: nat)
    requires idx < |argv|
    ensures LastPosition(argv[..idx + 1], x, default) ==
            if argv[idx] == ['-', x] then idx else LastPosition(argv[..idx], x, default)
  {
    assert argv[..idx + 1][..idx] == argv[..idx];
  }

  /** The scanner with its static variables. */
  class Scanner {
    var sp: nat
    var optind: nat

    constructor ()
      ensures sp == 1 && optind == 1
    {
      sp, optind := 1, 1;
    }

    /** First pass: one walk over the command line, later occurrences overwriting earlier ones. */
    method FindNimPosition(argv: seq<string>, p: Params) returns (q: Params)
      requires Complete(p)
      ensures q == FindPositions(argv, p)
    {
      q := p;
      assert forall x, default :: LastPosition(argv[..0], x, default) == default;
      hide LastPosition;
      for idx := 0 to |argv|
        invariant Complete(q) && q.nimUse == p.nimUse
        invariant forall x :: x in NIMS ==>
                    q.nims[x] == p.nims[x].(position := LastPosition(argv[..idx], x, p.nims[x].position))
      {
        forall x | x in NIMS
          ensures LastPosition(argv[..idx + 1], x, p.nims[x].position) ==
                  if argv[idx] == ['-', x] then idx else LastPosition(argv[..idx], x, p.nims[x].position)
        {
          NextPosition(argv, idx, x, p.nims[x].position);
        }
        var word := argv[idx];
        if |word| == 2 && word[0] == '-' && word[1] in NIMS {
          assert word == ['-', word[1]];
          q := q.(nims := q.nims[word[1] := q.nims[word[1]].(position := idx)]);
        } else {
          assert forall x :: x in NIMS ==> word != ['-', x];
        }
      }
      assert argv[..|argv|] == argv;
      assert q.nims == FindPositions(argv, p).nims;
    }

    method NextOption(argv: seq<string>) returns (found: Found, count: Option<nat>)
      requires 1 <= sp
      modifies this
      ensures 1 <= sp
      ensures (Scan(sp, optind), found, count) == Getopt(argv, Scan(old(sp), old(optind)))
    {
      hide IndexOf;
      count := None;
      if sp == 1 {
        if optind >= |argv| {
          return Eof, None;
        } else if argv[optind] == "--" {
          optind := optind + 1;
          return Eof, None;
        } else if CharAt(argv[optind], 0) != '-' || CharAt(argv[optind], 1) == '\0' {
          return Opt('?'), None;
        }
      }
      if optind >= |argv| || CharAt(argv[optind], sp) == '\0' {
        return Fault, None;
      }
      var c := CharAt(argv[optind], sp);
      var cp := IndexOf(OPTS, c);
      if c == ':' || cp == |OPTS| {
        sp := sp + 1;
        if CharAt(argv[optind], sp) == '\0' {
          optind := optind + 1;
        }
        sp := 1;
        return Opt('?'), None;
      }
      if cp + 1 < |OPTS| && OPTS[cp + 1] == ':' {
        optind := optind + 1;
        if optind >= |argv| {
          return Fault, None;
        }
        var paraNum := 0;
        ghost var first := optind;
        while CharAt(argv[optind], 0) != '-'
          invariant first <= optind < |argv| && paraNum == optind - first
          invariant CountArgs(argv, first) == paraNum + CountArgs(argv, optind)
          decreases |argv| - optind
        {
          optind := optind + 1;
          paraNum := paraNum + 1;
          if optind >= |argv| {
            break;
          }
        }
        sp := 1;
        count := Some(paraNum);
      } else {
        sp := sp + 1;
        if CharAt(argv[optind], sp) == '\0' {
          sp := 1;
          optind := optind + 1;
        }
        count := Some(0);
      }
      return Opt(c), count;
    }

    method Parse(argv: seq<string>, idle: bool, p: Params, strtol: string -> int) returns (q: Params, outcome: Outcome)
      requires Complete(p) && 1 <= sp
      modifies this
      ensures Complete(q)
      ensures (Scan(sp, optind), q, outcome) == ParseArgs(argv, Scan(old(sp), old(optind)), idle, p, strtol)
    {
      q := p;
      if |argv| < 4 && idle {
        return p, Failed;
      }
      q := FindNimPosition(argv, p);
      optind := 1;
      ghost var goal := ParseFrom(argv, Scan(sp, 1), q, strtol);
      hide Getopt, ReadValues, FindPositions, ParamNum;
      while true
        invariant Complete(q) && 1 <= sp
        invariant ParseFrom(argv, Scan(sp, optind), q, strtol) == goal
        decreases |argv| - optind
      {
        var found, count := NextOption(argv);
        match found {
          case Eof => return q, Parsed;
          case Fault => return q, Crashed;
          case Opt(c) =>
            if c in NIMS && count != Some(ParamNum(c)) {
              return q, Failed;
            }
            if c == 'q' {
              return q, TaskExit;
            }
            if c !in NIMS {
              return q, Failed;
            }
            if q.nims[c].position + ParamNum(c) >= |argv| {
              return q, Crashed;
            }
            q := ReadValues(argv, q, c, strtol);
        }
      }
    }
  }
}
