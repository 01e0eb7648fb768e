/** The shell's grammar check (c-shell/src/lexer.c) and the splitters that rely on its verdict
    (c-shell/src/seq.c, c-shell/src/exec.c). */
module Grammar {
  datatype Kind = WORD | PIPE | AMP | GT | GTGT | LT | SEMI

  datatype Token = Token(kind: Kind, value: string)

  type Line = seq<Token>

  predicate IsRedir(k: Kind) { k.LT? || k.GT? || k.GTGT? }

  predicate IsSep(k: Kind) { k.SEMI? || k.AMP? }

  // ----- the grammar check -----------------------------------------------------------------------------

  /** parse_arg() at cursor i. */
  predicate ParseArg(ts: Line, i: nat)
    requires i <= |ts|
    decreases |ts| - i, 1
  {
    if i == |ts| then true else
      match ts[i].kind
      case WORD => ParseArg(ts, i + 1)
      case LT => ParseTgt(ts, i + 1)
      case GT => ParseTgt(ts, i + 1)
      case GTGT => ParseTgt(ts, i + 1)
      case PIPE => ParseCmd(ts, i + 1)
      case SEMI => ParseCmd(ts, i + 1)
      case AMP => ParseBg(ts, i + 1)
  }

  predicate ParseCmd(ts: Line, i: nat)
    requires i <= |ts|
    decreases |ts| - i, 0
  {
    i < |ts| && ts[i].kind.WORD? && ParseArg(ts, i + 1)
  }

  predicate ParseTgt(ts: Line, i: nat)
    requires i <= |ts|
    decreases |ts| - i, 0
  {
    i < |ts| && ts[i].kind.WORD? && ParseArg(ts, i + 1)
  }

  predicate ParseBg(ts: Line, i: nat)
    requires i <= |ts|
    decreases |ts| - i, 0
  {
    i == |ts| || (ts[i].kind.WORD? && ParseArg(ts, i + 1))
  }

  predicate ValidateGrammar(ts: Line) { ts == [] || (ts[0].kind.WORD? && ParseArg(ts, 1)) }

  /** The token at k is a word, or is followed by one, or is an & that ends the line. */
  predicate FollowOk(ts: Line, k: int)
    requires 0 <= k < |ts|
  {
    ts[k].kind.WORD? || (if k + 1 < |ts| then ts[k + 1].kind.WORD? else ts[k].kind.AMP?)
  }

  predicate WellFormed(ts: Line) {
    ts == [] || (ts[0].kind.WORD? && forall k :: 0 <= k < |ts| ==> FollowOk(ts, k))
  }

  lemma {:induction false} ArgIff(ts: Line, i: nat)
    requires i <= |ts|
    ensures ParseArg(ts, i) <==> forall k :: i <= k < |ts| ==> FollowOk(ts, k)
    decreases |ts| - i
  {
    if i < |ts| {
      if ts[i].kind.WORD? {
        ArgIff(ts, i + 1);
        assert FollowOk(ts, i);
      } else {
        OpStep(ts, i);
        if i + 1 < |ts| && ts[i + 1].kind.WORD? {
          ArgIff(ts, i + 2);
          assert FollowOk(ts, i) && FollowOk(ts, i + 1);
        }
      }
    }
  }

  /** After an operator: a word and the rest, or the end after an &. */
  lemma OpStep(ts: Line, i: nat)
    requires i < |ts| && !ts[i].kind.WORD?
    ensures ParseArg(ts, i) <==> FollowOk(ts, i) && (i + 1 < |ts| ==> ParseArg(ts, i + 2))
  {
    assert ParseCmd(ts, i + 1) == ParseTgt(ts, i + 1);
    assert ParseBg(ts, i + 1) == (i + 1 == |ts| || ParseTgt(ts, i + 1));
    assert ParseArg(ts, i) == if ts[i].kind.AMP? then ParseBg(ts, i + 1) else ParseTgt(ts, i + 1);
  }

  /** validate_grammar() accepts exactly the empty line and the lines that start with a word and
      have a word right after every operator except a final &. */
  lemma AcceptedIffWellFormed(ts: Line)
    ensures ValidateGrammar(ts) <==> WellFormed(ts)
  {
    if ts != [] {
      ArgIff(ts, 1);
      if ts[0].kind.WORD? { assert FollowOk(ts, 0); }
    }
  }

  // ----- command groups -----------------------------------------------------------------------------------

  /** Tokens start <= k < end, run in the background if an & follows. */
  datatype Group = Group(start: int, end: int, bg: bool)

  predicate IsGroup(ts: Line, g: Group) {
    && 0 <= g.start < g.end <= |ts| && ts[g.start].kind.WORD?
    && (forall k :: g.start <= k < g.end ==> !IsSep(ts[k].kind))
    && (g.end < |ts| ==> IsSep(ts[g.end].kind)) && g.bg == (g.end < |ts| && ts[g.end].kind.AMP?)
  }

  /** Where the next group can start: behind the separator. */
  function Behind(ts: Line, g: Group): int { if g.end < |ts| then g.end + 1 else |ts| }

  /** The groups with their separators, put together again. */
  function Rejoined(ts: Line, gs: seq<Group>): Line
    requires forall k :: 0 <= k < |gs| ==> IsGroup(ts, gs[k])
  {
    if gs == [] then [] else
      var g := gs[|gs| - 1];
      assert IsGroup(ts, g);
      Rejoined(ts, gs[..|gs| - 1]) + ts[g.start..Behind(ts, g)]
  }

  lemma RejoinedLast(ts: Line, gs: seq<Group>, g: Group, p: int)
    requires forall k :: 0 <= k < |gs| ==> IsGroup(ts, gs[k])
    requires IsGroup(ts, g) && p == g.start && Rejoined(ts, gs) == ts[..p]
    ensures forall k :: 0 <= k < |gs + [g]| ==> IsGroup(ts, (gs + [g])[k])
    ensures Rejoined(ts, gs + [g]) == ts[..Behind(ts, g)]
  {
    var gs' := gs + [g];
    assert gs'[..|gs|] == gs;
    assert ts[..p] + ts[p..Behind(ts, g)] == ts[..Behind(ts, g)];
  }

  /** A command group that stops the line: run in the foreground, with a non-zero result. */
  predicate Stops(g: Group, rc: int -> int) { !g.bg && rc(g.start) != 0 }

  /** run_sequence(): rc gives the result of the group that starts at a position. */
  method RunSequence(ts: Line, rc: int -> int) returns (runs: seq<Group>)
    ensures forall k :: 0 <= k < |runs| ==> IsGroup(ts, runs[k])
    ensures forall k :: 0 <= k < |runs| - 1 ==> !Stops(runs[k], rc)
    ensures WellFormed(ts) ==> Rejoined(ts, runs) <= ts
    ensures WellFormed(ts) && (runs == [] || !Stops(runs[|runs| - 1], rc)) ==> Rejoined(ts, runs) == ts
  {
    runs := [];
    var group := 0;
    while group < |ts|
      invariant 0 <= group <= |ts|
      invariant forall k :: 0 <= k < |runs| ==> IsGroup(ts, runs[k]) && !Stops(runs[k], rc)
      invariant WellFormed(ts) ==> Rejoined(ts, runs) == ts[..group] && (group < |ts| ==> ts[group].kind.WORD?)
    {
      if !ts[group].kind.WORD? {
        group := group + 1;
        continue;
      }
      var op := group;
      while op < |ts| && !IsSep(ts[op].kind)
        invariant group <= op <= |ts| && forall k :: group <= k < op ==> !IsSep(ts[k].kind)
      {
        op := op + 1;
      }
      var g := Group(group, op, op < |ts| && ts[op].kind.AMP?);
      if WellFormed(ts) {
        RejoinedLast(ts, runs, g, group);
        NextGroup(ts, g);
      }
      runs := runs + [g];
      if !g.bg && rc(group) != 0 { return; }
      group := if op < |ts| then op + 1 else |ts|;
    }
  }

  /** Behind a separator an accepted line goes on with a word, or ends. */
  lemma NextGroup(ts: Line, g: Group)
    requires WellFormed(ts) && IsGroup(ts, g)
    ensures Behind(ts, g) < |ts| ==> ts[Behind(ts, g)].kind.WORD?
  {
    if g.end < |ts| { assert FollowOk(ts, g.end); }
  }

  // ----- pipeline segments -----------------------------------------------------------------------------------

  /** Tokens a <= k < b, without a pipe. */
  predicate IsSegment(ts: Line, a: int, b: int) {
    0 <= a <= b <= |ts| && forall k :: a <= k < b ==> !ts[k].kind.PIPE?
  }

  /** A segment from a to b, a pipe, and the next segment from c on. */
  predicate IsPiped(ts: Line, a: int, b: int, c: int) {
    IsSegment(ts, a, b) && b < |ts| && ts[b].kind.PIPE? && c == b + 1
  }

  /** The first n segments, each ended by a pipe; the next one starts at starts[n]. */
  predicate Filled(ts: Line, s: int, starts: seq<int>, ends: seq<int>, n: int) {
    && 0 <= n < |starts| == |ends| && starts[0] == s
    && (forall i :: 0 <= i < n ==> IsPiped(ts, starts[i], ends[i], starts[i + 1]))
  }

  /** s <= k < e cut at its pipes. */
  predicate IsSplit(ts: Line, s: int, e: int, starts: seq<int>, ends: seq<int>) {
    var n := |starts| - 1;
    Filled(ts, s, starts, ends, n) && IsSegment(ts, starts[n], ends[n]) && ends[n] == e
  }

  lemma FillStart(ts: Line, s: int, starts: seq<int>, ends: seq<int>)
    requires |starts| == |ends| >= 1 && starts[0] == s && 0 <= s <= |ts|
    ensures Filled(ts, s, starts, ends, 0) && IsSegment(ts, s, s)
  {
  }

  lemma FillStep(ts: Line, s: int, starts: seq<int>, ends: seq<int>, n: int, t: int)
    requires Filled(ts, s, starts, ends, n) && IsSegment(ts, starts[n], t) && t < |ts|
    ensures ts[t].kind.PIPE? && n + 1 < |starts| ==>
      Filled(ts, s, starts[n + 1 := t + 1], ends[n := t], n + 1) && IsSegment(ts, t + 1, t + 1)
    ensures !ts[t].kind.PIPE? ==> IsSegment(ts, starts[n], t + 1)
  {
    if ts[t].kind.PIPE? && n + 1 < |starts| {
      var starts', ends' := starts[n + 1 := t + 1], ends[n := t];
      forall i | 0 <= i < n + 1 ensures IsPiped(ts, starts'[i], ends'[i], starts'[i + 1]) {
        if i < n { assert IsPiped(ts, starts[i], ends[i], starts[i + 1]); }
      }
    }
  }

  function Pipes(ts: Line, s: int, e: int): nat
    requires 0 <= s <= e <= |ts|
  {
    if s == e then 0 else Pipes(ts, s, e - 1) + if ts[e - 1].kind.PIPE? then 1 else 0
  }

  lemma {:induction false} PipesGrow(ts: Line, s: int, a: int, b: int)
    requires 0 <= s <= a <= b <= |ts|
    ensures Pipes(ts, s, a) <= Pipes(ts, s, b)
    decreases b
  {
    if a < b { PipesGrow(ts, s, a, b - 1); }
  }

  /** The counting and filling loops of execute_pipeline(): the segments of the group at s. */
  method Segments(ts: Line, s: int) returns (starts: array<int>, ends: array<int>, ghost e: int)
    requires 0 <= s <= |ts|
    ensures fresh(starts) && fresh(ends) && s <= e <= |ts|
    ensures (forall k :: s <= k < e ==> !IsSep(ts[k].kind)) && (e < |ts| ==> IsSep(ts[e].kind))
    ensures IsSplit(ts, s, e, starts[..], ends[..])
  {
    hide Filled, IsSegment, IsSplit;
    var n, t := 1, s;
    while t < |ts| && !IsSep(ts[t].kind)
      invariant s <= t <= |ts| && n == Pipes(ts, s, t) + 1 && forall k :: s <= k < t ==> !IsSep(ts[k].kind)
    {
      if ts[t].kind.PIPE? { n := n + 1; }
      t := t + 1;
    }
    e := t;
    starts, ends := new int[n], new int[n];
    var idx := 0;
    t := s;
    starts[0] := t;
    FillStart(ts, s, starts[..], ends[..]);
    while t < |ts| && !IsSep(ts[t].kind)
      invariant s <= t <= e && idx == Pipes(ts, s, t) < n == starts.Length == ends.Length
      invariant Filled(ts, s, starts[..], ends[..], idx) && IsSegment(ts, starts[idx], t)
    {
      PipesGrow(ts, s, t + 1, e);
      FillStep(ts, s, starts[..], ends[..], idx, t);
      if ts[t].kind.PIPE? {
        ghost var starts0, ends0 := starts[..], ends[..];
        ends[idx] := t;
        idx := idx + 1;
        starts[idx] := t + 1;
        assert starts[..] == starts0[idx := t + 1] && ends[..] == ends0[idx - 1 := t];
      }
      t := t + 1;
    }
    ghost var ends1 := ends[..];
    ends[idx] := t;
    assert ends[..] == ends1[idx := t];
    FillEnd(ts, s, starts[..], ends1, idx, t);
  }

  lemma FillEnd(ts: Line, s: int, starts: seq<int>, ends: seq<int>, n: int, t: int)
    requires Filled(ts, s, starts, ends, n) && IsSegment(ts, starts[n], t) && n == |starts| - 1
    ensures IsSplit(ts, s, t, starts, ends[n := t])
  {
    var ends' := ends[n := t];
    forall i | 0 <= i < n ensures IsPiped(ts, starts[i], ends'[i], starts[i + 1]) {
      assert IsPiped(ts, starts[i], ends[i], starts[i + 1]);
    }
  }

  /** A segment ends at an operator or at the end of the line. */
  lemma EndIsOperator(ts: Line, g: Group, starts: seq<int>, ends: seq<int>, i: int)
    requires IsGroup(ts, g) && IsSplit(ts, g.start, g.end, starts, ends) && 0 <= i < |starts|
    ensures 0 <= ends[i] && (ends[i] < |ts| ==> !ts[ends[i]].kind.WORD?)
  {
    if i < |starts| - 1 { assert IsPiped(ts, starts[i], ends[i], starts[i + 1]); }
  }

  lemma {:induction false} SplitOrder(ts: Line, s: int, e: int, starts: seq<int>, ends: seq<int>, i: int)
    requires IsSplit(ts, s, e, starts, ends) && 0 <= i < |starts|
    ensures 0 <= starts[i] <= ends[i] <= e
    decreases |starts| - i
  {
    if i < |starts| - 1 {
      assert IsPiped(ts, starts[i], ends[i], starts[i + 1]);
      SplitOrder(ts, s, e, starts, ends, i + 1);
    }
  }

  lemma EmptySegment(ts: Line, g: Group, starts: seq<int>, ends: seq<int>, i: int)
    requires WellFormed(ts) && IsGroup(ts, g) && IsSplit(ts, g.start, g.end, starts, ends) && 0 <= i < |starts|
    ensures starts[i] != ends[i]
  {
    EndIsOperator(ts, g, starts, ends, i);
    if i > 0 { assert IsPiped(ts, starts[i - 1], ends[i - 1], starts[i - 1 + 1]) && FollowOk(ts, ends[i - 1]); }
  }

  // ----- argument vectors -----------------------------------------------------------------------------------

  /** A word that is not the target of a redirection. */
  predicate Plain(ts: Line, k: int)
    requires 0 <= k < |ts|
  {
    ts[k].kind.WORD? && (k == 0 || !IsRedir(ts[k - 1].kind))
  }

  /** The plain words, in order. */
  function Args(ts: Line): seq<string> {
    if ts == [] then [] else
      var k := |ts| - 1;
      Args(ts[..k]) + if Plain(ts, k) then [ts[k].value] else []
  }

  lemma ArgsStep(ts: Line, k: int)
    requires 0 <= k < |ts|
    ensures Args(ts[..k + 1]) == Args(ts[..k]) + if Plain(ts, k) then [ts[k].value] else []
  {
    var u := ts[..k + 1];
    assert u[..k] == ts[..k];
    assert Plain(u, k) == Plain(ts, k);
  }

  lemma {:induction false} ArgsGrow(ts: Line, a: int, b: int)
    requires 0 <= a <= b <= |ts|
    ensures Args(ts[..a]) <= Args(ts[..b])
    decreases b
  {
    if a < b {
      ArgsGrow(ts, a, b - 1);
      ArgsStep(ts, b - 1);
    }
  }

  /** skip_next after the first k tokens. */
  predicate Skip(ts: Line, k: int)
    requires 0 <= k <= |ts|
  {
    k > 0 && IsRedir(ts[k - 1].kind)
  }

  /** extract_segment_argv() on one segment: counted once, then filled. */
  method ExtractSegmentArgv(seg: Line) returns (argv: array<string>)
    ensures fresh(argv) && argv[..] == Args(seg)
  {
    var count, skip, t := 0, false, 0;
    while t < |seg|
      invariant 0 <= t <= |seg| && count == |Args(seg[..t])| && skip == Skip(seg, t)
    {
      ArgsStep(seg, t);
      if IsRedir(seg[t].kind) {
        skip := true;
      } else if skip {
        skip := false;
      } else if seg[t].kind.WORD? {
        count := count + 1;
      }
      t := t + 1;
    }
    assert seg[..t] == seg;
    argv := new string[count](_ => "");
    var i := 0;
    skip, t := false, 0;
    while t < |seg|
      invariant 0 <= t <= |seg| && i == |Args(seg[..t])| <= count && skip == Skip(seg, t)
      invariant argv[..i] == Args(seg[..t])
    {
      ArgsStep(seg, t);
      ArgsGrow(seg, t + 1, |seg|);
      if IsRedir(seg[t].kind) {
        skip := true;
      } else if skip {
        skip := false;
      } else if seg[t].kind.WORD? {
        argv[i] := seg[t].value;
        i := i + 1;
      }
      t := t + 1;
    }
    assert argv[..i] == argv[..];
  }

  lemma SegmentStarts(ts: Line, g: Group, starts: seq<int>, ends: seq<int>, i: int)
    requires WellFormed(ts) && IsGroup(ts, g) && IsSplit(ts, g.start, g.end, starts, ends) && 0 <= i < |starts|
    ensures |starts| == |ends| && 0 <= starts[i] < ends[i] <= g.end && ts[starts[i]].kind.WORD?
  {
    SplitOrder(ts, g.start, g.end, starts, ends, i);
    EmptySegment(ts, g, starts, ends, i);
    if i > 0 { assert IsPiped(ts, starts[i - 1], ends[i - 1], starts[i - 1 + 1]) && FollowOk(ts, ends[i - 1]); }
  }

  /** In an accepted line every segment of a group starts with a word, so it has a command, and
      every redirection in it has a word as its target, within the segment. */
  lemma SegmentsAccepted(ts: Line, g: Group, starts: seq<int>, ends: seq<int>, i: int)
    requires WellFormed(ts) && IsGroup(ts, g) && IsSplit(ts, g.start, g.end, starts, ends) && 0 <= i < |starts|
    ensures 0 <= starts[i] < ends[i] <= g.end && ts[starts[i]].kind.WORD?
    ensures forall k :: starts[i] <= k < ends[i] && IsRedir(ts[k].kind) ==> k + 1 < ends[i] && ts[k + 1].kind.WORD?
    ensures var argv := Args(ts[starts[i]..ends[i]]); argv != [] && argv[0] == ts[starts[i]].value
  {
    hide IsSplit, WellFormed, Args;
    SegmentStarts(ts, g, starts, ends, i);
    EndIsOperator(ts, g, starts, ends, i);
    TargetsInside(ts, starts[i], ends[i]);
    FirstArg(ts[starts[i]..ends[i]]);
  }

  lemma TargetsInside(ts: Line, a: int, b: int)
    requires WellFormed(ts) && 0 <= a < b <= |ts| && (b < |ts| ==> !ts[b].kind.WORD?)
    ensures forall k :: a <= k < b && IsRedir(ts[k].kind) ==> k + 1 < b && ts[k + 1].kind.WORD?
  {
    forall k | a <= k < b && IsRedir(ts[k].kind) ensures k + 1 < b && ts[k + 1].kind.WORD? {
      assert FollowOk(ts, k);
    }
  }

  lemma FirstArg(seg: Line)
    requires seg != [] && seg[0].kind.WORD?
    ensures Args(seg) != [] && Args(seg)[0] == seg[0].value
  {
    ArgsStep(seg, 0);
    ArgsGrow(seg, 1, |seg|);
    assert seg[..0] == [] && seg[..|seg|] == seg;
  }

  /** The words before the first operator. */
  function Leading(ts: Line): seq<string> {
    if ts == [] || !ts[0].kind.WORD? then [] else [ts[0].value] + Leading(ts[1..])
  }

  lemma {:induction false} LeadingIs(ts: Line, n: int)
    requires 0 <= n <= |ts| && (forall k :: 0 <= k < n ==> ts[k].kind.WORD?) && (n < |ts| ==> !ts[n].kind.WORD?)
    ensures |Leading(ts)| == n && forall k :: 0 <= k < n ==> Leading(ts)[k] == ts[k].value
    decreases n
  {
    if n > 0 { LeadingIs(ts[1..], n - 1); }
  }

  /** extract_group() from a group's first token: counted once, then filled. */
  method ExtractGroup(ts: Line) returns (argv: array<string>)
    ensures fresh(argv) && argv[..] == Leading(ts)
  {
    var count := 0;
    while count < |ts| && ts[count].kind.WORD?
      invariant 0 <= count <= |ts| && forall k :: 0 <= k < count ==> ts[k].kind.WORD?
    {
      count := count + 1;
    }
    argv := new string[count](_ => "");
    var i := 0;
    while i < |ts| && ts[i].kind.WORD?
      invariant 0 <= i <= count && forall k :: 0 <= k < i ==> argv[k] == ts[k].value
    {
      argv[i] := ts[i].value;
      i := i + 1;
    }
    LeadingIs(ts, count);
  }

  /** What extract_group() finds is the start of what extract_segment_argv() finds. */
  lemma {:induction false} LeadingIsPrefix(ts: Line, n: int)
    requires 0 <= n <= |ts| && (forall k :: 0 <= k < n ==> ts[k].kind.WORD?) && (n < |ts| ==> !ts[n].kind.WORD?)
    ensures Args(ts[..n]) == Leading(ts) && Leading(ts) <= Args(ts)
  {
    LeadingIs(ts, n);
    ArgsOfWords(ts, n);
    ArgsGrow(ts, n, |ts|);
    assert ts[..|ts|] == ts;
  }

  lemma {:induction false} ArgsOfWords(ts: Line, n: int)
    requires 0 <= n <= |ts| && forall k :: 0 <= k < n ==> ts[k].kind.WORD?
    ensures |Args(ts[..n])| == n && forall k :: 0 <= k < n ==> Args(ts[..n])[k] == ts[k].value
    decreases n
  {
    if n > 0 {
      ArgsOfWords(ts, n - 1);
      ArgsStep(ts, n - 1);
    }
  }

  /** The two agree exactly when no plain word comes after the first operator. */
  lemma {:induction false} SameArgvIff(ts: Line, n: int)
    requires 0 <= n <= |ts| && (forall k :: 0 <= k < n ==> ts[k].kind.WORD?) && (n < |ts| ==> !ts[n].kind.WORD?)
    ensures Leading(ts) == Args(ts) <==> forall k :: n <= k < |ts| ==> !Plain(ts, k)
  {
    LeadingIsPrefix(ts, n);
    NoneAdded(ts, n, |ts|);
    assert ts[..|ts|] == ts;
  }

  lemma {:induction false} NoneAdded(ts: Line, a: int, b: int)
    requires 0 <= a <= b <= |ts|
    ensures Args(ts[..a]) <= Args(ts[..b])
    ensures Args(ts[..a]) == Args(ts[..b]) <==> forall k :: a <= k < b ==> !Plain(ts, k)
    decreases b
  {
    if a < b {
      NoneAdded(ts, a, b - 1);
      ArgsStep(ts, b - 1);
    }
  }

  /** "a > f b": extract_group() sees one word, extract_segment_argv() two. */
  lemma ArgvsDiffer()
    ensures var ts := [Token(WORD, "a"), Token(GT, ">"), Token(WORD, "f"), Token(WORD, "b")];
      WellFormed(ts) && Leading(ts) == ["a"] && Args(ts) == ["a", "b"]
  {
    var ts := [Token(WORD, "a"), Token(GT, ">"), Token(WORD, "f"), Token(WORD, "b")];
    assert FollowOk(ts, 1);
    LeadingIs(ts, 1);
    ArgsStep(ts, 0);
    ArgsStep(ts, 1);
    ArgsStep(ts, 2);
    ArgsStep(ts, 3);
    assert ts[..0] == [] && ts[..4] == ts;
  }
}
