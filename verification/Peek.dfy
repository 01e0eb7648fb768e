/** peek -r (c-shell/src/peek.c): two readers that print a file's lines last to first. */
module Peek {
  import opened Basics

  type Text = seq<char>

  predicate IsSpace(c: char) { c == ' ' || '\t' <= c <= '\r' }

  predicate Blank(s: Text) { forall k :: 0 <= k < |s| ==> IsSpace(s[k]) }

  predicate OneLine(s: Text) { forall k :: 0 <= k < |s| ==> s[k] != '\n' }

  /** No byte that would end a C string early. */
  predicate NulFree(s: Text) { forall k :: 0 <= k < |s| ==> s[k] != '\0' }

  // ----- the simple form: split, number, reverse -----------------------------------------------

  /** The pieces between newlines. */
  function Split(s: Text): (p: seq<Text>)
    ensures p != []
  {
    if s == [] then [[]] else
      Push(Split(s[..|s| - 1]), s[|s| - 1])
  }

  function Push(p: seq<Text>, c: char): (q: seq<Text>)
    requires p != []
    ensures q != []
  {
    if c == '\n' then p + [[]] else p[..|p| - 1] + [p[|p| - 1] + [c]]
  }

  /** A file without its last newline. */
  function Body(f: Text): Text {
    if f != [] && f[|f| - 1] == '\n' then f[..|f| - 1] else f
  }

  function Lines(f: Text): seq<Text> { if f == [] then [] else Split(Body(f)) }

  function Count(ls: seq<Text>): nat {
    if ls == [] then 0 else Count(ls[..|ls| - 1]) + if Blank(ls[|ls| - 1]) then 0 else 1
  }

  function Digits(n: nat): Text {
    (if n < 10 then [] else Digits(n / 10)) + [('0' as int + n % 10) as char]
  }

  /** printf's %d. */
  function Dec(n: int): Text { if n < 0 then ['-'] + Digits(-n) else Digits(n) }

  /** One printed line: its number if numbers are wanted and it is not blank. */
  function Item(s: Text, flagN: bool, num: int): Text {
    if flagN && !Blank(s) then Dec(num) + [' '] + s + ['\n'] else s + ['\n']
  }

  /** The lines last to first, each with its number in the forward order, counting from ln. */
  function Reversed(ls: seq<Text>, flagN: bool, ln: int): Text {
    if ls == [] then [] else
      var rest := ls[..|ls| - 1];
      Item(ls[|ls| - 1], flagN, ln + Count(rest)) + Reversed(rest, flagN, ln)
  }

  function NextNumber(f: Text, flagN: bool, ln: int): int { if flagN then ln + Count(Lines(f)) else ln }

  // ----- about splitting ---------------------------------------------------------------------------

  lemma PushJoin(p: seq<Text>, q: seq<Text>, c: char)
    requires p != [] && q != []
    ensures Push(p + q, c) == p + Push(q, c)
  {
    if c != '\n' { assert (p + q)[..|p + q| - 1] == p + q[..|q| - 1]; }
  }

  lemma SplitSnoc(s: Text, c: char)
    ensures Split(s + [c]) == Push(Split(s), c)
  {
    assert (s + [c])[..|s|] == s;
  }

  lemma {:induction false} SplitJoin(a: Text, b: Text)
    ensures Split(a + ['\n'] + b) == Split(a) + Split(b)
  {
    if b == [] {
      SplitSnoc(a, '\n');
      assert a + ['\n'] + b == a + ['\n'];
    } else {
      var b', c := b[..|b| - 1], b[|b| - 1];
      SplitJoin(a, b');
      SplitSnoc(a + ['\n'] + b', c);
      assert a + ['\n'] + b == a + ['\n'] + b' + [c];
      PushJoin(Split(a), Split(b'), c);
    }
  }

  lemma {:induction false} SplitLine(s: Text)
    requires OneLine(s)
    ensures Split(s) == [s]
  {
    if s != [] {
      var s', c := s[..|s| - 1], s[|s| - 1];
      assert OneLine(s') && c != '\n' && s == s' + [c];
      hide OneLine, Split;
      SplitLine(s');
      SplitSnoc(s', c);
      assert Push([s'], c) == [s' + [c]];
    } else {
      assert Split([]) == [[]];
    }
  }

  lemma SplitLast(a: Text, b: Text)
    requires OneLine(b)
    ensures Split(a + ['\n'] + b) == Split(a) + [b]
  {
    SplitJoin(a, b);
    SplitLine(b);
  }

  function Join(p: seq<Text>): Text
    requires p != []
  {
    if |p| == 1 then p[0] else Join(p[..|p| - 1]) + ['\n'] + p[|p| - 1]
  }

  lemma JoinPush(p: seq<Text>, c: char)
    requires p != []
    ensures Join(Push(p, c)) == Join(p) + [c]
  {
    var q := Push(p, c);
    if c == '\n' {
      assert q[..|p|] == p;
    } else if |p| > 1 {
      assert q[..|p| - 1] == p[..|p| - 1];
      assert Join(q) == Join(p[..|p| - 1]) + ['\n'] + (p[|p| - 1] + [c]);
    }
  }

  lemma PushOneLine(p: seq<Text>, c: char)
    requires p != [] && forall k :: 0 <= k < |p| ==> OneLine(p[k])
    ensures forall k :: 0 <= k < |Push(p, c)| ==> OneLine(Push(p, c)[k])
  {
    assert OneLine([]);
    if c != '\n' { assert OneLine(p[|p| - 1] + [c]); }
  }

  /** The pieces have no newline, and joined with newlines they are the text: Split is the only
      such reading of it. */
  lemma {:induction false} SplitRoundTrip(s: Text)
    ensures Join(Split(s)) == s && forall k :: 0 <= k < |Split(s)| ==> OneLine(Split(s)[k])
  {
    if s == [] {
      assert Split(s) == [s];
    } else {
      hide Split, Join, OneLine;
      var s', c := s[..|s| - 1], s[|s| - 1];
      SplitRoundTrip(s');
      assert s == s' + [c];
      SplitSnoc(s', c);
      JoinPush(Split(s'), c);
      PushOneLine(Split(s'), c);
    }
  }

  lemma CountLast(ls: seq<Text>, s: Text)
    ensures Count(ls + [s]) == Count(ls) + if Blank(s) then 0 else 1
  {
    assert (ls + [s])[..|ls|] == ls;
  }

  lemma ReversedLast(ls: seq<Text>, s: Text, flagN: bool, ln: int)
    ensures Reversed(ls + [s], flagN, ln) == Item(s, flagN, ln + Count(ls)) + Reversed(ls, flagN, ln)
  {
    assert (ls + [s])[..|ls|] == ls;
  }

  // ----- counting in chunks ----------------------------------------------------------------------------

  /** count_nonempty_lines(): a forward pass in chunks. */
  method CountNonempty(f: Text, chunk: nat) returns (r: int)
    requires chunk >= 1
    ensures r == Count(Split(f))
  {
    hide Counted, Split, Count;
    var count, hasContent, pos := 0, 0, 0;
    CountStart(f);
    while pos < |f|
      invariant 0 <= pos <= |f| && Counted(f[..pos], count, hasContent)
    {
      var n := if |f| - pos < chunk then |f| - pos else chunk;
      var buf := f[pos..pos + n];
      var k := 0;
      while k < n
        invariant 0 <= k <= n && Counted(f[..pos + k], count, hasContent)
      {
        CountStep(f[..pos + k], buf[k], count, hasContent);
        PrefixSnoc(f, pos + k);
        if buf[k] == '\n' {
          count := count + hasContent;
          hasContent := 0;
        } else if !IsSpace(buf[k]) {
          hasContent := 1;
        }
        k := k + 1;
      }
      pos := pos + n;
    }
    assert f[..pos] == f;
    CountTotal(f, count, hasContent);
    return count + hasContent;
  }

  /** count lines before the last, which has content or not. */
  predicate Counted(s: Text, count: int, hasContent: int) {
    var p := Split(s);
    count == Count(p[..|p| - 1]) && hasContent == if Blank(p[|p| - 1]) then 0 else 1
  }

  lemma CountStart(f: Text)
    ensures Counted(f[..0], 0, 0)
  {
  }

  lemma PrefixSnoc(f: Text, k: nat)
    requires k < |f|
    ensures f[..k] + [f[k]] == f[..k + 1]
  {
  }

  lemma CountTotal(s: Text, count: int, hasContent: int)
    requires Counted(s, count, hasContent)
    ensures count + hasContent == Count(Split(s))
  {
  }

  lemma CountStep(s: Text, c: char, count: int, hasContent: int)
    requires Counted(s, count, hasContent)
    ensures c == '\n' ==> Counted(s + [c], count + hasContent, 0)
    ensures c != '\n' && !IsSpace(c) ==> Counted(s + [c], count, 1)
    ensures c != '\n' && IsSpace(c) ==> Counted(s + [c], count, hasContent)
  {
    SplitSnoc(s, c);
    var p := Split(s);
    if c == '\n' {
      CountLast(p[..|p| - 1], p[|p| - 1]);
      assert p == p[..|p| - 1] + [p[|p| - 1]];
    } else {
      BlankSnoc(p[|p| - 1], c);
    }
  }

  lemma BlankSnoc(s: Text, c: char)
    ensures Blank(s + [c]) <==> Blank(s) && IsSpace(c)
  {
    var t := s + [c];
    assert t[|s|] == c;
    assert forall k :: 0 <= k < |s| ==> t[k] == s[k];
    if Blank(t) { assert forall k :: 0 <= k < |s| ==> IsSpace(t[k]); }
  }

  // ----- reading backwards --------------------------------------------------------------------------

  /** What remains to print: the lines of body[..p] with `left` at the end of the last. */
  ghost predicate Pending(body: Text, flagN: bool, ln: int, p: int, left: Text, out: Text, next: int) {
    && 0 <= p <= |body| && OneLine(left)
    && out + Reversed(Split(body[..p] + left), flagN, ln) == Reversed(Split(body), flagN, ln)
    && (flagN ==> next == ln + Count(Split(body[..p] + left)) - 1)
  }

  function NextAfter(s: Text, flagN: bool, next: int): int { if flagN && !Blank(s) then next - 1 else next }

  lemma OneLineJoin(a: Text, b: Text)
    requires OneLine(a) && OneLine(b)
    ensures OneLine(a + b)
  {
  }

  lemma Regroup(body: Text, q: int, e: int, left: Text)
    requires 0 <= q < e <= |body|
    ensures body[..e] + left == body[..q] + [body[q]] + (body[q + 1..e] + left)
  {
  }

  /** A newline found at q: the line behind it is complete. */
  lemma EmitStep(body: Text, flagN: bool, ln: int, q: int, e: int, left: Text, out: Text, next: int)
    requires Pending(body, flagN, ln, e, left, out, next)
    requires 0 <= q < e && body[q] == '\n' && OneLine(body[q + 1..e])
    ensures var line := body[q + 1..e] + left;
      Pending(body, flagN, ln, q, [], out + Item(line, flagN, next), NextAfter(line, flagN, next))
  {
    hide Split, Reversed, Count, Item, Blank;
    var line, ls := body[q + 1..e] + left, Split(body[..q]);
    OneLineJoin(body[q + 1..e], left);
    Regroup(body, q, e, left);
    SplitLast(body[..q], line);
    ReversedLast(ls, line, flagN, ln);
    CountLast(ls, line);
    assert body[..q] + [] == body[..q];
    ItemNumber(line, flagN, next, ln + Count(ls));
    Associate(out, Item(line, flagN, next), Reversed(ls, flagN, ln));
  }

  lemma ItemNumber(s: Text, flagN: bool, a: int, b: int)
    requires flagN && !Blank(s) ==> a == b
    ensures Item(s, flagN, a) == Item(s, flagN, b)
  {
  }

  lemma Associate(a: Text, b: Text, c: Text)
    ensures a + (b + c) == (a + b) + c
  {
  }

  /** The start of the chunk reached: the piece is carried over. */
  lemma CarryStep(body: Text, flagN: bool, ln: int, q: int, e: int, left: Text, out: Text, next: int)
    requires Pending(body, flagN, ln, e, left, out, next) && 0 <= q <= e && OneLine(body[q..e])
    ensures Pending(body, flagN, ln, q, body[q..e] + left, out, next)
  {
    OneLineJoin(body[q..e], left);
    assert body[..e] + left == body[..q] + (body[q..e] + left);
  }

  /** The start of the file reached: one line remains. */
  lemma LastStep(body: Text, flagN: bool, ln: int, left: Text, out: Text, next: int)
    requires Pending(body, flagN, ln, 0, left, out, next)
    ensures out + Item(left, flagN, next) == Reversed(Split(body), flagN, ln)
  {
    hide Item, Blank;
    assert body[..0] + left == left;
    SplitLine(left);
    OnlyLine(left, flagN, ln);
    ItemNumber(left, flagN, next, ln);
  }

  lemma OnlyLine(s: Text, flagN: bool, ln: int)
    ensures Reversed([s], flagN, ln) == Item(s, flagN, ln) && Count([s]) == if Blank(s) then 0 else 1
  {
    assert [s][..0] == [];
  }

  lemma PendingStart(body: Text, flagN: bool, ln: int, next: int)
    requires flagN ==> next == ln + Count(Split(body)) - 1
    ensures Pending(body, flagN, ln, |body|, [], [], next)
  {
    hide Reversed, Split, Count;
    assert body[..|body|] + [] == body;
    assert [] + Reversed(Split(body), flagN, ln) == Reversed(Split(body), flagN, ln);
  }

  lemma EmptyFile(flagN: bool, ln: int)
    ensures Reversed(Lines([]), flagN, ln) == [] && NextNumber([], flagN, ln) == ln
  {
  }

  lemma LinesOf(f: Text, flagN: bool, ln: int)
    requires f != []
    ensures Lines(f) == Split(Body(f)) && NextNumber(f, flagN, ln) == ln + if flagN then Count(Split(f)) else 0
  {
    CountBody(f);
  }

  /** The last newline adds a blank line at most. */
  lemma CountBody(f: Text)
    ensures Count(Split(f)) == Count(Split(Body(f)))
  {
    if f != [] && f[|f| - 1] == '\n' {
      SplitSnoc(Body(f), '\n');
      assert f == Body(f) + ['\n'];
      CountLast(Split(Body(f)), []);
    }
  }

  /** The piece carried over from the chunk behind, if any. */
  function TextOf(l: Option<Text>): Text { if l.None? then [] else l.value }

  function Piece(s: Text, a: int, b: int): Text
    requires 0 <= a <= b <= |s|
  {
    s[a..b]
  }

  predicate LineIn(s: Text, a: int, b: int) { 0 <= a <= b <= |s| && OneLine(Piece(s, a, b)) }

  /** The first i + 1 bytes of buf are those of body from pos on. */
  ghost predicate Window(body: Text, pos: int, buf: Text, i: int) {
    -1 <= i < |buf| && 0 <= pos && pos + i + 1 <= |body| && buf[..i + 1] == body[pos..pos + i + 1]
  }

  lemma WalkEmit(body: Text, pos: int, buf: Text, i0: int, flagN: bool, ln: int, i: int, end: int, left: Text, out: Text, next: int)
    requires Window(body, pos, buf, i0) && Pending(body, flagN, ln, pos + end + 1, left, out, next)
    requires 0 <= i <= end <= i0 < |buf| && buf[i] == '\n' && LineIn(buf, i + 1, end + 1)
    ensures var full := Piece(buf, i + 1, end + 1) + left;
      Pending(body, flagN, ln, pos + i, [], out + Item(full, flagN, next), NextAfter(full, flagN, next))
  {
    hide Pending, Item, NextAfter, OneLine;
    SamePiece(body, buf, pos, i0, i + 1, end + 1);
    EmitStep(body, flagN, ln, pos + i, pos + end + 1, left, out, next);
  }

  lemma WalkCarry(body: Text, pos: int, buf: Text, i0: int, flagN: bool, ln: int, end: int, left: Text, out: Text, next: int)
    requires Window(body, pos, buf, i0) && Pending(body, flagN, ln, pos + end + 1, left, out, next)
    requires 0 <= end <= i0 < |buf| && LineIn(buf, 0, end + 1)
    ensures Pending(body, flagN, ln, pos, Piece(buf, 0, end + 1) + left, out, next)
  {
    hide Pending, OneLine;
    SamePiece(body, buf, pos, i0, 0, end + 1);
    CarryStep(body, flagN, ln, pos, pos + end + 1, left, out, next);
  }

  /** The inner loop of peek_reverse_seekable(): one chunk, f[pos..pos + |buf|], from position i back. */
  method WalkChunk(ghost body: Text, ghost ln: int, buf: Text, ghost pos: int, i0: int, flagN: bool,
                   left0: Option<Text>, out0: Text, next0: int) returns (left: Option<Text>, out: Text, next: int)
    requires -1 <= i0 < |buf| && Window(body, pos, buf, i0)
    requires Pending(body, flagN, ln, pos + i0 + 1, TextOf(left0), out0, next0)
    ensures Pending(body, flagN, ln, pos, TextOf(left), out, next)
  {
    hide Pending, Item, Window, Piece, LineIn, NextAfter;
    var i := i0;
    left, out, next := left0, out0, next0;
    while i >= 0
      invariant -1 <= i <= i0 && Pending(body, flagN, ln, pos + i + 1, TextOf(left), out, next)
    {
      var end := i;
      i := NewlineBefore(buf, end);
      var full := Piece(buf, i + 1, end + 1) + TextOf(left);
      if i >= 0 {
        WalkEmit(body, pos, buf, i0, flagN, ln, i, end, TextOf(left), out, next);
        out, next, left := out + Item(full, flagN, next), NextAfter(full, flagN, next), None;
        i := i - 1;
      } else {
        WalkCarry(body, pos, buf, i0, flagN, ln, end, TextOf(left), out, next);
        left := Some(full);
      }
    }
  }

  lemma SliceOfSlice(s: Text, lo: int, hi: int, a: int, b: int)
    requires 0 <= lo <= hi <= |s| && 0 <= a <= b <= hi - lo
    ensures s[lo..hi][a..b] == s[lo + a..lo + b]
  {
    var x, y := s[lo..hi][a..b], s[lo + a..lo + b];
    assert |x| == |y|;
    forall k | 0 <= k < |x| ensures x[k] == y[k] { }
  }

  lemma SamePiece(body: Text, buf: Text, pos: int, i0: int, a: int, b: int)
    requires -1 <= i0 < |buf| && 0 <= pos && pos + i0 + 1 <= |body| && buf[..i0 + 1] == body[pos..pos + i0 + 1]
    requires 0 <= a <= b <= i0 + 1
    ensures buf[a..b] == body[pos + a..pos + b] && (0 < a ==> buf[a - 1] == body[pos + a - 1])
  {
    assert buf[a..b] == buf[..i0 + 1][a..b];
    SliceOfSlice(body, pos, pos + i0 + 1, a, b);
    assert 0 < a ==> buf[a - 1] == buf[..i0 + 1][a - 1];
  }

  method NewlineBefore(buf: Text, end: int) returns (i: int)
    requires 0 <= end < |buf|
    ensures -1 <= i <= end && (i >= 0 ==> buf[i] == '\n') && LineIn(buf, i + 1, end + 1)
  {
    hide LineIn;
    i := end;
    LineInNone(buf, end + 1);
    while i >= 0 && buf[i] != '\n'
      invariant -1 <= i <= end && LineIn(buf, i + 1, end + 1)
    {
      LineInMore(buf, i, end + 1);
      i := i - 1;
    }
  }

  lemma LineInNone(s: Text, a: int)
    requires 0 <= a <= |s|
    ensures LineIn(s, a, a)
  {
  }

  lemma LineInMore(s: Text, a: int, b: int)
    requires 0 <= a < b <= |s| && LineIn(s, a + 1, b) && s[a] != '\n'
    ensures LineIn(s, a, b)
  {
    assert s[a..b] == [s[a]] + s[a + 1..b];
  }

  /** peek_reverse_seekable(): the file read backwards in chunks. */
  method ReverseSeekable(f: Text, chunk: nat, flagN: bool, ln: int) returns (out: Text, lineNum: int)
    requires NulFree(f) && chunk >= 1
    ensures out == Reversed(Lines(f), flagN, ln) && lineNum == NextNumber(f, flagN, ln)
  {
    hide Pending, Reversed, Split, Count, Item, Body, Lines, NextNumber, NulFree;
    EmptyFile(flagN, ln);
    if |f| == 0 { return [], ln; }
    LinesOf(f, flagN, ln);
    var total := 0;
    if flagN { total := CountNonempty(f, chunk); }
    var next := ln + total - 1;
    lineNum := ln + total;
    ghost var body := Body(f);
    CountBody(f);
    PendingStart(body, flagN, ln, next);
    out := [];
    var pos, left := |f|, None;
    while pos > 0
      invariant 0 <= pos <= |f|
      invariant Pending(body, flagN, ln, if pos == |f| then |body| else pos, TextOf(left), out, next)
    {
      var toRead := if pos > chunk then chunk else pos;
      pos := pos - toRead;
      var buf := f[pos..pos + toRead];
      var i := toRead - 1;
      if pos + toRead == |f| && i >= 0 && buf[i] == '\n' { i := i - 1; }
      BodyPiece(f, pos, toRead, i);
      left, out, next := WalkChunk(body, ln, buf, pos, i, flagN, left, out, next);
    }
    LastStep(body, flagN, ln, TextOf(left), out, next);
    out := out + Item(TextOf(left), flagN, next);
  }

  /** Where the walk starts in a chunk, seen from the body. */
  lemma BodyPiece(f: Text, pos: int, n: int, i: int)
    requires f != [] && 0 <= pos && 0 < n && pos + n <= |f|
    requires i == if pos + n == |f| && f[pos + n - 1] == '\n' then n - 2 else n - 1
    ensures var p := if pos + n == |f| then |Body(f)| else pos + n;
      pos + i + 1 == p <= |Body(f)| && f[pos..pos + n][..i + 1] == Body(f)[pos..p]
  {
  }

  // ----- reading forwards and keeping every line -----------------------------------------------------

  /** The line as read, with its newline if it has one. */
  predicate IsRead(line: Text, text: Text) { OneLine(text) && (line == text + ['\n'] || line == text) }

  lemma ReadBlank(line: Text, text: Text)
    requires IsRead(line, text)
    ensures Blank(line) == Blank(text)
  {
    BlankSnoc(text, '\n');
  }

  /** getline(): the end of the line that starts at q. */
  method GetLine(f: Text, q: int) returns (e: int)
    requires 0 <= q < |f|
    ensures q < e <= |f| && OneLine(f[q..e - 1]) && (f[e - 1] == '\n' || e == |f|)
  {
    e := q;
    while e < |f| && f[e] != '\n'
      invariant q <= e <= |f| && forall k :: q <= k < e ==> f[k] != '\n'
    {
      e := e + 1;
    }
    if e < |f| { e := e + 1; }
  }

  function Chomp(line: Text): Text { if line != [] && line[|line| - 1] == '\n' then line[..|line| - 1] else line }

  /** A file is its first line and the rest. */
  lemma FirstLine(r: Text, e: int)
    requires 0 < e <= |r| && OneLine(r[..e - 1]) && (r[e - 1] == '\n' || e == |r|)
    ensures Lines(r) == [Chomp(r[..e])] + Lines(r[e..]) && IsRead(r[..e], Chomp(r[..e]))
  {
    hide Split;
    var text := Chomp(r[..e]);
    assert r[..e] == r[..e - 1] + [r[e - 1]];
    assert r[..e - 1] + [r[e - 1]] == text + if r[e - 1] == '\n' then ['\n'] else [];
    assert OneLine(text);
    if e == |r| {
      assert r[..e] == r;
      assert Body(r) == text;
      SplitLine(text);
    } else {
      var rest := r[e..];
      assert Body(r) == text + ['\n'] + Body(rest);
      SplitJoin(text, Body(rest));
      SplitLine(text);
    }
  }

  /** texts are the lines of f[..q], and the rest is still to come. */
  ghost predicate Gathered(f: Text, q: int, texts: seq<Text>) {
    0 <= q <= |f| && Lines(f) == texts + Lines(f[q..])
  }

  ghost predicate Stored(lines: seq<Text>, nums: seq<int>, texts: seq<Text>, flagN: bool, ln: int) {
    && |lines| == |nums| == |texts|
    && (forall k :: 0 <= k < |texts| ==> IsRead(lines[k], texts[k]))
    && (forall k :: 0 <= k < |texts| ==> nums[k] == if flagN && !Blank(texts[k]) then ln + Count(texts[..k]) else 0)
  }

  lemma GatherStep(f: Text, q: int, e: int, texts: seq<Text>)
    requires Gathered(f, q, texts) && q < e <= |f| && OneLine(f[q..e - 1]) && (f[e - 1] == '\n' || e == |f|)
    ensures Gathered(f, e, texts + [Chomp(f[q..e])]) && IsRead(f[q..e], Chomp(f[q..e]))
  {
    hide Lines, Chomp;
    var r := f[q..];
    assert r[..e - q] == f[q..e] && r[..e - q - 1] == f[q..e - 1] && r[e - q..] == f[e..];
    FirstLine(r, e - q);
    assert texts + ([Chomp(f[q..e])] + Lines(f[e..])) == (texts + [Chomp(f[q..e])]) + Lines(f[e..]);
  }

  lemma StoreStep(lines: seq<Text>, nums: seq<int>, texts: seq<Text>, flagN: bool, ln: int, line: Text, text: Text, num: int)
    requires Stored(lines, nums, texts, flagN, ln) && IsRead(line, text)
    requires num == if flagN && !Blank(text) then ln + Count(texts) else 0
    ensures Stored(lines + [line], nums + [num], texts + [text], flagN, ln)
  {
    hide Count, Blank, IsRead;
    var ts := texts + [text];
    assert ts[..|texts|] == texts;
    forall k | 0 <= k < |texts| ensures ts[..k] == texts[..k] { }
  }

  /** The forward pass of peek_reverse_buffered(). */
  method Gather(f: Text, flagN: bool, ln: int) returns (lines: seq<Text>, nums: seq<int>, lineNum: int)
    ensures Stored(lines, nums, Lines(f), flagN, ln) && lineNum == NextNumber(f, flagN, ln)
  {
    hide Gathered, Stored, Count, Blank, IsRead, Lines, Chomp;
    GatherStart(f, flagN, ln);
    lines, nums, lineNum := [], [], ln;
    ghost var texts: seq<Text> := [];
    var q := 0;
    while q < |f|
      invariant 0 <= q <= |f| && Gathered(f, q, texts) && Stored(lines, nums, texts, flagN, ln)
      invariant lineNum == if flagN then ln + Count(texts) else ln
    {
      var e := GetLine(f, q);
      var line := f[q..e];
      GatherStep(f, q, e, texts);
      ghost var text := Chomp(line);
      ReadBlank(line, text);
      CountLast(texts, text);
      StoreStep(lines, nums, texts, flagN, ln, line, text, if flagN && !Blank(line) then lineNum else 0);
      if flagN && !Blank(line) {
        lines, nums, lineNum := lines + [line], nums + [lineNum], lineNum + 1;
      } else {
        lines, nums := lines + [line], nums + [0];
      }
      texts := texts + [text];
      q := e;
    }
    GatherEnd(f, texts);
  }

  lemma GatherStart(f: Text, flagN: bool, ln: int)
    ensures Gathered(f, 0, []) && Stored([], [], [], flagN, ln) && Count([]) == 0
  {
    assert f[0..] == f;
  }

  lemma GatherEnd(f: Text, texts: seq<Text>)
    requires Gathered(f, |f|, texts)
    ensures texts == Lines(f)
  {
    assert f[|f|..] == [];
  }

  /** One line of the reverse pass, with a newline added where the file's last line has none. */
  function Printed(line: Text, flagN: bool, num: int): Text {
    (if flagN && num != 0 then Dec(num) + [' '] + line else line)
    + if line != [] && line[|line| - 1] == '\n' then [] else ['\n']
  }

  lemma PrintedIsItem(line: Text, text: Text, flagN: bool, num: int, n: int)
    requires IsRead(line, text) && n >= 1 && num == if flagN && !Blank(text) then n else 0
    ensures Printed(line, flagN, num) == Item(text, flagN, n)
  {
    hide Dec, Blank;
    if line == text + ['\n'] {
      assert line[|line| - 1] == '\n';
      assert Dec(n) + [' '] + (text + ['\n']) == Dec(n) + [' '] + text + ['\n'];
    }
  }

  /** peek_reverse_buffered(): the whole file read forwards, its lines printed last to first. */
  method ReverseBuffered(f: Text, flagN: bool, ln: int) returns (out: Text, lineNum: int)
    requires NulFree(f) && ln >= 1
    ensures out == Reversed(Lines(f), flagN, ln) && lineNum == NextNumber(f, flagN, ln)
  {
    hide *;
    var lines, nums;
    lines, nums, lineNum := Gather(f, flagN, ln);
    ghost var all := Lines(f);
    StoredSizes(lines, nums, all, flagN, ln);
    out := [];
    var i := |lines| - 1;
    StillToPrintAll(all, flagN, ln);
    while i >= 0
      invariant -1 <= i < |all| && StillToPrint(all, flagN, ln, i + 1, out)
    {
      PrintStep(lines, nums, all, flagN, ln, i, out);
      out := out + Printed(lines[i], flagN, nums[i]);
      i := i - 1;
    }
    NothingToPrint(all, flagN, ln, out);
  }

  /** out and the first n lines reversed make up the whole output. */
  ghost predicate StillToPrint(all: seq<Text>, flagN: bool, ln: int, n: int, out: Text) {
    0 <= n <= |all| && out + Reversed(all[..n], flagN, ln) == Reversed(all, flagN, ln)
  }

  lemma StoredSizes(lines: seq<Text>, nums: seq<int>, texts: seq<Text>, flagN: bool, ln: int)
    requires Stored(lines, nums, texts, flagN, ln)
    ensures |lines| == |nums| == |texts|
  {
  }

  lemma StillToPrintAll(all: seq<Text>, flagN: bool, ln: int)
    ensures StillToPrint(all, flagN, ln, |all|, [])
  {
    hide Reversed;
    assert all[..|all|] == all && [] + Reversed(all, flagN, ln) == Reversed(all, flagN, ln);
  }

  lemma NothingToPrint(all: seq<Text>, flagN: bool, ln: int, out: Text)
    requires StillToPrint(all, flagN, ln, 0, out)
    ensures out == Reversed(all, flagN, ln)
  {
    assert out + [] == out;
  }

  lemma PrintStep(lines: seq<Text>, nums: seq<int>, all: seq<Text>, flagN: bool, ln: int, i: int, out: Text)
    requires Stored(lines, nums, all, flagN, ln) && ln >= 1 && 0 <= i < |lines|
    requires StillToPrint(all, flagN, ln, i + 1, out)
    ensures StillToPrint(all, flagN, ln, i, out + Printed(lines[i], flagN, nums[i]))
  {
    hide Printed, Item, Count, Blank, IsRead, Reversed;
    PrintedIsItem(lines[i], all[i], flagN, nums[i], ln + Count(all[..i]));
    assert all[..i + 1] == all[..i] + [all[i]];
    ReversedLast(all[..i], all[i], flagN, ln);
    Associate(out, Printed(lines[i], flagN, nums[i]), Reversed(all[..i], flagN, ln));
  }
}
