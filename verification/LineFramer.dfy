/** The control port's line framer: what a stream of bytes means as commands, and that any way of
    cutting the stream into reads means the same. Blanks are the six ASCII ones. */
module LineFramer {
  import opened Basics

  type Text = seq<byte>

  const NEWLINE: byte := 10

  predicate IsBlank(b: byte) { b == 32 || 9 <= b <= 13 }

  predicate AllBlank(s: Text) { forall i :: 0 <= i < |s| ==> IsBlank(s[i]) }

  function TrimLeft(s: Text): (r: Text)
    ensures |r| <= |s| && (r != [] ==> !IsBlank(r[0]))
  {
    if s == [] || !IsBlank(s[0]) then s else TrimLeft(s[1..])
  }

  function TrimRight(s: Text): (r: Text)
    ensures r <= s && (r != [] ==> !IsBlank(r[|r| - 1]))
  {
    if s == [] || !IsBlank(s[|s| - 1]) then s else TrimRight(s[..|s| - 1])
  }

  function Trim(s: Text): Text { TrimRight(TrimLeft(s)) }

  lemma {:induction false} TrimLeftCuts(s: Text) returns (front: Text)
    ensures AllBlank(front) && s == front + TrimLeft(s)
  {
    if s == [] || !IsBlank(s[0]) {
      front := [];
    } else {
      var f := TrimLeftCuts(s[1..]);
      front := [s[0]] + f;
      assert s == [s[0]] + s[1..];
    }
  }

  lemma {:induction false} TrimRightCuts(s: Text) returns (back: Text)
    ensures AllBlank(back) && s == TrimRight(s) + back
  {
    if s == [] || !IsBlank(s[|s| - 1]) {
      back := [];
    } else {
      var b := TrimRightCuts(s[..|s| - 1]);
      back := b + [s[|s| - 1]];
      assert s == s[..|s| - 1] + [s[|s| - 1]];
    }
  }

  /** What is cut off by trimming is blank. */
  lemma TrimCuts(s: Text) returns (front: Text, back: Text)
    ensures AllBlank(front) && AllBlank(back) && s == front + Trim(s) + back
  {
    front := TrimLeftCuts(s);
    back := TrimRightCuts(TrimLeft(s));
  }

  predicate Tight(t: Text) { t == [] || (!IsBlank(t[0]) && !IsBlank(t[|t| - 1])) }

  lemma TrimIsTight(s: Text)
    ensures Tight(Trim(s))
  {
  }

  /** There is only one way to cut blanks off both ends and leave a tight text. */
  lemma TrimIsUnique(front: Text, t: Text, back: Text)
    requires AllBlank(front) && AllBlank(back) && Tight(t)
    ensures Trim(front + t + back) == t
  {
    var s := front + t + back;
    var f, b := TrimCuts(s);
    var u := Trim(s);
    TrimIsTight(s);
    assert forall i :: 0 <= i < |u| ==> u[i] == s[|f| + i];
    if t == [] {
      assert AllBlank(s);
    } else {
      assert s[|front|] == t[0];
      assert s[|front| + |t| - 1] == t[|t| - 1];
      assert u == [] ==> s == f + b;
      assert s[|f|] == u[0];
      assert s[|f| + |u| - 1] == u[|u| - 1];
      assert |f| == |front|;
      assert |f| + |u| == |front| + |t|;
      assert u == s[|f|..|f| + |u|] == t;
    }
  }

  // ---------------------------------------------------------------- lines

  /** The position of the first newline, or the length if there is none. */
  function FirstNewline(s: Text): (n: nat)
    ensures n <= |s| && NEWLINE !in s[..n]
    ensures n < |s| ==> s[n] == NEWLINE
  {
    if s == [] || s[0] == NEWLINE then 0
    else
      var n := 1 + FirstNewline(s[1..]);
      assert s[..n] == [s[0]] + s[1..][..n - 1];
      n
  }

  /** The pieces between the newlines; the last one is not ended by a newline. */
  function Pieces(s: Text): (ps: seq<Text>)
    ensures |ps| >= 1
  {
    var n := FirstNewline(s);
    if n == |s| then [s] else [s[..n]] + Pieces(s[n + 1..])
  }

  function Join(ps: seq<Text>): Text
    requires |ps| >= 1
  {
    if |ps| == 1 then ps[0] else ps[0] + [NEWLINE] + Join(ps[1..])
  }

  ghost predicate NoNewlines(ps: seq<Text>) { forall i :: 0 <= i < |ps| ==> NEWLINE !in ps[i] }

  /** The pieces put the stream back together, and none holds a newline. */
  lemma {:induction false} PiecesJoin(s: Text)
    ensures Join(Pieces(s)) == s && NoNewlines(Pieces(s))
    decreases |s|
  {
    var n := FirstNewline(s);
    if n < |s| {
      PiecesJoin(s[n + 1..]);
      assert s == s[..n] + [NEWLINE] + s[n + 1..];
      assert Pieces(s)[1..] == Pieces(s[n + 1..]);
    } else {
      assert s[..n] == s;
    }
  }

  lemma FirstNewlineOf(a: Text, b: Text)
    requires NEWLINE !in a
    ensures FirstNewline(a + [NEWLINE] + b) == |a|
  {
    var s := a + [NEWLINE] + b;
    var n := FirstNewline(s);
    assert s[|a|] == NEWLINE && forall i :: 0 <= i < |a| ==> s[i] == a[i];
    assert forall i :: 0 <= i < n ==> s[i] in s[..n];
  }

  lemma PiecesAfterLine(a: Text, b: Text)
    requires NEWLINE !in a
    ensures Pieces(a + [NEWLINE] + b) == [a] + Pieces(b)
  {
    FirstNewlineOf(a, b);
    var s := a + [NEWLINE] + b;
    assert s[..|a|] == a && s[|a| + 1..] == b;
  }

  lemma PiecesOfOne(a: Text)
    requires NEWLINE !in a
    ensures FirstNewline(a) == |a| && Pieces(a) == [a]
  {
  }

  /** No other newline-free pieces join to the same stream. */
  lemma {:induction false} PiecesAreUnique(ps: seq<Text>)
    requires |ps| >= 1 && NoNewlines(ps)
    ensures Pieces(Join(ps)) == ps
    decreases |ps|
  {
    if |ps| == 1 {
      PiecesOfOne(ps[0]);
    } else {
      PiecesAreUnique(ps[1..]);
      PiecesAfterLine(ps[0], Join(ps[1..]));
    }
  }

  /** The command of one line: none if the line is blank. */
  function CommandOf(line: Text): seq<Text> { if Trim(line) == [] then [] else [Trim(line)] }

  /** The meaning of a stream: its non-empty trimmed complete lines. */
  function Commands(s: Text): seq<Text> {
    var n := FirstNewline(s);
    if n == |s| then [] else CommandOf(s[..n]) + Commands(s[n + 1..])
  }

  /** What follows the last newline. */
  function Rest(s: Text): (r: Text)
    ensures NEWLINE !in r
  {
    var n := FirstNewline(s);
    if n == |s| then assert s[..n] == s; s else Rest(s[n + 1..])
  }

  /** One line is taken off the front: the step of the processing loop. */
  lemma CommandsAfterLine(a: Text, b: Text)
    requires NEWLINE !in a
    ensures Commands(a + [NEWLINE] + b) == CommandOf(a) + Commands(b)
    ensures Rest(a + [NEWLINE] + b) == Rest(b)
  {
    FirstNewlineOf(a, b);
    var s := a + [NEWLINE] + b;
    assert s[..|a|] == a && s[|a| + 1..] == b;
  }

  lemma NoCommandsYet(s: Text)
    requires NEWLINE !in s
    ensures Commands(s) == [] && Rest(s) == s
  {
  }

  lemma Associate<T>(a: seq<T>, b: seq<T>, c: seq<T>)
    ensures a + (b + c) == (a + b) + c
  {
  }

  /** However the stream is cut in two, the second part continues from the rest of the first. */
  lemma {:induction false} CutAnywhere(a: Text, b: Text)
    ensures Commands(a + b) == Commands(a) + Commands(Rest(a) + b)
    ensures Rest(a + b) == Rest(Rest(a) + b)
    decreases |a|, 1
  {
    var n := FirstNewline(a);
    if n == |a| {
      assert a[..n] == a;
      NoCommandsYet(a);
    } else {
      CutAfterLine(a, a[..n], a[n + 1..], b);
    }
  }

  lemma {:induction false} CutAfterLine(a: Text, line: Text, tail: Text, b: Text)
    requires a == line + [NEWLINE] + tail && NEWLINE !in line
    ensures Commands(a + b) == Commands(a) + Commands(Rest(a) + b)
    ensures Rest(a + b) == Rest(Rest(a) + b)
    decreases |a|, 0
  {
    assert a + b == line + [NEWLINE] + (tail + b);
    CommandsAfterLine(line, tail);
    CommandsAfterLine(line, tail + b);
    CutAnywhere(tail, b);
    Associate(CommandOf(line), Commands(tail), Commands(Rest(tail) + b));
  }

  /** What a client whose stream came in these reads has had handled, and what is buffered. */
  function Replayed(chunks: seq<Text>): (seq<Text>, Text) {
    if chunks == [] then ([], [])
    else
      var (done, buffer) := Replayed(chunks[..|chunks| - 1]);
      var input := buffer + chunks[|chunks| - 1];
      (done + Commands(input), Rest(input))
  }

  function Concat(chunks: seq<Text>): Text {
    if chunks == [] then [] else Concat(chunks[..|chunks| - 1]) + chunks[|chunks| - 1]
  }

  /** Any split of the stream into reads gives the commands of the whole stream. */
  lemma {:induction false} AnySplit(chunks: seq<Text>)
    ensures Replayed(chunks) == (Commands(Concat(chunks)), Rest(Concat(chunks)))
    decreases |chunks|
  {
    if chunks == [] {
      NoCommandsYet([]);
    } else {
      AnySplit(chunks[..|chunks| - 1]);
      CutAnywhere(Concat(chunks[..|chunks| - 1]), chunks[|chunks| - 1]);
    }
  }

  // ---------------------------------------------------------------- the end of a stream

  function NonEmptyTrimmed(ps: seq<Text>): seq<Text> {
    if ps == [] then [] else CommandOf(ps[0]) + NonEmptyTrimmed(ps[1..])
  }

  /** The commands a reader of lines would see in a stream that has ended. */
  function AllCommands(s: Text): seq<Text> { NonEmptyTrimmed(Pieces(s)) }

  lemma AllAfterLine(a: Text, b: Text)
    requires NEWLINE !in a
    ensures AllCommands(a + [NEWLINE] + b) == CommandOf(a) + AllCommands(b)
  {
    PiecesAfterLine(a, b);
    assert ([a] + Pieces(b))[1..] == Pieces(b);
  }

  lemma AllOfOne(a: Text)
    requires NEWLINE !in a
    ensures AllCommands(a) == CommandOf(a)
  {
    PiecesOfOne(a);
    assert NonEmptyTrimmed([a]) == CommandOf(a) + NonEmptyTrimmed([a][1..]);
  }

  /** The loop's commands are those of the pieces before the last; the last is the rest. */
  lemma {:induction false} AllIsCommandsAndRest(s: Text)
    ensures AllCommands(s) == Commands(s) + CommandOf(Rest(s))
    decreases |s|
  {
    var n := FirstNewline(s);
    if n == |s| {
      assert s[..n] == s;
      AllOfOne(s);
    } else {
      var line, tail := s[..n], s[n + 1..];
      assert s == line + [NEWLINE] + tail;
      AllAfterLine(line, tail);
      AllIsCommandsAndRest(tail);
      Associate(CommandOf(line), Commands(tail), CommandOf(Rest(tail)));
    }
  }

  lemma {:induction false} CommandsHaveNoNewlines(ps: seq<Text>)
    requires NoNewlines(ps)
    ensures NoNewlines(NonEmptyTrimmed(ps))
    decreases |ps|
  {
    if ps != [] {
      CommandsHaveNoNewlines(ps[1..]);
      var f, b := TrimCuts(ps[0]);
      assert forall c :: c in Trim(ps[0]) ==> c in ps[0];
    }
  }

  lemma BlankTrims(s: Text)
    ensures Trim(s) == [] <==> AllBlank(s)
  {
    if AllBlank(s) {
      TrimIsUnique(s, [], []);
      assert s + [] + [] == s;
    } else {
      var f, b := TrimCuts(s);
      assert Trim(s) == [] ==> s == f + b;
    }
  }

  lemma BlankFront(a: Text, s: Text)
    requires AllBlank(a)
    ensures Trim(a + s) == Trim(s)
  {
    var f, b := TrimCuts(s);
    TrimIsTight(s);
    assert a + s == (a + f) + Trim(s) + b;
    TrimIsUnique(a + f, Trim(s), b);
  }

  lemma BlankBack(s: Text, a: Text)
    requires AllBlank(a)
    ensures Trim(s + a) == Trim(s)
  {
    var f, b := TrimCuts(s);
    TrimIsTight(s);
    assert s + a == f + Trim(s) + (b + a);
    TrimIsUnique(f, Trim(s), b + a);
  }

  lemma InnerStays(a: Text, b: Text, front: Text, t: Text, back: Text)
    requires front + t + back == a + [NEWLINE] + b && AllBlank(front) && AllBlank(back)
    requires !AllBlank(a) && !AllBlank(b)
    ensures NEWLINE in t
  {
    var s := a + [NEWLINE] + b;
    var i :| 0 <= i < |a| && !IsBlank(a[i]);
    var j :| 0 <= j < |b| && !IsBlank(b[j]);
    assert s[i] == a[i] && s[|a| + 1 + j] == b[j];
    assert forall k :: 0 <= k < |front| ==> s[k] == front[k];
    assert forall k :: |front| + |t| <= k < |s| ==> s[k] == back[k - |front| - |t|];
    assert |front| <= i && |a| + 1 + j < |front| + |t|;
    assert t[|a| - |front|] == s[|a|] == NEWLINE;
  }

  /** A newline between two texts that are not blank is still there after trimming. */
  lemma InnerNewlineStays(a: Text, b: Text)
    requires !AllBlank(a) && !AllBlank(b)
    ensures NEWLINE in Trim(a + [NEWLINE] + b)
  {
    var front, back := TrimCuts(a + [NEWLINE] + b);
    InnerStays(a, b, front, Trim(a + [NEWLINE] + b), back);
  }

  lemma {:induction false} BlankHasNoCommands(s: Text)
    requires AllBlank(s)
    ensures AllCommands(s) == []
    decreases |s|
  {
    var n := FirstNewline(s);
    if n == |s| {
      assert s[..n] == s;
      AllOfOne(s);
      BlankTrims(s);
    } else {
      var line, tail := s[..n], s[n + 1..];
      assert s == line + [NEWLINE] + tail;
      AllAfterLine(line, tail);
      BlankTrims(line);
      BlankHasNoCommands(tail);
    }
  }

  lemma BlankLineFirst(line: Text, tail: Text)
    requires NEWLINE !in line && AllBlank(line)
    ensures Trim(line + [NEWLINE] + tail) == Trim(tail)
    ensures AllCommands(line + [NEWLINE] + tail) == AllCommands(tail)
  {
    BlankTrims(line);
    AllAfterLine(line, tail);
    BlankFront(line + [NEWLINE], tail);
  }

  lemma BlankWithNewline(tail: Text)
    requires AllBlank(tail)
    ensures AllBlank([NEWLINE] + tail)
  {
  }

  lemma BlankTailLast(line: Text, tail: Text)
    requires NEWLINE !in line && AllBlank(tail)
    ensures Trim(line + [NEWLINE] + tail) == Trim(line)
    ensures AllCommands(line + [NEWLINE] + tail) == CommandOf(line)
  {
    var rest := [NEWLINE] + tail;
    BlankWithNewline(tail);
    BlankBack(line, rest);
    assert line + [NEWLINE] + tail == line + rest;
    TailCommands(line, tail);
  }

  lemma TailCommands(line: Text, tail: Text)
    requires NEWLINE !in line && AllBlank(tail)
    ensures AllCommands(line + [NEWLINE] + tail) == CommandOf(line)
  {
    AllAfterLine(line, tail);
    BlankHasNoCommands(tail);
  }

  lemma {:induction false} OneLineLeft(s: Text)
    requires NEWLINE !in Trim(s)
    ensures AllCommands(s) == CommandOf(s)
    decreases |s|, 1
  {
    var n := FirstNewline(s);
    if n == |s| {
      assert s[..n] == s;
      AllOfOne(s);
    } else {
      OneLineOfTwo(s, s[..n], s[n + 1..]);
    }
  }

  lemma {:induction false} OneLineOfTwo(s: Text, line: Text, tail: Text)
    requires s == line + [NEWLINE] + tail && NEWLINE !in line && NEWLINE !in Trim(s)
    ensures AllCommands(s) == CommandOf(s)
    decreases |s|, 0
  {
    if AllBlank(line) {
      BlankLineFirst(line, tail);
      OneLineLeft(tail);
    } else if AllBlank(tail) {
      BlankTailLast(line, tail);
    } else {
      InnerNewlineStays(line, tail);
      assert false;
    }
  }

  /** At the end of a stream the buffered bytes are handled as lines exactly when no newline is
      left inside them once both ends are trimmed; otherwise several lines become one command. */
  lemma EndIsFramedIff(buffer: Text)
    ensures CommandOf(buffer) == AllCommands(buffer) <==> NEWLINE !in Trim(buffer)
  {
    if NEWLINE !in Trim(buffer) {
      OneLineLeft(buffer);
    } else {
      PiecesJoin(buffer);
      CommandsHaveNoNewlines(Pieces(buffer));
      assert CommandOf(buffer)[0] == Trim(buffer);
    }
  }

  lemma SamePrefix<T>(a: seq<T>, b: seq<T>, c: seq<T>)
    ensures a + b == a + c <==> b == c
  {
    assert b == (a + b)[|a|..] && c == (a + c)[|a|..];
  }

  lemma AllFromCut(stream: Text, data: Text)
    ensures AllCommands(stream + data) == Commands(stream) + AllCommands(Rest(stream) + data)
  {
    AllIsCommandsAndRest(stream + data);
    AllIsCommandsAndRest(Rest(stream) + data);
    CutAnywhere(stream, data);
    Associate(Commands(stream), Commands(Rest(stream) + data), CommandOf(Rest(stream + data)));
  }

  /** An activation that reads data and then sees the end hands over everything not yet handled
      as one command, which is right exactly when no newline is left inside it. */
  lemma EndWithDataIsFramedIff(stream: Text, data: Text)
    ensures Commands(stream) + CommandOf(Rest(stream) + data) == AllCommands(stream + data)
            <==> NEWLINE !in Trim(Rest(stream) + data)
  {
    AllFromCut(stream, data);
    EndIsFramedIff(Rest(stream) + data);
    SamePrefix(Commands(stream), CommandOf(Rest(stream) + data), AllCommands(Rest(stream) + data));
  }

  // ---------------------------------------------------------------- line ends

  /** The stream with a carriage return before every newline. */
  function WithReturns(s: Text): Text
    decreases |s|
  {
    var n := FirstNewline(s);
    if n == |s| then s else (s[..n] + [13]) + [NEWLINE] + WithReturns(s[n + 1..])
  }

  /** A blank before the end of a line plays no part in its command. */
  lemma BlankEndIsCut(line: Text, b: byte)
    requires b in {9, 11, 12, 13, 32}
    ensures CommandOf(line + [b]) == CommandOf(line)
  {
    var f, e := TrimCuts(line);
    TrimIsTight(line);
    assert line + [b] == f + Trim(line) + (e + [b]);
    TrimIsUnique(f, Trim(line), e + [b]);
  }

  /** Lines ended by CR LF give the commands of the lines ended by LF. */
  lemma {:induction false} ReturnsAreIgnored(s: Text)
    ensures Commands(WithReturns(s)) == Commands(s)
    decreases |s|
  {
    var n := FirstNewline(s);
    if n < |s| {
      ReturnsAreIgnored(s[n + 1..]);
      FirstLine(s, s[..n], s[n + 1..]);
    }
  }

  lemma FirstLine(s: Text, line: Text, tail: Text)
    requires FirstNewline(s) < |s| && line == s[..FirstNewline(s)] && tail == s[FirstNewline(s) + 1..]
    requires Commands(WithReturns(tail)) == Commands(tail)
    ensures Commands(WithReturns(s)) == Commands(s)
  {
    var rest := WithReturns(tail);
    assert WithReturns(s) == (line + [13]) + [NEWLINE] + rest;
    assert s == line + [NEWLINE] + tail;
    OneReturn(line, tail, rest);
  }

  lemma OneReturn(line: Text, tail: Text, rest: Text)
    requires NEWLINE !in line && Commands(rest) == Commands(tail)
    ensures Commands((line + [13]) + [NEWLINE] + rest) == Commands(line + [NEWLINE] + tail)
  {
    CommandsAfterLine(line, tail);
    CommandsAfterLine(line + [13], rest);
    BlankEndIsCut(line, 13);
  }
}
