/** Tailing the deploy log for grade changes, and ending a goal on a settled grade. */
module GradeTail {
  import opened Basics
  import opened Utf8

  datatype GradeChange = GradeChange(grade: string, simTime: real)

  // ------------------------------------------------------------------ lines

  /** The line boundaries of `str.splitlines`. */
  predicate IsBoundary(c: char) {
    var n := c as int;
    0x0A <= n <= 0x0D || 0x1C <= n <= 0x1E || n == 0x85 || n == 0x2028 || n == 0x2029
  }

  function FirstBoundary(s: string): (i: nat)
    requires exists c <- s :: IsBoundary(c)
    ensures i < |s| && IsBoundary(s[i]) && forall k | 0 <= k < i :: !IsBoundary(s[k])
  {
    if IsBoundary(s[0]) then 0
    else
      assert exists c <- s[1..] :: IsBoundary(c) by {
        var c :| c in s && IsBoundary(c);
        assert c in s[1..];
      }
      1 + FirstBoundary(s[1..])
  }

  /** A carriage return and line feed are one boundary. */
  function BoundaryLength(s: string, i: nat): (n: nat)
    requires i < |s|
    ensures 1 <= n && i + n <= |s|
  {
    if s[i] == '\r' && i + 1 < |s| && s[i + 1] == '\n' then 2 else 1
  }

  predicate HasBoundary(s: string) {
    exists c <- s :: IsBoundary(c)
  }

  /** `grade_events`: the grade changes of the lines of a text; `parse` reads one line. */
  function GradeEvents(text: string, parse: string -> Option<GradeChange>): seq<GradeChange>
    decreases |text|
  {
    if text == "" then []
    else if !HasBoundary(text) then LineEvents(text, parse)
    else
      var i := FirstBoundary(text);
      LineEvents(text[..i], parse) + GradeEvents(text[i + BoundaryLength(text, i)..], parse)
  }

  function LineEvents(line: string, parse: string -> Option<GradeChange>): seq<GradeChange> {
    match parse(line) case None => [] case Some(e) => [e]
  }

  lemma FirstBoundaryIs(s: string, i: nat)
    requires i < |s| && IsBoundary(s[i]) && forall k | 0 <= k < i :: !IsBoundary(s[k])
    ensures HasBoundary(s) && FirstBoundary(s) == i
  {
    assert s[i] in s;
  }

  /** The first line of a text with a boundary at `i`, and the rest. */
  lemma FirstLine(s: string, i: nat, parse: string -> Option<GradeChange>)
    requires i < |s| && IsBoundary(s[i]) && forall k | 0 <= k < i :: !IsBoundary(s[k])
    ensures GradeEvents(s, parse) == LineEvents(s[..i], parse) + GradeEvents(s[i + BoundaryLength(s, i)..], parse)
  {
    FirstBoundaryIs(s, i);
    hide HasBoundary, FirstBoundary, BoundaryLength, LineEvents, IsBoundary;
  }

  lemma OneLine(s: string, parse: string -> Option<GradeChange>)
    requires !HasBoundary(s) && parse("") == None
    ensures GradeEvents(s, parse) == LineEvents(s, parse)
  {
  }

  /** Two texts with a newline between them. */
  function Break(a: string, b: string): string {
    a + "\n" + b
  }

  lemma BreakParts(a: string, b: string)
    ensures |Break(a, b)| == |a| + 1 + |b|
    ensures Break(a, b)[..|a|] == a && Break(a, b)[|a|] == '\n' && Break(a, b)[|a| + 1..] == b
    ensures forall k | 0 <= k < |a| :: Break(a, b)[k] == a[k]
  {
  }

  lemma BreakDrop(a: string, b: string, k: nat)
    requires k <= |a|
    ensures Break(a, b)[k..] == Break(a[k..], b) && Break(a, b)[..k] == a[..k]
  {
  }

  lemma BreakAppend(a: string, b: string, c: string)
    ensures Break(a, b) + c == Break(a, b + c)
  {
  }

  lemma BreakTwice(a: string, b: string, c: string)
    ensures Break(a, Break(b, c)) == Break(Break(a, b), c)
  {
  }

  /** Reading two newline-separated texts one after the other finds the events of the whole. */
  lemma {:induction false} EventsSplit(a: string, b: string, parse: string -> Option<GradeChange>)
    requires parse("") == None
    ensures GradeEvents(Break(a, b), parse) == GradeEvents(a, parse) + GradeEvents(b, parse)
    decreases |a|
  {
    hide GradeEvents, LineEvents;
    if !HasBoundary(a) {
      OneLine(a, parse);
      LastLine(a, b, parse);
    } else {
      var i := FirstBoundary(a);
      if a[i] == '\r' && i + 1 == |a| {
        ReturnBeforeNewline(a, b, i, parse);
      } else {
        InnerLine(a, b, i, parse);
        EventsSplit(a[i + BoundaryLength(a, i)..], b, parse);
        ConcatAssociative(LineEvents(a[..i], parse), GradeEvents(a[i + BoundaryLength(a, i)..], parse),
            GradeEvents(b, parse));
      }
    }
  }

  lemma LastLine(a: string, b: string, parse: string -> Option<GradeChange>)
    requires !HasBoundary(a)
    ensures GradeEvents(Break(a, b), parse) == LineEvents(a, parse) + GradeEvents(b, parse)
  {
    hide GradeEvents, LineEvents, Break;
    BreakParts(a, b);
    forall k | 0 <= k < |a| ensures !IsBoundary(Break(a, b)[k]) {
      assert a[k] in a;
    }
    FirstLine(Break(a, b), |a|, parse);
  }

  /** A carriage return that ends `a` joins the newline after it. */
  lemma ReturnBeforeNewline(a: string, b: string, i: nat, parse: string -> Option<GradeChange>)
    requires i + 1 == |a| && a[i] == '\r' && forall k | 0 <= k < i :: !IsBoundary(a[k])
    ensures GradeEvents(Break(a, b), parse) == GradeEvents(a, parse) + GradeEvents(b, parse)
  {
    NoEvents(parse);
    hide GradeEvents, LineEvents, Break;
    BreakParts(a, b);
    BreakDrop(a, b, i);
    FirstLine(Break(a, b), i, parse);
    FirstLine(a, i, parse);
    assert a[i + 1..] == "";
  }

  lemma NoEvents(parse: string -> Option<GradeChange>)
    ensures GradeEvents("", parse) == []
  {
  }

  lemma InnerLine(a: string, b: string, i: nat, parse: string -> Option<GradeChange>)
    requires i < |a| && IsBoundary(a[i]) && !(a[i] == '\r' && i + 1 == |a|)
    requires forall k | 0 <= k < i :: !IsBoundary(a[k])
    ensures var rest := a[i + BoundaryLength(a, i)..];
            && GradeEvents(a, parse) == LineEvents(a[..i], parse) + GradeEvents(rest, parse)
            && GradeEvents(Break(a, b), parse) == LineEvents(a[..i], parse) + GradeEvents(Break(rest, b), parse)
  {
    hide GradeEvents, LineEvents, Break;
    BreakParts(a, b);
    BreakDrop(a, b, i);
    BreakDrop(a, b, i + BoundaryLength(a, i));
    FirstLine(Break(a, b), i, parse);
    FirstLine(a, i, parse);
  }

  // ------------------------------------------------------------------ what is found on the lines

  const BREAKS: set<int> := {10, 11, 12, 13, 28, 29, 30, 133, 8232, 8233}

  ghost predicate OneLineOnly(line: string) {
    forall c <- line :: c as int !in BREAKS
  }

  /** A line ends with one boundary character, or with a carriage return and line feed. */
  ghost predicate IsBreak(b: string) {
    (|b| == 1 && b[0] as int in BREAKS) || b == ['\r', '\n']
  }

  /** `text` is those lines, each followed by its break; only the last may lack one, and no break is cut in two. */
  ghost predicate IsLines(text: string, lines: seq<string>, breaks: seq<string>)
    decreases |lines|
  {
    && |lines| == |breaks| && (lines == [] ==> text == "")
    && (lines != [] ==>
          var head := lines[0] + breaks[0];
          && OneLineOnly(lines[0]) && head != "" && head <= text
          && var rest := text[|head|..];
             && IsLines(rest, lines[1..], breaks[1..])
             && (if breaks[0] == "" then rest == "" else IsBreak(breaks[0]))
             && (breaks[0] == ['\r'] && rest != "" ==> rest[0] != '\n'))
  }

  lemma BoundaryIff(c: char)
    ensures IsBoundary(c) <==> c as int in BREAKS
  {
  }

  lemma NoBoundaryIff(line: string)
    ensures HasBoundary(line) <==> !OneLineOnly(line)
  {
    forall c | c in line ensures IsBoundary(c) <==> c as int in BREAKS {
      BoundaryIff(c);
    }
  }

  /** A line, its break, and the rest of the text: the first boundary ends the line. */
  lemma LineThenRest(text: string, line: string, b: string, parse: string -> Option<GradeChange>)
    requires OneLineOnly(line) && IsBreak(b) && line + b <= text
    requires b == ['\r'] && |line + b| < |text| ==> text[|line + b|] != '\n'
    ensures GradeEvents(text, parse) == LineEvents(line, parse) + GradeEvents(text[|line + b|..], parse)
  {
    var i := |line|;
    assert text[..i] == line && text[i] == b[0];
    BoundaryIff(text[i]);
    forall k | 0 <= k < i ensures !IsBoundary(text[k]) {
      assert text[k] == line[k] && line[k] in line;
      BoundaryIff(line[k]);
    }
    FirstLine(text, i, parse);
    assert |b| > 1 ==> text[i + 1] == b[1];
    assert BoundaryLength(text, i) == |b|;
  }

  lemma OneMoreLine(lines: seq<string>, parse: string -> Option<GradeChange>)
    requires lines != []
    ensures Found(lines, parse) == LineEvents(lines[0], parse) + Found(lines[1..], parse)
  {
    FoundFirst(lines[0], lines[1..], parse);
    HeadAndTail(lines);
    assert [] + Found(lines[1..], parse) == Found(lines[1..], parse);
  }

  /** The grade changes of a text are what `parse` finds on its lines, in their order. */
  lemma {:induction false} EventsAreFound(text: string, lines: seq<string>, breaks: seq<string>,
                                          parse: string -> Option<GradeChange>)
    requires IsLines(text, lines, breaks) && parse("") == None
    ensures GradeEvents(text, parse) == Found(lines, parse)
    decreases |lines|
  {
    if lines == [] {
      NoEvents(parse);
    } else {
      var rest := text[|lines[0] + breaks[0]|..];
      EventsAreFound(rest, lines[1..], breaks[1..], parse);
      OneMoreLine(lines, parse);
      if breaks[0] == "" {
        assert text == lines[0];
        NoBoundaryIff(text);
        OneLine(text, parse);
        NoEvents(parse);
      } else {
        LineThenRest(text, lines[0], breaks[0], parse);
      }
    }
  }

  /** Every text has its lines. */
  lemma {:induction false} LinesOf(text: string) returns (lines: seq<string>, breaks: seq<string>)
    ensures IsLines(text, lines, breaks)
    decreases |text|
  {
    if text == "" {
      lines, breaks := [], [];
    } else if !HasBoundary(text) {
      lines, breaks := [text], [""];
      NoBoundaryIff(text);
      assert text + "" == text && text[|text|..] == "";
    } else {
      var i := FirstBoundary(text);
      var n := i + BoundaryLength(text, i);
      var moreLines, moreBreaks := LinesOf(text[n..]);
      lines, breaks := [text[..i]] + moreLines, [text[i..n]] + moreBreaks;
      BreakAt(text, i, n);
      assert lines[1..] == moreLines && breaks[1..] == moreBreaks;
    }
  }

  lemma BreakAt(text: string, i: nat, n: nat)
    requires i < |text| && IsBoundary(text[i]) && (forall k | 0 <= k < i :: !IsBoundary(text[k]))
    requires n == i + BoundaryLength(text, i)
    ensures OneLineOnly(text[..i]) && IsBreak(text[i..n]) && text[..i] + text[i..n] == text[..n]
    ensures text[i..n] == ['\r'] && n < |text| ==> text[n] != '\n'
  {
    NoBoundaryIff(text[..i]);
    BoundaryIff(text[i]);
  }

  /** The last line that says anything says `complete`, and that was long enough ago. */
  ghost predicate LastSays(lines: seq<string>, parse: string -> Option<GradeChange>, now: real, settleS: real) {
    exists k | 0 <= k < |lines| ::
      && parse(lines[k]).Some? && parse(lines[k]).value.grade == "complete"
      && parse(lines[k]).value.simTime + settleS <= now
      && forall j | k < j < |lines| :: parse(lines[j]).None?
  }

  lemma LastIsFound(lines: seq<string>, parse: string -> Option<GradeChange>, k: nat)
    requires k < |lines| && parse(lines[k]).Some? && forall j | k < j < |lines| :: parse(lines[j]).None?
    ensures Found(lines, parse) != [] && Found(lines, parse)[|Found(lines, parse)| - 1] == parse(lines[k]).value
  {
    NothingFound(lines[k + 1..], parse);
    assert lines == lines[..k] + ([lines[k]] + lines[k + 1..]);
    FoundConcat(lines[..k], [lines[k]] + lines[k + 1..], parse);
    FoundFirst(lines[k], lines[k + 1..], parse);
  }

  lemma {:induction false} NothingFound(lines: seq<string>, parse: string -> Option<GradeChange>)
    requires forall j | 0 <= j < |lines| :: parse(lines[j]).None?
    ensures Found(lines, parse) == []
    decreases |lines|
  {
    if lines != [] {
      NothingFound(lines[..|lines| - 1], parse);
    }
  }

  lemma LastFoundIs(lines: seq<string>, parse: string -> Option<GradeChange>) returns (k: nat)
    requires Found(lines, parse) != []
    ensures k < |lines| && parse(lines[k]).Some? && forall j | k < j < |lines| :: parse(lines[j]).None?
  {
    k := FoundWhere(lines, parse, |Found(lines, parse)| - 1);
    forall j | k < j < |lines| ensures parse(lines[j]).None? {
      if parse(lines[j]).Some? {
        assert lines[..j][..k] == lines[..k];
        FoundAt(lines[..j], parse, k);
        FoundAt(lines, parse, j);
      }
    }
  }

  lemma LastSaysIff(lines: seq<string>, parse: string -> Option<GradeChange>, now: real, settleS: real)
    ensures var since := CompleteSince(Found(lines, parse));
            LastSays(lines, parse, now, settleS) <==> since.Some? && now - since.value >= settleS
  {
    if Found(lines, parse) != [] {
      var k := LastFoundIs(lines, parse);
      LastIsFound(lines, parse, k);
    }
    if LastSays(lines, parse, now, settleS) {
      var k :| 0 <= k < |lines| && parse(lines[k]).Some? && parse(lines[k]).value.grade == "complete"
        && parse(lines[k]).value.simTime + settleS <= now && forall j | k < j < |lines| :: parse(lines[j]).None?;
      LastIsFound(lines, parse, k);
    }
  }

  // ------------------------------------------------------------------ the settle timer

  class GradeSettle {
    const settleS: real
    var since: Option<real>
    /** Every change fed so far. */
    ghost var fed: seq<GradeChange>

    ghost predicate Valid()
      reads this
    {
      since == CompleteSince(fed)
    }

    constructor (settleS: real)
      ensures Valid() && this.settleS == settleS && fed == []
    {
      this.settleS := settleS;
      since, fed := None, [];
    }

    method Feed(e: GradeChange)
      modifies this
      ensures Valid() && fed == old(fed) + [e]
    {
      since, fed := if e.grade == "complete" then Some(e.simTime) else None, fed + [e];
    }

    predicate Due(now: real)
      reads this
    {
      since.Some? && now - since.value >= settleS
    }
  }

  /** The last grade read is `complete`; the time it was reached. */
  function CompleteSince(events: seq<GradeChange>): Option<real> {
    if events != [] && events[|events| - 1].grade == "complete" then Some(events[|events| - 1].simTime) else None
  }

  // ------------------------------------------------------------------ the tail

  datatype Cut = Cut(done: string, tail: string)

  /** `rpartition("\n")`: what precedes the last newline, and what follows it. */
  function CutLast(s: string): (c: Cut)
    ensures '\n' !in c.tail
    ensures if '\n' in s then s == Break(c.done, c.tail) else c == Cut("", s)
  {
    if s == "" then Cut("", "")
    else
      var n := |s| - 1;
      assert s == s[..n] + [s[n]];
      if s[n] == '\n' then Cut(s[..n], "")
      else
        var c := CutLast(s[..n]);
        if '\n' in s[..n] then
          BreakAppend(c.done, c.tail, [s[n]]);
          Cut(c.done, c.tail + [s[n]])
        else Cut("", s)
  }

  lemma {:induction false} CutUnique(done: string, tail: string)
    requires '\n' !in tail
    ensures CutLast(Break(done, tail)) == Cut(done, tail)
    decreases |tail|
  {
    hide Break;
    BreakParts(done, tail);
    if tail != "" {
      var n := |tail| - 1;
      assert tail == tail[..n] + [tail[n]];
      CutUnique(done, tail[..n]);
      BreakAppend(done, tail[..n], [tail[n]]);
      BreakParts(done, tail[..n]);
      CutSnoc(Break(done, tail[..n]), tail[n]);
    }
  }

  lemma CutSnoc(s: string, c: char)
    requires c != '\n' && '\n' in s
    ensures CutLast(s + [c]) == Cut(CutLast(s).done, CutLast(s).tail + [c])
  {
    assert (s + [c])[..|s|] == s;
  }

  /** The grade changes on the finished lines of a text. */
  function FinishedEvents(text: string, parse: string -> Option<GradeChange>): seq<GradeChange> {
    GradeEvents(CutLast(text).done, parse)
  }

  /** Cutting what was kept together with the next chunk continues the cut of the whole. */
  lemma CutContinues(seen: string, chunk: string, parse: string -> Option<GradeChange>)
    requires parse("") == None
    ensures var c := CutLast(CutLast(seen).tail + chunk);
            && FinishedEvents(seen + chunk, parse) == FinishedEvents(seen, parse) + GradeEvents(c.done, parse)
            && CutLast(seen + chunk).tail == c.tail
  {
    var b, s := CutLast(seen), CutLast(seen).tail + chunk;
    var c := CutLast(s);
    NoEvents(parse);
    hide CutLast, GradeEvents, Break;
    if '\n' !in seen {
      assert seen + chunk == s;
    } else {
      BreakAppend(b.done, b.tail, chunk);
      if '\n' !in s {
        CutUnique(b.done, s);
      } else {
        BreakTwice(b.done, c.done, c.tail);
        CutUnique(Break(b.done, c.done), c.tail);
        EventsSplit(b.done, c.done, parse);
      }
    }
  }

  // ------------------------------------------------------------------ reading the log

  /**
   * One turn of the loop: the log when it is read, the sim clock, and whether the runner would accept
   * `complete`.
   */
  datatype Turn = Turn(log: seq<Byte>, now: real, accepts: bool)

  /** The log only grows. */
  predicate Grows(start: nat, turns: seq<Turn>) {
    && (turns != [] ==> start <= |turns[0].log|)
    && forall i | 0 < i < |turns| :: turns[i - 1].log <= turns[i].log
  }

  /** `seek` and `read`: nothing when the offset is past the end. */
  function ReadFrom(log: seq<Byte>, offset: nat): seq<Byte> {
    if offset <= |log| then log[offset..] else []
  }

  /** The offset after the first `n` turns: each chunk moves it by the length of its text encoded again. */
  function Offset(start: nat, turns: seq<Turn>, n: nat): nat
    requires n <= |turns|
    decreases n, 0
  {
    if n == 0 then start
    else Offset(start, turns, n - 1) + |Encode(Chunk(start, turns, n - 1))|
  }

  /** The text of turn `i`. */
  function Chunk(start: nat, turns: seq<Turn>, i: nat): string
    requires i < |turns|
    decreases i, 1
  {
    Decode(ReadFrom(turns[i].log, Offset(start, turns, i)))
  }

  /** All the text of the first `n` turns. */
  function Heard(start: nat, turns: seq<Turn>, n: nat): string
    requires n <= |turns|
  {
    if n == 0 then "" else Heard(start, turns, n - 1) + Chunk(start, turns, n - 1)
  }

  // ------------------------------------------------------------------ the monitor loop

  /** `done` is the text before the last newline; without one nothing is finished. */
  ghost predicate Finished(text: string, done: string) {
    if '\n' in text then exists tail :: text == Break(done, tail) && '\n' !in tail else done == ""
  }

  /** The last finished line that says anything says `complete`, and that was long enough ago. */
  ghost predicate Settled(text: string, now: real, settleS: real, parse: string -> Option<GradeChange>) {
    exists done, lines, breaks ::
      Finished(text, done) && IsLines(done, lines, breaks) && LastSays(lines, parse, now, settleS)
  }

  lemma FinishedIff(text: string, done: string)
    ensures Finished(text, done) <==> done == CutLast(text).done
  {
    if '\n' in text {
      if tail :| text == Break(done, tail) && '\n' !in tail {
        CutUnique(done, tail);
      }
    }
    hide CutLast;
  }

  /** What is found on the finished lines, one by one. */
  lemma FinishedAreFound(text: string, done: string, lines: seq<string>, breaks: seq<string>,
                         parse: string -> Option<GradeChange>)
    requires Finished(text, done) && IsLines(done, lines, breaks) && parse("") == None
    ensures FinishedEvents(text, parse) == Found(lines, parse)
  {
    FinishedIff(text, done);
    EventsAreFound(done, lines, breaks, parse);
  }

  lemma SettledIff(text: string, now: real, settleS: real, parse: string -> Option<GradeChange>)
    requires parse("") == None
    ensures var since := CompleteSince(FinishedEvents(text, parse));
            Settled(text, now, settleS, parse) <==> since.Some? && now - since.value >= settleS
  {
    var done := CutLast(text).done;
    FinishedIff(text, done);
    var lines, breaks := LinesOf(done);
    FinishedAreFound(text, done, lines, breaks, parse);
    LastSaysIff(lines, parse, now, settleS);
    hide FinishedEvents, Found, IsLines, LastSays, CutLast, Finished;
    if other, others, otherBreaks :|
      Finished(text, other) && IsLines(other, others, otherBreaks) && LastSays(others, parse, now, settleS) {
      FinishedAreFound(text, other, others, otherBreaks, parse);
      LastSaysIff(others, parse, now, settleS);
    }
  }

  ghost predicate SettledAt(start: nat, turns: seq<Turn>, i: nat, settleS: real,
                            parse: string -> Option<GradeChange>) {
    i < |turns| && Settled(Heard(start, turns, i + 1), turns[i].now, settleS, parse)
  }

  /** The goal was completed at some turn before `n`. */
  ghost predicate EndedBefore(start: nat, turns: seq<Turn>, n: nat, settleS: real,
                              parse: string -> Option<GradeChange>) {
    exists i: nat | i < n :: SettledAt(start, turns, i, settleS, parse) && turns[i].accepts
  }

  method FeedAll(settle: GradeSettle, events: seq<GradeChange>)
    requires settle.Valid()
    modifies settle
    ensures settle.Valid() && settle.fed == old(settle.fed) + events
  {
    var i := 0;
    while i < |events|
      invariant 0 <= i <= |events| && settle.Valid()
      invariant settle.fed == old(settle.fed) + events[..i]
    {
      settle.Feed(events[i]);
      i := i + 1;
    }
    assert events[..i] == events;
  }

  class Tail {
    var offset: nat
    var tail: string
    const settle: GradeSettle

    constructor (offset: nat, settle: GradeSettle)
      ensures this.offset == offset && tail == "" && this.settle == settle
    {
      this.offset, tail, this.settle := offset, "", settle;
    }

    /** Of the text heard so far exactly the finished lines were fed, each once and in order. */
    ghost predicate Follows(heard: string, parse: string -> Option<GradeChange>)
      reads this, settle
    {
      tail == CutLast(heard).tail && settle.Valid() && settle.fed == FinishedEvents(heard, parse)
    }

    /** Lines 215-221: read the log from the offset, keep the unfinished line, feed the rest. */
    method ReadOn(log: seq<Byte>, parse: string -> Option<GradeChange>, ghost heard: string)
      requires parse("") == None && Follows(heard, parse)
      modifies this, settle
      ensures var chunk := Decode(ReadFrom(log, old(offset)));
              Follows(heard + chunk, parse) && offset == old(offset) + |Encode(chunk)|
    {
      hide Encode, Decode, CutLast, FinishedEvents, GradeEvents;
      var chunk := Decode(ReadFrom(log, offset));
      offset := offset + |Encode(chunk)|;
      var c := CutLast(tail + chunk);
      tail := c.tail;
      CutContinues(heard, chunk, parse);
      FeedAll(settle, GradeEvents(c.done, parse));
    }

    /** Turn `i`: after reading, the timer is due exactly when the finished lines heard end on a settled `complete`. */
    method Turn(start: nat, turns: seq<Turn>, i: nat, parse: string -> Option<GradeChange>) returns (due: bool)
      requires parse("") == None && i < |turns|
      requires offset == Offset(start, turns, i) && Follows(Heard(start, turns, i), parse)
      modifies this, settle
      ensures offset == Offset(start, turns, i + 1) && Follows(Heard(start, turns, i + 1), parse)
      ensures due <==> SettledAt(start, turns, i, settle.settleS, parse)
    {
      hide Encode, Decode, CutLast, FinishedEvents, Settled;
      ReadOn(turns[i].log, parse, Heard(start, turns, i));
      SettledIff(Heard(start, turns, i + 1), turns[i].now, settle.settleS, parse);
      due := settle.Due(turns[i].now);
    }
  }

  /**
   * The monitor loop of `_dispatch_goal`, for any log and any reads: exactly the finished lines of the
   * text heard are fed, and the goal is asked to complete exactly at the turns whose latest finished
   * grade line heard is a settled `complete`, until the runner accepts.
   */
  method Monitor(start: nat, turns: seq<Turn>, settleS: real, parse: string -> Option<GradeChange>)
    returns (endedByGrade: bool, asked: seq<nat>, ghost fed: seq<GradeChange>)
    requires parse("") == None
    ensures fed == FinishedEvents(Heard(start, turns, |turns|), parse)
    ensures endedByGrade <==> EndedBefore(start, turns, |turns|, settleS, parse)
    ensures forall i: nat :: i in asked <==>
              SettledAt(start, turns, i, settleS, parse) && !EndedBefore(start, turns, i, settleS, parse)
  {
    hide SettledAt, EndedBefore, CutLast, FinishedEvents, Encode, Decode, Heard, Offset;
    var settle := new GradeSettle(settleS);
    var t := new Tail(start, settle);
    NothingHeard(start, turns, settleS, parse);
    endedByGrade, asked := false, [];
    var i := 0;
    while i < |turns|
      invariant 0 <= i <= |turns|
      invariant fresh(t) && fresh(t.settle) && t.settle.settleS == settleS
      invariant t.offset == Offset(start, turns, i) && t.Follows(Heard(start, turns, i), parse)
      invariant endedByGrade <==> EndedBefore(start, turns, i, settleS, parse)
      invariant forall j: nat :: j in asked <==>
                  j < i && SettledAt(start, turns, j, settleS, parse) && !EndedBefore(start, turns, j, settleS, parse)
    {
      EndsAt(start, turns, i, settleS, parse);
      var due := t.Turn(start, turns, i, parse);
      if !endedByGrade && due {
        asked := asked + [i];
        if turns[i].accepts {
          endedByGrade := true;
        }
      }
      i := i + 1;
    }
    fed := t.settle.fed;
    OnlyTurnsSettle(start, turns, settleS, parse);
  }

  lemma OnlyTurnsSettle(start: nat, turns: seq<Turn>, settleS: real, parse: string -> Option<GradeChange>)
    ensures forall i: nat :: SettledAt(start, turns, i, settleS, parse) ==> i < |turns|
  {
  }

  lemma NothingHeard(start: nat, turns: seq<Turn>, settleS: real, parse: string -> Option<GradeChange>)
    ensures CutLast("") == Cut("", "") && FinishedEvents("", parse) == []
    ensures Offset(start, turns, 0) == start && Heard(start, turns, 0) == ""
    ensures !EndedBefore(start, turns, 0, settleS, parse)
  {
  }

  lemma EndsAt(start: nat, turns: seq<Turn>, i: nat, settleS: real, parse: string -> Option<GradeChange>)
    requires i < |turns|
    ensures EndedBefore(start, turns, i + 1, settleS, parse) <==>
            EndedBefore(start, turns, i, settleS, parse)
            || (SettledAt(start, turns, i, settleS, parse) && turns[i].accepts)
  {
    hide SettledAt;
  }

  // ------------------------------------------------------------------ keeping the place in the log

  /** Where the read of turn `i` should start: after the bytes there were at the turn before. */
  function ReadSoFar(start: nat, turns: seq<Turn>, i: nat): nat
    requires i <= |turns|
  {
    if i == 0 then start else |turns[i - 1].log|
  }

  /** After each of the first `n` turns the offset is the number of bytes there were to read. */
  predicate KeepsPlace(start: nat, turns: seq<Turn>, n: nat)
    requires n <= |turns|
  {
    forall i | 0 <= i < n :: Offset(start, turns, i + 1) == |turns[i].log|
  }

  /** The bytes that turn `i` should read. */
  function NewBytes(start: nat, turns: seq<Turn>, i: nat): seq<Byte>
    requires i < |turns| && Grows(start, turns)
  {
    turns[i].log[ReadSoFar(start, turns, i)..]
  }

  lemma KeepsOneMore(start: nat, turns: seq<Turn>, n: nat)
    requires Grows(start, turns) && n < |turns|
    ensures KeepsPlace(start, turns, n + 1) <==> KeepsPlace(start, turns, n) && Neutral(NewBytes(start, turns, n))
  {
    hide Encode, Decode;
    if KeepsPlace(start, turns, n) {
      assert Offset(start, turns, n) == ReadSoFar(start, turns, n) <= |turns[n].log|;
      assert ReadFrom(turns[n].log, Offset(start, turns, n)) == NewBytes(start, turns, n);
      assert Offset(start, turns, n + 1) == Offset(start, turns, n) + |Encode(Decode(NewBytes(start, turns, n)))|;
    }
    assert KeepsPlace(start, turns, n + 1) <==>
           KeepsPlace(start, turns, n) && Offset(start, turns, n + 1) == |turns[n].log|;
  }

  /** Whatever the bytes, no byte is read twice: a lost place means that bytes are skipped. */
  lemma {:induction false} NeverBehind(start: nat, turns: seq<Turn>, n: nat)
    requires Grows(start, turns) && n <= |turns|
    ensures Offset(start, turns, n) >= ReadSoFar(start, turns, n)
    decreases n
  {
    if n > 0 {
      hide Encode, Decode;
      NeverBehind(start, turns, n - 1);
      NeverShrinks(ReadFrom(turns[n - 1].log, Offset(start, turns, n - 1)));
    }
  }

  /** For any log the place is kept exactly when every turn's new bytes keep their length when decoded and encoded. */
  lemma {:induction false} KeepsPlaceIffNeutral(start: nat, turns: seq<Turn>, n: nat)
    requires Grows(start, turns) && n <= |turns|
    ensures KeepsPlace(start, turns, n) <==> forall i: nat | i < n :: Neutral(NewBytes(start, turns, i))
    decreases n
  {
    if n > 0 {
      hide Neutral, KeepsPlace, NewBytes;
      KeepsPlaceIffNeutral(start, turns, n - 1);
      KeepsOneMore(start, turns, n - 1);
    } else {
      hide Neutral, NewBytes;
    }
  }

  /** The logs are beginnings of the encoded text, cut anywhere. */
  predicate LogsOf(text: string, turns: seq<Turn>) {
    forall t <- turns :: t.log <= Encode(text)
  }

  /** Every read that a longer one follows ends between characters; the last may also end after three bytes of four. */
  predicate ReadsWhole(text: string, turns: seq<Turn>, n: nat)
    requires n <= |turns|
  {
    && (forall i | 0 < i < n && |turns[i - 1].log| < |turns[i].log| :: OnBoundary(text, |turns[i - 1].log|))
    && (n > 0 ==> OnBoundary(text, |turns[n - 1].log|) || CutAfterThree(text, |turns[n - 1].log|))
  }

  lemma NewBytesOfText(text: string, start: nat, turns: seq<Turn>, i: nat)
    requires Grows(start, turns) && LogsOf(text, turns) && i < |turns|
    ensures var from, to := ReadSoFar(start, turns, i), |turns[i].log|;
            from <= to <= |Encode(text)| && NewBytes(start, turns, i) == Encode(text)[from..to]
  {
    hide Encode;
    assert turns[i] in turns;
  }

  /**
   * On a growing UTF-8 log followed from between two characters, the offset equals the bytes read after
   * every read exactly when every read that a longer one follows ends between two characters, and the
   * last one does too or stops after three bytes of a four-byte character.
   */
  lemma {:induction false} KeepsPlaceIffWhole(text: string, start: nat, turns: seq<Turn>, n: nat)
    requires Grows(start, turns) && LogsOf(text, turns) && OnBoundary(text, start) && n <= |turns|
    ensures KeepsPlace(start, turns, n) <==> ReadsWhole(text, turns, n)
    decreases n
  {
    if n > 0 {
      KeepsPlaceIffWhole(text, start, turns, n - 1);
      KeepsOneMore(start, turns, n - 1);
      WholeOneMore(text, start, turns, n - 1);
    }
  }

  lemma WholeOneMore(text: string, start: nat, turns: seq<Turn>, n: nat)
    requires Grows(start, turns) && LogsOf(text, turns) && OnBoundary(text, start) && n < |turns|
    ensures ReadsWhole(text, turns, n + 1) <==> ReadsWhole(text, turns, n) && Neutral(NewBytes(start, turns, n))
  {
    hide Encode, Neutral, OnBoundary, CutAfterThree;
    var from, to := ReadSoFar(start, turns, n), |turns[n].log|;
    NewBytesOfText(text, start, turns, n);
    if OnBoundary(text, from) {
      NeutralFromBoundary(text, from, to);
      BoundaryIsNoCut(text, from);
    } else if CutAfterThree(text, from) && from < to {
      NeverNeutralFromCut(text, from, to);
    } else if from == to {
      NoBytes(Encode(text), from);
    }
  }

  lemma NoBytes(b: seq<Byte>, i: nat)
    requires i <= |b|
    ensures Neutral(b[i..i])
  {
    assert b[i..i] == [];
  }

  /** After three bytes of a character have been read, the rest of it makes the next read go two bytes too far. */
  lemma AfterThreeBytes(c: char, rest: string)
    requires |EncodeChar(c)| == 4
    ensures var chunk := EncodeChar(c)[3..] + Encode(rest); |Encode(Decode(chunk))| == |chunk| + 2
  {
    var chunk := EncodeChar(c)[3..] + Encode(rest);
    LastByteContinues(c);
    hide EncodeChar, Encode, Decode;
    assert chunk[0] == EncodeChar(c)[3] && chunk[1..] == Encode(rest);
    DecodeSplits(chunk);
    ReplacementLength();
    RoundTrip(rest);
  }

  const GRIN: char := '\U{1F600}'

  /** Two reads of a grin and a line end, the first of them three bytes long: the second goes two bytes past the log. */
  lemma ThreeByteReadLosesPlace()
    ensures var log := EncodeChar(GRIN) + Encode("\n");
            var turns := [Turn(log[..3], 0.0, false), Turn(log, 0.0, false)];
            Offset(0, turns, 1) == |turns[0].log| && Offset(0, turns, 2) == |turns[1].log| + 2
  {
    var log := EncodeChar(GRIN) + Encode("\n");
    var turns := [Turn(log[..3], 0.0, false), Turn(log, 0.0, false)];
    CutCharacterLength(GRIN, 3);
    AfterThreeBytes(GRIN, "\n");
    assert |EncodeChar(GRIN)| == 4;
    hide EncodeChar, Encode, Decode;
    assert ReadFrom(turns[0].log, 0) == EncodeChar(GRIN)[..3];
    assert Offset(0, turns, 1) == 3;
    assert ReadFrom(turns[1].log, 3) == EncodeChar(GRIN)[3..] + Encode("\n");
  }

  // ------------------------------------------------------------------ reads between characters

  function TextBefore(initial: string, texts: seq<string>, i: nat): string
    requires i <= |texts|
  {
    if i == 0 then initial else texts[i - 1]
  }

  /** At every turn the log is the encoding of a text that only grows. */
  predicate Writes(initial: string, texts: seq<string>, turns: seq<Turn>) {
    && |texts| == |turns|
    && forall i | 0 <= i < |turns| :: turns[i].log == Encode(texts[i]) && TextBefore(initial, texts, i) <= texts[i]
  }

  /** A read from between two characters of a longer log brings exactly what was written since. */
  lemma ReadsWritten(before: string, now: string)
    requires before <= now
    ensures var more := now[|before|..];
            && Decode(ReadFrom(Encode(now), |Encode(before)|)) == more
            && |Encode(now)| == |Encode(before)| + |Encode(more)|
  {
    hide Encode, Decode;
    var more := now[|before|..];
    assert now == before + more;
    EncodeConcat(before, more);
    assert ReadFrom(Encode(now), |Encode(before)|) == Encode(more);
    RoundTrip(more);
  }

  lemma TextGrows(initial: string, before: string, now: string)
    requires initial <= before <= now
    ensures initial <= now && now[|initial|..] == before[|initial|..] + now[|before|..]
  {
  }

  /** What is heard from such a log is exactly what was written since the start. */
  lemma {:induction false} HeardIsWritten(initial: string, texts: seq<string>, turns: seq<Turn>, n: nat)
    requires Writes(initial, texts, turns) && n <= |turns|
    ensures var start, now := |Encode(initial)|, TextBefore(initial, texts, n);
            && Offset(start, turns, n) == |Encode(now)| && initial <= now
            && Heard(start, turns, n) == now[|initial|..]
    decreases n
  {
    hide Encode, Decode, ReadFrom;
    if n > 0 {
      HeardIsWritten(initial, texts, turns, n - 1);
      var before, now := TextBefore(initial, texts, n - 1), texts[n - 1];
      assert turns[n - 1].log == Encode(now) && before <= now;
      hide Writes, TextBefore;
      TextAt(initial, texts, n);
      HeardNext(initial, before, now, turns, n);
    }
  }

  /** What the next turn hears, after everything written before it was heard. */
  lemma HeardNext(initial: string, before: string, now: string, turns: seq<Turn>, n: nat)
    requires 0 < n <= |turns| && initial <= before <= now && turns[n - 1].log == Encode(now)
    requires var start := |Encode(initial)|;
             Offset(start, turns, n - 1) == |Encode(before)| && Heard(start, turns, n - 1) == before[|initial|..]
    ensures var start := |Encode(initial)|;
            Offset(start, turns, n) == |Encode(now)| && Heard(start, turns, n) == now[|initial|..]
  {
    hide Encode, Decode, ReadFrom;
    ReadsWritten(before, now);
    TextGrows(initial, before, now);
  }

  lemma TextAt(initial: string, texts: seq<string>, n: nat)
    requires 0 < n <= |texts|
    ensures TextBefore(initial, texts, n) == texts[n - 1]
  {
  }

  /** So the goal ends on a grade exactly when the lines written so far say so. */
  lemma SettledOnWritten(initial: string, texts: seq<string>, turns: seq<Turn>, i: nat, settleS: real,
                         parse: string -> Option<GradeChange>)
    requires Writes(initial, texts, turns) && i < |turns|
    ensures initial <= texts[i]
    ensures SettledAt(|Encode(initial)|, turns, i, settleS, parse) <==>
            Settled(texts[i][|initial|..], turns[i].now, settleS, parse)
  {
    hide Encode, Settled;
    HeardIsWritten(initial, texts, turns, i + 1);
  }
}
