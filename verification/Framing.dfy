/** Newline framing of the sidecar's TCP stream. */
module Framing {
  import opened Basics

  type Byte = bv8

  const NEWLINE: Byte := 10
  const MAX_RECORD_BYTES: nat := 65536

  datatype Split = Split(lines: seq<seq<Byte>>, rest: seq<Byte>)
  datatype Taken = Taken(records: seq<seq<Byte>>, rest: seq<Byte>)

  /** Position of the first newline. */
  function FirstNewline(b: seq<Byte>): (i: nat)
    requires NEWLINE in b
    ensures i < |b| && b[i] == NEWLINE && NEWLINE !in b[..i]
  {
    if b[0] == NEWLINE then 0
    else
      assert b == [b[0]] + b[1..];
      var i := 1 + FirstNewline(b[1..]);
      assert b[..i] == [b[0]] + b[1..][..i - 1];
      i
  }

  /** `*lines, rest = buffer.split(b"\n")` */
  function SplitLines(b: seq<Byte>): (r: Split)
    ensures NEWLINE !in r.rest
  {
    if NEWLINE !in b then Split([], b)
    else
      var i := FirstNewline(b);
      var tail := SplitLines(b[i + 1..]);
      Split([b[..i]] + tail.lines, tail.rest)
  }

  function NonEmpty(lines: seq<seq<Byte>>): seq<seq<Byte>> {
    if lines == [] then []
    else (if lines[0] == [] then [] else [lines[0]]) + NonEmpty(lines[1..])
  }

  predicate Oversized(s: Split) {
    (exists l <- s.lines :: |l| > MAX_RECORD_BYTES) || |s.rest| > MAX_RECORD_BYTES
  }

  /** `_take_records`: `None` is the `ValueError`. */
  function TakeRecords(buffer: seq<Byte>): Option<Taken> {
    var s := SplitLines(buffer);
    if Oversized(s) then None else Some(Taken(NonEmpty(s.lines), s.rest))
  }

  /** The serve loop's use of it: the unfinished rest is put before the next chunk. */
  function Feed(rest: seq<Byte>, chunks: seq<seq<Byte>>): Option<Taken>
    decreases |chunks|
  {
    if chunks == [] then Some(Taken([], rest))
    else
      match TakeRecords(rest + chunks[0])
      case None => None
      case Some(t) =>
        match Feed(t.rest, chunks[1..])
        case None => None
        case Some(u) => Some(Taken(t.records + u.records, u.rest))
  }

  function Flatten(chunks: seq<seq<Byte>>): seq<Byte> {
    if chunks == [] then [] else chunks[0] + Flatten(chunks[1..])
  }

  lemma FirstNewlineUnique(b: seq<Byte>, i: nat)
    requires i < |b| && b[i] == NEWLINE && NEWLINE !in b[..i]
    ensures NEWLINE in b && FirstNewline(b) == i
  {
    var j := FirstNewline(b);
    forall k: nat | k < i ensures b[k] != NEWLINE { assert b[..i][k] == b[k]; }
    forall k: nat | k < j ensures b[k] != NEWLINE { assert b[..j][k] == b[k]; }
  }

  lemma SplitAt(b: seq<Byte>, i: nat)
    requires i < |b| && b[i] == NEWLINE && NEWLINE !in b[..i]
    ensures var tail := SplitLines(b[i + 1..]);
            SplitLines(b) == Split([b[..i]] + tail.lines, tail.rest)
  {
    FirstNewlineUnique(b, i);
  }

  lemma SplitWhole(b: seq<Byte>)
    requires NEWLINE !in b
    ensures SplitLines(b) == Split([], b)
  {
  }

  lemma SplitAfterHead(a: seq<Byte>, b: seq<Byte>, i: nat, v: Split)
    requires i < |a| && a[i] == NEWLINE && NEWLINE !in a[..i]
    requires v == SplitLines(a[i + 1..] + b)
    ensures SplitLines(a + b) == Split([a[..i]] + v.lines, v.rest)
  {
    assert (a + b)[..i] == a[..i] && (a + b)[i + 1..] == a[i + 1..] + b;
    SplitAt(a + b, i);
  }

  /** Splitting what was left over together with more input continues the split. */
  lemma {:induction false} SplitAppend(a: seq<Byte>, b: seq<Byte>, s: Split, t: Split)
    requires s == SplitLines(a) && t == SplitLines(s.rest + b)
    ensures SplitLines(a + b) == Split(s.lines + t.lines, t.rest)
    decreases |a|
  {
    if NEWLINE in a {
      var i := FirstNewline(a);
      var u := SplitLines(a[i + 1..]);
      SplitAt(a, i);
      SplitAppend(a[i + 1..], b, u, t);
      SplitAfterHead(a, b, i, Split(u.lines + t.lines, t.rest));
      ConcatAssociative([a[..i]], u.lines, t.lines);
    } else {
      SplitWhole(a);
      assert [] + t.lines == t.lines;
    }
  }

  lemma {:induction false} NonEmptyAppend(a: seq<seq<Byte>>, b: seq<seq<Byte>>)
    ensures NonEmpty(a + b) == NonEmpty(a) + NonEmpty(b)
  {
    if a == [] {
      assert a + b == b;
    } else {
      assert (a + b)[1..] == a[1..] + b;
      NonEmptyAppend(a[1..], b);
    }
  }

  /** An oversized unfinished rest stays oversized whatever follows it. */
  lemma OversizedRest(rest: seq<Byte>, b: seq<Byte>)
    requires NEWLINE !in rest && |rest| > MAX_RECORD_BYTES
    ensures Oversized(SplitLines(rest + b))
  {
    var w := rest + b;
    if NEWLINE in w {
      var i := FirstNewline(w);
      assert i >= |rest|;
      assert SplitLines(w).lines[0] == w[..i];
    }
  }

  /** Taking records from `a + b` is taking them from `a`, then from its rest with `b`. */
  lemma TakeAppend(a: seq<Byte>, b: seq<Byte>)
    ensures TakeRecords(a + b) ==
            match TakeRecords(a)
            case None => None
            case Some(t) =>
              match TakeRecords(t.rest + b)
              case None => None
              case Some(u) => Some(Taken(t.records + u.records, u.rest))
  {
    var s := SplitLines(a);
    var t := SplitLines(s.rest + b);
    SplitAppend(a, b, s, t);
    var w := SplitLines(a + b);
    NonEmptyAppend(s.lines, t.lines);
    if |s.rest| > MAX_RECORD_BYTES {
      OversizedRest(s.rest, b);
    }
    assert Oversized(w) <==> Oversized(s) || Oversized(t) by {
      forall l | l in s.lines ensures l in w.lines {}
      forall l | l in t.lines ensures l in w.lines {}
    }
  }

  lemma {:induction false} FeedIsTake(rest: seq<Byte>, chunks: seq<seq<Byte>>)
    requires TakeRecords(rest) == Some(Taken([], rest))
    ensures Feed(rest, chunks) == TakeRecords(rest + Flatten(chunks))
    decreases |chunks|
  {
    if chunks == [] {
      assert rest + [] == rest;
    } else {
      var a := rest + chunks[0];
      assert rest + Flatten(chunks) == a + Flatten(chunks[1..]);
      TakeAppend(a, Flatten(chunks[1..]));
      match TakeRecords(a)
      case None =>
      case Some(t) =>
        assert NEWLINE !in t.rest;
        FeedIsTake(t.rest, chunks[1..]);
    }
  }

  /** However the stream is cut, the records, the rest and the refusal are those of the whole stream. */
  lemma ChunkingIrrelevant(chunks: seq<seq<Byte>>)
    ensures Feed([], chunks) == TakeRecords(Flatten(chunks))
  {
    FeedIsTake([], chunks);
    assert [] + Flatten(chunks) == Flatten(chunks);
  }

  /** A stretch of `MAX_RECORD_BYTES + 1` bytes without a newline. */
  ghost predicate LongRun(b: seq<Byte>, i: nat) {
    i + MAX_RECORD_BYTES < |b| && NEWLINE !in b[i..i + MAX_RECORD_BYTES + 1]
  }

  /** A long run in a newline-headed stream is a long first piece or one in the tail. */
  lemma LongRunAround(b: seq<Byte>, n: nat, i: nat)
    requires n < |b| && b[n] == NEWLINE
    ensures LongRun(b[n + 1..], i) ==> LongRun(b, n + 1 + i)
    ensures LongRun(b, i) && i <= n ==> n > MAX_RECORD_BYTES
    ensures LongRun(b, i) && i > n ==> LongRun(b[n + 1..], i - n - 1)
  {
    var w := MAX_RECORD_BYTES + 1;
    if LongRun(b[n + 1..], i) {
      assert b[n + 1..][i..i + w] == b[n + 1 + i..n + 1 + i + w];
    }
    if LongRun(b, i) {
      if i > n {
        assert b[n + 1..][i - n - 1..i - n - 1 + w] == b[i..i + w];
      } else if n < i + w {
        InLongRun(b, i, n);
        assert false;
      }
    }
  }

  lemma InLongRun(b: seq<Byte>, i: nat, n: nat)
    requires LongRun(b, i) && i <= n <= i + MAX_RECORD_BYTES
    ensures b[n] != NEWLINE
  {
    assert b[n] == b[i..i + MAX_RECORD_BYTES + 1][n - i];
  }

  /** A stream is refused exactly when it holds a newline-free stretch longer than the cap. */
  lemma {:induction false} RefusedIffLongRun(b: seq<Byte>)
    ensures TakeRecords(b).None? <==> exists i: nat :: LongRun(b, i)
    decreases |b|
  {
    var w := MAX_RECORD_BYTES + 1;
    if NEWLINE !in b {
      if |b| >= w {
        assert LongRun(b, 0);
      }
    } else {
      var n := FirstNewline(b);
      var tail := b[n + 1..];
      SplitAt(b, n);
      RefusedIffLongRun(tail);
      OversizedCons(b[..n], SplitLines(tail));
      forall i: nat ensures LongRun(tail, i) ==> LongRun(b, n + 1 + i) {
        LongRunAround(b, n, i);
      }
      if n > MAX_RECORD_BYTES {
        assert b[0..w] == b[..n][..w];
        assert LongRun(b, 0);
      }
      if i: nat :| LongRun(b, i) {
        LongRunAround(b, n, i);
      }
    }
  }

  lemma OversizedCons(line: seq<Byte>, s: Split)
    ensures Oversized(Split([line] + s.lines, s.rest)) <==> |line| > MAX_RECORD_BYTES || Oversized(s)
  {
    var all := [line] + s.lines;
    assert all[0] == line;
    forall l | l in s.lines ensures l in all {}
  }

  /** What `_send` does with each message: the record and a newline. */
  function Print(records: seq<seq<Byte>>): seq<Byte> {
    if records == [] then [] else records[0] + [NEWLINE] + Print(records[1..])
  }

  lemma TakePrinted(r: seq<Byte>)
    requires 0 < |r| <= MAX_RECORD_BYTES && NEWLINE !in r
    ensures TakeRecords(r + [NEWLINE]) == Some(Taken([r], []))
  {
    var a := r + [NEWLINE];
    assert a[..|r|] == r && a[|r| + 1..] == [];
    SplitAt(a, |r|);
    SplitWhole([]);
    assert SplitLines(a) == Split([r], []);
    assert NonEmpty([r]) == [r] + NonEmpty([]);
  }

  /** Printing admissible records and taking them back gives them unchanged. */
  lemma {:induction false} PrintedRecordsComeBack(records: seq<seq<Byte>>, partial: seq<Byte>)
    requires forall r <- records :: 0 < |r| <= MAX_RECORD_BYTES && NEWLINE !in r
    requires |partial| <= MAX_RECORD_BYTES && NEWLINE !in partial
    ensures TakeRecords(Print(records) + partial) == Some(Taken(records, partial))
    decreases |records|
  {
    if records == [] {
      SplitWhole(partial);
      assert [] + partial == partial;
    } else {
      var a, more := records[0] + [NEWLINE], Print(records[1..]) + partial;
      ConcatAssociative(a, Print(records[1..]), partial);
      TakePrinted(records[0]);
      TakeAppend(a, more);
      assert [] + more == more;
      PrintedRecordsComeBack(records[1..], partial);
      HeadAndTail(records);
    }
  }

  /** A line counts if it is not empty. */
  ghost function IfAny(): seq<Byte> -> Option<seq<Byte>> {
    (line: seq<Byte>) => if |line| > 0 then Some(line) else None
  }

  lemma {:induction false} NonEmptyIsFound(lines: seq<seq<Byte>>)
    ensures NonEmpty(lines) == Found(lines, IfAny())
    decreases |lines|
  {
    if lines != [] {
      NonEmptyIsFound(lines[1..]);
      FoundFirst(lines[0], lines[1..], IfAny());
      HeadAndTail(lines);
    }
  }

  lemma PrintFirst(line: seq<Byte>, lines: seq<seq<Byte>>)
    ensures Print([line] + lines) == line + [NEWLINE] + Print(lines)
  {
    assert ([line] + lines)[1..] == lines;
  }

  lemma RejoinFirst(b: seq<Byte>, i: nat, tail: Split)
    requires i < |b| && b[i] == NEWLINE && Print(tail.lines) + tail.rest == b[i + 1..]
    ensures Print([b[..i]] + tail.lines) + tail.rest == b
  {
    PrintFirst(b[..i], tail.lines);
    hide Print;
    assert b == (b[..i] + [NEWLINE]) + b[i + 1..];
    ConcatAssociative(b[..i] + [NEWLINE], Print(tail.lines), tail.rest);
  }

  /** Splitting undoes putting a newline after each line. */
  lemma {:induction false} SplitRejoins(b: seq<Byte>)
    ensures var s := SplitLines(b); Print(s.lines) + s.rest == b && forall l <- s.lines :: NEWLINE !in l
    decreases |b|
  {
    hide SplitLines, Print, FirstNewline;
    if NEWLINE in b {
      var i := FirstNewline(b);
      SplitAt(b, i);
      SplitRejoins(b[i + 1..]);
      RejoinFirst(b, i, SplitLines(b[i + 1..]));
    } else {
      SplitWhole(b);
      PrintNothing();
      assert [] + b == b;
    }
  }

  lemma PrintNothing()
    ensures Print([]) == []
  {
  }

  /**
   * Whatever the bytes: the records taken are the lines of the stream but for the empty ones, in order, and
   * what is kept is the stretch after the last newline. Every line kept or dropped is within the cap.
   */
  lemma RecordsAreLines(b: seq<Byte>) returns (lines: seq<seq<Byte>>)
    requires TakeRecords(b).Some?
    ensures var t := TakeRecords(b).value;
            && b == Print(lines) + t.rest && NEWLINE !in t.rest && (forall l <- lines :: NEWLINE !in l)
            && t.records == Found(lines, IfAny())
            && |t.rest| <= MAX_RECORD_BYTES && forall l <- lines :: |l| <= MAX_RECORD_BYTES
  {
    lines := SplitLines(b).lines;
    SplitRejoins(b);
    NonEmptyIsFound(lines);
  }
}
