/** The splitter for the top-level arguments of a C++ call. */
module CppArgs {
  import opened Basics

  predicate IsOpen(c: char) {
    c == '(' || c == '[' || c == '{' || c == '<'
  }

  predicate IsClose(c: char) {
    c == ')' || c == ']' || c == '}' || c == '>'
  }

  /** The characters Python's `str.strip` removes. */
  predicate IsSpace(c: char) {
    var n := c as int;
    || 0x09 <= n <= 0x0D || 0x1C <= n <= 0x20 || n == 0x85 || n == 0xA0 || n == 0x1680
    || 0x2000 <= n <= 0x200A || n == 0x2028 || n == 0x2029 || n == 0x202F || n == 0x205F || n == 0x3000
  }

  function StripLeft(s: string): string {
    if s != "" && IsSpace(s[0]) then StripLeft(s[1..]) else s
  }

  function StripRight(s: string): string {
    if s != "" && IsSpace(s[|s| - 1]) then StripRight(s[..|s| - 1]) else s
  }

  function Strip(s: string): string {
    StripRight(StripLeft(s))
  }

  /** The whitespace characters, by their code points. */
  const WHITESPACE: set<int> := {
    9, 10, 11, 12, 13, 28, 29, 30, 31, 32, 133, 160, 5760, 8192, 8193, 8194, 8195, 8196, 8197, 8198, 8199, 8200,
    8201, 8202, 8232, 8233, 8239, 8287, 12288}

  predicate Blank(c: char) {
    c as int in WHITESPACE
  }

  lemma SpaceIff(c: char)
    ensures IsSpace(c) <==> Blank(c)
  {
  }

  predicate AllBlank(s: string) {
    forall c <- s :: Blank(c)
  }

  lemma {:induction false} StripLeftIs(s: string) returns (i: nat)
    ensures i <= |s| && StripLeft(s) == s[i..] && AllBlank(s[..i]) && (i < |s| ==> !Blank(s[i]))
    decreases |s|
  {
    i := 0;
    if s != "" {
      SpaceIff(s[0]);
      if IsSpace(s[0]) {
        var k := StripLeftIs(s[1..]);
        i := k + 1;
        assert s[..i] == [s[0]] + s[1..][..k];
      }
    }
  }

  lemma {:induction false} StripRightIs(s: string) returns (j: nat)
    ensures j <= |s| && StripRight(s) == s[..j] && AllBlank(s[j..]) && (j > 0 ==> !Blank(s[j - 1]))
    decreases |s|
  {
    j := |s|;
    if s != "" {
      SpaceIff(s[|s| - 1]);
      if IsSpace(s[|s| - 1]) {
        j := StripRightIs(s[..|s| - 1]);
        assert s[j..] == s[..|s| - 1][j..] + [s[|s| - 1]];
      }
    }
  }

  /** Stripping takes whitespace off both ends, and all of it. */
  lemma StripIs(s: string) returns (i: nat, j: nat)
    ensures i <= j <= |s| && Strip(s) == s[i..j] && AllBlank(s[..i]) && AllBlank(s[j..])
    ensures i < j ==> !Blank(s[i]) && !Blank(s[j - 1])
  {
    i := StripLeftIs(s);
    var k := StripRightIs(s[i..]);
    j := i + k;
    assert s[i..][..k] == s[i..j] && s[i..][k..] == s[j..];
  }

  // ------------------------------------------------------------------ the scanner

  predicate StartsArrow(text: string, i: nat) {
    i + 1 < |text| && text[i] == '-' && text[i + 1] == '>'
  }

  /** From inside a string literal: the position of its closing quote, or at least the end of the text. */
  function SkipString(text: string, i: nat): (j: nat)
    ensures i <= j && (i <= |text| ==> j <= |text| + 1)
    decreases |text| - i
  {
    if i >= |text| || text[i] == '"' then i else SkipString(text, i + (if text[i] == '\\' then 2 else 1))
  }

  /** Python's `text[begin:end]`, which stops at the end of the text. */
  function Slice(text: string, begin: nat, end: nat): (r: string)
    ensures begin <= end <= |text| ==> r == text[begin..end]
    ensures begin >= |text| || begin >= end ==> r == ""
  {
    var e := if end <= |text| then end else |text|;
    if begin <= e then text[begin..e] else ""
  }

  function Finish(text: string, begin: nat, i: nat, args: seq<string>): seq<string> {
    var last := Strip(Slice(text, begin, i));
    if last != "" || args != [] then args + [last] else []
  }

  /** The scan from position `i` at bracket depth `depth`, the current argument starting at `begin`. */
  function Scan(text: string, i: nat, depth: nat, begin: nat, args: seq<string>): seq<string>
    decreases |text| - i
  {
    if i >= |text| then Finish(text, begin, i, args)
    else if text[i] == '"' then Scan(text, SkipString(text, i + 1) + 1, depth, begin, args)
    else if StartsArrow(text, i) then Scan(text, i + 2, depth, begin, args)
    else if IsOpen(text[i]) then Scan(text, i + 1, depth + 1, begin, args)
    else if IsClose(text[i]) then
      if depth == 0 then Finish(text, begin, i, args) else Scan(text, i + 1, depth - 1, begin, args)
    else if text[i] == ',' && depth == 0 then
      Scan(text, i + 1, depth, i + 1, args + [Strip(Slice(text, begin, i))])
    else if text[i] == ';' && depth == 0 then Finish(text, begin, i, args)
    else Scan(text, i + 1, depth, begin, args)
  }

  /** The inner loop of lines 523-524: from inside a literal to its closing quote. */
  method SkipLiteral(text: string, start: nat) returns (i: nat)
    ensures i == SkipString(text, start)
  {
    i := start;
    while i < |text| && text[i] != '"'
      invariant SkipString(text, i) == SkipString(text, start)
      decreases |text| - i
    {
      i := i + if text[i] == '\\' then 2 else 1;
    }
  }

  /** `_cpp_args` */
  method SplitArgs(text: string, start: nat) returns (r: seq<string>)
    ensures r == Scan(text, start, 0, start, [])
  {
    var args: seq<string> := [];
    var depth: nat, i: nat, begin: nat := 0, start, start;
    while i < |text|
      invariant Scan(text, i, depth, begin, args) == Scan(text, start, 0, start, [])
      decreases |text| - i
    {
      var ch := text[i];
      if ch == '"' {
        i := SkipLiteral(text, i + 1);
      } else if ch == '-' && StartsArrow(text, i) {
        i := i + 1;
      } else if IsOpen(ch) {
        depth := depth + 1;
      } else if IsClose(ch) {
        if depth == 0 {
          break;
        }
        depth := depth - 1;
      } else if ch == ',' && depth == 0 {
        args := args + [Strip(Slice(text, begin, i))];
        begin := i + 1;
      } else if ch == ';' && depth == 0 {
        break;
      }
      i := i + 1;
    }
    var last := Strip(Slice(text, begin, i));
    r := if last != "" || args != [] then args + [last] else [];
  }

  // ------------------------------------------------------------------ the argument grammar

  datatype StringChar = Raw(c: char) | Escaped(c: char)

  /** A stretch of an argument: a plain character, `->`, a string literal or a bracketed group. */
  datatype Piece =
    | Plain(c: char)
    | Arrow
    | Literal(body: seq<StringChar>)
    | Group(open: char, inner: seq<Piece>, close: char)

  predicate WellFormedString(body: seq<StringChar>) {
    forall x <- body :: x.Raw? ==> x.c != '"' && x.c != '\\'
  }

  const OPENING: set<char> := {'(', '[', '{', '<'}
  const CLOSING: set<char> := {')', ']', '}', '>'}

  lemma BracketIff(c: char)
    ensures (IsOpen(c) <==> c in OPENING) && (IsClose(c) <==> c in CLOSING)
  {
  }

  /** Separators may only stand inside a group; a `-` may not run into a closing `>`. */
  predicate WellFormed(p: Piece, nested: bool) {
    match p
    case Plain(c) => c !in OPENING && c !in CLOSING && c != '"' && (nested || (c != ',' && c != ';'))
    case Arrow => true
    case Literal(body) => WellFormedString(body)
    case Group(open, inner, close) =>
      && open in OPENING && close in CLOSING && AllWellFormed(inner, true)
      && (close == '>' ==> !EndsWithMinus(inner))
  }

  predicate AllWellFormed(ps: seq<Piece>, nested: bool) {
    forall p <- ps :: WellFormed(p, nested)
  }

  predicate EndsWithMinus(ps: seq<Piece>) {
    ps != [] && ps[|ps| - 1] == Plain('-')
  }

  function PrintString(body: seq<StringChar>): string {
    if body == [] then ""
    else (match body[0] case Raw(c) => [c] case Escaped(c) => ['\\', c]) + PrintString(body[1..])
  }

  function PrintPiece(p: Piece): (s: string)
    ensures s != ""
  {
    match p
    case Plain(c) => [c]
    case Arrow => ['-', '>']
    case Literal(body) => ['"'] + PrintString(body) + ['"']
    case Group(open, inner, close) => [open] + Print(inner) + [close]
  }

  function Print(ps: seq<Piece>): string {
    if ps == [] then "" else PrintPiece(ps[0]) + Print(ps[1..])
  }

  // ------------------------------------------------------------------ scanning printed pieces

  /** `s` stands at position `i` of the text. */
  predicate Stands(text: string, i: nat, s: string) {
    i + |s| <= |text| && text[i..i + |s|] == s
  }

  lemma StandsSplit(text: string, i: nat, a: string, b: string)
    requires Stands(text, i, a + b)
    ensures Stands(text, i, a) && Stands(text, i + |a|, b)
  {
    var s := text[i..i + |a + b|];
    assert s[..|a|] == a && s[|a|..] == b;
    assert text[i..i + |a|] == s[..|a|];
    assert text[i + |a|..i + |a| + |b|] == s[|a|..];
  }

  lemma {:induction false} SkipPrinted(text: string, i: nat, body: seq<StringChar>)
    requires WellFormedString(body) && Stands(text, i, PrintString(body) + ['"'])
    ensures SkipString(text, i) == i + |PrintString(body)|
    decreases |body|
  {
    StandsSplit(text, i, PrintString(body), ['"']);
    if body == [] {
      assert text[i..i + 1][0] == text[i];
    } else {
      var head := match body[0] case Raw(c) => [c] case Escaped(c) => ['\\', c];
      var tail := PrintString(body[1..]);
      assert PrintString(body) + ['"'] == head + (tail + ['"']);
      StandsSplit(text, i, head, tail + ['"']);
      assert text[i..i + |head|][0] == text[i];
      assert body[0] in body;
      SkipPrinted(text, i + |head|, body[1..]);
    }
  }

  /** The text goes on with something other than `>`. */
  predicate NoGreater(text: string, i: nat) {
    i < |text| ==> text[i] != '>'
  }

  lemma PrintedStart(ps: seq<Piece>, nested: bool)
    requires ps != [] && AllWellFormed(ps, nested)
    ensures Print(ps) != "" && Print(ps)[0] != '>'
  {
    assert ps[0] in ps;
  }

  lemma ScanLiteral(text: string, i: nat, body: seq<StringChar>, depth: nat, begin: nat, args: seq<string>)
    requires WellFormedString(body) && Stands(text, i, ['"'] + PrintString(body) + ['"'])
    ensures Scan(text, i, depth, begin, args) == Scan(text, i + |PrintString(body)| + 2, depth, begin, args)
  {
    var inside := PrintString(body) + ['"'];
    ConcatAssociative(['"'], PrintString(body), ['"']);
    StandsSplit(text, i, ['"'], inside);
    assert text[i..i + 1][0] == text[i];
    SkipPrinted(text, i + 1, body);
  }

  lemma ScanArrow(text: string, i: nat, depth: nat, begin: nat, args: seq<string>)
    requires Stands(text, i, ['-', '>'])
    ensures Scan(text, i, depth, begin, args) == Scan(text, i + 2, depth, begin, args)
  {
    assert text[i..i + 2][0] == text[i] && text[i..i + 2][1] == text[i + 1];
  }

  lemma ScanPlain(text: string, i: nat, c: char, depth: nat, begin: nat, args: seq<string>)
    requires WellFormed(Plain(c), depth > 0) && Stands(text, i, [c])
    requires c == '-' ==> NoGreater(text, i + 1)
    ensures Scan(text, i, depth, begin, args) == Scan(text, i + 1, depth, begin, args)
  {
    assert text[i..i + 1][0] == text[i];
  }

  /** Scanning over a well-formed piece changes neither the depth nor the arguments collected. */
  lemma {:induction false} ScanPiece(text: string, i: nat, p: Piece, depth: nat, begin: nat, args: seq<string>)
    requires WellFormed(p, depth > 0) && Stands(text, i, PrintPiece(p))
    requires p == Plain('-') ==> NoGreater(text, i + 1)
    ensures Scan(text, i, depth, begin, args) == Scan(text, i + |PrintPiece(p)|, depth, begin, args)
    decreases p, 1
  {
    hide Scan, Stands;
    match p
    case Plain(c) => ScanPlain(text, i, c, depth, begin, args);
    case Arrow => ScanArrow(text, i, depth, begin, args);
    case Literal(body) => ScanLiteral(text, i, body, depth, begin, args);
    case Group(open, inner, close) => ScanGroup(text, i, p, depth, begin, args);
  }

  lemma ScanOpen(text: string, i: nat, c: char, depth: nat, begin: nat, args: seq<string>)
    requires IsOpen(c) && Stands(text, i, [c])
    ensures Scan(text, i, depth, begin, args) == Scan(text, i + 1, depth + 1, begin, args)
  {
    assert text[i..i + 1][0] == text[i];
  }

  lemma ScanClose(text: string, i: nat, c: char, depth: nat, begin: nat, args: seq<string>)
    requires IsClose(c) && Stands(text, i, [c])
    ensures Scan(text, i, depth + 1, begin, args) == Scan(text, i + 1, depth, begin, args)
  {
    assert text[i..i + 1][0] == text[i];
  }

  /** Where the parts of a group stand. */
  lemma GroupStands(text: string, i: nat, p: Piece)
    requires p.Group? && WellFormed(p, false) && Stands(text, i, PrintPiece(p))
    ensures var end := i + 1 + |Print(p.inner)|;
            && IsOpen(p.open) && IsClose(p.close) && Stands(text, i, [p.open])
            && Scannable(text, i + 1, p.inner, true) && Stands(text, end, [p.close]) && i + |PrintPiece(p)| == end + 1
  {
    var inside, end := Print(p.inner), i + 1 + |Print(p.inner)|;
    assert PrintPiece(p) == [p.open] + (inside + [p.close]);
    StandsSplit(text, i, [p.open], inside + [p.close]);
    StandsSplit(text, i + 1, inside, [p.close]);
    assert text[end..end + 1][0] == text[end];
  }

  lemma {:induction false} ScanGroup(text: string, i: nat, p: Piece, depth: nat, begin: nat, args: seq<string>)
    requires p.Group? && WellFormed(p, depth > 0) && Stands(text, i, PrintPiece(p))
    ensures Scan(text, i, depth, begin, args) == Scan(text, i + |PrintPiece(p)|, depth, begin, args)
    decreases p, 0
  {
    hide *;
    GroupNests(p, depth > 0);
    GroupStands(text, i, p);
    ScanOpen(text, i, p.open, depth, begin, args);
    ScanPieces(text, i + 1, p.inner, depth + 1, begin, args);
    ScanClose(text, i + 1 + |Print(p.inner)|, p.close, depth, begin, args);
  }

  /** A group is well formed at any depth. */
  lemma GroupNests(p: Piece, nested: bool)
    requires p.Group? && WellFormed(p, nested)
    ensures WellFormed(p, false)
  {
  }

  lemma {:induction false} ScanPieces(text: string, i: nat, ps: seq<Piece>, depth: nat, begin: nat, args: seq<string>)
    requires Scannable(text, i, ps, depth > 0)
    ensures Scan(text, i, depth, begin, args) == Scan(text, i + |Print(ps)|, depth, begin, args)
    decreases ps, 0
  {
    hide *;
    if ps == [] {
      PrintNothing();
    } else {
      SplitPieces(text, i, ps, depth > 0);
      ScanPiece(text, i, ps[0], depth, begin, args);
      ScanPieces(text, i + |PrintPiece(ps[0])|, ps[1..], depth, begin, args);
    }
  }

  lemma PrintNothing()
    ensures Print([]) == ""
  {
  }

  /** Well-formed pieces stand at `i`, and a trailing `-` does not run into a `>`. */
  predicate Scannable(text: string, i: nat, ps: seq<Piece>, nested: bool) {
    && AllWellFormed(ps, nested) && Stands(text, i, Print(ps))
    && (EndsWithMinus(ps) ==> NoGreater(text, i + |Print(ps)|))
  }

  lemma SplitPieces(text: string, i: nat, ps: seq<Piece>, nested: bool)
    requires ps != [] && Scannable(text, i, ps, nested)
    ensures var p := ps[0];
            && WellFormed(p, nested) && Stands(text, i, PrintPiece(p)) && (p == Plain('-') ==> NoGreater(text, i + 1))
            && Scannable(text, i + |PrintPiece(p)|, ps[1..], nested)
            && i + |PrintPiece(p)| + |Print(ps[1..])| == i + |Print(ps)|
  {
    hide WellFormed, PrintPiece, NoGreater, Stands, Print, AllWellFormed, EndsWithMinus;
    var p, rest := ps[0], ps[1..];
    SplitShape(ps, nested);
    StandsSplit(text, i, PrintPiece(p), Print(rest));
    FollowedSafely(text, i, p, rest, nested);
  }

  lemma SplitShape(ps: seq<Piece>, nested: bool)
    requires ps != [] && AllWellFormed(ps, nested)
    ensures WellFormed(ps[0], nested) && AllWellFormed(ps[1..], nested)
    ensures Print(ps) == PrintPiece(ps[0]) + Print(ps[1..])
    ensures |Print(ps)| == |PrintPiece(ps[0])| + |Print(ps[1..])|
    ensures [ps[0]] + ps[1..] == ps
    ensures EndsWithMinus(ps[1..]) ==> EndsWithMinus(ps)
  {
    hide WellFormed, PrintPiece;
    assert ps[0] in ps;
  }

  /** A plain `-` among well-formed pieces is not followed by `>`. */
  lemma FollowedSafely(text: string, i: nat, p: Piece, rest: seq<Piece>, nested: bool)
    requires AllWellFormed(rest, nested) && Stands(text, i + |PrintPiece(p)|, Print(rest))
    requires EndsWithMinus([p] + rest) ==> NoGreater(text, i + |PrintPiece(p)| + |Print(rest)|)
    ensures p == Plain('-') ==> NoGreater(text, i + 1)
  {
    if p == Plain('-') {
      if rest == [] {
        assert EndsWithMinus([p] + rest);
      } else {
        PrintedStart(rest, nested);
        assert text[i + 1..i + 1 + |Print(rest)|][0] == text[i + 1];
      }
    }
  }

  // ------------------------------------------------------------------ whole calls

  function Join(args: seq<seq<Piece>>): string {
    if args == [] then "" else if |args| == 1 then Print(args[0]) else Print(args[0]) + [','] + Join(args[1..])
  }

  function Texts(args: seq<seq<Piece>>): seq<string> {
    if args == [] then [] else [Strip(Print(args[0]))] + Texts(args[1..])
  }

  /** The argument list ends here: a closing bracket, the end of the statement, or of the text. */
  predicate Ends(after: string) {
    after == "" || after[0] in CLOSING || after[0] == ';'
  }

  /** No argument list ends on the `>` of a `->`. */
  predicate NoArrow(a: seq<Piece>, after: string) {
    EndsWithMinus(a) ==> after == "" || after[0] != '>'
  }

  lemma ScanLast(text: string, i: nat, a: seq<Piece>, done: seq<string>)
    requires AllWellFormed(a, false) && Stands(text, i, Print(a))
    requires Ends(text[i + |Print(a)|..]) && NoArrow(a, text[i + |Print(a)|..])
    ensures Scan(text, i, 0, i, done) == if done == [] && Strip(Print(a)) == "" then [] else done + [Strip(Print(a))]
  {
    hide *;
    EndScannable(text, i, a);
    ScanPieces(text, i, a, 0, i, done);
    StandsInside(text, i, Print(a));
    ScanEnd(text, i + |Print(a)|, i, done);
    FinishStanding(text, i, Print(a), done);
  }

  lemma StandsInside(text: string, i: nat, s: string)
    requires Stands(text, i, s)
    ensures i + |s| <= |text|
  {
  }

  lemma EndScannable(text: string, i: nat, a: seq<Piece>)
    requires AllWellFormed(a, false) && Stands(text, i, Print(a)) && NoArrow(a, text[i + |Print(a)|..])
    ensures Scannable(text, i, a, false)
  {
    hide AllWellFormed, Print;
    var end := i + |Print(a)|;
    assert end < |text| ==> text[end] == text[end..][0];
  }

  lemma ScanEnd(text: string, end: nat, begin: nat, done: seq<string>)
    requires end <= |text| && Ends(text[end..])
    ensures Scan(text, end, 0, begin, done) == Finish(text, begin, end, done)
  {
    hide Finish;
    assert end < |text| ==> text[end] == text[end..][0];
  }

  lemma FinishStanding(text: string, i: nat, s: string, done: seq<string>)
    requires Stands(text, i, s)
    ensures Finish(text, i, i + |s|, done) == if done == [] && Strip(s) == "" then [] else done + [Strip(s)]
  {
    hide Strip;
    SliceStands(text, i, s);
  }

  lemma SliceStands(text: string, i: nat, s: string)
    requires Stands(text, i, s)
    ensures Slice(text, i, i + |s|) == s
  {
  }

  lemma ScanSeparator(text: string, end: nat, begin: nat, done: seq<string>)
    requires Stands(text, end, [','])
    ensures Scan(text, end, 0, begin, done) == Scan(text, end + 1, 0, end + 1, done + [Strip(Slice(text, begin, end))])
  {
    assert text[end..end + 1][0] == text[end];
  }

  lemma CommaFollows(text: string, i: nat, a: seq<Piece>)
    requires AllWellFormed(a, false) && Stands(text, i, Print(a)) && Stands(text, i + |Print(a)|, [','])
    ensures Scannable(text, i, a, false)
  {
    var end := i + |Print(a)|;
    assert text[end..end + 1][0] == text[end];
  }

  lemma ScanComma(text: string, i: nat, a: seq<Piece>, more: string, done: seq<string>)
    requires AllWellFormed(a, false) && Stands(text, i, Print(a) + ([','] + more))
    ensures var end := i + |Print(a)|;
            && Stands(text, end + 1, more)
            && Scan(text, i, 0, i, done) == Scan(text, end + 1, 0, end + 1, done + [Strip(Print(a))])
  {
    hide *;
    var end := i + |Print(a)|;
    StandsSplit(text, i, Print(a), [','] + more);
    StandsSplit(text, end, [','], more);
    CommaFollows(text, i, a);
    ScanPieces(text, i, a, 0, i, done);
    ScanSeparator(text, end, i, done);
    SliceStands(text, i, Print(a));
  }

  lemma {:induction false} ScanArgs(text: string, i: nat, args: seq<seq<Piece>>, done: seq<string>)
    requires args != [] && (forall a <- args :: AllWellFormed(a, false))
    requires Stands(text, i, Join(args)) && Ends(text[i + |Join(args)|..])
    requires NoArrow(args[|args| - 1], text[i + |Join(args)|..])
    ensures Scan(text, i, 0, i, done) ==
            if done == [] && |args| == 1 && Strip(Print(args[0])) == "" then [] else done + Texts(args)
    decreases |args|
  {
    hide *;
    var a, rest := args[0], args[1..];
    assert a in args;
    JoinCons(args);
    if |args| == 1 {
      ScanLast(text, i, a, done);
    } else {
      ScanComma(text, i, a, Join(rest), done);
      ScanArgs(text, i + |Print(a)| + 1, rest, done + [Strip(Print(a))]);
      ConcatAssociative(done, [Strip(Print(a))], Texts(rest));
    }
  }

  lemma JoinCons(args: seq<seq<Piece>>)
    requires args != []
    ensures |args| == 1 ==> Join(args) == Print(args[0]) && Texts(args) == [Strip(Print(args[0]))]
    ensures |args| > 1 ==> Texts(args) == [Strip(Print(args[0]))] + Texts(args[1..])
    ensures |args| > 1 ==> Join(args) == Print(args[0]) + ([','] + Join(args[1..]))
    ensures |args| > 1 ==> |Join(args)| == |Print(args[0])| + 1 + |Join(args[1..])|
  {
    if |args| > 1 {
      assert Print(args[0]) + [','] + Join(args[1..]) == Print(args[0]) + ([','] + Join(args[1..]));
    }
  }

  /**
   * Any list of well-formed arguments, printed with commas and followed by anything that ends it,
   * is split back into exactly those arguments, each stripped; a lone blank argument is no argument.
   */
  lemma PrintedCallSplits(before: string, args: seq<seq<Piece>>, after: string)
    requires args != [] && (forall a <- args :: AllWellFormed(a, false))
    requires Ends(after) && NoArrow(args[|args| - 1], after)
    ensures var text := before + Join(args) + after;
            Scan(text, |before|, 0, |before|, []) ==
            if |args| == 1 && Strip(Print(args[0])) == "" then [] else Texts(args)
  {
    var text := before + Join(args) + after;
    assert text[|before|..|before| + |Join(args)|] == Join(args);
    assert text[|before| + |Join(args)|..] == after;
    ScanArgs(text, |before|, args, []);
  }

  predicate Trimmed(s: string) {
    s != "" && !Blank(s[0]) && !Blank(s[|s| - 1])
  }

  lemma TrimmedStays(s: string)
    requires Trimmed(s)
    ensures Strip(s) == s
  {
    SpaceIff(s[0]);
    SpaceIff(s[|s| - 1]);
  }

  lemma {:induction false} TrimmedTexts(args: seq<seq<Piece>>, k: nat)
    requires k < |args| && Trimmed(Print(args[k]))
    ensures |Texts(args)| == |args| && Texts(args)[k] == Print(args[k])
    decreases k
  {
    TextsLength(args);
    TrimmedStays(Print(args[k]));
    if k > 0 {
      TrimmedTexts(args[1..], k - 1);
    }
  }

  lemma {:induction false} TextsLength(args: seq<seq<Piece>>)
    ensures |Texts(args)| == |args|
  {
    if args != [] {
      TextsLength(args[1..]);
    }
  }

  /** Printing trimmed arguments and splitting them back is the identity. */
  lemma SplitInvertsPrint(before: string, args: seq<seq<Piece>>, after: string)
    requires args != [] && (forall a <- args :: AllWellFormed(a, false) && Trimmed(Print(a)))
    requires Ends(after) && NoArrow(args[|args| - 1], after)
    ensures var r := Scan(before + Join(args) + after, |before|, 0, |before|, []);
            |r| == |args| && forall k | 0 <= k < |args| :: r[k] == Print(args[k])
  {
    PrintedCallSplits(before, args, after);
    forall k | 0 <= k < |args| ensures |Texts(args)| == |args| && Texts(args)[k] == Print(args[k]) {
      assert args[k] in args;
      TrimmedTexts(args, k);
    }
    TextsLength(args);
    assert args[0] in args;
  }

  // ------------------------------------------------------------------ what is never closed

  lemma NotBlank(s: string, c: char)
    requires c in s && !Blank(c)
    ensures Strip(s) != ""
  {
    var i, j := StripIs(s);
    forall k | 0 <= k < i ensures Blank(s[k]) {
      assert s[..i][k] == s[k];
    }
    forall k | j <= k < |s| ensures Blank(s[k]) {
      assert s[j..][k - j] == s[k];
    }
  }

  lemma FinishAtEnd(text: string, begin: nat, i: nat, done: seq<string>)
    requires begin <= |text| <= i
    ensures Slice(text, begin, i) == text[begin..]
    ensures Strip(text[begin..]) != "" ==> Finish(text, begin, i, done) == done + [Strip(text[begin..])]
  {
    assert text[begin..|text|] == text[begin..];
  }

  /** Without its closing bracket an argument goes on to the end of the text, separators and all. */
  lemma UnclosedGroup(text: string, i: nat, a: seq<Piece>, open: char, inner: seq<Piece>, done: seq<string>)
    requires AllWellFormed(a, false) && AllWellFormed(inner, true) && open in OPENING
    requires Stands(text, i, Print(a) + ([open] + Print(inner))) && i + |Print(a)| + 1 + |Print(inner)| == |text|
    ensures Scan(text, i, 0, i, done) == done + [Strip(text[i..])]
  {
    hide Scan, Print, Strip, Slice, Finish, AllWellFormed, Stands, IsOpen, IsClose;
    var at := i + |Print(a)|;
    StandsSplit(text, i, Print(a), [open] + Print(inner));
    StandsSplit(text, at, [open], Print(inner));
    StandsFirst(text, at, open);
    BracketIff(open);
    ScanPieces(text, i, a, 0, i, done);
    ScanOpen(text, at, open, 0, i, done);
    ScanPieces(text, at + 1, inner, 1, i, done);
    ScanPastEnd(text, |text|, 1, i, done);
    FinishAtEnd(text, i, |text|, done);
    assert text[i..][at - i] == open;
    NotBlank(text[i..], open);
  }

  lemma StandsFirst(text: string, i: nat, c: char)
    requires Stands(text, i, [c])
    ensures i < |text| && text[i] == c
  {
    assert text[i..i + 1][0] == text[i];
  }

  lemma ScanQuote(text: string, i: nat, begin: nat, done: seq<string>)
    requires i < |text| && text[i] == '"'
    ensures Scan(text, i, 0, begin, done) == Scan(text, SkipString(text, i + 1) + 1, 0, begin, done)
  {
  }

  lemma ScanPastEnd(text: string, i: nat, depth: nat, begin: nat, done: seq<string>)
    requires i >= |text|
    ensures Scan(text, i, depth, begin, done) == Finish(text, begin, i, done)
  {
  }

  lemma {:induction false} SkipUnclosed(text: string, i: nat, body: seq<StringChar>)
    requires WellFormedString(body) && Stands(text, i, PrintString(body)) && i + |PrintString(body)| == |text|
    ensures SkipString(text, i) == |text|
    decreases |body|
  {
    if body != [] {
      var head := match body[0] case Raw(c) => [c] case Escaped(c) => ['\\', c];
      var tail := PrintString(body[1..]);
      assert PrintString(body) == head + tail;
      StandsSplit(text, i, head, tail);
      assert text[i..i + |head|][0] == text[i];
      assert body[0] in body;
      SkipUnclosed(text, i + |head|, body[1..]);
    }
  }

  /** So does one without its closing quote. */
  lemma UnclosedLiteral(text: string, i: nat, a: seq<Piece>, body: seq<StringChar>, done: seq<string>)
    requires AllWellFormed(a, false) && WellFormedString(body)
    requires Stands(text, i, Print(a) + (['"'] + PrintString(body)))
    requires i + |Print(a)| + 1 + |PrintString(body)| == |text|
    ensures Scan(text, i, 0, i, done) == done + [Strip(text[i..])]
  {
    hide Scan, Print, Strip, Slice, Finish, AllWellFormed, Stands, PrintString, SkipString, WellFormedString;
    var at := i + |Print(a)|;
    StandsSplit(text, i, Print(a), ['"'] + PrintString(body));
    StandsSplit(text, at, ['"'], PrintString(body));
    StandsFirst(text, at, '"');
    ScanPieces(text, i, a, 0, i, done);
    SkipUnclosed(text, at + 1, body);
    ScanQuote(text, at, i, done);
    ScanPastEnd(text, |text| + 1, 0, i, done);
    FinishAtEnd(text, i, |text| + 1, done);
    assert text[i..][at - i] == '"';
    NotBlank(text[i..], '"');
  }
}
