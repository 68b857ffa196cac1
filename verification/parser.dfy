/** Reading a card file (createCard in src/VCParser.c): the file-name rule,
    the physical lines `fgets` returns, and the loop that checks the CR LF
    terminators and the BEGIN/VERSION/END lines, unfolds continuation lines
    and hands every logical line to the field parser.

    `ReadLine`/`ReadLoop` follow the loop statement by statement. The same
    behaviour is also given in two independent phases, `UnfoldFrom` (physical
    lines to logical lines) and `ApplyAll` (logical lines to a card), and
    `ParseLinesIsReference` proves the two descriptions agree. */
module Parser {
  import opened Strings
  import opened CardModel
  import opened Helpers

  const BeginLine := "BEGIN:VCARD\r\n"
  const VersionLine := "VERSION:4.0\r\n"
  const EndLine := "END:VCARD\r\n"

  /** `fileName` is longer than `ext` and ends with it, ignoring case. */
  predicate HasExtension(fileName: string, ext: string)
  {
    |fileName| > |ext| && EqualsIgnoreCase(fileName[|fileName| - |ext|..], ext)
  }

  /** The file-name check shared by reading and writing. */
  function ValidExtension(fileName: string): (r: bool)
    ensures r <==> HasExtension(fileName, ".vcf") || HasExtension(fileName, ".vcard")
  {
    var len := |fileName|;
    !(len <= 4
      || (!EqualsIgnoreCase(fileName[len - 4..], ".vcf")
          && (len <= 6 || !EqualsIgnoreCase(fileName[len - 6..], ".vcard"))))
  }

  /** A non-empty piece with no line feed before its last character. */
  predicate OneLine(piece: string)
  {
    |piece| > 0 && '\n' !in piece[..|piece| - 1]
  }

  /** Every piece is one line, and every piece but the last ends with a
      line feed. */
  predicate LinePieces(r: seq<string>)
  {
    && (forall k :: 0 <= k < |r| ==> OneLine(r[k]))
    && (forall k :: 0 <= k < |r| - 1 ==> EndsWith(r[k], "\n"))
  }

  /** The file content cut after every line feed, as successive `fgets`
      calls return it; only the last piece may lack the line feed. */
  function PhysicalLines(content: string): (r: seq<string>)
    ensures Concat(r) == content
    ensures LinePieces(r)
    decreases |content|
  {
    if |content| == 0 then []
    else
      var i := IndexOf(content, '\n');
      if i == |content| then
        LastPiece(content);
        [content]
      else
        CutAtLineFeed(content, i);
        var piece := content[..i + 1];
        var rest := PhysicalLines(content[i + 1..]);
        ConsPiece(piece, rest);
        [piece] + rest
  }

  lemma LastPiece(content: string)
    requires |content| > 0 && '\n' !in content
    ensures LinePieces([content])
  {
    assert '\n' !in content[..|content| - 1] by {
      assert forall c :: c in content[..|content| - 1] ==> c in content;
    }
  }

  lemma CutAtLineFeed(content: string, i: nat)
    requires i < |content| && i == IndexOf(content, '\n')
    ensures OneLine(content[..i + 1]) && EndsWith(content[..i + 1], "\n")
    ensures content == content[..i + 1] + content[i + 1..]
  {
    var piece := content[..i + 1];
    assert piece[..i] == content[..i];
    assert '\n' !in content[..i] by {
      assert forall k :: 0 <= k < i ==> content[..i][k] == content[k];
    }
    EndsWithLast(piece, '\n');
  }

  lemma ConsPiece(piece: string, rest: seq<string>)
    requires OneLine(piece) && EndsWith(piece, "\n") && LinePieces(rest)
    ensures LinePieces([piece] + rest)
  {
    var r := [piece] + rest;
    assert forall k :: 1 <= k < |r| ==> r[k] == rest[k - 1];
  }

  predicate HasCrLf(line: string)
  {
    |line| >= 2 && line[|line| - 2] == '\r' && line[|line| - 1] == '\n'
  }

  function StripCrLf(line: string): string
    requires |line| >= 2
  {
    line[..|line| - 2]
  }

  /** A line starting with a space or a tab continues the previous one. */
  predicate IsContinuation(l: string)
  {
    |l| > 0 && (l[0] == ' ' || l[0] == '\t')
  }

  /** The loop's variables: the card being built, the logical line being
      unfolded, and the flags (the original's first-line flag is always the
      negation of `begun`). */
  datatype Reader = Reader(card: Card, buffer: string, begun: bool, versionFound: bool, endFound: bool)

  const Start := Reader(EmptyCard, "", false, false, false)

  /** One pass of the loop either stops with the function's result or goes
      on with new loop variables. */
  datatype Step = Stop(result: Result<Reader>) | Next(reader: Reader)

  /** One iteration of the reading loop on one physical line. */
  function ReadLine(line: string, rd: Reader): (s: Step)
    ensures s.Stop? && s.result.Failure? ==> s.result.status == InvCard || s.result.status == InvProp
    ensures s.Stop? && s.result.Success? ==> s.result.value == rd.(endFound := true) && rd.begun
    ensures s.Next? ==> s.reader.begun && !s.reader.endFound == !rd.endFound
    ensures s.Next? && ParsedShape(rd.card) ==> ParsedShape(s.reader.card)
    ensures !HasCrLf(line) ==> s == Stop(Failure(InvCard))
  {
    if !HasCrLf(line) then Stop(Failure(InvCard))
    else
      var l := StripCrLf(line);
      if !rd.begun then
        if l != "BEGIN:VCARD" then Stop(Failure(InvCard))
        else Next(rd.(begun := true))
      else if !rd.versionFound && l == "VERSION:4.0" then Next(rd.(versionFound := true))
      else if l == "END:VCARD" then Stop(Success(rd.(endFound := true)))
      else if IsContinuation(l) then Next(rd.(buffer := rd.buffer + l[1..]))
      else if |rd.buffer| > 0 then
        match CreateCardHelper(rd.buffer, rd.card)
        case Failure(e) => Stop(Failure(e))
        case Success(c) => Next(rd.(card := c, buffer := l))
      else Next(rd.(buffer := l))
  }

  /** The reading loop: runs until the lines run out or an iteration stops. */
  function ReadLoop(lines: seq<string>, rd: Reader): (r: Result<Reader>)
    ensures r.Failure? ==> r.status == InvCard || r.status == InvProp
    ensures r.Success? && ParsedShape(rd.card) ==> ParsedShape(r.value.card)
    decreases |lines|
  {
    if |lines| == 0 then Success(rd)
    else
      match ReadLine(lines[0], rd)
      case Stop(r) => r
      case Next(next) => ReadLoop(lines[1..], next)
  }

  /** After the loop: the last logical line is flushed, then the four
      markers are checked. */
  function Finish(rd: Reader): (r: Result<Card>)
    ensures r.Failure? ==> r.status == InvCard || r.status == InvProp
    ensures r.Success? && ParsedShape(rd.card) ==> ParsedShape(r.value) && r.value.fn.Some?
  {
    var flushed := if |rd.buffer| > 0 then CreateCardHelper(rd.buffer, rd.card) else Success(rd.card);
    match flushed
    case Failure(e) => Failure(e)
    case Success(c) =>
      if !rd.begun || !rd.versionFound || !rd.endFound || c.fn.None? then Failure(InvCard)
      else Success(c)
  }

  /** createCard on the physical lines of an opened file. */
  function ParseLines(lines: seq<string>): (r: Result<Card>)
    ensures r.Failure? ==> r.status == InvCard || r.status == InvProp
    ensures r.Success? ==> ParsedShape(r.value) && r.value.fn.Some?
  {
    match ReadLoop(lines, Start)
    case Failure(e) => Failure(e)
    case Success(rd) => Finish(rd)
  }

  /** createCard: a missing or badly named file, or one that cannot be
      opened (`content` is `None`), is INV_FILE before anything is read. */
  function CreateCard(fileName: Option<string>, content: Option<string>): (r: Result<Card>)
    ensures fileName.None? || content.None? ==> r == Failure(InvFile)
    ensures fileName.Some? && !ValidExtension(fileName.value) ==> r == Failure(InvFile)
    ensures r.Failure? ==> r.status in {InvFile, InvCard, InvProp}
    ensures r.Success? ==> ParsedShape(r.value) && r.value.fn.Some?
  {
    if fileName.None? then Failure(InvFile)
    else if !ValidExtension(fileName.value) then Failure(InvFile)
    else if content.None? then Failure(InvFile)
    else ParseLines(PhysicalLines(content.value))
  }

  // ---------------------------------------------------------------------
  // The reference description: unfold first, then apply the field parser.

  /** What unfolding yields: the logical lines flushed so far, whether the
      input was rejected (bad terminator or missing BEGIN line), and the
      state left when it stopped. */
  datatype Unfolding = Unfolding(
    logical: seq<string>, broken: bool, buffer: string,
    begun: bool, versionFound: bool, endFound: bool)

  function Flush(buffer: string): seq<string>
  {
    if |buffer| > 0 then [buffer] else []
  }

  /** Physical lines to logical lines, with no field parsing at all. */
  function UnfoldFrom(lines: seq<string>, buffer: string, begun: bool, versionFound: bool): (u: Unfolding)
    ensures forall k :: 0 <= k < |u.logical| ==> |u.logical[k]| > 0
    decreases |lines|
  {
    if |lines| == 0 then Unfolding([], false, buffer, begun, versionFound, false)
    else if !HasCrLf(lines[0]) then Unfolding([], true, buffer, begun, versionFound, false)
    else
      var l := StripCrLf(lines[0]);
      if !begun then
        if l != "BEGIN:VCARD" then Unfolding([], true, buffer, begun, versionFound, false)
        else UnfoldFrom(lines[1..], buffer, true, versionFound)
      else if !versionFound && l == "VERSION:4.0" then UnfoldFrom(lines[1..], buffer, begun, true)
      else if l == "END:VCARD" then Unfolding([], false, buffer, begun, versionFound, true)
      else if IsContinuation(l) then UnfoldFrom(lines[1..], buffer + l[1..], begun, versionFound)
      else
        var u := UnfoldFrom(lines[1..], l, begun, versionFound);
        var logical := Flush(buffer) + u.logical;
        assert forall k :: |Flush(buffer)| <= k < |logical| ==> logical[k] == u.logical[k - |Flush(buffer)|];
        u.(logical := logical)
  }

  /** Every logical line the field parser sees, in order: the last one is
      flushed too unless the input was rejected first. */
  function LogicalLines(lines: seq<string>): seq<string>
  {
    var u := UnfoldFrom(lines, "", false, false);
    u.logical + (if u.broken then [] else Flush(u.buffer))
  }

  /** The field parser applied to logical lines in order; the first error
      wins. */
  function ApplyAll(logical: seq<string>, card: Card): (r: Result<Card>)
    ensures r.Failure? ==> r.status == InvCard || r.status == InvProp
    ensures r.Success? && ParsedShape(card) ==> ParsedShape(r.value)
    decreases |logical|
  {
    if |logical| == 0 then Success(card)
    else
      match CreateCardHelper(logical[0], card)
      case Failure(e) => Failure(e)
      case Success(c) => ApplyAll(logical[1..], c)
  }

  /** The reference parse: a field error comes first, then a structural
      error (bad terminator, no BEGIN, VERSION, END or FN line) is INV_CARD. */
  function ReferenceParse(lines: seq<string>): Result<Card>
  {
    var u := UnfoldFrom(lines, "", false, false);
    match ApplyAll(LogicalLines(lines), EmptyCard)
    case Failure(e) => Failure(e)
    case Success(c) =>
      if u.broken || !u.begun || !u.versionFound || !u.endFound || c.fn.None? then Failure(InvCard)
      else Success(c)
  }

  /** The loop's result for a given unfolding and starting card. */
  function Assemble(u: Unfolding, card: Card): Result<Reader>
  {
    match ApplyAll(u.logical, card)
    case Failure(e) => Failure(e)
    case Success(c) =>
      if u.broken then Failure(InvCard)
      else Success(Reader(c, u.buffer, u.begun, u.versionFound, u.endFound))
  }

  lemma {:induction false} ApplyAllAppend(a: seq<string>, b: seq<string>, card: Card)
    ensures ApplyAll(a + b, card) ==
      match ApplyAll(a, card)
      case Failure(e) => Failure(e)
      case Success(c) => ApplyAll(b, c)
    decreases |a|
  {
    if |a| == 0 {
      assert a + b == b;
    } else {
      assert (a + b)[0] == a[0];
      assert (a + b)[1..] == a[1..] + b;
      match CreateCardHelper(a[0], card)
      case Failure(e) =>
      case Success(c) => ApplyAllAppend(a[1..], b, c);
    }
  }

  lemma StripCrLfInverse(line: string)
    requires HasCrLf(line)
    ensures line == StripCrLf(line) + "\r\n"
  {
  }

  /** The loop, started in any state without END seen, does what unfolding
      followed by field parsing does. */
  lemma {:induction false} ReadLoopIsUnfoldThenApply(lines: seq<string>, rd: Reader)
    requires !rd.endFound
    ensures ReadLoop(lines, rd) == Assemble(UnfoldFrom(lines, rd.buffer, rd.begun, rd.versionFound), rd.card)
    decreases |lines|, 1
  {
    if |lines| > 0 && HasCrLf(lines[0]) {
      var l := StripCrLf(lines[0]);
      if !rd.begun {
        if l == "BEGIN:VCARD" {
          ReadLoopIsUnfoldThenApply(lines[1..], rd.(begun := true));
        }
      } else if !rd.versionFound && l == "VERSION:4.0" {
        ReadLoopIsUnfoldThenApply(lines[1..], rd.(versionFound := true));
      } else if l == "END:VCARD" {
      } else if IsContinuation(l) {
        ReadLoopIsUnfoldThenApply(lines[1..], rd.(buffer := rd.buffer + l[1..]));
      } else {
        ReadLoopNewLogicalLine(lines, rd);
      }
    }
  }

  /** The case of a physical line that starts a new logical line. */
  lemma {:induction false} ReadLoopNewLogicalLine(lines: seq<string>, rd: Reader)
    requires !rd.endFound && rd.begun && |lines| > 0 && HasCrLf(lines[0])
    requires var l := StripCrLf(lines[0]);
      && !(!rd.versionFound && l == "VERSION:4.0") && l != "END:VCARD" && !IsContinuation(l)
    ensures ReadLoop(lines, rd) == Assemble(UnfoldFrom(lines, rd.buffer, rd.begun, rd.versionFound), rd.card)
    decreases |lines|, 0
  {
    var l := StripCrLf(lines[0]);
    var u := UnfoldFrom(lines[1..], l, rd.begun, rd.versionFound);
    if |rd.buffer| > 0 {
      assert ([rd.buffer] + u.logical)[0] == rd.buffer;
      assert ([rd.buffer] + u.logical)[1..] == u.logical;
      match CreateCardHelper(rd.buffer, rd.card)
      case Failure(e) =>
      case Success(c) => ReadLoopIsUnfoldThenApply(lines[1..], rd.(card := c, buffer := l));
    } else {
      assert [] + u.logical == u.logical;
      ReadLoopIsUnfoldThenApply(lines[1..], rd.(buffer := l));
    }
  }

  /** The loop model and the two-phase reference agree on every input. */
  lemma ParseLinesIsReference(lines: seq<string>)
    ensures ParseLines(lines) == ReferenceParse(lines)
  {
    var u := UnfoldFrom(lines, "", false, false);
    ReadLoopIsUnfoldThenApply(lines, Start);
    ApplyAllAppend(u.logical, if u.broken then [] else Flush(u.buffer), EmptyCard);
    match ApplyAll(u.logical, EmptyCard)
    case Failure(e) =>
    case Success(c) =>
      if !u.broken && |u.buffer| > 0 {
        assert [u.buffer][1..] == [];
        match CreateCardHelper(u.buffer, c)
        case Failure(e) =>
        case Success(c') =>
      }
  }

  /** A field-parser error on any logical line read is the result, taking
      precedence over every structural check still to come. */
  lemma FieldErrorTakesPrecedence(lines: seq<string>)
    requires ApplyAll(LogicalLines(lines), EmptyCard).Failure?
    ensures ParseLines(lines) == ApplyAll(LogicalLines(lines), EmptyCard)
  {
    ParseLinesIsReference(lines);
  }

  /** When every logical line is accepted by the field parser, any failure
      is INV_CARD. */
  lemma StructuralFailureIsInvCard(lines: seq<string>)
    requires ApplyAll(LogicalLines(lines), EmptyCard).Success?
    requires ParseLines(lines).Failure?
    ensures ParseLines(lines).status == InvCard
  {
    ParseLinesIsReference(lines);
  }

  // ---------------------------------------------------------------------
  // Structural rules of the loop.

  /** An empty file, or a first line that is not exactly `BEGIN:VCARD` CR LF,
      is INV_CARD before any field is parsed. */
  lemma BadFirstLineRejected(lines: seq<string>)
    requires |lines| == 0 || lines[0] != BeginLine
    ensures ParseLines(lines) == Failure(InvCard)
  {
    if |lines| > 0 && HasCrLf(lines[0]) {
      StripCrLfInverse(lines[0]);
      assert StripCrLf(lines[0]) != "BEGIN:VCARD";
    }
  }

  /** `e` is the first END line after the first line, and every line before
      it is properly terminated. */
  ghost predicate EndsAt(lines: seq<string>, e: int)
  {
    && 0 <= e < |lines|
    && lines[e] == EndLine
    && forall k :: 0 <= k < e ==> HasCrLf(lines[k]) && lines[k] != EndLine
  }

  ghost predicate VersionBefore(lines: seq<string>, e: int)
  {
    exists v :: 0 <= v < e && v < |lines| && lines[v] == VersionLine
  }

  lemma EndsAtShift(lines: seq<string>, e: int)
    requires |lines| > 0 && HasCrLf(lines[0]) && lines[0] != EndLine
    requires EndsAt(lines[1..], e)
    ensures EndsAt(lines, e + 1)
  {
    forall k | 0 <= k < e + 1
      ensures HasCrLf(lines[k]) && lines[k] != EndLine
    {
      if k > 0 {
        assert lines[k] == lines[1..][k - 1];
      }
    }
  }

  lemma VersionShift(lines: seq<string>, e: int)
    requires |lines| > 0
    requires VersionBefore(lines[1..], e) || lines[0] == VersionLine
    requires e >= 0
    ensures VersionBefore(lines, e + 1)
  {
    if lines[0] != VersionLine {
      var v :| 0 <= v < e && v < |lines[1..]| && lines[1..][v] == VersionLine;
      assert lines[v + 1] == VersionLine;
    }
  }

  /** Unfolding a field line (or a continuation) changes none of the flags
      the rest of the input determines. */
  lemma UnfoldFieldLine(lines: seq<string>, buffer: string, versionFound: bool)
    requires |lines| > 0 && HasCrLf(lines[0])
    requires var l := StripCrLf(lines[0]); !(!versionFound && l == "VERSION:4.0") && l != "END:VCARD"
    ensures var l := StripCrLf(lines[0]);
      var u := UnfoldFrom(lines, buffer, true, versionFound);
      var inner := UnfoldFrom(lines[1..], if IsContinuation(l) then buffer + l[1..] else l, true, versionFound);
      u.broken == inner.broken && u.endFound == inner.endFound
        && u.begun == inner.begun && u.versionFound == inner.versionFound
  {
  }

  lemma NotEndLine(line: string)
    requires HasCrLf(line) && StripCrLf(line) != "END:VCARD"
    ensures line != EndLine
  {
    assert StripCrLf(EndLine) == "END:VCARD";
  }

  /** Where an unfolding that saw END stopped: the END line's index. */
  lemma {:induction false} UnfoldEnds(lines: seq<string>, buffer: string, versionFound: bool) returns (e: int)
    ensures var u := UnfoldFrom(lines, buffer, true, versionFound);
      !u.broken && u.endFound ==>
        u.begun && EndsAt(lines, e) && (u.versionFound && !versionFound ==> VersionBefore(lines, e))
    decreases |lines|, 1
  {
    e := 0;
    var u := UnfoldFrom(lines, buffer, true, versionFound);
    if |lines| > 0 && HasCrLf(lines[0]) && !u.broken && u.endFound {
      var l := StripCrLf(lines[0]);
      if !versionFound && l == "VERSION:4.0" {
        StripCrLfInverse(lines[0]);
        var e' := UnfoldEnds(lines[1..], buffer, true);
        EndsAtShift(lines, e');
        VersionShift(lines, e');
        e := e' + 1;
      } else if l == "END:VCARD" {
        StripCrLfInverse(lines[0]);
      } else {
        e := UnfoldEndsAfterField(lines, buffer, versionFound);
      }
    }
  }

  lemma {:induction false} UnfoldEndsAfterField(lines: seq<string>, buffer: string, versionFound: bool) returns (e: int)
    requires |lines| > 0 && HasCrLf(lines[0])
    requires var l := StripCrLf(lines[0]); !(!versionFound && l == "VERSION:4.0") && l != "END:VCARD"
    ensures var u := UnfoldFrom(lines, buffer, true, versionFound);
      !u.broken && u.endFound ==>
        u.begun && EndsAt(lines, e) && (u.versionFound && !versionFound ==> VersionBefore(lines, e))
    decreases |lines|, 0
  {
    var l := StripCrLf(lines[0]);
    NotEndLine(lines[0]);
    var next := if IsContinuation(l) then buffer + l[1..] else l;
    UnfoldFieldLine(lines, buffer, versionFound);
    var e' := UnfoldEnds(lines[1..], next, versionFound);
    e := e' + 1;
    var u := UnfoldFrom(lines, buffer, true, versionFound);
    if !u.broken && u.endFound {
      EndsAtShift(lines, e');
      if u.versionFound && !versionFound {
        VersionShift(lines, e');
      }
    }
  }

  /** A card is accepted only if the file starts with `BEGIN:VCARD`, then
      has an `END:VCARD` line with every earlier line CR LF terminated, a
      `VERSION:4.0` line before that END line, and an FN line. Missing any
      of them fails the parse. */
  lemma AcceptedCardStructure(lines: seq<string>)
    requires ParseLines(lines).Success?
    ensures |lines| > 0 && lines[0] == BeginLine
    ensures exists e :: EndsAt(lines[1..], e) && VersionBefore(lines[1..], e)
    ensures ParseLines(lines).value.fn.Some?
  {
    ParseLinesIsReference(lines);
    if |lines| == 0 || lines[0] != BeginLine {
      BadFirstLineRejected(lines);
    } else {
      assert HasCrLf(lines[0]) && StripCrLf(lines[0]) == "BEGIN:VCARD";
      var e := UnfoldEnds(lines[1..], "", false);
      assert EndsAt(lines[1..], e) && VersionBefore(lines[1..], e);
    }
  }

  lemma {:induction false} UnfoldBroken(lines: seq<string>, j: int, buffer: string, begun: bool, versionFound: bool)
    requires 0 <= j < |lines| && !HasCrLf(lines[j])
    requires forall k :: (if begun then 0 else 1) <= k < j ==> lines[k] != EndLine
    ensures UnfoldFrom(lines, buffer, begun, versionFound).broken
    decreases |lines|
  {
    if j > 0 && HasCrLf(lines[0]) {
      var l := StripCrLf(lines[0]);
      StripCrLfInverse(lines[0]);
      assert forall k :: 0 <= k < j - 1 ==> lines[1..][k] == lines[k + 1];
      if !begun {
        if l == "BEGIN:VCARD" {
          UnfoldBroken(lines[1..], j - 1, buffer, true, versionFound);
          assert UnfoldFrom(lines, buffer, begun, versionFound) == UnfoldFrom(lines[1..], buffer, true, versionFound);
        }
      } else if !versionFound && l == "VERSION:4.0" {
        UnfoldBroken(lines[1..], j - 1, buffer, begun, true);
        assert UnfoldFrom(lines, buffer, begun, versionFound) == UnfoldFrom(lines[1..], buffer, begun, true);
      } else {
        assert lines[0] != EndLine;
        assert l != "END:VCARD";
        var next := if IsContinuation(l) then buffer + l[1..] else l;
        UnfoldBroken(lines[1..], j - 1, next, begun, versionFound);
        assert UnfoldFrom(lines, buffer, begun, versionFound).broken == UnfoldFrom(lines[1..], next, begun, versionFound).broken;
      }
    }
  }

  /** A physical line without the CR LF terminator that is read (no END
      line comes before it) rejects the file: with INV_CARD, unless an
      earlier logical line was already rejected by the field parser. */
  lemma BadTerminatorRejected(lines: seq<string>, j: int)
    requires 0 <= j < |lines| && !HasCrLf(lines[j])
    requires forall k :: 1 <= k < j ==> lines[k] != EndLine
    ensures ParseLines(lines).Failure?
    ensures ApplyAll(LogicalLines(lines), EmptyCard).Success? ==> ParseLines(lines) == Failure(InvCard)
  {
    UnfoldBroken(lines, j, "", false, false);
    ParseLinesIsReference(lines);
  }

  /** Runs the loop over some lines and reports whether it stopped. */
  function ReadFrom(lines: seq<string>, rd: Reader): Step
    decreases |lines|
  {
    if |lines| == 0 then Next(rd)
    else
      match ReadLine(lines[0], rd)
      case Stop(r) => Stop(r)
      case Next(next) => ReadFrom(lines[1..], next)
  }

  /** The loop over `a + b` is the loop over `a`, then over `b` if it did
      not stop. */
  lemma {:induction false} ReadLoopAppend(a: seq<string>, b: seq<string>, rd: Reader)
    ensures ReadLoop(a + b, rd) ==
      match ReadFrom(a, rd)
      case Stop(r) => r
      case Next(next) => ReadLoop(b, next)
    ensures |a| > 0 && ReadFrom(a, rd).Next? ==> ReadFrom(a, rd).reader.begun
    decreases |a|
  {
    if |a| == 0 {
      assert a + b == b;
    } else {
      assert (a + b)[0] == a[0];
      assert (a + b)[1..] == a[1..] + b;
      match ReadLine(a[0], rd)
      case Stop(r) =>
      case Next(next) => ReadLoopAppend(a[1..], b, next);
    }
  }

  /** Reading stops at the first `END:VCARD` line after the first line:
      whatever follows it is never read. */
  lemma LinesAfterEndIgnored(lines: seq<string>, e: int, rest: seq<string>)
    requires 1 <= e < |lines| && lines[e] == EndLine
    requires forall k :: 1 <= k < e ==> lines[k] != EndLine
    ensures ParseLines(lines[..e + 1] + rest) == ParseLines(lines[..e + 1])
  {
    var p := lines[..e + 1];
    ReadLoopAppend(p, rest, Start);
    ReadLoopAppend(p, [], Start);
    assert p + [] == p;
    StopsAtEnd(p, Start);
  }

  lemma {:induction false} StopsAtEnd(p: seq<string>, rd: Reader)
    requires |p| >= 1 && p[|p| - 1] == EndLine && !rd.endFound
    requires !rd.begun ==> |p| >= 2
    requires forall k :: (if rd.begun then 0 else 1) <= k < |p| - 1 ==> p[k] != EndLine
    ensures ReadFrom(p, rd).Stop?
    decreases |p|
  {
    if HasCrLf(p[0]) {
      var l := StripCrLf(p[0]);
      StripCrLfInverse(p[0]);
      match ReadLine(p[0], rd)
      case Stop(r) =>
      case Next(next) =>
        if |p| > 1 {
          StopsAtEnd(p[1..], next);
        }
    }
  }

  // ---------------------------------------------------------------------
  // Folding.

  /** The text continuation lines add: each without its first character. */
  function ContinuationText(conts: seq<string>): string
    requires forall k :: 0 <= k < |conts| ==> IsContinuation(conts[k])
  {
    if |conts| == 0 then ""
    else
      var last := conts[|conts| - 1];
      assert IsContinuation(last);
      ContinuationText(conts[..|conts| - 1]) + last[1..]
  }

  function CrLfLines(ls: seq<string>): (r: seq<string>)
    ensures |r| == |ls|
    ensures forall k :: 0 <= k < |ls| ==> r[k] == ls[k] + "\r\n"
  {
    seq(|ls|, k requires 0 <= k < |ls| => ls[k] + "\r\n")
  }

  /** A continuation line only extends the logical line. */
  lemma ContinuationStep(c: char, b: string, rd: Reader)
    requires rd.begun && (c == ' ' || c == '\t')
    ensures ReadLine([c] + b + "\r\n", rd) == Next(rd.(buffer := rd.buffer + b))
  {
    var l := StripCrLf([c] + b + "\r\n");
    assert l == [c] + b;
    assert l[0] == c;
    assert l[1..] == b;
    assert l != "VERSION:4.0" && l != "END:VCARD";
  }

  /** Reading a longer line does what reading its start does, with the
      extra text at the end of the logical line. */
  lemma ExtendedStep(a: string, b: string, rd: Reader)
    requires rd.begun && (|a| > 0 || !IsContinuation(a + b))
    requires a + b != "END:VCARD" && a != "END:VCARD"
    requires !rd.versionFound ==> a + b != "VERSION:4.0" && a != "VERSION:4.0"
    ensures match ReadLine(a + "\r\n", rd)
      case Stop(r) => ReadLine(a + b + "\r\n", rd) == Stop(r)
      case Next(r1) => ReadLine(a + b + "\r\n", rd) == Next(r1.(buffer := r1.buffer + b))
  {
    AddCrLf(a);
    AddCrLf(a + b);
    if |a| > 0 {
      ExtendedLine(a, b);
    } else {
      assert a + b == b;
    }
  }

  lemma AddCrLf(x: string)
    ensures HasCrLf(x + "\r\n") && StripCrLf(x + "\r\n") == x
  {
  }

  lemma ExtendedLine(a: string, b: string)
    requires |a| > 0
    ensures IsContinuation(a + b) == IsContinuation(a)
    ensures (a + b)[1..] == a[1..] + b
  {
    assert (a + b)[0] == a[0];
  }

  /** Cutting one line in two, the second half behind a space or tab,
      changes nothing. */
  lemma FoldOnce(a: string, b: string, c: char, post: seq<string>, rd: Reader)
    requires rd.begun && |a| > 0 && (c == ' ' || c == '\t')
    requires a + b != "END:VCARD" && a != "END:VCARD"
    requires !rd.versionFound ==> a + b != "VERSION:4.0" && a != "VERSION:4.0"
    ensures ReadLoop([a + b + "\r\n"] + post, rd) == ReadLoop([a + "\r\n", [c] + b + "\r\n"] + post, rd)
  {
    var one := [a + b + "\r\n"] + post;
    var two := [a + "\r\n", [c] + b + "\r\n"] + post;
    assert one[0] == a + b + "\r\n" && one[1..] == post;
    assert two[0] == a + "\r\n" && two[1..] == [[c] + b + "\r\n"] + post;
    ExtendedStep(a, b, rd);
    match ReadLine(a + "\r\n", rd)
    case Stop(r) =>
    case Next(r1) =>
      ContinuationStep(c, b, r1);
      var tail := [[c] + b + "\r\n"] + post;
      assert tail[0] == [c] + b + "\r\n" && tail[1..] == post;
      assert ReadLoop(tail, r1) == ReadLoop(post, r1.(buffer := r1.buffer + b));
  }

  lemma {:induction false} ContinuationTextCons(conts: seq<string>)
    requires |conts| > 0 && forall k :: 0 <= k < |conts| ==> IsContinuation(conts[k])
    ensures ContinuationText(conts) == conts[0][1..] + ContinuationText(conts[1..])
    decreases |conts|
  {
    var init := conts[..|conts| - 1];
    var last := conts[|conts| - 1];
    if |conts| > 1 {
      ContinuationTextCons(init);
      assert conts[1..][..|conts| - 2] == init[1..];
      assert conts[1..][|conts| - 2] == last;
      AppendAssoc(conts[0][1..], ContinuationText(init[1..]), last[1..]);
    }
  }

  lemma CrLfLinesCons(ls: seq<string>)
    requires |ls| > 0
    ensures CrLfLines(ls) == [ls[0] + "\r\n"] + CrLfLines(ls[1..])
  {
    var x := CrLfLines(ls);
    var y := [ls[0] + "\r\n"] + CrLfLines(ls[1..]);
    forall k | 0 <= k < |ls|
      ensures x[k] == y[k]
    {
      if k > 0 {
        assert y[k] == CrLfLines(ls[1..])[k - 1] == ls[1..][k - 1] + "\r\n";
      }
    }
    assert |x| == |y|;
  }

  /** Continuation lines only extend the logical line being read. */
  lemma {:induction false} ContinuationsExtend(conts: seq<string>, post: seq<string>, rd: Reader)
    requires rd.begun && forall k :: 0 <= k < |conts| ==> IsContinuation(conts[k])
    ensures ReadLoop(CrLfLines(conts) + post, rd)
         == ReadLoop(post, rd.(buffer := rd.buffer + ContinuationText(conts)))
    decreases |conts|
  {
    if |conts| == 0 {
      assert CrLfLines(conts) + post == post;
      assert rd.buffer + ContinuationText(conts) == rd.buffer;
    } else {
      var l := conts[0];
      var rest := conts[1..];
      assert IsContinuation(l);
      CrLfLinesCons(conts);
      var lines := CrLfLines(conts) + post;
      assert lines[0] == [l[0]] + l[1..] + "\r\n" by { assert l == [l[0]] + l[1..]; }
      assert lines[1..] == CrLfLines(rest) + post;
      ContinuationStep(l[0], l[1..], rd);
      var rd1 := rd.(buffer := rd.buffer + l[1..]);
      ContinuationsExtend(rest, post, rd1);
      ContinuationTextCons(conts);
      AppendAssoc(rd.buffer, l[1..], ContinuationText(rest));
      assert rd1.(buffer := rd1.buffer + ContinuationText(rest))
          == rd.(buffer := rd.buffer + ContinuationText(conts));
    }
  }

  /** A logical line folded over any number of continuation lines reads
      exactly like the unfolded line, unless its first piece or the whole
      line is one of the two lines the loop compares before unfolding:
      `VERSION:4.0` and `END:VCARD`. */
  lemma FoldingInvariance(first: string, conts: seq<string>, post: seq<string>, rd: Reader)
    requires forall k :: 0 <= k < |conts| ==> IsContinuation(conts[k])
    requires rd.begun && (|first| > 0 || !IsContinuation(first + ContinuationText(conts)))
    requires first != "END:VCARD" && first + ContinuationText(conts) != "END:VCARD"
    requires !rd.versionFound ==> first != "VERSION:4.0" && first + ContinuationText(conts) != "VERSION:4.0"
    ensures ReadLoop([first + ContinuationText(conts) + "\r\n"] + post, rd)
         == ReadLoop(CrLfLines([first] + conts) + post, rd)
  {
    var b := ContinuationText(conts);
    var folded := CrLfLines([first] + conts) + post;
    CrLfLinesCons([first] + conts);
    assert ([first] + conts)[1..] == conts;
    assert folded[0] == first + "\r\n" && folded[1..] == CrLfLines(conts) + post;
    var unfolded := [first + b + "\r\n"] + post;
    assert unfolded[0] == first + b + "\r\n" && unfolded[1..] == post;
    ExtendedStep(first, b, rd);
    match ReadLine(first + "\r\n", rd)
    case Stop(r) =>
    case Next(r1) =>
      ContinuationsExtend(conts, post, r1);
  }

  lemma FoldingAfter(pre: seq<string>, first: string, conts: seq<string>, post: seq<string>)
    requires forall k :: 0 <= k < |conts| ==> IsContinuation(conts[k])
    requires |pre| >= 1 && (|first| > 0 || !IsContinuation(first + ContinuationText(conts)))
    requires first != "VERSION:4.0" && first != "END:VCARD"
    requires first + ContinuationText(conts) != "VERSION:4.0" && first + ContinuationText(conts) != "END:VCARD"
    ensures ReadLoop(pre + ([first + ContinuationText(conts) + "\r\n"] + post), Start)
         == ReadLoop(pre + (CrLfLines([first] + conts) + post), Start)
  {
    ReadLoopAppend(pre, [first + ContinuationText(conts) + "\r\n"] + post, Start);
    ReadLoopAppend(pre, CrLfLines([first] + conts) + post, Start);
    match ReadFrom(pre, Start)
    case Stop(r) =>
    case Next(rd) => FoldingInvariance(first, conts, post, rd);
  }

  /** Folding applies anywhere after the first line of a file, with the
      same exception for the two marker lines. */
  lemma FoldingAnywhere(pre: seq<string>, first: string, conts: seq<string>, post: seq<string>)
    requires forall k :: 0 <= k < |conts| ==> IsContinuation(conts[k])
    requires |pre| >= 1 && (|first| > 0 || !IsContinuation(first + ContinuationText(conts)))
    requires first != "VERSION:4.0" && first != "END:VCARD"
    requires first + ContinuationText(conts) != "VERSION:4.0" && first + ContinuationText(conts) != "END:VCARD"
    ensures ParseLines(pre + ([first + ContinuationText(conts) + "\r\n"] + post))
         == ParseLines(pre + (CrLfLines([first] + conts) + post))
  {
    FoldingAfter(pre, first, conts, post);
  }

  /** The exception is real: `END:VCARD` folded as `END:VCA` and ` RD` is
      not seen as the end line, so a card that parses unfolded is rejected
      folded. */
  /** The three lines that every example below starts with leave the
      reader begun, with the version seen and `FN:x` waiting in the buffer. */
  lemma HeadLinesRead()
    ensures ReadFrom(["BEGIN:VCARD\r\n", "VERSION:4.0\r\n", "FN:x\r\n"], Start)
         == Next(Reader(EmptyCard, "FN:x", true, true, false))
  {
    var lines := ["BEGIN:VCARD\r\n", "VERSION:4.0\r\n", "FN:x\r\n"];
    AddCrLf("BEGIN:VCARD");
    AddCrLf("VERSION:4.0");
    AddCrLf("FN:x");
    assert lines[0] == "BEGIN:VCARD" + "\r\n";
    assert lines[1] == "VERSION:4.0" + "\r\n";
    assert lines[2] == "FN:x" + "\r\n";
    var r1 := Start.(begun := true);
    var r2 := r1.(versionFound := true);
    assert ReadLine(lines[0], Start) == Next(r1);
    assert ReadLine(lines[1], r2.(versionFound := false)) == Next(r2);
    assert ReadLine(lines[2], r2) == Next(r2.(buffer := "FN:x"));
    assert lines[1..][1..] == [lines[2]];
    assert lines[1..][1..][1..] == [];
  }

  /** The unfolded end line ends the loop, and the card with its full name
      is accepted. */
  lemma EndLineSeen()
    ensures ParseLines(["BEGIN:VCARD\r\n", "VERSION:4.0\r\n", "FN:x\r\n"] + ["END:VCARD\r\n"]).Success?
  {
    var r3 := Reader(EmptyCard, "FN:x", true, true, false);
    HeadLinesRead();
    ReadLoopAppend(["BEGIN:VCARD\r\n", "VERSION:4.0\r\n", "FN:x\r\n"], ["END:VCARD\r\n"], Start);
    AddCrLf("END:VCARD");
    assert "END:VCARD\r\n" == "END:VCARD" + "\r\n";
    assert ReadLine("END:VCARD\r\n", r3) == Stop(Success(r3.(endFound := true)));
    assert StartsWith("FN:x", "FN:");
    assert CreateCardHelper("FN:x", EmptyCard).Success?;
  }

  /** The card holding only the full name `x`. */
  const NamedX := EmptyCard.(fn := Some(FnProperty("x")))

  /** Folded as `END:VCA` and ` RD`, the end line is only collected in the
      buffer as a logical line. */
  lemma FoldedEndLineBuffered()
    ensures ReadLoop(["END:VCA\r\n", " RD\r\n"], Reader(EmptyCard, "FN:x", true, true, false))
         == Success(Reader(NamedX, "END:VCARD", true, true, false))
  {
    var r3 := Reader(EmptyCard, "FN:x", true, true, false);
    var lines := ["END:VCA\r\n", " RD\r\n"];
    AddCrLf("END:VCA");
    AddCrLf(" RD");
    assert lines[0] == "END:VCA" + "\r\n";
    assert lines[1] == " RD" + "\r\n";
    assert StartsWith("FN:x", "FN:");
    assert CreateCardHelper("FN:x", EmptyCard) == Success(NamedX);
    var r4 := Reader(NamedX, "END:VCA", true, true, false);
    assert ReadLine(lines[0], r3) == Next(r4);
    assert IsContinuation(" RD");
    assert "END:VCA" + " RD"[1..] == "END:VCARD";
    assert ReadLine(lines[1], r4) == Next(Reader(NamedX, "END:VCARD", true, true, false));
    assert lines[1..] == [lines[1]];
    assert lines[1..][1..] == [];
  }

  /** Flushing `END:VCARD` as a logical line changes nothing, and the end
      marker was never seen. */
  lemma FoldedEndLineMissed()
    ensures ParseLines(["BEGIN:VCARD\r\n", "VERSION:4.0\r\n", "FN:x\r\n"] + ["END:VCA\r\n", " RD\r\n"]) == Failure(InvCard)
  {
    HeadLinesRead();
    ReadLoopAppend(["BEGIN:VCARD\r\n", "VERSION:4.0\r\n", "FN:x\r\n"], ["END:VCA\r\n", " RD\r\n"], Start);
    FoldedEndLineBuffered();
    var r5 := Reader(NamedX, "END:VCARD", true, true, false);
    assert ReadLoop(["BEGIN:VCARD\r\n", "VERSION:4.0\r\n", "FN:x\r\n"] + ["END:VCA\r\n", " RD\r\n"], Start) == Success(r5);
    EndMarkerAsLogicalLine();
    assert Finish(r5) == Failure(InvCard);
  }

  /** A logical line reading `END:VCARD` is a header line and leaves the
      card as it is. */
  lemma EndMarkerAsLogicalLine()
    ensures CreateCardHelper("END:VCARD", NamedX) == Success(NamedX)
  {
    var line := "END:VCARD";
    assert line[..3][0] == 'E' != "FN:"[0];
    assert line[..4][0] == 'E' != "BDAY"[0];
    assert |line| < |"ANNIVERSARY"|;
    assert line[3] == ':';
    assert line[..|"END:VCARD"|] == "END:VCARD";
    HeaderLineKeepsCard(line, NamedX);
  }

  lemma HeaderLineKeepsCard(line: string, card: Card)
    requires !StartsWith(line, "FN:") && !IsDateLine(line) && ':' in line && IsHeaderLine(line)
    ensures CreateCardHelper(line, card) == Success(card)
  {
  }

  /** The exception is real: `END:VCARD` folded as `END:VCA` and ` RD` is
      not seen as the end line, so a card that parses unfolded is rejected
      folded. */
  lemma FoldedEndNotSeen()
    ensures "END:VCA" + ContinuationText([" RD"]) == "END:VCARD"
    ensures ParseLines(["BEGIN:VCARD\r\n", "VERSION:4.0\r\n", "FN:x\r\n", "END:VCARD\r\n"]).Success?
    ensures ParseLines(["BEGIN:VCARD\r\n", "VERSION:4.0\r\n", "FN:x\r\n", "END:VCA\r\n", " RD\r\n"]) == Failure(InvCard)
  {
    assert ContinuationText([" RD"]) == ContinuationText([]) + " RD"[1..];
    EndLineSeen();
    FoldedEndLineMissed();
    assert ["BEGIN:VCARD\r\n", "VERSION:4.0\r\n", "FN:x\r\n"] + ["END:VCARD\r\n"]
        == ["BEGIN:VCARD\r\n", "VERSION:4.0\r\n", "FN:x\r\n", "END:VCARD\r\n"];
    assert ["BEGIN:VCARD\r\n", "VERSION:4.0\r\n", "FN:x\r\n"] + ["END:VCA\r\n", " RD\r\n"]
        == ["BEGIN:VCARD\r\n", "VERSION:4.0\r\n", "FN:x\r\n", "END:VCA\r\n", " RD\r\n"];
  }
}
