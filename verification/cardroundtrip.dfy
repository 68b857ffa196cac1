/** The whole-card round trip: a card the writer saves is read back by
    createCard as the same card, when every line it writes is one the
    reader takes apart the way the writer put it together. */
module CardRoundTrip {
  import opened Strings
  import opened CardModel
  import opened Helpers
  import opened Parser
  import opened Writer
  import opened RoundTrip
  import opened Validator

  /** A written line that unfolding passes through as one logical line of
      its own: not empty, no line feed inside, not indented, not END. */
  predicate PlainLine(l: string)
  {
    |l| > 0 && '\n' !in l && !IsContinuation(l) && l != "END:VCARD"
  }

  predicate AllPlain(ls: seq<string>)
  {
    forall k :: 0 <= k < |ls| ==> PlainLine(ls[k])
  }

  predicate FeedFree(ls: seq<string>)
  {
    forall k :: 0 <= k < |ls| ==> '\n' !in ls[k]
  }

  /** A line the field parser hands to the generic property parser. */
  predicate GenericLine(line: string)
  {
    !IsDateLine(line) && !IsHeaderLine(line) && !StartsWith(line, "FN")
  }

  /** The cards the writer and createCard agree on: a name the parser
      would build from an `FN:` line, dates and properties that round-trip
      on their own, no line feed anywhere, and optional properties whose
      lines reach the generic parser as separate logical lines. */
  predicate CardRoundTrips(card: Card)
  {
    && card.fn.Some? && |card.fn.value.values| > 0
    && card.fn.value == FnProperty(card.fn.value.values[0])
    && '\n' !in card.fn.value.values[0]
    && (card.birthday.Some? ==> DateRoundTrips(card.birthday.value) && '\n' !in DateText(card.birthday.value))
    && (card.anniversary.Some? ==> DateRoundTrips(card.anniversary.value) && '\n' !in DateText(card.anniversary.value))
    && (forall p :: p in card.optionalProperties ==>
          PropertyRoundTrips(p) && GenericLine(PropertyLine(p)) && PlainLine(PropertyLine(p)))
  }

  /** The written lines between the header and END. */
  function Body(card: Card): seq<string>
    requires card.fn.Some? && |card.fn.value.values| > 0
  {
    ["FN:" + card.fn.value.values[0]] + DateLines(card) + PropertyLines(card.optionalProperties)
  }

  lemma CardLinesFrame(card: Card)
    requires card.fn.Some? && |card.fn.value.values| > 0
    ensures CardLines(card) == ["BEGIN:VCARD", "VERSION:4.0"] + Body(card) + ["END:VCARD"]
  {
    var header := ["BEGIN:VCARD", "VERSION:4.0"];
    var fnLine := ["FN:" + card.fn.value.values[0]];
    var dates := DateLines(card);
    var props := PropertyLines(card.optionalProperties);
    assert header + fnLine == ["BEGIN:VCARD", "VERSION:4.0", "FN:" + card.fn.value.values[0]];
    AppendAssoc(header, fnLine, dates);
    AppendAssoc(header, fnLine + dates, props);
  }

  // ---------------------------------------------------------------------
  // Reading the written text back into lines.

  /** Lines without line feeds, each followed by CR LF: the reader's
      `fgets` pieces are exactly those lines. */
  lemma {:induction false} PhysicalLinesOfCrLf(ls: seq<string>)
    requires FeedFree(ls)
    ensures PhysicalLines(Concat(CrLfLines(ls))) == CrLfLines(ls)
    decreases |ls|
  {
    if |ls| > 0 {
      var first := ls[0] + "\r\n";
      var rest := Concat(CrLfLines(ls[1..]));
      assert CrLfLines(ls)[1..] == CrLfLines(ls[1..]);
      assert Concat(CrLfLines(ls)) == first + rest;
      IndexOfAppend(ls[0], "\r\n", '\n');
      IndexOfAppend(first, rest, '\n');
      assert IndexOf(first + rest, '\n') == |first| - 1;
      assert (first + rest)[..|first|] == first;
      assert (first + rest)[|first|..] == rest;
      PhysicalLinesOfCrLf(ls[1..]);
    }
  }

  /** Plain lines up to an END line: each becomes one logical line, the
      pending one included, and the input is accepted. */
  lemma {:induction false} UnfoldPlain(ls: seq<string>, buffer: string)
    requires AllPlain(ls)
    ensures var u := UnfoldFrom(CrLfLines(ls) + ["END:VCARD" + "\r\n"], buffer, true, true);
      && !u.broken && u.begun && u.versionFound && u.endFound
      && u.logical + Flush(u.buffer) == Flush(buffer) + ls
    decreases |ls|
  {
    var lines := CrLfLines(ls) + ["END:VCARD" + "\r\n"];
    if |ls| == 0 {
      assert lines == ["END:VCARD" + "\r\n"];
      AddCrLf("END:VCARD");
    } else {
      var l := ls[0];
      AddCrLf(l);
      assert lines[0] == l + "\r\n";
      assert lines[1..] == CrLfLines(ls[1..]) + ["END:VCARD" + "\r\n"];
      UnfoldPlain(ls[1..], l);
      var next := UnfoldFrom(lines[1..], l, true, true);
      assert UnfoldFrom(lines, buffer, true, true) == next.(logical := Flush(buffer) + next.logical);
      assert Flush(l) + ls[1..] == ls;
      AppendAssoc(Flush(buffer), next.logical, Flush(next.buffer));
    }
  }

  lemma CrLfLinesAppend(a: seq<string>, b: seq<string>)
    ensures CrLfLines(a + b) == CrLfLines(a) + CrLfLines(b)
  {
    assert forall k :: 0 <= k < |b| ==> (a + b)[|a| + k] == b[k];
  }

  /** The lines of a written card between the header and END unfold to
      exactly themselves, and the structure checks pass. */
  lemma UnfoldWritten(body: seq<string>)
    requires AllPlain(body)
    ensures var lines := CrLfLines(["BEGIN:VCARD", "VERSION:4.0"] + body + ["END:VCARD"]);
      var u := UnfoldFrom(lines, "", false, false);
      && !u.broken && u.begun && u.versionFound && u.endFound
      && LogicalLines(lines) == body
  {
    var header := ["BEGIN:VCARD", "VERSION:4.0"];
    var lines := CrLfLines(header + body + ["END:VCARD"]);
    var first := "BEGIN:VCARD" + "\r\n";
    var second := "VERSION:4.0" + "\r\n";
    CrLfLinesAppend(header + body, ["END:VCARD"]);
    CrLfLinesAppend(header, body);
    assert CrLfLines(header) == [first, second];
    var last := "END:VCARD" + "\r\n";
    assert CrLfLines(["END:VCARD"]) == [last];
    AppendAssoc([first, second], CrLfLines(body), [last]);
    var tail := CrLfLines(body) + [last];
    assert lines == [first, second] + tail;
    assert lines[1..] == [second] + tail;
    assert lines[2..] == tail;
    AddCrLf("BEGIN:VCARD");
    AddCrLf("VERSION:4.0");
    UnfoldPlain(body, "");
  }

  // ---------------------------------------------------------------------
  // Applying the written logical lines.

  /** The written property lines append the same properties, in order. */
  lemma {:induction false} ApplyProperties(props: seq<Property>, card: Card)
    requires forall k :: 0 <= k < |props| ==> Appendable(props[k])
    ensures ApplyAll(PropertyLines(props), card) ==
      Success(card.(optionalProperties := card.optionalProperties + props))
    decreases |props|
  {
    if |props| == 0 {
      assert card.optionalProperties + props == card.optionalProperties;
    } else {
      var rest := props[1..];
      var c := card.(optionalProperties := card.optionalProperties + [props[0]]);
      PropertyStep(props, card);
      assert forall k :: 0 <= k < |rest| ==> rest[k] == props[k + 1];
      ApplyProperties(rest, c);
      assert c.optionalProperties + rest == card.optionalProperties + props by {
        assert [props[0]] + rest == props;
        AppendAssoc(card.optionalProperties, [props[0]], rest);
      }
    }
  }

  lemma PropertyStep(props: seq<Property>, card: Card)
    requires |props| > 0 && Appendable(props[0])
    ensures ApplyAll(PropertyLines(props), card) ==
      ApplyAll(PropertyLines(props[1..]), card.(optionalProperties := card.optionalProperties + [props[0]]))
  {
    var p := props[0];
    AppendsProperty(p, card);
    assert PropertyLines(props) == [PropertyLine(p)] + PropertyLines(props[1..]);
    ApplyAllCons(PropertyLine(p), PropertyLines(props[1..]), card,
      card.(optionalProperties := card.optionalProperties + [p]));
  }

  /** A property whose written line the generic parser turns back into it. */
  predicate Appendable(p: Property)
  {
    PropertyRoundTrips(p) && GenericLine(PropertyLine(p))
  }

  lemma AppendsProperty(p: Property, card: Card)
    requires Appendable(p)
    ensures CreateCardHelper(PropertyLine(p), card) == Success(card.(optionalProperties := card.optionalProperties + [p]))
  {
    PropertyRoundTrip(p);
    GenericLineAppends(PropertyLine(p), card);
  }

  lemma ApplyAllCons(line: string, rest: seq<string>, card: Card, next: Card)
    requires CreateCardHelper(line, card) == Success(next)
    ensures ApplyAll([line] + rest, card) == ApplyAll(rest, next)
  {
    assert ([line] + rest)[0] == line;
    assert ([line] + rest)[1..] == rest;
  }

  lemma ApplyOne(line: string, card: Card)
    ensures ApplyAll([line], card) == CreateCardHelper(line, card)
  {
    assert [line][1..] == [];
  }

  lemma ApplyBirthday(dt: DateTime, card: Card)
    requires DateRoundTrips(dt)
    ensures ApplyAll(["BDAY" + DateText(dt)], card) == Success(card.(birthday := Some(dt)))
  {
    var line := "BDAY" + DateText(dt);
    DateRoundTrip("BDAY", dt);
    assert line[..4] == "BDAY";
    BirthdayLineSets(line, card);
    ApplyOne(line, card);
  }

  lemma ApplyAnniversary(dt: DateTime, card: Card)
    requires DateRoundTrips(dt)
    ensures ApplyAll(["ANNIVERSARY" + DateText(dt)], card) == Success(card.(anniversary := Some(dt)))
  {
    var line := "ANNIVERSARY" + DateText(dt);
    DateRoundTrip("ANNIVERSARY", dt);
    assert line[..11] == "ANNIVERSARY";
    AnniversaryLineSets(line, card);
    ApplyOne(line, card);
  }

  /** The written date lines set the same birthday and anniversary. */
  lemma ApplyDates(card: Card, c: Card)
    requires card.birthday.Some? ==> DateRoundTrips(card.birthday.value)
    requires card.anniversary.Some? ==> DateRoundTrips(card.anniversary.value)
    requires c.birthday.None? && c.anniversary.None?
    ensures ApplyAll(DateLines(card), c) == Success(c.(birthday := card.birthday, anniversary := card.anniversary))
  {
    var b := if card.birthday.Some? then ["BDAY" + DateText(card.birthday.value)] else [];
    var a := if card.anniversary.Some? then ["ANNIVERSARY" + DateText(card.anniversary.value)] else [];
    ApplyAllAppend(b, a, c);
    var c1 := c.(birthday := card.birthday);
    if card.birthday.Some? {
      ApplyBirthday(card.birthday.value, c);
    }
    if card.anniversary.Some? {
      ApplyAnniversary(card.anniversary.value, c1);
    }
  }

  lemma FnLineSetsName(v: string)
    ensures ApplyAll(["FN:" + v], EmptyCard) == Success(EmptyCard.(fn := Some(FnProperty(v))))
  {
    var line := "FN:" + v;
    assert line[..3] == "FN:" && line[3..] == v;
    FirstFnLineSetsName(line, EmptyCard);
    ApplyOne(line, EmptyCard);
  }

  /** The logical lines between the header and END build the card back. */
  lemma ApplyBody(card: Card)
    requires CardRoundTrips(card)
    ensures ApplyAll(Body(card), EmptyCard) == Success(card)
  {
    var fnLine := ["FN:" + card.fn.value.values[0]];
    var props := card.optionalProperties;
    ApplyAllAppend(fnLine + DateLines(card), PropertyLines(props), EmptyCard);
    ApplyAllAppend(fnLine, DateLines(card), EmptyCard);
    FnLineSetsName(card.fn.value.values[0]);
    var c0 := EmptyCard.(fn := card.fn);
    ApplyDates(card, c0);
    var c1 := c0.(birthday := card.birthday, anniversary := card.anniversary);
    forall k | 0 <= k < |props|
      ensures Appendable(props[k])
    {
      assert props[k] in props;
    }
    ApplyProperties(props, c1);
    assert c1.optionalProperties + props == props;
    assert c1.(optionalProperties := c1.optionalProperties + props) == card;
  }

  // ---------------------------------------------------------------------
  // The whole card.

  lemma NotIndented(prefix: string, rest: string)
    requires |prefix| > 0 && prefix[0] != ' ' && prefix[0] != '\t' && prefix[0] != 'E' && '\n' !in prefix
    requires '\n' !in rest
    ensures PlainLine(prefix + rest)
  {
    assert (prefix + rest)[0] == prefix[0];
    assert "END:VCARD"[0] == 'E';
  }

  lemma AllPlainAppend(a: seq<string>, b: seq<string>)
    requires AllPlain(a) && AllPlain(b)
    ensures AllPlain(a + b)
  {
    assert forall k :: 0 <= k < |b| ==> (a + b)[|a| + k] == b[k];
  }

  lemma FeedFreeAppend(a: seq<string>, b: seq<string>)
    requires FeedFree(a) && FeedFree(b)
    ensures FeedFree(a + b)
  {
    assert forall k :: 0 <= k < |b| ==> (a + b)[|a| + k] == b[k];
  }

  lemma {:induction false} PropertyLinesPlain(props: seq<Property>)
    requires forall p :: p in props ==> PlainLine(PropertyLine(p))
    ensures AllPlain(PropertyLines(props))
  {
    forall k | 0 <= k < |props|
      ensures PlainLine(PropertyLines(props)[k])
    {
      assert props[k] in props;
    }
  }

  lemma DateLinesPlain(card: Card)
    requires card.birthday.Some? ==> '\n' !in DateText(card.birthday.value)
    requires card.anniversary.Some? ==> '\n' !in DateText(card.anniversary.value)
    ensures AllPlain(DateLines(card))
  {
    var b := if card.birthday.Some? then ["BDAY" + DateText(card.birthday.value)] else [];
    var a := if card.anniversary.Some? then ["ANNIVERSARY" + DateText(card.anniversary.value)] else [];
    if card.birthday.Some? {
      NotIndented("BDAY", DateText(card.birthday.value));
    }
    if card.anniversary.Some? {
      NotIndented("ANNIVERSARY", DateText(card.anniversary.value));
    }
    AllPlainAppend(b, a);
  }

  /** Every written line between the header and END is a plain line. */
  lemma BodyIsPlain(card: Card)
    requires CardRoundTrips(card)
    ensures AllPlain(Body(card))
  {
    NotIndented("FN:", card.fn.value.values[0]);
    DateLinesPlain(card);
    PropertyLinesPlain(card.optionalProperties);
    var fnLine := ["FN:" + card.fn.value.values[0]];
    AllPlainAppend(fnLine, DateLines(card));
    AllPlainAppend(fnLine + DateLines(card), PropertyLines(card.optionalProperties));
  }

  /** The written lines, each followed by CR LF, are read back as the
      same card. */
  lemma WrittenLinesParse(card: Card)
    requires CardRoundTrips(card)
    ensures ParseLines(CrLfLines(CardLines(card))) == Success(card)
  {
    CardLinesFrame(card);
    BodyIsPlain(card);
    UnfoldWritten(Body(card));
    ApplyBody(card);
    ParseLinesIsReference(CrLfLines(CardLines(card)));
  }

  lemma PlainFeedFree(ls: seq<string>)
    requires AllPlain(ls)
    ensures FeedFree(ls)
  {
  }

  /** No written line contains a line feed. */
  lemma NoLineFeeds(card: Card)
    requires card.fn.Some? && |card.fn.value.values| > 0 && AllPlain(Body(card))
    ensures FeedFree(CardLines(card))
  {
    CardLinesFrame(card);
    PlainFeedFree(Body(card));
    var header := ["BEGIN:VCARD", "VERSION:4.0"];
    assert FeedFree(header);
    assert FeedFree(["END:VCARD"]);
    FeedFreeAppend(header, Body(card));
    FeedFreeAppend(header + Body(card), ["END:VCARD"]);
  }

  /** writeCard then createCard on the same file name gives back the card
      that was written. */
  lemma WriteThenCreateCard(fileName: string, card: Card)
    requires ValidExtension(fileName) && CardRoundTrips(card)
    ensures WriteCard(Some(fileName), Some(card), true).Success?
    ensures CreateCard(Some(fileName), Some(WriteCard(Some(fileName), Some(card), true).value)) == Success(card)
  {
    BodyIsPlain(card);
    NoLineFeeds(card);
    PhysicalLinesOfCrLf(CardLines(card));
    WrittenLinesParse(card);
  }

  // ---------------------------------------------------------------------
  // A small card end to end.

  const JaneDoe := Card(Some(FnProperty("Jane Doe")), [], None, None)
  const JaneDoeText := "BEGIN:VCARD\r\n" + ("VERSION:4.0\r\n" + ("FN:Jane Doe\r\n" + "END:VCARD\r\n"))

  lemma JaneDoeLines()
    ensures CardLines(JaneDoe) == ["BEGIN:VCARD", "VERSION:4.0", "FN:Jane Doe", "END:VCARD"]
  {
    assert JaneDoe.fn.value.values[0] == "Jane Doe";
    assert "FN:" + "Jane Doe" == "FN:Jane Doe";
    assert DateLines(JaneDoe) == [];
    assert PropertyLines(JaneDoe.optionalProperties) == [];
    assert CardLines(JaneDoe) == ["BEGIN:VCARD", "VERSION:4.0", "FN:Jane Doe"] + [] + [] + ["END:VCARD"];
  }

  lemma ConcatFour(a: string, b: string, c: string, d: string)
    ensures Concat([a, b, c, d]) == a + (b + (c + d))
  {
    assert [a, b, c, d][1..] == [b, c, d];
    assert [b, c, d][1..] == [c, d];
    assert [c, d][1..] == [d];
    assert [d][1..] == [];
    assert Concat([d]) == d + "" == d;
    assert Concat([c, d]) == c + d;
    assert Concat([b, c, d]) == b + (c + d);
  }

  lemma JaneDoeWritten()
    ensures Concat(CrLfLines(CardLines(JaneDoe))) == JaneDoeText
  {
    JaneDoeLines();
    var ls := CrLfLines(CardLines(JaneDoe));
    assert "BEGIN:VCARD" + "\r\n" == "BEGIN:VCARD\r\n";
    assert "VERSION:4.0" + "\r\n" == "VERSION:4.0\r\n";
    assert "FN:Jane Doe" + "\r\n" == "FN:Jane Doe\r\n";
    assert "END:VCARD" + "\r\n" == "END:VCARD\r\n";
    assert ls == ["BEGIN:VCARD\r\n", "VERSION:4.0\r\n", "FN:Jane Doe\r\n", "END:VCARD\r\n"];
    ConcatFour("BEGIN:VCARD\r\n", "VERSION:4.0\r\n", "FN:Jane Doe\r\n", "END:VCARD\r\n");
  }

  /** The four-line card with only a name is written as exactly those four
      lines, read back as the same card, and passes validation. */
  lemma JaneDoeEndToEnd()
    ensures WriteCard(Some("jane.vcf"), Some(JaneDoe), true) == Success(JaneDoeText)
    ensures CreateCard(Some("jane.vcf"), Some(JaneDoeText)) == Success(JaneDoe)
    ensures ValidateCard(Some(JaneDoe)) == Ok
  {
    assert ValidExtension("jane.vcf");
    JaneDoeWritten();
    assert CardRoundTrips(JaneDoe);
    WriteThenCreateCard("jane.vcf", JaneDoe);
  }
}
