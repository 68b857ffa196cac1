/** Card output: writeCard (the vCard file text, CR LF terminated) and
    cardToString (the display text, LF terminated) in src/VCParser.c.
    Opening the file is the `writable` parameter; the text that would be
    written is the result. */
module Writer {
  import opened Strings
  import opened CardModel
  import opened Helpers
  import opened Parser

  /** Multiple values are joined with `,` for GEO, NOTE and CATEGORIES
      (any case) and with `;` for every other property. */
  function WriteDelimiter(name: string): (d: char)
    ensures d == ',' <==> EqualsIgnoreCase(name, "GEO") || EqualsIgnoreCase(name, "NOTE") || EqualsIgnoreCase(name, "CATEGORIES")
    ensures d == ',' || d == ';'
  {
    if EqualsIgnoreCase(name, "GEO") || EqualsIgnoreCase(name, "NOTE") || EqualsIgnoreCase(name, "CATEGORIES") then ','
    else ';'
  }

  /** The date part of a date/time: the date, then `T` and the time when
      there is a time. */
  function DateBody(dt: DateTime): string
  {
    dt.date + (if |dt.time| > 0 then "T" + dt.time else "")
  }

  function UtcSuffix(dt: DateTime): string
  {
    if dt.utc then "Z" else ""
  }

  /** What follows BDAY or ANNIVERSARY on a written line. */
  function DateText(dt: DateTime): string
  {
    if dt.isText then (";" + TextMarker) + (":" + dt.text)
    else ":" + (DateBody(dt) + UtcSuffix(dt))
  }

  /** What the date parser reads from a written date: the first colon
      has `VALUE=text` before it exactly for a text date, and the value
      after it is the text, or the date, `T` and time, and `Z`. */
  lemma DateTextCut(dt: DateTime)
    ensures var r := DateText(dt);
      && IndexOf(r, ':') < |r|
      && (Contains(r[..IndexOf(r, ':')], TextMarker) <==> dt.isText)
      && r[IndexOf(r, ':') + 1..] == if dt.isText then dt.text else DateBody(dt) + UtcSuffix(dt)
  {
    if dt.isText {
      TextDateCut(dt.text);
    } else {
      PlainDateCut(DateBody(dt) + UtcSuffix(dt));
    }
  }

  lemma TextDateCut(text: string)
    ensures var r := (";" + TextMarker) + (":" + text);
      && IndexOf(r, ':') == |";" + TextMarker|
      && Contains(r[..IndexOf(r, ':')], TextMarker)
      && r[IndexOf(r, ':') + 1..] == text
  {
    var before := ";" + TextMarker;
    assert before == [';'] + TextMarker;
    assert ':' !in before;
    assert OccursAt([';'] + TextMarker, TextMarker, 1);
    CutAtFirst(before, text, ':');
  }

  lemma PlainDateCut(value: string)
    ensures var r := ":" + value;
      && IndexOf(r, ':') == 0
      && !Contains(r[..IndexOf(r, ':')], TextMarker)
      && r[IndexOf(r, ':') + 1..] == value
  {
    var r := ":" + value;
    assert r[0] == ':';
    assert r[..0] == "";
    assert forall i :: !OccursAt("", TextMarker, i);
  }

  /** `;name=value` for every parameter, in order. */
  function ParameterText(params: seq<Parameter>): string
  {
    if |params| == 0 then ""
    else ";" + params[0].name + "=" + params[0].value + ParameterText(params[1..])
  }

  /** `group.` when there is a group. */
  function GroupPrefix(group: string): string
  {
    if |group| > 0 then group + "." else ""
  }

  /** What a written property line has before its colon. */
  function HeadText(p: Property): string
  {
    GroupPrefix(p.group) + (p.name + ParameterText(p.parameters))
  }

  /** One optional property as written: `group.` when there is a group,
      the name, the parameters, a colon and the joined values. */
  function PropertyLine(p: Property): string
  {
    HeadText(p) + (":" + Join(p.values, [WriteDelimiter(p.name)]))
  }

  /** Where a reader cuts a written property line: when the head has no
      colon, the line's first colon ends the head and everything after it
      is the values joined with the writer's delimiter. */
  lemma PropertyLineCut(p: Property)
    ensures ':' in PropertyLine(p)
    ensures var r := PropertyLine(p); var head := HeadText(p);
      ':' !in head ==>
        && IndexOf(r, ':') == |head|
        && r[..|head|] == head
        && r[|head| + 1..] == Join(p.values, [WriteDelimiter(p.name)])
  {
    var head := HeadText(p);
    var r := PropertyLine(p);
    assert r[|head|] == ':';
    assert r[..|head|] == head;
  }

  function PropertyLines(props: seq<Property>): (r: seq<string>)
    ensures |r| == |props|
    ensures forall k :: 0 <= k < |props| ==> r[k] == PropertyLine(props[k])
  {
    if |props| == 0 then [] else [PropertyLine(props[0])] + PropertyLines(props[1..])
  }

  function DateLines(card: Card): seq<string>
  {
    (if card.birthday.Some? then ["BDAY" + DateText(card.birthday.value)] else [])
      + (if card.anniversary.Some? then ["ANNIVERSARY" + DateText(card.anniversary.value)] else [])
  }

  /** The lines of a written card, without terminators: header, name, the
      birthday and anniversary when present, every optional property in
      order, END. */
  function CardLines(card: Card): seq<string>
    requires card.fn.Some? && |card.fn.value.values| > 0
  {
    ["BEGIN:VCARD", "VERSION:4.0", "FN:" + card.fn.value.values[0]]
      + DateLines(card) + PropertyLines(card.optionalProperties) + ["END:VCARD"]
  }

  /** The order of a written card's lines: BEGIN, VERSION and the name,
      then the date lines, then one line per optional property in list
      order, and END last. */
  lemma CardLinesLayout(card: Card)
    requires card.fn.Some? && |card.fn.value.values| > 0
    ensures var r := CardLines(card); var d := |DateLines(card)|; var props := card.optionalProperties;
      && |r| == 4 + d + |props|
      && r[..3] == ["BEGIN:VCARD", "VERSION:4.0", "FN:" + card.fn.value.values[0]]
      && r[3..3 + d] == DateLines(card)
      && (forall k :: 0 <= k < |props| ==> r[3 + d + k] == PropertyLine(props[k]))
      && r[|r| - 1] == "END:VCARD"
  {
    var head := ["BEGIN:VCARD", "VERSION:4.0", "FN:" + card.fn.value.values[0]];
    assert |head| == 3;
    assert CardLines(card) == head + DateLines(card) + PropertyLines(card.optionalProperties) + ["END:VCARD"];
    LinesInOrder(head, DateLines(card), card.optionalProperties);
  }

  lemma LinesInOrder(head: seq<string>, dates: seq<string>, props: seq<Property>)
    ensures var r := head + dates + PropertyLines(props) + ["END:VCARD"];
      && |r| == |head| + |dates| + |props| + 1
      && r[..|head|] == head
      && r[|head|..|head| + |dates|] == dates
      && (forall k :: 0 <= k < |props| ==> r[|head| + |dates| + k] == PropertyLine(props[k]))
      && r[|r| - 1] == "END:VCARD"
  {
    FourParts(head, dates, PropertyLines(props), "END:VCARD");
  }

  lemma FourParts<T>(a: seq<T>, b: seq<T>, c: seq<T>, last: T)
    ensures var r := a + b + c + [last];
      && |r| == |a| + |b| + |c| + 1
      && r[..|a|] == a
      && r[|a|..|a| + |b|] == b
      && (forall k :: 0 <= k < |c| ==> r[|a| + |b| + k] == c[k])
      && r[|r| - 1] == last
  {
    var r := a + b + c + [last];
    assert r == a + (b + (c + [last]));
    assert r[|a|..] == b + (c + [last]);
  }

  /** writeCard. Missing arguments are WRITE_ERROR; a bad extension or a
      file that cannot be opened is INV_FILE; a card without a name value is
      INV_CARD; otherwise the card's lines, each followed by CR LF. */
  function WriteCard(fileName: Option<string>, card: Option<Card>, writable: bool): (r: Result<string>)
    ensures fileName.None? || card.None? ==> r == Failure(WriteError)
    ensures fileName.Some? && card.Some? && (!ValidExtension(fileName.value) || !writable) ==> r == Failure(InvFile)
    ensures r.Failure? && r.status == InvCard ==>
      card.Some? && (card.value.fn.None? || |card.value.fn.value.values| == 0)
    ensures r.Success? <==>
      && fileName.Some? && card.Some? && ValidExtension(fileName.value) && writable
      && card.value.fn.Some? && |card.value.fn.value.values| > 0
    ensures r.Success? ==> r.value == Concat(CrLfLines(CardLines(card.value)))
  {
    if fileName.None? || card.None? then Failure(WriteError)
    else if !ValidExtension(fileName.value) then Failure(InvFile)
    else if !writable then Failure(InvFile)
    else
      var c := card.value;
      if c.fn.None? || |c.fn.value.values| == 0 then Failure(InvCard)
      else
        Success(Concat(CrLfLines(CardLines(c))))
  }

  // ---------------------------------------------------------------------
  // The display text.

  /** Index of the first property named exactly `N`, or `|props|`. */
  function FirstNIndex(props: seq<Property>): (i: nat)
    ensures i <= |props|
    ensures forall k :: 0 <= k < i ==> props[k].name != "N"
    ensures i < |props| ==> props[i].name == "N"
  {
    if |props| == 0 then 0
    else if props[0].name == "N" then 0
    else 1 + FirstNIndex(props[1..])
  }

  /** The first property named exactly `N`, if any. */
  function FirstN(props: seq<Property>): (r: Option<Property>)
    ensures r.None? <==> forall p :: p in props ==> p.name != "N"
    ensures r.Some? ==> r.value.name == "N"
  {
    var i := FirstNIndex(props);
    if i < |props| then Some(props[i]) else None
  }

  /** The properties not named exactly `N`, in order. */
  function WithoutN(props: seq<Property>): (r: seq<Property>)
    ensures forall p :: p in r <==> p in props && p.name != "N"
    ensures |r| <= |props|
    ensures FirstN(props).Some? ==> |r| < |props|
    ensures |props| == 1 ==> r == if props[0].name == "N" then [] else props
  {
    if |props| == 0 then []
    else if props[0].name == "N" then WithoutN(props[1..])
    else [props[0]] + WithoutN(props[1..])
  }

  function DisplayProperty(p: Property): string
  {
    p.name + ParameterText(p.parameters) + ":" + Join(p.values, ",")
  }

  function DisplayProperties(props: seq<Property>): (r: seq<string>)
    ensures |r| == |props|
    ensures forall k :: 0 <= k < |props| ==> r[k] == DisplayProperty(props[k])
  {
    if |props| == 0 then [] else [DisplayProperty(props[0])] + DisplayProperties(props[1..])
  }

  /** How the display shows a birthday: the date and `Z`, never a time. */
  function DisplayBirthday(dt: DateTime): string
  {
    "BDAY" + (if dt.isText then (";" + TextMarker) + (":" + dt.text) else ":" + dt.date + UtcSuffix(dt))
  }

  /** How the display shows an anniversary: the date, `T` and the time
      (even an empty one), and `Z`. */
  function DisplayAnniversary(dt: DateTime): string
  {
    "ANNIVERSARY"
      + (if dt.isText then (";" + TextMarker) + (":" + dt.text)
         else ":" + dt.date + "T" + dt.time + UtcSuffix(dt))
  }

  /** The display header: BEGIN, VERSION, the name and the dates. */
  function DisplayHead(card: Card): (r: seq<string>)
    requires card.fn.Some? ==> |card.fn.value.values| > 0
    ensures |r| == 2 + (if card.fn.Some? then 1 else 0)
      + (if card.birthday.Some? then 1 else 0) + (if card.anniversary.Some? then 1 else 0)
  {
    ["BEGIN:VCARD", "VERSION:4.0"]
      + (if card.fn.Some? then ["FN:" + card.fn.value.values[0]] else [])
      + (if card.birthday.Some? then [DisplayBirthday(card.birthday.value)] else [])
      + (if card.anniversary.Some? then [DisplayAnniversary(card.anniversary.value)] else [])
  }

  /** The first `N` property, with its values joined by `;`. */
  function DisplayN(props: seq<Property>): (r: seq<string>)
    ensures |r| == if FirstN(props).Some? then 1 else 0
  {
    match FirstN(props)
    case Some(n) => ["N:" + Join(n.values, ";")]
    case None => []
  }

  /** What follows the display header: the first `N` property, every
      other property except those named `N`, END. */
  function DisplayTail(props: seq<Property>): (r: seq<string>)
    ensures var h := |DisplayN(props)|;
      var others := WithoutN(props);
      && |r| == h + |others| + 1
      && r[..h] == DisplayN(props)
      && (forall k :: 0 <= k < |others| ==> r[h + k] == DisplayProperty(others[k]))
      && r[|r| - 1] == "END:VCARD"
  {
    DisplayN(props) + DisplayProperties(WithoutN(props)) + ["END:VCARD"]
  }

  /** The display lines: the header, the first `N` property, every other
      property except those named `N` (no group, values joined by `,`), END. */
  function DisplayLines(card: Card): (r: seq<string>)
    requires card.fn.Some? ==> |card.fn.value.values| > 0
    ensures var h := |DisplayHead(card)| + |DisplayN(card.optionalProperties)|;
      var others := WithoutN(card.optionalProperties);
      && |r| == h + |others| + 1
      && r[..|DisplayHead(card)|] == DisplayHead(card)
      && r[|DisplayHead(card)|..h] == DisplayN(card.optionalProperties)
      && (forall k :: 0 <= k < |others| ==> r[h + k] == DisplayProperty(others[k]))
      && r[|r| - 1] == "END:VCARD"
  {
    var head := DisplayHead(card);
    var tail := DisplayTail(card.optionalProperties);
    AppendParts(head, tail);
    AppendSlice(head, tail, |DisplayN(card.optionalProperties)|);
    head + tail
  }

  /** cardToString: no text for a missing card; otherwise every display
      line followed by a line feed. */
  function CardToString(card: Option<Card>): (r: Option<string>)
    requires card.Some? && card.value.fn.Some? ==> |card.value.fn.value.values| > 0
    ensures r.None? <==> card.None?
  {
    if card.None? then None
    else Some(Concat(LfLines(DisplayLines(card.value))))
  }

  function LfLines(ls: seq<string>): (r: seq<string>)
    ensures |r| == |ls|
    ensures forall k :: 0 <= k < |ls| ==> r[k] == ls[k] + "\n"
  {
    if |ls| == 0 then [] else [ls[0] + "\n"] + LfLines(ls[1..])
  }

  /** The display text and the file text differ only in their terminators
      for a card whose properties are ungrouped, single-valued and not
      named `N`, whose birthday has no time and whose anniversary, unless
      text, has one. */
  lemma DisplayAgreesWithFile(card: Card)
    requires card.fn.Some? && |card.fn.value.values| > 0
    requires forall p :: p in card.optionalProperties ==> p.group == "" && |p.values| == 1 && p.name != "N"
    requires card.birthday.Some? ==> card.birthday.value.isText || card.birthday.value.time == ""
    requires card.anniversary.Some? ==> card.anniversary.value.isText || card.anniversary.value.time != ""
    ensures DisplayLines(card) == CardLines(card)
  {
    var props := card.optionalProperties;
    TailAgrees(props);
    HeadAgrees(card);
    var head := ["BEGIN:VCARD", "VERSION:4.0", "FN:" + card.fn.value.values[0]] + DateLines(card);
    assert DisplayLines(card) == head + (PropertyLines(props) + ["END:VCARD"]);
    assert CardLines(card) == (head + PropertyLines(props)) + ["END:VCARD"];
  }

  lemma TailAgrees(props: seq<Property>)
    requires forall p :: p in props ==> p.group == "" && |p.values| == 1 && p.name != "N"
    ensures DisplayTail(props) == PropertyLines(props) + ["END:VCARD"]
  {
    NoNKeepsAll(props);
    assert FirstN(props).None?;
    PropertiesAgree(props);
    assert DisplayTail(props) == [] + DisplayProperties(props) + ["END:VCARD"];
  }

  lemma PropertiesAgree(props: seq<Property>)
    requires forall p :: p in props ==> p.group == "" && |p.values| == 1
    ensures DisplayProperties(props) == PropertyLines(props)
  {
    forall k | 0 <= k < |props|
      ensures DisplayProperty(props[k]) == PropertyLine(props[k])
    {
      assert props[k] in props;
      SingleValueLine(props[k]);
    }
  }

  lemma SingleValueLine(p: Property)
    requires p.group == "" && |p.values| == 1
    ensures DisplayProperty(p) == PropertyLine(p)
  {
    assert Join(p.values, ",") == p.values[0] == Join(p.values, [WriteDelimiter(p.name)]);
    assert GroupPrefix(p.group) == "";
  }

  lemma HeadAgrees(card: Card)
    requires card.fn.Some? && |card.fn.value.values| > 0
    requires card.birthday.Some? ==> card.birthday.value.isText || card.birthday.value.time == ""
    requires card.anniversary.Some? ==> card.anniversary.value.isText || card.anniversary.value.time != ""
    ensures DisplayHead(card) == ["BEGIN:VCARD", "VERSION:4.0", "FN:" + card.fn.value.values[0]] + DateLines(card)
  {
    if card.birthday.Some? {
      assert DisplayBirthday(card.birthday.value) == "BDAY" + DateText(card.birthday.value);
    }
    if card.anniversary.Some? {
      assert DisplayAnniversary(card.anniversary.value) == "ANNIVERSARY" + DateText(card.anniversary.value);
    }
  }

  /** Dropping the `N` properties distributes over concatenation, so
      together with the one-property case it keeps the other properties in
      their order and with their repetitions. */
  lemma {:induction false} WithoutNAppend(a: seq<Property>, b: seq<Property>)
    ensures WithoutN(a + b) == WithoutN(a) + WithoutN(b)
    decreases |a|
  {
    if |a| == 0 {
      assert a + b == b;
    } else {
      assert (a + b)[1..] == a[1..] + b;
      WithoutNAppend(a[1..], b);
    }
  }

  lemma {:induction false} NoNKeepsAll(props: seq<Property>)
    requires forall p :: p in props ==> p.name != "N"
    ensures WithoutN(props) == props
  {
    if |props| > 0 {
      assert props[0] in props;
      assert forall p :: p in props[1..] ==> p in props;
      NoNKeepsAll(props[1..]);
      assert props == [props[0]] + props[1..];
    }
  }
}
