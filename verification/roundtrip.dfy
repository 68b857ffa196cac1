/** Writing and reading back: which dates, properties and whole cards the
    writer emits in a form the parser turns back into the same value, and
    concrete cases where it does not. */
module RoundTrip {
  import opened Strings
  import opened CardModel
  import opened Helpers
  import opened Writer

  // ---------------------------------------------------------------------
  // Dates.

  /** The dates the writer and the date parser agree on: text without
      date, time or UTC flag; or a date/time without text whose written
      form neither ends in a `Z` it does not mean, nor is cut elsewhere than
      where the writer put its `T`. */
  predicate DateRoundTrips(dt: DateTime)
  {
    if dt.isText then dt.date == "" && dt.time == "" && !dt.utc
    else
      && dt.text == ""
      && (!dt.utc ==> !EndsWith(DateBody(dt), "Z"))
      && (if StartsWith(DateBody(dt), "--") then dt.time == "" else 'T' !in dt.date)
  }

  lemma NoTextMarker(name: string)
    requires name == "BDAY" || name == "ANNIVERSARY"
    ensures !Contains(name, TextMarker)
  {
    if name == "ANNIVERSARY" {
      forall i | 0 <= i && i + 10 <= |name|
        ensures !OccursAt(name, TextMarker, i)
      {
        assert name[i..i + 10][0] == name[i] != 'V';
      }
    }
  }

  lemma OccursAfter(a: string, b: string)
    ensures OccursAt(a + b, b, |a|)
  {
    assert (a + b)[|a|..|a| + |b|] == b;
  }

  lemma TextDateLine(name: string, dt: DateTime)
    requires ':' !in name
    requires dt.isText
    ensures ParseDate(name + DateText(dt)) == Success(DateTime(false, true, "", "", dt.text))
  {
    var head := (name + ";") + TextMarker;
    TextLineShape(name, dt.text);
    assert ':' !in TextMarker;
    CutAtFirst(head, dt.text, ':');
    OccursAfter(name + ";", TextMarker);
  }

  lemma TextLineShape(name: string, text: string)
    ensures name + ((";" + TextMarker) + (":" + text)) == ((name + ";") + TextMarker) + (":" + text)
  {
    AppendAssoc(name, ";" + TextMarker, ":" + text);
    AppendAssoc(name, ";", TextMarker);
  }

  /** A date line whose head has no `VALUE=text` reads its value as a
      date/time. */
  lemma PlainDateValue(name: string, value: string)
    requires |name| > 0 && ':' !in name
    requires !Contains(name, TextMarker)
    ensures ParseDate(name + (":" + value)) == Success(ParseDateValue(false, value))
  {
    CutAtFirst(name, value, ':');
  }

  lemma PlainDateLine(name: string, dt: DateTime)
    requires |name| > 0 && ':' !in name
    requires !Contains(name, TextMarker)
    requires !dt.isText
    ensures ParseDate(name + DateText(dt)) == Success(ParseDateValue(false, DateBody(dt) + UtcSuffix(dt)))
  {
    PlainDateValue(name, DateBody(dt) + UtcSuffix(dt));
  }

  /** Cutting the written date part gives the date and time back exactly
      when the cut falls where the writer put its `T`. */
  lemma SplitOfBody(dt: DateTime)
    requires !dt.isText && dt.text == ""
    ensures SplitDateTime(DateBody(dt), dt.utc) == dt <==>
      (if StartsWith(DateBody(dt), "--") then dt.time == "" else 'T' !in dt.date)
  {
    if StartsWith(DateBody(dt), "--") {
      DashedBodyKept(dt);
    } else if 'T' in dt.date {
      EarlyTBreaksSplit(dt);
    } else {
      BodySplitsAtT(dt);
    }
  }

  lemma DashedBodyKept(dt: DateTime)
    requires !dt.isText && dt.text == "" && StartsWith(DateBody(dt), "--")
    ensures SplitDateTime(DateBody(dt), dt.utc) == dt <==> dt.time == ""
  {
    if dt.time == "" {
      assert DateBody(dt) == dt.date;
    }
  }

  lemma EarlyTBreaksSplit(dt: DateTime)
    requires !dt.isText && dt.text == "" && !StartsWith(DateBody(dt), "--") && 'T' in dt.date
    ensures SplitDateTime(DateBody(dt), dt.utc) != dt
  {
    var body := DateBody(dt);
    var k :| 0 <= k < |dt.date| && dt.date[k] == 'T';
    assert body[k] == 'T';
  }

  lemma BodySplitsAtT(dt: DateTime)
    requires !dt.isText && dt.text == "" && !StartsWith(DateBody(dt), "--") && 'T' !in dt.date
    ensures SplitDateTime(DateBody(dt), dt.utc) == dt
  {
    if |dt.time| > 0 {
      SplitAtT(dt.date, dt.time, dt.utc);
    } else {
      assert DateBody(dt) == dt.date;
    }
  }

  /** A date without `T`, then `T` and a time, splits back into the two. */
  lemma SplitAtT(date: string, time: string, utc: bool)
    requires 'T' !in date && !StartsWith(date + ("T" + time), "--")
    ensures SplitDateTime(date + ("T" + time), utc) == DateTime(utc, false, date, time, "")
  {
    CutAtFirst(date, time, 'T');
    assert "T" + time == ['T'] + time;
  }

  lemma ValueOfBody(dt: DateTime)
    requires !dt.isText && dt.text == ""
    ensures ParseDateValue(false, DateBody(dt) + UtcSuffix(dt)) == dt <==>
      (dt.utc || !EndsWith(DateBody(dt), "Z")) && SplitDateTime(DateBody(dt), dt.utc) == dt
  {
    var body := DateBody(dt);
    var value := body + UtcSuffix(dt);
    if dt.utc {
      assert value[|value| - 1] == 'Z';
      assert value[..|value| - 1] == body;
    } else {
      assert value == body;
      if |body| > 0 {
        assert body[|body| - 1..] == [body[|body| - 1]];
      }
    }
  }

  /** A birthday or anniversary line as written parses back to the same
      date exactly when the date round-trips. */
  lemma DateRoundTrip(name: string, dt: DateTime)
    requires name == "BDAY" || name == "ANNIVERSARY"
    ensures ParseDate(name + DateText(dt)) == Success(dt) <==> DateRoundTrips(dt)
  {
    assert ':' !in name;
    if dt.isText {
      TextDateLine(name, dt);
    } else {
      NoTextMarker(name);
      PlainDateLine(name, dt);
      if dt.text == "" {
        ValueOfBody(dt);
        SplitOfBody(dt);
      }
    }
  }

  /** Of the dates the parser produces, exactly one kind does not
      round-trip: a date/time without UTC flag and without time whose date
      ends in `Z`, which the writer's text would turn into a UTC date. */
  lemma ParsedDateRoundTrips(isText: bool, value: string)
    ensures var dt := ParseDateValue(isText, value);
      DateRoundTrips(dt) <==> !(!dt.isText && !dt.utc && dt.time == "" && EndsWith(dt.date, "Z"))
  {
    var dt := ParseDateValue(isText, value);
    if !isText {
      if dt.time == "" {
        TimelessRoundTrips(dt, value);
      } else {
        TimedRoundTrips(dt, value);
      }
    }
  }

  lemma TimelessRoundTrips(dt: DateTime, value: string)
    requires !dt.isText && DateRecovers(dt, value) && dt.time == ""
    ensures DateRoundTrips(dt) <==> !(!dt.utc && EndsWith(dt.date, "Z"))
  {
    assert DateBody(dt) == dt.date;
  }

  lemma TimedRoundTrips(dt: DateTime, value: string)
    requires !dt.isText && DateRecovers(dt, value) && dt.time != ""
    ensures DateRoundTrips(dt)
  {
    var body := DateBody(dt);
    assert body == dt.date + ("T" + dt.time);
    assert value == body + UtcSuffix(dt);
    assert !dt.utc ==> value == body;
    TimeKeepsDashes(dt.date, dt.time);
  }

  /** A `T` right after the date cannot be one of two leading dashes. */
  lemma TimeKeepsDashes(date: string, time: string)
    ensures StartsWith(date + ("T" + time), "--") ==> StartsWith(date, "--")
  {
    var body := date + ("T" + time);
    if |date| >= 2 {
      assert body[..2] == date[..2];
    } else {
      assert body[|date|] == 'T';
    }
  }

  /** Whatever date line the parser accepts, the date it reads is written
      back as a birthday or anniversary line that reads the same, except a
      date/time without UTC flag and time whose date ends in `Z`. */
  lemma ParsedDateWrittenBack(line: string, name: string)
    requires name == "BDAY" || name == "ANNIVERSARY"
    requires ParseDate(line).Success?
    ensures var dt := ParseDate(line).value;
      ParseDate(name + DateText(dt)) == Success(dt) <==> !(!dt.isText && !dt.utc && dt.time == "" && EndsWith(dt.date, "Z"))
  {
    var c := IndexOf(line, ':');
    assert ParseDate(line) == Success(ParseDateValue(Contains(line[..c], TextMarker), line[c + 1..]));
    ValueWrittenBack(name, Contains(line[..c], TextMarker), line[c + 1..]);
  }

  lemma ValueWrittenBack(name: string, isText: bool, value: string)
    requires name == "BDAY" || name == "ANNIVERSARY"
    ensures var dt := ParseDateValue(isText, value);
      ParseDate(name + DateText(dt)) == Success(dt) <==> !(!dt.isText && !dt.utc && dt.time == "" && EndsWith(dt.date, "Z"))
  {
    ParsedDateRoundTrips(isText, value);
    DateRoundTrip(name, ParseDateValue(isText, value));
  }

  /** A date value ending in `ZT` (`BDAY:1985ZT`, say) reads as the date
      up to and including the `Z`, no time, not UTC; written back it loses
      the `T` and the `Z` is then taken for the UTC marker, so it does not
      read back the same. */
  lemma TrailingSeparatorNotStable(name: string, d: string)
    requires name == "BDAY" || name == "ANNIVERSARY"
    requires |d| > 0 && d[0] != '-' && 'T' !in d
    ensures ParseDate(name + (":" + (d + "ZT"))) == Success(DateTime(false, false, d + "Z", "", ""))
    ensures ParseDate(name + DateText(DateTime(false, false, d + "Z", "", ""))) != Success(DateTime(false, false, d + "Z", "", ""))
  {
    var dt := DateTime(false, false, d + "Z", "", "");
    NoTextMarker(name);
    PlainDateValue(name, d + "ZT");
    TrailingSeparatorValue(d);
    assert DateBody(dt) == d + "Z";
    assert EndsWith(DateBody(dt), "Z");
    DateRoundTrip(name, dt);
  }

  lemma TrailingSeparatorValue(d: string)
    requires |d| > 0 && d[0] != '-' && 'T' !in d
    ensures ParseDateValue(false, d + "ZT") == DateTime(false, false, d + "Z", "", "")
  {
    var value := d + "ZT";
    assert value[|value| - 1] == 'T';
    assert value[0] == d[0] != '-';
    assert !StartsWith(value, "--") by {
      assert value[..2][0] != '-';
    }
    assert d + "ZT" == (d + "Z") + "T";
    IndexOfAppend(d + "Z", "T", 'T');
    assert value[..|d| + 1] == d + "Z" && value[|d| + 2..] == "";
  }

  // ---------------------------------------------------------------------
  // Properties.

  function ParameterToken(q: Parameter): string
  {
    q.name + "=" + q.value
  }

  function ParameterTokens(ps: seq<Parameter>): (r: seq<string>)
    ensures |r| == |ps|
    ensures forall k :: 0 <= k < |ps| ==> r[k] == ParameterToken(ps[k])
  {
    if |ps| == 0 then [] else [ParameterToken(ps[0])] + ParameterTokens(ps[1..])
  }

  /** A parameter the parser reads back as written; `dotFree` when the
      property has no group, since a `.` anywhere in the head would then be
      taken for the end of a group. */
  predicate ParameterRoundTrips(q: Parameter, dotFree: bool)
  {
    && |q.name| > 0 && |q.value| > 0
    && '=' !in q.name && ':' !in q.name && ';' !in q.name
    && ':' !in q.value && ';' !in q.value
    && (dotFree ==> '.' !in q.name && '.' !in q.value)
  }

  /** The properties the writer and the generic field parser agree on. */
  predicate PropertyRoundTrips(p: Property)
  {
    && |p.name| > 0 && ':' !in p.name && ';' !in p.name
    && ':' !in p.group && '.' !in p.group
    && (p.group == "" ==> '.' !in p.name)
    && (forall q :: q in p.parameters ==> ParameterRoundTrips(q, p.group == ""))
    && NoDuplicates(p.parameters)
    && |p.values| >= 1
    && (|p.values| == 1 || WriteDelimiter(p.name) == ValueDelimiter(p.name))
    && (forall v :: v in p.values ==> ValueDelimiter(p.name) !in v)
  }

  lemma {:induction false} ParameterTextJoin(ps: seq<Parameter>)
    ensures ParameterText(ps) == if |ps| == 0 then "" else ";" + Join(ParameterTokens(ps), ";")
    decreases |ps|
  {
    if |ps| > 1 {
      ParameterTextJoin(ps[1..]);
      assert ParameterTokens(ps)[1..] == ParameterTokens(ps[1..]);
    } else if |ps| == 1 {
      assert ps[1..] == [];
    }
  }

  lemma {:induction false} CharNotInParameterText(ps: seq<Parameter>, c: char)
    requires c != ';' && c != '='
    requires forall q :: q in ps ==> c !in q.name && c !in q.value
    ensures c !in ParameterText(ps)
    decreases |ps|
  {
    if |ps| > 0 {
      assert ps[0] in ps;
      assert forall q :: q in ps[1..] ==> q in ps;
      CharNotInParameterText(ps[1..], c);
    }
  }

  /** The parameter loop reads written tokens back as the parameters they
      came from, in order. */
  lemma {:induction false} AddTokensOf(ps: seq<Parameter>, acc: seq<Parameter>)
    requires forall q :: q in ps ==> |q.name| > 0 && |q.value| > 0 && '=' !in q.name
    requires NoDuplicates(acc + ps)
    ensures AddParameterTokens(ParameterTokens(ps), acc) == Success(acc + ps)
    decreases |ps|
  {
    if |ps| == 0 {
      assert acc + ps == acc;
    } else {
      var q := ps[0];
      assert q in ps;
      var t := ParameterToken(q);
      var tokens := ParameterTokens(ps);
      assert tokens[0] == t;
      assert tokens[1..] == ParameterTokens(ps[1..]);
      assert t == q.name + (['='] + q.value);
      CutAtFirst(q.name, q.value, '=');
      assert q !in acc by {
        assert (acc + ps)[|acc|] == q;
        assert forall i :: 0 <= i < |acc| ==> (acc + ps)[i] == acc[i];
      }
      assert AddParameter(acc, q.name, q.value) == acc + [q];
      MoveFirst(acc, ps);
      assert forall x :: x in ps[1..] ==> x in ps;
      AddTokensOf(ps[1..], acc + [q]);
    }
  }

  lemma MoveFirst<T>(a: seq<T>, b: seq<T>)
    requires |b| > 0
    ensures a + b == (a + [b[0]]) + b[1..]
  {
    assert b == [b[0]] + b[1..];
  }

  /** The parameter text after the name, without its leading `;`. */
  function RawParameters(ps: seq<Parameter>): string
  {
    if |ps| == 0 then "" else Join(ParameterTokens(ps), [';'])
  }

  lemma TokenShape(q: Parameter, dotFree: bool)
    requires ParameterRoundTrips(q, dotFree)
    ensures ';' !in ParameterToken(q) && |ParameterToken(q)| > 0
  {
    assert ParameterToken(q) == q.name + ("=" + q.value);
  }

  lemma TokensOfJoin(ps: seq<Parameter>, dotFree: bool)
    requires |ps| > 0
    requires forall q :: q in ps ==> ParameterRoundTrips(q, dotFree)
    ensures Tokens(Join(ParameterTokens(ps), [';']), ';') == ParameterTokens(ps)
  {
    var toks := ParameterTokens(ps);
    forall k | 0 <= k < |toks|
      ensures ';' !in toks[k] && |toks[k]| > 0
    {
      assert ps[k] in ps;
      TokenShape(ps[k], dotFree);
    }
    SplitJoin(toks, ';');
    NonEmptyKeepsNonEmpty(toks);
  }

  lemma ParseParametersOf(ps: seq<Parameter>, dotFree: bool)
    requires forall q :: q in ps ==> ParameterRoundTrips(q, dotFree)
    requires NoDuplicates(ps)
    ensures ParseParameters(RawParameters(ps)) == Success(ps)
  {
    if |ps| == 0 {
      assert Split("", ';') == [""];
      assert NonEmpty([""]) == [];
    } else {
      TokensOfJoin(ps, dotFree);
      assert [] + ps == ps;
      AddTokensOf(ps, []);
    }
  }

  /** The name and the parameter text, cut at the first `;`. */
  lemma NameThenParameters(name: string, ps: seq<Parameter>)
    requires ';' !in name
    ensures SplitNameAndParameters(name + ParameterText(ps)) == (name, RawParameters(ps))
  {
    if |ps| > 0 {
      ParameterTextJoin(ps);
      assert ParameterText(ps) == ";" + RawParameters(ps);
      CutAtFirst(name, RawParameters(ps), ';');
    } else {
      assert name + ParameterText(ps) == name;
    }
  }

  lemma SplitHeadGrouped(group: string, name: string, ps: seq<Parameter>)
    requires |group| > 0 && '.' !in group && ';' !in name
    ensures SplitHead(group + ("." + (name + ParameterText(ps)))) == Head(group, name, RawParameters(ps))
  {
    CutAtFirst(group, name + ParameterText(ps), '.');
    NameThenParameters(name, ps);
  }

  lemma SplitHeadUngrouped(name: string, ps: seq<Parameter>)
    requires ';' !in name && '.' !in name + ParameterText(ps)
    ensures SplitHead(name + ParameterText(ps)) == Head("", name, RawParameters(ps))
  {
    NameThenParameters(name, ps);
  }

  lemma GroupPrefixCases(group: string, rest: string)
    ensures GroupPrefix(group) + rest == if |group| > 0 then group + ("." + rest) else rest
  {
  }

  /** The head of a written line splits back into group, name and the
      parameter text. */
  lemma SplitHeadOf(group: string, name: string, ps: seq<Parameter>)
    requires '.' !in group && ';' !in name
    requires group == "" ==> '.' !in name + ParameterText(ps)
    ensures SplitHead(GroupPrefix(group) + (name + ParameterText(ps))) == Head(group, name, RawParameters(ps))
  {
    GroupPrefixCases(group, name + ParameterText(ps));
    if |group| > 0 {
      SplitHeadGrouped(group, name, ps);
    } else {
      SplitHeadUngrouped(name, ps);
    }
  }

  lemma JoinSameDelimiter(values: seq<string>, a: char, b: char)
    requires |values| == 1 || a == b
    ensures Join(values, [a]) == Join(values, [b])
  {
  }

  /** The generic parser on a line whose head splits and whose parameters
      parse as given. */
  lemma ParseSplitLine(head: string, rest: string, h: Head, ps: seq<Parameter>)
    requires ':' !in head
    requires SplitHead(head) == h && |h.name| > 0
    requires ParseParameters(h.rawParams) == Success(ps)
    ensures ':' in head + (":" + rest)
    ensures ParseProperty(head + (":" + rest)) == Success(Property(h.name, h.group, ps, Split(rest, ValueDelimiter(h.name))))
  {
    ParsePropertyCut(head, rest);
  }

  lemma ParsePropertyCut(head: string, rest: string)
    requires ':' !in head
    ensures ':' in head + (":" + rest)
    ensures ParseProperty(head + (":" + rest)) == PropertyOf(head, rest)
  {
    CutAtFirst(head, rest, ':');
  }

  /** A property line as written parses back to the same property. */
  lemma PropertyRoundTrip(p: Property)
    requires PropertyRoundTrips(p)
    ensures ':' in PropertyLine(p)
    ensures ParseProperty(PropertyLine(p)) == Success(p)
  {
    PropertyHeadParses(p);
    PropertyValuesSplit(p);
    ParseSplitLine(HeadText(p), Join(p.values, [WriteDelimiter(p.name)]),
      Head(p.group, p.name, RawParameters(p.parameters)), p.parameters);
  }

  lemma PropertyHeadParses(p: Property)
    requires PropertyRoundTrips(p)
    ensures ':' !in HeadText(p)
    ensures SplitHead(HeadText(p)) == Head(p.group, p.name, RawParameters(p.parameters))
    ensures ParseParameters(RawParameters(p.parameters)) == Success(p.parameters)
  {
    HeadWithoutColon(p);
    if p.group == "" {
      CharNotInParameterText(p.parameters, '.');
    }
    SplitHeadOf(p.group, p.name, p.parameters);
    ParseParametersOf(p.parameters, p.group == "");
  }

  lemma PropertyValuesSplit(p: Property)
    requires PropertyRoundTrips(p)
    ensures Split(Join(p.values, [WriteDelimiter(p.name)]), ValueDelimiter(p.name)) == p.values
  {
    JoinSameDelimiter(p.values, WriteDelimiter(p.name), ValueDelimiter(p.name));
    assert forall k :: 0 <= k < |p.values| ==> p.values[k] in p.values;
    SplitJoin(p.values, ValueDelimiter(p.name));
  }

  lemma HeadWithoutColon(p: Property)
    requires PropertyRoundTrips(p)
    ensures ':' !in HeadText(p)
  {
    CharNotInParameterText(p.parameters, ':');
  }

  lemma JoinTwo(a: string, b: string, d: char)
    ensures Join([a, b], [d]) == a + [d] + b
  {
    assert [a, b][1..] == [b];
  }

  /** A bare name with no group and no parameters. */
  lemma BareName(name: string)
    requires ';' !in name && '.' !in name
    ensures SplitHead(name) == Head("", name, "")
    ensures ParseParameters("") == Success([])
    ensures HeadText(Property(name, "", [], [])) == name
  {
    assert ParameterText([]) == "";
    assert GroupPrefix("") + (name + ParameterText([])) == name;
    SplitHeadOf("", name, []);
    ParseParametersOf([], true);
  }

  /** A bare `name:values` line, read with the name's delimiter. */
  lemma BareLine(name: string, values: string)
    requires |name| > 0 && ':' !in name && ';' !in name && '.' !in name
    ensures ParseProperty(name + (":" + values)) == Success(Property(name, "", [], Split(values, ValueDelimiter(name))))
  {
    BareName(name);
    ParseSplitLine(name, values, Head("", name, ""), []);
  }

  lemma SplitTwo(a: string, b: string, d: char)
    requires d !in a && d !in b
    ensures Split(a + [d] + b, d) == [a, b]
  {
    JoinTwo(a, b, d);
    SplitJoin([a, b], d);
  }

  lemma SplitOne(a: string, d: char)
    requires d !in a
    ensures Split(a, d) == [a]
  {
    SplitJoin([a], d);
  }

  lemma WrittenBare(name: string, values: seq<string>)
    ensures PropertyLine(Property(name, "", [], values)) == name + (":" + Join(values, [WriteDelimiter(name)]))
  {
    assert ParameterText([]) == "";
    assert HeadText(Property(name, "", [], values)) == name;
  }

  /** The writer and the parser use the same delimiter exactly for the
      names both single out: N, ADR and TEL (joined and split at `;`) and
      GEO, NOTE and CATEGORIES in any case (joined and split at `,`). Every
      other name is split at `,` and joined with `;`. */
  lemma DelimitersAgree(name: string)
    ensures WriteDelimiter(name) == ValueDelimiter(name) <==>
      || name == "N" || name == "ADR" || name == "TEL"
      || EqualsIgnoreCase(name, "GEO") || EqualsIgnoreCase(name, "NOTE") || EqualsIgnoreCase(name, "CATEGORIES")
  {
    if name == "ADR" || name == "TEL" {
      assert LowerChar(name[0]) != LowerChar("GEO"[0]);
    }
  }

  /** For a property whose values are read apart at `,` but written
      joined by `;` (EMAIL, for one), `name:a,b` reads as two values,
      which are written back as `name:a;b`, which reads as the one value
      `a;b`. */
  lemma ValueDelimiterMismatch(name: string, a: string, b: string)
    requires |name| > 0 && ':' !in name && ';' !in name && '.' !in name
    requires ValueDelimiter(name) == ',' && WriteDelimiter(name) == ';'
    requires ',' !in a && ',' !in b && ';' !in a && ';' !in b
    ensures ParseProperty(name + (":" + (a + "," + b))) == Success(Property(name, "", [], [a, b]))
    ensures PropertyLine(Property(name, "", [], [a, b])) == name + (":" + (a + ";" + b))
    ensures ParseProperty(name + (":" + (a + ";" + b))) == Success(Property(name, "", [], [a + ";" + b]))
  {
    CommaValuesRead(name, a, b);
    WrittenBare(name, [a, b]);
    JoinTwo(a, b, ';');
    assert a + ";" + b == a + [';'] + b;
    SemicolonValueRead(name, a, b);
  }

  lemma CommaValuesRead(name: string, a: string, b: string)
    requires |name| > 0 && ':' !in name && ';' !in name && '.' !in name
    requires ValueDelimiter(name) == ','
    requires ',' !in a && ',' !in b
    ensures ParseProperty(name + (":" + (a + "," + b))) == Success(Property(name, "", [], [a, b]))
  {
    assert a + "," + b == a + [','] + b;
    BareLine(name, a + "," + b);
    SplitTwo(a, b, ',');
  }

  lemma SemicolonValueRead(name: string, a: string, b: string)
    requires |name| > 0 && ':' !in name && ';' !in name && '.' !in name
    requires ValueDelimiter(name) == ','
    requires ',' !in a && ',' !in b
    ensures ParseProperty(name + (":" + (a + ";" + b))) == Success(Property(name, "", [], [a + ";" + b]))
  {
    var v := a + ";" + b;
    assert ',' !in v by {
      assert forall i :: 0 <= i < |v| ==> v[i] == (if i < |a| then a[i] else if i == |a| then ';' else b[i - |a| - 1]);
    }
    OneValueRead(name, v);
  }

  lemma OneValueRead(name: string, v: string)
    requires |name| > 0 && ':' !in name && ';' !in name && '.' !in name
    requires ValueDelimiter(name) == ',' && ',' !in v
    ensures ParseProperty(name + (":" + v)) == Success(Property(name, "", [], [v]))
  {
    BareLine(name, v);
    SplitOne(v, ',');
  }

  /** EMAIL is such a property. */
  lemma EmailValuesNotStable()
    ensures ValueDelimiter("EMAIL") == ',' && WriteDelimiter("EMAIL") == ';'
    ensures ParseProperty("EMAIL" + (":" + ("a" + "," + "b"))) == Success(Property("EMAIL", "", [], ["a", "b"]))
    ensures ParseProperty("EMAIL" + (":" + ("a" + ";" + "b"))) == Success(Property("EMAIL", "", [], ["a" + ";" + "b"]))
  {
    ValueDelimiterMismatch("EMAIL", "a", "b");
  }
}
