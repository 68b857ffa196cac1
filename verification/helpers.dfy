/** The field parser: one logical (unfolded) line is dispatched to the
    full-name rule, the birthday/anniversary sub-parser, a header no-op or
    the generic `group.name;param=value:values` parser, and the card is
    updated accordingly (src/VCHelpers.c). */
module Helpers {
  import opened Strings
  import opened CardModel

  /** True iff an identical name+value pair is already in the list. */
  function ParameterExists(params: seq<Parameter>, name: string, value: string): (r: bool)
    ensures r <==> Parameter(name, value) in params
  {
    if |params| == 0 then false
    else (params[0].name == name && params[0].value == value) || ParameterExists(params[1..], name, value)
  }

  /** Appends the pair unless it is already present, so the list stays free
      of duplicates and keeps its first-occurrence order. */
  function AddParameter(params: seq<Parameter>, name: string, value: string): (r: seq<Parameter>)
    ensures |params| <= |r| <= |params| + 1 && r[..|params|] == params
    ensures forall q :: q in r <==> q in params || q == Parameter(name, value)
    ensures NoDuplicates(params) ==> NoDuplicates(r)
  {
    if ParameterExists(params, name, value) then params else params + [Parameter(name, value)]
  }

  /** A parameter token is accepted iff it has an `=` with something on
      both sides of the first one. */
  predicate ValidParameterToken(t: string)
  {
    0 < IndexOf(t, '=') < |t| - 1
  }

  /** A token cut at its first `=`, so `a=b=c` has value `b=c`. */
  function TokenParameter(t: string): Parameter
  {
    var e := IndexOf(t, '=');
    Parameter(t[..e], if e < |t| then t[e + 1..] else "")
  }

  /** The parameter of every token, in token order. */
  function TokenParameters(tokens: seq<string>): (r: seq<Parameter>)
    ensures |r| == |tokens|
    ensures forall k :: 0 <= k < |tokens| ==> r[k] == TokenParameter(tokens[k])
  {
    seq(|tokens|, k requires 0 <= k < |tokens| => TokenParameter(tokens[k]))
  }

  /** The parameter loop of the generic parser, over the tokens still to
      read, with the parameters collected so far in `acc`: it fails iff some
      token is malformed, and otherwise only appends to `acc`. */
  function AddParameterTokens(tokens: seq<string>, acc: seq<Parameter>): (r: Result<seq<Parameter>>)
    ensures r.Failure? ==> r.status == InvProp
    ensures r.Success? <==> forall k :: 0 <= k < |tokens| ==> ValidParameterToken(tokens[k])
    ensures r.Success? ==> |acc| <= |r.value| && r.value[..|acc|] == acc
    ensures r.Success? && NoDuplicates(acc) ==> NoDuplicates(r.value)
    ensures r.Success? && (forall q :: q in acc ==> WellFormedParameter(q)) ==>
      forall q :: q in r.value ==> WellFormedParameter(q)
    ensures r.Success? ==> HoldsTokens(r.value, acc, tokens)
    ensures r.Success? && NoDuplicates(acc) ==> r.value == Dedup(acc + TokenParameters(tokens))
    decreases |tokens|
  {
    if |tokens| == 0 then
      DedupDistinct(acc);
      assert acc + TokenParameters(tokens) == acc;
      Success(acc)
    else
      var t := tokens[0];
      ValidTokensStep(tokens);
      var e := IndexOf(t, '=');
      if e == |t| then Failure(InvProp)
      else if e == 0 || e + 1 == |t| then Failure(InvProp)
      else
        var q := TokenParameter(t);
        var next := AddParameter(acc, q.name, q.value);
        var r := AddParameterTokens(tokens[1..], next);
        if r.Failure? then r
        else
          assert q == Parameter(q.name, q.value) && |q.name| > 0 && |q.value| > 0;
          PrefixStep(acc, next, r.value);
          TokenMembersStep(tokens, acc, next, r.value);
          TokenOrderStep(tokens, acc, next);
          r
  }

  /** Every token is valid iff the first one is and every later one is. */
  lemma ValidTokensStep(tokens: seq<string>)
    requires |tokens| > 0
    ensures (forall k :: 0 <= k < |tokens| ==> ValidParameterToken(tokens[k]))
      <==> ValidParameterToken(tokens[0]) && forall k :: 0 <= k < |tokens[1..]| ==> ValidParameterToken(tokens[1..][k])
  {
    assert forall k :: 1 <= k < |tokens| ==> tokens[k] == tokens[1..][k - 1];
  }

  lemma PrefixStep<T>(a: seq<T>, b: seq<T>, c: seq<T>)
    requires |a| <= |b| && b[..|a|] == a
    requires |b| <= |c| && c[..|b|] == b
    ensures |a| <= |c| && c[..|a|] == a
  {
    assert c[..|a|] == c[..|b|][..|a|];
  }

  /** `rv` holds exactly the parameters of `acc` and those the tokens
      spell, each token cut at its first `=`. */
  ghost predicate HoldsTokens(rv: seq<Parameter>, acc: seq<Parameter>, tokens: seq<string>)
  {
    forall q :: q in rv <==> q in acc || exists t :: t in tokens && q == TokenParameter(t)
  }

  /** One pass of the parameter loop: what the first token adds and what
      the remaining tokens add together are what all the tokens add. */
  lemma TokenMembersStep(tokens: seq<string>, acc: seq<Parameter>, next: seq<Parameter>, rv: seq<Parameter>)
    requires |tokens| > 0
    requires forall q :: q in next <==> q in acc || q == TokenParameter(tokens[0])
    requires HoldsTokens(rv, next, tokens[1..])
    ensures HoldsTokens(rv, acc, tokens)
  {
    assert tokens == [tokens[0]] + tokens[1..];
    forall q
      ensures q in rv <==> q in acc || exists t :: t in tokens && q == TokenParameter(t)
    {
      if exists t :: t in tokens && q == TokenParameter(t) {
        var t :| t in tokens && q == TokenParameter(t);
        assert t == tokens[0] || t in tokens[1..];
      }
    }
  }

  /** One pass of the parameter loop keeps the first occurrences in
      order: a parameter already collected is dropped, a new one appended. */
  lemma TokenOrderStep(tokens: seq<string>, acc: seq<Parameter>, next: seq<Parameter>)
    requires |tokens| > 0
    requires next == AddParameter(acc, TokenParameter(tokens[0]).name, TokenParameter(tokens[0]).value)
    ensures Dedup(next + TokenParameters(tokens[1..])) == Dedup(acc + TokenParameters(tokens))
  {
    var q := TokenParameter(tokens[0]);
    var rest := TokenParameters(tokens[1..]);
    TokenParametersCons(tokens);
    AppendAssoc(acc, [q], rest);
    assert q == Parameter(q.name, q.value);
    if q in acc {
      assert next == acc;
      DedupAbsorb(acc, q, rest);
    } else {
      assert next == acc + [q];
    }
  }

  lemma TokenParametersCons(tokens: seq<string>)
    requires |tokens| > 0
    ensures TokenParameters(tokens) == [TokenParameter(tokens[0])] + TokenParameters(tokens[1..])
  {
    var r := TokenParameters(tokens);
    var s := [TokenParameter(tokens[0])] + TokenParameters(tokens[1..]);
    assert |r| == |s|;
    forall k | 0 <= k < |r|
      ensures r[k] == s[k]
    {
      if k > 0 {
        assert s[k] == TokenParameters(tokens[1..])[k - 1] == TokenParameter(tokens[1..][k - 1]);
      }
    }
  }

  /** The parameters come out in the order `strtok` returns their tokens,
      each kept at its first occurrence. */
  lemma ParametersInTokenOrder(raw: string)
    ensures ParseParameters(raw).Success? ==>
      ParseParameters(raw).value == Dedup(TokenParameters(Strtok(raw, ';')))
  {
    var tokens := Tokens(raw, ';');
    var r := AddParameterTokens(tokens, []);
    assert ParseParameters(raw) == r;
    assert NoDuplicates<Parameter>([]);
    assert [] + TokenParameters(tokens) == TokenParameters(tokens);
    TokensAreStrtok(raw, ';');
  }

  /** The parameter string after the property name: split on `;` with empty
      tokens skipped, every token well formed, duplicates dropped. */
  function ParseParameters(raw: string): (r: Result<seq<Parameter>>)
    ensures r.Failure? ==> r.status == InvProp
    ensures r.Success? <==> forall t :: t in Tokens(raw, ';') ==> ValidParameterToken(t)
    ensures r.Success? ==> NoDuplicates(r.value) && forall q :: q in r.value ==> WellFormedParameter(q)
    ensures r.Success? ==> forall q :: q in r.value <==> exists t :: t in Tokens(raw, ';') && q == TokenParameter(t)
  {
    AddParameterTokens(Tokens(raw, ';'), [])
  }

  /** Values are split on `;` for the structured properties N, ADR and TEL
      (exact, case-sensitive names) and on `,` for every other name. */
  function ValueDelimiter(name: string): (d: char)
    ensures d == ';' <==> name == "N" || name == "ADR" || name == "TEL"
    ensures d == ';' || d == ','
  {
    if name == "N" || name == "ADR" || name == "TEL" then ';' else ','
  }

  /** The text before a property line's first colon, cut into its parts. */
  datatype Head = Head(group: string, name: string, rawParams: string)

  /** `s` cut at its first `;`: the name is everything before it and the
      raw parameters everything after it (nothing when there is no `;`). */
  predicate CutAtSemicolon(s: string, name: string, raw: string)
  {
    && ';' !in name
    && s == name + (if ';' in s then ";" + raw else "")
    && (';' !in s ==> raw == "")
  }

  /** The name runs to the first `;`, and the parameters are the rest. */
  function SplitNameAndParameters(s: string): (r: (string, string))
    ensures CutAtSemicolon(s, r.0, r.1)
    ensures forall ch :: ch !in s ==> ch !in r.0
  {
    var semi := IndexOf(s, ';');
    if semi < |s| then
      assert s == s[..semi] + [s[semi]] + s[semi + 1..];
      (s[..semi], s[semi + 1..])
    else (s, "")
  }

  /** The group is everything before the first `.` anywhere in the head
      (even inside a parameter), the name runs from there to the first `;`,
      and the parameters are the rest. */
  function SplitHead(head: string): (h: Head)
    ensures '.' !in h.group && ';' !in h.name
    ensures forall ch :: ch !in head ==> ch !in h.group && ch !in h.name
    ensures '.' !in head ==> h.group == "" && CutAtSemicolon(head, h.name, h.rawParams)
    ensures '.' in head ==>
      && |h.group| < |head| && head[..|h.group|] == h.group && head[|h.group|] == '.'
      && CutAtSemicolon(head[|h.group| + 1..], h.name, h.rawParams)
  {
    var dot := IndexOf(head, '.');
    var group := if dot < |head| then head[..dot] else "";
    var nameAndParams := if dot < |head| then head[dot + 1..] else head;
    var np := SplitNameAndParameters(nameAndParams);
    Head(group, np.0, np.1)
  }

  /** How the generic parser's result follows from the head before the
      colon and the text after it: it succeeds iff the head has a name and
      well-formed parameter tokens, and then the property has the head's
      group, name and parameters, and values that are delimiter-free and
      join back, with the name's delimiter, to exactly the text. */
  predicate PropertyFromHead(r: Result<Property>, head: string, text: string)
  {
    var h := SplitHead(head);
    && (r.Success? <==> |h.name| > 0 && ParseParameters(h.rawParams).Success?)
    && (r.Success? ==>
          && r.value.group == h.group && r.value.name == h.name
          && r.value.parameters == ParseParameters(h.rawParams).value
          && Join(r.value.values, [ValueDelimiter(h.name)]) == text
          && (forall v :: v in r.value.values ==> ValueDelimiter(h.name) !in v))
  }

  /** The generic field parser: the head before the first `:` gives group,
      name and parameters, and the text after the colon is split into
      values. */
  function ParseProperty(line: string): (r: Result<Property>)
    requires ':' in line
    ensures PropertyFromHead(r, line[..IndexOf(line, ':')], line[IndexOf(line, ':') + 1..])
    ensures r.Failure? ==> r.status == InvProp
    ensures r.Success? ==> WellFormedProperty(r.value)
  {
    var c := IndexOf(line, ':');
    PropertyOf(line[..c], line[c + 1..])
  }

  /** A property from the head before the colon and the text after it. */
  function PropertyOf(head: string, text: string): (r: Result<Property>)
    requires ':' !in head
    ensures r.Failure? ==> r.status == InvProp
    ensures r.Success? ==> WellFormedProperty(r.value)
    ensures PropertyFromHead(r, head, text)
  {
    var h := SplitHead(head);
    if |h.name| == 0 then Failure(InvProp)
    else
      match ParseParameters(h.rawParams)
      case Failure(e) => Failure(e)
      case Success(ps) => Success(Property(h.name, h.group, ps, Split(text, ValueDelimiter(h.name))))
  }

  /** What a parsed property keeps of its line: no group with a `.` or
      `:`, no name with a `:` or `;`, and values that join back, with the
      name's delimiter, to exactly the text after the first colon. */
  lemma ParsedPropertyText(line: string)
    requires ':' in line && ParseProperty(line).Success?
    ensures var p := ParseProperty(line).value;
      && '.' !in p.group && ':' !in p.group && ':' !in p.name && ';' !in p.name
      && Join(p.values, [ValueDelimiter(p.name)]) == line[IndexOf(line, ':') + 1..]
      && forall v :: v in p.values ==> ValueDelimiter(p.name) !in v
  {
    var c := IndexOf(line, ':');
    var head := line[..c];
    assert ':' !in head;
    var h := SplitHead(head);
    var r := ParseProperty(line);
    assert PropertyFromHead(r, head, line[c + 1..]);
    assert r.value.group == h.group && r.value.name == h.name;
  }

  /** How a parsed date value relates to the text after the colon: a text
      date keeps it whole; otherwise it is the date, then `T` and the time,
      then `Z` exactly when UTC is set, where the date runs to the first `T`
      and the time is empty only when there is no `T` to cut at or the date
      is a `--` partial date kept whole. */
  predicate DateRecovers(dt: DateTime, value: string)
  {
    if dt.isText then
      dt.text == value && dt.date == "" && dt.time == "" && !dt.utc
    else
      var z := if dt.utc then "Z" else "";
      && dt.text == ""
      && (dt.utc <==> EndsWith(value, "Z"))
      && ((value == dt.date + z && dt.time == "" && ('T' !in dt.date || StartsWith(dt.date, "--")))
          || (value == dt.date + "T" + dt.time + z && 'T' !in dt.date && !StartsWith(dt.date, "--")))
  }

  /** A non-text date value (its trailing `Z` already removed) cut into
      date and time: a `--` partial date is kept whole, anything else is cut
      at its first `T`. */
  function SplitDateTime(rest: string, utc: bool): (dt: DateTime)
    ensures !dt.isText && dt.utc == utc && dt.text == ""
    ensures || (rest == dt.date && dt.time == "" && ('T' !in rest || StartsWith(rest, "--")))
            || (rest == dt.date + "T" + dt.time && 'T' !in dt.date && !StartsWith(dt.date, "--"))
  {
    if StartsWith(rest, "--") then DateTime(utc, false, rest, "", "")
    else
      var t := IndexOf(rest, 'T');
      if t < |rest| then
        assert rest[t] == 'T' && rest == rest[..t] + [rest[t]] + rest[t + 1..];
        assert StartsWith(rest[..t], "--") ==> StartsWith(rest, "--");
        DateTime(utc, false, rest[..t], rest[t + 1..], "")
      else DateTime(utc, false, rest, "", "")
  }

  /** The value after the colon of a date line, read as text or as a
      date/time with an optional trailing `Z`. */
  function ParseDateValue(isText: bool, value: string): (dt: DateTime)
    ensures dt.isText == isText && DateRecovers(dt, value)
  {
    if isText then DateTime(false, true, "", "", value)
    else
      var utc := |value| > 0 && value[|value| - 1] == 'Z';
      var rest := if utc then value[..|value| - 1] else value;
      assert value == rest + (if utc then "Z" else "");
      assert utc <==> EndsWith(value, "Z") by {
        if |value| > 0 {
          assert value[|value| - 1..] == [value[|value| - 1]];
        }
      }
      SplitDateTime(rest, utc)
  }

  /** The parameter that marks a date as free text. */
  const TextMarker := "VALUE=text"

  /** The birthday/anniversary sub-parser: a colon is required, and
      `VALUE=text` anywhere before it makes the value free text. */
  function ParseDate(line: string): (r: Result<DateTime>)
    ensures r.Failure? <==> ':' !in line || IndexOf(line, ':') == 0
    ensures r.Failure? ==> r.status == InvCard
    ensures r.Success? ==> (r.value.isText <==> Contains(line[..IndexOf(line, ':')], TextMarker))
    ensures r.Success? ==> DateRecovers(r.value, line[IndexOf(line, ':') + 1..])
  {
    var c := IndexOf(line, ':');
    if c == |line| || c == 0 then Failure(InvCard)
    else Success(ParseDateValue(Contains(line[..c], TextMarker), line[c + 1..]))
  }

  predicate IsDateLine(line: string)
  {
    StartsWith(line, "BDAY") || StartsWith(line, "ANNIVERSARY")
  }

  predicate IsHeaderLine(line: string)
  {
    StartsWith(line, "BEGIN:VCARD") || StartsWith(line, "VERSION:4.0") || StartsWith(line, "END:VCARD")
  }

  /** Applies one logical line to the card. The full-name flag of the
      original is `card.fn.Some?`: it is raised exactly when `fn` is set. */
  function CreateCardHelper(line: string, card: Card): (r: Result<Card>)
    ensures r.Failure? ==>
      || (r.status == InvCard && IsDateLine(line) && ':' !in line)
      || (r.status == InvProp && ':' in line)
    ensures r.Success? && ParsedShape(card) ==> ParsedShape(r.value)
    ensures r.Success? && card.fn.Some? ==> r.value.fn == card.fn
    ensures r.Success? && r.value.fn != card.fn ==> StartsWith(line, "FN:") && r.value.fn == Some(FnProperty(line[3..]))
    ensures r.Success? ==>
      && |card.optionalProperties| <= |r.value.optionalProperties| <= |card.optionalProperties| + 1
      && r.value.optionalProperties[..|card.optionalProperties|] == card.optionalProperties
    ensures r.Success? && !StartsWith(line, "BDAY") ==> r.value.birthday == card.birthday
    ensures r.Success? && !StartsWith(line, "ANNIVERSARY") ==> r.value.anniversary == card.anniversary
  {
    if StartsWith(line, "FN:") && card.fn.None? then
      Success(card.(fn := Some(FnProperty(line[3..]))))
    else if IsDateLine(line) then
      match ParseDate(line)
      case Failure(e) => Failure(e)
      case Success(dt) =>
        if StartsWith(line, "BDAY") then Success(card.(birthday := Some(dt)))
        else Success(card.(anniversary := Some(dt)))
    else if ':' in line then
      if IsHeaderLine(line) then Success(card)
      else if StartsWith(line, "FN") then Failure(InvProp)
      else
        match ParseProperty(line)
        case Failure(e) => Failure(e)
        case Success(p) =>
          AppendedShape(card, p);
          Success(card.(optionalProperties := card.optionalProperties + [p]))
    else Success(card)
  }

  lemma AppendedShape(card: Card, p: Property)
    requires WellFormedProperty(p)
    ensures ParsedShape(card) ==> ParsedShape(card.(optionalProperties := card.optionalProperties + [p]))
    ensures (card.optionalProperties + [p])[..|card.optionalProperties|] == card.optionalProperties
  {
    assert (card.optionalProperties + [p])[..|card.optionalProperties|] == card.optionalProperties;
  }

  /** The first `FN:` line becomes the name property, with the rest of the
      line as its single value. */
  lemma FirstFnLineSetsName(line: string, card: Card)
    requires StartsWith(line, "FN:") && card.fn.None?
    ensures CreateCardHelper(line, card) == Success(card.(fn := Some(FnProperty(line[3..]))))
  {
  }

  /** Any other line that starts with `FN` and has a colon is rejected: a
      second `FN:` line, or `FN;param:` at any time. */
  lemma OtherFnLineRejected(line: string, card: Card)
    requires StartsWith(line, "FN") && ':' in line
    requires !(StartsWith(line, "FN:") && card.fn.None?)
    ensures CreateCardHelper(line, card) == Failure(InvProp)
  {
    PrefixesDisagree(line, "FN", "BDAY", 0);
    PrefixesDisagree(line, "FN", "ANNIVERSARY", 0);
    PrefixesDisagree(line, "FN", "BEGIN:VCARD", 0);
    PrefixesDisagree(line, "FN", "VERSION:4.0", 0);
    PrefixesDisagree(line, "FN", "END:VCARD", 0);
  }

  /** A birthday line sets the birthday to the parsed date, whatever an
      earlier birthday line set (the last one wins), or fails as the date
      parser does; nothing else changes. */
  lemma BirthdayLineSets(line: string, card: Card)
    requires StartsWith(line, "BDAY")
    ensures ParseDate(line).Failure? ==> CreateCardHelper(line, card) == Failure(ParseDate(line).status)
    ensures ParseDate(line).Success? ==> CreateCardHelper(line, card) == Success(card.(birthday := Some(ParseDate(line).value)))
  {
    PrefixesDisagree(line, "BDAY", "FN:", 0);
  }

  /** The same for an anniversary line. */
  lemma AnniversaryLineSets(line: string, card: Card)
    requires StartsWith(line, "ANNIVERSARY")
    ensures ParseDate(line).Failure? ==> CreateCardHelper(line, card) == Failure(ParseDate(line).status)
    ensures ParseDate(line).Success? ==> CreateCardHelper(line, card) == Success(card.(anniversary := Some(ParseDate(line).value)))
  {
    PrefixesDisagree(line, "ANNIVERSARY", "FN:", 0);
    PrefixesDisagree(line, "ANNIVERSARY", "BDAY", 0);
  }

  /** Header lines reaching the field parser (a second `VERSION:4.0`, say)
      are accepted and change nothing; so is any line without a colon that
      is not a date line. */
  lemma IgnoredLinesChangeNothing(line: string, card: Card)
    requires IsHeaderLine(line) || (':' !in line && !IsDateLine(line))
    ensures CreateCardHelper(line, card) == Success(card)
  {
    if StartsWith(line, "BEGIN:VCARD") {
      PrefixMember(line, "BEGIN:VCARD", ':');
      PrefixesDisagree(line, "BEGIN:VCARD", "FN:", 0);
      PrefixesDisagree(line, "BEGIN:VCARD", "BDAY", 1);
      PrefixesDisagree(line, "BEGIN:VCARD", "ANNIVERSARY", 0);
    } else if StartsWith(line, "VERSION:4.0") {
      PrefixMember(line, "VERSION:4.0", ':');
      PrefixesDisagree(line, "VERSION:4.0", "FN:", 0);
      PrefixesDisagree(line, "VERSION:4.0", "BDAY", 0);
      PrefixesDisagree(line, "VERSION:4.0", "ANNIVERSARY", 0);
    } else if StartsWith(line, "END:VCARD") {
      PrefixMember(line, "END:VCARD", ':');
      PrefixesDisagree(line, "END:VCARD", "FN:", 0);
      PrefixesDisagree(line, "END:VCARD", "BDAY", 0);
      PrefixesDisagree(line, "END:VCARD", "ANNIVERSARY", 0);
    } else {
      PrefixMember(line, "FN:", ':');
    }
  }

  /** A line for the generic parser appends the parsed property at the end
      of the list and leaves everything else alone, or fails with the
      parser's error. */
  lemma GenericLineAppends(line: string, card: Card)
    requires ':' in line && !IsDateLine(line) && !IsHeaderLine(line) && !StartsWith(line, "FN")
    ensures CreateCardHelper(line, card).Success? <==> ParseProperty(line).Success?
    ensures ParseProperty(line).Success? ==>
      CreateCardHelper(line, card) == Success(card.(optionalProperties := card.optionalProperties + [ParseProperty(line).value]))
  {
    assert !StartsWith(line, "FN:") by {
      assert StartsWith("FN:", "FN");
      if StartsWith(line, "FN:") {
        PrefixOfPrefix(line, "FN", "FN:");
      }
    }
  }
}
