/** Card validation (validateCard in src/VCParser.c): the checks a card
    must pass before it is written, and the status code each failed check
    returns. The faithful, loop-shaped `CheckProperties` is specified by the
    declarative `PropertyStatus`, `FirstInvalid` and `KindCount`. */
module Validator {
  import opened Strings
  import opened CardModel

  predicate IsDateName(name: string)
  {
    EqualsIgnoreCase(name, "BDAY") || EqualsIgnoreCase(name, "ANNIVERSARY")
  }

  predicate IsKind(p: Property)
  {
    EqualsIgnoreCase(p.name, "KIND")
  }

  /** The number of KIND properties, whatever their case. */
  function KindCount(props: seq<Property>): nat
  {
    if |props| == 0 then 0 else (if IsKind(props[0]) then 1 else 0) + KindCount(props[1..])
  }

  /** The code one optional property fails with on its own, or `Ok`. */
  function PropertyStatus(p: Property): (r: Status)
    ensures r == Ok <==>
      && |p.name| > 0 && !EqualsIgnoreCase(p.name, "VERSION") && !IsDateName(p.name)
      && |p.values| > 0 && (forall q :: q in p.parameters ==> WellFormedParameter(q))
    ensures r == InvCard <==> EqualsIgnoreCase(p.name, "VERSION")
    ensures r == InvDt <==> IsDateName(p.name)
    ensures r in {Ok, InvCard, InvDt, InvProp}
  {
    if |p.name| == 0 then InvProp
    else if EqualsIgnoreCase(p.name, "VERSION") then InvCard
    else if IsDateName(p.name) then InvDt
    else if |p.values| == 0 || !(forall q :: q in p.parameters ==> WellFormedParameter(q)) then InvProp
    else Ok
  }

  /** The inner loop over one property's parameters. */
  function ParametersOk(params: seq<Parameter>): (r: bool)
    ensures r <==> forall q :: q in params ==> WellFormedParameter(q)
  {
    if |params| == 0 then true
    else
      var q := params[0];
      if |q.name| == 0 || |q.value| == 0 then
        assert !WellFormedParameter(q) && q in params;
        false
      else
        assert forall x :: x in params ==> x == q || x in params[1..];
        ParametersOk(params[1..])
  }

  /** Index of the first property that fails on its own, or `|props|`. */
  function FirstInvalid(props: seq<Property>): (i: nat)
    ensures i <= |props|
    ensures forall k :: 0 <= k < i ==> PropertyStatus(props[k]) == Ok
    ensures i < |props| ==> PropertyStatus(props[i]) != Ok
  {
    if |props| == 0 then 0
    else if PropertyStatus(props[0]) != Ok then 0
    else 1 + FirstInvalid(props[1..])
  }

  /** The loop over the optional properties, `kinds` KIND properties
      counted so far: the first failing property decides the result;
      otherwise more than one KIND is INV_PROP. */
  function CheckProperties(props: seq<Property>, kinds: nat): (r: Status)
    ensures FirstInvalid(props) < |props| ==> r == PropertyStatus(props[FirstInvalid(props)])
    ensures FirstInvalid(props) == |props| ==> r == (if kinds + KindCount(props) > 1 then InvProp else Ok)
  {
    if |props| == 0 then (if kinds > 1 then InvProp else Ok)
    else
      var p := props[0];
      if |p.name| == 0 then InvProp
      else if EqualsIgnoreCase(p.name, "VERSION") then InvCard
      else if EqualsIgnoreCase(p.name, "BDAY") || EqualsIgnoreCase(p.name, "ANNIVERSARY") then InvDt
      else
        var kinds' := if EqualsIgnoreCase(p.name, "KIND") then kinds + 1 else kinds;
        if |p.values| == 0 then InvProp
        else if !ParametersOk(p.parameters) then InvProp
        else CheckProperties(props[1..], kinds')
  }

  /** What a valid birthday or anniversary looks like: text with no date,
      time or UTC flag, or a date and/or time with no text. */
  predicate DateValid(dt: DateTime)
  {
    if dt.isText then |dt.date| == 0 && |dt.time| == 0 && !dt.utc && |dt.text| > 0
    else |dt.text| == 0 && (|dt.date| > 0 || |dt.time| > 0)
  }

  function DateStatus(dt: DateTime): (r: Status)
    ensures r == Ok <==> DateValid(dt)
    ensures r != Ok ==> r == InvDt
  {
    if dt.isText then
      if |dt.date| > 0 || |dt.time| > 0 || dt.utc then InvDt
      else if |dt.text| == 0 then InvDt
      else Ok
    else if |dt.text| > 0 then InvDt
    else if |dt.date| == 0 && |dt.time| == 0 then InvDt
    else Ok
  }

  predicate OptionalDateValid(d: Option<DateTime>)
  {
    d.Some? ==> DateValid(d.value)
  }

  /** Everything validation demands of a card. */
  predicate CardIsValid(card: Option<Card>)
  {
    && card.Some?
    && card.value.fn.Some? && |card.value.fn.value.values| > 0
    && (forall p :: p in card.value.optionalProperties ==> PropertyStatus(p) == Ok)
    && KindCount(card.value.optionalProperties) <= 1
    && OptionalDateValid(card.value.birthday)
    && OptionalDateValid(card.value.anniversary)
  }

  /** validateCard. A missing card or name is INV_CARD; then the first
      failing optional property decides; then several KIND properties are
      INV_PROP; then the birthday and the anniversary, in that order, are
      INV_DT when malformed. */
  function ValidateCard(card: Option<Card>): (r: Status)
    ensures r == Ok <==> CardIsValid(card)
    ensures card.None? ==> r == InvCard
    ensures card.Some? && (card.value.fn.None? || |card.value.fn.value.values| == 0) ==> r == InvCard
    ensures card.Some? && card.value.fn.Some? && |card.value.fn.value.values| > 0 ==>
      var props := card.value.optionalProperties;
      && (FirstInvalid(props) < |props| ==> r == PropertyStatus(props[FirstInvalid(props)]))
      && (FirstInvalid(props) == |props| && KindCount(props) > 1 ==> r == InvProp)
      && (FirstInvalid(props) == |props| && KindCount(props) <= 1 ==>
            r == (if OptionalDateValid(card.value.birthday) && OptionalDateValid(card.value.anniversary)
                  then Ok else InvDt))
  {
    if card.None? then InvCard
    else
      var c := card.value;
      if c.fn.None? || |c.fn.value.values| == 0 then InvCard
      else
        var s := CheckProperties(c.optionalProperties, 0);
        if s != Ok then s
        else if c.birthday.Some? && DateStatus(c.birthday.value) != Ok then InvDt
        else if c.anniversary.Some? && DateStatus(c.anniversary.value) != Ok then InvDt
        else Ok
  }

  /** What validation can still reject in a card the parser built: the
      parser never leaves an empty name, value list or parameter, so it is
      a VERSION, BDAY or ANNIVERSARY property stored as an ordinary one
      (a line the field parser does not take for a date or header line:
      `bday:...` in lower case, a grouped `x.BDAY:...`, or a `VERSION:3.0`),
      a second KIND, or a malformed date. */
  lemma ParsedCardValidation(card: Card)
    requires ParsedShape(card) && card.fn.Some?
    ensures ValidateCard(Some(card)) == Ok <==>
      && (forall p :: p in card.optionalProperties ==>
            !EqualsIgnoreCase(p.name, "VERSION") && !IsDateName(p.name))
      && KindCount(card.optionalProperties) <= 1
      && OptionalDateValid(card.birthday) && OptionalDateValid(card.anniversary)
    ensures ValidateCard(Some(card)) == InvProp ==> KindCount(card.optionalProperties) > 1
  {
    var props := card.optionalProperties;
    forall p | p in props
      ensures PropertyStatus(p) == Ok <==> !EqualsIgnoreCase(p.name, "VERSION") && !IsDateName(p.name)
    {
      assert WellFormedProperty(p);
    }
    var i := FirstInvalid(props);
    if i < |props| {
      assert WellFormedProperty(props[i]);
    }
  }
}
