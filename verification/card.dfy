/** The contact-card data model: a card owns one mandatory full-name (FN)
    property, an optional birthday and anniversary, and an ordered list of
    further properties. Linked lists of the original become sequences, and
    a missing pointer becomes `None`. */
module CardModel {

  datatype Option<T> = None | Some(value: T)

  /** The error codes of the card library (`VCardErrorCode`). */
  datatype Status = Ok | InvFile | InvCard | InvProp | InvDt | WriteError

  /** An operation's value, or the code it failed with. */
  datatype Result<T> = Success(value: T) | Failure(status: Status)

  datatype Parameter = Parameter(name: string, value: string)

  /** One property line: `group.name;param=value;...:value,value,...`. */
  datatype Property = Property(name: string, group: string, parameters: seq<Parameter>, values: seq<string>)

  /** A birthday or anniversary: either free text or a date/time split into
      its date part, its time part and a trailing-`Z` (UTC) flag. */
  datatype DateTime = DateTime(utc: bool, isText: bool, date: string, time: string, text: string)

  datatype Card = Card(
    fn: Option<Property>,
    optionalProperties: seq<Property>,
    birthday: Option<DateTime>,
    anniversary: Option<DateTime>)

  /** The card the parser starts from: nothing seen yet. */
  const EmptyCard := Card(None, [], None, None)

  /** The property the parser builds for the first `FN:` line. */
  function FnProperty(value: string): Property
  {
    Property("FN", "", [], [value])
  }

  predicate NoDuplicates<T(==)>(xs: seq<T>)
  {
    forall i, j :: 0 <= i < j < |xs| ==> xs[i] != xs[j]
  }

  /** The list with every element kept at its first occurrence only. */
  function Dedup<T(==)>(xs: seq<T>): seq<T>
    decreases |xs|
  {
    if |xs| == 0 then []
    else
      var init := xs[..|xs| - 1];
      if xs[|xs| - 1] in init then Dedup(init) else Dedup(init) + [xs[|xs| - 1]]
  }

  /** Deduplicating keeps every element and repeats none. */
  lemma {:induction false} DedupMembers<T(!new)>(xs: seq<T>)
    ensures NoDuplicates(Dedup(xs))
    ensures forall x :: x in Dedup(xs) <==> x in xs
    decreases |xs|
  {
    if |xs| > 0 {
      var init := xs[..|xs| - 1];
      DedupMembers(init);
      assert xs == init + [xs[|xs| - 1]];
      assert forall x :: x in xs <==> x in init || x == xs[|xs| - 1];
    }
  }

  /** A list without duplicates is its own deduplication. */
  lemma {:induction false} DedupDistinct<T(!new)>(xs: seq<T>)
    ensures NoDuplicates(xs) ==> Dedup(xs) == xs
    decreases |xs|
  {
    if |xs| > 0 && NoDuplicates(xs) {
      var init := xs[..|xs| - 1];
      assert NoDuplicates(init);
      DedupDistinct(init);
      assert xs[|xs| - 1] !in init;
      assert init + [xs[|xs| - 1]] == xs;
    }
  }

  /** An element already present further left leaves no trace. */
  lemma {:induction false} DedupAbsorb<T(!new)>(acc: seq<T>, q: T, rest: seq<T>)
    requires q in acc
    ensures Dedup(acc + [q] + rest) == Dedup(acc + rest)
    decreases |rest|
  {
    if |rest| == 0 {
      assert acc + [q] + rest == acc + [q];
      assert (acc + [q])[..|acc|] == acc;
      assert acc + rest == acc;
    } else {
      var init := rest[..|rest| - 1];
      var y := rest[|rest| - 1];
      var x1 := acc + [q] + init;
      var x2 := acc + init;
      assert acc + [q] + rest == x1 + [y];
      assert acc + rest == x2 + [y];
      assert (x1 + [y])[..|x1|] == x1;
      assert (x2 + [y])[..|x2|] == x2;
      assert y in x1 <==> y in x2;
      DedupAbsorb(acc, q, init);
    }
  }

  predicate WellFormedParameter(q: Parameter)
  {
    |q.name| > 0 && |q.value| > 0
  }

  /** What every property built by the generic field parser satisfies. */
  predicate WellFormedProperty(p: Property)
  {
    && |p.name| > 0
    && |p.values| >= 1
    && (forall q :: q in p.parameters ==> WellFormedParameter(q))
    && NoDuplicates(p.parameters)
  }

  /** The shape of every card the parser builds: the name property, when
      present, is a plain `FN` with one value, and every other property is
      well formed. */
  predicate ParsedShape(card: Card)
  {
    && (card.fn.Some? ==> |card.fn.value.values| == 1 && card.fn.value == FnProperty(card.fn.value.values[0]))
    && (forall p :: p in card.optionalProperties ==> WellFormedProperty(p))
  }
}
