/** ItinerarySchema (analyze.py:10-14) and its use at analyze.py:82-86: the parsed
    model output is accepted only when it has the four declared fields with the
    declared types, and is then reduced to exactly those fields. */
module Schema {
  import opened Wrappers
  import opened Json
  import opened Errors

  /** The validated result, as `model_dump` returns it. */
  datatype Itinerary = Itinerary(
    destination: string,
    priceRange: string,
    idealVisitTimes: seq<string>,
    topAttractions: seq<string>)

  const DestinationField := "destination"
  const PriceRangeField := "price_range"
  const VisitTimesField := "ideal_visit_times"
  const AttractionsField := "top_attractions"
  const SchemaKeys: set<string> := {DestinationField, PriceRangeField, VisitTimesField, AttractionsField}

  /** The bounds the schema puts on the length of `destination`. */
  const MinDestinationLength := 1
  const MaxDestinationLength := 120

  predicate WellFormed(it: Itinerary) {
    MinDestinationLength <= |it.destination| <= MaxDestinationLength
  }

  /** A list whose every item is a string; its length is not constrained. */
  predicate IsStringList(v: Json) {
    v.JArr? && forall i :: 0 <= i < |v.items| ==> v.items[i].JStr?
  }

  /** What the schema accepts, stated field by field. */
  predicate Conforms(obj: Json) {
    && obj.JObj?
    && DestinationField in obj.fields
    && obj.fields[DestinationField].JStr?
    && MinDestinationLength <= |obj.fields[DestinationField].s| <= MaxDestinationLength
    && PriceRangeField in obj.fields
    && obj.fields[PriceRangeField].JStr?
    && VisitTimesField in obj.fields
    && IsStringList(obj.fields[VisitTimesField])
    && AttractionsField in obj.fields
    && IsStringList(obj.fields[AttractionsField])
  }

  /** The complaints about a plain string field. */
  function StringViolations(fields: map<string, Json>, name: string): seq<Violation> {
    if name !in fields then [Missing(name)]
    else if !fields[name].JStr? then [NotAString(name)]
    else []
  }

  /** The complaints about `destination`: a string field with bounded length. */
  function DestinationViolations(fields: map<string, Json>): seq<Violation> {
    if DestinationField !in fields then [Missing(DestinationField)]
    else if !fields[DestinationField].JStr? then [NotAString(DestinationField)]
    else if |fields[DestinationField].s| < MinDestinationLength then [TooShort(DestinationField)]
    else if |fields[DestinationField].s| > MaxDestinationLength then [TooLong(DestinationField)]
    else []
  }

  /** One complaint per item of `items` that is not a string, in item order; `offset`
      is the list index of `items[0]`. */
  function ItemViolations(name: string, items: seq<Json>, offset: nat): (r: seq<Violation>)
    ensures r == [] <==> forall i :: 0 <= i < |items| ==> items[i].JStr?
    ensures forall v :: v in r ==> v.ItemNotAString? && v.field == name
  {
    if items == [] then []
    else
      var rest := ItemViolations(name, items[1..], offset + 1);
      if items[0].JStr? then rest else [ItemNotAString(name, offset)] + rest
  }

  /** Every item that is not a string gets exactly its own complaint, and there is no
      other complaint. */
  lemma {:induction false} ItemViolationsExact(name: string, items: seq<Json>, offset: nat)
    ensures forall i :: 0 <= i < |items| && !items[i].JStr? ==>
      ItemNotAString(name, offset + i) in ItemViolations(name, items, offset)
    ensures forall v :: v in ItemViolations(name, items, offset) ==>
      && v.ItemNotAString? && v.field == name && offset <= v.index < offset + |items|
      && !items[v.index - offset].JStr?
  {
    if items != [] {
      ItemViolationsExact(name, items[1..], offset + 1);
      var rest := ItemViolations(name, items[1..], offset + 1);
      forall i | 0 <= i < |items| && !items[i].JStr?
        ensures ItemNotAString(name, offset + i) in ItemViolations(name, items, offset)
      {
        if i > 0 {
          assert items[1..][i - 1] == items[i];
          assert ItemNotAString(name, offset + 1 + (i - 1)) in rest;
        }
      }
      forall v | v in ItemViolations(name, items, offset)
        ensures && v.ItemNotAString? && v.field == name && offset <= v.index < offset + |items|
                && !items[v.index - offset].JStr?
      {
        if v in rest {
          assert items[1..][v.index - offset - 1] == items[v.index - offset];
        }
      }
    }
  }

  /** The complaints about a list-of-strings field. */
  function ListViolations(fields: map<string, Json>, name: string): seq<Violation> {
    if name !in fields then [Missing(name)]
    else if !fields[name].JArr? then [NotAList(name)]
    else ItemViolations(name, fields[name].items, 0)
  }

  /** Every complaint about `obj`, in the order the schema declares its fields. */
  function Violations(obj: Json): (r: seq<Violation>)
    ensures r == [] <==> Conforms(obj)
    ensures NotAnObject in r <==> !obj.JObj?
  {
    if !obj.JObj? then [NotAnObject]
    else
      DestinationViolations(obj.fields)
      + StringViolations(obj.fields, PriceRangeField)
      + ListViolations(obj.fields, VisitTimesField)
      + ListViolations(obj.fields, AttractionsField)
  }

  /** The strings of a list that holds only strings. */
  function StringsOf(items: seq<Json>): (r: seq<string>)
    requires forall i :: 0 <= i < |items| ==> items[i].JStr?
    ensures |r| == |items|
    ensures forall i :: 0 <= i < |items| ==> items[i] == JStr(r[i])
  {
    seq(|items|, i requires 0 <= i < |items| => items[i].s)
  }

  /** A list of strings as a JSON list. */
  function StringList(xs: seq<string>): (r: Json)
    ensures IsStringList(r) && |r.items| == |xs|
    ensures forall i :: 0 <= i < |xs| ==> r.items[i] == JStr(xs[i])
  {
    JArr(seq(|xs|, i requires 0 <= i < |xs| => JStr(xs[i])))
  }

  /** `model_dump`: the itinerary as a mapping with exactly the four schema fields. */
  function Dump(it: Itinerary): (r: Json)
    ensures r.JObj? && r.fields.Keys == SchemaKeys
  {
    JObj(map[
      DestinationField := JStr(it.destination),
      PriceRangeField := JStr(it.priceRange),
      VisitTimesField := StringList(it.idealVisitTimes),
      AttractionsField := StringList(it.topAttractions)])
  }

  /** The four schema fields of an object; any other key is dropped. */
  function SchemaFields(obj: Json): map<string, Json>
    requires obj.JObj?
  {
    map k | k in obj.fields && k in SchemaKeys
      :: obj.fields[k]
  }

  /** `ItinerarySchema.model_validate(obj).model_dump()`: accepted objects become an
      itinerary that keeps the four schema fields unchanged and drops every other key;
      anything else fails with all of its field complaints and no partial result. */
  function Validate(obj: Json): (r: Result<Itinerary, Error>)
    ensures r.Success? <==> Conforms(obj)
    ensures r.Success? ==> WellFormed(r.value) && Dump(r.value) == JObj(SchemaFields(obj))
    ensures r.Failure? ==> Violations(obj) != [] && r.error == SchemaMismatch(Violations(obj))
  {
    var complaints := Violations(obj);
    if complaints != [] then Failure(SchemaMismatch(complaints))
    else
      var fields := obj.fields;
      var it := Itinerary(
        fields[DestinationField].s,
        fields[PriceRangeField].s,
        StringsOf(fields[VisitTimesField].items),
        StringsOf(fields[AttractionsField].items));
      DumpOfConforming(obj, it);
      Success(it)
  }

  /** A list of strings rebuilt from its strings is the same list. */
  lemma StringListOfStrings(items: seq<Json>)
    requires forall i :: 0 <= i < |items| ==> items[i].JStr?
    ensures StringList(StringsOf(items)) == JArr(items)
  {
    assert StringList(StringsOf(items)).items == items;
  }

  lemma DumpOfConforming(obj: Json, it: Itinerary)
    requires Conforms(obj)
    requires it.destination == obj.fields[DestinationField].s
    requires it.priceRange == obj.fields[PriceRangeField].s
    requires it.idealVisitTimes == StringsOf(obj.fields[VisitTimesField].items)
    requires it.topAttractions == StringsOf(obj.fields[AttractionsField].items)
    ensures Dump(it) == JObj(SchemaFields(obj))
  {
    StringListOfStrings(obj.fields[VisitTimesField].items);
    StringListOfStrings(obj.fields[AttractionsField].items);
    var kept := SchemaFields(obj);
    assert kept.Keys == {DestinationField, PriceRangeField, VisitTimesField, AttractionsField};
  }

  /** The dump of a well-formed itinerary has exactly the schema's keys and itself
      conforms to the schema. */
  lemma DumpConforms(it: Itinerary)
    requires WellFormed(it)
    ensures Dump(it).fields.Keys == SchemaKeys
    ensures Conforms(Dump(it))
  {
    var items := Dump(it).fields[VisitTimesField].items;
    assert items == StringList(it.idealVisitTimes).items;
    items := Dump(it).fields[AttractionsField].items;
    assert items == StringList(it.topAttractions).items;
  }

  /** Different itineraries dump to different mappings. */
  lemma DumpInjective(a: Itinerary, b: Itinerary)
    requires Dump(a) == Dump(b)
    ensures a == b
  {
    var da, db := Dump(a).fields, Dump(b).fields;
    assert da[DestinationField] == db[DestinationField];
    assert da[PriceRangeField] == db[PriceRangeField];
    assert da[VisitTimesField] == db[VisitTimesField];
    assert da[AttractionsField] == db[AttractionsField];
    StringListInjective(a.idealVisitTimes, b.idealVisitTimes);
    StringListInjective(a.topAttractions, b.topAttractions);
  }

  lemma StringListInjective(xs: seq<string>, ys: seq<string>)
    requires StringList(xs) == StringList(ys)
    ensures xs == ys
  {
    assert forall i :: 0 <= i < |xs| ==> JStr(xs[i]) == StringList(ys).items[i];
  }

  /** Round trip: a well-formed itinerary, dumped and validated again, is itself.
      List lengths play no part, so empty lists are accepted too. */
  lemma ValidateDump(it: Itinerary)
    requires WellFormed(it)
    ensures Validate(Dump(it)) == Success(it)
  {
    var obj := Dump(it);
    assert Conforms(obj);
    var back := Validate(obj).value;
    assert SchemaFields(obj) == obj.fields;
    DumpInjective(back, it);
  }

  /** No list length is checked: an itinerary with no visit times and no attractions
      is accepted. */
  lemma EmptyListsAccepted(destination: string, priceRange: string)
    requires MinDestinationLength <= |destination| <= MaxDestinationLength
    ensures Validate(JObj(map[DestinationField := JStr(destination), PriceRangeField := JStr(priceRange),
                              VisitTimesField := JArr([]), AttractionsField := JArr([])]))
         == Success(Itinerary(destination, priceRange, [], []))
  {
    var it := Itinerary(destination, priceRange, [], []);
    assert StringList([]) == JArr([]);
    ValidateDump(it);
  }

  /** Keys outside the schema do not affect validation. */
  lemma ExtraKeysIgnored(fields: map<string, Json>, key: string, value: Json)
    requires key !in SchemaKeys
    ensures Validate(JObj(fields[key := value])) == Validate(JObj(fields))
  {
    var a, b := JObj(fields[key := value]), JObj(fields);
    assert Violations(a) == Violations(b);
    if Conforms(b) {
      assert SchemaFields(a) == SchemaFields(b);
      DumpInjective(Validate(a).value, Validate(b).value);
    }
  }

  /** An object holding only a destination is rejected with one complaint for each
      missing field. */
  lemma OnlyDestinationRejected(destination: string)
    requires MinDestinationLength <= |destination| <= MaxDestinationLength
    ensures Validate(JObj(map[DestinationField := JStr(destination)]))
         == Failure(SchemaMismatch([Missing(PriceRangeField), Missing(VisitTimesField), Missing(AttractionsField)]))
  {
    var fields := map[DestinationField := JStr(destination)];
    assert DestinationViolations(fields) == [];
    assert StringViolations(fields, PriceRangeField) == [Missing(PriceRangeField)];
    assert ListViolations(fields, VisitTimesField) == [Missing(VisitTimesField)];
    assert ListViolations(fields, AttractionsField) == [Missing(AttractionsField)];
    assert Violations(JObj(fields)) == [Missing(PriceRangeField), Missing(VisitTimesField), Missing(AttractionsField)];
    assert !Conforms(JObj(fields));
  }

  /** A destination longer than the bound is rejected even when everything else fits. */
  lemma OverlongDestinationRejected(it: Itinerary)
    requires |it.destination| > MaxDestinationLength
    ensures Validate(Dump(it)) == Failure(SchemaMismatch([TooLong(DestinationField)]))
  {
    var obj := Dump(it);
    assert DestinationViolations(obj.fields) == [TooLong(DestinationField)];
    assert StringViolations(obj.fields, PriceRangeField) == [];
    assert obj.fields[VisitTimesField] == StringList(it.idealVisitTimes);
    assert obj.fields[AttractionsField] == StringList(it.topAttractions);
    assert ListViolations(obj.fields, VisitTimesField) == [];
    assert ListViolations(obj.fields, AttractionsField) == [];
    assert Violations(obj) == [TooLong(DestinationField)];
    assert !Conforms(obj);
  }
}
