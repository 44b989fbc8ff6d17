/**
 * The field schema loaded from the folder's JSON file: each field's JSON
 * Schema keywords that the review screen reads, the `group_id` rule that puts
 * a field in one of three review sections, and the categorisation of a whole
 * schema into those sections.
 */
module Schema {
  import opened Wrappers

  /** A value listed under `enum`. */
  datatype EnumValue = EnumNumber(n: int) | EnumString(s: string) | EnumBool(b: bool) | EnumNull

  /**
   * The keywords read from the first alternative of a field's `anyOf`:
   * `enum`, `format`, `type`, `minimum`, `maximum` and `items.enum`. A keyword
   * whose value is not of the expected JSON kind reads as None.
   */
  datatype Constraint = Constraint(
    enumValues: Option<seq<EnumValue>>,
    format: Option<string>,
    typeName: Option<string>,
    minimum: Option<int>,
    maximum: Option<int>,
    itemsEnum: Option<seq<EnumValue>>)

  /**
   * One field of the schema. An absent `anyOf` and an empty one read the same
   * (`field.anyOf[0]` is undefined either way); a non-string `group_id` reads
   * as None, since it never equals a group literal.
   */
  datatype Field = Field(anyOf: seq<Constraint>, groupId: Option<string>)

  /** A field under its name; a schema's fields are a list of these with distinct names. */
  datatype Entry = Entry(name: string, field: Field)

  /**
   * A parsed schema document: its `properties` object when it has one, and the
   * members of the document itself, each read as a field.
   */
  datatype JsonDoc = JsonDoc(properties: Option<seq<Entry>>, members: seq<Entry>)

  /** The kind of input control a manual-input field gets. */
  datatype FieldType = Select | Date | Number | Text

  /** The three review sections. */
  datatype Bucket = HighConfidence | DoubleCheck | ManualInput

  /** `field.anyOf && field.anyOf[0]`. */
  function FirstConstraint(f: Field): Option<Constraint> {
    if |f.anyOf| > 0 then Some(f.anyOf[0]) else None
  }

  /**
   * `getFieldType`: an `enum` wins over a date format, which wins over a
   * numeric type, and anything else is text. A select offers exactly the
   * `enum` list; any other field offers the `items.enum` list when its first
   * alternative has one, and nothing otherwise. The bounds are the first
   * alternative's `minimum` and `maximum`, and a field with no first `anyOf`
   * alternative is a text input with no options and no bounds.
   */
  function GetFieldType(f: Field): (r: FieldType)
    ensures r == Select <==> FirstConstraint(f).Some? && FirstConstraint(f).value.enumValues.Some?
    ensures r == Date <==>
              && FirstConstraint(f).Some?
              && FirstConstraint(f).value.enumValues.None?
              && FirstConstraint(f).value.format == Some("date")
    ensures r == Number <==>
              && FirstConstraint(f).Some?
              && FirstConstraint(f).value.enumValues.None?
              && FirstConstraint(f).value.format != Some("date")
              && FirstConstraint(f).value.typeName in {Some("number"), Some("integer")}
    ensures r == Select ==> GetFieldOptions(f) == FirstConstraint(f).value.enumValues.value
    ensures r != Select ==>
              GetFieldOptions(f) == if FirstConstraint(f).Some? && FirstConstraint(f).value.itemsEnum.Some?
                                    then FirstConstraint(f).value.itemsEnum.value else []
    ensures FirstConstraint(f).Some? ==>
              GetFieldMin(f) == FirstConstraint(f).value.minimum && GetFieldMax(f) == FirstConstraint(f).value.maximum
    ensures FirstConstraint(f).None? ==>
              r == Text && GetFieldOptions(f) == [] && GetFieldMin(f).None? && GetFieldMax(f).None?
  {
    match FirstConstraint(f)
    case None => Text
    case Some(c) =>
      if c.enumValues.Some? then Select
      else if c.format == Some("date") then Date
      else if c.typeName == Some("number") || c.typeName == Some("integer") then Number
      else Text
  }

  /** `getFieldOptions`: the `enum` list, else the `items.enum` list, else none. */
  function GetFieldOptions(f: Field): seq<EnumValue> {
    match FirstConstraint(f)
    case None => []
    case Some(c) =>
      if c.enumValues.Some? then c.enumValues.value
      else if c.itemsEnum.Some? then c.itemsEnum.value
      else []
  }

  /** `getFieldMin`. */
  function GetFieldMin(f: Field): Option<int> {
    match FirstConstraint(f)
    case None => None
    case Some(c) => c.minimum
  }

  /** `getFieldMax`. */
  function GetFieldMax(f: Field): Option<int> {
    match FirstConstraint(f)
    case None => None
    case Some(c) => c.maximum
  }

  /**
   * The section a `group_id` selects: only `group_4` asks for manual input,
   * only `group_2` and `group_5` for a double check, and every other value,
   * `group_1`, `group_3` and anything unrecognised, means high confidence.
   */
  function BucketOf(groupId: Option<string>): (b: Bucket)
    ensures b == ManualInput <==> groupId == Some("group_4")
    ensures b == DoubleCheck <==> groupId in {Some("group_2"), Some("group_5")}
    ensures b == HighConfidence <==> groupId !in {Some("group_2"), Some("group_4"), Some("group_5")}
  {
    if groupId == Some("group_1") || groupId == Some("group_3") then HighConfidence
    else if groupId == Some("group_2") || groupId == Some("group_5") then DoubleCheck
    else if groupId == Some("group_4") then ManualInput
    else HighConfidence
  }

  /** `this.jsonData.properties || this.jsonData`. */
  function FieldsOf(doc: JsonDoc): seq<Entry> {
    if doc.properties.Some? then doc.properties.value else doc.members
  }

  /** The names of a list of entries. */
  function Names(entries: seq<Entry>): set<string> {
    set i | 0 <= i < |entries| :: entries[i].name
  }

  /** No two entries share a name, as with the keys of a JSON object. */
  predicate DistinctNames(entries: seq<Entry>) {
    forall i, j :: 0 <= i < j < |entries| ==> entries[i].name != entries[j].name
  }

  /** A document whose field list is an object's key set. */
  predicate WellFormed(doc: JsonDoc) {
    DistinctNames(FieldsOf(doc))
  }

  /** The field stored under `name`, if any. */
  function Lookup(entries: seq<Entry>, name: string): Option<Field> {
    if entries == [] then None
    else if entries[|entries| - 1].name == name then Some(entries[|entries| - 1].field)
    else Lookup(entries[..|entries| - 1], name)
  }

  /** `this.categorizedFields`: one field map per section. */
  datatype CategorizedFields = CategorizedFields(
    highConfidence: map<string, Field>,
    doubleCheck: map<string, Field>,
    manualInput: map<string, Field>)

  const NoCategories := CategorizedFields(map[], map[], map[])

  /** The map of one section. */
  function Section(c: CategorizedFields, b: Bucket): map<string, Field> {
    match b
    case HighConfidence => c.highConfidence
    case DoubleCheck => c.doubleCheck
    case ManualInput => c.manualInput
  }

  /** One step of `categorizeFields`: file the entry's field under its name in its section. */
  function Place(c: CategorizedFields, e: Entry): CategorizedFields {
    match BucketOf(e.field.groupId)
    case HighConfidence => c.(highConfidence := c.highConfidence[e.name := e.field])
    case DoubleCheck => c.(doubleCheck := c.doubleCheck[e.name := e.field])
    case ManualInput => c.(manualInput := c.manualInput[e.name := e.field])
  }

  /** The result of `categorizeFields` on a field list: empty sections, then one Place per field. */
  function Categorize(entries: seq<Entry>): CategorizedFields {
    if entries == [] then NoCategories
    else Place(Categorize(entries[..|entries| - 1]), entries[|entries| - 1])
  }

  /** The three section totals and their sum, as `updateFieldCounts` computes them. */
  function TotalFields(c: CategorizedFields): nat {
    |c.highConfidence| + |c.doubleCheck| + |c.manualInput|
  }

  lemma NamesOfPrefix(entries: seq<Entry>)
    requires entries != []
    ensures Names(entries) == Names(entries[..|entries| - 1]) + {entries[|entries| - 1].name}
  {
    var init := entries[..|entries| - 1];
    assert forall i :: 0 <= i < |init| ==> init[i] == entries[i];
  }

  lemma {:induction false} LookupFindsNames(entries: seq<Entry>, name: string)
    ensures Lookup(entries, name).Some? <==> name in Names(entries)
  {
    if entries != [] {
      NamesOfPrefix(entries);
      LookupFindsNames(entries[..|entries| - 1], name);
    }
  }

  /** The last entry of a list with distinct names is not named earlier. */
  lemma LastNameIsNew(entries: seq<Entry>)
    requires DistinctNames(entries) && entries != []
    ensures DistinctNames(entries[..|entries| - 1])
    ensures Lookup(entries[..|entries| - 1], entries[|entries| - 1].name).None?
  {
    var init, e := entries[..|entries| - 1], entries[|entries| - 1];
    LookupFindsNames(init, e.name);
    assert forall i :: 0 <= i < |init| ==> init[i] == entries[i];
  }

  /**
   * Every field of a schema lands in exactly one section, the one its
   * `group_id` selects, under its own name and with its own definition; a
   * section holds nothing else.
   */
  lemma {:induction false} CategorizePlacesEachField(entries: seq<Entry>)
    requires DistinctNames(entries)
    ensures forall name, b :: name in Section(Categorize(entries), b) <==>
              Lookup(entries, name).Some? && BucketOf(Lookup(entries, name).value.groupId) == b
    ensures forall name, b :: name in Section(Categorize(entries), b) ==>
              Section(Categorize(entries), b)[name] == Lookup(entries, name).value
  {
    if entries != [] {
      var init, e := entries[..|entries| - 1], entries[|entries| - 1];
      LastNameIsNew(entries);
      CategorizePlacesEachField(init);
      var c := Categorize(init);
      forall name, b
        ensures name in Section(Place(c, e), b) <==>
                  Lookup(entries, name).Some? && BucketOf(Lookup(entries, name).value.groupId) == b
        ensures name in Section(Place(c, e), b) ==> Section(Place(c, e), b)[name] == Lookup(entries, name).value
      {
        if name == e.name {
          assert name !in Section(c, b);
        }
      }
    }
  }

  /**
   * The sections are pairwise disjoint and together hold exactly the schema's
   * field names.
   */
  lemma CategorizeIsPartition(entries: seq<Entry>)
    requires DistinctNames(entries)
    ensures Categorize(entries).highConfidence.Keys !! Categorize(entries).doubleCheck.Keys
    ensures Categorize(entries).highConfidence.Keys !! Categorize(entries).manualInput.Keys
    ensures Categorize(entries).doubleCheck.Keys !! Categorize(entries).manualInput.Keys
    ensures Categorize(entries).highConfidence.Keys + Categorize(entries).doubleCheck.Keys
              + Categorize(entries).manualInput.Keys == Names(entries)
  {
    var c := Categorize(entries);
    CategorizePlacesEachField(entries);
    forall name
      ensures name in c.highConfidence <==> name in Section(c, HighConfidence)
      ensures name in c.doubleCheck <==> name in Section(c, DoubleCheck)
      ensures name in c.manualInput <==> name in Section(c, ManualInput)
      ensures name in Names(entries) <==> Lookup(entries, name).Some?
    {
      LookupFindsNames(entries, name);
    }
  }

  /** The total that `updateFieldCounts` shows is the number of fields in the schema. */
  lemma {:induction false} TotalIsFieldCount(entries: seq<Entry>)
    requires DistinctNames(entries)
    ensures TotalFields(Categorize(entries)) == |entries|
  {
    if entries != [] {
      var init, e := entries[..|entries| - 1], entries[|entries| - 1];
      LastNameIsNew(entries);
      TotalIsFieldCount(init);
      CategorizePlacesEachField(init);
      var c := Categorize(init);
      assert e.name !in c.highConfidence && e.name !in c.doubleCheck && e.name !in c.manualInput by {
        assert e.name !in Section(c, HighConfidence);
        assert e.name !in Section(c, DoubleCheck);
        assert e.name !in Section(c, ManualInput);
      }
    }
  }
}
