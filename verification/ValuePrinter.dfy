/**
  The value printer of the Assembly compiler: it accepts exactly the values that conform to their
  type, and writes map and object entries in ascending order.
 */
module ValuePrinter {
  import opened Basics
  import opened Strings
  import opened Sorting
  import opened AssemblyTypes
  import opened HclTokens

  predicate Blank(s: string) {
    TrimSpace(s) == ""
  }

  function ValuesOf(es: seq<ValueEntry>): seq<ValueSpec> {
    seq(|es|, i requires 0 <= i < |es| => es[i].value)
  }

  ghost predicate InsideValue(values: seq<ValueSpec>, within: ValueSpec) {
    forall i :: 0 <= i < |values| ==> values[i] < within
  }

  lemma {:induction false} SortedInside(value: ValueSpec, key: ValueEntry -> string)
    ensures InsideValue(ValuesOf(SortBy(value.entries, key)), value)
  {
    var sorted := SortBy(value.entries, key);
    SameElements(sorted, value.entries);
    forall i | 0 <= i < |sorted| ensures sorted[i].value < value {
      assert sorted[i] in value.entries;
      assert sorted[i] < value;
    }
  }

  // ------------------------------------------------------------------ the expression for a value

  /** The expression for `value` at type `spec`, or nothing when the value is refused. */
  function ValueText(lib: Library, spec: TypeSpec, value: ValueSpec): Option<Ast>
    decreases value, 1
  {
    if spec.kind == "string" then
      if value.kind != "scalar" then None
      else if Blank(value.literal) then Some(Name("null"))
      else Some(Str(value.literal))
    else if spec.kind in SCALAR_KINDS then
      if value.kind == "scalar" && lib.validExpression(value.literal) then Some(Raw(lib.kept(value.literal))) else None
    else if spec.kind == "tuple" then
      if value.kind != "list" || |value.items| != |spec.elements| then None
      else
        match AllSome(ValueTexts(lib, spec.elements, value.items, value))
        case Some(items) => Some(TupleOf(items))
        case None => None
    else if spec.kind == "list" || spec.kind == "set" then
      if value.kind != "list" || (value.items != [] && spec.element.None?) then None
      else
        match AllSome(ValueTexts(lib, Repeat(spec.element, |value.items|), value.items, value))
        case Some(items) => Some(TupleOf(items))
        case None => None
    else if spec.kind == "map" then
      if value.kind != "map" || spec.element.None? || !DistinctKeys(value.entries, EntryKey) then None
      else
        var sorted := SortBy(value.entries, EntryKey);
        SortedInside(value, EntryKey);
        match AllSome(ValueTexts(lib, Repeat(spec.element, |sorted|), ValuesOf(sorted), value))
        case Some(values) => Some(ObjectOf(MapEntries(sorted, values)))
        case None => None
    else if spec.kind == "object" then
      var table := AttributeTable(spec.attributes);
      if value.kind != "object" || !DistinctKeys(value.entries, EntryName)
         || !Declared(table, value.entries) || !RequiredPresent(table, value.entries) then None
      else
        var sorted := SortBy(value.entries, EntryName);
        SortedInside(value, EntryName);
        match AllSome(ValueTexts(lib, TypesOf(table, sorted), ValuesOf(sorted), value))
        case Some(values) => Some(ObjectOf(ObjectEntries(sorted, values)))
        case None => None
    else None
  }

  function ValueTexts(lib: Library, specs: seq<TypeSpec>, values: seq<ValueSpec>, within: ValueSpec): (r: seq<Option<Ast>>)
    requires |specs| == |values| && InsideValue(values, within)
    ensures |r| == |values|
    ensures forall i :: 0 <= i < |values| ==> r[i] == ValueText(lib, specs[i], values[i])
    decreases within, 0
  {
    seq(|values|, i requires 0 <= i < |values| => ValueText(lib, specs[i], values[i]))
  }

  function Repeat(t: Option<TypeSpec>, n: nat): (r: seq<TypeSpec>)
    requires n > 0 ==> t.Some?
    ensures |r| == n && forall i :: 0 <= i < n ==> r[i] == t.value
  {
    if n == 0 then [] else [t.value] + Repeat(t, n - 1)
  }

  predicate Declared(table: map<string, TypeAttribute>, es: seq<ValueEntry>) {
    forall i :: 0 <= i < |es| ==> es[i].name in table
  }

  predicate RequiredPresent(table: map<string, TypeAttribute>, es: seq<ValueEntry>) {
    forall n :: n in table && !table[n].isOptional ==> exists i :: 0 <= i < |es| && es[i].name == n
  }

  const NO_TYPE := TypeSpec("", None, [], [])

  /** The declared types of the entries; the default case does not occur for declared names. */
  function TypesOf(table: map<string, TypeAttribute>, es: seq<ValueEntry>): (r: seq<TypeSpec>)
    ensures |r| == |es|
    ensures forall i :: 0 <= i < |es| && es[i].name in table ==> r[i] == table[es[i].name].t
  {
    seq(|es|, i requires 0 <= i < |es| =>
      if es[i].name in table then table[es[i].name].t else NO_TYPE)
  }

  function MapEntries(es: seq<ValueEntry>, values: seq<Ast>): seq<Entry>
    requires |es| == |values|
  {
    seq(|es|, i requires 0 <= i < |es| => Entry(Str(es[i].key), values[i]))
  }

  function ObjectEntries(es: seq<ValueEntry>, values: seq<Ast>): seq<Entry>
    requires |es| == |values|
  {
    seq(|es|, i requires 0 <= i < |es| => Entry(Name(es[i].name), values[i]))
  }

  // ------------------------------------------------------------------ conformance

  /** What it means for a value to be of a type, without reference to order or text. */
  predicate Conforms(lib: Library, spec: TypeSpec, value: ValueSpec)
    decreases value
  {
    if spec.kind == "string" then value.kind == "scalar"
    else if spec.kind in SCALAR_KINDS then value.kind == "scalar" && lib.validExpression(value.literal)
    else if spec.kind == "tuple" then
      && value.kind == "list" && |value.items| == |spec.elements|
      && forall i :: 0 <= i < |value.items| ==> Conforms(lib, spec.elements[i], value.items[i])
    else if spec.kind == "list" || spec.kind == "set" then
      && value.kind == "list"
      && forall i :: 0 <= i < |value.items| ==> spec.element.Some? && Conforms(lib, spec.element.value, value.items[i])
    else if spec.kind == "map" then
      && value.kind == "map" && spec.element.Some? && DistinctKeys(value.entries, EntryKey)
      && forall i :: 0 <= i < |value.entries| ==> Conforms(lib, spec.element.value, value.entries[i].value)
    else if spec.kind == "object" then
      var table := AttributeTable(spec.attributes);
      && value.kind == "object" && DistinctKeys(value.entries, EntryName)
      && RequiredPresent(table, value.entries)
      && forall i :: 0 <= i < |value.entries| ==>
           value.entries[i].name in table && Conforms(lib, table[value.entries[i].name].t, value.entries[i].value)
    else false
  }

  /** Each value conforms to the type at its position. */
  ghost predicate AllConform(lib: Library, specs: seq<TypeSpec>, values: seq<ValueSpec>)
    requires |specs| == |values|
  {
    forall i :: 0 <= i < |values| ==> Conforms(lib, specs[i], values[i])
  }

  /** The printer accepts a value exactly when it conforms to its type, at every depth. */
  lemma {:induction false} AcceptsIffConforms(lib: Library, spec: TypeSpec, value: ValueSpec)
    ensures ValueText(lib, spec, value).Some? <==> Conforms(lib, spec, value)
    decreases value, 1
  {
    if spec.kind == "tuple" {
      if |value.items| == |spec.elements| {
        TextsAcceptIff(lib, spec.elements, value.items, value);
      }
    } else if spec.kind == "list" || spec.kind == "set" {
      if value.kind == "list" {
        ListAcceptsIff(lib, spec, value);
      }
    } else if spec.kind == "map" {
      MapAcceptsIff(lib, spec, value);
    } else if spec.kind == "object" {
      ObjectAcceptsIff(lib, spec, value);
    }
  }

  lemma {:induction false} TextsAcceptIff(lib: Library, specs: seq<TypeSpec>, values: seq<ValueSpec>, within: ValueSpec)
    requires |specs| == |values| && InsideValue(values, within)
    ensures AllSome(ValueTexts(lib, specs, values, within)).Some? <==> AllConform(lib, specs, values)
    decreases within, 0
  {
    hide Conforms, ValueText;
    forall i | 0 <= i < |values| ensures ValueText(lib, specs[i], values[i]).Some? <==> Conforms(lib, specs[i], values[i]) {
      AcceptsIffConforms(lib, specs[i], values[i]);
    }
  }

  lemma {:induction false} ListAcceptsIff(lib: Library, spec: TypeSpec, value: ValueSpec)
    requires (spec.kind == "list" || spec.kind == "set") && value.kind == "list"
    ensures ValueText(lib, spec, value).Some? <==> Conforms(lib, spec, value)
    decreases value, 1, 0
  {
    hide ValueText, ValueTexts;
    ListText(lib, spec, value);
    if value.items == [] || spec.element.Some? {
      var specs := Repeat(spec.element, |value.items|);
      TextsAcceptIff(lib, specs, value.items, value);
      assert forall i :: 0 <= i < |specs| ==> specs[i] == spec.element.value;
      ListConformsIff(lib, spec, value, specs);
    } else {
      NoElementType(lib, spec, value);
    }
  }

  lemma {:induction false} NoElementType(lib: Library, spec: TypeSpec, value: ValueSpec)
    requires (spec.kind == "list" || spec.kind == "set") && value.items != [] && spec.element.None?
    ensures !Conforms(lib, spec, value)
  {
    var first := value.items[0];
  }

  lemma {:induction false} ListConformsIff(lib: Library, spec: TypeSpec, value: ValueSpec, specs: seq<TypeSpec>)
    requires (spec.kind == "list" || spec.kind == "set") && value.kind == "list" && |specs| == |value.items|
    requires value.items != [] ==> spec.element.Some? && forall i :: 0 <= i < |specs| ==> specs[i] == spec.element.value
    ensures AllConform(lib, specs, value.items) <==> Conforms(lib, spec, value)
  {
    if AllConform(lib, specs, value.items) {
      forall i | 0 <= i < |value.items| ensures spec.element.Some? && Conforms(lib, spec.element.value, value.items[i]) {
        assert Conforms(lib, specs[i], value.items[i]);
      }
    }
  }

  lemma {:induction false} MapAcceptsIff(lib: Library, spec: TypeSpec, value: ValueSpec)
    requires spec.kind == "map"
    ensures ValueText(lib, spec, value).Some? <==> Conforms(lib, spec, value)
    decreases value, 1, 0
  {
    hide DistinctKeys, ValueTexts, SortBy;
    var sorted := SortBy(value.entries, EntryKey);
    if value.kind == "map" && spec.element.Some? {
      SortedInside(value, EntryKey);
      TextsAcceptIff(lib, Repeat(spec.element, |sorted|), ValuesOf(sorted), value);
      AllConformTo(lib, spec.element.value, sorted, value.entries);
    }
  }

  lemma {:induction false} AllConformTo(lib: Library, t: TypeSpec, es: seq<ValueEntry>, fs: seq<ValueEntry>)
    requires multiset(es) == multiset(fs)
    ensures AllConform(lib, Repeat(Some(t), |es|), ValuesOf(es))
       <==> forall i :: 0 <= i < |fs| ==> Conforms(lib, t, fs[i].value)
  {
    hide Conforms;
    SameElements(es, fs);
    if AllConform(lib, Repeat(Some(t), |es|), ValuesOf(es)) {
      forall e | e in es ensures Conforms(lib, t, e.value) {
        var i :| 0 <= i < |es| && es[i] == e;
        assert ValuesOf(es)[i] == e.value;
      }
    } else {
      var i :| 0 <= i < |es| && !Conforms(lib, t, es[i].value);
      assert es[i] in fs;
    }
  }

  lemma {:induction false} ObjectAcceptsIff(lib: Library, spec: TypeSpec, value: ValueSpec)
    requires spec.kind == "object"
    ensures ValueText(lib, spec, value).Some? <==> Conforms(lib, spec, value)
    decreases value, 1, 0
  {
    hide DistinctKeys, RequiredPresent, ValueTexts, SortBy, TypesOf, AttributeTable;
    var table := AttributeTable(spec.attributes);
    var sorted := SortBy(value.entries, EntryName);
    if value.kind == "object" && Declared(table, value.entries) {
      SortedInside(value, EntryName);
      TextsAcceptIff(lib, TypesOf(table, sorted), ValuesOf(sorted), value);
      AllConformToDeclared(lib, table, sorted, value.entries);
    }
  }

  lemma {:induction false} AllConformToDeclared(lib: Library, table: map<string, TypeAttribute>, es: seq<ValueEntry>, fs: seq<ValueEntry>)
    requires multiset(es) == multiset(fs) && Declared(table, fs)
    ensures AllConform(lib, TypesOf(table, es), ValuesOf(es))
       <==> forall i :: 0 <= i < |fs| ==> Conforms(lib, table[fs[i].name].t, fs[i].value)
  {
    hide Conforms;
    SameElements(es, fs);
    assert forall e :: e in es ==> e.name in table;
    if AllConform(lib, TypesOf(table, es), ValuesOf(es)) {
      forall e | e in es ensures Conforms(lib, table[e.name].t, e.value) {
        var i :| 0 <= i < |es| && es[i] == e;
        assert ValuesOf(es)[i] == e.value;
      }
    }
  }

  // ------------------------------------------------------------------ the order of entries

  function KeyText(e: Entry): string {
    match e.key
    case Str(s) => s
    case Name(n) => n
    case _ => ""
  }

  /** Every map or object in the text has strictly ascending keys. */
  ghost predicate Canonical(a: Ast) {
    match a
    case Call(_, args) => forall i :: 0 <= i < |args| ==> Canonical(args[i])
    case TupleOf(items) => forall i :: 0 <= i < |items| ==> Canonical(items[i])
    case ObjectOf(entries) =>
      Ascending(entries, KeyText) && forall i :: 0 <= i < |entries| ==> Canonical(entries[i].value)
    case _ => true
  }

  /** An accepted value comes out with its entries in strictly ascending order, at every depth. */
  lemma {:induction false} AcceptedIsCanonical(lib: Library, spec: TypeSpec, value: ValueSpec)
    requires ValueText(lib, spec, value).Some?
    ensures Canonical(ValueText(lib, spec, value).value)
    decreases value, 1
  {
    hide ValueTexts, SortBy, DistinctKeys, Ascending, AttributeTable, TypesOf;
    if spec.kind == "tuple" {
      TextsCanonical(lib, spec.elements, value.items, value);
    } else if spec.kind == "list" || spec.kind == "set" {
      TextsCanonical(lib, Repeat(spec.element, |value.items|), value.items, value);
    } else if spec.kind == "map" {
      var sorted := SortBy(value.entries, EntryKey);
      SortedInside(value, EntryKey);
      var specs := Repeat(spec.element, |sorted|);
      TextsCanonical(lib, specs, ValuesOf(sorted), value);
      MapEntriesAscend(value.entries, AllSome(ValueTexts(lib, specs, ValuesOf(sorted), value)).value);
    } else if spec.kind == "object" {
      var sorted := SortBy(value.entries, EntryName);
      SortedInside(value, EntryName);
      var specs := TypesOf(AttributeTable(spec.attributes), sorted);
      TextsCanonical(lib, specs, ValuesOf(sorted), value);
      ObjectEntriesAscend(value.entries, AllSome(ValueTexts(lib, specs, ValuesOf(sorted), value)).value);
    }
  }

  lemma {:induction false} TextsCanonical(lib: Library, specs: seq<TypeSpec>, values: seq<ValueSpec>, within: ValueSpec)
    requires |specs| == |values| && InsideValue(values, within)
    requires AllSome(ValueTexts(lib, specs, values, within)).Some?
    ensures var texts := AllSome(ValueTexts(lib, specs, values, within)).value;
            forall i :: 0 <= i < |texts| ==> Canonical(texts[i])
    decreases within, 0
  {
    hide ValueText, Canonical;
    forall i | 0 <= i < |values| ensures Canonical(ValueText(lib, specs[i], values[i]).value) {
      AcceptedIsCanonical(lib, specs[i], values[i]);
    }
  }

  lemma {:induction false} MapEntriesAscend(es: seq<ValueEntry>, values: seq<Ast>)
    requires DistinctKeys(es, EntryKey) && |values| == |es|
    ensures Ascending(MapEntries(SortBy(es, EntryKey), values), KeyText)
  {
    hide Less;
    SortByAscending(es, EntryKey);
  }

  lemma {:induction false} ObjectEntriesAscend(es: seq<ValueEntry>, values: seq<Ast>)
    requires DistinctKeys(es, EntryName) && |values| == |es|
    ensures Ascending(ObjectEntries(SortBy(es, EntryName), values), KeyText)
  {
    hide Less;
    SortByAscending(es, EntryName);
  }

  // ------------------------------------------------------------------ which values can be read back

  /** Scalars of these types are printed as they were typed. */
  predicate PrintedAsTyped(spec: TypeSpec, value: ValueSpec) {
    spec.kind in {"number", "bool", "any"} && value.kind == "scalar"
  }

  predicate BeginsFor(lib: Library, spec: TypeSpec, value: ValueSpec) {
    PrintedAsTyped(spec, value) && lib.startsFor(lib.kept(value.literal))
  }

  /** Text that takes nothing after it on its last line. */
  predicate NeedsLineEnd(lib: Library, spec: TypeSpec, value: ValueSpec) {
    PrintedAsTyped(spec, value) && !lib.standsAlone(lib.kept(value.literal))
  }

  function ItemSpec(spec: TypeSpec, i: nat): TypeSpec {
    if spec.kind == "tuple" then
      if i < |spec.elements| then spec.elements[i] else NO_TYPE
    else if spec.element.Some? then spec.element.value
    else NO_TYPE
  }

  function EntrySpec(spec: TypeSpec, e: ValueEntry): TypeSpec {
    if spec.kind == "object" then
      var table := AttributeTable(spec.attributes);
      if e.name in table then table[e.name].t else NO_TYPE
    else if spec.element.Some? then spec.element.value
    else NO_TYPE
  }

  /**
    At some depth, an object has `for` as the least name of its entries, a list or tuple has typed text
    beginning with `for` as its first item, or one of its items needs a line end.
   */
  ghost predicate Misread(lib: Library, spec: TypeSpec, value: ValueSpec)
    decreases value
  {
    if value.kind == "list" then
      || (value.items != [] && BeginsFor(lib, ItemSpec(spec, 0), value.items[0]))
      || exists i :: 0 <= i < |value.items| &&
           (NeedsLineEnd(lib, ItemSpec(spec, i), value.items[i]) || Misread(lib, ItemSpec(spec, i), value.items[i]))
    else if value.kind == "map" || value.kind == "object" then
      || (value.kind == "object" && LeastKeyIs(value.entries, EntryName, "for"))
      || exists i :: 0 <= i < |value.entries| && Misread(lib, EntrySpec(spec, value.entries[i]), value.entries[i].value)
    else false
  }

  lemma {:induction false} ValueToken(lib: Library, spec: TypeSpec, value: ValueSpec)
    requires ValueText(lib, spec, value).Some?
    ensures NamedFor(lib, ValueText(lib, spec, value).value) <==> BeginsFor(lib, spec, value)
    ensures Stands(lib, ValueText(lib, spec, value).value) <==> !NeedsLineEnd(lib, spec, value)
  {
  }

  /** The text of an accepted value reads as an expression exactly when nothing in the value is misread. */
  lemma {:induction false} ValueReadableIff(lib: Library, spec: TypeSpec, value: ValueSpec)
    requires ValueText(lib, spec, value).Some?
    ensures Readable(lib, ValueText(lib, spec, value).value) <==> !Misread(lib, spec, value)
    decreases value, 1
  {
    hide ValueTexts, SortBy, DistinctKeys, AttributeTable, TypesOf, LeastKeyIs;
    if spec.kind == "tuple" || spec.kind == "list" || spec.kind == "set" {
      ListReadableIff(lib, spec, value);
    } else if spec.kind == "map" {
      MapValueReadableIff(lib, spec, value);
    } else if spec.kind == "object" {
      ObjectValueReadableIff(lib, spec, value);
    }
  }

  lemma {:induction false} ListReadableIff(lib: Library, spec: TypeSpec, value: ValueSpec)
    requires spec.kind in {"tuple", "list", "set"} && ValueText(lib, spec, value).Some?
    ensures Readable(lib, ValueText(lib, spec, value).value) <==> !Misread(lib, spec, value)
    decreases value, 0, 2
  {
    hide ValueTexts, BeginsFor, NeedsLineEnd, Readable;
    var specs := if spec.kind == "tuple" then spec.elements else Repeat(spec.element, |value.items|);
    assert forall i :: 0 <= i < |value.items| ==> ItemSpec(spec, i) == specs[i];
    ItemsReadableIff(lib, specs, value.items, value);
  }

  lemma {:induction false} MapValueReadableIff(lib: Library, spec: TypeSpec, value: ValueSpec)
    requires spec.kind == "map" && ValueText(lib, spec, value).Some?
    ensures Readable(lib, ValueText(lib, spec, value).value) <==> !Misread(lib, spec, value)
    decreases value, 0, 1
  {
    hide ValueTexts, SortBy, DistinctKeys, Readable;
    var sorted := SortBy(value.entries, EntryKey);
    SortedInside(value, EntryKey);
    var specs := Repeat(spec.element, |sorted|);
    TextsReadableIff(lib, specs, ValuesOf(sorted), value);
    MapReadableIff(lib, sorted, AllSome(ValueTexts(lib, specs, ValuesOf(sorted), value)).value);
    SortedMisreadIff(lib, spec, value, EntryKey);
    SomeMisreadByValue(lib, spec, sorted, specs);
  }

  lemma {:induction false} ObjectValueReadableIff(lib: Library, spec: TypeSpec, value: ValueSpec)
    requires spec.kind == "object" && ValueText(lib, spec, value).Some?
    ensures Readable(lib, ValueText(lib, spec, value).value) <==> !Misread(lib, spec, value)
    decreases value, 0, 1
  {
    hide ValueText, ValueTexts, SortBy, DistinctKeys, Readable, AttributeTable, TypesOf, Declared, RequiredPresent, LeastKeyIs;
    ObjectKind(lib, spec, value);
    ObjectText(lib, spec, value);
    var sorted := SortBy(value.entries, EntryName);
    SortedInside(value, EntryName);
    var specs := TypesOf(AttributeTable(spec.attributes), sorted);
    TextsReadableIff(lib, specs, ValuesOf(sorted), value);
    ObjectReadableIff(lib, sorted, AllSome(ValueTexts(lib, specs, ValuesOf(sorted), value)).value);
    SortedMisreadIff(lib, spec, value, EntryName);
    DeclaredSpecs(lib, spec, value);
    SomeMisreadByValue(lib, spec, sorted, specs);
    SortedFirstIff(value.entries, EntryName, "for");
  }

  lemma {:induction false} ObjectKind(lib: Library, spec: TypeSpec, value: ValueSpec)
    requires spec.kind == "object" && ValueText(lib, spec, value).Some?
    ensures value.kind == "object"
  {
  }

  lemma {:induction false} DeclaredSpecs(lib: Library, spec: TypeSpec, value: ValueSpec)
    requires spec.kind == "object" && ValueText(lib, spec, value).Some?
    ensures var sorted := SortBy(value.entries, EntryName);
      forall i :: 0 <= i < |sorted| ==> TypesOf(AttributeTable(spec.attributes), sorted)[i] == EntrySpec(spec, sorted[i])
  {
    hide ValueTexts, SortBy, DistinctKeys, AttributeTable, RequiredPresent;
    SameElements(SortBy(value.entries, EntryName), value.entries);
    SortKeepsDeclared(AttributeTable(spec.attributes), value.entries);
  }

  lemma {:induction false} TextsReadableIff(lib: Library, specs: seq<TypeSpec>, values: seq<ValueSpec>, within: ValueSpec)
    requires |specs| == |values| && InsideValue(values, within)
    requires AllSome(ValueTexts(lib, specs, values, within)).Some?
    ensures var texts := AllSome(ValueTexts(lib, specs, values, within)).value;
      forall i :: 0 <= i < |texts| ==>
        && (Readable(lib, texts[i]) <==> !Misread(lib, specs[i], values[i]))
        && (NamedFor(lib, texts[i]) <==> BeginsFor(lib, specs[i], values[i]))
        && (Stands(lib, texts[i]) <==> !NeedsLineEnd(lib, specs[i], values[i]))
    decreases within, 0, 0
  {
    hide ValueText, Readable, Misread, NamedFor, Stands, BeginsFor, NeedsLineEnd;
    forall i | 0 <= i < |values|
      ensures ValueText(lib, specs[i], values[i]).Some?
      ensures var text := ValueText(lib, specs[i], values[i]).value;
        && (Readable(lib, text) <==> !Misread(lib, specs[i], values[i]))
        && (NamedFor(lib, text) <==> BeginsFor(lib, specs[i], values[i]))
        && (Stands(lib, text) <==> !NeedsLineEnd(lib, specs[i], values[i]))
    {
      assert ValueTexts(lib, specs, values, within)[i].Some?;
      ValueReadableIff(lib, specs[i], values[i]);
      ValueToken(lib, specs[i], values[i]);
    }
  }

  lemma {:induction false} ItemsReadableIff(lib: Library, specs: seq<TypeSpec>, values: seq<ValueSpec>, within: ValueSpec)
    requires |specs| == |values| && InsideValue(values, within)
    requires AllSome(ValueTexts(lib, specs, values, within)).Some?
    ensures Readable(lib, TupleOf(AllSome(ValueTexts(lib, specs, values, within)).value)) <==>
      && (values != [] ==> !BeginsFor(lib, specs[0], values[0]))
      && forall i :: 0 <= i < |values| ==> !NeedsLineEnd(lib, specs[i], values[i]) && !Misread(lib, specs[i], values[i])
    decreases within, 0, 1
  {
    hide ValueText, ValueTexts, Misread, NamedFor, Stands, BeginsFor, NeedsLineEnd;
    TextsReadableIff(lib, specs, values, within);
  }

  lemma {:induction false} MapReadableIff(lib: Library, es: seq<ValueEntry>, values: seq<Ast>)
    requires |es| == |values|
    ensures Readable(lib, ObjectOf(MapEntries(es, values))) <==> forall i :: 0 <= i < |values| ==> Readable(lib, values[i])
  {
    var entries := MapEntries(es, values);
    forall i | 0 <= i < |entries| ensures entries[i] == Entry(Str(es[i].key), values[i]) && ReadableInside(lib, entries[i].key) {
      assert Readable(lib, Str(es[i].key));
    }
  }

  lemma {:induction false} ObjectReadableIff(lib: Library, es: seq<ValueEntry>, values: seq<Ast>)
    requires |es| == |values|
    ensures Readable(lib, ObjectOf(ObjectEntries(es, values))) <==>
      (es != [] ==> es[0].name != "for") && forall i :: 0 <= i < |values| ==> Readable(lib, values[i])
  {
    var entries := ObjectEntries(es, values);
    forall i | 0 <= i < |entries| ensures entries[i] == Entry(Name(es[i].name), values[i]) && ReadableInside(lib, entries[i].key) {
      assert Readable(lib, Name(es[i].name));
    }
  }

  ghost predicate SomeMisread(lib: Library, spec: TypeSpec, es: seq<ValueEntry>) {
    exists i :: 0 <= i < |es| && Misread(lib, EntrySpec(spec, es[i]), es[i].value)
  }

  lemma {:induction false} SomeMisreadAmong(lib: Library, spec: TypeSpec, es: seq<ValueEntry>, fs: seq<ValueEntry>)
    requires SomeMisread(lib, spec, es) && forall e :: e in es ==> e in fs
    ensures SomeMisread(lib, spec, fs)
  {
    hide Misread, EntrySpec;
    var i :| 0 <= i < |es| && Misread(lib, EntrySpec(spec, es[i]), es[i].value);
    assert es[i] in fs;
    var j :| 0 <= j < |fs| && fs[j] == es[i];
  }

  /** Sorting the entries does not change which of their values are misread. */
  lemma {:induction false} SortedMisreadIff(lib: Library, spec: TypeSpec, value: ValueSpec, key: ValueEntry -> string)
    ensures SomeMisread(lib, spec, SortBy(value.entries, key)) <==> SomeMisread(lib, spec, value.entries)
  {
    hide SortBy, SomeMisread;
    var es, sorted := value.entries, SortBy(value.entries, key);
    SameElements(sorted, es);
    if SomeMisread(lib, spec, sorted) { SomeMisreadAmong(lib, spec, sorted, es); }
    if SomeMisread(lib, spec, es) { SomeMisreadAmong(lib, spec, es, sorted); }
  }

  lemma {:induction false} SomeMisreadByValue(lib: Library, spec: TypeSpec, es: seq<ValueEntry>, specs: seq<TypeSpec>)
    requires |specs| == |es| && forall i :: 0 <= i < |es| ==> specs[i] == EntrySpec(spec, es[i])
    ensures SomeMisread(lib, spec, es) <==> exists i :: 0 <= i < |es| && Misread(lib, specs[i], ValuesOf(es)[i])
  {
    hide Misread, EntrySpec;
    if i :| 0 <= i < |es| && Misread(lib, EntrySpec(spec, es[i]), es[i].value) {
      assert Misread(lib, specs[i], ValuesOf(es)[i]);
    }
  }

  // ------------------------------------------------------------------ the printer

  /** The first `|asts|` values have been rendered. */
  ghost predicate Rendered(lib: Library, specs: seq<TypeSpec>, values: seq<ValueSpec>, asts: seq<Ast>) {
    && |asts| <= |specs| && |asts| <= |values|
    && forall j :: 0 <= j < |asts| ==> ValueText(lib, specs[j], values[j]) == Some(asts[j])
  }

  lemma {:induction false} RenderedAll(lib: Library, specs: seq<TypeSpec>, values: seq<ValueSpec>, within: ValueSpec, asts: seq<Ast>)
    requires |specs| == |values| == |asts| && InsideValue(values, within)
    requires Rendered(lib, specs, values, asts)
    ensures AllSome(ValueTexts(lib, specs, values, within)) == Some(asts)
  {
    hide ValueText;
    var all := AllSome(ValueTexts(lib, specs, values, within));
    assert all.Some?;
    assert all.value == asts;
  }

  lemma {:induction false} RefusedAt(lib: Library, specs: seq<TypeSpec>, values: seq<ValueSpec>, within: ValueSpec, i: nat)
    requires |specs| == |values| && InsideValue(values, within) && i < |values|
    requires ValueText(lib, specs[i], values[i]).None?
    ensures AllSome(ValueTexts(lib, specs, values, within)).None?
  {
    hide ValueText;
  }

  method RenderValue(lib: Library, spec: TypeSpec, value: ValueSpec) returns (r: Option<Ast>)
    ensures r == ValueText(lib, spec, value)
    decreases value, 1
  {
    match spec.kind
    case "string" =>
      if value.kind != "scalar" {
        return None;
      }
      if Blank(value.literal) {
        return Some(Name("null"));
      }
      return Some(Str(value.literal));
    case "number" => r := RenderScalar(lib, spec, value);
    case "bool" => r := RenderScalar(lib, spec, value);
    case "any" => r := RenderScalar(lib, spec, value);
    case "list" => r := RenderItems(lib, spec, value);
    case "set" => r := RenderItems(lib, spec, value);
    case "tuple" => r := RenderItems(lib, spec, value);
    case "map" => r := RenderMap(lib, spec, value);
    case "object" => r := RenderObject(lib, spec, value);
    case _ => r := None;
  }

  method RenderScalar(lib: Library, spec: TypeSpec, value: ValueSpec) returns (r: Option<Ast>)
    requires spec.kind in {"number", "bool", "any"}
    ensures r == ValueText(lib, spec, value)
  {
    if value.kind != "scalar" {
      return None;
    }
    if !lib.validExpression(value.literal) {
      return None;
    }
    return Some(Raw(lib.kept(value.literal)));
  }

  lemma {:induction false} TupleText(lib: Library, spec: TypeSpec, value: ValueSpec)
    requires spec.kind == "tuple" && value.kind == "list"
    ensures ValueText(lib, spec, value) ==
      if |value.items| != |spec.elements| then None
      else match AllSome(ValueTexts(lib, spec.elements, value.items, value))
           case Some(items) => Some(TupleOf(items))
           case None => None
  {
  }

  lemma {:induction false} ListText(lib: Library, spec: TypeSpec, value: ValueSpec)
    requires spec.kind in {"list", "set"} && value.kind == "list"
    ensures ValueText(lib, spec, value) ==
      if value.items != [] && spec.element.None? then None
      else match AllSome(ValueTexts(lib, Repeat(spec.element, |value.items|), value.items, value))
           case Some(items) => Some(TupleOf(items))
           case None => None
  {
  }

  method RenderItems(lib: Library, spec: TypeSpec, value: ValueSpec) returns (r: Option<Ast>)
    requires spec.kind in {"list", "set", "tuple"}
    ensures r == ValueText(lib, spec, value)
    decreases value, 0, 1
  {
    if value.kind != "list" {
      return None;
    }
    if spec.kind == "tuple" {
      TupleText(lib, spec, value);
      if |value.items| != |spec.elements| {
        return None;
      }
      r := RenderEach(lib, spec.elements, value.items, value);
    } else {
      ListText(lib, spec, value);
      if value.items != [] && spec.element.None? {
        return None;
      }
      r := RenderEach(lib, Repeat(spec.element, |value.items|), value.items, value);
    }
  }

  /** Renders each value at its type; the first refusal refuses all. */
  method RenderEach(lib: Library, specs: seq<TypeSpec>, values: seq<ValueSpec>, ghost within: ValueSpec) returns (r: Option<Ast>)
    requires |specs| == |values| && InsideValue(values, within)
    ensures r == match AllSome(ValueTexts(lib, specs, values, within))
                 case Some(items) => Some(TupleOf(items))
                 case None => None
    decreases within, 0, 0
  {
    hide ValueText, ValueTexts;
    var items: seq<Ast> := [];
    for i := 0 to |values|
      invariant |items| == i && Rendered(lib, specs, values, items)
    {
      var item := RenderValue(lib, specs[i], values[i]);
      if item.None? {
        RefusedAt(lib, specs, values, within, i);
        return None;
      }
      items := items + [item.value];
    }
    RenderedAll(lib, specs, values, within, items);
    return Some(TupleOf(items));
  }

  /** The keys seen so far are those of the first `n` entries, which are distinct. */
  ghost predicate Seen(seen: set<string>, es: seq<ValueEntry>, n: nat, key: ValueEntry -> string) {
    n <= |es| && DistinctKeys(es[..n], key) && seen == set e | e in es[..n] :: key(e)
  }

  lemma {:induction false} SeeNext(seen: set<string>, es: seq<ValueEntry>, n: nat, key: ValueEntry -> string)
    requires n < |es| && Seen(seen, es, n, key) && key(es[n]) !in seen
    ensures Seen(seen + {key(es[n])}, es, n + 1, key)
  {
    assert es[..n + 1] == es[..n] + [es[n]];
    forall e | e in es[..n] ensures key(e) != key(es[n]) {}
  }

  lemma {:induction false} SeenTwice(seen: set<string>, es: seq<ValueEntry>, n: nat, key: ValueEntry -> string)
    requires n < |es| && Seen(seen, es, n, key) && key(es[n]) in seen
    ensures !DistinctKeys(es, key)
  {
    var e :| e in es[..n] && key(e) == key(es[n]);
    var i :| 0 <= i < n && es[..n][i] == e;
    assert key(es[i]) == key(es[n]);
  }

  lemma {:induction false} SortKeepsDistinct(es: seq<ValueEntry>, key: ValueEntry -> string)
    ensures DistinctKeys(es, key) <==> DistinctKeys(SortBy(es, key), key)
  {
    if DistinctKeys(es, key) {
      DistinctUnderReordering(es, SortBy(es, key), key);
    }
    if DistinctKeys(SortBy(es, key), key) {
      DistinctUnderReordering(SortBy(es, key), es, key);
    }
  }

  method RenderMap(lib: Library, spec: TypeSpec, value: ValueSpec) returns (r: Option<Ast>)
    requires spec.kind == "map"
    ensures r == ValueText(lib, spec, value)
    decreases value, 0
  {
    hide DistinctKeys, SortBy, ValueTexts, Seen;
    if value.kind != "map" || spec.element.None? {
      return None;
    }
    var sorted := SortBy(value.entries, EntryKey);
    SortedInside(value, EntryKey);
    SortKeepsDistinct(value.entries, EntryKey);
    ghost var specs := Repeat(spec.element, |sorted|);
    var entries: seq<Entry> := [];
    ghost var values: seq<Ast> := [];
    var seen: set<string> := {};
    StartSeen(sorted, EntryKey);
    for i := 0 to |sorted|
      invariant |values| == |entries| == i && entries == MapEntries(sorted[..i], values)
      invariant Rendered(lib, specs, ValuesOf(sorted), values)
      invariant Seen(seen, sorted, i, EntryKey)
    {
      if sorted[i].key in seen {
        SeenTwice(seen, sorted, i, EntryKey);
        return None;
      }
      SeeNext(seen, sorted, i, EntryKey);
      seen := seen + {sorted[i].key};
      assert ValuesOf(sorted)[i] < value;
      var item := RenderValue(lib, spec.element.value, sorted[i].value);
      if item.None? {
        RefusedAt(lib, specs, ValuesOf(sorted), value, i);
        return None;
      }
      values := values + [item.value];
      entries := entries + [Entry(Str(sorted[i].key), item.value)];
    }
    EndSeen(seen, sorted, EntryKey);
    RenderedAll(lib, specs, ValuesOf(sorted), value, values);
    assert sorted[..|sorted|] == sorted;
    return Some(ObjectOf(entries));
  }

  lemma {:induction false} StartSeen(es: seq<ValueEntry>, key: ValueEntry -> string)
    ensures Seen({}, es, 0, key)
  {
  }

  lemma {:induction false} EndSeen(seen: set<string>, es: seq<ValueEntry>, key: ValueEntry -> string)
    requires Seen(seen, es, |es|, key)
    ensures DistinctKeys(es, key) && seen == set e | e in es :: key(e)
  {
    assert es[..|es|] == es;
  }

  lemma {:induction false} ObjectText(lib: Library, spec: TypeSpec, value: ValueSpec)
    requires spec.kind == "object" && value.kind == "object"
    ensures var table, sorted := AttributeTable(spec.attributes), SortBy(value.entries, EntryName);
      InsideValue(ValuesOf(sorted), value) &&
      ValueText(lib, spec, value) ==
      if !DistinctKeys(value.entries, EntryName) || !Declared(table, value.entries) || !RequiredPresent(table, value.entries) then None
      else match AllSome(ValueTexts(lib, TypesOf(table, sorted), ValuesOf(sorted), value))
           case Some(values) => Some(ObjectOf(ObjectEntries(sorted, values)))
           case None => None
  {
    hide Conforms, DistinctKeys, RequiredPresent, AttributeTable, SortBy;
    SortedInside(value, EntryName);
  }

  method RenderObject(lib: Library, spec: TypeSpec, value: ValueSpec) returns (r: Option<Ast>)
    requires spec.kind == "object"
    ensures r == ValueText(lib, spec, value)
    decreases value, 0, 1
  {
    if value.kind != "object" {
      return None;
    }
    ObjectText(lib, spec, value);
    hide ValueText, DistinctKeys, SortBy, ValueTexts, RequiredPresent, Declared, TypesOf;
    var attributes := TableOf(spec.attributes, AttributeName);
    var sorted := SortBy(value.entries, EntryName);
    SortKeepsDistinct(value.entries, EntryName);
    SortKeepsDeclared(attributes, value.entries);
    var entries, seen := RenderAttributes(lib, attributes, sorted, value);
    if entries.None? {
      return None;
    }
    RequiredIsSeen(attributes, value.entries, sorted, seen);
    if exists name :: name in attributes && !attributes[name].isOptional && name !in seen {
      return None;
    }
    return Some(ObjectOf(entries.value));
  }

  lemma {:induction false} SortKeepsDeclared(table: map<string, TypeAttribute>, es: seq<ValueEntry>)
    ensures Declared(table, es) <==> Declared(table, SortBy(es, EntryName))
  {
    hide SortBy;
    var sorted := SortBy(es, EntryName);
    SameElements(sorted, es);
    assert Declared(table, es) <==> forall e :: e in es ==> e.name in table;
    assert Declared(table, sorted) <==> forall e :: e in sorted ==> e.name in table;
  }

  /** Renders the entries of an object in order, refusing duplicate and undeclared names. */
  method RenderAttributes(lib: Library, attributes: map<string, TypeAttribute>, sorted: seq<ValueEntry>, ghost within: ValueSpec)
    returns (r: Option<seq<Entry>>, seen: set<string>)
    requires InsideValue(ValuesOf(sorted), within)
    ensures r == if !DistinctKeys(sorted, EntryName) || !Declared(attributes, sorted) then None
                 else match AllSome(ValueTexts(lib, TypesOf(attributes, sorted), ValuesOf(sorted), within))
                      case Some(values) => Some(ObjectEntries(sorted, values))
                      case None => None
    ensures r.Some? ==> seen == set e | e in sorted :: EntryName(e)
    decreases within, 0, 0
  {
    hide ValueText, DistinctKeys, ValueTexts, Seen;
    var entries: seq<Entry> := [];
    ghost var specs, values := TypesOf(attributes, sorted), [];
    seen := {};
    StartSeen(sorted, EntryName);
    for i := 0 to |sorted|
      invariant |values| == |entries| == i && entries == ObjectEntries(sorted[..i], values)
      invariant Rendered(lib, specs, ValuesOf(sorted), values)
      invariant Seen(seen, sorted, i, EntryName)
      invariant forall j :: 0 <= j < i ==> sorted[j].name in attributes
    {
      if sorted[i].name in seen {
        SeenTwice(seen, sorted, i, EntryName);
        return None, seen;
      }
      SeeNext(seen, sorted, i, EntryName);
      seen := seen + {sorted[i].name};
      if sorted[i].name !in attributes {
        return None, seen;
      }
      assert ValuesOf(sorted)[i] < within;
      var item := RenderValue(lib, attributes[sorted[i].name].t, sorted[i].value);
      if item.None? {
        RefusedAt(lib, specs, ValuesOf(sorted), within, i);
        return None, seen;
      }
      values := values + [item.value];
      entries := entries + [Entry(Name(sorted[i].name), item.value)];
    }
    EndSeen(seen, sorted, EntryName);
    RenderedAll(lib, specs, ValuesOf(sorted), within, values);
    assert sorted[..|sorted|] == sorted;
    return Some(entries), seen;
  }

  lemma {:induction false} RequiredIsSeen(table: map<string, TypeAttribute>, es: seq<ValueEntry>, sorted: seq<ValueEntry>, seen: set<string>)
    requires multiset(sorted) == multiset(es) && seen == set e | e in sorted :: EntryName(e)
    ensures RequiredPresent(table, es) <==> forall n :: n in table && !table[n].isOptional ==> n in seen
  {
    SameElements(sorted, es);
    forall n ensures n in seen <==> exists i :: 0 <= i < |es| && es[i].name == n {
      if n in seen {
        var e :| e in sorted && EntryName(e) == n;
        assert e in es;
      }
      if i :| 0 <= i < |es| && es[i].name == n {
        assert es[i] in sorted;
      }
    }
  }
}
