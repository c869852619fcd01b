/**
  What the text of a value says. Printed syntax is read into data, canvas values are given a meaning of
  their own, and the two agree for every accepted value.
 */
module ValueMeaning {
  import opened Basics
  import opened Sorting
  import opened AssemblyTypes
  import opened HclTokens
  import opened ValuePrinter
  import TypePrinter

  /** Data written in a file; typed text is what the library makes of it. */
  datatype Data =
    | Null
    | StringOf(s: string)
    | Evaluated(text: string)
    | ListOf(items: seq<Data>)
    | MapOf(entries: map<string, Data>)

  // ------------------------------------------------------------------ what syntax denotes

  function KeyOf(a: Ast): Option<string> {
    match a
    case Name(n) => Some(n)
    case Str(s) => Some(s)
    case _ => None
  }

  /** The data that syntax denotes; of entries with one key the last counts. */
  function ReadData(a: Ast): Option<Data>
    decreases a, 1
  {
    match a
    case Name(n) => if n == "null" then Some(Null) else None
    case Str(s) => Some(StringOf(s))
    case Raw(t) => Some(Evaluated(t))
    case TupleOf(items) =>
      (match ReadItems(a, items)
       case Some(ds) => Some(ListOf(ds))
       case None => None)
    case ObjectOf(entries) =>
      (match ReadEntries(a, entries)
       case Some(m) => Some(MapOf(m))
       case None => None)
    case Call(_, _) => None
  }

  function ReadItems(within: Ast, items: seq<Ast>): Option<seq<Data>>
    requires forall i :: 0 <= i < |items| ==> items[i] < within
    decreases within, 0, |items|
  {
    if items == [] then Some([])
    else
      match (ReadData(items[0]), ReadItems(within, items[1..]))
      case (Some(d), Some(ds)) => Some([d] + ds)
      case _ => None
  }

  function ReadEntries(within: Ast, entries: seq<Entry>): Option<map<string, Data>>
    requires forall i :: 0 <= i < |entries| ==> entries[i] < within
    decreases within, 0, |entries|
  {
    if entries == [] then Some(map[])
    else
      var last := entries[|entries| - 1];
      match (KeyOf(last.key), ReadData(last.value), ReadEntries(within, entries[..|entries| - 1]))
      case (Some(k), Some(d), Some(m)) => Some(m[k := d])
      case _ => None
  }

  // ------------------------------------------------------------------ what a value means

  /**
    `d` is what the canvas value means at its type: a blank string is null and any other is itself, typed
    scalars are the expression in their text, items keep their order, and entries are a finite map.
   */
  ghost predicate Means(lib: Library, spec: TypeSpec, value: ValueSpec, d: Data)
    decreases value
  {
    if spec.kind == "string" then d == if Blank(value.literal) then Null else StringOf(value.literal)
    else if spec.kind in SCALAR_KINDS then d == Evaluated(lib.kept(value.literal))
    else if value.kind == "list" then
      d.ListOf? && |d.items| == |value.items| && forall i :: 0 <= i < |value.items| ==> Means(lib, ItemSpec(spec, i), value.items[i], d.items[i])
    else
      d.MapOf?
      && (forall k :: k in d.entries ==> exists i :: 0 <= i < |value.entries| && NameOf(spec, value.entries[i]) == k)
      && forall i :: 0 <= i < |value.entries| ==>
        && NameOf(spec, value.entries[i]) in d.entries
        && Means(lib, EntrySpec(spec, value.entries[i]), value.entries[i].value, d.entries[NameOf(spec, value.entries[i])])
  }

  function NameOf(spec: TypeSpec, e: ValueEntry): string {
    if spec.kind == "object" then e.name else e.key
  }

  /** A value means one thing. */
  lemma {:induction false} MeansOne(lib: Library, spec: TypeSpec, value: ValueSpec, d: Data, e: Data)
    requires Means(lib, spec, value, d) && Means(lib, spec, value, e)
    ensures d == e
    decreases value
  {
    if spec.kind !in SCALAR_KINDS {
      if value.kind == "list" {
        forall i | 0 <= i < |value.items| ensures d.items[i] == e.items[i] {
          MeansOne(lib, ItemSpec(spec, i), value.items[i], d.items[i], e.items[i]);
        }
      } else {
        assert d.entries.Keys == e.entries.Keys;
        forall k | k in d.entries ensures d.entries[k] == e.entries[k] {
          var i :| 0 <= i < |value.entries| && NameOf(spec, value.entries[i]) == k;
          MeansOne(lib, EntrySpec(spec, value.entries[i]), value.entries[i].value, d.entries[k], e.entries[k]);
        }
      }
    }
  }

  // ------------------------------------------------------------------ the text denotes the value

  ghost predicate TextMeans(lib: Library, spec: TypeSpec, value: ValueSpec, a: Ast) {
    ReadData(a).Some? && Means(lib, spec, value, ReadData(a).value)
  }

  /** The text of every accepted value denotes what the value means, at every depth. */
  lemma {:induction false} ValueDenotes(lib: Library, spec: TypeSpec, value: ValueSpec)
    requires ValueText(lib, spec, value).Some?
    ensures TextMeans(lib, spec, value, ValueText(lib, spec, value).value)
    decreases value, 2
  {
    hide ValueTexts, SortBy, DistinctKeys, AttributeTable, TypesOf;
    if spec.kind == "tuple" || spec.kind == "list" || spec.kind == "set" {
      ListDenotes(lib, spec, value);
    } else if spec.kind == "map" {
      MapDenotes(lib, spec, value);
    } else if spec.kind == "object" {
      ObjectDenotes(lib, spec, value);
    }
  }

  lemma {:induction false} TextsDenote(lib: Library, specs: seq<TypeSpec>, values: seq<ValueSpec>, within: ValueSpec)
    requires |specs| == |values| && InsideValue(values, within)
    requires AllSome(ValueTexts(lib, specs, values, within)).Some?
    ensures var texts := AllSome(ValueTexts(lib, specs, values, within)).value;
      |texts| == |values| && forall i :: 0 <= i < |values| ==> TextMeans(lib, specs[i], values[i], texts[i])
    decreases within, 0
  {
    hide ValueText, TextMeans;
    forall i | 0 <= i < |values|
      ensures ValueText(lib, specs[i], values[i]).Some? && TextMeans(lib, specs[i], values[i], ValueText(lib, specs[i], values[i]).value)
    {
      assert ValueTexts(lib, specs, values, within)[i].Some?;
      ValueDenotes(lib, specs[i], values[i]);
    }
  }

  lemma {:induction false} ItemsRead(within: Ast, items: seq<Ast>)
    requires forall i :: 0 <= i < |items| ==> items[i] < within && ReadData(items[i]).Some?
    ensures ReadItems(within, items).Some?
    ensures var ds := ReadItems(within, items).value; |ds| == |items| && forall i :: 0 <= i < |items| ==> ds[i] == ReadData(items[i]).value
    decreases |items|
  {
    hide ReadData;
    if items != [] {
      ItemsRead(within, items[1..]);
    }
  }

  lemma {:induction false} ListDenotes(lib: Library, spec: TypeSpec, value: ValueSpec)
    requires spec.kind in {"tuple", "list", "set"} && ValueText(lib, spec, value).Some?
    ensures TextMeans(lib, spec, value, ValueText(lib, spec, value).value)
    decreases value, 1
  {
    hide ValueText, ValueTexts, TextMeans, ItemSpec;
    IsList(lib, spec, value);
    var specs := if spec.kind == "tuple" then spec.elements else Repeat(spec.element, |value.items|);
    if spec.kind == "tuple" {
      TupleText(lib, spec, value);
    } else {
      ListText(lib, spec, value);
    }
    ItemSpecs(spec, value, specs);
    TextsDenote(lib, specs, value.items, value);
    ListMeans(lib, spec, value, specs, ValueText(lib, spec, value).value);
  }

  lemma {:induction false} IsList(lib: Library, spec: TypeSpec, value: ValueSpec)
    requires spec.kind in {"tuple", "list", "set"} && ValueText(lib, spec, value).Some?
    ensures value.kind == "list"
    ensures if spec.kind == "tuple" then |value.items| == |spec.elements| else value.items != [] ==> spec.element.Some?
  {
    hide ValueTexts;
  }

  lemma {:induction false} ItemSpecs(spec: TypeSpec, value: ValueSpec, specs: seq<TypeSpec>)
    requires |specs| == |value.items| && if spec.kind == "tuple" then specs == spec.elements
      else forall i :: 0 <= i < |specs| ==> spec.element.Some? && specs[i] == spec.element.value
    ensures forall i :: 0 <= i < |value.items| ==> ItemSpec(spec, i) == specs[i]
  {
  }

  lemma {:induction false} ListMeans(lib: Library, spec: TypeSpec, value: ValueSpec, specs: seq<TypeSpec>, a: Ast)
    requires spec.kind !in SCALAR_KINDS && value.kind == "list" && a.TupleOf? && |a.items| == |specs| == |value.items|
    requires forall i :: 0 <= i < |value.items| ==> ItemSpec(spec, i) == specs[i] && TextMeans(lib, specs[i], value.items[i], a.items[i])
    ensures TextMeans(lib, spec, value, a)
  {
    hide ItemSpec, ReadItems;
    ItemsRead(a, a.items);
  }

  /** The entry under a key, when keys are distinct. */
  lemma {:induction false} EntriesRead(within: Ast, entries: seq<Entry>, keys: seq<string>)
    requires |keys| == |entries| && Distinct(keys)
    requires forall i :: 0 <= i < |entries| ==>
      entries[i] < within && KeyOf(entries[i].key) == Some(keys[i]) && ReadData(entries[i].value).Some?
    ensures ReadEntries(within, entries).Some?
    ensures forall k :: k in ReadEntries(within, entries).value <==> k in keys
    ensures forall i :: 0 <= i < |entries| ==> ReadEntries(within, entries).value[keys[i]] == ReadData(entries[i].value).value
    decreases |entries|
  {
    hide ReadData, KeyOf;
    if entries != [] {
      var n := |entries| - 1;
      EntriesRead(within, entries[..n], keys[..n]);
      assert keys == keys[..n] + [keys[n]];
    }
  }

  /** Sorted entries, written under their names, denote the same finite map as the entries in any order. */
  lemma {:induction false} StructureDenotes(lib: Library, spec: TypeSpec, value: ValueSpec, sorted: seq<ValueEntry>, a: Ast)
    requires spec.kind !in SCALAR_KINDS && value.kind != "list" && a.ObjectOf? && |a.entries| == |sorted|
    requires multiset(sorted) == multiset(value.entries)
    requires Distinct(seq(|sorted|, i requires 0 <= i < |sorted| => NameOf(spec, sorted[i])))
    requires forall i :: 0 <= i < |sorted| ==>
      && KeyOf(a.entries[i].key) == Some(NameOf(spec, sorted[i]))
      && TextMeans(lib, EntrySpec(spec, sorted[i]), sorted[i].value, a.entries[i].value)
    ensures TextMeans(lib, spec, value, a)
  {
    hide ReadData, EntrySpec, NameOf, KeyOf;
    var keys := seq(|sorted|, i requires 0 <= i < |sorted| => NameOf(spec, sorted[i]));
    EntriesRead(a, a.entries, keys);
    ObjectData(a);
    var m := ReadEntries(a, a.entries).value;
    forall j | 0 <= j < |sorted|
      ensures NameOf(spec, sorted[j]) in m && Means(lib, EntrySpec(spec, sorted[j]), sorted[j].value, m[NameOf(spec, sorted[j])])
    {
      assert keys[j] in keys;
    }
    forall k | k in m ensures exists j :: 0 <= j < |sorted| && NameOf(spec, sorted[j]) == k {
      var j :| 0 <= j < |sorted| && keys[j] == k;
    }
    ReorderedEntriesMean(lib, spec, value, sorted, m);
  }

  /** What holds of the entries in one order holds of them in another. */
  lemma {:induction false} ReorderedEntriesMean(lib: Library, spec: TypeSpec, value: ValueSpec, sorted: seq<ValueEntry>, m: map<string, Data>)
    requires spec.kind !in SCALAR_KINDS && value.kind != "list" && multiset(sorted) == multiset(value.entries)
    requires forall k :: k in m ==> exists j :: 0 <= j < |sorted| && NameOf(spec, sorted[j]) == k
    requires forall j :: 0 <= j < |sorted| ==>
      NameOf(spec, sorted[j]) in m && Means(lib, EntrySpec(spec, sorted[j]), sorted[j].value, m[NameOf(spec, sorted[j])])
    ensures Means(lib, spec, value, MapOf(m))
  {
    hide Means, EntrySpec, NameOf;
    SameElements(sorted, value.entries);
    forall i | 0 <= i < |value.entries|
      ensures NameOf(spec, value.entries[i]) in m
      ensures Means(lib, EntrySpec(spec, value.entries[i]), value.entries[i].value, m[NameOf(spec, value.entries[i])])
    {
      assert value.entries[i] in sorted;
      var j :| 0 <= j < |sorted| && sorted[j] == value.entries[i];
    }
    forall k | k in m ensures exists i :: 0 <= i < |value.entries| && NameOf(spec, value.entries[i]) == k {
      var j :| 0 <= j < |sorted| && NameOf(spec, sorted[j]) == k;
      assert sorted[j] in value.entries;
      var i :| 0 <= i < |value.entries| && value.entries[i] == sorted[j];
    }
    EntriesMean(lib, spec, value, m);
  }

  lemma {:induction false} ObjectData(a: Ast)
    requires a.ObjectOf?
    ensures ReadData(a) == match ReadEntries(a, a.entries) case Some(m) => Some(MapOf(m)) case None => None
  {
  }

  lemma {:induction false} EntriesMean(lib: Library, spec: TypeSpec, value: ValueSpec, m: map<string, Data>)
    requires spec.kind !in SCALAR_KINDS && value.kind != "list"
    requires forall k :: k in m ==> exists i :: 0 <= i < |value.entries| && NameOf(spec, value.entries[i]) == k
    requires forall i :: 0 <= i < |value.entries| ==>
      && NameOf(spec, value.entries[i]) in m
      && Means(lib, EntrySpec(spec, value.entries[i]), value.entries[i].value, m[NameOf(spec, value.entries[i])])
    ensures Means(lib, spec, value, MapOf(m))
  {
  }

  lemma {:induction false} MapDenotes(lib: Library, spec: TypeSpec, value: ValueSpec)
    requires spec.kind == "map" && ValueText(lib, spec, value).Some?
    ensures TextMeans(lib, spec, value, ValueText(lib, spec, value).value)
    decreases value, 1
  {
    hide ValueTexts, SortBy, DistinctKeys, TextMeans;
    var sorted := SortBy(value.entries, EntryKey);
    SortedInside(value, EntryKey);
    SortKeepsDistinct(value.entries, EntryKey);
    var specs := Repeat(spec.element, |sorted|);
    TextsDenote(lib, specs, ValuesOf(sorted), value);
    DistinctNames(spec, sorted, EntryKey);
    StructureDenotes(lib, spec, value, sorted, ValueText(lib, spec, value).value);
  }

  lemma {:induction false} DistinctNames(spec: TypeSpec, es: seq<ValueEntry>, key: ValueEntry -> string)
    requires DistinctKeys(es, key) && forall e :: e in es ==> key(e) == NameOf(spec, e)
    ensures Distinct(seq(|es|, i requires 0 <= i < |es| => NameOf(spec, es[i])))
  {
  }

  lemma {:induction false} ObjectDenotes(lib: Library, spec: TypeSpec, value: ValueSpec)
    requires spec.kind == "object" && ValueText(lib, spec, value).Some?
    ensures TextMeans(lib, spec, value, ValueText(lib, spec, value).value)
    decreases value, 1
  {
    hide ValueText, ValueTexts, SortBy, DistinctKeys, TextMeans, AttributeTable, TypesOf, Declared, RequiredPresent;
    ObjectKind(lib, spec, value);
    ObjectText(lib, spec, value);
    var sorted := SortBy(value.entries, EntryName);
    SortedInside(value, EntryName);
    SortKeepsDistinct(value.entries, EntryName);
    DeclaredSpecs(lib, spec, value);
    var specs := TypesOf(AttributeTable(spec.attributes), sorted);
    TextsDenote(lib, specs, ValuesOf(sorted), value);
    DistinctNames(spec, sorted, EntryName);
    StructureDenotes(lib, spec, value, sorted, ValueText(lib, spec, value).value);
  }

  // ------------------------------------------------------------------ types with defaults

  /** The syntax says which type it is, with every attribute in some order, and with the defaults of optional attributes. */
  ghost predicate TypeSays(lib: Library, spec: TypeSpec, a: Ast)
    decreases spec, 2
  {
    if spec.kind in SCALAR_KINDS then a == Name(spec.kind)
    else
      && a.Call? && a.name == spec.kind && |a.args| == 1
      && if spec.kind in COLLECTION_KINDS then spec.element.Some? && TypeSays(lib, spec.element.value, a.args[0])
         else if spec.kind == "tuple" then
           && a.args[0].TupleOf? && |a.args[0].items| == |spec.elements|
           && forall i :: 0 <= i < |spec.elements| ==> TypeSays(lib, spec.elements[i], a.args[0].items[i])
         else
           a.args[0].ObjectOf? && AttributesSaid(lib, spec, a.args[0].entries)
  }

  /** Each attribute has its entry, and each entry its attribute. */
  ghost predicate AttributesSaid(lib: Library, spec: TypeSpec, entries: seq<Entry>)
    decreases spec, 1
  {
    && |entries| == |spec.attributes|
    && (forall i :: 0 <= i < |spec.attributes| ==> HasEntry(lib, spec.attributes[i], entries))
    && forall j :: 0 <= j < |entries| ==> HasAttribute(lib, spec, entries[j])
  }

  ghost predicate HasEntry(lib: Library, x: TypeAttribute, entries: seq<Entry>)
    decreases x, 1
  {
    exists j :: 0 <= j < |entries| && AttributeSays(lib, x, entries[j])
  }

  ghost predicate HasAttribute(lib: Library, spec: TypeSpec, e: Entry)
    decreases spec, 0
  {
    exists i :: 0 <= i < |spec.attributes| && AttributeSays(lib, spec.attributes[i], e)
  }

  /** `name = type`, `name = optional(type)`, or with a default what the default means. */
  ghost predicate AttributeSays(lib: Library, x: TypeAttribute, e: Entry)
    decreases x, 0
  {
    && e.key == Name(x.name)
    && if !x.isOptional then TypeSays(lib, x.t, e.value)
       else
         && e.value.Call? && e.value.name == "optional" && |e.value.args| == (if x.hasDefault then 2 else 1)
         && TypeSays(lib, x.t, e.value.args[0])
         && (x.hasDefault ==> x.default.Some? && TextMeans(lib, x.t, x.default.value, e.value.args[1]))
  }

  /** The text of every accepted type says the type, defaults included, at every depth. */
  lemma {:induction false} TypeIsSaid(lib: Library, spec: TypeSpec)
    requires TypePrinter.TypeText(lib, spec).Some?
    ensures TypeSays(lib, spec, TypePrinter.TypeText(lib, spec).value)
    decreases spec, 2
  {
    if spec.kind in COLLECTION_KINDS {
      NestedIsSaid(lib, spec.element.value);
    } else if spec.kind == "tuple" {
      TupleIsSaid(lib, spec);
    } else if spec.kind == "object" {
      ObjectIsSaid(lib, spec);
    }
  }

  lemma {:induction false} NestedIsSaid(lib: Library, spec: TypeSpec)
    requires TypePrinter.NestedText(lib, spec).Some?
    ensures TypeSays(lib, spec, TypePrinter.NestedText(lib, spec).value)
    decreases spec, 3
  {
    hide TypeSays, TypePrinter.TypeText;
    TypeIsSaid(lib, spec);
  }

  lemma {:induction false} TupleIsSaid(lib: Library, spec: TypeSpec)
    requires spec.kind == "tuple" && TypePrinter.TypeText(lib, spec).Some?
    ensures TypeSays(lib, spec, TypePrinter.TypeText(lib, spec).value)
    decreases spec, 1
  {
    hide TypePrinter.NestedText;
    var items := AllSome(TypePrinter.TypeTexts(lib, spec.elements, spec)).value;
    forall i | 0 <= i < |spec.elements| ensures TypeSays(lib, spec.elements[i], items[i]) {
      assert TypePrinter.NestedText(lib, spec.elements[i]) == Some(items[i]);
      NestedIsSaid(lib, spec.elements[i]);
    }
    assert TypePrinter.TypeText(lib, spec) == Some(Call("tuple", [TupleOf(items)]));
  }

  lemma {:induction false} AttributeIsSaid(lib: Library, x: TypeAttribute)
    requires TypePrinter.AttributeText(lib, x).Some?
    ensures AttributeSays(lib, x, TypePrinter.AttributeText(lib, x).value)
    decreases x.t, 4
  {
    hide TypeSays, TextMeans, TypePrinter.NestedText, ValueText;
    NestedIsSaid(lib, x.t);
    if x.isOptional && x.hasDefault {
      ValueDenotes(lib, x.t, x.default.value);
    }
  }

  lemma {:induction false} ObjectIsSaid(lib: Library, spec: TypeSpec)
    requires spec.kind == "object" && TypePrinter.TypeText(lib, spec).Some?
    ensures TypeSays(lib, spec, TypePrinter.TypeText(lib, spec).value)
    decreases spec, 1
  {
    hide TypePrinter.AttributeText, SortBy, TypePrinter.TypeText, AttributeSays;
    var sorted := SortBy(spec.attributes, AttributeName);
    SameElements(sorted, spec.attributes);
    var entries := TypePrinter.ObjectEntriesOf(lib, spec);
    forall i | 0 <= i < |sorted| ensures AttributeSays(lib, sorted[i], entries[i]) {
      assert sorted[i] in sorted;
      AttributeIsSaid(lib, sorted[i]);
    }
    EntriesSaid(lib, spec, sorted, entries);
    ObjectSays(lib, spec, entries);
  }

  lemma {:induction false} EntriesSaid(lib: Library, spec: TypeSpec, sorted: seq<TypeAttribute>, entries: seq<Entry>)
    requires multiset(sorted) == multiset(spec.attributes) && |sorted| == |entries|
    requires forall i :: 0 <= i < |sorted| ==> AttributeSays(lib, sorted[i], entries[i])
    ensures AttributesSaid(lib, spec, entries)
  {
    hide AttributeSays;
    SameLength(sorted, spec.attributes);
    SameElements(sorted, spec.attributes);
    hide HasEntry, HasAttribute;
    forall i | 0 <= i < |spec.attributes| ensures HasEntry(lib, spec.attributes[i], entries) {
      var j := PlaceOf(spec.attributes[i], sorted);
      EntryIsThere(lib, spec.attributes[i], entries, j);
    }
    forall j | 0 <= j < |entries| ensures HasAttribute(lib, spec, entries[j]) {
      assert sorted[j] in spec.attributes;
      var i := PlaceOf(sorted[j], spec.attributes);
      AttributeIsThere(lib, spec, entries[j], i);
    }
  }

  lemma {:induction false} EntryIsThere(lib: Library, x: TypeAttribute, entries: seq<Entry>, j: nat)
    requires j < |entries| && AttributeSays(lib, x, entries[j])
    ensures HasEntry(lib, x, entries)
  {
    hide AttributeSays;
  }

  lemma {:induction false} AttributeIsThere(lib: Library, spec: TypeSpec, e: Entry, i: nat)
    requires i < |spec.attributes| && AttributeSays(lib, spec.attributes[i], e)
    ensures HasAttribute(lib, spec, e)
  {
    hide AttributeSays;
  }

  lemma {:induction false} SameLength(xs: seq<TypeAttribute>, ys: seq<TypeAttribute>)
    requires multiset(xs) == multiset(ys)
    ensures |xs| == |ys|
  {
    assert |multiset(xs)| == |xs| && |multiset(ys)| == |ys|;
  }

  lemma {:induction false} PlaceOf(x: TypeAttribute, xs: seq<TypeAttribute>) returns (i: nat)
    requires x in xs
    ensures i < |xs| && xs[i] == x
  {
    i :| 0 <= i < |xs| && xs[i] == x;
  }

  lemma {:induction false} ObjectSays(lib: Library, spec: TypeSpec, entries: seq<Entry>)
    requires spec.kind == "object" && AttributesSaid(lib, spec, entries)
    ensures TypeSays(lib, spec, Call("object", [ObjectOf(entries)]))
  {
    hide AttributesSaid;
  }
}
