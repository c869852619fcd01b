/**
  The type printer of the Assembly compiler. Nested types are printed to text and read again before
  they are placed into the enclosing type; a reader of the type-constraint grammar undoes it all.
 */
module TypePrinter {
  import opened Basics
  import opened Sorting
  import opened AssemblyTypes
  import opened HclTokens
  import opened ValuePrinter

  // ------------------------------------------------------------------ the expression for a type

  ghost predicate InsideType(attributes: seq<TypeAttribute>, within: TypeSpec) {
    forall i :: 0 <= i < |attributes| ==> attributes[i].t < within
  }

  lemma {:induction false} SortedAttributesInside(spec: TypeSpec)
    ensures InsideType(SortBy(spec.attributes, AttributeName), spec)
  {
    hide SortBy;
    var sorted := SortBy(spec.attributes, AttributeName);
    SameElements(sorted, spec.attributes);
    forall i | 0 <= i < |sorted| ensures sorted[i].t < spec {
      assert sorted[i] in spec.attributes;
      assert sorted[i] < spec;
    }
  }

  /** The expression for a type, or nothing when the specification is refused. */
  function TypeText(lib: Library, spec: TypeSpec): Option<Ast>
    decreases spec, 2
  {
    if spec.kind in SCALAR_KINDS then Some(Name(spec.kind))
    else if spec.kind in COLLECTION_KINDS then
      if spec.element.None? then None
      else
        match NestedText(lib, spec.element.value)
        case Some(a) => Some(Call(spec.kind, [a]))
        case None => None
    else if spec.kind == "tuple" then
      match AllSome(TypeTexts(lib, spec.elements, spec))
      case Some(items) => Some(Call("tuple", [TupleOf(items)]))
      case None => None
    else if spec.kind == "object" then
      var sorted := SortBy(spec.attributes, AttributeName);
      SortedAttributesInside(spec);
      match AllSome(AttributeTexts(lib, sorted, spec))
      case Some(entries) => Some(Call("object", [ObjectOf(entries)]))
      case None => None
    else None
  }

  /** A nested type has to survive being printed and read. */
  function NestedText(lib: Library, spec: TypeSpec): (r: Option<Ast>)
    ensures r.Some? ==> Readable(lib, r.value)
    decreases spec, 3
  {
    match TypeText(lib, spec)
    case Some(a) => if Readable(lib, a) then Some(a) else None
    case None => None
  }

  function TypeTexts(lib: Library, specs: seq<TypeSpec>, within: TypeSpec): (r: seq<Option<Ast>>)
    requires forall i :: 0 <= i < |specs| ==> specs[i] < within
    ensures |r| == |specs|
    ensures forall i :: 0 <= i < |specs| ==> r[i] == NestedText(lib, specs[i])
    decreases within, 1, |specs|
  {
    if specs == [] then [] else [NestedText(lib, specs[0])] + TypeTexts(lib, specs[1..], within)
  }

  function AttributeTexts(lib: Library, attributes: seq<TypeAttribute>, within: TypeSpec): (r: seq<Option<Entry>>)
    requires InsideType(attributes, within)
    ensures |r| == |attributes|
    ensures forall i :: 0 <= i < |attributes| ==> r[i] == AttributeText(lib, attributes[i])
    decreases within, 1, |attributes|
  {
    if attributes == [] then [] else [AttributeText(lib, attributes[0])] + AttributeTexts(lib, attributes[1..], within)
  }

  /** `name = type`, `name = optional(type)` or `name = optional(type, default)`. */
  function AttributeText(lib: Library, a: TypeAttribute): Option<Entry>
    decreases a.t, 4
  {
    if !ValidIdentifier(lib, a.name) then None
    else
      match NestedText(lib, a.t)
      case None => None
      case Some(t) =>
        if !a.isOptional then Some(Entry(Name(a.name), t))
        else if !a.hasDefault then Some(Entry(Name(a.name), Call("optional", [t])))
        else if a.default.None? then None
        else
          match ValueText(lib, a.t, a.default.value)
          case None => None
          case Some(v) => Some(Entry(Name(a.name), Call("optional", [t, v])))
  }

  // ------------------------------------------------------------------ the printer

  method RenderTypeSpec(lib: Library, spec: TypeSpec) returns (r: Option<Ast>)
    ensures r == TypeText(lib, spec)
    decreases spec, 2
  {
    hide AttributeText, SortBy;
    if spec.kind in SCALAR_KINDS {
      return Some(Name(spec.kind));
    }
    if spec.kind in COLLECTION_KINDS {
      if spec.element.None? {
        return None;
      }
      var element := RenderTypeSpecTokens(lib, spec.element.value);
      if element.None? {
        return None;
      }
      return Some(Call(spec.kind, [element.value]));
    }
    if spec.kind == "tuple" {
      var elements: seq<Ast> := [];
      for i := 0 to |spec.elements|
        invariant |elements| == i
        invariant forall j :: 0 <= j < i ==> NestedText(lib, spec.elements[j]) == Some(elements[j])
      {
        var element := RenderTypeSpecTokens(lib, spec.elements[i]);
        if element.None? {
          return None;
        }
        elements := elements + [element.value];
      }
      assert AllSome(TypeTexts(lib, spec.elements, spec)).value == elements;
      return Some(Call("tuple", [TupleOf(elements)]));
    }
    if spec.kind == "object" {
      var attributes := SortBy(spec.attributes, AttributeName);
      SortedAttributesInside(spec);
      var object_: seq<Entry> := [];
      for i := 0 to |attributes|
        invariant |object_| == i
        invariant forall j :: 0 <= j < i ==> AttributeText(lib, attributes[j]) == Some(object_[j])
      {
        var entry := RenderAttribute(lib, attributes[i]);
        if entry.None? {
          return None;
        }
        object_ := object_ + [entry.value];
      }
      assert AllSome(AttributeTexts(lib, attributes, spec)).value == object_;
      return Some(Call("object", [ObjectOf(object_)]));
    }
    return None;
  }

  method RenderAttribute(lib: Library, a: TypeAttribute) returns (r: Option<Entry>)
    ensures r == AttributeText(lib, a)
    decreases a.t, 4
  {
    if !ValidIdentifier(lib, a.name) {
      return None;
    }
    var attributeType := RenderTypeSpecTokens(lib, a.t);
    if attributeType.None? {
      return None;
    }
    var text := attributeType.value;
    if a.isOptional {
      var arguments := [text];
      if a.hasDefault {
        if a.default.None? {
          return None;
        }
        var default_ := RenderValue(lib, a.t, a.default.value);
        if default_.None? {
          return None;
        }
        arguments := [text, default_.value];
      }
      text := Call("optional", arguments);
    }
    return Some(Entry(Name(a.name), text));
  }

  /** Prints a type and reads the text again. */
  method RenderTypeSpecTokens(lib: Library, spec: TypeSpec) returns (r: Option<Ast>)
    ensures r == NestedText(lib, spec)
    decreases spec, 3
  {
    var expression := RenderTypeSpec(lib, spec);
    if expression.None? {
      return None;
    }
    ReadPrinted(lib, expression.value);
    r := ReadExpr(lib, Print(expression.value));
  }

  // ------------------------------------------------------------------ reading a type constraint

  /** The type constraint an expression denotes; defaults are not read back. */
  function ReadType(a: Ast): Option<TypeSpec>
    decreases a, 1
  {
    match a
    case Name(n) => if n in SCALAR_KINDS then Some(TypeSpec(n, None, [], [])) else None
    case Call(n, args) =>
      if |args| != 1 then None
      else if n in COLLECTION_KINDS then
        match ReadType(args[0])
        case Some(t) => Some(TypeSpec(n, Some(t), [], []))
        case None => None
      else if n == "tuple" && args[0].TupleOf? then
        match AllSome(ReadTypes(args[0].items, args[0]))
        case Some(ts) => Some(TypeSpec("tuple", None, ts, []))
        case None => None
      else if n == "object" && args[0].ObjectOf? then
        match AllSome(ReadAttributes(args[0].entries, args[0]))
        case Some(attributes) => Some(TypeSpec("object", None, [], attributes))
        case None => None
      else None
    case _ => None
  }

  function ReadTypes(items: seq<Ast>, within: Ast): (r: seq<Option<TypeSpec>>)
    requires forall i :: 0 <= i < |items| ==> items[i] < within
    ensures |r| == |items|
    ensures forall i :: 0 <= i < |items| ==> r[i] == ReadType(items[i])
    decreases within, 0, |items|
  {
    if items == [] then [] else [ReadType(items[0])] + ReadTypes(items[1..], within)
  }

  function ReadAttributes(entries: seq<Entry>, within: Ast): (r: seq<Option<TypeAttribute>>)
    requires forall i :: 0 <= i < |entries| ==> entries[i] < within
    ensures |r| == |entries|
    ensures forall i :: 0 <= i < |entries| ==> r[i] == ReadAttribute(entries[i])
    decreases within, 0, |entries|
  {
    if entries == [] then [] else [ReadAttribute(entries[0])] + ReadAttributes(entries[1..], within)
  }

  function ReadAttribute(e: Entry): Option<TypeAttribute>
    decreases e, 0
  {
    if !e.key.Name? then None
    else if e.value.Call? && e.value.name == "optional" then
      if |e.value.args| != 1 then None
      else
        match ReadType(e.value.args[0])
        case Some(t) => Some(TypeAttribute(e.key.name, t, true, false, None))
        case None => None
    else
      match ReadType(e.value)
      case Some(t) => Some(TypeAttribute(e.key.name, t, false, false, None))
      case None => None
  }

  // ------------------------------------------------------------------ reading undoes printing

  /** No optional attribute, at any depth, carries a default value. */
  predicate NoDefaults(spec: TypeSpec) {
    && (spec.kind in COLLECTION_KINDS && spec.element.Some? ==> NoDefaults(spec.element.value))
    && (spec.kind == "tuple" ==> forall i :: 0 <= i < |spec.elements| ==> NoDefaults(spec.elements[i]))
    && (spec.kind == "object" ==> forall i :: 0 <= i < |spec.attributes| ==>
          NoDefaults(spec.attributes[i].t) && !(spec.attributes[i].isOptional && spec.attributes[i].hasDefault))
  }

  /** The type `t` is `s` with only the parts its kind uses, and its attributes in some other order. */
  ghost predicate SameType(s: TypeSpec, t: TypeSpec)
    decreases s, t
  {
    && s.kind == t.kind
    && (s.kind in COLLECTION_KINDS ==> s.element.Some? && t.element.Some? && SameType(s.element.value, t.element.value))
    && (s.kind == "tuple" ==>
          |s.elements| == |t.elements| && forall i :: 0 <= i < |s.elements| ==> SameType(s.elements[i], t.elements[i]))
    && (s.kind == "object" ==> AttributesCorrespond(s.attributes, t.attributes))
  }

  /** Each attribute on either side has its counterpart on the other. */
  ghost predicate AttributesCorrespond(s: seq<TypeAttribute>, t: seq<TypeAttribute>)
    decreases s, t
  {
    && |s| == |t|
    && (forall i :: 0 <= i < |s| ==> exists j :: 0 <= j < |t| && SameAttribute(s[i], t[j]))
    && (forall j :: 0 <= j < |t| ==> exists i :: 0 <= i < |s| && SameAttribute(s[i], t[j]))
  }

  ghost predicate SameAttribute(a: TypeAttribute, b: TypeAttribute)
    decreases a, b
  {
    a.name == b.name && a.isOptional == b.isOptional && SameType(a.t, b.t)
  }

  /** A type that reads back: it denotes `spec` up to attribute order. */
  ghost predicate Denotes(a: Ast, spec: TypeSpec) {
    ReadType(a).Some? && SameType(spec, ReadType(a).value)
  }

  lemma {:induction false} TextDenotes(lib: Library, spec: TypeSpec)
    requires TypeText(lib, spec).Some? && NoDefaults(spec)
    ensures Denotes(TypeText(lib, spec).value, spec)
    decreases spec, 2
  {
    if spec.kind in COLLECTION_KINDS {
      TextDenotes(lib, spec.element.value);
    } else if spec.kind == "tuple" {
      TupleDenotes(lib, spec);
    } else if spec.kind == "object" {
      ObjectDenotes(lib, spec);
    }
  }

  lemma {:induction false} TupleDenotes(lib: Library, spec: TypeSpec)
    requires spec.kind == "tuple" && TypeText(lib, spec).Some? && NoDefaults(spec)
    ensures Denotes(TypeText(lib, spec).value, spec)
    decreases spec, 1
  {
    var items := AllSome(TypeTexts(lib, spec.elements, spec)).value;
    var a := TypeText(lib, spec).value;
    assert a == Call("tuple", [TupleOf(items)]);
    forall i | 0 <= i < |items| ensures Denotes(items[i], spec.elements[i]) {
      TextDenotes(lib, spec.elements[i]);
    }
    assert AllSome(ReadTypes(items, a.args[0])).Some?;
  }

  ghost predicate EntryDenotes(e: Entry, a: TypeAttribute) {
    ReadAttribute(e).Some? && SameAttribute(a, ReadAttribute(e).value)
  }

  lemma {:induction false} AttributeDenotes(lib: Library, a: TypeAttribute)
    requires AttributeText(lib, a).Some? && NoDefaults(a.t) && !(a.isOptional && a.hasDefault)
    ensures EntryDenotes(AttributeText(lib, a).value, a)
    decreases a.t, 4
  {
    hide TypeText, ReadType, SameType, NoDefaults;
    TextDenotes(lib, a.t);
    TypeIsNotOptional(lib, a.t);
  }

  /** `optional` is not the name of a type, so an optional attribute cannot be mistaken for a plain one. */
  lemma {:induction false} TypeIsNotOptional(lib: Library, spec: TypeSpec)
    requires TypeText(lib, spec).Some?
    ensures var a := TypeText(lib, spec).value; !(a.Call? && a.name == "optional")
  {
  }

  lemma {:induction false} ObjectDenotes(lib: Library, spec: TypeSpec)
    requires spec.kind == "object" && TypeText(lib, spec).Some? && NoDefaults(spec)
    ensures Denotes(TypeText(lib, spec).value, spec)
    decreases spec, 1
  {
    hide AttributeText, ReadAttribute, SameAttribute, SortBy, TypeText, ReadType, NoDefaults, SameType;
    var sorted := SortBy(spec.attributes, AttributeName);
    SameElements(sorted, spec.attributes);
    var entries := ObjectEntriesOf(lib, spec);
    forall i | 0 <= i < |entries| ensures EntryDenotes(entries[i], sorted[i]) {
      assert sorted[i] in spec.attributes;
      AttributeHasNoDefaults(spec, sorted[i]);
      AttributeDenotes(lib, sorted[i]);
    }
    var read := ReadObject(entries, sorted);
    SameUpToOrder(spec.attributes, sorted, read);
    ObjectSameType(spec, TypeSpec("object", None, [], read));
  }

  /** The entries printed for an object type, in sorted order. */
  lemma {:induction false} ObjectEntriesOf(lib: Library, spec: TypeSpec) returns (entries: seq<Entry>)
    requires spec.kind == "object" && TypeText(lib, spec).Some?
    ensures TypeText(lib, spec) == Some(Call("object", [ObjectOf(entries)]))
    ensures var sorted := SortBy(spec.attributes, AttributeName);
            |entries| == |sorted| && forall i :: 0 <= i < |sorted| ==> AttributeText(lib, sorted[i]) == Some(entries[i])
    ensures forall a :: a in SortBy(spec.attributes, AttributeName) ==> a.t < spec
  {
    hide AttributeText, SortBy;
    var sorted := SortBy(spec.attributes, AttributeName);
    SortedAttributesInside(spec);
    entries := AllSome(AttributeTexts(lib, sorted, spec)).value;
  }

  lemma {:induction false} AttributeHasNoDefaults(spec: TypeSpec, a: TypeAttribute)
    requires spec.kind == "object" && NoDefaults(spec) && a in spec.attributes
    ensures NoDefaults(a.t) && !(a.isOptional && a.hasDefault)
  {
  }

  lemma {:induction false} ReadObject(entries: seq<Entry>, attributes: seq<TypeAttribute>) returns (read: seq<TypeAttribute>)
    requires |entries| == |attributes|
    requires forall i :: 0 <= i < |entries| ==> EntryDenotes(entries[i], attributes[i])
    ensures ReadType(Call("object", [ObjectOf(entries)])) == Some(TypeSpec("object", None, [], read))
    ensures |read| == |attributes| && forall i :: 0 <= i < |attributes| ==> SameAttribute(attributes[i], read[i])
  {
    hide ReadAttribute, SameAttribute;
    var all := AllSome(ReadAttributes(entries, ObjectOf(entries)));
    assert all.Some?;
    read := all.value;
  }

  lemma {:induction false} ObjectSameType(s: TypeSpec, t: TypeSpec)
    requires s.kind == t.kind == "object" && AttributesCorrespond(s.attributes, t.attributes)
    ensures SameType(s, t)
  {
    hide AttributesCorrespond;
  }

  lemma {:induction false} SameUpToOrder(attributes: seq<TypeAttribute>, sorted: seq<TypeAttribute>, read: seq<TypeAttribute>)
    requires multiset(sorted) == multiset(attributes) && |sorted| == |read|
    requires forall i :: 0 <= i < |sorted| ==> SameAttribute(sorted[i], read[i])
    ensures AttributesCorrespond(attributes, read)
  {
    hide SameAttribute;
    SameElements(sorted, attributes);
    assert |multiset(sorted)| == |multiset(attributes)|;
    forall i | 0 <= i < |attributes| ensures exists j :: 0 <= j < |read| && SameAttribute(attributes[i], read[j]) {
      assert attributes[i] in sorted;
      var j :| 0 <= j < |sorted| && sorted[j] == attributes[i];
      assert SameAttribute(attributes[i], read[j]);
    }
    forall j | 0 <= j < |read| ensures exists i :: 0 <= i < |attributes| && SameAttribute(attributes[i], read[j]) {
      assert sorted[j] in attributes;
      var i :| 0 <= i < |attributes| && attributes[i] == sorted[j];
      assert SameAttribute(attributes[i], read[j]);
    }
  }

  // ------------------------------------------------------------------ through the text

  /** An object type whose first attribute, in printing order, is called `for`. */
  ghost predicate ForComesFirst(spec: TypeSpec) {
    spec.kind == "object" && LeastKeyIs(spec.attributes, AttributeName, "for")
  }

  predicate HasDefault(a: TypeAttribute) {
    a.isOptional && a.hasDefault && a.default.Some?
  }

  /** A default that is misread, or that needs a line end where a parenthesis follows. */
  ghost predicate DefaultMisread(lib: Library, a: TypeAttribute) {
    HasDefault(a) && (Misread(lib, a.t, a.default.value) || NeedsLineEnd(lib, a.t, a.default.value))
  }

  /** An object type with `for` as its least name, or with a misread default. */
  ghost predicate TypeMisread(lib: Library, spec: TypeSpec) {
    || ForComesFirst(spec)
    || (spec.kind == "object" && exists a :: a in spec.attributes && DefaultMisread(lib, a))
  }

  /** The text of a type reads as an expression exactly when it is not misread. */
  lemma {:induction false} ReadableIff(lib: Library, spec: TypeSpec)
    requires TypeText(lib, spec).Some?
    ensures Readable(lib, TypeText(lib, spec).value) <==> !TypeMisread(lib, spec)
  {
    hide NestedText;
    if spec.kind == "object" {
      ObjectReadableIff(lib, spec);
    } else if spec.kind == "tuple" {
      TupleReadable(lib, spec);
    } else if spec.kind in COLLECTION_KINDS {
      NestedToken(lib, spec.element.value);
      ReadableCall(lib, spec.kind, NestedText(lib, spec.element.value).value);
    }
  }

  lemma {:induction false} TupleReadable(lib: Library, spec: TypeSpec)
    requires spec.kind == "tuple" && TypeText(lib, spec).Some?
    ensures Readable(lib, TypeText(lib, spec).value)
  {
    hide NestedText;
    var items := AllSome(TypeTexts(lib, spec.elements, spec)).value;
    forall i | 0 <= i < |items| ensures ReadableInside(lib, items[i]) && !NamedFor(lib, items[i]) {
      assert NestedText(lib, spec.elements[i]) == Some(items[i]);
      NestedToken(lib, spec.elements[i]);
    }
    assert Readable(lib, TupleOf(items));
    ReadableCall(lib, "tuple", TupleOf(items));
  }

  lemma {:induction false} NestedToken(lib: Library, spec: TypeSpec)
    requires NestedText(lib, spec).Some?
    ensures !NamedFor(lib, NestedText(lib, spec).value) && ReadableInside(lib, NestedText(lib, spec).value)
  {
  }

  lemma {:induction false} ObjectReadableIff(lib: Library, spec: TypeSpec)
    requires spec.kind == "object" && TypeText(lib, spec).Some?
    ensures Readable(lib, TypeText(lib, spec).value) <==> !TypeMisread(lib, spec)
  {
    hide AttributeText, SortBy, LeastKeyIs, TypeText, DefaultMisread;
    var sorted := SortBy(spec.attributes, AttributeName);
    SameElements(sorted, spec.attributes);
    SortedFirstIff(spec.attributes, AttributeName, "for");
    var entries := ObjectEntriesOf(lib, spec);
    forall i | 0 <= i < |entries|
      ensures ReadableInside(lib, entries[i].key) && entries[i].key == Name(sorted[i].name)
      ensures Readable(lib, entries[i].value) <==> !DefaultMisread(lib, sorted[i])
    {
      EntryReadableIff(lib, sorted[i]);
    }
    ReadableCall(lib, "object", ObjectOf(entries));
    if a :| a in spec.attributes && DefaultMisread(lib, a) {
      var i :| 0 <= i < |sorted| && sorted[i] == a;
      assert !Readable(lib, entries[i].value);
    } else {
      assert forall i :: 0 <= i < |sorted| ==> sorted[i] in spec.attributes;
    }
  }

  lemma {:induction false} ReadableCall(lib: Library, name: string, arg: Ast)
    ensures Readable(lib, Call(name, [arg])) <==> ReadableInside(lib, arg)
  {
    assert [arg][0] == arg;
  }

  lemma {:induction false} EntryReadableIff(lib: Library, a: TypeAttribute)
    requires AttributeText(lib, a).Some?
    ensures var e := AttributeText(lib, a).value;
      && ReadableInside(lib, e.key) && e.key == Name(a.name)
      && (Readable(lib, e.value) <==> !DefaultMisread(lib, a))
  {
    hide NestedText, ValueText, Misread, NeedsLineEnd;
    var t := NestedText(lib, a.t).value;
    NestedToken(lib, a.t);
    ReadableCall(lib, "optional", t);
    if HasDefault(a) {
      ValueReadableIff(lib, a.t, a.default.value);
      ValueToken(lib, a.t, a.default.value);
      var v := ValueText(lib, a.t, a.default.value).value;
      assert [t, v][0] == t && [t, v][1] == v;
      assert Readable(lib, Call("optional", [t, v])) <==> ReadableInside(lib, t) && ReadableInside(lib, v);
    }
  }

  /**
    Printing and reading: the printed text of an accepted type reads back exactly when it is not misread,
    and then, without defaults, as the same type up to attribute order. Nested types that do not read back are refused by the printer.
   */
  lemma {:induction false} TypeRoundTrip(lib: Library, spec: TypeSpec)
    requires TypeText(lib, spec).Some?
    ensures var a := TypeText(lib, spec).value;
            var read := ReadExpr(lib, Print(a));
            && (read.Some? <==> !TypeMisread(lib, spec))
            && (read.Some? ==> read.value == a && (NoDefaults(spec) ==> Denotes(read.value, spec)))
  {
    hide TypeText, Print, ReadExpr, Readable, NoDefaults, TypeMisread, Denotes;
    ReadPrinted(lib, TypeText(lib, spec).value);
    ReadableIff(lib, spec);
    if NoDefaults(spec) {
      TextDenotes(lib, spec);
    }
  }

  /** Such a type inside another one is refused. */
  lemma {:induction false} NestedForIsRefused(lib: Library, spec: TypeSpec)
    requires TypeMisread(lib, spec)
    ensures NestedText(lib, spec).None?
  {
    hide TypeText, TypeMisread;
    if TypeText(lib, spec).Some? {
      ReadableIff(lib, spec);
    }
  }

  // ------------------------------------------------------------------ which types are accepted

  /**
    Known kinds, an element where one is needed, attribute names that are identifiers, and defaults that
    conform to their type, at every depth; no nested type is misread.
   */
  ghost predicate Acceptable(lib: Library, spec: TypeSpec)
    decreases spec, 0
  {
    if spec.kind in SCALAR_KINDS then true
    else if spec.kind in COLLECTION_KINDS then spec.element.Some? && AcceptableInside(lib, spec.element.value)
    else if spec.kind == "tuple" then forall i :: 0 <= i < |spec.elements| ==> AcceptableInside(lib, spec.elements[i])
    else
      && spec.kind == "object"
      && forall i :: 0 <= i < |spec.attributes| ==>
        && ValidIdentifier(lib, spec.attributes[i].name)
        && AcceptableInside(lib, spec.attributes[i].t)
        && DefaultFits(lib, spec.attributes[i])
  }

  ghost predicate AcceptableInside(lib: Library, spec: TypeSpec)
    decreases spec, 1
  {
    Acceptable(lib, spec) && !TypeMisread(lib, spec)
  }

  predicate DefaultFits(lib: Library, a: TypeAttribute) {
    a.isOptional && a.hasDefault ==> a.default.Some? && Conforms(lib, a.t, a.default.value)
  }

  lemma {:induction false} InsideAcceptedIff(lib: Library, spec: TypeSpec)
    ensures NestedText(lib, spec).Some? <==> AcceptableInside(lib, spec)
    decreases spec, 1
  {
    hide TypeText, Readable, TypeMisread, Acceptable;
    TypeAcceptedIff(lib, spec);
    if TypeText(lib, spec).Some? {
      ReadableIff(lib, spec);
    }
  }

  /** A type is printed exactly when it is acceptable. */
  lemma {:induction false} TypeAcceptedIff(lib: Library, spec: TypeSpec)
    ensures TypeText(lib, spec).Some? <==> Acceptable(lib, spec)
    decreases spec, 0
  {
    hide NestedText, AcceptableInside;
    if spec.kind in SCALAR_KINDS {
    } else if spec.kind in COLLECTION_KINDS {
      if spec.element.Some? {
        InsideAcceptedIff(lib, spec.element.value);
      }
    } else if spec.kind == "tuple" {
      forall i | 0 <= i < |spec.elements| ensures NestedText(lib, spec.elements[i]).Some? <==> AcceptableInside(lib, spec.elements[i]) {
        InsideAcceptedIff(lib, spec.elements[i]);
      }
    } else if spec.kind == "object" {
      ObjectAcceptedIff(lib, spec);
    }
  }

  lemma {:induction false} ObjectAcceptedIff(lib: Library, spec: TypeSpec)
    requires spec.kind == "object"
    ensures TypeText(lib, spec).Some? <==> Acceptable(lib, spec)
    decreases spec, 0, 0
  {
    hide NestedText, AcceptableInside, AttributeText, SortBy, DefaultFits;
    var sorted := SortBy(spec.attributes, AttributeName);
    SameElements(sorted, spec.attributes);
    SortedAttributesInside(spec);
    forall a | a in spec.attributes
      ensures AttributeText(lib, a).Some? <==> ValidIdentifier(lib, a.name) && AcceptableInside(lib, a.t) && DefaultFits(lib, a)
    {
      assert a.t < spec by { assert a < spec; }
      InsideAcceptedIff(lib, a.t);
      AttributePrintedIff(lib, a);
    }
    AllAttributesPrinted(lib, spec, sorted);
    assert forall i :: 0 <= i < |spec.attributes| ==> spec.attributes[i] in spec.attributes;
    if Acceptable(lib, spec) {
      forall a | a in spec.attributes ensures AttributeText(lib, a).Some? {
        var i :| 0 <= i < |spec.attributes| && spec.attributes[i] == a;
      }
    }
  }

  lemma {:induction false} AttributePrintedIff(lib: Library, a: TypeAttribute)
    ensures AttributeText(lib, a).Some? <==> ValidIdentifier(lib, a.name) && NestedText(lib, a.t).Some? && DefaultFits(lib, a)
  {
    hide NestedText, ValueText, Conforms;
    if a.default.Some? {
      AcceptsIffConforms(lib, a.t, a.default.value);
    }
  }

  lemma {:induction false} AllAttributesPrinted(lib: Library, spec: TypeSpec, sorted: seq<TypeAttribute>)
    requires spec.kind == "object" && sorted == SortBy(spec.attributes, AttributeName)
    requires forall a :: a in sorted <==> a in spec.attributes
    ensures TypeText(lib, spec).Some? <==> forall a :: a in spec.attributes ==> AttributeText(lib, a).Some?
  {
    hide AttributeText, SortBy;
    SortedAttributesInside(spec);
    var texts := AttributeTexts(lib, sorted, spec);
    if forall a :: a in spec.attributes ==> AttributeText(lib, a).Some? {
      assert forall i :: 0 <= i < |texts| ==> sorted[i] in spec.attributes;
    }
    if AllSome(texts).Some? {
      forall a | a in spec.attributes ensures AttributeText(lib, a).Some? {
        var i :| 0 <= i < |sorted| && sorted[i] == a;
        assert texts[i].Some?;
      }
    }
  }
}
