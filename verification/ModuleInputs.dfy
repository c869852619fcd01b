/**
  Module inputs: structured canvas values become expressions, with the contract's type deciding at
  every depth whether typed text is a string or an expression.
 */
module ModuleInputs {
  import opened Basics
  import opened Strings
  import opened AssemblyTypes
  import opened References
  import opened ValuePrinter
  import CtyTypes

  /** A declared type, or nothing when its encoding cannot be decoded. */
  type InputType = Option<CtyTypes.Type>

  const DYNAMIC: InputType := Some(CtyTypes.Dynamic)

  datatype ContractVariable = ContractVariable(name: string, required: bool, t: InputType)

  /** Where a nested value sits: an element of a list, under a map key, or under an object attribute. */
  datatype Position = Element(index: nat) | MapKey | ObjectName(name: string)

  function NestedInputType(t: InputType, at: Position): InputType {
    if t.None? then DYNAMIC
    else if at.ObjectName? then
      if t.value.Object? && at.name in t.value.attrs then Some(t.value.attrs[at.name]) else DYNAMIC
    else if at.Element? && t.value.Tuple? then
      if at.index < |t.value.elems| then Some(t.value.elems[at.index]) else DYNAMIC
    else
      match t.value
      case List(e) => Some(e)
      case Set(e) => Some(e)
      case Map(e) => Some(e)
      case _ => DYNAMIC
  }

  predicate HasPrefix(s: string, prefix: string) {
    prefix <= s
  }

  predicate IsIterationExpression(text: string) {
    var s := TrimSpace(text);
    s == "count.index" || s == "each.key" || s == "each.value" || HasPrefix(s, "each.key.") || HasPrefix(s, "each.value.")
  }

  predicate HasInterpolation(s: string) {
    exists i :: 0 <= i < |s| - 1 && s[i] == '$' && s[i + 1] == '{'
  }

  function InQuotes(s: string): string {
    "\"" + s + "\""
  }

  function ScalarText(lib: Library, scope: Scope, v: FieldValue, isString: bool): Option<Expression> {
    if v.mode != "literal" || IsIterationExpression(v.literal) then ResolveFieldValue(lib, scope, v)
    else if Blank(v.literal) then None
    else if !isString && !HasInterpolation(v.literal) then ResolveFieldValue(lib, scope, v)
    else if isString && lib.knownString(v.literal) then Some(Typed(v.literal))
    else if HasInterpolation(v.literal) then
      if lib.validExpression(InQuotes(v.literal)) then Some(Template(v.literal)) else None
    else Some(Constant(v.literal))
  }

  const EXPRESSION_PREFIXES: seq<string> := ["count.", "data.", "each.", "module.", "var."]

  predicate IsExpressionKey(key: string) {
    exists p :: p in EXPRESSION_PREFIXES && HasPrefix(key, p)
  }

  function KeyText(lib: Library, kind: string, key: string): Option<FieldKey> {
    if kind == "object" && ValidIdentifier(lib, key) then Some(Identifier(key))
    else
      var trimmed := TrimSpace(key);
      if !IsExpressionKey(trimmed) then Some(QuotedKey(trimmed))
      else if lib.validExpression("(" + trimmed + ")") then Some(ExpressionKey(trimmed))
      else None
  }

  function NameIn(kind: string, e: InputEntry): string {
    if kind == "object" then e.name else e.key
  }

  function EntryPosition(kind: string, e: InputEntry): Position {
    if kind == "object" then ObjectName(e.name) else MapKey
  }

  function EntryType(kind: string, e: InputEntry, t: InputType): InputType {
    NestedInputType(t, EntryPosition(kind, e))
  }

  ghost predicate InsideInput(values: seq<InputValue>, within: InputValue) {
    forall i :: 0 <= i < |values| ==> values[i] < within
  }

  ghost predicate InsideEntries(entries: seq<InputEntry>, within: InputValue) {
    forall i :: 0 <= i < |entries| ==> entries[i].value < within
  }

  // ------------------------------------------------------------------ the expression for an input

  function InputText(lib: Library, scope: Scope, value: InputValue, t: InputType): Option<Expression>
    decreases value, 1
  {
    if value.kind == "scalar" then
      if value.value.None? then None else ScalarText(lib, scope, value.value.value, t == Some(CtyTypes.String))
    else if value.kind == "list" then
      match AllSome(ItemTexts(lib, scope, value.items, t, value))
      case Some(items) => Some(Items(items))
      case None => None
    else if value.kind == "map" || value.kind == "object" then
      match AllSome(FieldTexts(lib, scope, value.kind, value.entries, t, value))
      case Some(fields) => Some(Fields(fields))
      case None => None
    else None
  }

  /** The items of a list, each at the type of its position. */
  function ItemTexts(lib: Library, scope: Scope, items: seq<InputValue>, t: InputType, within: InputValue): (r: seq<Option<Expression>>)
    requires InsideInput(items, within)
    ensures |r| == |items|
    ensures forall i :: 0 <= i < |items| ==> r[i] == InputText(lib, scope, items[i], NestedInputType(t, Element(i)))
    decreases within, 0
  {
    seq(|items|, i requires 0 <= i < |items| => InputText(lib, scope, items[i], NestedInputType(t, Element(i))))
  }

  function FieldTexts(lib: Library, scope: Scope, kind: string, entries: seq<InputEntry>, t: InputType, within: InputValue)
    : (r: seq<Option<Field>>)
    requires InsideEntries(entries, within)
    ensures |r| == |entries|
    ensures forall i :: 0 <= i < |entries| ==>
      r[i] == FieldText(lib, kind, entries[i], InputText(lib, scope, entries[i].value, EntryType(kind, entries[i], t)))
    decreases within, 0, |entries|
  {
    if entries == [] then []
    else
      [FieldText(lib, kind, entries[0], InputText(lib, scope, entries[0].value, EntryType(kind, entries[0], t)))]
      + FieldTexts(lib, scope, kind, entries[1..], t, within)
  }

  function FieldText(lib: Library, kind: string, e: InputEntry, value: Option<Expression>): Option<Field> {
    match (KeyText(lib, kind, NameIn(kind, e)), value)
    case (Some(key), Some(v)) => Some(Field(key, v))
    case _ => None
  }

  method RenderInputValue(lib: Library, scope: Scope, value: InputValue, t: InputType) returns (r: Option<Expression>)
    ensures r == InputText(lib, scope, value, t)
    decreases value, 1
  {
    if value.kind == "scalar" {
      if value.value.None? {
        return None;
      }
      return ScalarText(lib, scope, value.value.value, t == Some(CtyTypes.String));
    }
    if value.kind == "list" {
      r := RenderItems(lib, scope, value, t);
    } else if value.kind == "map" || value.kind == "object" {
      r := RenderFields(lib, scope, value, t);
    } else {
      r := None;
    }
  }

  method RenderItems(lib: Library, scope: Scope, value: InputValue, t: InputType) returns (r: Option<Expression>)
    requires value.kind == "list"
    ensures r == InputText(lib, scope, value, t)
    decreases value, 0
  {
    hide InputText, NestedInputType, ItemTexts, Collected;
    ghost var all := ItemTexts(lib, scope, value.items, t, value);
    ListText(lib, scope, value, t);
    var parts: seq<Expression> := [];
    StartCollecting(all);
    for i := 0 to |value.items|
      invariant |parts| == i && Collected(all, parts)
    {
      var part := RenderInputValue(lib, scope, value.items[i], NestedInputType(t, Element(i)));
      assert part == all[i];
      if part.None? {
        OneMissing(all, i);
        return None;
      }
      CollectNext(all, parts, part.value);
      parts := parts + [part.value];
    }
    CollectedAll(all, parts);
    return Some(Items(parts));
  }

  method RenderFields(lib: Library, scope: Scope, value: InputValue, t: InputType) returns (r: Option<Expression>)
    requires value.kind == "map" || value.kind == "object"
    ensures r == InputText(lib, scope, value, t)
    decreases value, 0
  {
    hide InputText, EntryType, KeyText, NameIn, FieldTexts, Collected;
    ghost var all := FieldTexts(lib, scope, value.kind, value.entries, t, value);
    StructureText(lib, scope, value, t);
    var parts: seq<Field> := [];
    StartCollecting(all);
    for i := 0 to |value.entries|
      invariant |parts| == i && Collected(all, parts)
    {
      var entry := value.entries[i];
      var key := KeyText(lib, value.kind, NameIn(value.kind, entry));
      if key.None? {
        assert all[i].None?;
        OneMissing(all, i);
        return None;
      }
      var item := RenderInputValue(lib, scope, entry.value, EntryType(value.kind, entry, t));
      if item.None? {
        assert all[i].None?;
        OneMissing(all, i);
        return None;
      }
      assert all[i] == Some(Field(key.value, item.value));
      CollectNext(all, parts, Field(key.value, item.value));
      parts := parts + [Field(key.value, item.value)];
    }
    CollectedAll(all, parts);
    return Some(Fields(parts));
  }

  lemma {:induction false} ListText(lib: Library, scope: Scope, value: InputValue, t: InputType)
    requires value.kind == "list"
    ensures InputText(lib, scope, value, t) ==
      match AllSome(ItemTexts(lib, scope, value.items, t, value))
      case Some(items) => Some(Items(items))
      case None => None
  {
  }

  lemma {:induction false} StructureText(lib: Library, scope: Scope, value: InputValue, t: InputType)
    requires value.kind == "map" || value.kind == "object"
    ensures InputText(lib, scope, value, t) ==
      match AllSome(FieldTexts(lib, scope, value.kind, value.entries, t, value))
      case Some(fields) => Some(Fields(fields))
      case None => None
  {
  }

  // ------------------------------------------------------------------ which inputs are accepted

  ghost predicate ScalarFits(lib: Library, scope: Scope, v: FieldValue, isString: bool) {
    if v.mode != "literal" || IsIterationExpression(v.literal) then FitsThroughout(lib, scope, v)
    else
      && !Blank(v.literal)
      && ((isString && lib.knownString(v.literal))
          || (if HasInterpolation(v.literal) then lib.validExpression(InQuotes(v.literal)) else isString || lib.validExpression(v.literal)))
  }

  /** Every scalar fits the type of its place, and every key can be written, at every depth. */
  ghost predicate InputFits(lib: Library, scope: Scope, value: InputValue, t: InputType)
    decreases value
  {
    if value.kind == "scalar" then value.value.Some? && ScalarFits(lib, scope, value.value.value, t == Some(CtyTypes.String))
    else if value.kind == "list" then
      forall i :: 0 <= i < |value.items| ==> InputFits(lib, scope, value.items[i], NestedInputType(t, Element(i)))
    else
      && (value.kind == "map" || value.kind == "object")
      && forall i :: 0 <= i < |value.entries| ==>
        && KeyText(lib, value.kind, NameIn(value.kind, value.entries[i])).Some?
        && InputFits(lib, scope, value.entries[i].value, EntryType(value.kind, value.entries[i], t))
  }

  lemma {:induction false} ScalarAcceptedIff(lib: Library, scope: Scope, v: FieldValue, isString: bool)
    ensures ScalarText(lib, scope, v, isString).Some? <==> ScalarFits(lib, scope, v, isString)
  {
    hide IsIterationExpression, HasInterpolation, TrimLeft, TrimRight;
    ResolvesIff(lib, scope, v);
  }

  /** An input is accepted exactly when it fits its declared type, at every depth. */
  lemma {:induction false} InputAcceptedIff(lib: Library, scope: Scope, value: InputValue, t: InputType)
    ensures InputText(lib, scope, value, t).Some? <==> InputFits(lib, scope, value, t)
    decreases value
  {
    hide ScalarText, ScalarFits, KeyText, NestedInputType, EntryType, NameIn;
    if value.kind == "scalar" {
      if value.value.Some? {
        ScalarAcceptedIff(lib, scope, value.value.value, t == Some(CtyTypes.String));
      }
    } else if value.kind == "list" {
      forall i | 0 <= i < |value.items|
        ensures InputText(lib, scope, value.items[i], NestedInputType(t, Element(i))).Some?
           <==> InputFits(lib, scope, value.items[i], NestedInputType(t, Element(i)))
      {
        InputAcceptedIff(lib, scope, value.items[i], NestedInputType(t, Element(i)));
      }
      ListText(lib, scope, value, t);
    } else if value.kind == "map" || value.kind == "object" {
      forall i | 0 <= i < |value.entries|
        ensures InputText(lib, scope, value.entries[i].value, EntryType(value.kind, value.entries[i], t)).Some?
           <==> InputFits(lib, scope, value.entries[i].value, EntryType(value.kind, value.entries[i], t))
      {
        InputAcceptedIff(lib, scope, value.entries[i].value, EntryType(value.kind, value.entries[i], t));
      }
      StructureText(lib, scope, value, t);
    }
  }

  // ------------------------------------------------------------------ closure

  lemma {:induction false} ScalarIsClosed(lib: Library, scope: Scope, v: FieldValue, isString: bool)
    requires ScalarText(lib, scope, v, isString).Some?
    ensures Mentions(ScalarText(lib, scope, v, isString).value) <= NamesIn(scope)
  {
    hide NamesIn, ResolveFieldValue;
    if ScalarText(lib, scope, v, isString) == ResolveFieldValue(lib, scope, v) {
      ResolvedIsClosed(lib, scope, v);
    }
  }

  /** An input names only nodes of the request, at every depth. */
  lemma {:induction false} InputIsClosed(lib: Library, scope: Scope, value: InputValue, t: InputType)
    requires InputText(lib, scope, value, t).Some?
    ensures Mentions(InputText(lib, scope, value, t).value) <= NamesIn(scope)
    decreases value
  {
    hide NamesIn, ScalarText, KeyText, NestedInputType;
    if value.kind == "scalar" {
      ScalarIsClosed(lib, scope, value.value.value, t == Some(CtyTypes.String));
    } else if value.kind == "list" {
      ListText(lib, scope, value, t);
      ListIsClosed(lib, scope, value, t);
    } else {
      StructureText(lib, scope, value, t);
      StructureIsClosed(lib, scope, value, t);
    }
  }

  lemma {:induction false} ListIsClosed(lib: Library, scope: Scope, value: InputValue, t: InputType)
    requires value.kind == "list" && InputText(lib, scope, value, t).Some?
    ensures Mentions(InputText(lib, scope, value, t).value) <= NamesIn(scope)
    decreases value, 0
  {
    hide NamesIn, InputText, NestedInputType;
    ListText(lib, scope, value, t);
    var items := InputText(lib, scope, value, t).value.items;
    forall i | 0 <= i < |items| ensures Mentions(items[i]) <= NamesIn(scope) {
      InputIsClosed(lib, scope, value.items[i], NestedInputType(t, Element(i)));
    }
  }

  lemma {:induction false} StructureIsClosed(lib: Library, scope: Scope, value: InputValue, t: InputType)
    requires (value.kind == "map" || value.kind == "object") && InputText(lib, scope, value, t).Some?
    ensures Mentions(InputText(lib, scope, value, t).value) <= NamesIn(scope)
    decreases value, 0
  {
    hide NamesIn, InputText, NestedInputType, KeyText;
    StructureText(lib, scope, value, t);
    var fields := InputText(lib, scope, value, t).value.fields;
    forall i | 0 <= i < |fields| ensures Mentions(fields[i].value) <= NamesIn(scope) {
      InputIsClosed(lib, scope, value.entries[i].value, EntryType(value.kind, value.entries[i], t));
    }
  }

  // ------------------------------------------------------------------ whether an input was provided

  predicate InputValueProvided(value: InputValue) {
    if value.kind == "scalar" then
      value.value.Some? && (value.value.value.mode != "literal" || !Blank(value.value.value.literal))
    else if value.kind == "list" then |value.items| > 0
    else |value.entries| > 0
  }
}
