/**
  What module inputs mean: structured canvas values by node, and the expressions emitted for them by name.
 */
module InputMeaning {
  import opened Basics
  import opened Strings
  import opened AssemblyTypes
  import opened References
  import opened ReferenceMeaning
  import opened ModuleInputs
  import CtyTypes

  // ------------------------------------------------------------------ what an input denotes

  /** Text typed where a string is declared stands for itself, unless it reads as an expression or holds an interpolation. */
  ghost function ScalarDenotes(lib: Library, scope: Scope, world: World, v: FieldValue, isString: bool): Value
    requires Covers(world, scope)
  {
    if v.mode != "literal" || IsIterationExpression(v.literal) then Denotes(scope, world, v)
    else if isString && lib.knownString(v.literal) then world.typed(v.literal)
    else if HasInterpolation(v.literal) then world.template(v.literal)
    else if isString then Text(v.literal)
    else world.typed(v.literal)
  }

  ghost function KeyDenotes(lib: Library, world: World, kind: string, e: InputEntry): string {
    var key := NameIn(kind, e);
    if kind == "object" && ValidIdentifier(lib, key) then key
    else if !IsExpressionKey(TrimSpace(key)) then TrimSpace(key)
    else if world.typed(TrimSpace(key)).Text? then world.typed(TrimSpace(key)).s else ""
  }

  ghost function InputDenotes(lib: Library, scope: Scope, world: World, value: InputValue, t: InputType): Value
    requires Covers(world, scope)
    decreases value, 1
  {
    if value.kind == "scalar" then
      if value.value.None? then Unknown else ScalarDenotes(lib, scope, world, value.value.value, t == Some(CtyTypes.String))
    else if value.kind == "list" then
      ListOf(seq(|value.items|, i requires 0 <= i < |value.items| =>
        InputDenotes(lib, scope, world, value.items[i], NestedInputType(t, Element(i)))))
    else MapOf(EntriesDenote(lib, scope, world, value.kind, value.entries, t, value))
  }

  /** The entries by key, a later one replacing an earlier one. */
  ghost function EntriesDenote(lib: Library, scope: Scope, world: World, kind: string, entries: seq<InputEntry>, t: InputType, within: InputValue)
    : map<string, Value>
    requires Covers(world, scope) && InsideEntries(entries, within)
    decreases within, 0, |entries|
  {
    if entries == [] then map[]
    else
      var last := entries[|entries| - 1];
      EntriesDenote(lib, scope, world, kind, entries[..|entries| - 1], t, within)
        [KeyDenotes(lib, world, kind, last) := InputDenotes(lib, scope, world, last.value, EntryType(kind, last, t))]
  }

  /** Every reference in the input keeps its meaning, at every depth. */
  ghost predicate InputIsDirect(lib: Library, scope: Scope, value: InputValue)
    decreases value
  {
    if value.kind == "scalar" then value.value.Some? ==> Direct(lib, scope, value.value.value)
    else if value.kind == "list" then forall i :: 0 <= i < |value.items| ==> InputIsDirect(lib, scope, value.items[i])
    else forall i :: 0 <= i < |value.entries| ==> InputIsDirect(lib, scope, value.entries[i].value)
  }

  /** The expression emitted for an input denotes the input's value on the canvas. */
  lemma {:induction false} InputMeans(lib: Library, scope: Scope, world: World, env: Env, value: InputValue, t: InputType)
    requires Covers(world, scope) && Represents(lib, env, world, scope)
    requires InputText(lib, scope, value, t).Some? && InputIsDirect(lib, scope, value)
    ensures Evaluate(env, InputText(lib, scope, value, t).value) == InputDenotes(lib, scope, world, value, t)
    decreases value, 1
  {
    hide Represents, Covers, ScalarText, ScalarDenotes, KeyText, KeyDenotes, NestedInputType, Evaluate;
    if value.kind == "scalar" {
      ScalarMeans(lib, scope, world, env, value.value.value, t == Some(CtyTypes.String));
    } else if value.kind == "list" {
      ListMeans(lib, scope, world, env, value, t);
    } else {
      StructureMeans(lib, scope, world, env, value, t);
    }
  }

  lemma {:induction false} ScalarMeans(lib: Library, scope: Scope, world: World, env: Env, v: FieldValue, isString: bool)
    requires Covers(world, scope) && Represents(lib, env, world, scope)
    requires ScalarText(lib, scope, v, isString).Some? && Direct(lib, scope, v)
    ensures Evaluate(env, ScalarText(lib, scope, v, isString).value) == ScalarDenotes(lib, scope, world, v, isString)
  {
    hide Covers, HasInterpolation, IsIterationExpression, TrimLeft, TrimRight;
    if ScalarText(lib, scope, v, isString) == ResolveFieldValue(lib, scope, v) {
      ResolvedMeans(lib, scope, world, env, v);
    }
  }

  lemma {:induction false} ListMeans(lib: Library, scope: Scope, world: World, env: Env, value: InputValue, t: InputType)
    requires Covers(world, scope) && Represents(lib, env, world, scope)
    requires value.kind == "list" && InputText(lib, scope, value, t).Some? && InputIsDirect(lib, scope, value)
    ensures Evaluate(env, InputText(lib, scope, value, t).value) == InputDenotes(lib, scope, world, value, t)
    decreases value, 0
  {
    hide Represents, Covers, InputText, NestedInputType;
    ListText(lib, scope, value, t);
    var items := InputText(lib, scope, value, t).value.items;
    forall i | 0 <= i < |items|
      ensures Evaluate(env, items[i]) == InputDenotes(lib, scope, world, value.items[i], NestedInputType(t, Element(i)))
    {
      InputMeans(lib, scope, world, env, value.items[i], NestedInputType(t, Element(i)));
    }
  }

  lemma {:induction false} StructureMeans(lib: Library, scope: Scope, world: World, env: Env, value: InputValue, t: InputType)
    requires Covers(world, scope) && Represents(lib, env, world, scope)
    requires (value.kind == "map" || value.kind == "object") && InputText(lib, scope, value, t).Some? && InputIsDirect(lib, scope, value)
    ensures Evaluate(env, InputText(lib, scope, value, t).value) == InputDenotes(lib, scope, world, value, t)
    decreases value, 0
  {
    hide Covers, InputText, EntryType, KeyText, KeyDenotes, Represents, InputDenotes, Evaluate, NameIn;
    StructureText(lib, scope, value, t);
    var e := InputText(lib, scope, value, t).value;
    forall i | 0 <= i < |e.fields| ensures FieldMeans(lib, scope, world, env, value.kind, value.entries[i], t, e.fields[i]) {
      InputMeans(lib, scope, world, env, value.entries[i].value, EntryType(value.kind, value.entries[i], t));
      KeyMeans(lib, scope, world, env, value.kind, value.entries[i]);
    }
    FieldsMean(lib, scope, world, env, value.kind, value.entries, t, value, e.fields, e);
    FieldsValue(env, e);
    StructureValue(lib, scope, world, value, t);
  }

  lemma {:induction false} FieldsValue(env: Env, e: Expression)
    requires e.Fields?
    ensures Evaluate(env, e) == MapOf(EvaluateFields(env, e.fields, e))
  {
  }

  lemma {:induction false} StructureValue(lib: Library, scope: Scope, world: World, value: InputValue, t: InputType)
    requires Covers(world, scope) && (value.kind == "map" || value.kind == "object")
    ensures InputDenotes(lib, scope, world, value, t) == MapOf(EntriesDenote(lib, scope, world, value.kind, value.entries, t, value))
  {
  }

  /** A field has the key and the value of its entry. */
  ghost predicate FieldMeans(lib: Library, scope: Scope, world: World, env: Env, kind: string, e: InputEntry, t: InputType, field: Field)
    requires Covers(world, scope)
  {
    && Evaluate(env, field.value) == InputDenotes(lib, scope, world, e.value, EntryType(kind, e, t))
    && EvaluateKey(env, field.key) == KeyDenotes(lib, world, kind, e)
  }

  lemma {:induction false} KeyMeans(lib: Library, scope: Scope, world: World, env: Env, kind: string, e: InputEntry)
    requires Covers(world, scope) && Represents(lib, env, world, scope)
    requires KeyText(lib, kind, NameIn(kind, e)).Some?
    ensures EvaluateKey(env, KeyText(lib, kind, NameIn(kind, e)).value) == KeyDenotes(lib, world, kind, e)
  {
    hide IsExpressionKey, TrimLeft, TrimRight, Covers;
  }

  lemma {:induction false} FieldsMean(lib: Library, scope: Scope, world: World, env: Env, kind: string, entries: seq<InputEntry>, t: InputType,
      within: InputValue, fields: seq<Field>, e: Expression)
    requires Covers(world, scope) && InsideEntries(entries, within)
    requires |fields| == |entries| && forall i :: 0 <= i < |fields| ==> fields[i].value < e
    requires forall i :: 0 <= i < |fields| ==> FieldMeans(lib, scope, world, env, kind, entries[i], t, fields[i])
    ensures EvaluateFields(env, fields, e) == EntriesDenote(lib, scope, world, kind, entries, t, within)
    decreases |fields|
  {
    hide Covers, EntryType, KeyDenotes, EvaluateKey, Evaluate, InputDenotes;
    if fields != [] {
      FieldsMean(lib, scope, world, env, kind, entries[..|entries| - 1], t, within, fields[..|fields| - 1], e);
    }
  }
}
