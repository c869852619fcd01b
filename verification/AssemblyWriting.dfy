/**
  Which requests without diagnostics can be written: every expression has to read as HCL once more when
  the files are written. The library's reading is a parameter, and is used only as far as the grammar of
  `HclExpressions` decides it: for typed text by itself, and for expressions whose typed parts stand alone.
 */
module AssemblyWriting {
  import opened Basics
  import opened Strings
  import opened Sorting
  import opened AssemblyTypes
  import opened References
  import opened ReferenceMeaning
  import opened HclExpressions
  import opened HclReading
  import opened ModuleInputs
  import opened InputMeaning
  import opened ProviderConfig
  import opened AssemblyBuild
  import opened AssemblyRender
  import opened AssemblyOutput
  import AssemblyMeaning
  import ProviderSchema
  import CtyTypes
  import TypePrinter
  import ValuePrinter

  // ------------------------------------------------------------------ what the library reads

  /**
    The library reads typed text that it found valid, and the text of well-formed expressions as the grammar
    says. `HclReading.ReadWritten` shows which of those that are.
   */
  ghost predicate ReadsAsHcl(lib: Library, accepts: Reader) {
    && ConditionalsComeApart(lib)
    && (forall t :: accepts(Typed(t)) <==> lib.validExpression(t))
    && (forall e :: WellFormed(lib, e) && !e.Typed? ==> (accepts(e) <==> ReadExpression(lib, Written(lib, e)).Some?))
  }

  lemma {:induction false} AcceptedIff(lib: Library, accepts: Reader, e: Expression)
    requires ReadsAsHcl(lib, accepts) && WellFormed(lib, e)
    ensures accepts(e) <==> Legible(lib, e)
  {
    hide ConditionalsComeApart, ReadExpression, Written;
    ReadWritten(lib, e);
  }

  // ------------------------------------------------------------------ references

  ghost predicate NamesValid(lib: Library, scope: Scope) {
    && (forall id :: id in scope.variables ==> ValidIdentifier(lib, scope.variables[id].name))
    && (forall id :: id in scope.modules ==> ValidIdentifier(lib, scope.modules[id].localName))
  }

  /** The field may be written between other text: its text, and that of the indexes and keys it uses, stands alone, and outputs are plain. */
  ghost predicate StandsInside(lib: Library, scope: Scope, v: FieldValue)
    decreases v
  {
    && (v.mode == "literal" ==> lib.standsAlone(v.literal))
    && (v.mode == "reference" ==> PlainPath(lib, PathOf(v.refOutput)))
    && forall u :: u in Used(scope, v) && u < v ==> StandsInside(lib, scope, u)
  }

  ghost predicate FieldIsPlain(lib: Library, scope: Scope, v: FieldValue) {
    v.mode != "literal" ==> StandsInside(lib, scope, v)
  }

  /** What a reference is written as. */
  ghost predicate Referring(lib: Library, e: Expression) {
    WellFormed(lib, e) && Legible(lib, e) && (Traversable(e) || e.Splat?)
  }

  lemma {:induction false} ReferringBegins(lib: Library, e: Expression)
    requires Referring(lib, e)
    ensures !BeginsFor(lib, e) && !e.Typed? && !e.Choice?
  {
  }

  lemma {:induction false} PathRefers(lib: Library, e: Expression, path: seq<string>)
    requires Referring(lib, e) && PlainPath(lib, path)
    ensures Referring(lib, WithPath(e, path))
    decreases |path|
  {
    hide Referring;
    if path != [] {
      var before, last := path[..|path| - 1], path[|path| - 1];
      assert ValidIdentifier(lib, last);
      PathRefers(lib, e, before);
      AttributeRefers(lib, WithPath(e, before), last);
    }
  }

  lemma {:induction false} AttributeRefers(lib: Library, e: Expression, name: string)
    requires Referring(lib, e) && ValidIdentifier(lib, name)
    ensures Referring(lib, WithAttribute(e, name))
  {
    hide WellFormed, Legible, ValidIdentifier;
    AttributeWritten(lib, e, name);
  }

  lemma {:induction false} IndexRefers(lib: Library, e: Expression, index: Expression)
    requires Referring(lib, e) && WellFormed(lib, index) && Legible(lib, index)
    ensures Referring(lib, WithIndex(e, index))
  {
    hide WellFormed, Legible;
    IndexWritten(lib, e, index);
  }

  /** A resolved field that may be written between other text is well formed and legible. */
  lemma {:induction false} ResolvedReads(lib: Library, scope: Scope, v: FieldValue)
    requires ResolveFieldValue(lib, scope, v).Some? && NamesValid(lib, scope) && StandsInside(lib, scope, v)
    ensures var e := ResolveFieldValue(lib, scope, v).value; WellFormed(lib, e) && Legible(lib, e)
    ensures v.mode != "literal" ==> Referring(lib, ResolveFieldValue(lib, scope, v).value)
    decreases v, 1
  {
    hide PathOf, ModuleOutput, NamesValid, Referring;
    if v.mode == "reference" {
      if v.refNodeID in scope.variables {
        RootRefers(lib, scope, v.refNodeID);
        var base := Variable(scope.variables[v.refNodeID].name);
        PathRefers(lib, base, PathOf(v.refOutput));
        SelectedRefers(lib, scope, v, WithPath(base, PathOf(v.refOutput)));
      } else {
        OutputRefers(lib, scope, v);
        SelectedRefers(lib, scope, v, ModuleOutput(lib, scope, scope.modules[v.refNodeID], v.refOutput, v.refSelector).value);
      }
      RefersIsLegible(lib, ResolveFieldValue(lib, scope, v).value);
    }
  }

  lemma {:induction false} RefersIsLegible(lib: Library, e: Expression)
    requires Referring(lib, e)
    ensures WellFormed(lib, e) && Legible(lib, e)
  {
  }

  lemma {:induction false} RootRefers(lib: Library, scope: Scope, id: string)
    requires NamesValid(lib, scope)
    ensures id in scope.variables ==> Referring(lib, Variable(scope.variables[id].name))
    ensures id in scope.modules ==>
      var base := Module(scope.modules[id].localName); Referring(lib, base) && Referring(lib, Splat(base, []))
  {
    hide ValidIdentifier;
  }

  lemma {:induction false} SelectedRefers(lib: Library, scope: Scope, v: FieldValue, e: Expression)
    requires ResolveFieldValue(lib, scope, v).Some? && NamesValid(lib, scope) && StandsInside(lib, scope, v) && v.mode == "reference"
    requires Referring(lib, e) && ApplyOutputSelector(lib, scope, e, v.refOutputSelector).Some?
    ensures Referring(lib, ApplyOutputSelector(lib, scope, e, v.refOutputSelector).value)
    decreases v, 0
  {
    hide NamesValid, PathOf, WellFormed, Legible, Referring, ModuleOutput;
    var selector := v.refOutputSelector;
    if selector.Some? && selector.value.kind != "all" {
      var u := selector.value.expr.value;
      assert u in Used(scope, v);
      ResolvedReads(lib, scope, u);
      IndexRefers(lib, e, ResolveFieldValue(lib, scope, u).value);
    }
  }

  lemma {:induction false} OutputRefers(lib: Library, scope: Scope, v: FieldValue)
    requires ResolveFieldValue(lib, scope, v).Some? && NamesValid(lib, scope) && StandsInside(lib, scope, v)
    requires v.mode == "reference" && v.refNodeID !in scope.variables
    ensures Referring(lib, ModuleOutput(lib, scope, scope.modules[v.refNodeID], v.refOutput, v.refSelector).value)
    decreases v, 0
  {
    hide NamesValid, PathOf, ModuleOutput, WithPath, PlainPath, ModuleForEachKeys, Referring, WellFormed, Legible;
    var m, path := scope.modules[v.refNodeID], PathOf(v.refOutput);
    var base := Module(m.localName);
    ModuleOutputIsOneOf(lib, scope, m, v.refOutput, v.refSelector);
    RootRefers(lib, scope, v.refNodeID);
    if v.refSelector.None? {
      PathRefers(lib, base, path);
    } else if v.refSelector.value.kind == "all" {
      PathRefers(lib, Splat(base, []), path);
      EachRefers(lib, base, path);
    } else {
      var u := v.refSelector.value.expr.value;
      assert u in Used(scope, v);
      ResolvedReads(lib, scope, u);
      var index := InstanceIndex(lib, scope, m, u);
      ConstantReads(lib, u.literal);
      IndexRefers(lib, base, index);
      assert WithIndex(base, index) == Index(base, index);
      PathRefers(lib, Index(base, index), path);
    }
  }

  lemma {:induction false} EachRefers(lib: Library, e: Expression, path: seq<string>)
    requires Referring(lib, e) && PlainPath(lib, path)
    ensures Referring(lib, EachInstance(e, path))
  {
    hide ValidIdentifier;
  }

  lemma {:induction false} ConstantReads(lib: Library, t: string)
    ensures WellFormed(lib, Constant(t)) && Legible(lib, Constant(t)) && !BeginsFor(lib, Constant(t))
  {
  }

  // ------------------------------------------------------------------ inputs

  /** Whether an accepted scalar is written as it was typed. */
  predicate WrittenAsTyped(lib: Library, v: FieldValue, isString: bool) {
    v.mode == "literal" && (IsIterationExpression(v.literal) || if isString then lib.knownString(v.literal) else !HasInterpolation(v.literal))
  }

  /** The scalar may be written between other text. */
  ghost predicate ScalarStands(lib: Library, scope: Scope, v: FieldValue, isString: bool) {
    if v.mode != "literal" then StandsInside(lib, scope, v)
    else if WrittenAsTyped(lib, v, isString) then lib.validExpression(v.literal) && lib.standsAlone(v.literal)
    else HasInterpolation(v.literal) ==> lib.standsAlone(lib.kept(InQuotes(v.literal)))
  }

  predicate KeyStands(lib: Library, kind: string, e: InputEntry) {
    var key := KeyText(lib, kind, NameIn(kind, e));
    key.Some? && key.value.ExpressionKey? ==> lib.standsAlone(lib.kept("(" + key.value.text + ")"))
  }

  /** Every scalar and key of the input may be written between other text. */
  ghost predicate InputStands(lib: Library, scope: Scope, value: InputValue, t: InputType)
    decreases value
  {
    if value.kind == "scalar" then value.value.Some? ==> ScalarStands(lib, scope, value.value.value, t == Some(CtyTypes.String))
    else if value.kind == "list" then
      forall i :: 0 <= i < |value.items| ==> InputStands(lib, scope, value.items[i], NestedInputType(t, Element(i)))
    else
      forall i :: 0 <= i < |value.entries| ==>
        && KeyStands(lib, value.kind, value.entries[i])
        && InputStands(lib, scope, value.entries[i].value, EntryType(value.kind, value.entries[i], t))
  }

  predicate TypedInput(lib: Library, value: InputValue, t: InputType) {
    value.kind == "scalar" && value.value.Some? && WrittenAsTyped(lib, value.value.value, t == Some(CtyTypes.String))
  }

  /** Typed text has nothing around it at the top; everything else stands alone. */
  ghost predicate InputIsPlain(lib: Library, scope: Scope, value: InputValue, t: InputType) {
    TypedInput(lib, value, t) || InputStands(lib, scope, value, t)
  }

  predicate InputBeginsFor(lib: Library, value: InputValue, t: InputType) {
    TypedInput(lib, value, t) && lib.startsFor(value.value.value.literal)
  }

  /**
    Text over known names is not valid where it is written, some list has typed text beginning with `for` as
    its first item, or some object lists `for` first.
   */
  ghost predicate InputMisread(lib: Library, value: InputValue, t: InputType)
    decreases value
  {
    if value.kind == "list" then
      || (value.items != [] && InputBeginsFor(lib, value.items[0], NestedInputType(t, Element(0))))
      || exists i :: 0 <= i < |value.items| && InputMisread(lib, value.items[i], NestedInputType(t, Element(i)))
    else if value.kind == "map" || value.kind == "object" then
      || (value.kind == "object" && value.entries != [] && value.entries[0].name == "for" && ValidIdentifier(lib, "for"))
      || exists i :: 0 <= i < |value.entries| && InputMisread(lib, value.entries[i].value, EntryType(value.kind, value.entries[i], t))
    else TypedInput(lib, value, t) && !lib.validExpression(value.value.value.literal)
  }

  lemma {:induction false} TypedScalar(lib: Library, scope: Scope, v: FieldValue, isString: bool)
    requires ScalarText(lib, scope, v, isString).Some? && v.mode == "literal"
    ensures ScalarText(lib, scope, v, isString).value ==
      if WrittenAsTyped(lib, v, isString) then Typed(v.literal)
      else if HasInterpolation(v.literal) then Template(v.literal)
      else Constant(v.literal)
    ensures !WrittenAsTyped(lib, v, isString) && HasInterpolation(v.literal) ==> lib.validExpression(InQuotes(v.literal))
  {
    hide IsIterationExpression, HasInterpolation, InQuotes, TrimLeft, TrimRight;
  }

  lemma {:induction false} ScalarReads(lib: Library, scope: Scope, v: FieldValue, isString: bool)
    requires ScalarText(lib, scope, v, isString).Some? && NamesValid(lib, scope) && ScalarStands(lib, scope, v, isString)
    ensures var e := ScalarText(lib, scope, v, isString).value;
      WellFormed(lib, e) && Legible(lib, e) && (BeginsFor(lib, e) <==> WrittenAsTyped(lib, v, isString) && lib.startsFor(v.literal))
  {
    hide ResolveFieldValue, NamesValid, StandsInside, WrittenAsTyped, Referring, HasInterpolation, IsIterationExpression, InQuotes, TrimLeft, TrimRight;
    if v.mode == "literal" {
      TypedScalar(lib, scope, v, isString);
    } else {
      ResolvedReads(lib, scope, v);
      ReferringBegins(lib, ResolveFieldValue(lib, scope, v).value);
      assert !WrittenAsTyped(lib, v, isString) by { NotTyped(lib, v, isString); }
    }
  }

  lemma {:induction false} NotTyped(lib: Library, v: FieldValue, isString: bool)
    requires v.mode != "literal"
    ensures !WrittenAsTyped(lib, v, isString)
  {
  }

  /** The expression for an input that may be written between other text is legible exactly when it is not misread. */
  lemma {:induction false} NestedInputReads(lib: Library, scope: Scope, value: InputValue, t: InputType)
    requires InputText(lib, scope, value, t).Some? && NamesValid(lib, scope) && InputStands(lib, scope, value, t)
    ensures WellFormed(lib, InputText(lib, scope, value, t).value)
    ensures Legible(lib, InputText(lib, scope, value, t).value) <==> !InputMisread(lib, value, t)
    ensures BeginsFor(lib, InputText(lib, scope, value, t).value) <==> InputBeginsFor(lib, value, t)
    decreases value, 1
  {
    hide WellFormed, Legible, NamesValid, ScalarText, NestedInputType, ItemTexts, FieldTexts, WrittenAsTyped;
    if value.kind == "scalar" {
      ScalarReads(lib, scope, value.value.value, t == Some(CtyTypes.String));
      if value.value.value.mode != "literal" {
        NotTyped(lib, value.value.value, t == Some(CtyTypes.String));
      }
    } else if value.kind == "list" {
      ListReads(lib, scope, value, t);
    } else {
      StructureReads(lib, scope, value, t);
    }
  }

  lemma {:induction false} ListReads(lib: Library, scope: Scope, value: InputValue, t: InputType)
    requires value.kind == "list"
    requires InputText(lib, scope, value, t).Some? && NamesValid(lib, scope) && InputStands(lib, scope, value, t)
    ensures var e := InputText(lib, scope, value, t).value; e.Items? && WellFormed(lib, e) && (Legible(lib, e) <==> !InputMisread(lib, value, t))
    decreases value, 0
  {
    hide NamesValid, InputText, NestedInputType, InputBeginsFor, BeginsFor;
    ListText(lib, scope, value, t);
    var items := InputText(lib, scope, value, t).value.items;
    forall i | 0 <= i < |items|
      ensures WellFormed(lib, items[i])
      ensures Legible(lib, items[i]) <==> !InputMisread(lib, value.items[i], NestedInputType(t, Element(i)))
      ensures BeginsFor(lib, items[i]) <==> InputBeginsFor(lib, value.items[i], NestedInputType(t, Element(i)))
    {
      NestedInputReads(lib, scope, value.items[i], NestedInputType(t, Element(i)));
    }
  }

  lemma {:induction false} StructureReads(lib: Library, scope: Scope, value: InputValue, t: InputType)
    requires value.kind == "map" || value.kind == "object"
    requires InputText(lib, scope, value, t).Some? && NamesValid(lib, scope) && InputStands(lib, scope, value, t)
    ensures var e := InputText(lib, scope, value, t).value; e.Fields? && WellFormed(lib, e) && (Legible(lib, e) <==> !InputMisread(lib, value, t))
    decreases value, 0
  {
    hide NamesValid, InputText, EntryType, KeyText, WellFormedKey, InputBeginsFor;
    StructureText(lib, scope, value, t);
    var fields := InputText(lib, scope, value, t).value.fields;
    forall i | 0 <= i < |fields|
      ensures WellFormed(lib, fields[i].value) && WellFormedKey(lib, fields[i].key)
      ensures Legible(lib, fields[i].value) <==> !InputMisread(lib, value.entries[i].value, EntryType(value.kind, value.entries[i], t))
      ensures fields[i].key == Identifier("for") <==> value.kind == "object" && value.entries[i].name == "for" && ValidIdentifier(lib, "for")
    {
      NestedInputReads(lib, scope, value.entries[i].value, EntryType(value.kind, value.entries[i], t));
      KeyReads(lib, value.kind, value.entries[i]);
    }
  }

  lemma {:induction false} KeyReads(lib: Library, kind: string, e: InputEntry)
    requires KeyText(lib, kind, NameIn(kind, e)).Some?
    requires KeyStands(lib, kind, e)
    ensures var key := KeyText(lib, kind, NameIn(kind, e)).value;
      && WellFormedKey(lib, key)
      && (key == Identifier("for") <==> kind == "object" && e.name == "for" && ValidIdentifier(lib, "for"))
  {
    hide TrimLeft, TrimRight, IsExpressionKey;
  }

  /** The library reads the expression of a plain input exactly when the input is not misread. */
  lemma {:induction false} InputReads(lib: Library, accepts: Reader, scope: Scope, value: InputValue, t: InputType)
    requires ReadsAsHcl(lib, accepts) && NamesValid(lib, scope)
    requires InputText(lib, scope, value, t).Some? && InputIsPlain(lib, scope, value, t)
    ensures accepts(InputText(lib, scope, value, t).value) <==> !InputMisread(lib, value, t)
  {
    hide ScalarText, WrittenAsTyped, ConditionalsComeApart, WellFormed, NamesValid, ReadExpression, InputStands;
    if TypedInput(lib, value, t) {
      TypedIsLiteral(lib, value, t);
      TypedScalar(lib, scope, value.value.value, t == Some(CtyTypes.String));
    } else {
      NestedInputReads(lib, scope, value, t);
      AcceptedIff(lib, accepts, InputText(lib, scope, value, t).value);
    }
  }

  lemma {:induction false} TypedIsLiteral(lib: Library, value: InputValue, t: InputType)
    requires TypedInput(lib, value, t)
    ensures value.value.value.mode == "literal"
  {
  }

  // ------------------------------------------------------------------ what is written has the value on the canvas

  /** The text written for a reference reads, and read by name has the value that the reference has on the canvas. */
  lemma {:induction false} WrittenReferenceMeans(lib: Library, scope: Scope, world: World, env: Env, v: FieldValue)
    requires Covers(world, scope) && Represents(lib, env, world, scope) && NamesValid(lib, scope)
    requires ConditionalsComeApart(lib) && ReadsConditionals(lib, world.typed)
    requires ResolveFieldValue(lib, scope, v).Some? && Direct(lib, scope, v) && StandsInside(lib, scope, v)
    ensures var read := ReadExpression(lib, Written(lib, ResolveFieldValue(lib, scope, v).value));
      read.Some? && Evaluate(env, read.value) == Denotes(scope, world, v)
  {
    hide Covers, NamesValid, ConditionalsComeApart, ReadsConditionals, ResolveFieldValue, NoneAbsorbs, PlainOutputs, StandsInside, WellFormed, Legible, Referring,
      Written, ReadExpression, Evaluate, Denotes;
    ResolvedReads(lib, scope, v);
    ReadingKeepsValue(lib, env, ResolveFieldValue(lib, scope, v).value);
    ResolvedMeans(lib, scope, world, env, v);
  }

  /** The same for an input, at every depth. */
  lemma {:induction false} WrittenInputMeans(lib: Library, scope: Scope, world: World, env: Env, value: InputValue, t: InputType)
    requires Covers(world, scope) && Represents(lib, env, world, scope) && NamesValid(lib, scope)
    requires ConditionalsComeApart(lib) && ReadsConditionals(lib, world.typed)
    requires InputText(lib, scope, value, t).Some? && InputIsDirect(lib, scope, value)
    requires InputStands(lib, scope, value, t) && !InputMisread(lib, value, t)
    ensures var read := ReadExpression(lib, Written(lib, InputText(lib, scope, value, t).value));
      read.Some? && Evaluate(env, read.value) == InputDenotes(lib, scope, world, value, t)
  {
    hide Covers, NamesValid, ConditionalsComeApart, ReadsConditionals, InputText, InputIsDirect, InputStands, InputMisread, WellFormed, Legible,
      Written, ReadExpression, Evaluate, InputDenotes;
    NestedInputReads(lib, scope, value, t);
    ReadingKeepsValue(lib, env, InputText(lib, scope, value, t).value);
    InputMeans(lib, scope, world, env, value, t);
  }

  // ------------------------------------------------------------------ provider configurations

  ghost predicate ConfigurationIsPlain(lib: Library, scope: Scope, c: Configuration)
    decreases c
  {
    && (forall n :: n in c.arguments ==> FieldIsPlain(lib, scope, c.arguments[n]))
    && forall n :: n in c.blocks ==> forall i :: 0 <= i < |BlocksNamed(c, n)| ==> ConfigurationIsPlain(lib, scope, BlocksNamed(c, n)[i])
  }

  /** Text over known names that is not valid where it is written, as when it takes several lines. */
  predicate ArgumentMisread(lib: Library, v: FieldValue, a: ProviderSchema.Attribute) {
    v.mode == "literal" && a.t == Some(CtyTypes.String) && lib.knownString(v.literal) && !lib.validExpression(v.literal)
  }

  ghost predicate ConfigurationMisread(lib: Library, c: Configuration, schema: ProviderSchema.Block)
    decreases c
  {
    || (exists n :: n in c.arguments && n in schema.attributes && ArgumentMisread(lib, c.arguments[n], schema.attributes[n]))
    || exists n, i :: n in c.blocks && n in schema.blocks && 0 <= i < |BlocksNamed(c, n)|
         && ConfigurationMisread(lib, BlocksNamed(c, n)[i], schema.blocks[n].block)
  }

  lemma {:induction false} FieldReads(lib: Library, accepts: Reader, scope: Scope, v: FieldValue)
    requires ReadsAsHcl(lib, accepts) && NamesValid(lib, scope) && FieldIsPlain(lib, scope, v) && ResolveFieldValue(lib, scope, v).Some?
    ensures accepts(ResolveFieldValue(lib, scope, v).value)
  {
    hide NamesValid, StandsInside, ConditionalsComeApart, WellFormed, Legible, Referring, ReadExpression, ModuleOutput, PathOf;
    if v.mode != "literal" {
      ResolvedReads(lib, scope, v);
      AcceptedIff(lib, accepts, ResolveFieldValue(lib, scope, v).value);
    }
  }

  lemma {:induction false} ArgumentReads(lib: Library, accepts: Reader, scope: Scope, v: FieldValue, a: ProviderSchema.Attribute)
    requires ReadsAsHcl(lib, accepts) && NamesValid(lib, scope) && FieldIsPlain(lib, scope, v) && ArgumentText(lib, scope, v, a).Some?
    ensures accepts(ArgumentText(lib, scope, v, a).value) <==> !ArgumentMisread(lib, v, a)
  {
    hide ResolveFieldValue, NamesValid, FieldIsPlain, ConditionalsComeApart, WellFormed, Legible, ReadExpression, TrimLeft, TrimRight;
    if v.mode != "literal" || a.t != Some(CtyTypes.String) {
      FieldReads(lib, accepts, scope, v);
    } else if !lib.knownString(v.literal) {
      ConstantReads(lib, v.literal);
      AcceptedIff(lib, accepts, Constant(v.literal));
    }
  }

  /** A conforming provider configuration reads exactly when no argument in it is misread. */
  lemma {:induction false} ConfigurationReads(lib: Library, accepts: Reader, scope: Scope, c: Configuration, schema: ProviderSchema.Block)
    requires ReadsAsHcl(lib, accepts) && NamesValid(lib, scope) && ConfigurationIsPlain(lib, scope, c) && ConfigurationConforms(lib, scope, c, schema)
    ensures BlockReads(accepts, RenderedBlock(lib, scope, c, schema)) <==> !ConfigurationMisread(lib, c, schema)
    decreases c
  {
    hide ReadsAsHcl, NamesValid, ArgumentText, FieldIsPlain, ArgumentMisread, RequiredGiven, CountFits, ConfigurationMisread, BlockReads;
    var r := RenderedBlock(lib, scope, c, schema);
    forall n | n in c.arguments
      ensures n in r.arguments && n in schema.attributes && (accepts(r.arguments[n]) <==> !ArgumentMisread(lib, c.arguments[n], schema.attributes[n]))
    {
      assert ArgumentFits(lib, scope, c, schema, n);
      ArgumentReads(lib, accepts, scope, c.arguments[n], schema.attributes[n]);
    }
    forall n | n in c.blocks ensures BlocksAgree(lib, accepts, c, schema, r, n) {
      assert BlocksFit(lib, scope, c, schema, n);
      assert RenderedNamed(r, n) == RenderedBlocks(lib, scope, c, schema, n);
      forall i | 0 <= i < |BlocksNamed(c, n)|
        ensures BlockReads(accepts, RenderedNamed(r, n)[i]) <==> !ConfigurationMisread(lib, BlocksNamed(c, n)[i], schema.blocks[n].block)
      {
        ConfigurationReads(lib, accepts, scope, BlocksNamed(c, n)[i], schema.blocks[n].block);
      }
    }
    PartsAgree(lib, accepts, c, schema, r);
  }

  /** The blocks of one name are rendered one by one, and read where they are not misread. */
  ghost predicate BlocksAgree(lib: Library, accepts: Reader, c: Configuration, schema: ProviderSchema.Block, r: RenderBlock, n: string) {
    && n in schema.blocks && |RenderedNamed(r, n)| == |BlocksNamed(c, n)|
    && forall i :: 0 <= i < |BlocksNamed(c, n)| ==>
      (BlockReads(accepts, RenderedNamed(r, n)[i]) <==> !ConfigurationMisread(lib, BlocksNamed(c, n)[i], schema.blocks[n].block))
  }

  lemma {:induction false} PartsAgree(lib: Library, accepts: Reader, c: Configuration, schema: ProviderSchema.Block, r: RenderBlock)
    requires r.arguments.Keys == c.arguments.Keys && r.blocks.Keys <= c.blocks.Keys
    requires forall n :: n in c.arguments ==>
      n in schema.attributes && (accepts(r.arguments[n]) <==> !ArgumentMisread(lib, c.arguments[n], schema.attributes[n]))
    requires forall n :: n in c.blocks ==> BlocksAgree(lib, accepts, c, schema, r, n)
    ensures BlockReads(accepts, r) <==> !ConfigurationMisread(lib, c, schema)
  {
    hide ArgumentMisread;
    if BlockReads(accepts, r) {
      forall n, i | n in c.blocks && n in schema.blocks && 0 <= i < |BlocksNamed(c, n)|
        ensures !ConfigurationMisread(lib, BlocksNamed(c, n)[i], schema.blocks[n].block)
      {
        assert BlocksAgree(lib, accepts, c, schema, r, n);
        assert RenderedNamed(r, n) != [];
      }
    }
  }

  // ------------------------------------------------------------------ modules

  /** Plain inputs and a plain repetition; what ` ? 1 : 0` is written after stands alone or ends in a comment. */
  ghost predicate ModuleIsPlain(lib: Library, scope: Scope, contract: Contract, m: ModuleNode) {
    && (forall n :: n in m.values && n in Declared(contract) ==> InputIsPlain(lib, scope, m.values[n], Declared(contract)[n].t))
    && (m.multiplicity.expr.Some? ==> RepetitionIsPlain(lib, scope, m.multiplicity.mode, m.multiplicity.expr.value))
  }

  ghost predicate RepetitionIsPlain(lib: Library, scope: Scope, mode: string, v: FieldValue) {
    if mode == "conditional" && v.mode == "literal" then lib.standsAlone(v.literal) || lib.commented(v.literal) else FieldIsPlain(lib, scope, v)
  }

  lemma {:induction false} RepetitionReads(lib: Library, accepts: Reader, scope: Scope, m: Multiplicity)
    requires ReadsAsHcl(lib, accepts) && NamesValid(lib, scope) && (m.expr.Some? ==> RepetitionIsPlain(lib, scope, m.mode, m.expr.value))
    ensures CountOf(lib, scope, m).Some? ==> accepts(CountOf(lib, scope, m).value)
    ensures ForEachOf(scope, m).Some? ==> accepts(ForEachOf(scope, m).value)
  {
    hide PathOf, ModuleOutput, ResolveFieldValue, NamesValid, StandsInside, ConditionalsComeApart, WellFormed, Legible, Referring, ReadExpression,
      WithSuffix, FieldIsPlain;
    if CountOf(lib, scope, m).Some? {
      var v := m.expr.value;
      if m.mode != "conditional" {
        FieldReads(lib, accepts, scope, v);
      } else if v.mode == "literal" {
        AssemblyMeaning.ReferenceIsNotTyped(lib, scope, v);
        TypedIsValid(lib, scope, v);
        SuffixedTextReads(lib, accepts, v.literal);
      } else {
        FieldStands(lib, scope, v);
        ResolvedReads(lib, scope, v);
        SuffixedReferenceReads(lib, accepts, ResolveFieldValue(lib, scope, v).value);
      }
    }
    if ForEachOf(scope, m).Some? {
      RootRefers(lib, scope, m.variableNodeID.value);
      RefersIsLegible(lib, ForEachOf(scope, m).value);
      AcceptedIff(lib, accepts, ForEachOf(scope, m).value);
    }
  }

  lemma {:induction false} FieldStands(lib: Library, scope: Scope, v: FieldValue)
    requires FieldIsPlain(lib, scope, v) && v.mode != "literal"
    ensures StandsInside(lib, scope, v)
  {
  }

  lemma {:induction false} TypedIsValid(lib: Library, scope: Scope, v: FieldValue)
    requires ResolveFieldValue(lib, scope, v).Some? && v.mode == "literal"
    ensures lib.validExpression(v.literal)
  {
  }

  lemma {:induction false} SuffixedReferenceReads(lib: Library, accepts: Reader, e: Expression)
    requires ReadsAsHcl(lib, accepts) && Referring(lib, e)
    ensures accepts(WithSuffix(lib, e))
  {
    hide ConditionalsComeApart, ReadExpression, WellFormed, Legible;
    ReferringBegins(lib, e);
    SuffixIsLegible(lib, e);
    AcceptedIff(lib, accepts, OneOrNone(e));
  }

  lemma {:induction false} SuffixIsLegible(lib: Library, e: Expression)
    requires WellFormed(lib, e) && Legible(lib, e) && !e.Choice? && (e.Typed? ==> !IsConditional(lib, e.text))
    ensures WellFormed(lib, OneOrNone(e)) && Legible(lib, OneOrNone(e))
  {
    hide IsConditional;
    ChoiceParts(lib, OneOrNone(e));
  }

  lemma {:induction false} SuffixedTextReads(lib: Library, accepts: Reader, t: string)
    requires ReadsAsHcl(lib, accepts) && lib.validExpression(t) && (lib.standsAlone(t) || lib.commented(t))
    ensures accepts(WithSuffix(lib, Typed(t)))
  {
    hide ConditionalsComeApart, ReadExpression, WellFormed, Legible;
    if lib.standsAlone(t) {
      SuffixedTextIsLegible(lib, t);
      AcceptedIff(lib, accepts, WithSuffix(lib, Typed(t)));
    }
  }

  lemma {:induction false} SuffixedTextIsLegible(lib: Library, t: string)
    requires ConditionalsComeApart(lib) && lib.validExpression(t) && lib.standsAlone(t)
    ensures WellFormed(lib, WithSuffix(lib, Typed(t))) && Legible(lib, WithSuffix(lib, Typed(t)))
    decreases |t|
  {
    if IsConditional(lib, t) {
      SuffixedTextIsLegible(lib, lib.conditional(t).value.no);
    } else {
      SuffixIsLegible(lib, Typed(t));
    }
  }

  /** The text of a condition followed by ` ? 1 : 0` reads, and has the value that the count has on the canvas. */
  lemma {:induction false} WrittenCountMeans(lib: Library, scope: Scope, world: World, env: Env, m: Multiplicity)
    requires Covers(world, scope) && Represents(lib, env, world, scope) && NamesValid(lib, scope)
    requires ConditionalsComeApart(lib) && ReadsConditionals(lib, world.typed)
    requires MultiplicityClean(lib, scope, m) && m.kind == "count" && m.mode == "conditional"
    requires AssemblyMeaning.CountIsDirect(lib, scope, m) && StandsInside(lib, scope, m.expr.value)
    ensures var read := ReadExpression(lib, Written(lib, ResolveFieldValue(lib, scope, m.expr.value).value) + SUFFIX);
      read.Some? && Evaluate(env, read.value) == AssemblyMeaning.CountDenotes(scope, world, m)
  {
    hide Covers, NamesValid, ConditionalsComeApart, ReadsConditionals, ResolveFieldValue, StandsInside, WellFormed, Legible, Referring, WithSuffix,
      AssemblyMeaning.CountIsDirect, Written, ReadExpression, Evaluate, AssemblyMeaning.CountDenotes;
    var v := m.expr.value;
    var e := ResolveFieldValue(lib, scope, v).value;
    ResolvedReads(lib, scope, v);
    AssemblyMeaning.ReferenceIsNotTyped(lib, scope, v);
    if v.mode == "literal" {
      TypedIsValid(lib, scope, v);
      LiteralStands(lib, scope, v);
    } else {
      ReferringBegins(lib, e);
    }
    SuffixReads(lib, e);
    ExpandedMeans(lib, env, WithSuffix(lib, e));
    AssemblyMeaning.RepetitionMeans(lib, scope, world, env, m);
  }

  lemma {:induction false} LiteralStands(lib: Library, scope: Scope, v: FieldValue)
    requires StandsInside(lib, scope, v) && v.mode == "literal"
    ensures lib.standsAlone(v.literal)
  {
  }

  /** A module block reads exactly when no input is misread. */
  lemma {:induction false} ModuleReadsIff(lib: Library, accepts: Reader, scope: Scope, nodes: map<string, ProviderNode>, documents: Documents, m: ModuleNode)
    requires ReadsAsHcl(lib, accepts) && NamesValid(lib, scope) && ModuleClean(lib, scope, nodes, documents, m)
    requires ModuleIsPlain(lib, scope, documents.modules[m.nodeID], m)
    ensures ModuleReads(accepts, CompiledModule(lib, scope, nodes, documents, m)) <==> !ModuleMisread(lib, documents.modules[m.nodeID], m)
  {
    hide NamesValid, InputText, BindingClean, CompiledBindings, SanitizeVersion, Declared, RequiredInputGiven, CountOf, ForEachOf, MultiplicityClean,
      InputIsPlain, InputMisread, RepetitionIsPlain, ReadsAsHcl;
    var contract, c := documents.modules[m.nodeID], CompiledModule(lib, scope, nodes, documents, m);
    RepetitionReads(lib, accepts, scope, m.multiplicity);
    forall n | n in m.values
      ensures n in c.inputs && n in Declared(contract) && (accepts(c.inputs[n]) <==> !InputMisread(lib, m.values[n], Declared(contract)[n].t))
    {
      assert InputClean(lib, scope, contract, m, n);
      InputReads(lib, accepts, scope, m.values[n], Declared(contract)[n].t);
    }
  }

  // ------------------------------------------------------------------ the whole request

  ghost predicate ModuleMisread(lib: Library, contract: Contract, m: ModuleNode) {
    exists n :: n in m.values && n in Declared(contract) && InputMisread(lib, m.values[n], Declared(contract)[n].t)
  }

  ghost predicate VariableMisread(lib: Library, v: VariableNode) {
    TypePrinter.TypeMisread(lib, v.t) || (v.hasDefault && ValuePrinter.Misread(lib, v.t, v.default))
  }

  ghost predicate RequestIsPlain(lib: Library, request: Request, documents: Documents) {
    && (forall m :: m in request.modules && m.nodeID in documents.modules ==>
        ModuleIsPlain(lib, ScopeOf(request), documents.modules[m.nodeID], m))
    && (forall p :: p in request.providers ==> ConfigurationIsPlain(lib, ScopeOf(request), p.configuration))
  }

  /** No type, default, input or argument of the request is misread. */
  ghost predicate NothingIsMisread(lib: Library, request: Request, documents: Documents) {
    && (forall v :: v in request.variables ==> !VariableMisread(lib, v))
    && (forall m :: m in request.modules && m.nodeID in documents.modules ==> !ModuleMisread(lib, documents.modules[m.nodeID], m))
    && (forall p :: p in request.providers && p.nodeID in documents.providers ==>
        !ConfigurationMisread(lib, p.configuration, documents.providers[p.nodeID].configuration))
  }

  lemma {:induction false} CleanNamesValid(lib: Library, request: Request, documents: Documents)
    requires Clean(lib, request, documents)
    ensures NamesValid(lib, ScopeOf(request))
  {
    hide ProvidersClean, ModulesClean, ValidIdentifier;
  }

  lemma {:induction false} VariablesWrittenIff(lib: Library, request: Request, model: RenderModel)
    requires RendersVariables(lib, request.variables, model.variables)
    ensures VariablesFile(lib, model.variables).Some? <==> forall v :: v in request.variables ==> !VariableMisread(lib, v)
  {
    hide VariableClean, CompiledVariable, VariableReads, TypePrinter.TypeMisread, ValuePrinter.Misread;
    var vs := request.variables;
    forall i | 0 <= i < |vs| ensures VariableReads(lib, model.variables[i]) <==> !VariableMisread(lib, vs[i]) {
      assert vs[i] in vs;
      CleanVariableReadsIff(lib, vs[i]);
    }
    if VariablesFile(lib, model.variables).Some? {
      forall v | v in vs ensures !VariableMisread(lib, v) {
        var i :| 0 <= i < |vs| && vs[i] == v;
        assert model.variables[i] in model.variables;
      }
    }
  }

  lemma {:induction false} ModulesWrittenIff(lib: Library, accepts: Reader, scope: Scope, nodes: map<string, ProviderNode>, documents: Documents,
      ms: seq<ModuleNode>, rendered: seq<RenderModule>)
    requires ReadsAsHcl(lib, accepts) && NamesValid(lib, scope)
    requires ModulesClean(lib, scope, nodes, documents, ms) && RendersModules(lib, scope, nodes, documents, ms, rendered)
    requires forall m :: m in ms && m.nodeID in documents.modules ==> ModuleIsPlain(lib, scope, documents.modules[m.nodeID], m)
    ensures (forall m :: m in rendered ==> ModuleReads(accepts, m)) <==>
      forall m :: m in ms && m.nodeID in documents.modules ==> !ModuleMisread(lib, documents.modules[m.nodeID], m)
  {
    hide ReadsAsHcl, NamesValid, ModuleClean, CompiledModule, ModuleReads, ModuleMisread, ModuleIsPlain;
    forall i | 0 <= i < |ms|
      ensures ms[i].nodeID in documents.modules
      ensures ModuleReads(accepts, rendered[i]) <==> !ModuleMisread(lib, documents.modules[ms[i].nodeID], ms[i])
    {
      assert ms[i] in ms;
      ModuleReadsIff(lib, accepts, scope, nodes, documents, ms[i]);
    }
    if forall m :: m in rendered ==> ModuleReads(accepts, m) {
      forall m | m in ms && m.nodeID in documents.modules ensures !ModuleMisread(lib, documents.modules[m.nodeID], m) {
        var i :| 0 <= i < |ms| && ms[i] == m;
        assert rendered[i] in rendered;
      }
    }
  }

  lemma {:induction false} ProvidersWrittenIff(lib: Library, accepts: Reader, scope: Scope, documents: Documents,
      ps: seq<ProviderNode>, rendered: seq<RenderProvider>)
    requires ReadsAsHcl(lib, accepts) && NamesValid(lib, scope) && RendersProviders(lib, scope, documents, ps, rendered)
    requires forall p :: p in ps ==> ProviderClean(lib, scope, documents, p) && ConfigurationIsPlain(lib, scope, p.configuration)
    ensures (forall p :: p in rendered ==> BlockReads(accepts, p.configuration)) <==>
      forall p :: p in ps && p.nodeID in documents.providers ==>
        !ConfigurationMisread(lib, p.configuration, documents.providers[p.nodeID].configuration)
  {
    hide ReadsAsHcl, NamesValid, ConfigurationIsPlain, ConfigurationConforms, RenderedBlock, BlockReads, ConfigurationMisread, SanitizeVersion;
    forall i | 0 <= i < |ps|
      ensures ps[i].nodeID in documents.providers
      ensures BlockReads(accepts, rendered[i].configuration) <==>
        !ConfigurationMisread(lib, ps[i].configuration, documents.providers[ps[i].nodeID].configuration)
    {
      assert ps[i] in ps;
      ConfigurationReads(lib, accepts, scope, ps[i].configuration, documents.providers[ps[i].nodeID].configuration);
    }
    if forall p :: p in rendered ==> BlockReads(accepts, p.configuration) {
      forall p | p in ps && p.nodeID in documents.providers
        ensures !ConfigurationMisread(lib, p.configuration, documents.providers[p.nodeID].configuration)
      {
        var i :| 0 <= i < |ps| && ps[i] == p;
        assert rendered[i] in rendered;
      }
    }
  }

  /**
    A plain request without diagnostics can be written exactly when there is a registry host and no part of
    it is misread.
   */
  lemma {:induction false} CleanRequestIsWrittenIff(lib: Library, accepts: Reader, request: Request, documents: Documents, host: string, model: RenderModel)
    requires ReadsAsHcl(lib, accepts) && Clean(lib, request, documents) && Compiles(lib, request, documents, host, model)
    requires RequestIsPlain(lib, request, documents)
    ensures RenderedFiles(lib, accepts, model).Some? <==> !ValuePrinter.Blank(host) && NothingIsMisread(lib, request, documents)
  {
    hide ReadsAsHcl, NamesValid, Clean, VariablesFile, ModuleIsPlain, ConfigurationIsPlain, ScopeOf, ModulesClean, ProviderClean, RendersVariables,
      RendersModules, RendersProviders, ModuleMisread, VariableMisread, ConfigurationMisread, BlockReads, ModuleReads, ValuePrinter.Blank;
    CleanNamesValid(lib, request, documents);
    CleanParts(lib, request, documents);
    VariablesWrittenIff(lib, request, model);
    ModulesWrittenIff(lib, accepts, ScopeOf(request), Table(request.providers, ProviderID), documents, request.modules, model.modules);
    ProvidersWrittenIff(lib, accepts, ScopeOf(request), documents, request.providers, model.providers);
  }

  lemma {:induction false} CleanParts(lib: Library, request: Request, documents: Documents)
    requires Clean(lib, request, documents)
    ensures ModulesClean(lib, ScopeOf(request), Table(request.providers, ProviderID), documents, request.modules)
    ensures forall p :: p in request.providers ==> ProviderClean(lib, ScopeOf(request), documents, p)
  {
    hide ModuleClean, ProviderClean, ScopeOf;
  }
}
