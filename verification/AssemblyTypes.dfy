/** The parts of an Assembly export request that describe types and values. */
module AssemblyTypes {
  import opened Basics
  import opened Sorting

  datatype TypeSpec = TypeSpec(kind: string, element: Option<TypeSpec>, elements: seq<TypeSpec>, attributes: seq<TypeAttribute>)

  datatype TypeAttribute = TypeAttribute(name: string, t: TypeSpec, isOptional: bool, hasDefault: bool, default: Option<ValueSpec>)

  datatype ValueSpec = ValueSpec(kind: string, literal: string, items: seq<ValueSpec>, entries: seq<ValueEntry>)

  datatype ValueEntry = ValueEntry(key: string, name: string, value: ValueSpec)

  function EntryKey(e: ValueEntry): string { e.key }
  function EntryName(e: ValueEntry): string { e.name }
  function AttributeName(a: TypeAttribute): string { a.name }

  /** The parts of text that reads as `condition ? yes : no`. */
  datatype Conditional = Conditional(condition: string, yes: string, no: string)

  /**
    What the HCL library decides about text. `validExpression` is whether `name = text` reads and sets `name`,
    and `kept` the text of the expression it sets it to, without comments and what else the text defines;
    `knownString` is whether the text reads as an expression over known names, and `conditional` whether its
    outermost operator is `?`, which binds weaker than any other. `standsAlone` is whether the text is one
    expression wherever it is written between other text, on one line outside brackets and not ending in a
    comment or a heredoc; `commented` is whether it is one followed by a comment. `startsFor` is whether its
    first word is `for`.
   */
  datatype Library = Library(
    validIdentifier: string -> bool, validExpression: string -> bool, kept: string -> string, knownString: string -> bool,
    conditional: string -> Option<Conditional>, standsAlone: string -> bool, commented: string -> bool, startsFor: string -> bool)

  predicate ValidIdentifier(lib: Library, s: string) {
    s != "" && lib.validIdentifier(s)
  }

  const SCALAR_KINDS: set<string> := {"string", "number", "bool", "any"}
  const COLLECTION_KINDS: set<string> := {"list", "set", "map"}

  /** Attributes by name; a later declaration of a name replaces an earlier one. */
  function AttributeTable(attributes: seq<TypeAttribute>): map<string, TypeAttribute> {
    Table(attributes, AttributeName)
  }

  /** All values, or nothing if one of them is missing. */
  function AllSome<T>(xs: seq<Option<T>>): (r: Option<seq<T>>)
    ensures r.Some? <==> forall i :: 0 <= i < |xs| ==> xs[i].Some?
    ensures r.Some? ==> |r.value| == |xs| && forall i :: 0 <= i < |xs| ==> r.value[i] == xs[i].value
  {
    if xs == [] then Some([])
    else
      match (xs[0], AllSome(xs[1..]))
      case (Some(x), Some(rest)) => Some([x] + rest)
      case _ => None
  }

  /** The first `|values|` results are all present, with these values. */
  ghost predicate Collected<T>(xs: seq<Option<T>>, values: seq<T>) {
    |values| <= |xs| && forall i :: 0 <= i < |values| ==> xs[i] == Some(values[i])
  }

  lemma {:induction false} StartCollecting<T>(xs: seq<Option<T>>)
    ensures Collected(xs, [])
  {
  }

  lemma {:induction false} CollectNext<T>(xs: seq<Option<T>>, values: seq<T>, next: T)
    requires Collected(xs, values) && |values| < |xs| && xs[|values|] == Some(next)
    ensures Collected(xs, values + [next])
  {
  }

  lemma {:induction false} CollectedAll<T>(xs: seq<Option<T>>, values: seq<T>)
    requires Collected(xs, values) && |values| == |xs|
    ensures AllSome(xs) == Some(values)
  {
    assert AllSome(xs).value == values;
  }

  lemma {:induction false} OneMissing<T>(xs: seq<Option<T>>, i: nat)
    requires i < |xs| && xs[i].None?
    ensures AllSome(xs).None?
  {
  }
}
