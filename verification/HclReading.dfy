/**
  Reading undoes writing: the text of an expression reads as that expression wherever the grammar allows
  it, text written after an expression is read as the compiler means it, and reading keeps the value.
 */
module HclReading {
  import opened Basics
  import opened AssemblyTypes
  import opened HclTokens
  import opened References
  import opened ReferenceMeaning
  import opened HclExpressions

  ghost function Outcome(lib: Library, e: Expression, rest: seq<Token>): Parsed<Expression> {
    if Legible(lib, e) then Parsed(Expanded(lib, e), rest) else Failed
  }

  /** What follows an operand is neither applied to it nor part of it. */
  predicate Stops(rest: seq<Token>) {
    rest == [] || !(rest[0].Dot? || rest[0].LBracket?)
  }

  predicate Ends(rest: seq<Token>) {
    Stops(rest) && (rest == [] || !rest[0].Question?)
  }

  // ------------------------------------------------------------------ typed text

  lemma {:induction false} LeafReads(lib: Library, t: string, rest: seq<Token>)
    requires lib.standsAlone(t) && !lib.commented(t)
    ensures ParseOperand(lib, [Leaf(t)] + rest) == Parsed(Typed(t), rest)
  {
    assert ([Leaf(t)] + rest)[1..] == rest;
  }

  lemma {:induction false} OperandIsAll(lib: Library, ts: seq<Token>, e: Expression, rest: seq<Token>)
    requires Ends(rest)
    requires ParseOperand(lib, ts) == Parsed(e, rest)
    ensures ParseExpression(lib, ts) == Parsed(e, rest)
  {
  }

  /** How a conditional is read, given how its parts are. */
  lemma {:induction false} ConditionalReads(lib: Library, ts: seq<Token>, c: Expression, second: seq<Token>, yes: Parsed<Expression>)
    requires ParseOperand(lib, ts) == Parsed(c, [Question] + second)
    requires yes == ParseExpression(lib, second)
    ensures ParseExpression(lib, ts) ==
      if yes.Failed? || yes.rest == [] || !yes.rest[0].Colon? then Failed
      else
        match ParseExpression(lib, yes.rest[1..])
        case Failed => Failed
        case Parsed(no, after) => Parsed(Choice(c, yes.value, no), after)
  {
    hide ParseOperand;
    assert ([Question] + second)[1..] == second;
  }

  lemma {:induction false} TextReads(lib: Library, t: string, rest: seq<Token>)
    requires ConditionalsComeApart(lib) && lib.validExpression(t) && lib.standsAlone(t) && Ends(rest)
    ensures ParseExpression(lib, Lexed(lib, t) + rest) == Parsed(ExpandedText(lib, t), rest)
    decreases |t|
  {
    hide ParseExpression, ParseOperand, Lexed, ExpandedText;
    LexedParts(lib, t);
    if IsConditional(lib, t) {
      var c := lib.conditional(t).value;
      var third := Lexed(lib, c.no) + rest;
      var second := Lexed(lib, c.yes) + ([Colon] + third);
      TextReads(lib, c.yes, [Colon] + third);
      TextReads(lib, c.no, rest);
      LeafReads(lib, c.condition, [Question] + second);
      assert ([Colon] + third)[1..] == third;
      assert Lexed(lib, t) + rest == [Leaf(c.condition)] + ([Question] + second);
      ConditionalReads(lib, Lexed(lib, t) + rest, Typed(c.condition), second, Parsed(ExpandedText(lib, c.yes), [Colon] + third));
    } else {
      LeafReads(lib, t, rest);
      OperandIsAll(lib, Lexed(lib, t) + rest, Typed(t), rest);
    }
  }

  lemma {:induction false} LexedParts(lib: Library, t: string)
    ensures IsConditional(lib, t) ==>
      var c := lib.conditional(t).value;
      && Lexed(lib, t) == [Leaf(c.condition), Question] + Lexed(lib, c.yes) + [Colon] + Lexed(lib, c.no)
      && ExpandedText(lib, t) == Choice(Typed(c.condition), ExpandedText(lib, c.yes), ExpandedText(lib, c.no))
    ensures !IsConditional(lib, t) ==> Lexed(lib, t) == [Leaf(t)] && ExpandedText(lib, t) == Typed(t)
  {
  }

  // ------------------------------------------------------------------ the first token

  lemma {:induction false} FirstWritten(lib: Library, e: Expression, rest: seq<Token>)
    requires ConditionalsComeApart(lib) && WellFormed(lib, e)
    ensures Written(lib, e) != []
    ensures StartsFor(lib, Written(lib, e) + rest) <==> BeginsFor(lib, e)
    ensures (Written(lib, e) + rest)[0] !in {RBracket, Star, Ident("for")}
    decreases e
  {
    hide ConditionalsComeApart;
    match e
    case Typed(t) =>
      TextStart(lib, t);
    case Attribute(of, _) =>
      FirstWritten(lib, of, []);
    case Index(of, _) =>
      FirstWritten(lib, of, []);
    case Splat(of, _) =>
      FirstWritten(lib, of, []);
    case Choice(c, _, _) =>
      FirstWritten(lib, c, []);
    case _ =>
  }

  lemma {:induction false} TextStart(lib: Library, t: string)
    requires ConditionalsComeApart(lib) && lib.validExpression(t)
    ensures Lexed(lib, t) != [] && Lexed(lib, t)[0].Leaf?
    ensures lib.startsFor(Lexed(lib, t)[0].text) <==> lib.startsFor(t)
  {
  }

  // ------------------------------------------------------------------ reading undoes writing

  /** The text of a well-formed expression reads as that expression if it is legible, and does not read otherwise. */
  lemma {:induction false} WrittenReads(lib: Library, e: Expression, rest: seq<Token>)
    requires ConditionalsComeApart(lib) && WellFormed(lib, e) && Ends(rest)
    ensures ParseExpression(lib, Written(lib, e) + rest) == Outcome(lib, e, rest)
    decreases e, 4
  {
    hide ConditionalsComeApart, ParseExpression, ParseOperand, WellFormed, Legible;
    if e.Typed? {
      TypedReads(lib, e, rest);
    } else if e.Choice? {
      ChoiceReads(lib, e, rest);
    } else {
      OperandReads(lib, e, rest);
      if Legible(lib, e) {
        OperandIsAll(lib, Written(lib, e) + rest, Expanded(lib, e), rest);
      } else {
        OperandFails(lib, Written(lib, e) + rest);
      }
    }
  }

  lemma {:induction false} TypedReads(lib: Library, e: Expression, rest: seq<Token>)
    requires ConditionalsComeApart(lib) && WellFormed(lib, e) && Ends(rest) && e.Typed?
    ensures ParseExpression(lib, Written(lib, e) + rest) == Outcome(lib, e, rest)
  {
    hide ConditionalsComeApart, ParseExpression;
    TextReads(lib, e.text, rest);
  }

  lemma {:induction false} OperandFails(lib: Library, ts: seq<Token>)
    requires ParseOperand(lib, ts).Failed?
    ensures ParseExpression(lib, ts).Failed?
  {
  }

  lemma {:induction false} ChoiceParts(lib: Library, e: Expression)
    requires e.Choice?
    ensures Written(lib, e) == Written(lib, e.condition) + [Question] + Written(lib, e.yes) + [Colon] + Written(lib, e.no)
    ensures Expanded(lib, e) == Choice(Expanded(lib, e.condition), Expanded(lib, e.yes), Expanded(lib, e.no))
    ensures Legible(lib, e) <==> Legible(lib, e.condition) && Legible(lib, e.yes) && Legible(lib, e.no)
    ensures WellFormed(lib, e) <==>
      && !e.condition.Choice? && (e.condition.Typed? ==> !IsConditional(lib, e.condition.text))
      && WellFormed(lib, e.condition) && WellFormed(lib, e.yes) && WellFormed(lib, e.no)
  {
  }

  lemma {:induction false} ChoiceReads(lib: Library, e: Expression, rest: seq<Token>)
    requires ConditionalsComeApart(lib) && WellFormed(lib, e) && Ends(rest) && e.Choice?
    ensures ParseExpression(lib, Written(lib, e) + rest) == Outcome(lib, e, rest)
    decreases e, 3
  {
    hide ConditionalsComeApart, ParseExpression, ParseOperand, Written, Expanded, Legible, WellFormed, IsConditional;
    ChoiceParts(lib, e);
    var third := Written(lib, e.no) + rest;
    var second := Written(lib, e.yes) + ([Colon] + third);
    WrittenReads(lib, e.yes, [Colon] + third);
    WrittenReads(lib, e.no, rest);
    assert ([Colon] + third)[1..] == third;
    assert Written(lib, e) + rest == Written(lib, e.condition) + ([Question] + second);
    OperandReads(lib, e.condition, [Question] + second);
    if Legible(lib, e.condition) {
      ConditionalReads(lib, Written(lib, e) + rest, Expanded(lib, e.condition), second, Outcome(lib, e.yes, [Colon] + third));
    } else {
      OperandFails(lib, Written(lib, e) + rest);
    }
  }

  /** Anything but a conditional is read as an operand. */
  lemma {:induction false} OperandReads(lib: Library, e: Expression, rest: seq<Token>)
    requires ConditionalsComeApart(lib) && WellFormed(lib, e) && Stops(rest)
    requires !e.Choice? && (e.Typed? ==> !IsConditional(lib, e.text))
    ensures ParseOperand(lib, Written(lib, e) + rest) == Outcome(lib, e, rest)
    decreases e, 2
  {
    hide ConditionalsComeApart, ParseExpression;
    if Traversable(e) {
      TraversalReads(lib, e, rest);
      if Legible(lib, e) {
        NothingApplied(lib, Expanded(lib, e), rest);
      }
    } else if e.Splat? {
      SplatReads(lib, e, rest);
    } else if e.Items? {
      ListReads(lib, e, rest);
    } else if e.Fields? {
      ObjectReads(lib, e, rest);
    } else if e.Typed? {
      TypedOperand(lib, e, rest);
    } else {
      assert (Written(lib, e) + rest)[1..] == rest;
    }
  }

  lemma {:induction false} NothingApplied(lib: Library, e: Expression, rest: seq<Token>)
    requires Stops(rest)
    ensures ParseAccessors(lib, e, rest) == Parsed(e, rest)
  {
  }

  lemma {:induction false} TypedOperand(lib: Library, e: Expression, rest: seq<Token>)
    requires ConditionalsComeApart(lib) && WellFormed(lib, e) && e.Typed? && !IsConditional(lib, e.text)
    ensures ParseOperand(lib, Written(lib, e) + rest) == Outcome(lib, e, rest)
  {
    LeafReads(lib, e.text, rest);
  }

  lemma {:induction false} IndexParts(lib: Library, e: Expression)
    requires e.Index?
    ensures Written(lib, e) == Written(lib, e.of) + [LBracket] + Written(lib, e.index) + [RBracket]
    ensures Expanded(lib, e) == Index(Expanded(lib, e.of), Expanded(lib, e.index))
    ensures Legible(lib, e) <==> Legible(lib, e.of) && Legible(lib, e.index)
    ensures WellFormed(lib, e) <==> Traversable(e.of) && WellFormed(lib, e.of) && WellFormed(lib, e.index)
  {
  }

  lemma {:induction false} IndexedReads(lib: Library, e: Expression, rest: seq<Token>)
    requires ConditionalsComeApart(lib) && WellFormed(lib, e) && e.Index?
    ensures ParseOperand(lib, Written(lib, e) + rest) == if Legible(lib, e) then ParseAccessors(lib, Expanded(lib, e), rest) else Failed
    decreases e, 0
  {
    hide ConditionalsComeApart, ParseExpression, ParseOperand, Written, Expanded, Legible, WellFormed;
    IndexParts(lib, e);
    var after := [RBracket] + rest;
    var inside := Written(lib, e.index) + after;
    TraversalReads(lib, e.of, [LBracket] + inside);
    assert Written(lib, e) + rest == Written(lib, e.of) + ([LBracket] + inside);
    FirstWritten(lib, e.index, after);
    WrittenReads(lib, e.index, after);
    IndexApplies(lib, Expanded(lib, e.of), inside);
    assert after[1..] == rest;
  }

  lemma {:induction false} IndexApplies(lib: Library, e: Expression, inside: seq<Token>)
    requires inside != [] && !inside[0].Star?
    ensures ParseAccessors(lib, e, [LBracket] + inside) ==
      match ParseExpression(lib, inside)
      case Failed => Failed
      case Parsed(index, rest) => if rest == [] || !rest[0].RBracket? then Failed else ParseAccessors(lib, Index(e, index), rest[1..])
  {
    hide ParseExpression;
    assert ([LBracket] + inside)[1..] == inside;
  }

  /** A traversal is read up to its end, and what follows is applied to it. */
  lemma {:induction false} TraversalReads(lib: Library, e: Expression, rest: seq<Token>)
    requires ConditionalsComeApart(lib) && WellFormed(lib, e) && Traversable(e)
    ensures ParseOperand(lib, Written(lib, e) + rest) == if Legible(lib, e) then ParseAccessors(lib, Expanded(lib, e), rest) else Failed
    decreases e, 1
  {
    hide ConditionalsComeApart, ParseExpression, ParseOperand;
    match e
    case Variable(_) => RootReads(lib, e, rest);
    case Module(_) => RootReads(lib, e, rest);
    case EachInstance(_, _) => ComprehensionReads(lib, e, rest);
    case Attribute(of, n) =>
      TraversalReads(lib, of, [Dot, Ident(n)] + rest);
      assert Written(lib, e) + rest == Written(lib, of) + ([Dot, Ident(n)] + rest);
      assert ([Dot, Ident(n)] + rest)[2..] == rest;
    case Index(_, _) => IndexedReads(lib, e, rest);
  }

  lemma {:induction false} RootReads(lib: Library, e: Expression, rest: seq<Token>)
    requires e.Variable? || e.Module?
    ensures ParseOperand(lib, Written(lib, e) + rest) == ParseAccessors(lib, e, rest)
  {
    assert (Written(lib, e) + rest)[3..] == rest;
  }

  lemma {:induction false} ComprehensionParts(lib: Library, e: Expression)
    requires e.EachInstance?
    ensures Written(lib, e) ==
      [LBracket, Ident("for"), Ident("instance"), Ident("in")] + Written(lib, e.of) + [Colon, Ident("instance")] + WrittenPath(e.path) + [RBracket]
    ensures Expanded(lib, e) == EachInstance(Expanded(lib, e.of), e.path)
    ensures Legible(lib, e) <==> Legible(lib, e.of)
    ensures WellFormed(lib, e) ==> WellFormed(lib, e.of)
  {
  }

  lemma {:induction false} ComprehensionReads(lib: Library, e: Expression, rest: seq<Token>)
    requires ConditionalsComeApart(lib) && WellFormed(lib, e) && e.EachInstance?
    ensures ParseOperand(lib, Written(lib, e) + rest) == if Legible(lib, e) then ParseAccessors(lib, Expanded(lib, e), rest) else Failed
    decreases e, 0
  {
    hide ConditionalsComeApart, ParseExpression, ParseAccessors, ParseTerm, ParseFor, Written, Expanded, Legible, WellFormed;
    ComprehensionParts(lib, e);
    var path := WrittenPath(e.path) + ([RBracket] + rest);
    var of := Written(lib, e.of) + ([Colon, Ident("instance")] + path);
    WrittenReads(lib, e.of, [Colon, Ident("instance")] + path);
    var inside := [Ident("for"), Ident("instance"), Ident("in")] + of;
    assert Written(lib, e) + rest == [LBracket] + inside;
    ForFollows(lib, inside);
    ForReads(lib, of, Outcome(lib, e.of, [Colon, Ident("instance")] + path), e.path, rest);
  }

  lemma {:induction false} ForFollows(lib: Library, inside: seq<Token>)
    requires inside != [] && inside[0] == Ident("for")
    ensures ParseTerm(lib, [LBracket] + inside) == ParseFor(lib, inside)
  {
    hide ParseFor;
    assert ([LBracket] + inside)[1..] == inside;
  }

  lemma {:induction false} ForReads(lib: Library, of: seq<Token>, read: Parsed<Expression>, path: seq<string>, rest: seq<Token>)
    requires read == ParseExpression(lib, of)
    requires read.Parsed? ==> read.rest == [Colon, Ident("instance")] + (WrittenPath(path) + ([RBracket] + rest))
    ensures ParseFor(lib, [Ident("for"), Ident("instance"), Ident("in")] + of) ==
      if read.Failed? then Failed else Parsed(EachInstance(read.value, path), rest)
  {
    hide ParseExpression, WrittenPath, ParsePath;
    var ts := [Ident("for"), Ident("instance"), Ident("in")] + of;
    assert ts[3..] == of;
    if read.Parsed? {
      PathReads(path, [RBracket] + rest);
      assert read.rest[2..] == WrittenPath(path) + ([RBracket] + rest);
      assert ([RBracket] + rest)[1..] == rest;
    }
  }

  lemma {:induction false} PathReads(path: seq<string>, rest: seq<Token>)
    requires rest != [] && !rest[0].Dot?
    ensures ParsePath(WrittenPath(path) + rest) == (path, rest)
    decreases |path|
  {
    if path != [] {
      var others := WrittenPath(path[1..]) + rest;
      assert WrittenPath(path) + rest == [Dot, Ident(path[0])] + others;
      assert ([Dot, Ident(path[0])] + others)[2..] == others;
      PathReads(path[1..], rest);
      assert [path[0]] + path[1..] == path;
    } else {
      assert WrittenPath(path) + rest == rest;
    }
  }

  // ------------------------------------------------------------------ splats

  lemma {:induction false} SplatParts(lib: Library, e: Expression)
    requires e.Splat?
    ensures Written(lib, e) == Written(lib, e.of) + [LBracket, Star, RBracket] + WrittenEach(lib, e.each)
    ensures Expanded(lib, e) == Splat(Expanded(lib, e.of), ExpandedEach(lib, e.each))
    ensures Legible(lib, e) <==> Legible(lib, e.of) && LegibleEach(lib, e.each)
    ensures WellFormed(lib, e) <==> Traversable(e.of) && WellFormed(lib, e.of) && forall i :: 0 <= i < |e.each| ==> WellFormedAccessor(lib, e.each[i])
  {
  }

  lemma {:induction false} SplatReads(lib: Library, e: Expression, rest: seq<Token>)
    requires ConditionalsComeApart(lib) && WellFormed(lib, e) && e.Splat? && Stops(rest)
    ensures ParseOperand(lib, Written(lib, e) + rest) == Outcome(lib, e, rest)
    decreases e, 1, 1
  {
    hide ConditionalsComeApart, ParseExpression, ParseOperand, ParseEach, Written, Expanded, Legible, WellFormed, LegibleEach;
    SplatParts(lib, e);
    var inside := WrittenEach(lib, e.each) + rest;
    var star := [LBracket, Star, RBracket] + inside;
    TraversalReads(lib, e.of, star);
    assert Written(lib, e) + rest == Written(lib, e.of) + star;
    assert star[3..] == inside;
    EachReads(lib, e, e.each, rest);
  }

  ghost predicate LegibleEach(lib: Library, each: seq<Accessor>) {
    forall i :: 0 <= i < |each| ==> LegibleAccessor(lib, each[i])
  }

  lemma {:induction false} SplitLegibleEach(lib: Library, each: seq<Accessor>)
    requires each != []
    ensures LegibleEach(lib, each) <==> LegibleAccessor(lib, each[0]) && LegibleEach(lib, each[1..])
  {
    hide LegibleAccessor;
    assert each == [each[0]] + each[1..];
  }

  lemma {:induction false} EachReads(lib: Library, within: Expression, each: seq<Accessor>, rest: seq<Token>)
    requires ConditionalsComeApart(lib) && Stops(rest)
    requires forall i :: 0 <= i < |each| ==> each[i] < within && WellFormedAccessor(lib, each[i])
    ensures ParseEach(lib, WrittenEach(lib, each) + rest) == if LegibleEach(lib, each) then Parsed(ExpandedEach(lib, each), rest) else Failed
    decreases within, 0, |each|
  {
    hide ConditionalsComeApart, ParseEach, LegibleEach, Legible, WellFormed, WrittenAccessor, LegibleAccessor, ExpandedAccessor;
    if each == [] {
      assert WrittenEach(lib, each) + rest == rest;
      NoAccessors(lib, rest);
    } else {
      var others := WrittenEach(lib, each[1..]) + rest;
      EachReads(lib, within, each[1..], rest);
      SplitLegibleEach(lib, each);
      assert WrittenEach(lib, each) + rest == WrittenAccessor(lib, each[0]) + others;
      assert each[0] < within;
      if each[0].At? {
        WrittenReads(lib, each[0].index, [RBracket] + others);
      }
      AccessorReads(lib, each[0], others);
    }
  }

  lemma {:induction false} NoAccessors(lib: Library, rest: seq<Token>)
    requires Stops(rest)
    ensures ParseEach(lib, rest) == Parsed([], rest) && LegibleEach(lib, [])
  {
  }

  lemma {:induction false} AccessorReads(lib: Library, a: Accessor, others: seq<Token>)
    requires a.At? ==> ParseExpression(lib, Written(lib, a.index) + ([RBracket] + others)) == Outcome(lib, a.index, [RBracket] + others)
    ensures ParseEach(lib, WrittenAccessor(lib, a) + others) ==
      if !LegibleAccessor(lib, a) then Failed
      else
        match ParseEach(lib, others)
        case Failed => Failed
        case Parsed(each, rest) => Parsed([ExpandedAccessor(lib, a)] + each, rest)
  {
    hide ParseExpression, Legible, Expanded, Written;
    match a
    case Named(n) =>
      assert ([Dot, Ident(n)] + others)[2..] == others;
    case At(index) =>
      var inside := Written(lib, index) + ([RBracket] + others);
      assert WrittenAccessor(lib, a) + others == [LBracket] + inside;
      assert ([LBracket] + inside)[1..] == inside && ([RBracket] + others)[1..] == others;
  }

  // ------------------------------------------------------------------ lists

  ghost predicate LegibleItems(lib: Library, items: seq<Expression>) {
    forall i :: 0 <= i < |items| ==> Legible(lib, items[i])
  }

  lemma {:induction false} SplitLegibleItems(lib: Library, items: seq<Expression>)
    requires items != []
    ensures LegibleItems(lib, items) <==> Legible(lib, items[0]) && LegibleItems(lib, items[1..])
  {
    hide Legible;
    assert items == [items[0]] + items[1..];
  }

  lemma {:induction false} ListReads(lib: Library, e: Expression, rest: seq<Token>)
    requires ConditionalsComeApart(lib) && WellFormed(lib, e) && e.Items? && Stops(rest)
    ensures ParseOperand(lib, Written(lib, e) + rest) == Outcome(lib, e, rest)
    decreases e, 1
  {
    hide ConditionalsComeApart, ParseTerm, ParseItems, WrittenItems, BeginsFor;
    var inside := WrittenItems(lib, e.items) + ([RBracket] + rest);
    ItemsStart(lib, e.items, rest);
    ItemsRead(lib, e, e.items, rest);
    NothingApplied(lib, Expanded(lib, e), rest);
    BracketReads(lib, inside);
    assert Written(lib, e) + rest == [LBracket] + inside;
  }

  lemma {:induction false} BracketReads(lib: Library, inside: seq<Token>)
    requires StartsFor(lib, inside) ==> !inside[0].Ident?
    ensures ParseTerm(lib, [LBracket] + inside) ==
      if StartsFor(lib, inside) then Failed
      else
        match ParseItems(lib, inside)
        case Failed => Failed
        case Parsed(items, rest) => Parsed(Items(items), rest)
  {
    hide ParseItems, ParseExpression;
    assert ([LBracket] + inside)[1..] == inside;
  }

  lemma {:induction false} ItemsStart(lib: Library, items: seq<Expression>, rest: seq<Token>)
    requires ConditionalsComeApart(lib) && forall i :: 0 <= i < |items| ==> WellFormed(lib, items[i])
    ensures var inside := WrittenItems(lib, items) + ([RBracket] + rest);
      && (StartsFor(lib, inside) <==> items != [] && BeginsFor(lib, items[0]))
      && (items != [] ==> inside[0] !in {RBracket, Ident("for")})
  {
    hide ConditionalsComeApart, WellFormed, BeginsFor;
    if items != [] {
      var after := if |items| == 1 then [RBracket] + rest else [Comma] + WrittenItems(lib, items[1..]) + ([RBracket] + rest);
      assert WrittenItems(lib, items) + ([RBracket] + rest) == Written(lib, items[0]) + after;
      FirstWritten(lib, items[0], after);
    }
  }

  lemma {:induction false} ItemsRead(lib: Library, within: Expression, items: seq<Expression>, rest: seq<Token>)
    requires ConditionalsComeApart(lib) && forall i :: 0 <= i < |items| ==> items[i] < within && WellFormed(lib, items[i])
    ensures ParseItems(lib, WrittenItems(lib, items) + ([RBracket] + rest))
         == if LegibleItems(lib, items) then Parsed(ExpandedItems(lib, items), rest) else Failed
    decreases within, 0, |items|
  {
    hide ConditionalsComeApart, WellFormed, Legible, LegibleItems, ParseExpression, Written, Expanded;
    assert ([RBracket] + rest)[1..] == rest;
    if items == [] {
      assert WrittenItems(lib, items) + ([RBracket] + rest) == [RBracket] + rest;
      NoItems(lib);
    } else {
      ItemsStart(lib, items, rest);
      SplitLegibleItems(lib, items);
      assert items[0] < within;
      if |items| == 1 {
        WrittenReads(lib, items[0], [RBracket] + rest);
        NoItems(lib);
        assert items[1..] == [] && [Expanded(lib, items[0])] == ExpandedItems(lib, items);
        assert WrittenItems(lib, items) == Written(lib, items[0]);
      } else {
        var others := WrittenItems(lib, items[1..]) + ([RBracket] + rest);
        WrittenReads(lib, items[0], [Comma] + others);
        assert ([Comma] + others)[1..] == others;
        assert WrittenItems(lib, items) + ([RBracket] + rest) == Written(lib, items[0]) + ([Comma] + others);
        ItemsRead(lib, within, items[1..], rest);
      }
    }
  }

  lemma {:induction false} NoItems(lib: Library)
    ensures LegibleItems(lib, [])
  {
  }

  // ------------------------------------------------------------------ objects

  ghost predicate LegibleFields(lib: Library, fields: seq<Field>) {
    forall i :: 0 <= i < |fields| ==> Legible(lib, fields[i].value)
  }

  lemma {:induction false} SplitLegibleFields(lib: Library, fields: seq<Field>)
    requires fields != []
    ensures LegibleFields(lib, fields) <==> Legible(lib, fields[0].value) && LegibleFields(lib, fields[1..])
  {
    hide Legible;
    assert fields == [fields[0]] + fields[1..];
  }

  lemma {:induction false} FieldsParts(lib: Library, e: Expression)
    requires e.Fields?
    ensures Written(lib, e) == [LBrace, Newline] + (if e.fields == [] then [Newline] else WrittenFields(lib, e.fields)) + [RBrace]
    ensures Expanded(lib, e) == Fields(ExpandedFields(lib, e.fields))
    ensures Legible(lib, e) <==> (e.fields != [] ==> e.fields[0].key != Identifier("for")) && LegibleFields(lib, e.fields)
    ensures WellFormed(lib, e) ==> forall i :: 0 <= i < |e.fields| ==> WellFormed(lib, e.fields[i].value)
    ensures forall i :: 0 <= i < |e.fields| ==> e.fields[i].value < e
  {
    forall i | 0 <= i < |e.fields| ensures e.fields[i].value < e {
      assert e.fields[i] < e;
    }
  }

  lemma {:induction false} ObjectReads(lib: Library, e: Expression, rest: seq<Token>)
    requires ConditionalsComeApart(lib) && WellFormed(lib, e) && e.Fields? && Stops(rest)
    ensures ParseOperand(lib, Written(lib, e) + rest) == Outcome(lib, e, rest)
    decreases e, 1
  {
    hide ConditionalsComeApart, ParseFields, WrittenFields, ParseTerm, SkipNewlines, StartsFor, Written, Expanded, Legible, LegibleFields, WellFormed;
    FieldsParts(lib, e);
    var inside := WrittenFields(lib, e.fields) + ([RBrace] + rest);
    FieldsStart(lib, e.fields, rest);
    FieldsRead(lib, e, e.fields, rest);
    NothingApplied(lib, Expanded(lib, e), rest);
    var lines := if e.fields == [] then [Newline] + inside else inside;
    if e.fields == [] {
      SkipNewline(lib, lines, inside);
    }
    BraceReads(lib, lines);
    assert Written(lib, e) + rest == [LBrace] + ([Newline] + lines);
  }

  lemma {:induction false} BraceReads(lib: Library, lines: seq<Token>)
    ensures ParseTerm(lib, [LBrace] + ([Newline] + lines)) ==
      if StartsFor(lib, SkipNewlines(lines)) then Failed
      else
        match ParseFields(lib, lines)
        case Failed => Failed
        case Parsed(fields, rest) => Parsed(Fields(fields), rest)
  {
    hide ParseFields, ParseExpression, StartsFor;
    assert ([LBrace] + ([Newline] + lines))[1..] == [Newline] + lines;
    SkipNewline(lib, [Newline] + lines, lines);
  }

  lemma {:induction false} SkipNewline(lib: Library, ts: seq<Token>, inside: seq<Token>)
    requires ts == [Newline] + inside
    ensures SkipNewlines(ts) == SkipNewlines(inside) && ParseFields(lib, ts) == ParseFields(lib, inside)
  {
    hide ParseExpression;
    assert ts[1..] == inside;
  }

  lemma {:induction false} FieldsStart(lib: Library, fields: seq<Field>, rest: seq<Token>)
    ensures var inside := WrittenFields(lib, fields) + ([RBrace] + rest);
      && SkipNewlines(inside) == inside
      && (fields == [] ==> inside == [RBrace] + rest)
      && (StartsFor(lib, inside) <==> fields != [] && fields[0].key == Identifier("for"))
  {
    if fields != [] {
      var f := fields[0];
      var after := [Equals] + Written(lib, f.value) + [Newline] + WrittenFields(lib, fields[1..]) + ([RBrace] + rest);
      assert WrittenFields(lib, fields) + ([RBrace] + rest) == [WrittenKey(f.key)] + after;
    }
  }

  lemma {:induction false} FieldsRead(lib: Library, within: Expression, fields: seq<Field>, rest: seq<Token>)
    requires ConditionalsComeApart(lib) && forall i :: 0 <= i < |fields| ==> fields[i].value < within && WellFormed(lib, fields[i].value)
    ensures ParseFields(lib, WrittenFields(lib, fields) + ([RBrace] + rest))
         == if LegibleFields(lib, fields) then Parsed(ExpandedFields(lib, fields), rest) else Failed
    decreases within, 0, |fields|
  {
    hide ConditionalsComeApart, WellFormed, Legible, LegibleFields, ParseFields, ParseExpression, Written, WrittenField, Expanded, ExpandedField, SkipNewlines;
    FieldsStart(lib, fields, rest);
    assert ([RBrace] + rest)[1..] == rest;
    if fields == [] {
      assert WrittenFields(lib, fields) + ([RBrace] + rest) == [RBrace] + rest;
      NoFields(lib, rest);
    } else {
      var f, others := fields[0], WrittenFields(lib, fields[1..]) + ([RBrace] + rest);
      assert f.value < within;
      SplitLegibleFields(lib, fields);
      WrittenReads(lib, f.value, [Newline] + others);
      FieldsRead(lib, within, fields[1..], rest);
      FieldReads(lib, f, others);
      assert WrittenFields(lib, fields) + ([RBrace] + rest) == WrittenField(lib, f) + others;
      assert ExpandedFields(lib, fields) == [ExpandedField(lib, f)] + ExpandedFields(lib, fields[1..]);
    }
  }

  lemma {:induction false} FieldReads(lib: Library, f: Field, others: seq<Token>)
    requires ParseExpression(lib, Written(lib, f.value) + ([Newline] + others)) == Outcome(lib, f.value, [Newline] + others)
    ensures ParseFields(lib, WrittenField(lib, f) + others) ==
      if !Legible(lib, f.value) then Failed
      else
        match ParseFields(lib, others)
        case Failed => Failed
        case Parsed(fields, rest) => Parsed([ExpandedField(lib, f)] + fields, rest)
  {
    hide ParseExpression, Legible, Expanded, Written;
    var value := Written(lib, f.value) + ([Newline] + others);
    var ts := [WrittenKey(f.key), Equals] + value;
    assert WrittenField(lib, f) + others == ts;
    assert ts[2..] == value && ([Newline] + others)[1..] == others;
    KeyReads(f.key);
    assert SkipNewlines(ts) == ts;
  }

  lemma {:induction false} NoFields(lib: Library, rest: seq<Token>)
    ensures ParseFields(lib, [RBrace] + rest) == Parsed([], rest) && LegibleFields(lib, [])
  {
  }

  lemma {:induction false} KeyReads(key: FieldKey)
    ensures ParseKey(WrittenKey(key)) == Some(key) && !WrittenKey(key).RBrace? && !WrittenKey(key).Newline?
  {
  }

  // ------------------------------------------------------------------ whole expressions

  /** The text of a well-formed expression, read as a whole, is that expression exactly when it is legible. */
  lemma {:induction false} ReadWritten(lib: Library, e: Expression)
    requires ConditionalsComeApart(lib) && WellFormed(lib, e)
    ensures ReadExpression(lib, Written(lib, e)) == if Legible(lib, e) then Some(Expanded(lib, e)) else None
  {
    hide ConditionalsComeApart, ParseExpression, WellFormed, Legible;
    assert Written(lib, e) + [] == Written(lib, e);
    WrittenReads(lib, e, []);
  }

  // ------------------------------------------------------------------ what is written after an expression

  lemma {:induction false} AppendedAccessor(lib: Library, each: seq<Accessor>, a: Accessor)
    ensures WrittenEach(lib, each + [a]) == WrittenEach(lib, each) + WrittenAccessor(lib, a)
    ensures LegibleEach(lib, each + [a]) <==> LegibleEach(lib, each) && LegibleAccessor(lib, a)
    decreases |each|
  {
    hide WrittenAccessor, LegibleAccessor;
    var all := each + [a];
    assert forall i :: 0 <= i < |each| ==> all[i] == each[i];
    assert all[|each|] == a;
    if each != [] {
      assert all[1..] == each[1..] + [a];
      AppendedAccessor(lib, each[1..], a);
    } else {
      assert all[1..] == [];
    }
  }

  /**
    Text put after the text of a reference is read as the compiler means it: a name or an index belongs to
    the last thing it can be applied to, which after a splat is every element.
   */
  lemma {:induction false} AttributeReads(lib: Library, e: Expression, n: string)
    requires ConditionalsComeApart(lib) && WellFormed(lib, e) && (Traversable(e) || e.Splat?) && ValidIdentifier(lib, n)
    ensures ReadExpression(lib, Written(lib, e) + [Dot, Ident(n)]) == if Legible(lib, e) then Some(Expanded(lib, WithAttribute(e, n))) else None
  {
    hide ConditionalsComeApart, ReadExpression, Expanded, Legible, WellFormed, Written, WithAttribute, ValidIdentifier;
    AttributeWritten(lib, e, n);
    ReadWritten(lib, WithAttribute(e, n));
  }

  lemma {:induction false} AttributeWritten(lib: Library, e: Expression, n: string)
    requires WellFormed(lib, e) && (Traversable(e) || e.Splat?) && ValidIdentifier(lib, n)
    ensures Written(lib, WithAttribute(e, n)) == Written(lib, e) + [Dot, Ident(n)]
    ensures WellFormed(lib, WithAttribute(e, n)) && (Legible(lib, WithAttribute(e, n)) <==> Legible(lib, e))
  {
    hide LegibleEach, ValidIdentifier;
    if e.Splat? {
      hide Written, Legible, WellFormed;
      AppendedAccessor(lib, e.each, Named(n));
      SplatParts(lib, e);
      SplatParts(lib, WithAttribute(e, n));
      assert WellFormedAccessor(lib, Named(n)) && LegibleAccessor(lib, Named(n));
    }
  }

  lemma {:induction false} IndexReads(lib: Library, e: Expression, index: Expression)
    requires ConditionalsComeApart(lib) && WellFormed(lib, e) && (Traversable(e) || e.Splat?) && WellFormed(lib, index)
    ensures ReadExpression(lib, Written(lib, e) + [LBracket] + Written(lib, index) + [RBracket]) ==
      if Legible(lib, e) && Legible(lib, index) then Some(Expanded(lib, WithIndex(e, index))) else None
  {
    hide ConditionalsComeApart, ReadExpression, Expanded, Legible, WellFormed, Written, WithIndex;
    IndexWritten(lib, e, index);
    ReadWritten(lib, WithIndex(e, index));
  }

  lemma {:induction false} IndexWritten(lib: Library, e: Expression, index: Expression)
    requires WellFormed(lib, e) && (Traversable(e) || e.Splat?) && WellFormed(lib, index)
    ensures Written(lib, WithIndex(e, index)) == Written(lib, e) + [LBracket] + Written(lib, index) + [RBracket]
    ensures WellFormed(lib, WithIndex(e, index)) && (Legible(lib, WithIndex(e, index)) <==> Legible(lib, e) && Legible(lib, index))
  {
    hide Written, Legible, WellFormed, LegibleEach;
    if e.Splat? {
      AppendedAccessor(lib, e.each, At(index));
      SplatParts(lib, e);
      SplatParts(lib, WithIndex(e, index));
      assert WellFormedAccessor(lib, At(index)) && (LegibleAccessor(lib, At(index)) <==> Legible(lib, index));
    } else {
      IndexParts(lib, WithIndex(e, index));
    }
  }

  const SUFFIX := [Question, Digits(1), Colon, Digits(0)]

  /** ` ? 1 : 0` after an expression is read as `WithSuffix` says. */
  lemma {:induction false} SuffixReads(lib: Library, e: Expression)
    requires ConditionalsComeApart(lib) && !e.Choice?
    requires if e.Typed? then lib.validExpression(e.text) && (lib.standsAlone(e.text) || lib.commented(e.text)) else WellFormed(lib, e) && Legible(lib, e)
    ensures ReadExpression(lib, Written(lib, e) + SUFFIX) == Some(Expanded(lib, WithSuffix(lib, e)))
  {
    hide ConditionalsComeApart, ParseExpression, WellFormed, Legible;
    assert Written(lib, e) + SUFFIX + [] == Written(lib, e) + SUFFIX;
    if e.Typed? {
      TextSuffixReads(lib, e.text);
    } else {
      OperandReads(lib, e, SUFFIX);
      DigitsRead(lib, Written(lib, e) + SUFFIX, Expanded(lib, e));
    }
  }

  /** The two alternatives that a suffix writes. */
  lemma {:induction false} DigitsRead(lib: Library, ts: seq<Token>, condition: Expression)
    requires ParseOperand(lib, ts) == Parsed(condition, SUFFIX)
    ensures ParseExpression(lib, ts) == Parsed(OneOrNone(condition), [])
  {
    hide ParseOperand, ParseExpression;
    var second := [Digits(1), Colon, Digits(0)];
    assert SUFFIX == [Question] + second;
    DigitReads(lib, 1, [Colon, Digits(0)]);
    DigitReads(lib, 0, []);
    assert [Digits(1)] + [Colon, Digits(0)] == second && [Digits(0)] + [] == [Digits(0)];
    assert [Colon, Digits(0)][1..] == [Digits(0)];
    ConditionalReads(lib, ts, condition, second, Parsed(Digit(1), [Colon, Digits(0)]));
  }

  lemma {:induction false} DigitReads(lib: Library, n: nat, rest: seq<Token>)
    requires Ends(rest)
    ensures ParseExpression(lib, [Digits(n)] + rest) == Parsed(Digit(n), rest)
  {
    hide ParseExpression;
    var ts := [Digits(n)] + rest;
    assert ts[1..] == rest;
    assert ParseTerm(lib, ts) == Parsed(Digit(n), rest);
    NothingApplied(lib, Digit(n), rest);
    OperandIsAll(lib, ts, Digit(n), rest);
  }

  lemma {:induction false} TextSuffixReads(lib: Library, t: string)
    requires ConditionalsComeApart(lib) && lib.validExpression(t) && (lib.standsAlone(t) || lib.commented(t))
    ensures ParseExpression(lib, Lexed(lib, t) + SUFFIX) == Parsed(Expanded(lib, WithSuffix(lib, Typed(t))), [])
    decreases |t|, 1
  {
    hide ParseExpression, ParseOperand, DropLine;
    if IsConditional(lib, t) {
      ConditionalSuffixReads(lib, t);
    } else if lib.commented(t) {
      CommentReads(lib, t);
    } else {
      LeafReads(lib, t, SUFFIX);
      DigitsRead(lib, Lexed(lib, t) + SUFFIX, Typed(t));
    }
  }

  lemma {:induction false} ConditionalSuffixReads(lib: Library, t: string)
    requires ConditionalsComeApart(lib) && lib.validExpression(t) && (lib.standsAlone(t) || lib.commented(t))
    requires IsConditional(lib, t)
    ensures ParseExpression(lib, Lexed(lib, t) + SUFFIX) == Parsed(Expanded(lib, WithSuffix(lib, Typed(t))), [])
    decreases |t|, 0
  {
    hide ParseExpression, ParseOperand, Lexed, ExpandedText, WithSuffix;
    var c := lib.conditional(t).value;
    LexedParts(lib, t);
    var third := Lexed(lib, c.no) + SUFFIX;
    var second := Lexed(lib, c.yes) + ([Colon] + third);
    TextReads(lib, c.yes, [Colon] + third);
    TextSuffixReads(lib, c.no);
    LeafReads(lib, c.condition, [Question] + second);
    SuffixedConditional(lib, t);
    assert ([Colon] + third)[1..] == third;
    assert Lexed(lib, t) + SUFFIX == [Leaf(c.condition)] + ([Question] + second);
    ConditionalReads(lib, Lexed(lib, t) + SUFFIX, Typed(c.condition), second, Parsed(ExpandedText(lib, c.yes), [Colon] + third));
  }

  lemma {:induction false} SuffixedConditional(lib: Library, t: string)
    requires IsConditional(lib, t) && ConditionalsComeApart(lib) && lib.validExpression(t) && (lib.standsAlone(t) || lib.commented(t))
    ensures var c := lib.conditional(t).value;
      Expanded(lib, WithSuffix(lib, Typed(t))) ==
      Choice(Typed(c.condition), ExpandedText(lib, c.yes), Expanded(lib, WithSuffix(lib, Typed(c.no))))
  {
  }

  /** A comment takes the suffix. */
  lemma {:induction false} CommentReads(lib: Library, t: string)
    requires lib.commented(t) && !IsConditional(lib, t)
    ensures ParseExpression(lib, Lexed(lib, t) + SUFFIX) == Parsed(Typed(t), [])
  {
    hide ParseExpression, DropLine;
    var ts := Lexed(lib, t) + SUFFIX;
    assert ts[1..] == SUFFIX;
    SuffixDropped();
    assert ParseTerm(lib, ts) == Parsed(Typed(t), []);
    OperandIsAll(lib, ts, Typed(t), []);
  }

  lemma {:induction false} SuffixDropped()
    ensures DropLine(SUFFIX) == []
  {
    var one, colon, zero := SUFFIX[1..], SUFFIX[2..], SUFFIX[3..];
    assert one[1..] == colon && colon[1..] == zero && zero[1..] == [];
    assert DropLine(zero) == [];
    assert DropLine(colon) == [];
  }

  // ------------------------------------------------------------------ reading keeps the value

  /** Text that reads as a conditional has the value of the alternative its condition chooses. */
  ghost predicate ReadsConditionals(lib: Library, typed: string -> Value) {
    forall text :: IsConditional(lib, text) ==>
      var c := lib.conditional(text).value; typed(text) == Choose(typed(c.condition), typed(c.yes), typed(c.no))
  }

  lemma {:induction false} ExpandedTextMeans(lib: Library, env: Env, t: string)
    requires ReadsConditionals(lib, env.typed)
    ensures Evaluate(env, ExpandedText(lib, t)) == env.typed(t)
    decreases |t|
  {
    if IsConditional(lib, t) {
      ExpandedTextMeans(lib, env, lib.conditional(t).value.yes);
      ExpandedTextMeans(lib, env, lib.conditional(t).value.no);
    }
  }

  lemma {:induction false} EachExpanded(lib: Library, each: seq<Accessor>)
    ensures |ExpandedEach(lib, each)| == |each|
    ensures forall i :: 0 <= i < |each| ==> ExpandedEach(lib, each)[i] == ExpandedAccessor(lib, each[i])
    decreases |each|
  {
    hide ExpandedAccessor;
    if each != [] {
      EachExpanded(lib, each[1..]);
    }
  }

  lemma {:induction false} ItemsExpanded(lib: Library, items: seq<Expression>)
    ensures |ExpandedItems(lib, items)| == |items|
    ensures forall i :: 0 <= i < |items| ==> ExpandedItems(lib, items)[i] == Expanded(lib, items[i])
    decreases |items|
  {
    hide Expanded;
    if items != [] {
      ItemsExpanded(lib, items[1..]);
    }
  }

  lemma {:induction false} FieldsExpanded(lib: Library, fields: seq<Field>)
    ensures |ExpandedFields(lib, fields)| == |fields|
    ensures forall i :: 0 <= i < |fields| ==> ExpandedFields(lib, fields)[i] == ExpandedField(lib, fields[i])
    decreases |fields|
  {
    hide ExpandedField;
    if fields != [] {
      FieldsExpanded(lib, fields[1..]);
    }
  }

  /** Taking typed conditionals apart does not change what an expression denotes. */
  lemma {:induction false} ExpandedMeans(lib: Library, env: Env, e: Expression)
    requires ReadsConditionals(lib, env.typed)
    ensures Evaluate(env, Expanded(lib, e)) == Evaluate(env, e)
    decreases e, 1
  {
    hide ReadsConditionals;
    match e
    case Typed(t) => ExpandedTextMeans(lib, env, t);
    case Attribute(of, _) => ExpandedMeans(lib, env, of);
    case Index(of, index) =>
      ExpandedMeans(lib, env, of);
      ExpandedMeans(lib, env, index);
    case Splat(of, each) => ExpandedSplatMeans(lib, env, e);
    case EachInstance(of, _) => ExpandedMeans(lib, env, of);
    case Choice(c, yes, no) =>
      ExpandedMeans(lib, env, c);
      ExpandedMeans(lib, env, yes);
      ExpandedMeans(lib, env, no);
    case Items(items) =>
      ItemsExpanded(lib, items);
      forall i | 0 <= i < |items| ensures Evaluate(env, ExpandedItems(lib, items)[i]) == Evaluate(env, items[i]) {
        ExpandedMeans(lib, env, items[i]);
      }
    case Fields(fields) =>
      var all := Expanded(lib, e);
      forall i | 0 <= i < |all.fields| ensures all.fields[i].value < all {
        assert all.fields[i] < all;
      }
      forall i | 0 <= i < |fields| ensures fields[i].value < e {
        assert fields[i] < e;
      }
      ExpandedFieldsMean(lib, env, fields, e, all);
    case _ =>
  }

  lemma {:induction false} ExpandedSplatMeans(lib: Library, env: Env, e: Expression)
    requires ReadsConditionals(lib, env.typed) && e.Splat?
    ensures Evaluate(env, Expanded(lib, e)) == Evaluate(env, e)
    decreases e, 0
  {
    hide ReadsConditionals;
    ExpandedMeans(lib, env, e.of);
    var all := Expanded(lib, e);
    Inside(e);
    Inside(all);
    var items := SplatItems(Evaluate(env, e.of));
    forall i | 0 <= i < |items| ensures Reach(env, items[i], all.each, all) == Reach(env, items[i], e.each, e) {
      ExpandedReach(lib, env, items[i], e.each, e, all);
    }
  }

  lemma {:induction false} Inside(e: Expression)
    requires e.Splat?
    ensures AccessorsInside(e.each, e)
  {
    forall i | 0 <= i < |e.each| && e.each[i].At? ensures e.each[i].index < e {
      assert e.each[i] < e;
    }
  }

  lemma {:induction false} ExpandedReach(lib: Library, env: Env, v: Value, each: seq<Accessor>, e: Expression, all: Expression)
    requires ReadsConditionals(lib, env.typed)
    requires AccessorsInside(each, e) && AccessorsInside(ExpandedEach(lib, each), all)
    ensures Reach(env, v, ExpandedEach(lib, each), all) == Reach(env, v, each, e)
    decreases e, 0, |each|
  {
    hide ReadsConditionals, ExpandedEach, Evaluate, Expanded, ExpandedAccessor, ElementOf, Reach;
    EachExpanded(lib, each);
    if each == [] {
      assert ExpandedEach(lib, each) == [];
      ReachNothing(env, v, e);
      ReachNothing(env, v, all);
    } else {
      var n := |each| - 1;
      AllButLastExpanded(lib, each);
      ExpandedReach(lib, env, v, each[..n], e, all);
      if each[n].At? {
        ExpandedMeans(lib, env, each[n].index);
      }
      assert ExpandedEach(lib, each)[n] == ExpandedAccessor(lib, each[n]);
      ExpandedLast(lib, env, each[n]);
      LastAgrees(env, v, each, ExpandedEach(lib, each), e, all);
    }
  }

  /** Two rows of accessors reach the same if all but the last do and the last ones do the same. */
  lemma {:induction false} LastAgrees(env: Env, v: Value, each: seq<Accessor>, other: seq<Accessor>, e: Expression, all: Expression)
    requires |each| == |other| > 0 && AccessorsInside(each, e) && AccessorsInside(other, all)
    requires Reach(env, v, each[..|each| - 1], e) == Reach(env, v, other[..|other| - 1], all)
    requires var a, b := each[|each| - 1], other[|other| - 1];
      (a.Named? ==> b == a) && (a.At? ==> b.At? && Evaluate(env, b.index) == Evaluate(env, a.index))
    ensures Reach(env, v, each, e) == Reach(env, v, other, all)
  {
    hide Reach, Evaluate, ElementOf;
    ReachLast(env, v, each, e);
    ReachLast(env, v, other, all);
  }

  lemma {:induction false} AllButLastExpanded(lib: Library, each: seq<Accessor>)
    requires each != []
    ensures |ExpandedEach(lib, each)| == |each| && ExpandedEach(lib, each)[..|each| - 1] == ExpandedEach(lib, each[..|each| - 1])
  {
    hide ExpandedEach, ExpandedAccessor;
    EachExpanded(lib, each);
    EachExpanded(lib, each[..|each| - 1]);
  }

  lemma {:induction false} ExpandedLast(lib: Library, env: Env, a: Accessor)
    requires a.At? ==> Evaluate(env, Expanded(lib, a.index)) == Evaluate(env, a.index)
    ensures var b := ExpandedAccessor(lib, a);
      && (a.Named? ==> b == a)
      && (a.At? ==> b.At? && Evaluate(env, b.index) == Evaluate(env, a.index))
  {
    hide Evaluate, Expanded;
  }

  lemma {:induction false} ReachNothing(env: Env, v: Value, within: Expression)
    ensures Reach(env, v, [], within) == v
  {
  }

  lemma {:induction false} ReachLast(env: Env, v: Value, each: seq<Accessor>, within: Expression)
    requires each != [] && AccessorsInside(each, within)
    ensures var before, last := Reach(env, v, each[..|each| - 1], within), each[|each| - 1];
      Reach(env, v, each, within) == if last.Named? then env.access(before, last.name) else ElementOf(before, Evaluate(env, last.index))
  {
    hide Evaluate;
  }

  lemma {:induction false} ExpandedFieldsMean(lib: Library, env: Env, fields: seq<Field>, e: Expression, all: Expression)
    requires ReadsConditionals(lib, env.typed)
    requires forall i :: 0 <= i < |fields| ==> fields[i].value < e
    requires forall i :: 0 <= i < |ExpandedFields(lib, fields)| ==> ExpandedFields(lib, fields)[i].value < all
    ensures EvaluateFields(env, ExpandedFields(lib, fields), all) == EvaluateFields(env, fields, e)
    decreases e, 0, |fields|
  {
    hide ReadsConditionals, ExpandedFields, Evaluate, Expanded;
    FieldsExpanded(lib, fields);
    if fields == [] {
      assert ExpandedFields(lib, fields) == [];
    } else {
      var n := |fields| - 1;
      FieldsExpanded(lib, fields[..n]);
      assert ExpandedFields(lib, fields)[..n] == ExpandedFields(lib, fields[..n]);
      ExpandedFieldsMean(lib, env, fields[..n], e, all);
      ExpandedMeans(lib, env, fields[n].value);
    }
  }

  /** The text of a legible expression reads as an expression with the same value. */
  lemma {:induction false} ReadingKeepsValue(lib: Library, env: Env, e: Expression)
    requires ConditionalsComeApart(lib) && ReadsConditionals(lib, env.typed) && WellFormed(lib, e) && Legible(lib, e)
    ensures ReadExpression(lib, Written(lib, e)).Some?
    ensures Evaluate(env, ReadExpression(lib, Written(lib, e)).value) == Evaluate(env, e)
  {
    hide ConditionalsComeApart, ReadsConditionals, WellFormed, Legible, Evaluate, Expanded, Written, ReadExpression;
    ReadWritten(lib, e);
    ExpandedMeans(lib, env, e);
  }
}
