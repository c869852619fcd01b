/**
  The text of emitted expressions and a reader of it. The compiler writes an expression by putting text
  after text; the reader follows the HCL grammar. Text a user typed is a token of its own, except that a
  conditional is taken apart, because what is written after it may belong to its last alternative.
 */
module HclExpressions {
  import opened Basics
  import opened AssemblyTypes
  import opened HclTokens
  import opened References
  import opened ModuleInputs

  // ------------------------------------------------------------------ writing

  function Lexed(lib: Library, text: string): seq<Token>
    decreases |text|
  {
    if IsConditional(lib, text) then
      var c := lib.conditional(text).value;
      [Leaf(c.condition), Question] + Lexed(lib, c.yes) + [Colon] + Lexed(lib, c.no)
    else [Leaf(text)]
  }

  function Written(lib: Library, e: Expression): seq<Token> {
    match e
    case Typed(t) => Lexed(lib, t)
    case Template(t) => [Interpolated(t)]
    case Constant(t) => [Quoted(t)]
    case Digit(n) => [Digits(n)]
    case Variable(n) => [Ident("var"), Dot, Ident(n)]
    case Module(n) => [Ident("module"), Dot, Ident(n)]
    case Attribute(of, n) => Written(lib, of) + [Dot, Ident(n)]
    case Index(of, index) => Written(lib, of) + [LBracket] + Written(lib, index) + [RBracket]
    case Splat(of, each) => Written(lib, of) + [LBracket, Star, RBracket] + WrittenEach(lib, each)
    case EachInstance(of, path) =>
      [LBracket, Ident("for"), Ident("instance"), Ident("in")] + Written(lib, of) + [Colon, Ident("instance")] + WrittenPath(path) + [RBracket]
    case Choice(c, yes, no) => Written(lib, c) + [Question] + Written(lib, yes) + [Colon] + Written(lib, no)
    case Items(items) => [LBracket] + WrittenItems(lib, items) + [RBracket]
    case Fields(fields) => [LBrace, Newline] + (if fields == [] then [Newline] else WrittenFields(lib, fields)) + [RBrace]
  }

  function WrittenAccessor(lib: Library, a: Accessor): seq<Token> {
    match a
    case Named(n) => [Dot, Ident(n)]
    case At(index) => [LBracket] + Written(lib, index) + [RBracket]
  }

  function WrittenEach(lib: Library, each: seq<Accessor>): seq<Token> {
    if each == [] then [] else WrittenAccessor(lib, each[0]) + WrittenEach(lib, each[1..])
  }

  function WrittenPath(path: seq<string>): seq<Token> {
    if path == [] then [] else [Dot, Ident(path[0])] + WrittenPath(path[1..])
  }

  function WrittenItems(lib: Library, items: seq<Expression>): seq<Token> {
    if items == [] then []
    else if |items| == 1 then Written(lib, items[0])
    else Written(lib, items[0]) + [Comma] + WrittenItems(lib, items[1..])
  }

  function WrittenKey(key: FieldKey): Token {
    match key
    case Identifier(n) => Ident(n)
    case QuotedKey(t) => Quoted(t)
    case ExpressionKey(t) => Parenthesised(t)
  }

  function WrittenFields(lib: Library, fields: seq<Field>): seq<Token> {
    if fields == [] then [] else WrittenField(lib, fields[0]) + WrittenFields(lib, fields[1..])
  }

  function WrittenField(lib: Library, f: Field): seq<Token> {
    [WrittenKey(f.key), Equals] + Written(lib, f.value) + [Newline]
  }

  // ------------------------------------------------------------------ reading

  function DropLine(ts: seq<Token>): (rest: seq<Token>)
    ensures |rest| <= |ts| && EndsLine(rest)
  {
    if EndsLine(ts) then ts else DropLine(ts[1..])
  }

  /** A conditional, or else an operand. */
  function ParseExpression(lib: Library, ts: seq<Token>): (r: Parsed<Expression>)
    ensures r.Parsed? ==> |r.rest| < |ts|
    decreases |ts|, 3
  {
    match ParseOperand(lib, ts)
    case Failed => Failed
    case Parsed(condition, rest) =>
      if rest == [] || !rest[0].Question? then Parsed(condition, rest)
      else
        match ParseExpression(lib, rest[1..])
        case Failed => Failed
        case Parsed(yes, others) =>
          if others == [] || !others[0].Colon? then Failed
          else
            match ParseExpression(lib, others[1..])
            case Failed => Failed
            case Parsed(no, after) => Parsed(Choice(condition, yes, no), after)
  }

  /** A term and what is applied to it. Typed text may be any operation, so nothing is applied to it. */
  function ParseOperand(lib: Library, ts: seq<Token>): (r: Parsed<Expression>)
    ensures r.Parsed? ==> |r.rest| < |ts|
    decreases |ts|, 2
  {
    match ParseTerm(lib, ts)
    case Failed => Failed
    case Parsed(e, rest) => if e.Typed? then Parsed(e, rest) else ParseAccessors(lib, e, rest)
  }

  /** Attributes and indexes are applied one after the other; a splat takes all that follow it. */
  function ParseAccessors(lib: Library, e: Expression, ts: seq<Token>): (r: Parsed<Expression>)
    ensures r.Parsed? ==> |r.rest| <= |ts|
    decreases |ts|, 4
  {
    if ts == [] then Parsed(e, ts)
    else if ts[0].Dot? then
      if |ts| > 1 && ts[1].Ident? then ParseAccessors(lib, Attribute(e, ts[1].name), ts[2..]) else Failed
    else if ts[0].LBracket? then
      if |ts| > 2 && ts[1].Star? && ts[2].RBracket? then
        match ParseEach(lib, ts[3..])
        case Failed => Failed
        case Parsed(each, rest) => Parsed(Splat(e, each), rest)
      else
        match ParseExpression(lib, ts[1..])
        case Failed => Failed
        case Parsed(index, rest) =>
          if rest == [] || !rest[0].RBracket? then Failed else ParseAccessors(lib, Index(e, index), rest[1..])
    else Parsed(e, ts)
  }

  function ParseEach(lib: Library, ts: seq<Token>): (r: Parsed<seq<Accessor>>)
    ensures r.Parsed? ==> |r.rest| <= |ts|
    decreases |ts|, 4
  {
    if ts == [] then Parsed([], ts)
    else if ts[0].Dot? then
      if |ts| > 1 && ts[1].Ident? then
        match ParseEach(lib, ts[2..])
        case Failed => Failed
        case Parsed(each, rest) => Parsed([Named(ts[1].name)] + each, rest)
      else Failed
    else if ts[0].LBracket? then
      match ParseExpression(lib, ts[1..])
      case Failed => Failed
      case Parsed(index, rest) =>
        if rest == [] || !rest[0].RBracket? then Failed
        else
          match ParseEach(lib, rest[1..])
          case Failed => Failed
          case Parsed(each, after) => Parsed([At(index)] + each, after)
    else Parsed([], ts)
  }

  function ParseTerm(lib: Library, ts: seq<Token>): (r: Parsed<Expression>)
    ensures r.Parsed? ==> |r.rest| < |ts|
    decreases |ts|, 1
  {
    if ts == [] then Failed
    else
      match ts[0]
      case Leaf(t) =>
        if lib.commented(t) then Parsed(Typed(t), DropLine(ts[1..]))
        else if CanFollow(lib, t, ts[1..]) then Parsed(Typed(t), ts[1..])
        else Failed
      case Interpolated(t) => Parsed(Template(t), ts[1..])
      case Quoted(t) => Parsed(Constant(t), ts[1..])
      case Digits(n) => Parsed(Digit(n), ts[1..])
      case Ident(root) =>
        if (root == "var" || root == "module") && |ts| > 2 && ts[1].Dot? && ts[2].Ident? then
          Parsed(if root == "var" then Variable(ts[2].name) else Module(ts[2].name), ts[3..])
        else Failed
      case LBracket =>
        if StartsFor(lib, ts[1..]) then ParseFor(lib, ts[1..])
        else
          (match ParseItems(lib, ts[1..])
           case Failed => Failed
           case Parsed(items, rest) => Parsed(Items(items), rest))
      case LBrace =>
        if StartsFor(lib, SkipNewlines(ts[1..])) then Failed
        else
          (match ParseFields(lib, ts[1..])
           case Failed => Failed
           case Parsed(fields, rest) => Parsed(Fields(fields), rest))
      case _ => Failed
  }

  /** `for x in e : x.path]`, the comprehensions that are emitted. */
  function ParseFor(lib: Library, ts: seq<Token>): (r: Parsed<Expression>)
    ensures r.Parsed? ==> |r.rest| < |ts|
    decreases |ts|, 4
  {
    if |ts| < 3 || !ts[0].Ident? || !ts[1].Ident? || ts[2] != Ident("in") then Failed
    else
      match ParseExpression(lib, ts[3..])
      case Failed => Failed
      case Parsed(of, rest) =>
        if |rest| < 2 || !rest[0].Colon? || rest[1] != ts[1] then Failed
        else
          var (path, after) := ParsePath(rest[2..]);
          if after == [] || !after[0].RBracket? then Failed else Parsed(EachInstance(of, path), after[1..])
  }

  function ParsePath(ts: seq<Token>): (r: (seq<string>, seq<Token>))
    ensures |r.1| <= |ts|
  {
    if |ts| > 1 && ts[0].Dot? && ts[1].Ident? then
      var (path, rest) := ParsePath(ts[2..]);
      ([ts[1].name] + path, rest)
    else ([], ts)
  }

  function ParseItems(lib: Library, ts: seq<Token>): (r: Parsed<seq<Expression>>)
    ensures r.Parsed? ==> |r.rest| < |ts|
    decreases |ts|, 4
  {
    if ts == [] then Failed
    else if ts[0].RBracket? then Parsed([], ts[1..])
    else
      match ParseExpression(lib, ts)
      case Failed => Failed
      case Parsed(first, rest) =>
        if rest == [] then Failed
        else if rest[0].RBracket? then Parsed([first], rest[1..])
        else if rest[0].Comma? then
          match ParseItems(lib, rest[1..])
          case Failed => Failed
          case Parsed(others, after) => Parsed([first] + others, after)
        else Failed
  }

  function ParseKey(t: Token): Option<FieldKey> {
    match t
    case Ident(n) => Some(Identifier(n))
    case Quoted(s) => Some(QuotedKey(s))
    case Parenthesised(s) => Some(ExpressionKey(s))
    case _ => None
  }

  /** Lines `key = value` up to the closing brace. */
  function ParseFields(lib: Library, ts: seq<Token>): (r: Parsed<seq<Field>>)
    ensures r.Parsed? ==> |r.rest| < |ts|
    decreases |ts|, 4
  {
    var start := SkipNewlines(ts);
    if start == [] then Failed
    else if start[0].RBrace? then Parsed([], start[1..])
    else if ParseKey(start[0]).None? || |start| < 2 || !start[1].Equals? then Failed
    else
      match ParseExpression(lib, start[2..])
      case Failed => Failed
      case Parsed(value, rest) =>
        var first := Field(ParseKey(start[0]).value, value);
        if rest == [] then Failed
        else if rest[0].RBrace? then Parsed([first], rest[1..])
        else if rest[0].Newline? || rest[0].Comma? then
          match ParseFields(lib, rest[1..])
          case Failed => Failed
          case Parsed(others, after) => Parsed([first] + others, after)
        else Failed
  }

  /** The expression that `ts` is, as a whole. */
  function ReadExpression(lib: Library, ts: seq<Token>): Option<Expression> {
    match ParseExpression(lib, ts)
    case Failed => None
    case Parsed(e, rest) => if rest == [] then Some(e) else None
  }

  // ------------------------------------------------------------------ what the text of an expression reads as

  /** Parts of a conditional are expressions, and the comment at its end is one at the end of its last part. */
  ghost predicate ConditionalsComeApart(lib: Library) {
    && (forall t :: lib.standsAlone(t) ==> !lib.commented(t))
    && forall t :: IsConditional(lib, t) && lib.validExpression(t) ==>
         var c := lib.conditional(t).value;
         && !IsConditional(lib, c.condition) && (lib.startsFor(c.condition) <==> lib.startsFor(t))
         && lib.validExpression(c.condition) && lib.validExpression(c.yes) && lib.validExpression(c.no)
         && (lib.standsAlone(t) || lib.commented(t) ==> lib.standsAlone(c.condition) && lib.standsAlone(c.yes))
         && (lib.standsAlone(t) ==> lib.standsAlone(c.no))
         && (lib.commented(t) ==> lib.commented(c.no))
  }

  /** Expressions that further names and indexes can be applied to, one at a time. */
  predicate Traversable(e: Expression) {
    e.Variable? || e.Module? || e.Attribute? || e.Index? || e.EachInstance?
  }

  /** Names are identifiers, text stands alone, and parts are where the compiler puts them. */
  ghost predicate WellFormed(lib: Library, e: Expression)
    decreases e
  {
    match e
    case Typed(t) => lib.validExpression(t) && lib.standsAlone(t)
    case Template(t) => lib.validExpression(InQuotes(t)) && lib.standsAlone(lib.kept(InQuotes(t)))
    case Constant(_) => true
    case Digit(_) => true
    case Variable(n) => ValidIdentifier(lib, n)
    case Module(n) => ValidIdentifier(lib, n)
    case Attribute(of, n) => Traversable(of) && WellFormed(lib, of) && ValidIdentifier(lib, n)
    case Index(of, index) => Traversable(of) && WellFormed(lib, of) && WellFormed(lib, index)
    case Splat(of, each) => Traversable(of) && WellFormed(lib, of) && forall i :: 0 <= i < |each| ==> WellFormedAccessor(lib, each[i])
    case EachInstance(of, path) => WellFormed(lib, of) && forall i :: 0 <= i < |path| ==> ValidIdentifier(lib, path[i])
    case Choice(c, yes, no) =>
      && !c.Choice? && (c.Typed? ==> !IsConditional(lib, c.text))
      && WellFormed(lib, c) && WellFormed(lib, yes) && WellFormed(lib, no)
    case Items(items) => forall i :: 0 <= i < |items| ==> WellFormed(lib, items[i])
    case Fields(fields) => forall i :: 0 <= i < |fields| ==> WellFormedKey(lib, fields[i].key) && WellFormed(lib, fields[i].value)
  }

  ghost predicate WellFormedAccessor(lib: Library, a: Accessor)
    decreases a
  {
    match a
    case Named(n) => ValidIdentifier(lib, n)
    case At(index) => WellFormed(lib, index)
  }

  predicate WellFormedKey(lib: Library, key: FieldKey) {
    match key
    case Identifier(n) => ValidIdentifier(lib, n)
    case QuotedKey(_) => true
    case ExpressionKey(t) => lib.validExpression("(" + t + ")") && lib.standsAlone(lib.kept("(" + t + ")"))
  }

  /** The text begins with typed text whose first word is `for`. */
  predicate BeginsFor(lib: Library, e: Expression) {
    match e
    case Typed(t) => lib.startsFor(t)
    case Choice(c, _, _) => BeginsFor(lib, c)
    case _ => false
  }

  /** No list or object has the word `for` right after its bracket or brace. */
  ghost predicate Legible(lib: Library, e: Expression)
    decreases e
  {
    match e
    case Attribute(of, _) => Legible(lib, of)
    case Index(of, index) => Legible(lib, of) && Legible(lib, index)
    case Splat(of, each) => Legible(lib, of) && forall i :: 0 <= i < |each| ==> LegibleAccessor(lib, each[i])
    case EachInstance(of, _) => Legible(lib, of)
    case Choice(c, yes, no) => Legible(lib, c) && Legible(lib, yes) && Legible(lib, no)
    case Items(items) => (items != [] ==> !BeginsFor(lib, items[0])) && forall i :: 0 <= i < |items| ==> Legible(lib, items[i])
    case Fields(fields) =>
      (fields != [] ==> fields[0].key != Identifier("for")) && forall i :: 0 <= i < |fields| ==> Legible(lib, fields[i].value)
    case _ => true
  }

  ghost predicate LegibleAccessor(lib: Library, a: Accessor)
    decreases a
  {
    a.At? ==> Legible(lib, a.index)
  }

  function ExpandedText(lib: Library, text: string): Expression
    decreases |text|
  {
    if IsConditional(lib, text) then
      var c := lib.conditional(text).value;
      Choice(Typed(c.condition), ExpandedText(lib, c.yes), ExpandedText(lib, c.no))
    else Typed(text)
  }

  /** The expression with its typed conditionals taken apart. */
  function Expanded(lib: Library, e: Expression): Expression {
    match e
    case Typed(t) => ExpandedText(lib, t)
    case Attribute(of, n) => Attribute(Expanded(lib, of), n)
    case Index(of, index) => Index(Expanded(lib, of), Expanded(lib, index))
    case Splat(of, each) => Splat(Expanded(lib, of), ExpandedEach(lib, each))
    case EachInstance(of, path) => EachInstance(Expanded(lib, of), path)
    case Choice(c, yes, no) => Choice(Expanded(lib, c), Expanded(lib, yes), Expanded(lib, no))
    case Items(items) => Items(ExpandedItems(lib, items))
    case Fields(fields) => Fields(ExpandedFields(lib, fields))
    case _ => e
  }

  function ExpandedAccessor(lib: Library, a: Accessor): Accessor {
    if a.At? then At(Expanded(lib, a.index)) else a
  }

  function ExpandedEach(lib: Library, each: seq<Accessor>): seq<Accessor> {
    if each == [] then [] else [ExpandedAccessor(lib, each[0])] + ExpandedEach(lib, each[1..])
  }

  function ExpandedItems(lib: Library, items: seq<Expression>): seq<Expression> {
    if items == [] then [] else [Expanded(lib, items[0])] + ExpandedItems(lib, items[1..])
  }

  function ExpandedField(lib: Library, f: Field): Field {
    Field(f.key, Expanded(lib, f.value))
  }

  function ExpandedFields(lib: Library, fields: seq<Field>): seq<Field> {
    if fields == [] then [] else [ExpandedField(lib, fields[0])] + ExpandedFields(lib, fields[1..])
  }
}
