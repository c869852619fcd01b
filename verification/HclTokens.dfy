/**
  The fragment of HCL expression syntax that types and defaults are written in: a printer from syntax
  trees to tokens, as the token-writing helpers lay them out, and a reader that follows the HCL grammar.
  Text a user typed is one opaque token, already known to be a valid expression.
 */
module HclTokens {
  import opened Basics
  import opened AssemblyTypes

  datatype Token =
    | Ident(name: string)
    | Leaf(text: string)
    | Quoted(text: string)
    | Interpolated(text: string)
    | Parenthesised(text: string)
    | Digits(value: nat)
    | LParen | RParen | LBracket | RBracket | LBrace | RBrace
    | Comma | Equals | Newline | Dot | Star | Question | Colon

  datatype Ast =
    | Name(name: string)
    | Raw(text: string)
    | Str(text: string)
    | Call(name: string, args: seq<Ast>)
    | TupleOf(items: seq<Ast>)
    | ObjectOf(entries: seq<Entry>)

  datatype Entry = Entry(key: Ast, value: Ast)

  // ------------------------------------------------------------------ printing

  function Print(a: Ast): (ts: seq<Token>)
    ensures ts != []
  {
    match a
    case Name(n) => [Ident(n)]
    case Raw(t) => [Leaf(t)]
    case Str(t) => [Quoted(t)]
    case Call(n, args) => [Ident(n), LParen] + PrintList(args) + [RParen]
    case TupleOf(items) => [LBracket] + PrintList(items) + [RBracket]
    case ObjectOf(entries) => [LBrace] + (if entries == [] then [] else [Newline]) + PrintEntries(entries) + [RBrace]
  }

  function PrintList(items: seq<Ast>): seq<Token> {
    if items == [] then []
    else if |items| == 1 then Print(items[0])
    else Print(items[0]) + [Comma] + PrintList(items[1..])
  }

  function PrintEntries(entries: seq<Entry>): seq<Token> {
    if entries == [] then [] else PrintEntry(entries[0]) + PrintEntries(entries[1..])
  }

  function PrintEntry(e: Entry): seq<Token> {
    Print(e.key) + [Equals] + Print(e.value) + [Newline]
  }

  // ------------------------------------------------------------------ reading

  datatype Parsed<T> = Failed | Parsed(value: T, rest: seq<Token>)

  function SkipNewlines(ts: seq<Token>): (rest: seq<Token>)
    ensures |rest| <= |ts|
  {
    if ts != [] && ts[0].Newline? then SkipNewlines(ts[1..]) else ts
  }

  /** After an opening bracket or brace the word `for` starts a `for` expression. */
  predicate StartsFor(lib: Library, ts: seq<Token>) {
    ts != [] && (ts[0] == Ident("for") || (ts[0].Leaf? && lib.startsFor(ts[0].text)))
  }

  predicate EndsLine(ts: seq<Token>) {
    ts == [] || ts[0].Newline?
  }

  /** An expression that ends in a heredoc needs the end of a line after it. */
  predicate CanFollow(lib: Library, text: string, ts: seq<Token>) {
    lib.standsAlone(text) || EndsLine(ts)
  }

  function ParseExpr(lib: Library, ts: seq<Token>): (r: Parsed<Ast>)
    ensures r.Parsed? ==> |r.rest| < |ts|
    decreases |ts|, 1
  {
    if ts == [] then Failed
    else
      match ts[0]
      case Leaf(t) => if CanFollow(lib, t, ts[1..]) then Parsed(Raw(t), ts[1..]) else Failed
      case Quoted(t) => Parsed(Str(t), ts[1..])
      case Ident(n) =>
        if |ts| > 1 && ts[1].LParen? then
          match ParseList(lib, ts[2..], RParen)
          case Failed => Failed
          case Parsed(args, rest) => Parsed(Call(n, args), rest)
        else Parsed(Name(n), ts[1..])
      case LBracket =>
        if StartsFor(lib, SkipNewlines(ts[1..])) then Failed
        else
          (match ParseList(lib, ts[1..], RBracket)
           case Failed => Failed
           case Parsed(items, rest) => Parsed(TupleOf(items), rest))
      case LBrace =>
        if StartsFor(lib, SkipNewlines(ts[1..])) then Failed
        else
          (match ParseEntries(lib, ts[1..])
           case Failed => Failed
           case Parsed(entries, rest) => Parsed(ObjectOf(entries), rest))
      case _ => Failed
  }

  /** Expressions separated by commas, up to `close`. */
  function ParseList(lib: Library, ts: seq<Token>, close: Token): (r: Parsed<seq<Ast>>)
    ensures r.Parsed? ==> |r.rest| < |ts|
    decreases |ts|, 2
  {
    if ts == [] then Failed
    else if ts[0] == close then Parsed([], ts[1..])
    else
      match ParseExpr(lib, ts)
      case Failed => Failed
      case Parsed(first, rest) =>
        if rest == [] then Failed
        else if rest[0] == close then Parsed([first], rest[1..])
        else if rest[0].Comma? then
          match ParseList(lib, rest[1..], close)
          case Failed => Failed
          case Parsed(others, after) => Parsed([first] + others, after)
        else Failed
  }

  /** Lines `key = value` up to the closing brace. */
  function ParseEntries(lib: Library, ts: seq<Token>): (r: Parsed<seq<Entry>>)
    ensures r.Parsed? ==> |r.rest| < |ts|
    decreases |ts|, 2
  {
    var start := SkipNewlines(ts);
    if start == [] then Failed
    else if start[0].RBrace? then Parsed([], start[1..])
    else
      match ParseExpr(lib, start)
      case Failed => Failed
      case Parsed(key, afterKey) =>
        if afterKey == [] || !afterKey[0].Equals? then Failed
        else
          match ParseExpr(lib, afterKey[1..])
          case Failed => Failed
          case Parsed(value, afterValue) =>
            if afterValue == [] then Failed
            else if afterValue[0].RBrace? then Parsed([Entry(key, value)], afterValue[1..])
            else if afterValue[0].Newline? || afterValue[0].Comma? then
              match ParseEntries(lib, afterValue[1..])
              case Failed => Failed
              case Parsed(others, after) => Parsed([Entry(key, value)] + others, after)
            else Failed
  }

  /** The expression that `ts` is, as a whole. */
  function ReadExpr(lib: Library, ts: seq<Token>): Option<Ast> {
    match ParseExpr(lib, ts)
    case Failed => None
    case Parsed(a, rest) => if rest == [] then Some(a) else None
  }

  // ------------------------------------------------------------------ reading undoes printing

  /** Text that stands alone can have anything written after it; trees other than text always can. */
  predicate Stands(lib: Library, a: Ast) {
    a.Raw? ==> lib.standsAlone(a.text)
  }

  predicate ReadableInside(lib: Library, a: Ast)
    decreases a, 1
  {
    Readable(lib, a) && Stands(lib, a)
  }

  /** No bracket or brace in the printed text is directly followed by the word `for`, and no heredoc by more text on its last line. */
  predicate Readable(lib: Library, a: Ast)
    decreases a, 0
  {
    match a
    case Name(_) => true
    case Raw(_) => true
    case Str(_) => true
    case Call(_, args) => forall i :: 0 <= i < |args| ==> ReadableInside(lib, args[i])
    case TupleOf(items) =>
      && (items != [] ==> !NamedFor(lib, items[0]))
      && forall i :: 0 <= i < |items| ==> ReadableInside(lib, items[i])
    case ObjectOf(entries) =>
      && (entries != [] ==> !NamedFor(lib, entries[0].key))
      && forall i :: 0 <= i < |entries| ==> ReadableInside(lib, entries[i].key) && Readable(lib, entries[i].value)
  }

  predicate NamedFor(lib: Library, a: Ast) {
    ((a.Name? || a.Call?) && a.name == "for") || (a.Raw? && lib.startsFor(a.text))
  }

  lemma {:induction false} FirstToken(lib: Library, a: Ast, rest: seq<Token>)
    ensures StartsFor(lib, Print(a) + rest) <==> NamedFor(lib, a)
    ensures (Print(a) + rest)[0] !in {RParen, RBracket, RBrace, Comma, Equals, Newline}
  {
  }

  /** What follows an expression cannot turn it into a call. */
  predicate Ends(rest: seq<Token>) {
    rest == [] || !rest[0].LParen?
  }

  /** Reading printed text gives the tree back if the tree is readable, and fails otherwise. */
  lemma {:induction false} ParsePrinted(lib: Library, a: Ast, rest: seq<Token>)
    requires Ends(rest)
    ensures ParseExpr(lib, Print(a) + rest) == if Readable(lib, a) && (Stands(lib, a) || EndsLine(rest)) then Parsed(a, rest) else Failed
    decreases a
  {
    match a
    case Call(_, args) =>
      ParsePrintedList(lib, a, args, RParen, rest);
      CallStep(lib, a, rest);
    case TupleOf(items) =>
      ParsePrintedList(lib, a, items, RBracket, rest);
      TupleStep(lib, a, rest);
    case ObjectOf(entries) =>
      forall i | 0 <= i < |entries| ensures entries[i].key < a && entries[i].value < a {
        assert entries[i] < a;
      }
      ParsePrintedEntries(lib, a, entries, rest);
      ObjectStep(lib, a, rest);
    case _ =>
      assert (Print(a) + rest)[1..] == rest;
  }

  lemma {:induction false} CallStep(lib: Library, a: Ast, rest: seq<Token>)
    requires a.Call?
    ensures ParseExpr(lib, Print(a) + rest) ==
      match ParseList(lib, PrintList(a.args) + ([RParen] + rest), RParen)
      case Failed => Failed
      case Parsed(args, after) => Parsed(Call(a.name, args), after)
  {
    hide ParseList, PrintList;
    var ts := Print(a) + rest;
    assert ts[0] == Ident(a.name) && ts[1] == LParen;
    assert ts[2..] == PrintList(a.args) + ([RParen] + rest);
  }

  lemma {:induction false} TupleStep(lib: Library, a: Ast, rest: seq<Token>)
    requires a.TupleOf?
    ensures ParseExpr(lib, Print(a) + rest) ==
      if a.items != [] && NamedFor(lib, a.items[0]) then Failed
      else match ParseList(lib, PrintList(a.items) + ([RBracket] + rest), RBracket)
           case Failed => Failed
           case Parsed(items, after) => Parsed(TupleOf(items), after)
  {
    hide ParseList, PrintList, SkipNewlines;
    var ts := Print(a) + rest;
    assert ts[0] == LBracket;
    assert ts[1..] == PrintList(a.items) + ([RBracket] + rest);
    ListStart(lib, a.items, RBracket, rest);
  }

  lemma {:induction false} ObjectStep(lib: Library, a: Ast, rest: seq<Token>)
    requires a.ObjectOf?
    ensures ParseExpr(lib, Print(a) + rest) ==
      if a.entries != [] && NamedFor(lib, a.entries[0].key) then Failed
      else match ParseEntries(lib, PrintEntries(a.entries) + ([RBrace] + rest))
           case Failed => Failed
           case Parsed(entries, after) => Parsed(ObjectOf(entries), after)
  {
    hide PrintEntries;
    var ts := Print(a) + rest;
    var inside := PrintEntries(a.entries) + ([RBrace] + rest);
    assert ts[0] == LBrace;
    if a.entries == [] {
      assert ts[1..] == inside;
    } else {
      assert ts[1..] == [Newline] + inside;
      assert ts[1..][1..] == inside;
    }
    EntriesStart(lib, a.entries, rest);
    SkipFirst(lib, ts[1..], inside);
  }

  /** A newline in front of the entries makes no difference. */
  lemma {:induction false} SkipFirst(lib: Library, ts: seq<Token>, inside: seq<Token>)
    requires SkipNewlines(inside) == inside
    requires ts == inside || ts == [Newline] + inside
    ensures SkipNewlines(ts) == inside && ParseEntries(lib, ts) == ParseEntries(lib, inside)
  {
    hide ParseExpr;
    if ts != inside {
      assert ts[1..] == inside;
    }
  }

  lemma {:induction false} ListStart(lib: Library, items: seq<Ast>, close: Token, rest: seq<Token>)
    requires close in {RParen, RBracket}
    ensures var inside := PrintList(items) + ([close] + rest);
            && SkipNewlines(inside) == inside
            && (StartsFor(lib, inside) <==> items != [] && NamedFor(lib, items[0]))
            && (items != [] ==> inside[0] != close)
  {
    if items != [] {
      var after := if |items| == 1 then [close] + rest else [Comma] + PrintList(items[1..]) + ([close] + rest);
      assert PrintList(items) + ([close] + rest) == Print(items[0]) + after;
      FirstToken(lib, items[0], after);
    }
  }

  lemma {:induction false} EntriesStart(lib: Library, entries: seq<Entry>, rest: seq<Token>)
    ensures var inside := PrintEntries(entries) + ([RBrace] + rest);
            && SkipNewlines(inside) == inside
            && (StartsFor(lib, inside) <==> entries != [] && NamedFor(lib, entries[0].key))
            && (entries != [] ==> !inside[0].RBrace?)
  {
    if entries != [] {
      var after := [Equals] + Print(entries[0].value) + [Newline] + PrintEntries(entries[1..]) + ([RBrace] + rest);
      assert PrintEntry(entries[0]) == Print(entries[0].key) + ([Equals] + Print(entries[0].value) + [Newline]);
      assert PrintEntries(entries) + ([RBrace] + rest) == Print(entries[0].key) + after;
      FirstToken(lib, entries[0].key, after);
    }
  }

  lemma {:induction false} ParsePrintedList(lib: Library, within: Ast, items: seq<Ast>, close: Token, rest: seq<Token>)
    requires forall i :: 0 <= i < |items| ==> items[i] < within
    requires close in {RParen, RBracket}
    ensures ParseList(lib, PrintList(items) + ([close] + rest), close)
         == if ReadableItems(lib, items) then Parsed(items, rest) else Failed
    decreases within, 0, |items|
  {
    hide Readable, Print, ParseExpr;
    assert ([close] + rest)[1..] == rest;
    if items == [] {
      assert PrintList(items) + ([close] + rest) == [close] + rest;
    } else {
      var end := [close] + rest;
      if |items| == 1 {
        ParsePrinted(lib, items[0], end);
        LastItemStep(lib, items, close, rest);
      } else {
        var others := PrintList(items[1..]) + end;
        ParsePrinted(lib, items[0], [Comma] + others);
        ParsePrintedList(lib, within, items[1..], close, rest);
        ItemStep(lib, items, close, rest);
        SplitReadableItems(lib, items);
      }
    }
  }

  lemma {:induction false} LastItemStep(lib: Library, items: seq<Ast>, close: Token, rest: seq<Token>)
    requires |items| == 1 && close in {RParen, RBracket}
    requires ParseExpr(lib, Print(items[0]) + ([close] + rest)) == if ReadableInside(lib, items[0]) then Parsed(items[0], [close] + rest) else Failed
    ensures ParseList(lib, PrintList(items) + ([close] + rest), close) == if ReadableInside(lib, items[0]) then Parsed(items, rest) else Failed
  {
    hide ReadableInside, ParseExpr, Print, SkipNewlines, NamedFor, StartsFor;
    ListStart(lib, items, close, rest);
    assert ([close] + rest)[1..] == rest;
    assert items == [items[0]];
  }

  lemma {:induction false} ItemStep(lib: Library, items: seq<Ast>, close: Token, rest: seq<Token>)
    requires |items| > 1 && close in {RParen, RBracket}
    requires var others := PrintList(items[1..]) + ([close] + rest);
             && ParseExpr(lib, Print(items[0]) + ([Comma] + others)) == (if ReadableInside(lib, items[0]) then Parsed(items[0], [Comma] + others) else Failed)
             && ParseList(lib, others, close) == (if ReadableItems(lib, items[1..]) then Parsed(items[1..], rest) else Failed)
    ensures ParseList(lib, PrintList(items) + ([close] + rest), close)
         == if ReadableInside(lib, items[0]) && ReadableItems(lib, items[1..]) then Parsed(items, rest) else Failed
  {
    hide ReadableInside, ReadableItems, ParseExpr, Print, SkipNewlines, NamedFor, StartsFor;
    ListStart(lib, items, close, rest);
    var others := PrintList(items[1..]) + ([close] + rest);
    assert ([Comma] + others)[1..] == others;
    assert PrintList(items) + ([close] + rest) == Print(items[0]) + ([Comma] + others);
    assert items == [items[0]] + items[1..];
  }

  ghost predicate ReadableItems(lib: Library, items: seq<Ast>) {
    forall i :: 0 <= i < |items| ==> ReadableInside(lib, items[i])
  }

  lemma {:induction false} SplitReadableItems(lib: Library, items: seq<Ast>)
    requires items != []
    ensures ReadableItems(lib, items) <==> ReadableInside(lib, items[0]) && ReadableItems(lib, items[1..])
  {
    hide ReadableInside;
    assert items == [items[0]] + items[1..];
  }

  ghost predicate ReadableEntries(lib: Library, entries: seq<Entry>) {
    forall i :: 0 <= i < |entries| ==> ReadableInside(lib, entries[i].key) && Readable(lib, entries[i].value)
  }

  lemma {:induction false} ParsePrintedEntries(lib: Library, within: Ast, entries: seq<Entry>, rest: seq<Token>)
    requires forall i :: 0 <= i < |entries| ==> entries[i].key < within && entries[i].value < within
    ensures ParseEntries(lib, PrintEntries(entries) + ([RBrace] + rest))
         == if ReadableEntries(lib, entries) then Parsed(entries, rest) else Failed
    decreases within, 0, |entries|
  {
    hide Readable, Print, ParseExpr;
    var end := [RBrace] + rest;
    assert end[1..] == rest;
    if entries == [] {
      assert PrintEntries(entries) + end == end;
    } else {
      var others := PrintEntries(entries[1..]) + end;
      var afterValue := [Newline] + others;
      var afterKey := [Equals] + (Print(entries[0].value) + afterValue);
      ParsePrinted(lib, entries[0].key, afterKey);
      ParsePrinted(lib, entries[0].value, afterValue);
      ParsePrintedEntries(lib, within, entries[1..], rest);
      EntryStep(lib, entries, rest);
      SplitReadable(lib, entries);
    }
  }

  lemma {:induction false} EntryStep(lib: Library, entries: seq<Entry>, rest: seq<Token>)
    requires entries != []
    requires var others := PrintEntries(entries[1..]) + ([RBrace] + rest);
             var afterValue := [Newline] + others;
             var afterKey := [Equals] + (Print(entries[0].value) + afterValue);
             && ParseExpr(lib, Print(entries[0].key) + afterKey) == (if ReadableInside(lib, entries[0].key) then Parsed(entries[0].key, afterKey) else Failed)
             && ParseExpr(lib, Print(entries[0].value) + afterValue) == (if Readable(lib, entries[0].value) then Parsed(entries[0].value, afterValue) else Failed)
             && ParseEntries(lib, others) == (if ReadableEntries(lib, entries[1..]) then Parsed(entries[1..], rest) else Failed)
    ensures ParseEntries(lib, PrintEntries(entries) + ([RBrace] + rest))
         == if ReadableInside(lib, entries[0].key) && Readable(lib, entries[0].value) && ReadableEntries(lib, entries[1..]) then Parsed(entries, rest) else Failed
  {
    hide ReadableInside, Readable, ReadableEntries, ParseExpr, Print, SkipNewlines, NamedFor, StartsFor;
    var end := [RBrace] + rest;
    var others := PrintEntries(entries[1..]) + end;
    var afterValue := [Newline] + others;
    var valueOn := Print(entries[0].value) + afterValue;
    var afterKey := [Equals] + valueOn;
    assert afterValue[1..] == others && afterKey[1..] == valueOn;
    EntriesStart(lib, entries, rest);
    assert PrintEntries(entries) + end == Print(entries[0].key) + afterKey by {
      assert PrintEntry(entries[0]) == Print(entries[0].key) + ([Equals] + Print(entries[0].value) + [Newline]);
    }
    assert [Entry(entries[0].key, entries[0].value)] + entries[1..] == entries;
    if ReadableInside(lib, entries[0].key) && Readable(lib, entries[0].value) {
      assert ParseEntries(lib, PrintEntries(entries) + end) == if ReadableEntries(lib, entries[1..]) then Parsed(entries, rest) else Failed;
    }
  }

  lemma {:induction false} SplitReadable(lib: Library, entries: seq<Entry>)
    requires entries != []
    ensures ReadableEntries(lib, entries)
       <==> ReadableInside(lib, entries[0].key) && Readable(lib, entries[0].value) && ReadableEntries(lib, entries[1..])
  {
    hide ReadableInside, Readable;
    assert entries == [entries[0]] + entries[1..];
  }

  /** The printed text of a tree reads as that tree exactly when the tree is readable. */
  lemma {:induction false} ReadPrinted(lib: Library, a: Ast)
    ensures ReadExpr(lib, Print(a)) == if Readable(lib, a) then Some(a) else None
  {
    assert Print(a) + [] == Print(a);
    ParsePrinted(lib, a, []);
  }
}
