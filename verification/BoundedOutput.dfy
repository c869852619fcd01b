/**
  The bounded line writer that collects the output of a command and reports it line by line.

  Bytes are decoded the way Go ranges over a string: a valid UTF-8 sequence is one character, any
  other byte is replaced. Each decoded character is represented by the bytes that are appended to
  the current line for it.
 */
module BoundedOutput {

  type Byte = b: int | 0 <= b < 256
  type Bytes = seq<Byte>

  const NEWLINE: Bytes := [10]
  const CARRIAGE_RETURN: Byte := 13
  const REPLACEMENT: Bytes := [0xEF, 0xBF, 0xBD]

  /** "[output line truncated]" */
  const MARKER: Bytes := [
    91, 111, 117, 116, 112, 117, 116, 32, 108, 105, 110, 101, 32,
    116, 114, 117, 110, 99, 97, 116, 101, 100, 93
  ]

  // ------------------------------------------------------------------ decoding

  predicate Continues(b: Byte) {
    0x80 <= b <= 0xBF
  }

  /** Whether `b` may follow the lead byte of a sequence of three or four bytes. */
  predicate SecondByte(lead: Byte, b: Byte) {
    && Continues(b)
    && (lead == 0xE0 ==> 0xA0 <= b)
    && (lead == 0xED ==> b <= 0x9F)
    && (lead == 0xF0 ==> 0x90 <= b)
    && (lead == 0xF4 ==> b <= 0x8F)
  }

  /** The length of the valid character at the front of `s`, or 0 when there is none. */
  function CharWidth(s: Bytes): (w: nat)
    requires s != []
    ensures w <= |s| && w <= 4
  {
    var lead := s[0];
    if lead < 0x80 then 1
    else if 0xC2 <= lead <= 0xDF then
      if |s| >= 2 && Continues(s[1]) then 2 else 0
    else if 0xE0 <= lead <= 0xEF then
      if |s| >= 3 && SecondByte(lead, s[1]) && Continues(s[2]) then 3 else 0
    else if 0xF0 <= lead <= 0xF4 then
      if |s| >= 4 && SecondByte(lead, s[1]) && Continues(s[2]) && Continues(s[3]) then 4 else 0
    else 0
  }

  function Characters(s: Bytes): seq<Bytes> {
    if s == [] then []
    else
      var w := CharWidth(s);
      if w == 0 then [REPLACEMENT] + Characters(s[1..]) else [s[..w]] + Characters(s[w..])
  }

  /** `s` consists of whole valid characters. */
  predicate WholeCharacters(s: Bytes) {
    s == [] || (CharWidth(s) > 0 && WholeCharacters(s[CharWidth(s)..]))
  }

  predicate Ascii(s: Bytes) {
    forall i :: 0 <= i < |s| ==> s[i] < 0x80
  }

  lemma {:induction false} AsciiIsWhole(s: Bytes)
    requires Ascii(s)
    ensures WholeCharacters(s)
    decreases |s|
  {
    if s != [] { AsciiIsWhole(s[1..]); }
  }

  // ------------------------------------------------------------------ characters are encoded code points

  predicate IsScalar(c: int) {
    0 <= c < 0xD800 || 0xE000 <= c <= 0x10FFFF
  }

  /** The UTF-8 encoding of a code point that is no surrogate, section 3 of RFC 3629. */
  function Encode(c: int): Bytes
    requires IsScalar(c)
  {
    if c < 0x80 then [c]
    else if c < 0x800 then [0xC0 + c / 0x40, 0x80 + c % 0x40]
    else if c < 0x1_0000 then [0xE0 + c / 0x1000, 0x80 + c / 0x40 % 0x40, 0x80 + c % 0x40]
    else [0xF0 + c / 0x4_0000, 0x80 + c / 0x1000 % 0x40, 0x80 + c / 0x40 % 0x40, 0x80 + c % 0x40]
  }

  /** The encoding of a code point is recognised as one character, whatever follows it. */
  lemma {:induction false} EncodedIsCharacter(c: int, rest: Bytes)
    requires IsScalar(c)
    ensures CharWidth(Encode(c) + rest) == |Encode(c)|
  {
    var s := Encode(c) + rest;
    assert forall i :: 0 <= i < |Encode(c)| ==> s[i] == Encode(c)[i];
  }

  /** The code point of up to four bytes. */
  function Decoded(s: Bytes): int
    requires 1 <= |s| <= 4
  {
    if |s| == 1 then s[0]
    else if |s| == 2 then (s[0] as int - 0xC0) * 0x40 + (s[1] as int - 0x80)
    else if |s| == 3 then (s[0] as int - 0xE0) * 0x1000 + (s[1] as int - 0x80) * 0x40 + (s[2] as int - 0x80)
    else (s[0] as int - 0xF0) * 0x4_0000 + (s[1] as int - 0x80) * 0x1000 + (s[2] as int - 0x80) * 0x40 + (s[3] as int - 0x80)
  }

  /** And what is recognised as a character is the encoding of a code point. */
  lemma {:induction false} CharacterIsEncoded(s: Bytes)
    requires s != [] && CharWidth(s) > 0
    ensures var ch := s[..CharWidth(s)]; IsScalar(Decoded(ch)) && Encode(Decoded(ch)) == ch
  {
    var ch := s[..CharWidth(s)];
    hide Encode, Decoded, IsScalar;
    if |ch| == 1 {
      OneByte(ch[0]);
      assert ch == [ch[0]];
    } else if |ch| == 2 {
      TwoBytes(ch[0], ch[1]);
      assert ch == [ch[0], ch[1]];
    } else if |ch| == 3 {
      ThreeBytes(ch[0], ch[1], ch[2]);
      assert ch == [ch[0], ch[1], ch[2]];
    } else {
      FourBytes(ch[0], ch[1], ch[2], ch[3]);
      assert ch == [ch[0], ch[1], ch[2], ch[3]];
    }
  }

  ghost predicate IsEncoded(ch: Bytes)
    requires 1 <= |ch| <= 4
  {
    IsScalar(Decoded(ch)) && Encode(Decoded(ch)) == ch
  }

  lemma {:induction false} OneByte(a: Byte)
    requires a < 0x80
    ensures IsEncoded([a])
  {
  }

  lemma {:induction false} TwoBytes(a: Byte, b: Byte)
    requires 0xC2 <= a <= 0xDF && Continues(b)
    ensures IsEncoded([a, b])
  {
    Digits64(a as int - 0xC0, b as int - 0x80);
  }

  lemma {:induction false} ThreeBytes(a: Byte, b: Byte, c: Byte)
    requires 0xE0 <= a <= 0xEF && SecondByte(a, b) && Continues(c)
    ensures IsEncoded([a, b, c])
  {
    var high, low := a as int - 0xE0, b as int - 0x80;
    Digits64(high, low);
    Digits64(high * 0x40 + low, c as int - 0x80);
  }

  lemma {:induction false} FourBytes(a: Byte, b: Byte, c: Byte, d: Byte)
    requires 0xF0 <= a <= 0xF4 && SecondByte(a, b) && Continues(c) && Continues(d)
    ensures IsEncoded([a, b, c, d])
  {
    var high, middle, low := a as int - 0xF0, b as int - 0x80, c as int - 0x80;
    Digits64(high, middle);
    Digits64(high * 0x40 + middle, low);
    Digits64((high * 0x40 + middle) * 0x40 + low, d as int - 0x80);
  }

  lemma {:induction false} Digits64(high: int, low: int)
    requires high >= 0 && 0 <= low < 0x40
    ensures (high * 0x40 + low) / 0x40 == high && (high * 0x40 + low) % 0x40 == low
  {
  }

  // ------------------------------------------------------------------ where output may be cut

  /** How many bytes the character at the front of `s` takes; a byte that starts none is one by itself. */
  function Step(s: Bytes): (w: nat)
    requires s != []
    ensures 1 <= w <= |s|
  {
    if CharWidth(s) == 0 then 1 else CharWidth(s)
  }

  /** Decoding `s` from the front reaches position `k` between two characters. */
  predicate Boundary(s: Bytes, k: nat)
    decreases k
  {
    k == 0 || (s != [] && Step(s) <= k && Boundary(s[Step(s)..], k - Step(s)))
  }

  /** A prefix starts with the same character if it holds all of it, and with none otherwise. */
  lemma {:induction false} PrefixWidth(p: Bytes, rest: Bytes)
    requires p != []
    ensures CharWidth(p) == if CharWidth(p + rest) <= |p| then CharWidth(p + rest) else 0
  {
  }

  /** The first step into `a + b`, when it stays within `a`. */
  lemma {:induction false} StepWithin(a: Bytes, b: Bytes)
    requires a != [] && Step(a + b) <= |a|
    ensures Step(a) == Step(a + b) && First(a) == First(a + b)
    ensures (a + b)[Step(a)..] == a[Step(a)..] + b
  {
    hide CharWidth;
    PrefixWidth(a, b);
    assert (a + b)[..Step(a)] == a[..Step(a)];
  }

  lemma {:induction false} BoundaryStep(s: Bytes, k: nat)
    requires k > 0 && s != []
    ensures Boundary(s, k) <==> Step(s) <= k && Boundary(s[Step(s)..], k - Step(s))
  {
    hide CharWidth;
  }

  /** What the character at the front of `s` is decoded to. */
  function First(s: Bytes): Bytes
    requires s != []
  {
    if CharWidth(s) == 0 then REPLACEMENT else s[..CharWidth(s)]
  }

  lemma {:induction false} CharactersStep(s: Bytes)
    requires s != []
    ensures Characters(s) == [First(s)] + Characters(s[Step(s)..])
  {
    hide CharWidth;
  }

  /** At a boundary decoding distributes over the two parts. */
  lemma {:induction false} DecodeAtBoundary(a: Bytes, b: Bytes)
    requires Boundary(a + b, |a|)
    ensures Characters(a + b) == Characters(a) + Characters(b)
    decreases |a|
  {
    hide Boundary, Characters, Step, First;
    if a == [] {
      assert a + b == b;
      NoCharacters();
    } else {
      BoundaryStep(a + b, |a|);
      StepWithin(a, b);
      var rest := a[Step(a)..];
      DecodeAtBoundary(rest, b);
      CharactersStep(a);
      CharactersStep(a + b);
      assert [First(a)] + (Characters(rest) + Characters(b)) == ([First(a)] + Characters(rest)) + Characters(b);
    }
  }

  lemma {:induction false} NoCharacters()
    ensures Characters([]) == []
  {
  }

  /** The number of bytes that no line loses: lines are cut at newlines, and a return at the end of a line is trimmed. */
  function Visible(s: Bytes): nat
    decreases |s|
  {
    if s == [] then 0
    else Visible(s[..|s| - 1]) + if s[|s| - 1] == CARRIAGE_RETURN || [s[|s| - 1]] == NEWLINE then 0 else 1
  }

  function AllVisible(cs: seq<Bytes>): nat
    decreases |cs|
  {
    if cs == [] then 0 else Visible(cs[0]) + AllVisible(cs[1..])
  }

  lemma {:induction false} VisibleAtMost(s: Bytes)
    ensures Visible(s) <= |s|
    decreases |s|
  {
    if s != [] { VisibleAtMost(s[..|s| - 1]); }
  }

  lemma {:induction false} VisibleAppend(a: Bytes, b: Bytes)
    ensures Visible(a + b) == Visible(a) + Visible(b)
    decreases |b|
  {
    if b == [] {
      assert a + b == a;
    } else {
      assert (a + b)[..|a + b| - 1] == a + b[..|b| - 1];
      VisibleAppend(a, b[..|b| - 1]);
    }
  }

  lemma {:induction false} AllVisibleAppend(a: seq<Bytes>, b: seq<Bytes>)
    ensures AllVisible(a + b) == AllVisible(a) + AllVisible(b)
    decreases |a|
  {
    if a == [] {
      assert a + b == b;
    } else {
      assert (a + b)[1..] == a[1..] + b;
      AllVisibleAppend(a[1..], b);
    }
  }

  lemma {:induction false} ReplacementIsVisible()
    ensures Visible(REPLACEMENT) == 3
  {
    assert REPLACEMENT[..2] == [0xEF, 0xBF] && REPLACEMENT[..2][..1] == [0xEF];
    assert Visible(REPLACEMENT[..2][..1]) == 1;
    assert Visible(REPLACEMENT[..2]) == 2;
  }

  /** Continuation bytes that start no character are replaced one by one. */
  lemma {:induction false} LooseContinuations(s: Bytes, n: nat)
    requires n <= |s| && forall i :: 0 <= i < n ==> Continues(s[i])
    ensures |Characters(s)| == n + |Characters(s[n..])|
    ensures AllVisible(Characters(s)) == 3 * n + AllVisible(Characters(s[n..]))
    decreases n
  {
    hide Visible;
    if n > 0 {
      LooseContinuations(s[1..], n - 1);
      assert s[1..][n - 1..] == s[n..];
      ReplacementIsVisible();
    } else {
      assert s[n..] == s;
    }
  }

  lemma {:induction false} Continuations(s: Bytes)
    requires s != []
    ensures forall i :: 1 <= i < CharWidth(s) ==> Continues(s[i])
  {
  }

  /** Elsewhere it does not: the character that is cut is replaced byte by byte, on both sides. */
  lemma {:induction false} DecodeAcrossCut(a: Bytes, b: Bytes)
    requires !Boundary(a + b, |a|)
    ensures |Characters(a)| + |Characters(b)| > |Characters(a + b)|
    ensures AllVisible(Characters(a)) + AllVisible(Characters(b)) > AllVisible(Characters(a + b))
    decreases |a|
  {
    hide CharWidth, Characters, Visible;
    var s := a + b;
    PrefixWidth(a, b);
    CharactersStep(a);
    CharactersStep(s);
    var w := Step(s);
    if w <= |a| {
      assert s[w..] == a[w..] + b;
      StepWithin(a, b);
      DecodeAcrossCut(a[w..], b);
    } else {
      CutCharacter(a, b);
    }
  }

  lemma {:induction false} CutCharacter(a: Bytes, b: Bytes)
    requires a != [] && Step(a + b) > |a|
    ensures |Characters(a)| + |Characters(b)| > |Characters(a + b)|
    ensures AllVisible(Characters(a)) + AllVisible(Characters(b)) > AllVisible(Characters(a + b))
  {
    hide CharWidth, Characters, Visible;
    var s := a + b;
    var w := Step(s);
    PrefixWidth(a, b);
    CharactersStep(a);
    CharactersStep(s);
    Continuations(s);
    assert forall i :: 0 <= i < |a| - 1 ==> a[1..][i] == s[i + 1];
    LooseContinuations(a[1..], |a| - 1);
    assert a[1..][|a| - 1..] == [];
    NoCharacters();
    assert forall i :: 0 <= i < w - |a| ==> b[i] == s[|a| + i];
    LooseContinuations(b, w - |a|);
    assert s[w..] == b[w - |a|..];
    ReplacementIsVisible();
    VisibleAtMost(s[..w]);
  }

  /** Output may be cut in two without a trace exactly where no character is cut. */
  lemma {:induction false} DecodeDistributesIff(a: Bytes, b: Bytes)
    ensures Characters(a + b) == Characters(a) + Characters(b) <==> Boundary(a + b, |a|)
  {
    hide Characters, Boundary;
    if Boundary(a + b, |a|) {
      DecodeAtBoundary(a, b);
    } else {
      DecodeAcrossCut(a, b);
    }
  }

  /** A boundary stays one when what follows is shortened. */
  lemma {:induction false} BoundaryOfShorter(a: Bytes, b: Bytes, rest: Bytes)
    requires Boundary(a + (b + rest), |a|)
    ensures Boundary(a + b, |a|)
    decreases |a|
  {
    if a != [] {
      hide Boundary, Step, First;
      BoundaryStep(a + (b + rest), |a|);
      StepWithin(a, b + rest);
      StepOfShorter(a, b, rest);
      StepWithin(a, b);
      BoundaryOfShorter(a[Step(a)..], b, rest);
      BoundaryStep(a + b, |a|);
    }
  }

  lemma {:induction false} StepOfShorter(a: Bytes, b: Bytes, rest: Bytes)
    requires a != [] && Step(a + (b + rest)) <= |a|
    ensures Step(a + b) <= |a|
  {
    hide CharWidth;
    assert (a + b) + rest == a + (b + rest);
    PrefixWidth(a + b, rest);
  }

  lemma {:induction false} WholeIsBoundary(a: Bytes, b: Bytes)
    requires WholeCharacters(a)
    ensures Boundary(a + b, |a|)
    decreases |a|
  {
    if a != [] {
      var w := CharWidth(a);
      assert CharWidth(a + b) == w;
      assert (a + b)[w..] == a[w..] + b;
      WholeIsBoundary(a[w..], b);
    }
  }

  // ------------------------------------------------------------------ what is reported

  /** The line being assembled and the lines the progress callback has received. */
  datatype Progress = Progress(line: Bytes, truncated: bool, lines: seq<Bytes>)

  const START := Progress([], false, [])

  function TrimReturn(line: Bytes): Bytes {
    if line != [] && line[|line| - 1] == CARRIAGE_RETURN then line[..|line| - 1] else line
  }

  function Flush(p: Progress): Progress {
    if p.line == [] then p else Progress([], false, p.lines + [TrimReturn(p.line)])
  }

  function Put(p: Progress, lineLimit: int, c: Bytes): Progress {
    if c == NEWLINE then Flush(p)
    else if p.truncated then p
    else if |p.line| >= lineLimit then p.(line := p.line + MARKER, truncated := true)
    else p.(line := p.line + c)
  }

  function PutAll(p: Progress, lineLimit: int, cs: seq<Bytes>): Progress
    decreases |cs|
  {
    if cs == [] then p else PutAll(Put(p, lineLimit, cs[0]), lineLimit, cs[1..])
  }

  lemma {:induction false} PutAllAppend(p: Progress, lineLimit: int, a: seq<Bytes>, b: seq<Bytes>)
    ensures PutAll(p, lineLimit, a + b) == PutAll(PutAll(p, lineLimit, a), lineLimit, b)
    decreases |a|
  {
    if a == [] {
      assert a + b == b;
    } else {
      assert (a + b)[1..] == a[1..] + b;
      PutAllAppend(Put(p, lineLimit, a[0]), lineLimit, a[1..], b);
    }
  }

  // ------------------------------------------------------------------ the writer as a function

  /** A line limit of zero stands for the overall limit. */
  datatype Config = Config(limit: int, lineLimit: int, reports: bool) {
    function LineLimit(): int {
      if lineLimit == 0 then limit else lineLimit
    }
  }

  datatype State = State(buffer: Bytes, progress: Progress)

  const EMPTY := State([], START)

  function Take(s: Bytes, n: int): Bytes {
    if n <= 0 then [] else if |s| <= n then s else s[..n]
  }

  function Written(c: Config, s: State, value: Bytes): State {
    var kept := Take(value, c.limit - |s.buffer|);
    State(s.buffer + kept, Fed(c, s.progress, kept))
  }

  /** The progress after the kept bytes have been decoded and put into lines. */
  function Fed(c: Config, p: Progress, kept: Bytes): Progress {
    if c.reports then PutAll(p, c.LineLimit(), Characters(kept)) else p
  }

  function WrittenAll(c: Config, s: State, chunks: seq<Bytes>): State
    decreases |chunks|
  {
    if chunks == [] then s else WrittenAll(c, Written(c, s, chunks[0]), chunks[1..])
  }

  /** The state after the last write, with a line in progress reported. */
  function Finished(c: Config, s: State): State {
    if c.reports then s.(progress := Flush(s.progress)) else s
  }

  function Concat(chunks: seq<Bytes>): Bytes
    decreases |chunks|
  {
    if chunks == [] then [] else chunks[0] + Concat(chunks[1..])
  }

  // ------------------------------------------------------------------ the writer as an object

  class BoundedCommandOutput {
    const limit: int
    const reports: bool
    const config: Config
    var buffer: Bytes
    var line: Bytes
    var lineLimit: int
    var lineTruncated: bool
    var progressBytes: int
    /** The lines passed to the progress callback so far. */
    var lines: seq<Bytes>

    ghost predicate Valid()
      reads this
    {
      && limit == config.limit && reports == config.reports
      && (lineLimit == config.lineLimit || (config.lineLimit == 0 && lineLimit == config.limit))
      && |buffer| <= (if limit > 0 then limit else 0)
      && progressBytes == (if reports then |buffer| else 0)
    }

    ghost function Abstract(): State
      reads this
    {
      State(buffer, Progress(line, lineTruncated, lines))
    }

    constructor (limit: int, lineLimit: int, reports: bool)
      ensures Valid() && Abstract() == EMPTY && config == Config(limit, lineLimit, reports)
    {
      this.limit, this.lineLimit, this.reports := limit, lineLimit, reports;
      config := Config(limit, lineLimit, reports);
      buffer, line, lines := [], [], [];
      lineTruncated, progressBytes := false, 0;
    }

    method Write(value: Bytes) returns (n: int)
      requires Valid()
      modifies this
      ensures Valid() && n == |value|
      ensures Abstract() == Written(config, old(Abstract()), value)
    {
      n := |value|;
      var kept := value;
      var remaining := limit - |buffer|;
      if remaining > 0 {
        if |kept| > remaining {
          kept := kept[..remaining];
        }
        buffer := buffer + kept;
      }
      WriteProgress(kept);
    }

    method WriteProgress(value: Bytes)
      requires limit == config.limit && reports == config.reports
      requires lineLimit == config.lineLimit || (config.lineLimit == 0 && lineLimit == config.limit)
      modifies `line, `lineLimit, `lineTruncated, `progressBytes, `lines
      ensures lineLimit == config.lineLimit || (config.lineLimit == 0 && lineLimit == config.limit)
      ensures var taken := if reports then Take(value, limit - old(progressBytes)) else [];
              && progressBytes == old(progressBytes) + |taken|
              && Abstract() == old(Abstract()).(progress := PutAll(old(Abstract()).progress, config.LineLimit(), Characters(taken)))
    {
      if !reports {
        return;
      }
      var remaining := limit - progressBytes;
      if remaining <= 0 {
        return;
      }
      var taken := value;
      if |taken| > remaining {
        taken := taken[..remaining];
      }
      progressBytes := progressBytes + |taken|;
      if lineLimit == 0 {
        lineLimit := limit;
      }
      var characters := Characters(taken);
      ghost var first := Abstract().progress;
      assert characters[0..] == characters;
      for i := 0 to |characters|
        invariant lineLimit == config.LineLimit() && buffer == old(buffer)
        invariant progressBytes == old(progressBytes) + |taken|
        invariant PutAll(Abstract().progress, lineLimit, characters[i..]) == PutAll(first, lineLimit, characters)
      {
        assert characters[i..][1..] == characters[i + 1..];
        if characters[i] == NEWLINE {
          FlushProgress();
        } else if lineTruncated {
        } else if |line| >= lineLimit {
          lineTruncated := true;
          line := line + MARKER;
        } else {
          line := line + characters[i];
        }
      }
    }

    method FlushProgress()
      modifies `line, `lineTruncated, `lines
      ensures Abstract() == old(Abstract()).(progress := if reports then Flush(old(Abstract()).progress) else old(Abstract()).progress)
    {
      if !reports || |line| == 0 {
        return;
      }
      lines := lines + [TrimReturn(line)];
      line := [];
      lineTruncated := false;
    }

    method Finish()
      requires Valid()
      modifies this
      ensures Valid() && Abstract() == Finished(config, old(Abstract()))
    {
      FlushProgress();
    }
  }

  /** Writes `chunks` one after another and finishes, as a command run does. */
  method RunCommand(c: Config, chunks: seq<Bytes>) returns (buffer: Bytes, lines: seq<Bytes>)
    ensures var s := Finished(c, WrittenAll(c, EMPTY, chunks));
            buffer == s.buffer && lines == s.progress.lines
  {
    var w := new BoundedCommandOutput(c.limit, c.lineLimit, c.reports);
    assert chunks[0..] == chunks;
    for i := 0 to |chunks|
      invariant fresh(w) && w.Valid() && w.config == c
      invariant WrittenAll(c, w.Abstract(), chunks[i..]) == WrittenAll(c, EMPTY, chunks)
    {
      assert chunks[i..][1..] == chunks[i + 1..];
      var _ := w.Write(chunks[i]);
    }
    w.Finish();
    buffer, lines := w.buffer, w.lines;
  }

  // ------------------------------------------------------------------ chunking does not matter

  /** Two writes leave what one write of the concatenation leaves, unless a character is split between them. */
  lemma {:induction false} WriteTwice(c: Config, s: State, a: Bytes, b: Bytes)
    requires Boundary(a + b, |a|)
    ensures Written(c, Written(c, s, a), b) == Written(c, s, a + b)
  {
    hide Boundary;
    var room := c.limit - |s.buffer|;
    if |a| < room {
      WriteFits(c, s, a, b);
    } else {
      assert Take(a + b, room) == Take(a, room);
      assert Written(c, s, a + b) == Written(c, s, a);
      FullBufferIgnores(c, Written(c, s, a), b);
    }
  }

  lemma {:induction false} WriteFits(c: Config, s: State, a: Bytes, b: Bytes)
    requires Boundary(a + b, |a|) && |a| < c.limit - |s.buffer|
    ensures Written(c, Written(c, s, a), b) == Written(c, s, a + b)
  {
    hide Boundary, Fed;
    var kept := Take(b, c.limit - |s.buffer| - |a|);
    assert b == kept + b[|kept|..];
    BoundaryOfShorter(a, kept, b[|kept|..]);
    WriteInRoom(c, s, a, b);
    FedTwice(c, s.progress, a, kept);
  }

  /** What two writes amount to when the first one fits. */
  lemma {:induction false} WriteInRoom(c: Config, s: State, a: Bytes, b: Bytes)
    requires |a| < c.limit - |s.buffer|
    ensures var kept := Take(b, c.limit - |s.buffer| - |a|);
            && Written(c, s, a + b) == State(s.buffer + (a + kept), Fed(c, s.progress, a + kept))
            && Written(c, Written(c, s, a), b) == State(s.buffer + (a + kept), Fed(c, Fed(c, s.progress, a), kept))
  {
    var room := c.limit - |s.buffer|;
    var kept := Take(b, room - |a|);
    TakeFits(a, b, room);
    assert Written(c, s, a).buffer == s.buffer + a;
    assert (s.buffer + a) + kept == s.buffer + (a + kept);
  }

  lemma {:induction false} TakeFits(a: Bytes, b: Bytes, room: int)
    requires |a| < room
    ensures Take(a, room) == a && Take(a + b, room) == a + Take(b, room - |a|)
  {
  }

  lemma {:induction false} FedTwice(c: Config, p: Progress, a: Bytes, b: Bytes)
    requires Boundary(a + b, |a|)
    ensures Fed(c, Fed(c, p, a), b) == Fed(c, p, a + b)
  {
    DecodeAtBoundary(a, b);
    PutAllAppend(p, c.LineLimit(), Characters(a), Characters(b));
  }

  lemma {:induction false} FullBufferIgnores(c: Config, s: State, value: Bytes)
    requires |s.buffer| >= c.limit
    ensures Written(c, s, value) == s
  {
    assert Take(value, c.limit - |s.buffer|) == [];
    assert s.buffer + [] == s.buffer;
    assert Characters([]) == [];
  }

  /** No write ends inside a character of the output that is still to come. */
  predicate CutsAtBoundaries(chunks: seq<Bytes>) {
    chunks == [] || (Boundary(Concat(chunks), |chunks[0]|) && CutsAtBoundaries(chunks[1..]))
  }

  /** Chunks of whole characters, ASCII output among them, are cut at boundaries. */
  lemma {:induction false} WholeChunks(chunks: seq<Bytes>)
    requires forall i :: 0 <= i < |chunks| ==> WholeCharacters(chunks[i])
    ensures CutsAtBoundaries(chunks)
    decreases |chunks|
  {
    if chunks != [] {
      WholeIsBoundary(chunks[0], Concat(chunks[1..]));
      assert forall i :: 0 <= i < |chunks[1..]| ==> chunks[1..][i] == chunks[i + 1];
      WholeChunks(chunks[1..]);
    }
  }

  lemma {:induction false} WriteAllAtOnce(c: Config, s: State, chunks: seq<Bytes>)
    requires CutsAtBoundaries(chunks)
    ensures WrittenAll(c, s, chunks) == Written(c, s, Concat(chunks))
    decreases |chunks|
  {
    hide Boundary;
    if chunks == [] {
      assert s.buffer + [] == s.buffer;
    } else {
      WriteAllAtOnce(c, Written(c, s, chunks[0]), chunks[1..]);
      WriteTwice(c, s, chunks[0], Concat(chunks[1..]));
    }
  }

  /** The chunks leave the buffer and report the lines that one write of the whole output does. */
  ghost predicate BehavesAsOneWrite(c: Config, chunks: seq<Bytes>) {
    Finished(c, WrittenAll(c, EMPTY, chunks)) == Finished(c, Written(c, EMPTY, Concat(chunks)))
  }

  /** Chunking leaves no trace, whatever the limits, exactly when no character is cut. */
  lemma {:induction false} ChunkingIrrelevantIff(chunks: seq<Bytes>)
    ensures (forall c: Config :: BehavesAsOneWrite(c, chunks)) <==> CutsAtBoundaries(chunks)
  {
    if CutsAtBoundaries(chunks) {
      forall c: Config ensures BehavesAsOneWrite(c, chunks) {
        WriteAllAtOnce(c, EMPTY, chunks);
      }
    } else {
      CutIsReported(chunks);
    }
  }

  /** What the chunks are decoded to, one by one. */
  function DecodedEach(chunks: seq<Bytes>): seq<Bytes>
    decreases |chunks|
  {
    if chunks == [] then [] else Characters(chunks[0]) + DecodedEach(chunks[1..])
  }

  /** Cutting characters makes more visible, and nothing else does. */
  lemma {:induction false} CutsAreVisible(chunks: seq<Bytes>)
    ensures AllVisible(DecodedEach(chunks)) >= AllVisible(Characters(Concat(chunks)))
    ensures !CutsAtBoundaries(chunks) ==> AllVisible(DecodedEach(chunks)) > AllVisible(Characters(Concat(chunks)))
    decreases |chunks|
  {
    hide Characters, Boundary, Visible;
    if chunks == [] {
      NoCharacters();
    } else {
      var first, rest := chunks[0], Concat(chunks[1..]);
      CutsAreVisible(chunks[1..]);
      AllVisibleAppend(Characters(first), DecodedEach(chunks[1..]));
      if Boundary(first + rest, |first|) {
        DecodeAtBoundary(first, rest);
        AllVisibleAppend(Characters(first), Characters(rest));
      } else {
        DecodeAcrossCut(first, rest);
      }
    }
  }

  function Size(cs: seq<Bytes>): nat
    decreases |cs|
  {
    if cs == [] then 0 else |cs[0]| + Size(cs[1..])
  }

  function VisibleIn(p: Progress): nat {
    Visible(p.line) + AllVisible(p.lines)
  }

  lemma {:induction false} FlushKeepsVisible(p: Progress)
    ensures VisibleIn(Flush(p)) == VisibleIn(p)
  {
    if p.line != [] {
      var n := |p.line| - 1;
      AllVisibleAppend(p.lines, [TrimReturn(p.line)]);
      assert [TrimReturn(p.line)][1..] == [];
    }
  }

  /** With room on the line, nothing visible is lost. */
  lemma {:induction false} PutAllKeepsVisible(p: Progress, lineLimit: int, cs: seq<Bytes>)
    requires !p.truncated && |p.line| + Size(cs) < lineLimit
    ensures VisibleIn(PutAll(p, lineLimit, cs)) == VisibleIn(p) + AllVisible(cs)
    decreases |cs|
  {
    hide Visible;
    if cs != [] {
      var q := Put(p, lineLimit, cs[0]);
      if cs[0] == NEWLINE {
        FlushKeepsVisible(p);
        NewlineIsInvisible();
      } else {
        VisibleAppend(p.line, cs[0]);
      }
      PutAllKeepsVisible(q, lineLimit, cs[1..]);
    }
  }

  lemma {:induction false} NewlineIsInvisible()
    ensures Visible(NEWLINE) == 0
  {
  }

  /** With room in the buffer, every chunk is decoded by itself. */
  lemma {:induction false} WrittenWithRoom(c: Config, s: State, chunks: seq<Bytes>)
    requires c.reports && |s.buffer| + |Concat(chunks)| < c.limit
    ensures WrittenAll(c, s, chunks).progress == PutAll(s.progress, c.LineLimit(), DecodedEach(chunks))
    decreases |chunks|
  {
    hide Characters, PutAll;
    if chunks == [] {
      PutNothing(s.progress, c.LineLimit());
    } else {
      WrittenWithRoom(c, Written(c, s, chunks[0]), chunks[1..]);
      PutAllAppend(s.progress, c.LineLimit(), Characters(chunks[0]), DecodedEach(chunks[1..]));
    }
  }

  lemma {:induction false} PutNothing(p: Progress, lineLimit: int)
    ensures PutAll(p, lineLimit, []) == p
  {
  }

  /** Where a character is cut, limits that are large enough show it. */
  lemma {:induction false} CutIsReported(chunks: seq<Bytes>)
    requires !CutsAtBoundaries(chunks)
    ensures exists c: Config :: !BehavesAsOneWrite(c, chunks)
  {
    hide Characters, PutAll, Visible, CutsAtBoundaries, Flush, Size;
    var whole := Concat(chunks);
    var each, one := DecodedEach(chunks), Characters(whole);
    var c := Config(|whole| + 1, Size(each) + Size(one) + 1, true);
    CutsAreVisible(chunks);
    WrittenWithRoom(c, EMPTY, chunks);
    assert Take(whole, c.limit) == whole;
    PutAllKeepsVisible(START, c.LineLimit(), each);
    PutAllKeepsVisible(START, c.LineLimit(), one);
    FlushKeepsVisible(PutAll(START, c.LineLimit(), each));
    FlushKeepsVisible(PutAll(START, c.LineLimit(), one));
    assert !BehavesAsOneWrite(c, chunks);
  }

  /** A two-byte character split between two writes is reported as two replacement characters. */
  lemma {:induction false} SplitCharacterMatters()
    ensures var c := Config(10, 0, true);
            && Finished(c, WrittenAll(c, EMPTY, [[0xC3], [0xA9]])).progress.lines == [REPLACEMENT + REPLACEMENT]
            && Finished(c, WrittenAll(c, EMPTY, [[0xC3, 0xA9]])).progress.lines == [[0xC3, 0xA9]]
  {
    hide Written, Characters, PutAll;
    var c := Config(10, 0, true);
    var lead: Bytes, tail: Bytes, whole: Bytes := [0xC3], [0xA9], [0xC3, 0xA9];
    var s1 := State(lead, Progress(REPLACEMENT, false, []));
    WriteOne(c, EMPTY, lead, REPLACEMENT);
    WriteOne(c, s1, tail, REPLACEMENT);
    WriteOne(c, EMPTY, whole, whole);
    assert [] + lead == lead && [] + whole == whole && [] + REPLACEMENT == REPLACEMENT;
    OneWrite(c, EMPTY, whole);
    OneWrite(c, s1, tail);
    assert WrittenAll(c, EMPTY, [lead, tail]) == Written(c, s1, tail) by {
      assert [lead, tail][1..] == [tail];
    }
  }

  lemma {:induction false} OneWrite(c: Config, s: State, value: Bytes)
    ensures WrittenAll(c, s, [value]) == Written(c, s, value)
  {
    var none: seq<Bytes> := [];
    assert [value][1..] == none;
  }

  /** A write that decodes to the single character `ch` and fits. */
  lemma {:induction false} WriteOne(c: Config, s: State, value: Bytes, ch: Bytes)
    requires value in [[0xC3], [0xA9], [0xC3, 0xA9]] && ch == (if |value| == 2 then value else REPLACEMENT)
    requires c == Config(10, 0, true) && |s.buffer| < 5
    requires !s.progress.truncated && |s.progress.line| < 5
    ensures Written(c, s, value) == State(s.buffer + value, s.progress.(line := s.progress.line + ch))
  {
    hide Characters, PutAll;
    OneCharacter(value, ch);
    PutOne(s.progress, 10, ch);
    assert Take(value, c.limit - |s.buffer|) == value;
  }

  lemma {:induction false} OneCharacter(s: Bytes, c: Bytes)
    requires s in [[0xC3], [0xA9], [0xC3, 0xA9]]
    requires c == if |s| == 2 then s else REPLACEMENT
    ensures Characters(s) == [c]
  {
    var rest: Bytes := [];
    assert Characters(rest) == [];
    assert [c] + [] == [c];
    if |s| == 2 {
      assert CharWidth(s) == 2 && s[..2] == s && s[2..] == rest;
    } else {
      assert CharWidth(s) == 0 && s[1..] == rest;
    }
  }

  lemma {:induction false} PutOne(p: Progress, lineLimit: int, c: Bytes)
    requires !p.truncated && |p.line| < lineLimit && c != NEWLINE
    ensures PutAll(p, lineLimit, [c]) == p.(line := p.line + c)
  {
    var none: seq<Bytes> := [];
    assert [c][1..] == none;
    assert forall q: Progress :: PutAll(q, lineLimit, none) == q;
  }

  // ------------------------------------------------------------------ what is kept

  /** The buffer is always the first `limit` bytes of everything written. */
  lemma {:induction false} BufferIsPrefix(c: Config, s: State, chunks: seq<Bytes>)
    ensures WrittenAll(c, s, chunks).buffer == s.buffer + Take(Concat(chunks), c.limit - |s.buffer|)
    decreases |chunks|
  {
    if chunks == [] {
      assert s.buffer + [] == s.buffer;
    } else {
      var next := Written(c, s, chunks[0]);
      BufferIsPrefix(c, next, chunks[1..]);
      TakeTwice(s.buffer, chunks[0], Concat(chunks[1..]), c.limit);
    }
  }

  lemma {:induction false} TakeTwice(buffer: Bytes, a: Bytes, b: Bytes, limit: int)
    ensures var first := buffer + Take(a, limit - |buffer|);
            first + Take(b, limit - |first|) == buffer + Take(a + b, limit - |buffer|)
  {
    var first := buffer + Take(a, limit - |buffer|);
    assert Take(a + b, limit - |buffer|) == Take(a, limit - |buffer|) + Take(b, limit - |first|);
  }

  // ------------------------------------------------------------------ which lines are reported

  function Flat(cs: seq<Bytes>): Bytes
    decreases |cs|
  {
    if cs == [] then [] else Flat(cs[..|cs| - 1]) + cs[|cs| - 1]
  }

  /** The characters between newlines; the last run is the line still open. */
  function Runs(cs: seq<Bytes>): (runs: seq<seq<Bytes>>)
    ensures runs != []
    decreases |cs|
  {
    if cs == [] then [[]]
    else
      var before, c := Runs(cs[..|cs| - 1]), cs[|cs| - 1];
      if c == NEWLINE then before + [[]] else before[|before| - 1 := before[|before| - 1] + [c]]
  }

  /** How many characters of a line are shown. */
  function CutAt(run: seq<Bytes>, lineLimit: int): (k: nat)
    ensures k <= |run|
    decreases |run|
  {
    if run == [] then 0
    else
      var front := run[..|run| - 1];
      var k := CutAt(front, lineLimit);
      if k < |front| || |Flat(front)| >= lineLimit then k else |run|
  }

  /** A line is cut after the first characters that fill the limit, and marked when something was cut. */
  function Shown(run: seq<Bytes>, lineLimit: int): Bytes {
    var k := CutAt(run, lineLimit);
    Flat(run[..k]) + if k < |run| then MARKER else []
  }

  /** The nonempty lines, cut and without a trailing carriage return. */
  function Reported(runs: seq<seq<Bytes>>, lineLimit: int): seq<Bytes>
    decreases |runs|
  {
    if runs == [] then []
    else
      var before, run := Reported(runs[..|runs| - 1], lineLimit), runs[|runs| - 1];
      if run == [] then before else before + [TrimReturn(Shown(run, lineLimit))]
  }

  function JoinRuns(runs: seq<seq<Bytes>>): seq<Bytes>
    requires runs != []
    decreases |runs|
  {
    if |runs| == 1 then runs[0]
    else JoinRuns(runs[..|runs| - 1]) + [NEWLINE] + runs[|runs| - 1]
  }

  /** `Runs` really splits at newlines: no run contains one, and joining the runs gives the text back. */
  lemma {:induction false} RunsSplit(cs: seq<Bytes>)
    ensures JoinRuns(Runs(cs)) == cs
    ensures forall i :: 0 <= i < |Runs(cs)| ==> NEWLINE !in Runs(cs)[i]
    decreases |cs|
  {
    if cs != [] {
      var front, c := cs[..|cs| - 1], cs[|cs| - 1];
      RunsSplit(front);
      var before, runs := Runs(front), Runs(cs);
      assert cs == front + [c];
      if c == NEWLINE {
        assert runs[..|runs| - 1] == before;
      } else {
        assert runs[..|runs| - 1] == before[..|before| - 1];
      }
    }
  }

  /** Every shorter prefix leaves room, and a cut line's prefix does not. */
  lemma {:induction false} CutAtLimit(run: seq<Bytes>, lineLimit: int)
    ensures var k := CutAt(run, lineLimit);
            && (forall j :: 0 <= j < k ==> |Flat(run[..j])| < lineLimit)
            && (k < |run| ==> |Flat(run[..k])| >= lineLimit)
    decreases |run|
  {
    if run != [] {
      var front := run[..|run| - 1];
      CutAtLimit(front, lineLimit);
      forall j | 0 <= j <= |front| ensures run[..j] == front[..j] {}
      assert front[..|front|] == front;
    }
  }

  ghost predicate NonEmptyCharacters(cs: seq<Bytes>) {
    forall i :: 0 <= i < |cs| ==> 1 <= |cs[i]| <= 4
  }

  lemma {:induction false} CharactersNonEmpty(s: Bytes)
    ensures NonEmptyCharacters(Characters(s))
    ensures Ascii(s) ==> forall i :: 0 <= i < |Characters(s)| ==> |Characters(s)[i]| == 1
    decreases |s|
  {
    if s != [] {
      var w := CharWidth(s);
      CharactersNonEmpty(if w == 0 then s[1..] else s[w..]);
    }
  }

  lemma {:induction false} ShownNonEmpty(run: seq<Bytes>, lineLimit: int)
    requires run != [] && NonEmptyCharacters(run)
    ensures Shown(run, lineLimit) != []
    decreases |run|
  {
    var k := CutAt(run, lineLimit);
    if k == |run| {
      assert run[..k] == run;
    }
  }

  /** The state after reporting characters is determined by the runs they form. */
  lemma {:induction false} PutAllReportsRuns(lineLimit: int, cs: seq<Bytes>)
    requires NonEmptyCharacters(cs)
    ensures var p, runs := PutAll(START, lineLimit, cs), Runs(cs);
            var last := runs[|runs| - 1];
            && p.lines == Reported(runs[..|runs| - 1], lineLimit)
            && p.line == Shown(last, lineLimit)
            && p.truncated == (CutAt(last, lineLimit) < |last|)
            && NonEmptyCharacters(last)
    decreases |cs|
  {
    if cs == [] {
      assert Runs(cs)[..0] == [];
    } else {
      var front, c := cs[..|cs| - 1], cs[|cs| - 1];
      assert cs == front + [c];
      PutAllReportsRuns(lineLimit, front);
      PutAllAppend(START, lineLimit, front, [c]);
      var p := PutAll(START, lineLimit, front);
      var none: seq<Bytes> := [];
      assert [c][1..] == none;
      assert PutAll(p, lineLimit, [c]) == Put(p, lineLimit, c);
      var before, runs := Runs(front), Runs(cs);
      var last := before[|before| - 1];
      if c == NEWLINE {
        assert runs[..|runs| - 1] == before;
        FlushReports(lineLimit, before, p);
        assert Shown([], lineLimit) == [];
      } else {
        assert runs[..|runs| - 1] == before[..|before| - 1];
        PutExtendsRun(lineLimit, last, c, p);
      }
    }
  }

  lemma {:induction false} FlushReports(lineLimit: int, runs: seq<seq<Bytes>>, p: Progress)
    requires runs != [] && NonEmptyCharacters(runs[|runs| - 1])
    requires p.lines == Reported(runs[..|runs| - 1], lineLimit) && p.line == Shown(runs[|runs| - 1], lineLimit)
    ensures Flush(p).lines == Reported(runs, lineLimit)
  {
    if runs[|runs| - 1] != [] {
      ShownNonEmpty(runs[|runs| - 1], lineLimit);
    }
  }

  lemma {:induction false} PutExtendsRun(lineLimit: int, run: seq<Bytes>, c: Bytes, p: Progress)
    requires c != NEWLINE
    requires p.line == Shown(run, lineLimit) && p.truncated == (CutAt(run, lineLimit) < |run|)
    ensures var q, longer := Put(p, lineLimit, c), run + [c];
            q.lines == p.lines && q.line == Shown(longer, lineLimit) && q.truncated == (CutAt(longer, lineLimit) < |longer|)
  {
    var longer := run + [c];
    assert longer[..|longer| - 1] == run;
    var k := CutAt(run, lineLimit);
    assert longer[..k] == run[..k];
    assert run[..|run|] == run && longer[..|longer|] == longer;
  }

  /** After a whole run, the reported lines are the nonempty lines of the kept output, in order. */
  lemma {:induction false} ReportsNonEmptyLines(c: Config, chunks: seq<Bytes>)
    requires c.reports && CutsAtBoundaries(chunks)
    ensures Finished(c, WrittenAll(c, EMPTY, chunks)).progress.lines
         == Reported(Runs(Characters(Take(Concat(chunks), c.limit))), c.LineLimit())
  {
    WriteAllAtOnce(c, EMPTY, chunks);
    FinishReports(c, Take(Concat(chunks), c.limit));
    WriteToEmpty(c, Concat(chunks));
  }

  /** The line without one carriage return at its end, if it has one, and as it is otherwise. */
  ghost predicate ReportedAs(shown: Bytes, line: Bytes) {
    if shown != [] && shown[|shown| - 1] == 13 then shown == line + [13] else line == shown
  }

  function NonEmptyRuns(runs: seq<seq<Bytes>>): seq<seq<Bytes>>
    decreases |runs|
  {
    if runs == [] then []
    else NonEmptyRuns(runs[..|runs| - 1]) + if runs[|runs| - 1] == [] then [] else [runs[|runs| - 1]]
  }

  /** One line is reported for every nonempty run: what is shown of it, without a carriage return at the end. */
  lemma {:induction false} ReportedLines(runs: seq<seq<Bytes>>, lineLimit: int)
    ensures var lines, shown := Reported(runs, lineLimit), NonEmptyRuns(runs);
      |lines| == |shown| && forall i :: 0 <= i < |lines| ==> ReportedAs(Shown(shown[i], lineLimit), lines[i])
    decreases |runs|
  {
    hide Shown;
    if runs != [] {
      ReportedLines(runs[..|runs| - 1], lineLimit);
    }
  }

  lemma {:induction false} WriteToEmpty(c: Config, value: Bytes)
    ensures var kept := Take(value, c.limit);
            Written(c, EMPTY, value) == State(kept, Fed(c, START, kept))
  {
    assert [] + Take(value, c.limit) == Take(value, c.limit);
  }

  lemma {:induction false} FinishReports(c: Config, kept: Bytes)
    requires c.reports
    ensures Flush(Fed(c, START, kept)).lines == Reported(Runs(Characters(kept)), c.LineLimit())
  {
    CharactersNonEmpty(kept);
    PutAllReportsRuns(c.LineLimit(), Characters(kept));
    FlushReports(c.LineLimit(), Runs(Characters(kept)), Fed(c, START, kept));
  }

  lemma {:induction false} FlatLength(cs: seq<Bytes>, width: nat)
    requires forall i :: 0 <= i < |cs| ==> |cs[i]| <= width
    ensures cs != [] ==> |Flat(cs)| <= |Flat(cs[..|cs| - 1])| + width
  {
  }

  /** A shown line exceeds the limit by less than one character, plus one marker. */
  lemma {:induction false} ShownIsBounded(run: seq<Bytes>, lineLimit: int, width: nat)
    requires width >= 1 && forall i :: 0 <= i < |run| ==> |run[i]| <= width
    ensures |Shown(run, lineLimit)| <= (if lineLimit > 0 then lineLimit - 1 + width else 0) + |MARKER|
  {
    var k := CutAt(run, lineLimit);
    CutAtLimit(run, lineLimit);
    if k > 0 {
      assert |Flat(run[..k - 1])| < lineLimit;
      assert run[..k][..k - 1] == run[..k - 1];
      FlatLength(run[..k], width);
    }
  }
}
