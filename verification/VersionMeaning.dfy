/**
  What the version comparison means for version strings: which of two versions is newer is read off the
  text, at the first place where they differ.
 */
module VersionMeaning {
  import opened Strings
  import opened VersionOrder

  // ------------------------------------------------------------------ digits as text

  predicate AllDigits(s: string) {
    forall i :: 0 <= i < |s| ==> '0' <= s[i] <= '9'
  }

  /** The digits without leading zeros. */
  function Significant(s: string): string {
    if s != "" && s[0] == '0' then Significant(s[1..]) else s
  }

  /** Of two rows of digits without leading zeros the longer is larger, and of equally long ones the later in the dictionary. */
  predicate Larger(s: string, t: string) {
    var a, b := Significant(s), Significant(t);
    |a| > |b| || (|a| == |b| && Less(b, a))
  }

  /** 2^63 - 1, in groups of digits. */
  const LARGEST := "09223" + "37203" + "68547" + "75807"

  /** Digits whose number fits a signed integer of 64 bits. */
  predicate IsNumber(s: string) {
    s != "" && AllDigits(s) && !Larger(s, LARGEST)
  }

  function Power(n: nat): nat {
    if n == 0 then 1 else 10 * Power(n - 1)
  }

  function Digit(c: char): nat
    requires '0' <= c <= '9'
  {
    c as int - '0' as int
  }

  /** The first digit counts as often as the number of digits after it says. */
  lemma {:induction false} ValueSplit(s: string)
    requires s != "" && AllDigits(s)
    ensures Value(s) == Digit(s[0]) * Power(|s| - 1) + Value(s[1..])
    decreases |s|
  {
    hide Value, Power;
    var n := |s| - 1;
    LastDigit(s);
    if n > 0 {
      ValueSplit(s[..n]);
      LastDigit(s[1..]);
      assert s[..n][1..] == s[1..][..n - 1] && s[1..][n - 1] == s[n];
      PowerStep(n - 1);
      Regroup(Digit(s[0]), Power(n - 1), Value(s[1..][..n - 1]), Digit(s[n]));
    } else {
      assert s[1..] == "" && s[..0] == "";
      NoDigits();
      PowerStep(0);
    }
  }

  lemma {:induction false} LastDigit(s: string)
    requires s != "" && AllDigits(s)
    ensures Value(s) == Value(s[..|s| - 1]) * 10 + Digit(s[|s| - 1])
  {
  }

  lemma {:induction false} PowerStep(n: nat)
    ensures Power(0) == 1 && Power(n + 1) == 10 * Power(n)
  {
  }

  lemma {:induction false} Regroup(x: nat, p: nat, y: nat, d: nat)
    ensures (x * p + y) * 10 + d == x * (10 * p) + (y * 10 + d)
  {
  }

  lemma {:induction false} ValueBound(s: string)
    requires AllDigits(s)
    ensures Value(s) < Power(|s|)
    decreases |s|
  {
    if s != "" {
      ValueBound(s[..|s| - 1]);
    }
  }

  lemma {:induction false} PowerGrows(m: nat, n: nat)
    requires m <= n
    ensures Power(m) <= Power(n)
    decreases n
  {
    if m < n {
      PowerGrows(m, n - 1);
    }
  }

  lemma {:induction false} SignificantValue(s: string)
    requires AllDigits(s)
    ensures var a := Significant(s); AllDigits(a) && Value(a) == Value(s) && (a != "" ==> a[0] != '0')
    decreases |s|
  {
    if s != "" && s[0] == '0' {
      ValueSplit(s);
      SignificantValue(s[1..]);
    }
  }

  /** Of equally many digits the later in the dictionary is the larger number. */
  lemma {:induction false} LexicographicValue(s: string, t: string)
    requires AllDigits(s) && AllDigits(t) && |s| == |t|
    ensures Less(s, t) <==> Value(s) < Value(t)
    decreases |s|
  {
    if s != "" {
      hide Value, Power, Less;
      ValueSplit(s);
      ValueSplit(t);
      ValueBound(s[1..]);
      ValueBound(t[1..]);
      LexicographicValue(s[1..], t[1..]);
      LessSplit(s, t);
      var p := Power(|s| - 1);
      if s[0] < t[0] {
        FirstDigitDecides(Digit(s[0]), Digit(t[0]), p, Value(s[1..]), Value(t[1..]));
      } else if t[0] < s[0] {
        FirstDigitDecides(Digit(t[0]), Digit(s[0]), p, Value(t[1..]), Value(s[1..]));
      }
    }
  }

  lemma {:induction false} LessSplit(s: string, t: string)
    requires s != "" && t != ""
    ensures Less(s, t) <==> s[0] < t[0] || (s[0] == t[0] && Less(s[1..], t[1..]))
  {
  }

  lemma {:induction false} FirstDigitDecides(d: nat, e: nat, p: nat, x: nat, y: nat)
    requires d < e && x < p
    ensures d * p + x < e * p + y
  {
    assert e * p >= (d + 1) * p;
  }

  lemma {:induction false} LongerIsLarger(a: string, b: string)
    requires AllDigits(a) && AllDigits(b) && a != "" && a[0] != '0' && |a| > |b|
    ensures Value(a) > Value(b)
  {
    hide Value, Power;
    ValueSplit(a);
    ValueBound(b);
    PowerGrows(|b|, |a| - 1);
    FirstDigitDecides(0, Digit(a[0]), Power(|a| - 1), Value(b), Value(a[1..]));
  }

  /** The comparison of digits as text is the comparison of numbers. */
  lemma {:induction false} LargerIff(s: string, t: string)
    requires AllDigits(s) && AllDigits(t)
    ensures Larger(s, t) <==> Value(s) > Value(t)
  {
    hide Value;
    var a, b := Significant(s), Significant(t);
    SignificantValue(s);
    SignificantValue(t);
    if |a| > |b| {
      LongerIsLarger(a, b);
    } else if |b| > |a| {
      LongerIsLarger(b, a);
    } else {
      LexicographicValue(b, a);
    }
  }

  lemma {:induction false} NextDigit(s: string, c: char)
    requires AllDigits(s) && '0' <= c <= '9'
    ensures Value(s + [c]) == Value(s) * 10 + Digit(c)
  {
    assert (s + [c])[..|s|] == s;
  }

  lemma {:induction false} TwoParts(s: string, t: string)
    requires AllDigits(s) && AllDigits(t)
    ensures Value(s + t) == Value(s) * Power(|t|) + Value(t)
    decreases |t|
  {
    if t == "" {
      assert s + t == s;
    } else {
      hide Value, Power;
      var n := |t| - 1;
      assert s + t == (s + t[..n]) + [t[n]] && t == t[..n] + [t[n]];
      TwoParts(s, t[..n]);
      NextDigit(s + t[..n], t[n]);
      NextDigit(t[..n], t[n]);
      PowerStep(n);
      Regroup(Value(s), Power(n), Value(t[..n]), Digit(t[n]));
    }
  }

  lemma {:induction false} FiveDigits(a: char, b: char, c: char, d: char, e: char)
    requires '0' <= a <= '9' && '0' <= b <= '9' && '0' <= c <= '9' && '0' <= d <= '9' && '0' <= e <= '9'
    ensures Value([a, b, c, d, e]) == Digit(a) * 10000 + Digit(b) * 1000 + Digit(c) * 100 + Digit(d) * 10 + Digit(e)
  {
    hide Value;
    NoDigits();
    NextDigit("", a);
    NextDigit([a], b);
    NextDigit([a, b], c);
    NextDigit([a, b, c], d);
    NextDigit([a, b, c, d], e);
    assert "" + [a] == [a] && [a] + [b] == [a, b] && [a, b] + [c] == [a, b, c];
    assert [a, b, c] + [d] == [a, b, c, d] && [a, b, c, d] + [e] == [a, b, c, d, e];
  }

  lemma {:induction false} Groups()
    ensures AllDigits("09223") && Value("09223") == 9223
    ensures AllDigits("37203") && Value("37203") == 37203
    ensures AllDigits("68547") && Value("68547") == 68547
    ensures AllDigits("75807") && Value("75807") == 75807
  {
    hide Value;
    FiveDigits('0', '9', '2', '2', '3');
    FiveDigits('3', '7', '2', '0', '3');
    FiveDigits('6', '8', '5', '4', '7');
    FiveDigits('7', '5', '8', '0', '7');
    assert "09223" == ['0', '9', '2', '2', '3'] && "37203" == ['3', '7', '2', '0', '3'];
    assert "68547" == ['6', '8', '5', '4', '7'] && "75807" == ['7', '5', '8', '0', '7'];
  }

  lemma {:induction false} FourGroups(a: string, b: string, c: string, d: string)
    requires |b| == |c| == |d| == 5 && AllDigits(a) && AllDigits(b) && AllDigits(c) && AllDigits(d)
    ensures AllDigits(a + b + c + d)
    ensures Value(a + b + c + d) == ((Value(a) * 100000 + Value(b)) * 100000 + Value(c)) * 100000 + Value(d)
  {
    hide Value;
    assert Power(5) == 100000;
    TwoParts(a, b);
    TwoParts(a + b, c);
    TwoParts(a + b + c, d);
  }

  lemma {:induction false} LargestValue()
    ensures AllDigits(LARGEST) && Value(LARGEST) == MAX_INT
  {
    hide Value;
    Groups();
    FourGroups("09223", "37203", "68547", "75807");
  }

  lemma {:induction false} NoDigits()
    ensures Value("") == 0
  {
  }

  /** A token is compared as a number exactly when it is one. */
  lemma {:induction false} NumberIff(s: string)
    ensures Atoi(s).Some? <==> IsNumber(s)
    ensures IsNumber(s) ==> Atoi(s).value == Value(s)
  {
    hide Value, Larger;
    LargestValue();
    if AllDigits(s) {
      LargerIff(s, LARGEST);
    }
  }

  // ------------------------------------------------------------------ where versions differ

  /** No space around it, and not starting with `v`. */
  predicate Bare(version: string) {
    version == "" || (!IsSpace(version[0]) && !IsSpace(version[|version| - 1]) && version[0] != 'v')
  }

  lemma {:induction false} BareIsSanitized(version: string)
    requires Bare(version)
    ensures SanitizeVersion(version) == version
  {
  }

  /** The text ends where a token can start. */
  predicate AtTokenStart(p: string) {
    p == "" || IsSeparator(p[|p| - 1])
  }

  predicate AtTokenEnd(x: string) {
    x == "" || IsSeparator(x[0])
  }

  predicate IsToken(s: string) {
    s != "" && SeparatorFree(s)
  }

  /** The token `s` is newer than `t`: numbers by size, numbers before text, text backwards in the dictionary. */
  predicate TokenNewer(lower: Lower, s: string, t: string) {
    if IsNumber(s) then !IsNumber(t) || Larger(s, t)
    else !IsNumber(t) && Less(lower(t), lower(s))
  }

  lemma {:induction false} TokenNewerIff(lower: Lower, s: string, t: string)
    ensures TokenNewer(lower, s, t) <==> KeyNewer(KeyOf(lower, s), KeyOf(lower, t))
  {
    hide Larger, Less, Value, Atoi, IsNumber;
    NumberIff(s);
    NumberIff(t);
    if IsNumber(s) && IsNumber(t) {
      NumberIsDigits(s);
      NumberIsDigits(t);
      LargerIff(s, t);
    }
  }

  lemma {:induction false} NumberIsDigits(s: string)
    requires IsNumber(s)
    ensures AllDigits(s)
  {
  }

  lemma {:induction false} PartsAround(p: string, s: string, x: string)
    requires AtTokenStart(p) && IsToken(s) && AtTokenEnd(x)
    ensures Parts(p + s + x) == Parts(p) + [s] + Parts(x)
  {
    hide Parts, IsSeparator;
    PartsOfEmpty();
    if x == "" {
      assert s + x == s;
      PartsWhole(s);
    } else {
      assert s + x == s + [x[0]] + x[1..];
      PartsSplit(s, x[0], x[1..]);
      PartsWhole(s);
      assert x == "" + [x[0]] + x[1..];
      PartsSplit("", x[0], x[1..]);
    }
    assert Parts(s + x) == [s] + Parts(x);
    if p == "" {
      assert p + s + x == s + x;
    } else {
      var front, c := p[..|p| - 1], p[|p| - 1];
      assert p + s + x == front + [c] + (s + x);
      PartsSplit(front, c, s + x);
      assert p == front + [c] + "";
      PartsSplit(front, c, "");
    }
  }

  lemma {:induction false} PartsOfEmpty()
    ensures Parts("") == []
  {
  }

  /** A common beginning does not matter. */
  lemma {:induction false} CommonKeys(ks: seq<Key>, a: seq<Key>, b: seq<Key>)
    ensures KeysNewer(ks + a, ks + b) <==> KeysNewer(a, b)
    decreases |ks|
  {
    if ks == [] {
      assert ks + a == a && ks + b == b;
    } else {
      KeyNewerIrreflexive(ks[0]);
      assert (ks + a)[1..] == ks[1..] + a && (ks + b)[1..] == ks[1..] + b;
      CommonKeys(ks[1..], a, b);
    }
  }

  function KeysOf(lower: Lower, parts: seq<string>): seq<Key> {
    seq(|parts|, i requires 0 <= i < |parts| => KeyOf(lower, parts[i]))
  }

  lemma {:induction false} KeysAround(lower: Lower, p: string, s: string, x: string)
    requires Bare(p + s + x) && AtTokenStart(p) && IsToken(s) && AtTokenEnd(x)
    ensures Keys(lower, p + s + x) == KeysOf(lower, Parts(p)) + ([KeyOf(lower, s)] + KeysOf(lower, Parts(x)))
  {
    hide Parts, KeyOf, SanitizeVersion, Bare;
    BareIsSanitized(p + s + x);
    PartsAround(p, s, x);
  }

  /**
    The first differing token decides. After a common beginning, whatever follows the tokens, the version
    with the newer token is newer, and neither is because of tokens that tie.
   */
  lemma {:induction false} FirstDifferenceDecides(lower: Lower, p: string, s: string, x: string, t: string, y: string)
    requires Bare(p + s + x) && Bare(p + t + y) && AtTokenStart(p) && IsToken(s) && IsToken(t) && AtTokenEnd(x) && AtTokenEnd(y)
    requires TokenNewer(lower, s, t)
    ensures Newer(lower, p + s + x, p + t + y) && !Newer(lower, p + t + y, p + s + x)
  {
    hide Parts, KeyOf, TokenNewer, Bare, Keys, KeyNewer;
    var a, b := p + s + x, p + t + y;
    var common := KeysOf(lower, Parts(p));
    var ka, kb := [KeyOf(lower, s)] + KeysOf(lower, Parts(x)), [KeyOf(lower, t)] + KeysOf(lower, Parts(y));
    KeysAround(lower, p, s, x);
    KeysAround(lower, p, t, y);
    TokenNewerIff(lower, s, t);
    CommonKeys(common, ka, kb);
    assert ka[0] == KeyOf(lower, s) && kb[0] == KeyOf(lower, t);
    assert Newer(lower, a, b);
    StrictWeakOrder(lower, a, b, a);
  }

  /** More tokens make a version newer than its beginning. */
  lemma {:induction false} LongerIsNewer(lower: Lower, q: string, p: string, s: string, x: string)
    requires Bare(q) && Bare(q + p + s + x) && p != "" && (forall i :: 0 <= i < |p| ==> IsSeparator(p[i])) && IsToken(s) && AtTokenEnd(x)
    ensures Newer(lower, q + p + s + x, q) && !Newer(lower, q, q + p + s + x)
  {
    hide Parts, KeyOf, Bare, Keys, IsSeparator;
    var a := q + p + s + x;
    SeparatorsAddNothing(q, p);
    assert a == (q + p) + s + x;
    KeysAround(lower, q + p, s, x);
    BareIsSanitized(q);
    KeysOfBare(lower, q);
    var common, more := KeysOf(lower, Parts(q)), [KeyOf(lower, s)] + KeysOf(lower, Parts(x));
    assert common + [] == common;
    CommonKeys(common, more, []);
    StrictWeakOrder(lower, a, q, a);
  }

  lemma {:induction false} KeysOfBare(lower: Lower, q: string)
    requires SanitizeVersion(q) == q
    ensures Keys(lower, q) == KeysOf(lower, Parts(q))
  {
    hide Parts, KeyOf;
  }

  lemma {:induction false} SeparatorsAddNothing(q: string, p: string)
    requires forall i :: 0 <= i < |p| ==> IsSeparator(p[i])
    ensures Parts(q + p) == Parts(q)
    decreases |p|
  {
    hide Parts, IsSeparator;
    if p == "" {
      assert q + p == q;
    } else {
      var n := |p| - 1;
      assert q + p == (q + p[..n]) + [p[n]] + "";
      PartsSplit(q + p[..n], p[n], "");
      PartsOfEmpty();
      SeparatorsAddNothing(q, p[..n]);
    }
  }

  /** One leading `v` makes no difference. */
  lemma {:induction false} LeadingV(lower: Lower, a: string, b: string)
    requires Bare(a) && a != ""
    ensures Newer(lower, "v" + a, b) <==> Newer(lower, a, b)
    ensures Newer(lower, b, "v" + a) <==> Newer(lower, b, a)
  {
    hide Parts, KeyOf;
    WithoutV(a);
    BareIsSanitized(a);
  }

  lemma {:induction false} WithoutV(a: string)
    requires Bare(a) && a != ""
    ensures SanitizeVersion("v" + a) == a
  {
    var v := "v" + a;
    assert v[0] == 'v' && v[|v| - 1] == a[|a| - 1] && v[1..] == a;
    assert TrimLeft(v) == v && TrimRight(v) == v;
  }
}
