/**
  Values and what types say of them. A type of output inference is a claim about values, so merging
  types can be judged by the values that it loses.
 */
module CtyValues {
  import opened Basics
  import opened CtyTypes

  /** A sequence stands for a list or a tuple; the items of a set come in some order. */
  datatype Data =
    | Null
    | Truth(b: bool)
    | Num(n: real)
    | Text(s: string)
    | SeqOf(items: seq<Data>)
    | SetOf(items: seq<Data>)
    | MapOf(entries: map<string, Data>)

  /** `v` is a value of type `t`. Every value is of unknown type, and null is of every type. */
  predicate HasType(v: Data, t: Type)
    decreases t
  {
    v.Null? ||
    match t
    case Dynamic => true
    case Bool => v.Truth?
    case Number => v.Num?
    case String => v.Text?
    case List(e) => v.SeqOf? && forall i :: 0 <= i < |v.items| ==> HasType(v.items[i], e)
    case Set(e) => v.SetOf? && forall i :: 0 <= i < |v.items| ==> HasType(v.items[i], e)
    case Map(e) => v.MapOf? && forall k :: k in v.entries ==> HasType(v.entries[k], e)
    case Tuple(ts) => v.SeqOf? && |v.items| == |ts| && forall i :: 0 <= i < |ts| ==> HasType(v.items[i], ts[i])
    case Object(attrs, _) => v.MapOf? && v.entries.Keys == attrs.Keys && forall k :: k in attrs ==> HasType(v.entries[k], attrs[k])
  }

  ghost predicate AllHaveType(vs: seq<Data>, t: Type) {
    forall i :: 0 <= i < |vs| ==> HasType(vs[i], t)
  }

  // ------------------------------------------------------------------ when one type says less than another

  /** Read off the types: what `s` says implies what `t` says. */
  predicate Refines(s: Type, t: Type)
    decreases s, t
  {
    t.Dynamic? ||
    match (s, t)
    case (Bool, Bool) => true
    case (Number, Number) => true
    case (String, String) => true
    case (List(a), List(b)) => Refines(a, b)
    case (Set(a), Set(b)) => Refines(a, b)
    case (Map(a), Map(b)) => Refines(a, b)
    case (Tuple(ts), List(b)) => forall i :: 0 <= i < |ts| ==> Refines(ts[i], b)
    case (Tuple(ts), Tuple(us)) => |ts| == |us| && forall i :: 0 <= i < |ts| ==> Refines(ts[i], us[i])
    case (Object(attrs, _), Map(b)) => forall k :: k in attrs ==> Refines(attrs[k], b)
    case (Object(attrs, _), Object(others, _)) => attrs.Keys == others.Keys && forall k :: k in attrs ==> Refines(attrs[k], others[k])
    case _ => false
  }

  lemma {:induction false} RefinesKeepsType(s: Type, t: Type, v: Data)
    requires Refines(s, t) && HasType(v, s)
    ensures HasType(v, t)
    decreases s, t
  {
    if !t.Dynamic? && !v.Null? {
      match (s, t)
      case (List(a), List(b)) => forall i | 0 <= i < |v.items| ensures HasType(v.items[i], b) { RefinesKeepsType(a, b, v.items[i]); }
      case (Set(a), Set(b)) => forall i | 0 <= i < |v.items| ensures HasType(v.items[i], b) { RefinesKeepsType(a, b, v.items[i]); }
      case (Map(a), Map(b)) => forall k | k in v.entries ensures HasType(v.entries[k], b) { RefinesKeepsType(a, b, v.entries[k]); }
      case (Tuple(ts), List(b)) => forall i | 0 <= i < |v.items| ensures HasType(v.items[i], b) { RefinesKeepsType(ts[i], b, v.items[i]); }
      case (Tuple(ts), Tuple(us)) => forall i | 0 <= i < |ts| ensures HasType(v.items[i], us[i]) { RefinesKeepsType(ts[i], us[i], v.items[i]); }
      case (Object(attrs, _), Map(b)) => forall k | k in v.entries ensures HasType(v.entries[k], b) { RefinesKeepsType(attrs[k], b, v.entries[k]); }
      case (Object(attrs, _), Object(others, _)) =>
        forall k | k in attrs ensures HasType(v.entries[k], others[k]) { RefinesKeepsType(attrs[k], others[k], v.entries[k]); }
      case _ =>
    }
  }

  /** Some value of type `t` other than null. */
  function Sample(t: Type): (v: Data)
    ensures HasType(v, t) && !v.Null?
  {
    match t
    case Dynamic => Truth(true)
    case Bool => Truth(true)
    case Number => Num(0.0)
    case String => Text("")
    case List(_) => SeqOf([])
    case Set(_) => SetOf([])
    case Map(_) => MapOf(map[])
    case Tuple(ts) => SeqOf(seq(|ts|, i requires 0 <= i < |ts| => Sample(ts[i])))
    case Object(attrs, _) => MapOf(map k | k in attrs :: Sample(attrs[k]))
  }

  /** The samples of `ts`, except that `v` stands at `at`. */
  function SamplesBut(ts: seq<Type>, at: nat, v: Data): (vs: seq<Data>)
    ensures |vs| == |ts| && forall i :: 0 <= i < |ts| ==> vs[i] == if i == at then v else Sample(ts[i])
  {
    seq(|ts|, i requires 0 <= i < |ts| => if i == at then v else Sample(ts[i]))
  }

  function AttributesBut(attrs: map<string, Type>, at: string, v: Data): map<string, Data> {
    map k | k in attrs :: if k == at then v else Sample(attrs[k])
  }

  ghost predicate Separates(v: Data, s: Type, t: Type) {
    HasType(v, s) && !HasType(v, t)
  }

  /** A type that does not refine another has a value that is not of the other. */
  lemma {:induction false} Separated(s: Type, t: Type) returns (v: Data)
    requires !Refines(s, t)
    ensures Separates(v, s, t)
    decreases s, t, 2
  {
    match s
    case List(_) => v := CollectionSeparated(s, t);
    case Set(_) => v := CollectionSeparated(s, t);
    case Map(_) => v := CollectionSeparated(s, t);
    case Tuple(ts) => v := TuplesSeparated(ts, t);
    case Object(_, _) => v := ObjectsSeparated(s, t);
    case Dynamic => v := if t.Bool? then Text("") else Truth(true);
    case _ => v := Sample(s);
  }

  lemma {:induction false} CollectionSeparated(s: Type, t: Type) returns (v: Data)
    requires (s.List? || s.Set? || s.Map?) && !Refines(s, t)
    ensures Separates(v, s, t)
    decreases s, t, 1
  {
    if (s.List? && t.List?) || (s.Set? && t.Set?) || (s.Map? && t.Map?) {
      var inner := Separated(s.elem, t.elem);
      v := if s.List? then SeqOf([inner]) else if s.Set? then SetOf([inner]) else MapOf(map["" := inner]);
      assert if s.Map? then v.entries[""] == inner else v.items[0] == inner;
    } else if s.List? && t.Tuple? {
      v := SeqOf(seq(|t.elems| + 1, i => Sample(s.elem)));
    } else if s.Map? && t.Object? {
      v := if t.attrs.Keys == {} then MapOf(map["" := Sample(s.elem)]) else MapOf(map[]);
      assert t.attrs.Keys == {} ==> "" in v.entries.Keys;
    } else {
      v := Sample(s);
    }
  }

  lemma {:induction false} TuplesSeparated(ts: seq<Type>, t: Type) returns (v: Data)
    requires !Refines(Tuple(ts), t)
    ensures Separates(v, Tuple(ts), t)
    decreases Tuple(ts), t, 1
  {
    if t.List? {
      var i :| 0 <= i < |ts| && !Refines(ts[i], t.elem);
      v := TupleSeparated(ts, i, t.elem);
    } else if t.Tuple? && |ts| == |t.elems| {
      var i :| 0 <= i < |ts| && !Refines(ts[i], t.elems[i]);
      v := TupleSeparated(ts, i, t.elems[i]);
    } else {
      v := Sample(Tuple(ts));
    }
  }

  lemma {:induction false} ObjectsSeparated(s: Type, t: Type) returns (v: Data)
    requires s.Object? && !Refines(s, t)
    ensures Separates(v, s, t)
    decreases s, t, 1
  {
    if t.Map? {
      var k :| k in s.attrs && !Refines(s.attrs[k], t.elem);
      v := ObjectSeparated(s, k, t.elem);
    } else if t.Object? && s.attrs.Keys == t.attrs.Keys {
      var k :| k in s.attrs && !Refines(s.attrs[k], t.attrs[k]);
      v := ObjectSeparated(s, k, t.attrs[k]);
    } else {
      v := Sample(s);
    }
  }

  lemma {:induction false} TupleSeparated(ts: seq<Type>, i: nat, t: Type) returns (v: Data)
    requires i < |ts| && !Refines(ts[i], t)
    ensures HasType(v, Tuple(ts)) && v.SeqOf? && |v.items| == |ts| && !HasType(v.items[i], t)
    decreases Tuple(ts), t, 0
  {
    var inner := Separated(ts[i], t);
    v := SeqOf(SamplesBut(ts, i, inner));
  }

  lemma {:induction false} ObjectSeparated(s: Type, k: string, t: Type) returns (v: Data)
    requires s.Object? && k in s.attrs && !Refines(s.attrs[k], t)
    ensures HasType(v, s) && v.MapOf? && k in v.entries && !HasType(v.entries[k], t)
    decreases s, t, 0
  {
    var inner := Separated(s.attrs[k], t);
    v := MapOf(AttributesBut(s.attrs, k, inner));
  }

  /** Every value of type `s` is one of type `t`. */
  ghost predicate Includes(t: Type, s: Type) {
    forall v :: HasType(v, s) ==> HasType(v, t)
  }

  /** Refinement is exactly inclusion of values. */
  lemma {:induction false} RefinesIff(s: Type, t: Type)
    ensures Refines(s, t) <==> Includes(t, s)
  {
    if Refines(s, t) {
      forall v | HasType(v, s) ensures HasType(v, t) {
        RefinesKeepsType(s, t, v);
      }
    } else {
      var v := Separated(s, t);
      assert !(HasType(v, s) ==> HasType(v, t));
    }
  }

  // ------------------------------------------------------------------ where the rules are sound

  /** The merged type is refined by each alternative. */
  predicate MergeSafe(ts: seq<Type>) {
    forall i :: 0 <= i < |ts| ==> Refines(ts[i], UnifyAll(ts))
  }

  /** Merging loses no value of any alternative exactly when each alternative refines the merged type. */
  lemma {:induction false} MergeSoundIff(ts: seq<Type>)
    ensures MergeSafe(ts) <==> forall i :: 0 <= i < |ts| ==> Includes(UnifyAll(ts), ts[i])
  {
    hide Refines, UnifyAll, Includes;
    forall i | 0 <= i < |ts| ensures Refines(ts[i], UnifyAll(ts)) <==> Includes(UnifyAll(ts), ts[i]) {
      RefinesIff(ts[i], UnifyAll(ts));
    }
  }

  /** Of three alternatives of different types, the last survives: the element type of `["a", 1, true]` is bool. */
  lemma {:induction false} MergeLosesValues()
    ensures UnifyAll([String, Number, Bool]) == Bool && !MergeSafe([String, Number, Bool])
    ensures UnifyAll([String, Dynamic]) == String && !MergeSafe([String, Dynamic])
  {
    UnifyAllSnoc([String, Number], Bool);
    UnifyAllSnoc([String], Number);
    UnifyAllSnoc([String], Dynamic);
    assert [String, Number] + [Bool] == [String, Number, Bool] && [String] + [Number] == [String, Number] && [String] + [Dynamic] == [String, Dynamic];
    assert [String, Number, Bool][0] == String && [String, Dynamic][1] == Dynamic;
  }

  // ------------------------------------------------------------------ members and iteration

  /** `v` is an element of `u`. */
  ghost predicate IsMember(u: Data, v: Data) {
    || ((u.SeqOf? || u.SetOf?) && v in u.items)
    || (u.MapOf? && exists k :: k in u.entries && u.entries[k] == v)
  }

  /** A `for` over `u` visits `v` under the key `k`: an index, a name, or in a set the element itself. */
  ghost predicate Visits(u: Data, k: Data, v: Data) {
    || (u.SeqOf? && exists i :: 0 <= i < |u.items| && k == Num(i as real) && v == u.items[i])
    || (u.SetOf? && v in u.items && k == v)
    || (u.MapOf? && exists n :: n in u.entries && k == Text(n) && v == u.entries[n])
  }

  /** The element type of a tuple or object merges its components without loss; other collections have one. */
  predicate ElementSafe(order: Order, t: Type) {
    match t
    case Tuple(ts) => MergeSafe(ts)
    case Object(attrs, _) => MergeSafe(order(attrs))
    case _ => true
  }

  lemma {:induction false} MemberHasElementType(order: Order, t: Type, u: Data, v: Data)
    requires Lawful(order) && ElementSafe(order, t) && HasType(u, t) && IsMember(u, v)
    ensures HasType(v, ElementTypeOf(order, t))
  {
    match t
    case Tuple(ts) =>
      var i :| 0 <= i < |u.items| && u.items[i] == v;
      RefinesKeepsType(ts[i], UnifyAll(ts), v);
    case Object(attrs, _) =>
      var k :| k in u.entries && u.entries[k] == v;
      var ts := order(attrs);
      assert Enumerates(ts, attrs);
      EnumeratedAreValues(ts, attrs);
      assert attrs[k] in Elements(ts);
      var i :| 0 <= i < |ts| && ts[i] == attrs[k];
      RefinesKeepsType(ts[i], UnifyAll(ts), v);
    case _ =>
  }

  /** In a set the key is the element, so only a set of strings has string keys. */
  predicate KeySafe(t: Type) {
    t.Set? ==> Refines(t.elem, String)
  }

  /** The key type is right for every value of the collection type exactly where it is not a set of something else than strings. */
  lemma {:induction false} KeySoundIff(t: Type)
    ensures KeySafe(t) <==> forall u, k, v :: HasType(u, t) && Visits(u, k, v) ==> HasType(k, ForKeyType(t))
  {
    if KeySafe(t) {
      forall u, k, v | HasType(u, t) && Visits(u, k, v) ensures HasType(k, ForKeyType(t)) {
        if t.Set? {
          var i :| 0 <= i < |u.items| && u.items[i] == v;
          RefinesKeepsType(t.elem, String, v);
        }
      }
    } else {
      var v := Separated(t.elem, String);
      var u := SetOf([v]);
      assert v in u.items;
      assert HasType(u, t) && Visits(u, v, v);
    }
  }
}
