/**
 * processField (env/envvars.go): the recursive conversion of one string
 * into one typed location. Dispatch order: a `Set` method, then an
 * `UnmarshalText` method, then one pointer dereference (allocating the
 * pointee if the pointer is nil), then a switch on the kind. Slices and
 * maps convert each element with the same procedure.
 *
 * The function `Coerce` is the specification; the method `ProcessField`
 * is the loop-based procedure, proved equal to it.
 */
module EnvCoerce {
  import opened Wrappers
  import opened GoText
  import opened GoStrconv
  import opened GoTypes

  /** The error a conversion fails with (the `Err` a ParseError carries). */
  datatype Cause =
    | Num(numError: NumError)       // from strconv
    | InvalidMapItem(item: string)  // a map pair without exactly one ':'
    | Library(message: string)      // from a user method, time.ParseDuration or strconv.ParseFloat

  /**
   * What a user's `Set` or `UnmarshalText` method leaves behind: the new
   * state of its receiver and the error it returned, if any.
   */
  datatype MethodCall = MethodCall(recv: Value, err: Option<string>)

  /**
   * A parsing method of a defined type, applied to a receiver of that type
   * (None for a nil pointer receiver) and the raw string.
   */
  type Method = (FieldType, Option<Value>, string) -> MethodCall

  /**
   * The code the binder calls but does not contain: the user's methods,
   * time.ParseDuration (nanoseconds) and strconv.ParseFloat (an IEEE-754 bit
   * pattern for the given bit size).
   */
  datatype Hooks = Hooks(
    setter: Method,
    unmarshalText: Method,
    parseDuration: string -> Result<int, string>,
    parseFloat: (string, nat) -> Result<nat, string>)

  /** Hooks that keep values within their types, as Go's type system guarantees. */
  ghost predicate Typed(h: Hooks)
  {
    && (forall t, x, s :: HasType(x, t) ==> HasType(h.setter(t, Some(x), s).recv, t))
    && (forall t, x, s :: HasType(x, t) ==> HasType(h.unmarshalText(t, Some(x), s).recv, t))
    && (forall s :: h.parseDuration(s).Success? ==> InBits(h.parseDuration(s).value, 64))
    && (forall s, b :: h.parseFloat(s, b).Success? ==> h.parseFloat(s, b).value < Pow2(b))
  }

  /** The new value of the location and the error of the conversion, if any. */
  datatype Coerced = Coerced(value: Value, err: Option<Cause>)

  function WrapErr(e: Option<string>): Option<Cause>
  {
    if e.Some? then Some(Library(e.value)) else None
  }

  /**
   * A call of a parsing method on the location. On a pointer to a defined
   * type the method runs on the pointee, and the pointer itself stays as it was.
   */
  function Invoke(m: Method, t: FieldType, v: Value, s: string): (c: Coerced)
    ensures t.PtrT? && !v.PtrV? ==> c.value == v
  {
    if t.PtrT? then
      if v.PtrV? then
        var call := m(t.target, Some(v.pointee), s);
        Coerced(PtrV(call.recv), WrapErr(call.err))
      else
        Coerced(v, WrapErr(m(t.target, None, s).err))
    else
      var call := m(t, Some(v), s);
      Coerced(call.recv, WrapErr(call.err))
  }

  /** processField: converts `s` into the location of type `t` that holds `v`. */
  function Coerce(h: Hooks, t: FieldType, v: Value, s: string): (c: Coerced)
    ensures !HasSetter(t) && !HasTextUnmarshaler(t) && c.err.Some? ==>
              c.value == if Kind(t).PtrT? then PtrV(if v.PtrV? then v.pointee else Zero(Kind(t).target)) else v
    decreases Size(t), 3
  {
    if HasSetter(t) then Invoke(h.setter, t, v, s)
    else if HasTextUnmarshaler(t) then Invoke(h.unmarshalText, t, v, s)
    else if Kind(t).PtrT? then
      var e := Kind(t).target;
      var c := Convert(h, e, if v.PtrV? then v.pointee else Zero(e), s);
      Coerced(PtrV(c.value), c.err)
    else
      Convert(h, t, v, s)
  }

  function IntResult(r: Result<int, NumError>): Result<int, Cause>
  {
    if r.Success? then Success(r.value) else Failure(Num(r.error))
  }

  /** The kind switch of processField; a failed conversion leaves the location as it was. */
  function Convert(h: Hooks, t: FieldType, v: Value, s: string): (c: Coerced)
    ensures c.err.Some? ==> c.value == v
    decreases Size(t), 2
  {
    match Kind(t)
    case StringT => Coerced(StringV(s), None)
    case IntT(w) =>
      var p := if IsDuration(t) then
                 (var d := h.parseDuration(s); if d.Success? then Success(d.value) else Failure(Library(d.error)))
               else IntResult(ParseInt(s, w.Bits()));
      if p.Success? then Coerced(IntV(p.value), None) else Coerced(v, Some(p.error))
    case UintT(w) =>
      var p := ParseUint(s, w.Bits());
      if p.Success? then Coerced(UintV(p.value), None) else Coerced(v, Some(Num(p.error)))
    case BoolT =>
      var p := ParseBool(s);
      if p.Success? then Coerced(BoolV(p.value), None) else Coerced(v, Some(Num(p.error)))
    case FloatT(w) =>
      var p := h.parseFloat(s, w.Bits());
      if p.Success? then Coerced(FloatV(p.value), None) else Coerced(v, Some(Library(p.error)))
    case SliceT(e) =>
      var r := CoerceAll(h, e, Split(s, ','), []);
      if r.Success? then Coerced(SliceV(r.value), None) else Coerced(v, Some(r.error))
    case MapT(k, e) =>
      if |TrimSpace(s)| == 0 then Coerced(MapV(map[]), None)
      else
        var r := CoercePairs(h, k, e, Split(s, ','), map[]);
        if r.Success? then Coerced(MapV(r.value), None) else Coerced(v, Some(r.error))
    case _ => Coerced(v, None)
  }

  /**
   * The slice loop: each piece converted into a fresh zero element, in
   * order, appended to `acc`; the first failure ends it.
   */
  function CoerceAll(h: Hooks, e: FieldType, parts: seq<string>, acc: seq<Value>): Result<seq<Value>, Cause>
    decreases Size(e), 4, |parts|
  {
    if parts == [] then Success(acc)
    else
      var c := Coerce(h, e, Zero(e), parts[0]);
      if c.err.Some? then Failure(c.err.value)
      else CoerceAll(h, e, parts[1..], acc + [c.value])
  }

  /**
   * One pair of a map source: split on ':' into exactly two sides, the key
   * and then the value converted into fresh zero values.
   */
  function CoercePair(h: Hooks, k: FieldType, e: FieldType, p: string): Result<(Value, Value), Cause>
    decreases Size(k) + Size(e), 3
  {
    var kv := Split(p, ':');
    if |kv| != 2 then Failure(InvalidMapItem(p))
    else
      var ck := Coerce(h, k, Zero(k), kv[0]);
      if ck.err.Some? then Failure(ck.err.value)
      else
        var cv := Coerce(h, e, Zero(e), kv[1]);
        if cv.err.Some? then Failure(cv.err.value)
        else Success((ck.value, cv.value))
  }

  /**
   * The map loop: each pair converted and stored in `acc` (a later pair
   * with the same key overwrites an earlier one); the first failure ends it.
   */
  function CoercePairs(h: Hooks, k: FieldType, e: FieldType, pairs: seq<string>, acc: map<Value, Value>)
    : Result<map<Value, Value>, Cause>
    decreases Size(k) + Size(e), 4, |pairs|
  {
    if pairs == [] then Success(acc)
    else
      var c := CoercePair(h, k, e, pairs[0]);
      if c.Failure? then Failure(c.error)
      else CoercePairs(h, k, e, pairs[1..], acc[c.value.0 := c.value.1])
  }

  /** The slice case of the kind switch. */
  lemma SliceConvert(h: Hooks, t: FieldType, e: FieldType, v: Value, s: string)
    requires Kind(t) == SliceT(e)
    ensures var r := CoerceAll(h, e, Split(s, ','), []);
            Convert(h, t, v, s) == if r.Success? then Coerced(SliceV(r.value), None) else Coerced(v, Some(r.error))
  {
  }

  /** The map case of the kind switch. */
  lemma MapConvert(h: Hooks, t: FieldType, k: FieldType, e: FieldType, v: Value, s: string)
    requires Kind(t) == MapT(k, e)
    ensures |TrimSpace(s)| == 0 ==> Convert(h, t, v, s) == Coerced(MapV(map[]), None)
    ensures var r := CoercePairs(h, k, e, Split(s, ','), map[]);
            |TrimSpace(s)| != 0 ==>
              Convert(h, t, v, s) == if r.Success? then Coerced(MapV(r.value), None) else Coerced(v, Some(r.error))
  {
  }

  // ------------------------------------------------------------ the procedure

  /** processField, as the source runs it: dispatch, then one dereference, then the kind switch. */
  method ProcessField(h: Hooks, t: FieldType, v: Value, s: string) returns (r: Value, err: Option<Cause>)
    ensures Coerced(r, err) == Coerce(h, t, v, s)
    decreases Size(t), 3
  {
    if HasSetter(t) {
      var c := Invoke(h.setter, t, v, s);
      return c.value, c.err;
    }
    if HasTextUnmarshaler(t) {
      var c := Invoke(h.unmarshalText, t, v, s);
      return c.value, c.err;
    }
    if Kind(t).PtrT? {
      var typ := Kind(t).target;
      var field := if v.PtrV? then v.pointee else Zero(typ);
      var x;
      x, err := SetByKind(h, typ, field, s);
      r := PtrV(x);
    } else {
      r, err := SetByKind(h, t, v, s);
    }
  }

  /** The kind switch of processField. */
  method SetByKind(h: Hooks, typ: FieldType, field: Value, s: string) returns (r: Value, err: Option<Cause>)
    ensures Coerced(r, err) == Convert(h, typ, field, s)
    decreases Size(typ), 2
  {
    match Kind(typ)
    case SliceT(e) =>
      r, err := SetSlice(h, typ, e, field, s);
    case MapT(k, e) =>
      r, err := SetMap(h, typ, k, e, field, s);
    case _ =>
      var c := Convert(h, typ, field, s);
      r, err := c.value, c.err;
  }

  /** The slice case: split on ',' and fill a fresh slice element by element. */
  method SetSlice(h: Hooks, typ: FieldType, e: FieldType, field: Value, s: string) returns (r: Value, err: Option<Cause>)
    requires Kind(typ) == SliceT(e)
    ensures Coerced(r, err) == Convert(h, typ, field, s)
    decreases Size(typ), 1
  {
    var vals := Split(s, ',');
    var sl := new Value[|vals|](_ => Zero(e));
    var i := 0;
    while i < |vals|
      invariant 0 <= i <= |vals| == sl.Length
      invariant forall j :: i <= j < sl.Length ==> sl[j] == Zero(e)
      invariant CoerceAll(h, e, vals, []) == CoerceAll(h, e, vals[i..], sl[..i])
    {
      var x, xerr := ProcessField(h, e, sl[i], vals[i]);
      if xerr.Some? {
        return field, xerr;
      }
      assert vals[i..][1..] == vals[i + 1..];
      sl[i] := x;
      assert sl[..i + 1] == sl[..i] + [x];
      i := i + 1;
    }
    assert sl[..] == sl[..i];
    return SliceV(sl[..]), None;
  }

  /** The map case: a blank source gives an empty map; otherwise pairs on ',', sides on ':'. */
  method SetMap(h: Hooks, typ: FieldType, k: FieldType, e: FieldType, field: Value, s: string)
    returns (r: Value, err: Option<Cause>)
    requires Kind(typ) == MapT(k, e)
    ensures Coerced(r, err) == Convert(h, typ, field, s)
    decreases Size(typ), 1
  {
    MapConvert(h, typ, k, e, field, s);
    var mp: map<Value, Value> := map[];
    if |TrimSpace(s)| != 0 {
      var pairs := Split(s, ',');
      ghost var spec := CoercePairs(h, k, e, pairs, map[]);
      var i := 0;
      while i < |pairs|
        invariant 0 <= i <= |pairs|
        invariant spec == CoercePairs(h, k, e, pairs[i..], mp)
      {
        CoercePairsNext(h, k, e, pairs, i, mp);
        var c := SetPair(h, k, e, pairs[i]);
        if c.Failure? {
          return field, Some(c.error);
        }
        mp := mp[c.value.0 := c.value.1];
        i := i + 1;
      }
      assert spec == Success(mp);
    }
    return MapV(mp), None;
  }

  /** The body of the map loop: split one pair on ':' and convert its key, then its value. */
  method SetPair(h: Hooks, k: FieldType, e: FieldType, p: string) returns (c: Result<(Value, Value), Cause>)
    ensures c == CoercePair(h, k, e, p)
    decreases Size(k) + Size(e), 2
  {
    var kv := Split(p, ':');
    if |kv| != 2 {
      c := Failure(InvalidMapItem(p));
    } else {
      var key, kerr := ProcessField(h, k, Zero(k), kv[0]);
      if kerr.Some? {
        c := Failure(kerr.value);
      } else {
        var val, verr := ProcessField(h, e, Zero(e), kv[1]);
        c := if verr.Some? then Failure(verr.value) else Success((key, val));
      }
    }
  }

  /** One turn of the map loop, from the pair at index `i`. */
  lemma CoercePairsNext(h: Hooks, k: FieldType, e: FieldType, pairs: seq<string>, i: nat, acc: map<Value, Value>)
    requires i < |pairs|
    ensures var c := CoercePair(h, k, e, pairs[i]);
            CoercePairs(h, k, e, pairs[i..], acc) ==
              if c.Failure? then Failure(c.error) else CoercePairs(h, k, e, pairs[i + 1..], acc[c.value.0 := c.value.1])
  {
    assert pairs[i..][0] == pairs[i] && pairs[i..][1..] == pairs[i + 1..];
  }

  // ------------------------------------------------------------ properties

  /** Whether one piece of a slice source converts without error. */
  predicate ElemOK(h: Hooks, e: FieldType, p: string)
  {
    Coerce(h, e, Zero(e), p).err.None?
  }

  /**
   * The slice loop succeeds exactly when every piece converts; it then holds
   * one element per piece, in order, after what it started with; otherwise
   * it fails with the error of the first piece that does not convert.
   */
  lemma CoerceAllShape(h: Hooks, e: FieldType, parts: seq<string>, acc: seq<Value>)
    ensures var r := CoerceAll(h, e, parts, acc);
      && (r.Success? <==> forall i :: 0 <= i < |parts| ==> ElemOK(h, e, parts[i]))
      && (r.Success? ==>
            && |r.value| == |acc| + |parts| && r.value[..|acc|] == acc
            && forall i :: 0 <= i < |parts| ==> r.value[|acc| + i] == Coerce(h, e, Zero(e), parts[i]).value)
      && (r.Failure? ==>
            exists j :: 0 <= j < |parts| && Coerce(h, e, Zero(e), parts[j]).err == Some(r.error)
                        && forall i :: 0 <= i < j ==> ElemOK(h, e, parts[i]))
  {
    CoerceAllSucceeds(h, e, parts, acc);
    if CoerceAll(h, e, parts, acc).Success? {
      CoerceAllValues(h, e, parts, acc);
    } else {
      CoerceAllFails(h, e, parts, acc);
    }
  }

  /** The slice loop succeeds exactly when every piece converts. */
  lemma {:induction false} CoerceAllSucceeds(h: Hooks, e: FieldType, parts: seq<string>, acc: seq<Value>)
    ensures CoerceAll(h, e, parts, acc).Success? <==> forall i :: 0 <= i < |parts| ==> ElemOK(h, e, parts[i])
    decreases |parts|
  {
    if parts != [] {
      var c := Coerce(h, e, Zero(e), parts[0]);
      if c.err.None? {
        CoerceAllSucceeds(h, e, parts[1..], acc + [c.value]);
        assert forall i :: 1 <= i < |parts| ==> parts[1..][i - 1] == parts[i];
      }
    }
  }

  /** One turn of the slice loop. */
  lemma CoerceAllStep(h: Hooks, e: FieldType, parts: seq<string>, acc: seq<Value>)
    requires parts != []
    ensures ElemOK(h, e, parts[0]) ==>
              CoerceAll(h, e, parts, acc) == CoerceAll(h, e, parts[1..], acc + [Coerce(h, e, Zero(e), parts[0]).value])
    ensures !ElemOK(h, e, parts[0]) ==> CoerceAll(h, e, parts, acc) == Failure(Coerce(h, e, Zero(e), parts[0]).err.value)
  {
  }

  /** A sequence that starts with `acc + [x]` starts with `acc`, followed by `x`. */
  lemma PrefixSplit<T>(r: seq<T>, acc: seq<T>, x: T)
    requires |acc| < |r| && r[..|acc| + 1] == acc + [x]
    ensures r[..|acc|] == acc && r[|acc|] == x
  {
    assert r[..|acc|] == r[..|acc| + 1][..|acc|];
    assert r[|acc|] == r[..|acc| + 1][|acc|];
  }

  /** A successful slice loop appends one converted element per piece, in order. */
  lemma CoerceAllValues(h: Hooks, e: FieldType, parts: seq<string>, acc: seq<Value>)
    requires CoerceAll(h, e, parts, acc).Success?
    ensures var r := CoerceAll(h, e, parts, acc);
            && |r.value| == |acc| + |parts| && r.value[..|acc|] == acc
            && forall i :: 0 <= i < |parts| ==> r.value[|acc| + i] == Coerce(h, e, Zero(e), parts[i]).value
  {
    CoerceAllPrefix(h, e, parts, acc);
    forall i | 0 <= i < |parts|
      ensures CoerceAll(h, e, parts, acc).value[|acc| + i] == Coerce(h, e, Zero(e), parts[i]).value
    {
      CoerceAllAt(h, e, parts, acc, i);
    }
  }

  /** A successful slice loop keeps what it started with and adds one element per piece. */
  lemma {:induction false} CoerceAllPrefix(h: Hooks, e: FieldType, parts: seq<string>, acc: seq<Value>)
    requires CoerceAll(h, e, parts, acc).Success?
    ensures var r := CoerceAll(h, e, parts, acc).value; |r| == |acc| + |parts| && r[..|acc|] == acc
    decreases |parts|
  {
    if parts != [] {
      CoerceAllStep(h, e, parts, acc);
      var x := Coerce(h, e, Zero(e), parts[0]).value;
      CoerceAllPrefix(h, e, parts[1..], acc + [x]);
      PrefixSplit(CoerceAll(h, e, parts[1..], acc + [x]).value, acc, x);
    }
  }

  /** After a successful slice loop, the element for piece `i` is that piece converted. */
  lemma {:induction false} CoerceAllAt(h: Hooks, e: FieldType, parts: seq<string>, acc: seq<Value>, i: nat)
    requires CoerceAll(h, e, parts, acc).Success? && i < |parts|
    ensures var r := CoerceAll(h, e, parts, acc).value; |acc| + i < |r| && r[|acc| + i] == Coerce(h, e, Zero(e), parts[i]).value
    decreases |parts|
  {
    CoerceAllStep(h, e, parts, acc);
    var x := Coerce(h, e, Zero(e), parts[0]).value;
    var acc' := acc + [x];
    assert CoerceAll(h, e, parts, acc) == CoerceAll(h, e, parts[1..], acc');
    if i == 0 {
      CoerceAllPrefix(h, e, parts[1..], acc');
      PrefixSplit(CoerceAll(h, e, parts[1..], acc').value, acc, x);
    } else {
      CoerceAllAt(h, e, parts[1..], acc', i - 1);
      assert |acc'| + (i - 1) == |acc| + i;
      assert parts[1..][i - 1] == parts[i];
    }
  }

  /** A failed slice loop carries the error of the first piece that does not convert. */
  lemma {:induction false} CoerceAllFails(h: Hooks, e: FieldType, parts: seq<string>, acc: seq<Value>)
    requires CoerceAll(h, e, parts, acc).Failure?
    ensures var r := CoerceAll(h, e, parts, acc);
            exists j :: 0 <= j < |parts| && Coerce(h, e, Zero(e), parts[j]).err == Some(r.error)
                        && forall i :: 0 <= i < j ==> ElemOK(h, e, parts[i])
    decreases |parts|
  {
    var r := CoerceAll(h, e, parts, acc);
    CoerceAllStep(h, e, parts, acc);
    if ElemOK(h, e, parts[0]) {
      var acc' := acc + [Coerce(h, e, Zero(e), parts[0]).value];
      CoerceAllFails(h, e, parts[1..], acc');
      var j :| 0 <= j < |parts[1..]| && Coerce(h, e, Zero(e), parts[1..][j]).err == Some(r.error)
               && forall i :: 0 <= i < j ==> ElemOK(h, e, parts[1..][i]);
      assert parts[1..][j] == parts[j + 1];
      assert forall i :: 1 <= i < j + 1 ==> parts[1..][i - 1] == parts[i];
    }
  }

  /**
   * A slice field: every piece of the comma split is converted into a zero
   * element, so the slice has one more element than the source has commas
   * (an empty source gives one element), in source order, and is assigned
   * only when every element converts; otherwise the field keeps its value.
   */
  lemma SliceCoercion(h: Hooks, t: FieldType, e: FieldType, v: Value, s: string)
    requires !HasSetter(t) && !HasTextUnmarshaler(t) && Kind(t) == SliceT(e)
    ensures var parts := Split(s, ','); var c := Coerce(h, t, v, s);
      && (c.err.None? <==> forall i :: 0 <= i < |parts| ==> ElemOK(h, e, parts[i]))
      && (c.err.None? ==>
            && c.value.SliceV? && |c.value.elems| == |parts| == Count(s, ',') + 1
            && forall i :: 0 <= i < |parts| ==> c.value.elems[i] == Coerce(h, e, Zero(e), parts[i]).value)
      && (c.err.Some? ==> c.value == v)
  {
    CoerceAllShape(h, e, Split(s, ','), []);
    SplitCount(s, ',');
  }

  /** Whether one pair of a map source has two sides that both convert. */
  predicate PairOK(h: Hooks, k: FieldType, e: FieldType, p: string)
  {
    CoercePair(h, k, e, p).Success?
  }

  /** The key a well-formed pair stores. */
  function PairKey(h: Hooks, k: FieldType, p: string): Value
    requires |Split(p, ':')| == 2
  {
    Coerce(h, k, Zero(k), Split(p, ':')[0]).value
  }

  /** The value a well-formed pair stores. */
  function PairValue(h: Hooks, e: FieldType, p: string): Value
    requires |Split(p, ':')| == 2
  {
    Coerce(h, e, Zero(e), Split(p, ':')[1]).value
  }

  /**
   * A pair converts exactly when it has two sides that both convert, and
   * then stores its key and value; a pair without two sides fails with
   * InvalidMapItem.
   */
  lemma PairShape(h: Hooks, k: FieldType, e: FieldType, p: string)
    ensures PairOK(h, k, e, p) <==> |Split(p, ':')| == 2 && ElemOK(h, k, Split(p, ':')[0]) && ElemOK(h, e, Split(p, ':')[1])
    ensures PairOK(h, k, e, p) ==> CoercePair(h, k, e, p).value == (PairKey(h, k, p), PairValue(h, e, p))
    ensures |Split(p, ':')| != 2 ==> CoercePair(h, k, e, p) == Failure(InvalidMapItem(p))
  {
    if |Split(p, ':')| == 2 {
      PairConverts(h, k, e, p);
    }
  }

  /** A pair with two sides converts exactly when both sides do, into its key and value. */
  lemma PairConverts(h: Hooks, k: FieldType, e: FieldType, p: string)
    requires |Split(p, ':')| == 2
    ensures CoercePair(h, k, e, p).Success? <==> ElemOK(h, k, Split(p, ':')[0]) && ElemOK(h, e, Split(p, ':')[1])
    ensures CoercePair(h, k, e, p).Success? ==> CoercePair(h, k, e, p).value == (PairKey(h, k, p), PairValue(h, e, p))
  {
  }

  /** One turn of the map loop. */
  lemma CoercePairsStep(h: Hooks, k: FieldType, e: FieldType, pairs: seq<string>, acc: map<Value, Value>)
    requires pairs != []
    ensures PairOK(h, k, e, pairs[0]) ==>
              CoercePairs(h, k, e, pairs, acc) == CoercePairs(h, k, e, pairs[1..], acc[PairKey(h, k, pairs[0]) := PairValue(h, e, pairs[0])])
    ensures !PairOK(h, k, e, pairs[0]) ==> CoercePairs(h, k, e, pairs, acc).Failure?
    ensures |Split(pairs[0], ':')| != 2 ==> CoercePairs(h, k, e, pairs, acc) == Failure(InvalidMapItem(pairs[0]))
  {
    PairShape(h, k, e, pairs[0]);
  }

  /** The map loop succeeds exactly when every pair is well formed and converts. */
  lemma {:induction false} CoercePairsSucceeds(h: Hooks, k: FieldType, e: FieldType, pairs: seq<string>, acc: map<Value, Value>)
    ensures CoercePairs(h, k, e, pairs, acc).Success? <==> forall i :: 0 <= i < |pairs| ==> PairOK(h, k, e, pairs[i])
    decreases |pairs|
  {
    if pairs != [] {
      CoercePairsStep(h, k, e, pairs, acc);
      assert forall i :: 1 <= i < |pairs| ==> pairs[1..][i - 1] == pairs[i];
      if PairOK(h, k, e, pairs[0]) {
        CoercePairsSucceeds(h, k, e, pairs[1..], acc[PairKey(h, k, pairs[0]) := PairValue(h, e, pairs[0])]);
      }
    }
  }

  /** When the map loop succeeds, every pair's key is in the map. */
  lemma {:induction false} CoercePairsKeys(h: Hooks, k: FieldType, e: FieldType, pairs: seq<string>, acc: map<Value, Value>)
    requires CoercePairs(h, k, e, pairs, acc).Success?
    ensures forall i :: 0 <= i < |pairs| ==>
              |Split(pairs[i], ':')| == 2 && PairKey(h, k, pairs[i]) in CoercePairs(h, k, e, pairs, acc).value
    ensures acc.Keys <= CoercePairs(h, k, e, pairs, acc).value.Keys
    decreases |pairs|
  {
    if pairs != [] {
      CoercePairsStep(h, k, e, pairs, acc);
      var tail := pairs[1..];
      CoercePairsKeys(h, k, e, tail, acc[PairKey(h, k, pairs[0]) := PairValue(h, e, pairs[0])]);
      assert forall i :: 1 <= i < |pairs| ==> tail[i - 1] == pairs[i];
    }
  }

  /** When the map loop succeeds, the last pair with a given key decides its value. */
  lemma {:induction false} CoercePairsLastWins(h: Hooks, k: FieldType, e: FieldType, pairs: seq<string>, acc: map<Value, Value>, i: nat)
    requires CoercePairs(h, k, e, pairs, acc).Success?
    requires i < |pairs| && |Split(pairs[i], ':')| == 2
    requires forall j :: i < j < |pairs| && |Split(pairs[j], ':')| == 2 ==> PairKey(h, k, pairs[j]) != PairKey(h, k, pairs[i])
    ensures var m := CoercePairs(h, k, e, pairs, acc).value;
      PairKey(h, k, pairs[i]) in m && m[PairKey(h, k, pairs[i])] == PairValue(h, e, pairs[i])
    decreases |pairs|
  {
    CoercePairsStep(h, k, e, pairs, acc);
    var tail := pairs[1..];
    var acc' := acc[PairKey(h, k, pairs[0]) := PairValue(h, e, pairs[0])];
    if i > 0 {
      assert tail[i - 1] == pairs[i];
      assert forall j :: i - 1 < j < |tail| ==> tail[j] == pairs[j + 1];
      CoercePairsLastWins(h, k, e, tail, acc', i - 1);
    } else {
      CoercePairsKeep(h, k, e, tail, acc', PairKey(h, k, pairs[0]));
    }
  }

  /** A key that no later pair mentions keeps the value it had before the loop. */
  lemma {:induction false} CoercePairsKeep(h: Hooks, k: FieldType, e: FieldType, pairs: seq<string>, acc: map<Value, Value>, x: Value)
    requires CoercePairs(h, k, e, pairs, acc).Success? && x in acc
    requires forall j :: 0 <= j < |pairs| && |Split(pairs[j], ':')| == 2 ==> PairKey(h, k, pairs[j]) != x
    ensures var m := CoercePairs(h, k, e, pairs, acc).value; x in m && m[x] == acc[x]
    decreases |pairs|
  {
    if pairs != [] {
      CoercePairsStep(h, k, e, pairs, acc);
      var tail := pairs[1..];
      assert forall j :: 0 <= j < |tail| ==> tail[j] == pairs[j + 1];
      CoercePairsKeep(h, k, e, tail, acc[PairKey(h, k, pairs[0]) := PairValue(h, e, pairs[0])], x);
    }
  }

  /** When the map loop succeeds, every key in the map was there before or comes from a pair. */
  lemma {:induction false} CoercePairsOnly(h: Hooks, k: FieldType, e: FieldType, pairs: seq<string>, acc: map<Value, Value>)
    requires CoercePairs(h, k, e, pairs, acc).Success?
    ensures forall x :: x in CoercePairs(h, k, e, pairs, acc).value ==>
              x in acc || exists i :: 0 <= i < |pairs| && |Split(pairs[i], ':')| == 2 && PairKey(h, k, pairs[i]) == x
    decreases |pairs|
  {
    if pairs != [] {
      CoercePairsStep(h, k, e, pairs, acc);
      var tail := pairs[1..];
      var acc' := acc[PairKey(h, k, pairs[0]) := PairValue(h, e, pairs[0])];
      CoercePairsOnly(h, k, e, tail, acc');
      forall x | x in CoercePairs(h, k, e, pairs, acc).value
        ensures x in acc || exists i :: 0 <= i < |pairs| && |Split(pairs[i], ':')| == 2 && PairKey(h, k, pairs[i]) == x
      {
        if x !in acc' {
          var i :| 0 <= i < |tail| && |Split(tail[i], ':')| == 2 && PairKey(h, k, tail[i]) == x;
          assert tail[i] == pairs[i + 1];
        } else if x !in acc {
          assert PairKey(h, k, pairs[0]) == x;
        }
      }
    }
  }

  /** A pair that does not split into exactly two sides fails the map loop, unless an earlier pair failed first. */
  lemma {:induction false} CoercePairsInvalidItem(h: Hooks, k: FieldType, e: FieldType, pairs: seq<string>, acc: map<Value, Value>, j: nat)
    requires j < |pairs| && |Split(pairs[j], ':')| != 2
    requires forall i :: 0 <= i < j ==> PairOK(h, k, e, pairs[i])
    ensures CoercePairs(h, k, e, pairs, acc) == Failure(InvalidMapItem(pairs[j]))
    decreases j
  {
    if j > 0 {
      assert PairOK(h, k, e, pairs[0]);
      CoercePairsStep(h, k, e, pairs, acc);
      var tail := pairs[1..];
      assert forall i :: 0 <= i < j - 1 ==> tail[i] == pairs[i + 1];
      CoercePairsInvalidItem(h, k, e, tail, acc[PairKey(h, k, pairs[0]) := PairValue(h, e, pairs[0])], j - 1);
    }
  }

  /**
   * A map field: a source of white space only gives an empty, non-nil map.
   * Otherwise it is split into pairs on ',' and each pair on ':'; the field
   * is assigned only when every pair converts, and a pair without exactly one
   * ':' fails with InvalidMapItem unless an earlier pair failed first.
   */
  lemma MapCoercion(h: Hooks, t: FieldType, k: FieldType, e: FieldType, v: Value, s: string)
    requires !HasSetter(t) && !HasTextUnmarshaler(t) && Kind(t) == MapT(k, e)
    ensures var c := Coerce(h, t, v, s); var pairs := Split(s, ',');
      && (AllSpace(s) ==> c == Coerced(MapV(map[]), None))
      && (!AllSpace(s) ==>
            && (c.err.None? <==> forall i :: 0 <= i < |pairs| ==> PairOK(h, k, e, pairs[i]))
            && (c.err.None? ==> c.value.MapV? && forall i :: 0 <= i < |pairs| ==> PairKey(h, k, pairs[i]) in c.value.entries)
            && (forall j :: 0 <= j < |pairs| && |Split(pairs[j], ':')| != 2 && (forall i :: 0 <= i < j ==> PairOK(h, k, e, pairs[i]))
                  ==> c == Coerced(v, Some(InvalidMapItem(pairs[j])))))
      && (c.err.Some? ==> c.value == v)
  {
    TrimSpaceEmpty(s);
    var pairs := Split(s, ',');
    CoercePairsSucceeds(h, k, e, pairs, map[]);
    assert Coerce(h, t, v, s) == Convert(h, t, v, s);
    MapConvert(h, t, k, e, v, s);
    if CoercePairs(h, k, e, pairs, map[]).Success? {
      CoercePairsKeys(h, k, e, pairs, map[]);
    }
    forall j | 0 <= j < |pairs| && |Split(pairs[j], ':')| != 2 && (forall i :: 0 <= i < j ==> PairOK(h, k, e, pairs[i]))
      ensures CoercePairs(h, k, e, pairs, map[]) == Failure(InvalidMapItem(pairs[j]))
    {
      CoercePairsInvalidItem(h, k, e, pairs, map[], j);
    }
  }

  /** An unsigned field given a signed number fails with a syntax error and keeps its value. */
  lemma UnsignedRejectsSign(h: Hooks, t: FieldType, w: IntWidth, v: Value, s: string)
    requires !HasSetter(t) && !HasTextUnmarshaler(t) && Kind(t) == UintT(w)
    requires s != [] && (s[0] == '-' || s[0] == '+')
    ensures Coerce(h, t, v, s) == Coerced(v, Some(Num(NumError("ParseUint", s, ErrSyntax))))
  {
  }

  /**
   * The kinds the switch does not list (structs, interfaces, arrays,
   * channels, functions, ...) are left as they are, without an error.
   */
  predicate Unlisted(t: FieldType)
  {
    var k := Kind(t);
    k.StructT? || k.OtherT?
  }

  /** processField on a location of an unlisted kind changes nothing and returns nil. */
  lemma UnlistedKind(h: Hooks, t: FieldType, v: Value, s: string)
    requires !HasSetter(t) && !HasTextUnmarshaler(t) && Unlisted(t)
    ensures Coerce(h, t, v, s) == Coerced(v, None)
  {
  }

  /**
   * Through a pointer to an unlisted kind, or to another pointer, processField
   * only allocates a nil pointer's zero pointee, and returns nil.
   */
  lemma UnlistedPointee(h: Hooks, t: FieldType, v: Value, s: string)
    requires !HasSetter(t) && !HasTextUnmarshaler(t) && Kind(t).PtrT?
    requires Unlisted(Kind(t).target) || Kind(Kind(t).target).PtrT?
    ensures Coerce(h, t, v, s) == Coerced(PtrV(if v.PtrV? then v.pointee else Zero(Kind(t).target)), None)
    ensures v.PtrV? ==> Coerce(h, t, v, s) == Coerced(v, None)
  {
  }

  // ------------------------------------------------------------------ typing

  /** With hooks that respect types, a converted location still has its type. */
  lemma {:induction false} CoerceTyped(h: Hooks, t: FieldType, v: Value, s: string)
    requires Typed(h) && HasType(v, t)
    ensures HasType(Coerce(h, t, v, s).value, t)
    decreases Size(t), 3
  {
    if HasSetter(t) || HasTextUnmarshaler(t) {
      InvokeTyped(h, t, v, s);
    } else if Kind(t).PtrT? {
      PointerTyped(h, t, v, s);
    } else {
      ConvertTyped(h, t, v, s);
    }
  }

  /** The dereferencing case: the pointee, or a fresh zero value, is converted under the pointer. */
  lemma PointerTyped(h: Hooks, t: FieldType, v: Value, s: string)
    requires Typed(h) && HasType(v, t) && !HasSetter(t) && !HasTextUnmarshaler(t) && Kind(t).PtrT?
    ensures HasType(Coerce(h, t, v, s).value, t)
    decreases Size(t), 2
  {
    var e := Kind(t).target;
    KindTyped(v, t);
    ZeroTyped(e);
    ConvertTyped(h, e, if v.PtrV? then v.pointee else Zero(e), s);
    KindTyped(Coerce(h, t, v, s).value, t);
  }

  lemma InvokeTyped(h: Hooks, t: FieldType, v: Value, s: string)
    requires Typed(h) && HasType(v, t) && (HasSetter(t) || HasTextUnmarshaler(t))
    ensures HasType(Coerce(h, t, v, s).value, t)
  {
    if t.PtrT? && v.PtrV? {
      if HasSetter(t) {
        assert HasType(h.setter(t.target, Some(v.pointee), s).recv, t.target);
      } else {
        assert HasType(h.unmarshalText(t.target, Some(v.pointee), s).recv, t.target);
      }
    }
  }

  lemma {:induction false} ConvertTyped(h: Hooks, t: FieldType, v: Value, s: string)
    requires Typed(h) && HasType(v, t)
    ensures HasType(Convert(h, t, v, s).value, t)
    decreases Size(t), 2
  {
    var c := Convert(h, t, v, s);
    KindTyped(v, t);
    KindTyped(c.value, t);
    match Kind(t)
    case SliceT(e) =>
      SliceConvert(h, t, e, v, s);
      CoerceAllTyped(h, e, Split(s, ','), []);
    case MapT(k, e) =>
      MapConvert(h, t, k, e, v, s);
      CoercePairsTyped(h, k, e, Split(s, ','), map[]);
    case _ =>
      ScalarConvertTyped(h, t, v, s);
  }

  lemma ScalarConvertTyped(h: Hooks, t: FieldType, v: Value, s: string)
    requires Typed(h) && HasType(v, Kind(t)) && !Kind(t).SliceT? && !Kind(t).MapT?
    ensures HasType(Convert(h, t, v, s).value, Kind(t))
  {
    match Kind(t)
    case IntT(w) =>
      assert h.parseDuration(s).Success? ==> InBits(h.parseDuration(s).value, 64);
    case FloatT(w) =>
      assert h.parseFloat(s, w.Bits()).Success? ==> h.parseFloat(s, w.Bits()).value < Pow2(w.Bits());
    case _ =>
  }

  lemma {:induction false} CoerceAllTyped(h: Hooks, e: FieldType, parts: seq<string>, acc: seq<Value>)
    requires Typed(h) && forall x :: x in acc ==> HasType(x, e)
    ensures var r := CoerceAll(h, e, parts, acc); r.Success? ==> forall x :: x in r.value ==> HasType(x, e)
    decreases Size(e), 4, |parts|
  {
    if parts != [] {
      var c := Coerce(h, e, Zero(e), parts[0]);
      if c.err.None? {
        ZeroTyped(e);
        CoerceTyped(h, e, Zero(e), parts[0]);
        CoerceAllTyped(h, e, parts[1..], acc + [c.value]);
      }
    }
  }

  lemma CoercePairTyped(h: Hooks, k: FieldType, e: FieldType, p: string)
    requires Typed(h)
    ensures var c := CoercePair(h, k, e, p); c.Success? ==> HasType(c.value.0, k) && HasType(c.value.1, e)
    decreases Size(k) + Size(e), 3
  {
    var kv := Split(p, ':');
    if |kv| == 2 {
      ZeroTyped(k);
      ZeroTyped(e);
      CoerceTyped(h, k, Zero(k), kv[0]);
      CoerceTyped(h, e, Zero(e), kv[1]);
    }
  }

  lemma {:induction false} CoercePairsTyped(h: Hooks, k: FieldType, e: FieldType, pairs: seq<string>, acc: map<Value, Value>)
    requires Typed(h) && forall x :: x in acc ==> HasType(x, k) && HasType(acc[x], e)
    ensures var r := CoercePairs(h, k, e, pairs, acc);
      r.Success? ==> forall x :: x in r.value ==> HasType(x, k) && HasType(r.value[x], e)
    decreases Size(k) + Size(e), 4, |pairs|
  {
    if pairs != [] {
      var c := CoercePair(h, k, e, pairs[0]);
      if c.Success? {
        CoercePairTyped(h, k, e, pairs[0]);
        CoercePairsTyped(h, k, e, pairs[1..], acc[c.value.0 := c.value.1]);
      }
    }
  }
}
