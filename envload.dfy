/**
 * Load (env/envvars.go): gathers the descriptors, then binds them one by
 * one in declaration order. A field's string comes from the variable under
 * its key, else from the variable under its upper-cased alias, else from a
 * non-empty `default` tag. A field with none of the three is skipped,
 * unless its `require` tag is true, which ends Load with an error. The
 * string is converted into the field's location; a failed conversion ends
 * Load with a ParseError. Fields bound before an error keep their values.
 */
module EnvLoad {
  import opened Wrappers
  import opened GoText
  import opened GoTypes
  import opened EnvCoerce
  import opened Env
  import opened EnvGather

  /** The process environment, as os.LookupEnv sees it. */
  type Environ = map<string, string>

  /**
   * The string a descriptor is bound from, in order of precedence: the
   * variable under the key (even when it is empty), the variable under the
   * alias, a non-empty default. None when none of them gives one.
   */
  function Resolve(env: Environ, d: Descriptor): Option<string>
  {
    if d.key in env then Some(env[d.key])
    else if d.alt != "" && d.alt in env then Some(env[d.alt])
    else if Tag(d.tags, Default) != "" then Some(Tag(d.tags, Default))
    else None
  }

  /** The struct's slots after binding, and the error Load returns, if any. */
  datatype Bound = Bound(vals: seq<Value>, err: Option<BindError>)

  /** One iteration of Load's loop, for descriptor `d`. */
  function BindOne(h: Hooks, env: Environ, d: Descriptor, vals: seq<Value>): (b: Bound)
    requires d.index < |vals|
    ensures |b.vals| == |vals|
    ensures forall i :: 0 <= i < |vals| && i != d.index ==> b.vals[i] == vals[i]
  {
    match Resolve(env, d)
    case None =>
      if IsTrue(Tag(d.tags, Require)) then Bound(vals, Some(MissingRequired(d.key))) else Bound(vals, None)
    case Some(s) =>
      var slot := vals[d.index];
      var c := Coerce(h, d.typ, At(slot, d.depth), s);
      var vals' := vals[d.index := Put(slot, d.depth, c.value)];
      if c.err.Some? then Bound(vals', Some(ParseError(d.key, d.name, TypeString(d.typ), s, c.err.value)))
      else Bound(vals', None)
  }

  /** Whether every descriptor locates a slot of `vals`. */
  predicate Locates(ds: seq<Descriptor>, vals: seq<Value>)
  {
    forall j :: 0 <= j < |ds| ==> ds[j].index < |vals|
  }

  /** Load's loop over the first `n` descriptors; the first error ends it. */
  function BindUpTo(h: Hooks, env: Environ, ds: seq<Descriptor>, vals: seq<Value>, n: nat): (b: Bound)
    requires n <= |ds| && Locates(ds, vals)
    ensures |b.vals| == |vals|
    decreases n
  {
    if n == 0 then Bound(vals, None)
    else
      var b := BindUpTo(h, env, ds, vals, n - 1);
      if b.err.Some? then b else BindOne(h, env, ds[n - 1], b.vals)
  }

  /** Load on a struct whose fields are `decls` and whose slots hold `vals`. */
  function LoadSpec(h: Hooks, env: Environ, prefix: string, decls: seq<FieldDecl>, vals: seq<Value>): Bound
    requires |decls| == |vals|
  {
    var g := GatherSpec(prefix, decls, vals);
    if g.result.Failure? then Bound(g.vals, Some(g.result.error))
    else
      GatherLocates(prefix, decls, vals, |decls|);
      BindUpTo(h, env, g.result.value, g.vals, |g.result.value|)
  }

  /** Load: gatherInfo, then the binding loop. */
  method Load(prefix: string, target: Target, env: Environ, h: Hooks) returns (err: Option<BindError>)
    requires target.StructPtr? ==> target.rec.Shaped()
    modifies Footprint(target)
    ensures prefix == "" ==> err == Some(NeedPrefix)
    ensures prefix != "" && !target.StructPtr? ==> err == Some(BadSpec)
    ensures target.StructPtr? ==>
              Bound(target.rec.slots[..], err) == LoadSpec(h, env, prefix, target.rec.decls, old(target.rec.slots[..]))
    ensures target.StructPtr? && Typed(h) && old(target.rec.Valid()) ==> target.rec.Valid()
  {
    if target.StructPtr? {
      LoadKeepsTypes(h, env, prefix, target.rec.decls, target.rec.slots[..]);
    }
    var infos := Gather(prefix, target);
    if infos.Failure? {
      // gatherInfo returned no descriptors: the loop is empty and its error is returned
      return Some(infos.error);
    }
    var rec := target.rec;
    GatherLocates(prefix, rec.decls, old(rec.slots[..]), |rec.decls|);
    err := BindAll(h, env, rec, infos.value);
  }

  /** Load's loop: bind the descriptors in order until one fails. */
  method BindAll(h: Hooks, env: Environ, rec: Record, descs: seq<Descriptor>) returns (err: Option<BindError>)
    requires Locates(descs, rec.slots[..])
    modifies rec.slots
    ensures Bound(rec.slots[..], err) == BindUpTo(h, env, descs, old(rec.slots[..]), |descs|)
  {
    ghost var start := rec.slots[..];
    var k := 0;
    while k < |descs|
      invariant 0 <= k <= |descs|
      invariant BindUpTo(h, env, descs, start, k) == Bound(rec.slots[..], None)
    {
      var e := BindField(h, env, rec, descs[k]);
      if e.Some? {
        BindStops(h, env, descs, start, k + 1, |descs|);
        return e;
      }
      k := k + 1;
    }
    return None;
  }

  /**
   * The body of Load's loop: look the key up, then the alias; fall back on
   * the default; enforce `require`; convert into the field's location.
   */
  method BindField(h: Hooks, env: Environ, rec: Record, info: Descriptor) returns (err: Option<BindError>)
    requires info.index < rec.slots.Length
    modifies rec.slots
    ensures Bound(rec.slots[..], err) == BindOne(h, env, info, old(rec.slots[..]))
  {
    var value := "";
    var ok := false;
    if info.key in env {
      value, ok := env[info.key], true;
    }
    if !ok && info.alt != "" && info.alt in env {
      value, ok := env[info.alt], true;
    }
    var def := Tag(info.tags, Default);
    if def != "" && !ok {
      value := def;
    }
    var req := Tag(info.tags, Require);
    if !ok && def == "" {
      if IsTrue(req) {
        return Some(MissingRequired(info.key));
      }
      return None;
    }
    assert Resolve(env, info) == Some(value);
    var slot := rec.slots[info.index];
    var x, perr := ProcessField(h, info.typ, At(slot, info.depth), value);
    rec.slots[info.index] := Put(slot, info.depth, x);
    if perr.Some? {
      return Some(ParseError(info.key, info.name, TypeString(info.typ), value, perr.value));
    }
    return None;
  }

  // ------------------------------------------------------------ properties

  /** Once a descriptor fails, the descriptors after it are not visited. */
  lemma {:induction false} BindStops(h: Hooks, env: Environ, ds: seq<Descriptor>, vals: seq<Value>, n: nat, m: nat)
    requires n <= m <= |ds| && Locates(ds, vals)
    requires BindUpTo(h, env, ds, vals, n).err.Some?
    ensures BindUpTo(h, env, ds, vals, m) == BindUpTo(h, env, ds, vals, n)
    decreases m
  {
    if n < m {
      BindStops(h, env, ds, vals, n, m - 1);
      BindSkips(h, env, ds, vals, m);
    }
  }

  /** One turn of Load's loop after an error changes nothing. */
  lemma BindSkips(h: Hooks, env: Environ, ds: seq<Descriptor>, vals: seq<Value>, n: nat)
    requires 0 < n <= |ds| && Locates(ds, vals)
    requires BindUpTo(h, env, ds, vals, n - 1).err.Some?
    ensures BindUpTo(h, env, ds, vals, n) == BindUpTo(h, env, ds, vals, n - 1)
  {
  }

  /** Whether two environments give the same answer for one variable. */
  predicate Agree(env1: Environ, env2: Environ, k: string)
  {
    (k in env1 <==> k in env2) && (k in env1 ==> env1[k] == env2[k])
  }

  /** Only the key and the alias are ever consulted for a descriptor. */
  lemma ResolveLocal(env1: Environ, env2: Environ, d: Descriptor)
    requires Agree(env1, env2, d.key) && (d.alt != "" ==> Agree(env1, env2, d.alt))
    ensures Resolve(env1, d) == Resolve(env2, d)
  {
  }

  /** A field stays unresolved exactly when neither variable is set and the default is empty. */
  lemma ResolveUnset(env: Environ, d: Descriptor)
    ensures Resolve(env, d).None? <==>
              d.key !in env && (d.alt == "" || d.alt !in env) && Tag(d.tags, Default) == ""
  {
  }

  /**
   * An unresolved field is left alone, unless `require` is true, which ends
   * Load with MissingRequired (not a ParseError) and no change either.
   * A non-empty default always resolves, so `require` never fires beside it.
   */
  lemma Unresolved(h: Hooks, env: Environ, d: Descriptor, vals: seq<Value>)
    requires d.index < |vals|
    ensures Resolve(env, d).None? ==>
              BindOne(h, env, d, vals) == Bound(vals, if IsTrue(Tag(d.tags, Require)) then Some(MissingRequired(d.key)) else None)
    ensures Tag(d.tags, Default) != "" ==> !BindOne(h, env, d, vals).err.Some? || !BindOne(h, env, d, vals).err.value.MissingRequired?
  {
  }

  /**
   * A resolved string is converted into the field's location, which then
   * holds the converted value; a failed conversion is reported as a
   * ParseError carrying the key, the field's name, the location's type
   * name, the raw string and the cause.
   */
  lemma {:induction false} Resolved(h: Hooks, env: Environ, d: Descriptor, vals: seq<Value>, s: string)
    requires d.index < |vals| && Reaches(vals[d.index], d.depth)
    requires Resolve(env, d) == Some(s)
    ensures var c := Coerce(h, d.typ, At(vals[d.index], d.depth), s);
            var b := BindOne(h, env, d, vals);
            && Reaches(b.vals[d.index], d.depth)
            && At(b.vals[d.index], d.depth) == c.value
            && b.err == if c.err.Some? then Some(ParseError(d.key, d.name, TypeString(d.typ), s, c.err.value)) else None
  {
  }

  /**
   * A scalar field whose string does not parse keeps its prior value, and
   * the struct is unchanged.
   */
  lemma ParseFailureKeepsValue(h: Hooks, env: Environ, d: Descriptor, vals: seq<Value>, s: string)
    requires d.index < |vals| && Reaches(vals[d.index], d.depth)
    requires Resolve(env, d) == Some(s)
    requires !HasSetter(d.typ) && !HasTextUnmarshaler(d.typ) && !Kind(d.typ).PtrT?
    requires Coerce(h, d.typ, At(vals[d.index], d.depth), s).err.Some?
    ensures BindOne(h, env, d, vals).vals == vals
    ensures BindOne(h, env, d, vals).err.Some? && BindOne(h, env, d, vals).err.value.ParseError?
  {
    PutAt(vals[d.index], d.depth);
  }

  /** A resolved value for a field of an unlisted kind is accepted and changes nothing. */
  lemma UnlistedKept(h: Hooks, env: Environ, d: Descriptor, vals: seq<Value>)
    requires d.index < |vals| && Resolve(env, d).Some?
    requires !HasSetter(d.typ) && !HasTextUnmarshaler(d.typ) && Unlisted(d.typ)
    ensures BindOne(h, env, d, vals) == Bound(vals, None)
  {
    UnlistedKind(h, d.typ, At(vals[d.index], d.depth), Resolve(env, d).value);
    PutAt(vals[d.index], d.depth);
    assert vals[d.index := vals[d.index]] == vals;
  }

  /**
   * A resolved value for a pointer to an unlisted kind is accepted; the only
   * change is the allocation of a nil pointer's zero pointee.
   */
  lemma UnlistedPointeeKept(h: Hooks, env: Environ, d: Descriptor, vals: seq<Value>)
    requires d.index < |vals| && Resolve(env, d).Some?
    requires !HasSetter(d.typ) && !HasTextUnmarshaler(d.typ) && Kind(d.typ).PtrT?
    requires Unlisted(Kind(d.typ).target) || Kind(Kind(d.typ).target).PtrT?
    ensures var slot := vals[d.index]; var x := At(slot, d.depth);
            BindOne(h, env, d, vals) ==
              Bound(vals[d.index := Put(slot, d.depth, PtrV(if x.PtrV? then x.pointee else Zero(Kind(d.typ).target)))], None)
    ensures At(vals[d.index], d.depth).PtrV? ==> BindOne(h, env, d, vals) == Bound(vals, None)
  {
    var slot := vals[d.index];
    UnlistedPointee(h, d.typ, At(slot, d.depth), Resolve(env, d).value);
    PutAt(slot, d.depth);
    assert vals[d.index := slot] == vals;
  }

  /** A slot that no descriptor among the first `n` locates is not written. */
  lemma {:induction false} BindFrame(h: Hooks, env: Environ, ds: seq<Descriptor>, vals: seq<Value>, n: nat, i: nat)
    requires n <= |ds| && Locates(ds, vals) && i < |vals|
    requires forall j :: 0 <= j < n ==> ds[j].index != i
    ensures BindUpTo(h, env, ds, vals, n).vals[i] == vals[i]
    decreases n
  {
    if n > 0 {
      BindFrame(h, env, ds, vals, n - 1, i);
    }
  }

  /** Descriptors in strictly increasing field order, as gatherInfo produces them. */
  predicate Ordered(ds: seq<Descriptor>)
  {
    forall j, k :: 0 <= j < k < |ds| ==> ds[j].index < ds[k].index
  }

  /**
   * Load stops at the first descriptor that fails: the result is that
   * descriptor's step applied after the earlier ones all succeeded (whose
   * writes stay, with no roll-back), and the slots of later descriptors are
   * untouched.
   */
  lemma {:induction false} BindFirstError(h: Hooks, env: Environ, ds: seq<Descriptor>, vals: seq<Value>, n: nat)
    requires n <= |ds| && Locates(ds, vals) && Ordered(ds)
    requires BindUpTo(h, env, ds, vals, n).err.Some?
    ensures exists j :: 0 <= j < n &&
              var before := BindUpTo(h, env, ds, vals, j);
              && before.err.None?
              && BindUpTo(h, env, ds, vals, n) == BindOne(h, env, ds[j], before.vals)
              && forall k :: j < k < |ds| ==> BindUpTo(h, env, ds, vals, n).vals[ds[k].index] == vals[ds[k].index]
    decreases n
  {
    var b := BindUpTo(h, env, ds, vals, n - 1);
    if b.err.Some? {
      BindFirstError(h, env, ds, vals, n - 1);
    } else {
      var j := n - 1;
      forall k | j < k < |ds|
        ensures BindUpTo(h, env, ds, vals, n).vals[ds[k].index] == vals[ds[k].index]
      {
        BindFrame(h, env, ds, vals, j, ds[k].index);
      }
    }
  }

  /** The binding loop reads the environment only under the descriptors' keys and aliases. */
  lemma {:induction false} BindLocal(h: Hooks, env1: Environ, env2: Environ, ds: seq<Descriptor>, vals: seq<Value>, n: nat)
    requires n <= |ds| && Locates(ds, vals)
    requires forall j :: 0 <= j < |ds| ==> Agree(env1, env2, ds[j].key) && (ds[j].alt != "" ==> Agree(env1, env2, ds[j].alt))
    ensures BindUpTo(h, env1, ds, vals, n) == BindUpTo(h, env2, ds, vals, n)
    decreases n
  {
    if n > 0 {
      BindLocal(h, env1, env2, ds, vals, n - 1);
      ResolveLocal(env1, env2, ds[n - 1]);
    }
  }

  /** Unexported and ignored fields are never written, whatever the environment holds. */
  lemma LoadIgnoresIneligible(h: Hooks, env: Environ, prefix: string, decls: seq<FieldDecl>, vals: seq<Value>, i: nat)
    requires |decls| == |vals| && i < |vals| && !Eligible(decls[i])
    ensures LoadSpec(h, env, prefix, decls, vals).vals[i] == vals[i]
  {
    if prefix != "" {
      var g := GatherUpTo(prefix, decls, vals, |decls|);
      GatherFrame(prefix, decls, vals, |decls|);
      if g.result.Success? {
        GatherOrdered(prefix, decls, vals, |decls|);
        BindFrame(h, env, g.result.value, g.vals, |g.result.value|, i);
      }
    }
  }

  /**
   * Load reads only the variables under the eligible fields' keys and
   * upper-cased aliases: environments that agree on those give the same
   * outcome. (Without an alias, the bare field name, e.g. USER, is never read.)
   */
  lemma LoadLocal(h: Hooks, env1: Environ, env2: Environ, prefix: string, decls: seq<FieldDecl>, vals: seq<Value>)
    requires |decls| == |vals|
    requires forall i :: 0 <= i < |decls| && Eligible(decls[i]) ==>
               var alt := Upper(Tag(decls[i].tags, Alias));
               Agree(env1, env2, FieldKey(prefix, decls[i].name, alt)) && (alt != "" ==> Agree(env1, env2, alt))
    ensures LoadSpec(h, env1, prefix, decls, vals) == LoadSpec(h, env2, prefix, decls, vals)
  {
    if prefix != "" {
      var g := GatherUpTo(prefix, decls, vals, |decls|);
      if g.result.Success? {
        var ds := g.result.value;
        GatherOrdered(prefix, decls, vals, |decls|);
        GatherDescribes(prefix, decls, vals, |decls|);
        forall j | 0 <= j < |ds|
          ensures Agree(env1, env2, ds[j].key) && (ds[j].alt != "" ==> Agree(env1, env2, ds[j].alt))
        {
          var i := ds[j].index;
          StepKind(prefix, decls[i], i, vals[i]);
        }
        BindLocal(h, env1, env2, ds, g.vals, |ds|);
      }
    }
  }

  /** Where a descriptor points: a reachable location whose value has the descriptor's type. */
  ghost predicate Placed(d: Descriptor, vals: seq<Value>, types: seq<FieldType>)
    requires |types| == |vals|
  {
    && d.index < |vals|
    && Reaches(vals[d.index], d.depth)
    && d.typ == TypeAt(types[d.index], d.depth)
    && HasType(At(vals[d.index], d.depth), d.typ)
  }

  /** With hooks that respect types, one binding step keeps every field a value of its type. */
  lemma BindOneTyped(h: Hooks, env: Environ, d: Descriptor, vals: seq<Value>, types: seq<FieldType>, i: nat)
    requires Typed(h) && |types| == |vals| && Placed(d, vals, types) && i < |vals|
    requires HasType(vals[i], types[i]) && HasType(vals[d.index], types[d.index])
    ensures HasType(BindOne(h, env, d, vals).vals[i], types[i])
  {
    if Resolve(env, d).Some? && i == d.index {
      var s := Resolve(env, d).value;
      var slot := vals[d.index];
      var c := Coerce(h, d.typ, At(slot, d.depth), s);
      CoerceTyped(h, d.typ, At(slot, d.depth), s);
      PutTyped(slot, types[d.index], d.depth, c.value);
      assert BindOne(h, env, d, vals).vals[i] == Put(slot, d.depth, c.value);
    }
  }

  /** Before descriptor `n` is bound, its location is still where gatherInfo placed it. */
  lemma StillPlaced(h: Hooks, env: Environ, ds: seq<Descriptor>, vals: seq<Value>, types: seq<FieldType>, n: nat)
    requires |types| == |vals| && n < |ds| && Locates(ds, vals) && Ordered(ds)
    requires AllPlaced(ds, vals, types)
    ensures Placed(ds[n], BindUpTo(h, env, ds, vals, n).vals, types)
  {
    assert Placed(ds[n], vals, types);
    BindFrame(h, env, ds, vals, n, ds[n].index);
  }

  /** BindOneTyped, as one step of Load's loop. */
  lemma BindStepTyped(h: Hooks, env: Environ, ds: seq<Descriptor>, vals: seq<Value>, types: seq<FieldType>, n: nat)
    requires Typed(h) && |types| == |vals| && 0 < n <= |ds| && Locates(ds, vals) && Ordered(ds)
    requires AllPlaced(ds, vals, types)
    requires BindUpTo(h, env, ds, vals, n - 1).err.None?
    requires AllTyped(BindUpTo(h, env, ds, vals, n - 1).vals, types)
    ensures AllTyped(BindUpTo(h, env, ds, vals, n).vals, types)
  {
    var b := BindUpTo(h, env, ds, vals, n - 1);
    StillPlaced(h, env, ds, vals, types, n - 1);
    AllTypedAt(b.vals, types);
    forall i | 0 <= i < |vals|
      ensures HasType(BindUpTo(h, env, ds, vals, n).vals[i], types[i])
    {
      BindOneTyped(h, env, ds[n - 1], b.vals, types, i);
    }
    AllTypedAt(BindUpTo(h, env, ds, vals, n).vals, types);
  }

  /** With hooks that respect types, binding keeps every field a value of its type. */
  lemma {:induction false} BindTyped(h: Hooks, env: Environ, ds: seq<Descriptor>, vals: seq<Value>, types: seq<FieldType>, n: nat)
    requires Typed(h) && |types| == |vals| && n <= |ds| && Locates(ds, vals) && Ordered(ds)
    requires AllTyped(vals, types) && AllPlaced(ds, vals, types)
    ensures AllTyped(BindUpTo(h, env, ds, vals, n).vals, types)
    decreases n
  {
    if n > 0 {
      BindTyped(h, env, ds, vals, types, n - 1);
      if BindUpTo(h, env, ds, vals, n - 1).err.None? {
        BindStepTyped(h, env, ds, vals, types, n);
      }
    }
  }

  /**
   * Every value holds a value of its type, stated element by element from
   * the front (AllTypedAt gives the indexed form).
   */
  ghost predicate AllTyped(vals: seq<Value>, types: seq<FieldType>)
    decreases |vals|
  {
    |vals| == |types| && (vals == [] || (HasType(vals[0], types[0]) && AllTyped(vals[1..], types[1..])))
  }

  lemma {:induction false} AllTypedAt(vals: seq<Value>, types: seq<FieldType>)
    ensures AllTyped(vals, types) <==> |vals| == |types| && forall i :: 0 <= i < |vals| ==> HasType(vals[i], types[i])
    decreases |vals|
  {
    if vals != [] && |vals| == |types| {
      AllTypedAt(vals[1..], types[1..]);
      assert forall i :: 1 <= i < |vals| ==> vals[1..][i - 1] == vals[i] && types[1..][i - 1] == types[i];
    }
  }

  /** Every descriptor is placed in `vals`. */
  ghost predicate AllPlaced(ds: seq<Descriptor>, vals: seq<Value>, types: seq<FieldType>)
    requires |vals| == |types|
  {
    forall j {:trigger Placed(ds[j], vals, types)} :: 0 <= j < |ds| ==> Placed(ds[j], vals, types)
  }

  /**
   * With hooks that respect types, Load keeps every field of a well-typed
   * struct a value of the field's declared type, whatever it returns.
   */
  lemma LoadTyped(h: Hooks, env: Environ, prefix: string, decls: seq<FieldDecl>, vals: seq<Value>)
    requires Typed(h) && |decls| == |vals|
    requires forall i :: 0 <= i < |vals| ==> HasType(vals[i], decls[i].typ)
    ensures var b := LoadSpec(h, env, prefix, decls, vals);
            forall i :: 0 <= i < |vals| ==> HasType(b.vals[i], decls[i].typ)
  {
    if prefix != "" {
      var types := seq(|decls|, i requires 0 <= i < |decls| => decls[i].typ);
      var g := GatherUpTo(prefix, decls, vals, |decls|);
      GatherFrame(prefix, decls, vals, |decls|);
      forall i | 0 <= i < |vals|
        ensures HasType(g.vals[i], types[i])
      {
        SettleTyped(decls[i].typ, vals[i]);
      }
      if g.result.Success? {
        var ds := g.result.value;
        GatherOrdered(prefix, decls, vals, |decls|);
        GatherDescribes(prefix, decls, vals, |decls|);
        forall j | 0 <= j < |ds|
          ensures Placed(ds[j], g.vals, types)
        {
          var i := ds[j].index;
          SettleTypedAt(decls[i].typ, vals[i]);
          StepKind(prefix, decls[i], i, vals[i]);
        }
        AllTypedAt(g.vals, types);
        assert AllPlaced(ds, g.vals, types);
        BindTyped(h, env, ds, g.vals, types, |ds|);
        AllTypedAt(BindUpTo(h, env, ds, g.vals, |ds|).vals, types);
      }
    }
  }

  /** LoadTyped, for any hooks and any struct. */
  lemma LoadKeepsTypes(h: Hooks, env: Environ, prefix: string, decls: seq<FieldDecl>, vals: seq<Value>)
    requires |decls| == |vals|
    ensures Typed(h) && WellTyped(decls, vals) ==> WellTyped(decls, LoadSpec(h, env, prefix, decls, vals).vals)
  {
    if Typed(h) && (forall i :: 0 <= i < |vals| ==> HasType(vals[i], decls[i].typ)) {
      LoadTyped(h, env, prefix, decls, vals);
    }
  }
}
