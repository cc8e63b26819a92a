/**
 * gatherInfo (env/envvars.go): checks the prefix and the target, then walks
 * the struct's fields in declaration order. Unexported fields and fields
 * tagged `ignore` are skipped; nil pointers to structs are allocated; every
 * other field gets a descriptor with its lookup key; a struct-kinded field
 * without Set or UnmarshalText ends the walk with an error.
 */
module EnvGather {
  import opened Wrappers
  import opened GoText
  import opened GoTypes
  import opened Env

  /** Whether gatherInfo describes a field: settable (exported) and not ignored. */
  predicate Eligible(d: FieldDecl)
  {
    d.exported && !IsTrue(Tag(d.tags, Ignore))
  }

  /** Where the pointer walk stops, and the field's value after it. */
  datatype Located = Located(depth: nat, typ: FieldType, value: Value)

  /**
   * The pointer walk of gatherInfo: follow non-nil pointers; allocate a zero
   * struct for a nil pointer to a struct and follow it; stop at a nil
   * pointer to anything else, or at a non-pointer. The walk ends at a
   * location it can reach, whose type is the field's type `depth` pointers
   * down; a field that is not a pointer is left as it is.
   */
  function Settle(t: FieldType, v: Value): (l: Located)
    ensures Reaches(l.value, l.depth) && l.typ == TypeAt(t, l.depth)
    ensures !Kind(t).PtrT? ==> l == Located(0, t, v)
    decreases Size(t)
  {
    if Kind(t).PtrT? then
      var e := Kind(t).target;
      if v.PtrV? then
        var l := Settle(e, v.pointee);
        Located(l.depth + 1, l.typ, PtrV(l.value))
      else if Kind(e).StructT? then
        var l := Settle(e, Zero(e));
        Located(l.depth + 1, l.typ, PtrV(l.value))
      else
        Located(0, t, v)
    else
      Located(0, t, v)
  }

  /** The walk keeps a well-typed field well typed. */
  lemma {:induction false} SettleTyped(t: FieldType, v: Value)
    requires HasType(v, t)
    ensures HasType(Settle(t, v).value, t)
    decreases Size(t)
  {
    KindTyped(v, t);
    if Kind(t).PtrT? {
      var e := Kind(t).target;
      if v.PtrV? || Kind(e).StructT? {
        var x := if v.PtrV? then v.pointee else Zero(e);
        ZeroTyped(e);
        SettleTyped(e, x);
        KindTyped(Settle(t, v).value, t);
      }
    }
  }

  /** On a well-typed field, the location the walk stops at has the type it reports. */
  lemma SettleTypedAt(t: FieldType, v: Value)
    requires HasType(v, t)
    ensures var l := Settle(t, v); HasType(At(l.value, l.depth), l.typ)
  {
    var l := Settle(t, v);
    SettleTyped(t, v);
    AtTyped(l.value, t, l.depth);
  }

  /** On a well-typed field the walk stops at a non-pointer or at a nil pointer to a non-struct. */
  lemma {:induction false} SettleStops(t: FieldType, v: Value)
    requires HasType(v, t)
    ensures var l := Settle(t, v);
            Kind(l.typ).PtrT? ==> At(l.value, l.depth) == NilPtr && !Kind(Kind(l.typ).target).StructT?
    decreases Size(t)
  {
    KindTyped(v, t);
    if Kind(t).PtrT? && v.PtrV? {
      SettleStops(Kind(t).target, v.pointee);
    }
  }

  /** What gatherInfo does with one field. */
  datatype Step =
    | Skip
    | Take(desc: Descriptor, value: Value)
    | Reject(value: Value, err: BindError)

  /** A struct-kinded location that neither parsing method can fill. */
  predicate Unsupported(t: FieldType)
  {
    Kind(t).StructT? && !HasSetter(t) && !HasTextUnmarshaler(t)
  }

  /** One iteration of gatherInfo's field loop, for field `i` holding `v`. */
  function FieldStep(prefix: string, d: FieldDecl, i: nat, v: Value): Step
  {
    if !Eligible(d) then Skip
    else
      var l := Settle(d.typ, v);
      var alt := Upper(Tag(d.tags, Alias));
      if Unsupported(l.typ) then Reject(l.value, UnsupportedStruct(d.name))
      else Take(Descriptor(d.name, alt, FieldKey(prefix, d.name, alt), i, l.depth, l.typ, d.tags), l.value)
  }

  /** The struct's slots after the walk, and the descriptors or the error. */
  datatype Gathered = Gathered(vals: seq<Value>, result: Result<seq<Descriptor>, BindError>)

  /**
   * What gatherInfo does with each field. A field's step depends only on
   * the field's value before the walk, since the walk writes each slot once,
   * when it reaches it.
   */
  function Steps(prefix: string, decls: seq<FieldDecl>, vals: seq<Value>): (steps: seq<Step>)
    requires |decls| == |vals|
    ensures |steps| == |decls|
  {
    seq(|decls|, i requires 0 <= i < |decls| => FieldStep(prefix, decls[i], i, vals[i]))
  }

  /**
   * gatherInfo's loop over the first `n` fields, given each field's step:
   * a skipped field changes nothing, a taken field stores its value and
   * adds its descriptor, a rejected field stores its value and ends the walk.
   */
  function Fold(steps: seq<Step>, vals: seq<Value>, n: nat): (g: Gathered)
    requires n <= |steps| == |vals|
    ensures |g.vals| == |vals|
    ensures forall i :: n <= i < |vals| ==> g.vals[i] == vals[i]
    decreases n
  {
    if n == 0 then Gathered(vals, Success([]))
    else
      var g := Fold(steps, vals, n - 1);
      if g.result.Failure? then g
      else
        match steps[n - 1]
        case Skip => g
        case Take(d, v) => Gathered(g.vals[n - 1 := v], Success(g.result.value + [d]))
        case Reject(v, e) => Gathered(g.vals[n - 1 := v], Failure(e))
  }

  /** gatherInfo's loop over the first `n` fields. */
  function GatherUpTo(prefix: string, decls: seq<FieldDecl>, vals: seq<Value>, n: nat): Gathered
    requires n <= |decls| == |vals|
  {
    Fold(Steps(prefix, decls, vals), vals, n)
  }

  /** gatherInfo on a struct whose fields are `decls` and whose slots hold `vals`. */
  function GatherSpec(prefix: string, decls: seq<FieldDecl>, vals: seq<Value>): Gathered
    requires |decls| == |vals|
  {
    if prefix == "" then Gathered(vals, Failure(NeedPrefix))
    else GatherUpTo(prefix, decls, vals, |decls|)
  }

  /** gatherInfo. */
  method Gather(prefix: string, target: Target) returns (r: Result<seq<Descriptor>, BindError>)
    requires target.StructPtr? ==> target.rec.Shaped()
    modifies Footprint(target)
    ensures prefix == "" ==> r == Failure(NeedPrefix)
    ensures prefix != "" && !target.StructPtr? ==> r == Failure(BadSpec)
    ensures target.StructPtr? ==>
              Gathered(target.rec.slots[..], r) == GatherSpec(prefix, target.rec.decls, old(target.rec.slots[..]))
  {
    if prefix == "" {
      return Failure(NeedPrefix);
    }
    if !target.StructPtr? {
      return Failure(BadSpec);
    }
    r := VisitFields(prefix, target.rec);
  }

  /** gatherInfo's loop over the struct's fields. */
  method VisitFields(prefix: string, rec: Record) returns (r: Result<seq<Descriptor>, BindError>)
    requires rec.Shaped()
    modifies rec.slots
    ensures Gathered(rec.slots[..], r) == GatherUpTo(prefix, rec.decls, old(rec.slots[..]), |rec.decls|)
  {
    ghost var start := rec.slots[..];
    ghost var steps := Steps(prefix, rec.decls, start);
    var infos: seq<Descriptor> := [];
    var i := 0;
    while i < |rec.decls|
      invariant 0 <= i <= |rec.decls|
      invariant Fold(steps, start, i) == Gathered(rec.slots[..], Success(infos))
    {
      ghost var before := rec.slots[..];
      assert before[i] == start[i];
      var step := VisitField(prefix, rec, i);
      FoldNext(steps, start, i, infos, step, before, rec.slots[..]);
      if step.Reject? {
        FoldStops(steps, start, i + 1, |rec.decls|);
        return Failure(step.err);
      }
      if step.Take? {
        infos := infos + [step.desc];
      }
      i := i + 1;
    }
    return Success(infos);
  }

  /** The body of gatherInfo's field loop, for field `i`. */
  method VisitField(prefix: string, rec: Record, i: nat) returns (step: Step)
    requires rec.Shaped() && i < |rec.decls|
    modifies rec.slots
    ensures step == FieldStep(prefix, rec.decls[i], i, old(rec.slots[i]))
    ensures rec.slots[..] == if step.Skip? then old(rec.slots[..]) else old(rec.slots[..])[i := step.value]
  {
    var d := rec.decls[i];
    if !d.exported || IsTrue(Tag(d.tags, Ignore)) {
      return Skip;
    }
    var l := Settle(d.typ, rec.slots[i]);
    rec.slots[i] := l.value;
    var alt := Upper(Tag(d.tags, Alias));
    var key := if alt != "" then alt else d.name;
    key := prefix + "_" + key;
    key := Upper(key);
    var info := Descriptor(d.name, alt, key, i, l.depth, l.typ, d.tags);
    if Unsupported(l.typ) {
      return Reject(l.value, UnsupportedStruct(d.name));
    }
    return Take(info, l.value);
  }

  // ------------------------------------------------------- the fold, in general

  /** One turn of the fold, from the slots `before` it to the slots `after` it. */
  lemma FoldNext(steps: seq<Step>, vals: seq<Value>, i: nat, infos: seq<Descriptor>, step: Step,
                 before: seq<Value>, after: seq<Value>)
    requires i < |steps| == |vals| && steps[i] == step
    requires Fold(steps, vals, i) == Gathered(before, Success(infos))
    requires after == if step.Skip? then before else before[i := step.value]
    ensures Fold(steps, vals, i + 1) == Gathered(after,
              match step case Skip => Success(infos) case Take(d, _) => Success(infos + [d]) case Reject(_, e) => Failure(e))
  {
  }

  /** Once a step rejects, the later steps are not taken. */
  lemma {:induction false} FoldStops(steps: seq<Step>, vals: seq<Value>, n: nat, m: nat)
    requires n <= m <= |steps| == |vals|
    requires Fold(steps, vals, n).result.Failure?
    ensures Fold(steps, vals, m) == Fold(steps, vals, n)
    decreases m
  {
    if n < m {
      FoldStops(steps, vals, n, m - 1);
    }
  }

  /** The fold fails exactly when one of its steps rejects. */
  lemma {:induction false} FoldFails(steps: seq<Step>, vals: seq<Value>, n: nat)
    requires n <= |steps| == |vals|
    ensures Fold(steps, vals, n).result.Failure? <==> exists i :: 0 <= i < n && steps[i].Reject?
    decreases n
  {
    if n > 0 {
      FoldFails(steps, vals, n - 1);
    }
  }

  /** The fold fails with the error of the first step that rejects. */
  lemma {:induction false} FoldFirstRejected(steps: seq<Step>, vals: seq<Value>, n: nat, i: nat)
    requires i < n <= |steps| == |vals| && steps[i].Reject?
    requires forall j :: 0 <= j < i ==> !steps[j].Reject?
    ensures Fold(steps, vals, n).result == Failure(steps[i].err)
  {
    FoldFails(steps, vals, i);
    FoldStops(steps, vals, i + 1, n);
  }

  /** A slot keeps its value, or holds the value its step stored. */
  lemma {:induction false} FoldFrame(steps: seq<Step>, vals: seq<Value>, n: nat, i: nat)
    requires n <= |steps| == |vals| && i < |vals|
    ensures var g := Fold(steps, vals, n);
            g.vals[i] == vals[i] || (!steps[i].Skip? && g.vals[i] == steps[i].value)
    decreases n
  {
    if n > 0 {
      FoldFrame(steps, vals, n - 1, i);
    }
  }

  /** Whether each taken step describes its own field. */
  predicate Indexed(steps: seq<Step>)
  {
    forall i :: 0 <= i < |steps| && steps[i].Take? ==> steps[i].desc.index == i
  }

  /**
   * A successful fold's descriptors come from taken steps, in field order,
   * and each field's slot holds what its step stored.
   */
  lemma {:induction false} FoldDescribes(steps: seq<Step>, vals: seq<Value>, n: nat)
    requires n <= |steps| == |vals| && Indexed(steps)
    requires Fold(steps, vals, n).result.Success?
    ensures var g := Fold(steps, vals, n); var ds := g.result.value;
            && (forall j :: 0 <= j < |ds| ==> ds[j].index < n && steps[ds[j].index] == Take(ds[j], g.vals[ds[j].index]))
            && (forall j, k :: 0 <= j < k < |ds| ==> ds[j].index < ds[k].index)
    decreases n
  {
    if n > 0 {
      FoldDescribes(steps, vals, n - 1);
      var g := Fold(steps, vals, n - 1);
      if steps[n - 1].Take? {
        var g' := Fold(steps, vals, n);
        var ds := g.result.value;
        assert g'.vals == g.vals[n - 1 := steps[n - 1].value];
        assert g'.result.value == ds + [steps[n - 1].desc];
        forall j | 0 <= j < |ds|
          ensures g'.vals[ds[j].index] == g.vals[ds[j].index]
        {
        }
      }
    }
  }

  /** Every taken step of a successful fold has its descriptor. */
  lemma {:induction false} FoldCovers(steps: seq<Step>, vals: seq<Value>, n: nat)
    requires n <= |steps| == |vals| && Indexed(steps)
    requires Fold(steps, vals, n).result.Success?
    ensures var ds := Fold(steps, vals, n).result.value;
            forall i :: 0 <= i < n && steps[i].Take? ==> exists j :: 0 <= j < |ds| && ds[j].index == i
    decreases n
  {
    if n > 0 {
      FoldCovers(steps, vals, n - 1);
      var ds := Fold(steps, vals, n - 1).result.value;
      if steps[n - 1].Take? {
        var ds' := ds + [steps[n - 1].desc];
        assert ds'[|ds|].index == n - 1;
        forall i | 0 <= i < n - 1 && steps[i].Take?
          ensures exists j :: 0 <= j < |ds'| && ds'[j].index == i
        {
          var j :| 0 <= j < |ds| && ds[j].index == i;
          assert ds'[j].index == i;
        }
      }
    }
  }

  // ------------------------------------------------------------ properties

  /** Which of the three things FieldStep does, and when. */
  lemma StepKind(prefix: string, d: FieldDecl, i: nat, v: Value)
    ensures FieldStep(prefix, d, i, v).Skip? <==> !Eligible(d)
    ensures FieldStep(prefix, d, i, v).Reject? <==> Eligible(d) && Unsupported(Settle(d.typ, v).typ)
    ensures FieldStep(prefix, d, i, v).Reject? ==> FieldStep(prefix, d, i, v).err == UnsupportedStruct(d.name)
    ensures FieldStep(prefix, d, i, v).Take? ==> FieldStep(prefix, d, i, v).desc.index == i
    ensures !FieldStep(prefix, d, i, v).Skip? ==> FieldStep(prefix, d, i, v).value == Settle(d.typ, v).value
  {
  }

  /** gatherInfo's steps each describe their own field. */
  lemma StepsIndexed(prefix: string, decls: seq<FieldDecl>, vals: seq<Value>)
    requires |decls| == |vals|
    ensures Indexed(Steps(prefix, decls, vals))
  {
    var steps := Steps(prefix, decls, vals);
    forall i | 0 <= i < |steps| && steps[i].Take?
      ensures steps[i].desc.index == i
    {
      StepKind(prefix, decls[i], i, vals[i]);
    }
  }

  /** The walk fails exactly when some described field is a struct it cannot fill. */
  lemma GatherFails(prefix: string, decls: seq<FieldDecl>, vals: seq<Value>, n: nat)
    requires n <= |decls| == |vals|
    ensures GatherUpTo(prefix, decls, vals, n).result.Failure? <==>
              exists i :: 0 <= i < n && Eligible(decls[i]) && Unsupported(Settle(decls[i].typ, vals[i]).typ)
  {
    var steps := Steps(prefix, decls, vals);
    FoldFails(steps, vals, n);
    forall i | 0 <= i < n
      ensures steps[i].Reject? <==> Eligible(decls[i]) && Unsupported(Settle(decls[i].typ, vals[i]).typ)
    {
      StepKind(prefix, decls[i], i, vals[i]);
    }
  }

  /** The error names the first such field. */
  lemma GatherFirstRejected(prefix: string, decls: seq<FieldDecl>, vals: seq<Value>, n: nat, i: nat)
    requires i < n <= |decls| == |vals|
    requires Eligible(decls[i]) && Unsupported(Settle(decls[i].typ, vals[i]).typ)
    requires forall j :: 0 <= j < i && Eligible(decls[j]) ==> !Unsupported(Settle(decls[j].typ, vals[j]).typ)
    ensures GatherUpTo(prefix, decls, vals, n).result == Failure(UnsupportedStruct(decls[i].name))
  {
    var steps := Steps(prefix, decls, vals);
    forall j | 0 <= j < i
      ensures !steps[j].Reject?
    {
      StepKind(prefix, decls[j], j, vals[j]);
    }
    StepKind(prefix, decls[i], i, vals[i]);
    FoldFirstRejected(steps, vals, n, i);
  }

  /**
   * Ignored and unexported fields are never written, and a described field
   * changes only by the allocation of nil pointers to structs.
   */
  lemma GatherFrame(prefix: string, decls: seq<FieldDecl>, vals: seq<Value>, n: nat)
    requires n <= |decls| == |vals|
    ensures var g := GatherUpTo(prefix, decls, vals, n);
            forall i :: 0 <= i < |vals| ==>
              g.vals[i] == vals[i] || (Eligible(decls[i]) && g.vals[i] == Settle(decls[i].typ, vals[i]).value)
  {
    var steps := Steps(prefix, decls, vals);
    forall i | 0 <= i < |vals|
      ensures var g := Fold(steps, vals, n);
              g.vals[i] == vals[i] || (Eligible(decls[i]) && g.vals[i] == Settle(decls[i].typ, vals[i]).value)
    {
      FoldFrame(steps, vals, n, i);
      StepKind(prefix, decls[i], i, vals[i]);
    }
  }

  /** Every descriptor of a successful walk locates one of the struct's fields. */
  lemma GatherLocates(prefix: string, decls: seq<FieldDecl>, vals: seq<Value>, n: nat)
    requires n <= |decls| == |vals|
    requires GatherUpTo(prefix, decls, vals, n).result.Success?
    ensures var ds := GatherUpTo(prefix, decls, vals, n).result.value;
            forall j :: 0 <= j < |ds| ==> ds[j].index < n
  {
    StepsIndexed(prefix, decls, vals);
    FoldDescribes(Steps(prefix, decls, vals), vals, n);
  }

  /** A successful walk's descriptors are in declaration order, each for an eligible field. */
  lemma GatherOrdered(prefix: string, decls: seq<FieldDecl>, vals: seq<Value>, n: nat)
    requires n <= |decls| == |vals|
    requires GatherUpTo(prefix, decls, vals, n).result.Success?
    ensures var ds := GatherUpTo(prefix, decls, vals, n).result.value;
            && (forall j :: 0 <= j < |ds| ==> ds[j].index < n && Eligible(decls[ds[j].index]))
            && (forall j, k :: 0 <= j < k < |ds| ==> ds[j].index < ds[k].index)
  {
    var steps := Steps(prefix, decls, vals);
    StepsIndexed(prefix, decls, vals);
    FoldDescribes(steps, vals, n);
    var ds := Fold(steps, vals, n).result.value;
    forall j | 0 <= j < |ds|
      ensures Eligible(decls[ds[j].index])
    {
      var i := ds[j].index;
      StepKind(prefix, decls[i], i, vals[i]);
    }
  }

  /**
   * Each descriptor is what FieldStep makes of its field's original value
   * (its key and alias among it), and the field's slot is as that step left it.
   */
  lemma GatherDescribes(prefix: string, decls: seq<FieldDecl>, vals: seq<Value>, n: nat)
    requires n <= |decls| == |vals|
    requires GatherUpTo(prefix, decls, vals, n).result.Success?
    ensures var g := GatherUpTo(prefix, decls, vals, n); var ds := g.result.value;
            forall j :: 0 <= j < |ds| ==>
              ds[j].index < n &&
              FieldStep(prefix, decls[ds[j].index], ds[j].index, vals[ds[j].index]) == Take(ds[j], g.vals[ds[j].index])
  {
    StepsIndexed(prefix, decls, vals);
    FoldDescribes(Steps(prefix, decls, vals), vals, n);
  }

  /** ... and every eligible field has one. */
  lemma GatherCovers(prefix: string, decls: seq<FieldDecl>, vals: seq<Value>, n: nat)
    requires n <= |decls| == |vals|
    requires GatherUpTo(prefix, decls, vals, n).result.Success?
    ensures var ds := GatherUpTo(prefix, decls, vals, n).result.value;
            forall i :: 0 <= i < n && Eligible(decls[i]) ==> exists j :: 0 <= j < |ds| && ds[j].index == i
  {
    var steps := Steps(prefix, decls, vals);
    StepsIndexed(prefix, decls, vals);
    FoldFails(steps, vals, n);
    FoldCovers(steps, vals, n);
    forall i | 0 <= i < n && Eligible(decls[i])
      ensures steps[i].Take?
    {
      StepKind(prefix, decls[i], i, vals[i]);
    }
  }
}
