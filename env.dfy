/**
 * The vocabulary of env/envvars.go: the tag names, the errors Load returns,
 * a configuration struct's declared fields and the record holding their
 * values, the descriptor gatherInfo builds per field (varInfo), and the
 * key a field is looked up under.
 */
module Env {
  import opened Wrappers
  import opened GoText
  import opened GoStrconv
  import opened GoTypes
  import opened EnvCoerce

  /** The struct tag names the binder reads. */
  const Alias := "alias"
  const Default := "default"
  const Require := "require"
  const Ignore := "ignore"

  /** reflect.StructTag.Get: the tag's value, or "" when the tag is absent. */
  function Tag(tags: map<string, string>, name: string): string
  {
    if name in tags then tags[name] else ""
  }

  /** isTrue: strconv.ParseBool's verdict, with every error read as false. */
  function IsTrue(s: string): bool
  {
    var b := ParseBool(s);
    b.Success? && b.value
  }

  /** isTrue accepts exactly the six true spellings of ParseBool. */
  lemma IsTrueSpellings(s: string)
    ensures IsTrue(s) <==> s in {"1", "t", "T", "true", "TRUE", "True"}
  {
  }

  /** One declared field of the configuration struct, with its struct tags. */
  datatype FieldDecl = FieldDecl(name: string, exported: bool, typ: FieldType, tags: map<string, string>)

  /**
   * varInfo: the field's name, its upper-cased alias (`alt`), its lookup
   * key, and its location: the field's index and the number of pointers
   * followed from it, with the type found there.
   */
  datatype Descriptor = Descriptor(
    name: string, alt: string, key: string,
    index: nat, depth: nat, typ: FieldType,
    tags: map<string, string>)

  /** What Load can return besides nil. */
  datatype BindError =
    | NeedPrefix                           // ErrNeedPrefix
    | BadSpec                              // ErrBadSpec
    | UnsupportedStruct(fieldName: string) // a struct without Set or UnmarshalText
    | MissingRequired(key: string)         // "required key ... missing value"
    | ParseError(keyName: string, fieldName: string, typeName: string, value: string, err: Cause)

  /**
   * The lookup key: ToUpper(prefix + "_" + name), where the name is the
   * upper-cased alias when there is one and the field's name otherwise.
   */
  function FieldKey(prefix: string, name: string, alt: string): string
  {
    Upper(prefix + "_" + if alt != "" then alt else name)
  }

  /** The key is the upper-cased prefix, an underscore and the upper-cased name, all upper case. */
  lemma KeyShape(prefix: string, name: string, alt: string)
    ensures FieldKey(prefix, name, alt) == Upper(prefix) + "_" + Upper(if alt != "" then alt else name)
    ensures IsUpper(FieldKey(prefix, name, alt))
  {
    var base := if alt != "" then alt else name;
    assert Upper("_") == "_";
    assert prefix + "_" + base == prefix + ("_" + base);
    UpperConcat(prefix, "_" + base);
    UpperConcat("_", base);
    UpperShape(prefix + "_" + base);
  }

  /** An alias that is already upper case is used as is after the prefix. */
  lemma AliasKey(prefix: string, alias: string)
    requires alias != ""
    ensures FieldKey(prefix, "", Upper(alias)) == Upper(prefix) + "_" + Upper(alias)
  {
    KeyShape(prefix, "", Upper(alias));
    UpperIdempotent(alias);
    UpperShape(alias);
  }

  /**
   * The configuration struct, reached through the pointer Load is given:
   * its declared fields and one mutable slot per field.
   */
  class Record {
    const decls: seq<FieldDecl>
    const slots: array<Value>

    /** One slot per declared field. */
    predicate Shaped()
    {
      slots.Length == |decls|
    }

    /** Every slot holds a value of its field's type. */
    ghost predicate Valid()
      reads slots
    {
      Shaped() && WellTyped(decls, slots[..])
    }

    /** A zero-valued struct, as `var s Spec` declares it. */
    constructor (fields: seq<FieldDecl>)
      ensures decls == fields && fresh(slots)
      ensures Valid() && forall i :: 0 <= i < |fields| ==> slots[i] == Zero(fields[i].typ)
    {
      decls := fields;
      slots := new Value[|fields|](i requires 0 <= i < |fields| => Zero(fields[i].typ));
      new;
      forall i | 0 <= i < |fields| ensures HasType(Zero(fields[i].typ), fields[i].typ) {
        ZeroTyped(fields[i].typ);
      }
    }
  }

  /** Every slot holds a value of its field's declared type. */
  ghost predicate WellTyped(decls: seq<FieldDecl>, vals: seq<Value>)
  {
    |decls| == |vals| && forall i :: 0 <= i < |vals| ==> HasType(vals[i], decls[i].typ)
  }

  /** The shape of the `spec interface{}` argument. */
  datatype Target =
    | StructPtr(rec: Record)  // a non-nil pointer to a struct
    | NilStructPtr            // a nil pointer to a struct type
    | PtrToNonStruct          // a pointer to anything else (a map, a pointer, ...)
    | NonPointer              // a struct or any other value passed directly

  function Footprint(target: Target): set<object>
  {
    if target.StructPtr? then {target.rec.slots} else {}
  }

  /** The location `depth` pointers below a value. */
  function At(v: Value, depth: nat): Value
  {
    if depth == 0 || !v.PtrV? then v else At(v.pointee, depth - 1)
  }

  /** Whether `depth` non-nil pointers lead down from a value. */
  predicate Reaches(v: Value, depth: nat)
  {
    depth == 0 || (v.PtrV? && Reaches(v.pointee, depth - 1))
  }

  /** The value with the location `depth` pointers below it replaced by `x`. */
  function Put(v: Value, depth: nat, x: Value): (r: Value)
    ensures Reaches(v, depth) ==> Reaches(r, depth) && At(r, depth) == x
  {
    if depth == 0 || !v.PtrV? then x else PtrV(Put(v.pointee, depth - 1, x))
  }

  /** Writing back what a location holds changes nothing. */
  lemma {:induction false} PutAt(v: Value, depth: nat)
    ensures Put(v, depth, At(v, depth)) == v
  {
    if depth > 0 && v.PtrV? {
      PutAt(v.pointee, depth - 1);
    }
  }

  /** The type found `depth` pointers below a location of type `t`. */
  function TypeAt(t: FieldType, depth: nat): FieldType
    decreases depth
  {
    if depth == 0 || !Kind(t).PtrT? then t else TypeAt(Kind(t).target, depth - 1)
  }

  /** A location reached from a well-typed value has the type found there. */
  lemma {:induction false} AtTyped(v: Value, t: FieldType, depth: nat)
    requires HasType(v, t) && Reaches(v, depth)
    ensures HasType(At(v, depth), TypeAt(t, depth))
    decreases depth
  {
    if depth > 0 {
      KindTyped(v, t);
      if Kind(t).PtrT? {
        AtTyped(v.pointee, Kind(t).target, depth - 1);
      }
    }
  }

  /** Writing a value of the location's type keeps the whole value well typed. */
  lemma {:induction false} PutTyped(v: Value, t: FieldType, depth: nat, x: Value)
    requires HasType(v, t) && Reaches(v, depth) && HasType(x, TypeAt(t, depth))
    ensures HasType(Put(v, depth, x), t)
    decreases depth
  {
    if depth > 0 {
      KindTyped(v, t);
      var e := Kind(t).target;
      PutTyped(v.pointee, e, depth - 1, x);
      KindTyped(Put(v, depth, x), t);
    }
  }
}
