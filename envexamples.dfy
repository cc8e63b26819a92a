/**
 * Concrete cases from env/envvars_test.go, worked out on the model.
 */
module EnvExamples {
  import opened Wrappers
  import opened GoText
  import opened GoStrconv
  import opened GoTypes
  import opened EnvCoerce
  import opened Env

  /** The key of the test's field Port under prefix "ev". */
  lemma PortKey()
    ensures FieldKey("ev", "Port", "") == "EV_PORT"
  {
    KeyShape("ev", "Port", "");
    UpperAt("ev");
    UpperAt("Port");
    assert Upper("ev") == "EV";
    assert Upper("Port") == "PORT";
  }

  /** An empty source gives a one-element slice, not an empty one. */
  lemma EmptySliceSource(h: Hooks)
    ensures Coerce(h, SliceT(StringT), NilSlice, "") == Coerced(SliceV([StringV("")]), None)
  {
    var parts: seq<string> := [""];
    assert Split("", ',') == parts;
    assert Coerce(h, StringT, Zero(StringT), parts[0]) == Coerced(StringV(""), None);
    var acc: seq<Value> := [];
    assert CoerceAll(h, StringT, parts, acc) == CoerceAll(h, StringT, parts[1..], acc + [StringV("")]);
    assert parts[1..] == [] && acc + [StringV("")] == [StringV("")];
  }

  /** A blank source gives an empty, non-nil map. */
  lemma BlankMap(h: Hooks)
    ensures Coerce(h, MapT(StringT, StringT), NilMap, " ") == Coerced(MapV(map[]), None)
  {
  }

  /** "red1" has no ':' and is an invalid map item; the field is not assigned. */
  lemma InvalidItem(h: Hooks)
    ensures Coerce(h, MapT(StringT, IntT(W)), NilMap, "red1") == Coerced(NilMap, Some(InvalidMapItem("red1")))
  {
    TrimSpaceEmpty("red1");
    assert !AllSpace("red1") by { assert !IsSpace("red1"[0]); }
    SplitNoSep("red1", ',');
    SplitNoSep("red1", ':');
  }
}
