# Environment-to-struct binder, modelled in Dafny

This project models the binder in `env/envvars.go`. `Load(prefix, &spec)`
fills the exported fields of a configuration struct from environment
variables. It works in three stages:

- **gatherInfo** checks the prefix and the target. It then walks the
  struct's fields in declaration order:
  - it skips unexported fields and fields whose `ignore` tag is true;
  - it follows pointers, allocating nil pointers to structs;
  - it derives each field's lookup key `ToUpper(prefix + "_" + name)`,
    where the name is the upper-cased `alias` tag if there is one;
  - it rejects struct fields that have neither a `Set` nor an
    `UnmarshalText` method.
- **Load** resolves each field's string: the key's variable, then the
  alias's variable, then a non-empty `default` tag. It enforces `require`,
  converts the string with processField and wraps a conversion failure in
  a `ParseError`. It stops at the first error and keeps what it already
  wrote.
- **processField** converts one string into one field. It tries, in order:
  - a `Set(string) error` method;
  - an `UnmarshalText` method;
  - one pointer dereference, allocating the pointee when the pointer is nil;
  - a switch on the kind: string, signed integer (with `time.Duration`),
    unsigned integer, bool, float, slice (split on `,`) and map (pairs
    split on `,`, then on `:`). Slice and map elements are converted
    recursively. Any other kind is left alone.

Modules, one per file:

- `Wrappers` (`wrappers.dfy`): `Option` and `Result`.
- `GoText` (`gotext.dfy`): the parts of Go's `strings` package the binder
  uses. These are `ToUpper` (ASCII), `Split` and `TrimSpace`.
- `GoStrconv` (`gostrconv.dfy`): `strconv.ParseBool`, and
  `strconv.ParseInt`/`ParseUint` with base 0. Base 0 covers the `0x`,
  `0o`, `0b` and leading-`0` prefixes, `_` separators, range checks
  against the bit size, and the `NumError` each failure carries.
  `FormatInt` and `FormatUint` are there as the partners of the round-trip
  lemmas.
- `GoTypes` (`gotypes.dfy`): the field types and values the binder sees
  through reflection, `Kind`, zero values, and the two parsing
  capabilities a defined type may have.
- `EnvCoerce` (`envcoerce.dfy`): processField.
  - `Coerce` and `Convert` are the specification.
  - The methods `ProcessField`, `SetByKind`, `SetSlice`, `SetMap` and
    `SetPair` are the loop-based procedure, each proved equal to it.
- `Env` (`env.dfy`): the tag names, the errors, the key, the descriptor
  (`varInfo`), and the struct being filled. The struct is the class
  `Record`, one array slot per field.
- `EnvGather` (`envgather.dfy`): gatherInfo.
  - The method `Gather`, with its loop `VisitFields`, is proved against
    the function `GatherSpec`.
- `EnvLoad` (`envload.dfy`): Load.
  - The method `Load`, with its loop `BindAll`, is proved against the
    function `LoadSpec`.
- `EnvExamples` (`envexamples.dfy`): concrete cases taken from the
  package's tests.

How the Go program is represented:

- The environment is a `map<string, string>` (`Environ`).
- A field's location is given by its index in the struct and the number
  of pointers followed from it. A pointer is represented by the value it
  points to.
- The code the binder calls but does not contain is a parameter
  (`Hooks`):
  - user `Set` and `UnmarshalText` methods;
  - `time.ParseDuration`;
  - `strconv.ParseFloat`.

  `Typed(h)` states what Go's type system guarantees about these
  functions: they return values of the receiver's type.

Where the documented behaviour and the code differ, the model follows the
code:

- Splitting the empty string gives `[""]`. An empty slice source
  therefore yields a one-element slice, not an empty one
  (`EnvExamples.EmptySliceSource`).
- gatherInfo allocates a nil pointer-to-struct field unconditionally, not
  only when a value is later assigned to it.
- processField allocates a nil `*T` before it parses. A failed parse
  therefore leaves the field pointing at a zero `T` (`EnvCoerce.Coerce`).
- Pointers allocated by gatherInfo before it rejects a later struct field
  stay allocated (`EnvGather.GatherFrame`).

## Model

| member | source | states |
|---|---|---|
| GoText.UpperChar | env/envvars.go:110 | a lower-case ASCII letter maps to its upper-case letter (code minus 32); every other character is unchanged |
| GoText.UpperAt | env/envvars.go:122 | ToUpper keeps the length and upper-cases character by character |
| GoText.UpperShape | env/envvars.go:122 | ToUpper's result is all upper case, and ToUpper leaves an already upper-case string unchanged |
| GoText.UpperIdempotent | env/envvars.go:110-122 | applying ToUpper to the already upper-cased alias changes nothing |
| GoText.UpperConcat | env/envvars.go:120-122 | ToUpper of a concatenation is the concatenation of the ToUpper of each part |
| GoText.Split | env/envvars.go:232 | strings.Split always yields at least one piece |
| GoText.SplitCount | env/envvars.go:232-233 | Split yields one piece more than the number of separators |
| GoText.SplitNoSep | env/envvars.go:246-247 | a string without the separator splits into itself alone |
| GoText.SplitPiecesFree | env/envvars.go:244-246 | no piece contains the separator |
| GoText.SplitJoin | env/envvars.go:232 | joining the pieces with the separator gives back the source string, so pieces keep source order |
| GoText.TrimLeftEmpty | env/envvars.go:243 | trimming leading white space leaves nothing exactly when the string is all white space |
| GoText.TrimRightEmpty | env/envvars.go:243 | trimming trailing white space leaves nothing exactly when the string is all white space |
| GoText.TrimSpaceEmpty | env/envvars.go:243 | `len(strings.TrimSpace(value)) == 0` exactly when the value is all white space |
| GoText.TrimLeftSuffix | env/envvars.go:243 | if what remains after trimming leading space is all space, so was the whole string |
| GoStrconv.ParseBool | env/envvars.go:220-223 | a failure is a syntax NumError from "ParseBool" carrying the input |
| GoStrconv.ParseFormatBool | env/envvars.go:219-224 | ParseBool reads back both formatted booleans |
| GoStrconv.BasePrefix | env/envvars.go:206 | base 0 picks base 2, 8, 10 or 16; base 10 exactly when the string does not start with '0', and then no prefix is removed |
| GoStrconv.Accumulate | env/envvars.go:206 | digit accumulation never goes below its start or above the bound |
| GoStrconv.ParseUint | env/envvars.go:214 | a result is below 2^bitSize; a failure names "ParseUint" and the input; a leading sign is a syntax error |
| GoStrconv.ParseInt | env/envvars.go:206 | a result lies in the signed range of the bit size; a failure names "ParseInt" and the input |
| GoStrconv.AccumulateFormat | env/envvars.go:206 | decimal digits of n accumulate back to n when n is within the bound, and to a range error otherwise |
| GoStrconv.ParseFormatUint | env/envvars.go:214-217 | ParseUint reads back a formatted number below 2^bitSize and reports a range error at or above it |
| GoStrconv.ParseFormatInt | env/envvars.go:206-210 | ParseInt reads back a formatted number in the signed range and reports a range error above it |
| GoStrconv.ParseFormatIntBelow | env/envvars.go:206-210 | ParseInt reports a range error below the signed range, for bit sizes from 2 |
| GoTypes.IntWidth.Bits | env/envvars.go:206 | every integer kind is 8 to 64 bits wide |
| GoTypes.Kind | env/envvars.go:193 | a kind is never a defined type, and it is no larger than the type |
| GoTypes.KindTyped | env/envvars.go:193 | a value has a type exactly when it has that type's kind |
| GoTypes.ZeroTyped | env/envvars.go:100 | the zero value reflect.New produces is a value of the type |
| Env.IsTrueSpellings | env/envvars.go:291-294 | isTrue holds exactly for "1", "t", "T", "true", "TRUE" and "True" |
| Env.KeyShape | env/envvars.go:113-122 | the key is the upper-cased prefix, "_", and the upper-cased alias or field name; the key is all upper case |
| Env.AliasKey | env/envvars.go:110-122 | with an alias, the key is the upper-cased prefix, "_" and the upper-cased alias |
| Env.Record.constructor | env/envvars_test.go:59 | a declared struct has one slot per field, each holding the field's zero value |
| Env.Put | env/envvars.go:102-108 | writing through a reachable chain of pointers stores the value at the end of the chain |
| Env.PutAt | env/envvars.go:102-108 | writing back what a location holds changes nothing |
| Env.AtTyped | env/envvars.go:102-108 | a location reached through pointers from a well-typed value has the type found there |
| Env.PutTyped | env/envvars.go:158 | writing a value of the location's type keeps the field well typed |
| EnvCoerce.Invoke | env/envvars.go:176-183 | on a nil pointer, the pointer is left as it is and only the method's error counts |
| EnvCoerce.Coerce | env/envvars.go:173-267 | without Set or UnmarshalText, a failure leaves the location as it was, except that a nil pointer has been allocated to a zero pointee |
| EnvCoerce.Convert | env/envvars.go:193-264 | a failed kind conversion leaves the location as it was |
| EnvCoerce.ProcessField | env/envvars.go:173-267 | the procedure computes exactly the new value and error the specification gives |
| EnvCoerce.SetByKind | env/envvars.go:193-264 | the kind switch computes exactly what the specification gives |
| EnvCoerce.SetSlice | env/envvars.go:231-240 | the slice loop computes exactly what the specification gives |
| EnvCoerce.SetMap | env/envvars.go:241-263 | the map loop computes exactly what the specification gives |
| EnvCoerce.SetPair | env/envvars.go:246-260 | one map pair is converted exactly as the specification gives |
| EnvCoerce.SliceConvert | env/envvars.go:231-240 | a slice is assigned only if every piece converts; otherwise the field keeps its value and the first error is returned |
| EnvCoerce.MapConvert | env/envvars.go:241-263 | a blank value gives an empty non-nil map; otherwise the map is assigned only if every pair converts |
| EnvCoerce.CoerceAllShape | env/envvars.go:234-239 | the slice loop succeeds exactly when every piece converts; then it yields one element per piece, in order, each the conversion of its piece into a zero element; a failure is the error of a piece all of whose predecessors converted |
| EnvCoerce.CoerceAllSucceeds | env/envvars.go:234-239 | the slice loop succeeds exactly when every piece converts |
| EnvCoerce.CoerceAllStep | env/envvars.go:234-239 | one iteration: a converting piece appends its element; a failing piece ends the loop with its error |
| EnvCoerce.CoerceAllValues | env/envvars.go:233-239 | on success, element i is piece i converted into a zero element, after what was there |
| EnvCoerce.CoerceAllPrefix | env/envvars.go:233-239 | on success, the earlier elements are kept and one element is added per piece |
| EnvCoerce.CoerceAllAt | env/envvars.go:235 | on success, element i is piece i converted into a zero element |
| EnvCoerce.CoerceAllFails | env/envvars.go:235-238 | a failure is the error of the first piece that does not convert |
| EnvCoerce.SliceCoercion | env/envvars.go:231-240 | a slice field gets one element per comma plus one, in source order, exactly when every piece converts; otherwise it keeps its value |
| EnvCoerce.PairShape | env/envvars.go:246-260 | a pair converts exactly when it has one ':' and both sides convert; its entry is the converted key and value; otherwise it is an invalid map item |
| EnvCoerce.PairConverts | env/envvars.go:250-259 | a two-sided pair converts exactly when its key and its value convert, into the converted key and value |
| EnvCoerce.CoercePairsStep | env/envvars.go:245-261 | one iteration: a good pair sets its entry; a bad pair ends the loop with an error; a pair without exactly one ':' fails as an invalid map item |
| EnvCoerce.CoercePairsSucceeds | env/envvars.go:245-261 | the map loop succeeds exactly when every pair converts |
| EnvCoerce.CoercePairsKeys | env/envvars.go:245-261 | on success, every pair's key is in the map and no entry is lost |
| EnvCoerce.CoercePairsLastWins | env/envvars.go:260 | a key's entry holds the value of the last pair with that key |
| EnvCoerce.CoercePairsKeep | env/envvars.go:260 | an entry that no pair's key overwrites keeps its value |
| EnvCoerce.CoercePairsOnly | env/envvars.go:260 | every key in the result was already there or comes from some pair |
| EnvCoerce.CoercePairsInvalidItem | env/envvars.go:246-248 | the first pair without exactly one ':', after good pairs, fails the loop as an invalid map item |
| EnvCoerce.MapCoercion | env/envvars.go:241-263 | a blank value gives an empty non-nil map; otherwise the map is assigned exactly when every pair converts, holding every pair's key; the first pair without exactly one ':' fails as an invalid map item; a failure keeps the field's value |
| EnvCoerce.UnlistedKind | env/envvars.go:193-266 | without Set or UnmarshalText, a struct, interface or other unlisted kind is left exactly as it was, and no error is returned |
| EnvCoerce.UnlistedPointee | env/envvars.go:185-193 | through a pointer to an unlisted kind or to another pointer, the only change is the allocation of a nil pointer's zero pointee, and no error is returned; a non-nil pointer is left as it is |
| EnvCoerce.UnsignedRejectsSign | env/envvars.go:213-217 | a signed string for an unsigned field fails with a ParseUint syntax error and leaves the field as it was |
| EnvCoerce.CoerceTyped | env/envvars.go:173-267 | a conversion always leaves a value of the field's type |
| EnvCoerce.PointerTyped | env/envvars.go:185-191 | dereferencing, allocating if needed, then converting leaves a pointer of the field's type |
| EnvCoerce.InvokeTyped | env/envvars.go:176-183 | a Set or UnmarshalText call leaves a value of the field's type |
| EnvCoerce.ConvertTyped | env/envvars.go:193-264 | the kind switch leaves a value of the field's type |
| EnvCoerce.ScalarConvertTyped | env/envvars.go:194-230 | scalar conversions produce values in range for their kind |
| EnvCoerce.CoerceAllTyped | env/envvars.go:233-239 | every element of a converted slice has the element type |
| EnvCoerce.CoercePairTyped | env/envvars.go:250-259 | a converted pair has the key type and the value type |
| EnvCoerce.CoercePairsTyped | env/envvars.go:242-261 | every entry of a converted map has the key type and the value type |
| EnvGather.Settle | env/envvars.go:93-103 | the pointer walk stops at a location it can reach, whose type is the type found that many pointers down; a non-pointer field is not walked |
| EnvGather.SettleTyped | env/envvars.go:93-103 | allocating during the walk keeps the field well typed |
| EnvGather.SettleTypedAt | env/envvars.go:102-108 | the location the walk stops at holds a value of the type found there |
| EnvGather.SettleStops | env/envvars.go:93-98 | the walk stops at a pointer only when that pointer is nil and does not point to a struct |
| EnvGather.Steps | env/envvars.go:86-130 | there is one step per declared field |
| EnvGather.Fold | env/envvars.go:86-130 | the loop never touches fields it has not reached yet |
| EnvGather.Gather | env/envvars.go:67-132 | an empty prefix gives ErrNeedPrefix before the target is looked at; a target that is not a pointer to a struct gives ErrBadSpec and changes nothing; otherwise the slots and the result are those of the specification |
| EnvGather.VisitFields | env/envvars.go:86-130 | the field loop computes exactly the slots and descriptors of the specification |
| EnvGather.VisitField | env/envvars.go:87-129 | one field is skipped, described or rejected exactly as the specification says, and only its slot changes |
| EnvGather.StepKind | env/envvars.go:89-129 | a field is skipped exactly when it is unexported or ignored; it is rejected exactly when the walk ends at a struct without Set or UnmarshalText, with that field's name; a described field records its index and the walked value |
| EnvGather.GatherFails | env/envvars.go:125-129 | gathering fails exactly when some eligible field ends at an unsupported struct |
| EnvGather.GatherFirstRejected | env/envvars.go:125-129 | the error names the first such field |
| EnvGather.GatherFrame | env/envvars.go:89-103 | a field's slot is either unchanged or, for an eligible field, holds the result of the pointer walk |
| EnvGather.GatherLocates | env/envvars.go:106-123 | every descriptor points at a field of the struct |
| EnvGather.GatherOrdered | env/envvars.go:86-123 | descriptors are for eligible fields, in strictly increasing field order |
| EnvGather.GatherDescribes | env/envvars.go:106-123 | each descriptor is the one the field's step produces from the field's original value |
| EnvGather.GatherCovers | env/envvars.go:86-123 | every eligible field gets a descriptor |
| EnvLoad.BindOne | env/envvars.go:138-167 | binding one field changes at most that field's slot |
| EnvLoad.Load | env/envvars.go:135-171 | an empty prefix gives ErrNeedPrefix; a target that is not a pointer to a struct gives ErrBadSpec; otherwise the slots and the error are those of the specification; a struct whose every slot holds its field's type (`Record.Valid`) still does afterwards |
| EnvLoad.BindAll | env/envvars.go:138-168 | the binding loop computes exactly the slots and error of the specification |
| EnvLoad.BindField | env/envvars.go:139-167 | one iteration computes exactly the slots and error of the specification |
| EnvLoad.BindStops | env/envvars.go:152-166 | after the first error, later descriptors change nothing |
| EnvLoad.ResolveLocal | env/envvars.go:140-148 | a field's string depends only on the variables under its key and its alias |
| EnvLoad.ResolveUnset | env/envvars.go:140-151 | no string resolves exactly when neither the key nor the alias is set and the default is empty |
| EnvLoad.Unresolved | env/envvars.go:150-156 | with nothing resolved, a true `require` gives the missing-key error, otherwise nothing changes; a non-empty default never gives the missing-key error |
| EnvLoad.Resolved | env/envvars.go:158-167 | a resolved string is converted into the descriptor's location; a failure becomes a ParseError with the key, field name, type name, raw value and cause |
| EnvLoad.ParseFailureKeepsValue | env/envvars.go:158-167 | a failed scalar conversion leaves the struct as it was and returns a ParseError |
| EnvLoad.UnlistedKept | env/envvars.go:158-168 | a resolved value for a field of an unlisted kind is accepted, and the struct is unchanged |
| EnvLoad.UnlistedPointeeKept | env/envvars.go:158-168 | a resolved value for a pointer to an unlisted kind is accepted; at most a nil pointer is allocated, and a non-nil pointer leaves the struct unchanged |
| EnvLoad.BindFrame | env/envvars.go:138-168 | a slot that no processed descriptor points at is not changed |
| EnvLoad.BindFirstError | env/envvars.go:138-168 | an error comes from one descriptor that was reached without error; later fields keep their values |
| EnvLoad.BindLocal | env/envvars.go:140-143 | the binding depends only on the variables under the descriptors' keys and aliases |
| EnvLoad.LoadIgnoresIneligible | env/envvars.go:89-91 | an unexported or ignored field is never written |
| EnvLoad.LoadLocal | env/envvars.go:140-143 | Load reads only the eligible fields' derived keys and aliases, so an unrelated variable such as `USER` is never consulted |
| EnvLoad.BindOneTyped | env/envvars.go:158 | binding one field keeps every slot well typed |
| EnvLoad.BindTyped | env/envvars.go:138-168 | the binding loop keeps every slot well typed |
| EnvLoad.LoadTyped | env/envvars.go:135-171 | Load keeps every slot of the struct well typed |
| EnvLoad.LoadKeepsTypes | env/envvars.go:135-171 | a well-typed struct stays well typed |
| EnvExamples.PortKey | env/envvars_test.go:62 | field `Port` under prefix "ev" is read from `EV_PORT` |
| EnvExamples.EmptySliceSource | env/envvars.go:232-233 | an empty string bound to a `[]string` gives one empty element |
| EnvExamples.BlankMap | env/envvars_test.go:404-420 | a blank value bound to a map gives an empty, non-nil map |
| EnvExamples.InvalidItem | env/envvars.go:246-248 | a map item without ':' is an invalid map item and the map stays nil |

## Left out

- ToUpper is modelled for ASCII only. Go's `strings.ToUpper` also maps non-ASCII letters.
- Floating-point parsing (`strconv.ParseFloat`) is the `parseFloat` hook. Its result is taken as an IEEE-754 bit pattern.
- `time.ParseDuration` is the `parseDuration` hook.
- The bodies of user `Set` and `UnmarshalText` methods are hooks. This includes `time.Time`'s RFC 3339 parser and the tests' `bracketed` type.
- A method called on a nil pointer receiver gets `None`. A panic it might raise is not modelled.
- Pointers are represented by the values they point to. Aliasing between two fields that share a pointee is not captured.
- The reflection plumbing (`CanSet`, `CanInterface`, `CanAddr`, and interfaceFrom's value-then-address probing) is replaced by two capability flags per defined type, `hasSet` and `hasText`. `PtrT` of a defined type inherits them. A field is either eligible or not.
- EnvCoerce.CoercePairsLastWins: map keys are merged by equality of model values, not by Go's `==`. For pointer keys, Go creates a new pointer for every pair, so `"k:a,k:b"` gives two entries where the model gives one. For float keys, NaN keys never merge in Go, and `0` and `-0` merge in Go but not in the model. EnvCoerce.MapCoercion, EnvCoerce.CoercePairsKeys and EnvCoerce.CoercePairsOnly share this: their statements about keys hold for keys compared as values.
- EnvCoerce.Coerce: an interface-kinded field (`OtherT`) is never converted. In Go, a non-nil interface field whose dynamic value has `Set` or `UnmarshalText` is set through that method. The model does not track an interface's dynamic value.
- EnvCoerce.Convert: the same holds for interface-kinded elements of slices and maps.
- EnvGather.GatherFails: only defined types (`Named`) carry the capability flags. An anonymous struct field type that gets `Set` or `UnmarshalText` by embedding a type such as `time.Time` is rejected here, but Go accepts it.
- GoTypes.IntWidth.Bits: `int` and `uint` are 64 bits wide, as on a 64-bit platform. On a 32-bit target `typ.Bits()` is 32, which narrows ParseInt/ParseUint's range for those two kinds.
- Struct tags are given as a map from tag name to value. Parsing the tag string itself is not modelled.
- `os.LookupEnv` is a read-only `map<string, string>` passed to Load.
- The text of `ParseError.Error()` (env/envvars.go:53-55) is not modelled; only its fields are. The same holds for the messages of the missing-key, unsupported-struct and invalid-map-item errors.
- `TypeString` gives anonymous struct types as `struct {...}`, not their full field list.
- gatherInfo, Load and the map loop: the body of each loop is its own method (`VisitField`, `BindField`, `SetPair`). The loop method calls it once per iteration.
- GoStrconv.ParseFormatIntBelow: it requires a bit size of at least 2. For bit size 1, `strconv.ParseInt` clamps a negative out-of-range input differently. processField only uses bit sizes 8 to 64.
- mlog/dump.go and mlog/mlog_test.go belong to a logger outside the binder, so they are not part of this model.
