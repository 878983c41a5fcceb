/** The layout analysis of `setup`: for every package-level variable of type
    `flag.FlagSet`, where its `formal` field lies, so that the generated
    benchmark can zero that field between runs. Struct layout follows a
    simple alignment model: each field starts at the first multiple of its
    alignment after the previous field, and the struct is padded to a
    multiple of its largest alignment. */
module Layout {

  /** A struct field: its name, the size of its type and its alignment. */
  datatype Field = Field(name: string, size: nat, align: nat)

  /** Alignments are at least one byte. */
  predicate ValidFields(fields: seq<Field>) {
    forall i :: 0 <= i < |fields| ==> fields[i].align >= 1
  }

  /** What `setup` records about one FlagSet variable. */
  datatype ToZero = ToZero(pkgPath: string, name: string, totalSize: nat, offset: nat, zeroSize: nat)

  datatype Result<T> = Success(value: T) | Failure(error: string)

  /** The panic message when a FlagSet has no `formal` field. */
  const FieldNotFound := "field not found"

  /** `r` is a multiple of `a`. */
  predicate MultipleOf(r: nat, a: nat)
    requires a >= 1
    decreases r
  {
    r == 0 || (r >= a && MultipleOf(r - a, a))
  }

  /** `x` rounded up to a multiple of `a`. */
  function AlignUp(x: nat, a: nat): (r: nat)
    requires a >= 1
    ensures x <= r < x + a && MultipleOf(r, a)
    decreases x
  {
    if x == 0 then 0
    else if x <= a then a
    else a + AlignUp(x - a, a)
  }

  /** The offset of field `i`: the end of field `i - 1`, aligned up. */
  function Offset(fields: seq<Field>, i: nat): nat
    requires ValidFields(fields) && i < |fields|
  {
    if i == 0 then AlignUp(0, fields[0].align)
    else AlignUp(Offset(fields, i - 1) + fields[i - 1].size, fields[i].align)
  }

  /** The largest field alignment, and at least one. */
  function StructAlign(fields: seq<Field>): (a: nat)
    ensures a >= 1 && forall i :: 0 <= i < |fields| ==> fields[i].align <= a
    ensures a == 1 || exists i :: 0 <= i < |fields| && a == fields[i].align
  {
    if fields == [] then 1
    else
      var a := StructAlign(fields[1..]);
      assert forall i :: 1 <= i < |fields| ==> fields[i] == fields[1..][i - 1];
      if fields[0].align > a then fields[0].align else a
  }

  /** The end of the last field. */
  function End(fields: seq<Field>): nat
    requires ValidFields(fields)
  {
    if fields == [] then 0 else Offset(fields, |fields| - 1) + fields[|fields| - 1].size
  }

  /** The size of the struct: the end of its last field, padded to its alignment. */
  function Sizeof(fields: seq<Field>): nat
    requires ValidFields(fields)
  {
    AlignUp(End(fields), StructAlign(fields))
  }

  /** No two fields overlap: each field ends before any later one starts. */
  lemma {:induction false} FieldsInOrder(fields: seq<Field>, i: nat, j: nat)
    requires ValidFields(fields) && i < j < |fields|
    ensures Offset(fields, i) + fields[i].size <= Offset(fields, j)
    decreases j
  {
    if i < j - 1 {
      FieldsInOrder(fields, i, j - 1);
    }
  }

  /** Every field lies within the struct. */
  lemma FieldWithinStruct(fields: seq<Field>, i: nat)
    requires ValidFields(fields) && i < |fields|
    ensures Offset(fields, i) + fields[i].size <= Sizeof(fields)
  {
    var n := |fields| - 1;
    if i < n {
      FieldsInOrder(fields, i, n);
    }
    assert End(fields) == Offset(fields, n) + fields[n].size;
    assert End(fields) <= Sizeof(fields);
  }

  // ----- the FlagSet branch of setup -----

  /** The index of the last field named "formal", or -1 when there is none. */
  function FormalIndex(fields: seq<Field>): (k: int)
    ensures -1 <= k < |fields|
    ensures k == -1 <==> forall j :: 0 <= j < |fields| ==> fields[j].name != "formal"
    ensures k >= 0 ==> fields[k].name == "formal" && forall j :: k < j < |fields| ==> fields[j].name != "formal"
  {
    if fields == [] then -1
    else if fields[|fields| - 1].name == "formal" then |fields| - 1
    else FormalIndex(fields[..|fields| - 1])
  }

  /** The field loop of `setup`: `index` is set at each field named "formal",
      and `field` is left at the last field visited (-1 standing for nil when
      the struct has no fields). */
  method FindFormal(fields: seq<Field>) returns (index: int, field: int)
    ensures index == FormalIndex(fields)
    ensures field == |fields| - 1
  {
    index, field := -1, -1;
    var i := 0;
    while i < |fields|
      invariant 0 <= i <= |fields|
      invariant index == FormalIndex(fields[..i])
      invariant field == i - 1
    {
      field := i;
      if fields[i].name == "formal" {
        index := i;
      }
      assert fields[..i + 1][..i] == fields[..i];
      i := i + 1;
    }
    assert fields[..i] == fields;
  }

  /** The record as the source writes it: after the loop `field` is the last
      field of the struct, so the size recorded is that field's, not the size
      of `formal`. */
  function RecordAsWritten(pkgPath: string, name: string, fields: seq<Field>): Result<ToZero>
    requires ValidFields(fields)
  {
    var k := FormalIndex(fields);
    if k == -1 then Failure(FieldNotFound)
    else Success(ToZero(pkgPath, name, Sizeof(fields), Offset(fields, k), fields[|fields| - 1].size))
  }

  /** The record as intended: the offset and the size of `formal`. */
  function Record(pkgPath: string, name: string, fields: seq<Field>): Result<ToZero>
    requires ValidFields(fields)
  {
    var k := FormalIndex(fields);
    if k == -1 then Failure(FieldNotFound)
    else Success(ToZero(pkgPath, name, Sizeof(fields), Offset(fields, k), fields[k].size))
  }

  /** The FlagSet branch of `setup` for one variable as the source writes
      it: the size recorded is that of `field`, the last field. */
  method RecordFlagSetAsWritten(pkgPath: string, name: string, fields: seq<Field>) returns (r: Result<ToZero>)
    requires ValidFields(fields)
    ensures r == RecordAsWritten(pkgPath, name, fields)
  {
    var index, field := FindFormal(fields);
    if index == -1 {
      return Failure(FieldNotFound);
    }
    r := Success(ToZero(pkgPath, name, Sizeof(fields), Offset(fields, index), fields[field].size));
  }

  /** The FlagSet branch of `setup` for one variable, corrected to record
      the size of `formal`. */
  method RecordFlagSet(pkgPath: string, name: string, fields: seq<Field>) returns (r: Result<ToZero>)
    requires ValidFields(fields)
    ensures r == Record(pkgPath, name, fields)
  {
    var index, field := FindFormal(fields);
    if index == -1 {
      return Failure(FieldNotFound);
    }
    r := Success(ToZero(pkgPath, name, Sizeof(fields), Offset(fields, index), fields[index].size));
  }

  /** A FlagSet without a `formal` field aborts; otherwise the record is the
      layout of `formal` and lies within the variable. */
  lemma RecordMeaning(pkgPath: string, name: string, fields: seq<Field>)
    requires ValidFields(fields)
    ensures Record(pkgPath, name, fields).Failure? <==> forall j :: 0 <= j < |fields| ==> fields[j].name != "formal"
    ensures Record(pkgPath, name, fields).Failure? ==> Record(pkgPath, name, fields).error == FieldNotFound
    ensures Record(pkgPath, name, fields).Success? ==>
      var z := Record(pkgPath, name, fields).value;
      exists k :: 0 <= k < |fields| && fields[k].name == "formal" &&
        z.offset == Offset(fields, k) && z.zeroSize == fields[k].size && z.totalSize == Sizeof(fields) &&
        z.pkgPath == pkgPath && z.name == name
    ensures Record(pkgPath, name, fields).Success? ==>
      var z := Record(pkgPath, name, fields).value;
      z.offset + z.zeroSize <= z.totalSize
  {
    var k := FormalIndex(fields);
    if k >= 0 {
      FieldWithinStruct(fields, k);
    }
  }

  /** As written, the range still lies within the variable, since `formal`
      starts no later than the last field. */
  lemma AsWrittenWithinStruct(pkgPath: string, name: string, fields: seq<Field>)
    requires ValidFields(fields)
    ensures RecordAsWritten(pkgPath, name, fields).Success? ==>
      var z := RecordAsWritten(pkgPath, name, fields).value;
      z.offset + z.zeroSize <= z.totalSize
  {
    var k := FormalIndex(fields);
    if 0 <= k < |fields| - 1 {
      FieldsInOrder(fields, k, |fields| - 1);
      FieldWithinStruct(fields, |fields| - 1);
    } else if k >= 0 {
      FieldWithinStruct(fields, k);
    }
  }

  /** Three 8-byte fields with `formal` in the middle: offset 8, size 8,
      total 24. */
  lemma RecordExample()
    ensures Record("p", "fs", [Field("usage", 8, 8), Field("formal", 8, 8), Field("args", 8, 8)])
      == Success(ToZero("p", "fs", 24, 8, 8))
  {
    var fields := [Field("usage", 8, 8), Field("formal", 8, 8), Field("args", 8, 8)];
    assert FormalIndex(fields[..2]) == 1;
    assert Offset(fields, 1) == 8;
    assert Offset(fields, 2) == 16;
    assert AlignUp(24, 8) == 24;
  }

  /** When the last field is wider than `formal`, the size recorded as
      written is the last field's: here 16 bytes instead of 8. */
  lemma AsWrittenRecordsLastFieldSize()
    ensures var fields := [Field("usage", 8, 8), Field("formal", 8, 8), Field("output", 16, 8)];
      RecordAsWritten("p", "fs", fields) == Success(ToZero("p", "fs", 32, 8, 16)) &&
      Record("p", "fs", fields) == Success(ToZero("p", "fs", 32, 8, 8))
  {
    var fields := [Field("usage", 8, 8), Field("formal", 8, 8), Field("output", 16, 8)];
    assert FormalIndex(fields[..2]) == 1;
    assert Offset(fields, 1) == 8;
    assert Offset(fields, 2) == 16;
    assert AlignUp(32, 8) == 32;
  }

  // ----- the package scope -----

  /** A package-level object: a variable with the string of its type and,
      for a struct type, its fields; or anything else (constant, type,
      function). */
  datatype Object = Var(name: string, typeString: string, fields: seq<Field>) | Other(name: string)

  predicate IsFlagSet(obj: Object) {
    obj.Var? && obj.typeString == "flag.FlagSet"
  }

  predicate HasFormal(fields: seq<Field>) {
    exists j :: 0 <= j < |fields| && fields[j].name == "formal"
  }

  predicate ValidScope(scope: seq<Object>) {
    forall k :: 0 <= k < |scope| && scope[k].Var? ==> ValidFields(scope[k].fields)
  }

  /** The FlagSet variables of `scope`, in scope order. */
  function FlagSetVars(scope: seq<Object>): (vs: seq<Object>)
    requires ValidScope(scope)
    ensures ValidScope(vs) && forall k :: 0 <= k < |vs| ==> IsFlagSet(vs[k])
  {
    if scope == [] then []
    else
      var last := scope[|scope| - 1];
      assert ValidScope(scope[..|scope| - 1]) by {
        assert forall k :: 0 <= k < |scope| - 1 ==> scope[..|scope| - 1][k] == scope[k];
      }
      FlagSetVars(scope[..|scope| - 1]) + (if IsFlagSet(last) then [last] else [])
  }

  /** The ToZero list `setup` builds over the objects of the scope (in the
      order of its sorted names), aborting at the first FlagSet without
      `formal`. */
  function ToZeroAll(pkgPath: string, scope: seq<Object>): Result<seq<ToZero>>
    requires ValidScope(scope)
  {
    if scope == [] then Success([])
    else
      var last := scope[|scope| - 1];
      match ToZeroAll(pkgPath, scope[..|scope| - 1])
      case Failure(e) => Failure(e)
      case Success(zs) =>
        if !IsFlagSet(last) then Success(zs)
        else match Record(pkgPath, last.name, last.fields)
          case Failure(e) => Failure(e)
          case Success(z) => Success(zs + [z])
  }

  /** The scope loop of `setup`. */
  method CollectToZero(pkgPath: string, scope: seq<Object>) returns (r: Result<seq<ToZero>>)
    requires ValidScope(scope)
    ensures r == ToZeroAll(pkgPath, scope)
  {
    var toZero: seq<ToZero> := [];
    var i := 0;
    while i < |scope|
      invariant 0 <= i <= |scope|
      invariant ToZeroAll(pkgPath, scope[..i]) == Success(toZero)
    {
      var obj := scope[i];
      assert scope[..i + 1][..i] == scope[..i] && scope[..i + 1][i] == obj;
      if IsFlagSet(obj) {
        var rec := RecordFlagSet(pkgPath, obj.name, obj.fields);
        if rec.Failure? {
          ToZeroAllStops(pkgPath, scope, i + 1);
          return Failure(rec.error);
        }
        toZero := toZero + [rec.value];
      }
      i := i + 1;
    }
    assert scope[..i] == scope;
    return Success(toZero);
  }

  /** Once the list fails on a prefix, it fails with the same error. */
  lemma {:induction false} ToZeroAllStops(pkgPath: string, scope: seq<Object>, i: nat)
    requires ValidScope(scope) && i <= |scope| && ToZeroAll(pkgPath, scope[..i]).Failure?
    ensures ToZeroAll(pkgPath, scope) == ToZeroAll(pkgPath, scope[..i])
    decreases |scope| - i
  {
    if i < |scope| {
      assert scope[..i + 1][..i] == scope[..i];
      ToZeroAllStops(pkgPath, scope, i + 1);
    } else {
      assert scope[..i] == scope;
    }
  }

  /** The list fails exactly when some FlagSet variable has no `formal`
      field; otherwise it holds one record per FlagSet variable, in scope
      order: the layout of that variable's `formal` field, which lies within
      the variable. */
  lemma {:induction false} ToZeroAllMeaning(pkgPath: string, scope: seq<Object>)
    requires ValidScope(scope)
    ensures ToZeroAll(pkgPath, scope).Success? <==>
      forall k :: 0 <= k < |scope| && IsFlagSet(scope[k]) ==> HasFormal(scope[k].fields)
    ensures ToZeroAll(pkgPath, scope).Success? ==>
      var zs := ToZeroAll(pkgPath, scope).value;
      var vs := FlagSetVars(scope);
      |zs| == |vs| &&
      forall k :: 0 <= k < |zs| ==>
        Record(pkgPath, vs[k].name, vs[k].fields) == Success(zs[k]) &&
        zs[k].name == vs[k].name && zs[k].pkgPath == pkgPath &&
        zs[k].offset + zs[k].zeroSize <= zs[k].totalSize
    decreases |scope|
  {
    if scope != [] {
      var n := |scope| - 1;
      var init := scope[..n];
      var last := scope[n];
      assert ValidScope(init) by {
        forall k | 0 <= k < |init| && init[k].Var? ensures ValidFields(init[k].fields) {
          assert init[k] == scope[k];
        }
      }
      ToZeroAllMeaning(pkgPath, init);
      assert forall k :: 0 <= k < n ==> init[k] == scope[k];
      if IsFlagSet(last) {
        RecordMeaning(pkgPath, last.name, last.fields);
      }
    }
  }

  /** A package with no FlagSet variable records nothing. */
  lemma NoFlagSetNoRecord(pkgPath: string, scope: seq<Object>)
    requires ValidScope(scope) && forall k :: 0 <= k < |scope| ==> !IsFlagSet(scope[k])
    ensures ToZeroAll(pkgPath, scope) == Success([])
  {
    ToZeroAllMeaning(pkgPath, scope);
  }
}
