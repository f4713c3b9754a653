/** Roc integration (roc_integration/src/lib.rs): type IDs, the flag
    queries of a registered type, and the import paths and qualified names
    the code generator writes for it. The FNV-1a hash is a parameter. */
module RocIntegration {
  import opened Wrappers

  newtype U64 = x: int | 0 <= x < 0x1_0000_0000_0000_0000

  /** `RocTypeID`. */
  datatype RocTypeID = RocTypeID(value: U64)

  /** `RocTypeID::hashed_from_str`: the 64-bit FNV-1a hash of the input,
      except that zero is reserved and replaced by one. */
  function HashedFromStr(input: string, fnv1a: string -> U64): (id: RocTypeID)
    ensures id.value != 0
    ensures fnv1a(input) != 0 ==> id.value == fnv1a(input)
    ensures fnv1a(input) == 0 ==> id.value == 1
  {
    var hash := fnv1a(input);
    RocTypeID(if hash == 0 then 1 else hash)
  }

  /** `RocTypeID::from_u64`. */
  function FromU64(value: U64): RocTypeID
  {
    RocTypeID(value)
  }

  /** `RocTypeID::as_u64`. */
  function AsU64(id: RocTypeID): U64
  {
    id.value
  }

  /** `from_u64` and `as_u64` are inverse to each other. */
  lemma FromU64AsU64RoundTrip(value: U64, id: RocTypeID)
    ensures AsU64(FromU64(value)) == value
    ensures FromU64(AsU64(id)) == id
  {
  }

  /** `RegisteredTypeFlags`, a `u8` bit set. */
  type RegisteredTypeFlags = bv8

  const IS_POD: RegisteredTypeFlags := 1
  const IS_COMPONENT: RegisteredTypeFlags := 2

  /** `ir::PrimitivePrecision`. */
  datatype PrimitivePrecision = PrecisionIrrelevant | SinglePrecision | DoublePrecision

  /** `ir::PrimitiveKind`. */
  datatype PrimitiveKind = Builtin | LibraryProvided(precision: PrimitivePrecision)

  /** `ir::TypeFields`. */
  datatype TypeFields = NoFields | Named | Unnamed

  /** `ir::TypeComposition`, without the field and variant lists. */
  datatype TypeComposition =
    | Primitive(kind: PrimitiveKind)
    | Struct(alignment: nat, fields: TypeFields)
    | Enum

  /** `ir::TypeUsage`. */
  datatype TypeUsage = Concrete | TypeParameter

  /** `RegisteredType`, with the parts the queries and name builders
      read. */
  datatype RegisteredType = RegisteredType(
    packageName: Option<string>,
    parentModules: Option<string>,
    moduleName: string,
    functionPostfix: Option<string>,
    flags: RegisteredTypeFlags,
    name: string,
    composition: TypeComposition)

  /** `is_pod`. */
  predicate IsPod(t: RegisteredType)
  {
    t.flags & IS_POD == IS_POD
  }

  /** `is_component`. */
  predicate IsComponent(t: RegisteredType)
  {
    t.flags & IS_COMPONENT == IS_COMPONENT
  }

  /** Each query reads its own bit only: setting or clearing the other
      flag does not change it. */
  lemma FlagQueriesReadOwnBit(t: RegisteredType)
    ensures IsPod(t.(flags := t.flags | IS_COMPONENT)) == IsPod(t)
    ensures IsPod(t.(flags := t.flags & !IS_COMPONENT)) == IsPod(t)
    ensures IsComponent(t.(flags := t.flags | IS_POD)) == IsComponent(t)
    ensures IsComponent(t.(flags := t.flags & !IS_POD)) == IsComponent(t)
    ensures IsPod(t.(flags := t.flags | IS_POD)) && !IsPod(t.(flags := t.flags & !IS_POD))
    ensures IsComponent(t.(flags := t.flags | IS_COMPONENT)) && !IsComponent(t.(flags := t.flags & !IS_COMPONENT))
  {
  }

  /** `is_builtin`. */
  predicate IsBuiltin(t: RegisteredType)
  {
    t.composition == Primitive(Builtin)
  }

  /** `alignment_as_pod_struct`: the alignment, for POD structs only. */
  function AlignmentAsPodStruct(t: RegisteredType): (r: Option<nat>)
    ensures r.Some? <==> t.composition.Struct? && IsPod(t)
    ensures r.Some? ==> r.value == t.composition.alignment
  {
    if t.composition.Struct? && t.flags & IS_POD == IS_POD then Some(t.composition.alignment) else None
  }

  /** `PrimitivePrecision::roc_type_variable`. */
  function PrecisionTypeVariable(precision: PrimitivePrecision): (r: Option<string>)
    ensures r.None? <==> precision == PrecisionIrrelevant
    ensures precision == SinglePrecision ==> r == Some("Binary32")
    ensures precision == DoublePrecision ==> r == Some("Binary64")
  {
    match precision
    case PrecisionIrrelevant => None
    case SinglePrecision => Some("Binary32")
    case DoublePrecision => Some("Binary64")
  }

  /** `RegisteredType::roc_type_variable`: only library-provided
      primitives of a definite precision have one. */
  function TypeVariable(t: RegisteredType): (r: Option<string>)
    ensures r.Some? ==> t.composition.Primitive? && t.composition.kind.LibraryProvided?
    ensures r.Some? ==> !IsBuiltin(t)
  {
    match t.composition
    case Primitive(LibraryProvided(precision)) => PrecisionTypeVariable(precision)
    case _ => None
  }

  /** What `write_package_to_path` appends: the package and a dot, when
      the package is set and is not the current one. */
  function PackagePrefix(t: RegisteredType, currentPackage: string): string
  {
    if t.packageName.Some? && t.packageName.value != currentPackage then t.packageName.value + "." else ""
  }

  /** What `write_parent_modules_to_path` appends. */
  function ParentPrefix(t: RegisteredType): string
  {
    if t.parentModules.Some? then t.parentModules.value + "." else ""
  }

  /** The import path `import_path` builds. */
  function ImportPathOf(t: RegisteredType, currentPackage: string): string
  {
    PackagePrefix(t, currentPackage) + ParentPrefix(t) + t.moduleName
  }

  /** `write_package_to_path`. */
  method WritePackageToPath(t: RegisteredType, path: string, currentPackage: string) returns (r: string)
    ensures r == path + PackagePrefix(t, currentPackage)
  {
    r := path;
    if t.packageName.Some? && t.packageName.value != currentPackage {
      r := r + t.packageName.value;
      r := r + ".";
    }
  }

  /** `write_parent_modules_to_path`. */
  method WriteParentModulesToPath(t: RegisteredType, path: string) returns (r: string)
    ensures r == path + ParentPrefix(t)
  {
    r := path;
    if t.parentModules.Some? {
      r := r + t.parentModules.value;
      r := r + ".";
    }
  }

  /** `write_module_to_path`. */
  method WriteModuleToPath(t: RegisteredType, path: string) returns (r: string)
    ensures r == path + t.moduleName + "."
  {
    r := path + t.moduleName;
    r := r + ".";
  }

  /** `import_path`. */
  method ImportPath(t: RegisteredType, currentPackage: string) returns (path: string)
    ensures path == ImportPathOf(t, currentPackage)
  {
    path := "";
    path := WritePackageToPath(t, path, currentPackage);
    path := WriteParentModulesToPath(t, path);
    path := path + t.moduleName;
  }

  /** The import path of a type from another package is that package, a
      dot and the path the type has inside its own package; types without
      a package, or in the current one, are imported by their module path
      alone. */
  lemma ImportPathPackageQualification(t: RegisteredType, currentPackage: string)
    ensures t.packageName.None? ==> ImportPathOf(t, currentPackage) == ParentPrefix(t) + t.moduleName
    ensures t.packageName.Some? ==>
      ImportPathOf(t, t.packageName.value) == ParentPrefix(t) + t.moduleName
    ensures t.packageName.Some? && t.packageName.value != currentPackage ==>
      ImportPathOf(t, currentPackage) == t.packageName.value + "." + ImportPathOf(t, t.packageName.value)
    ensures ImportPathOf(t, currentPackage)[|ImportPathOf(t, currentPackage)| - |t.moduleName|..] == t.moduleName
  {
    var path := ImportPathOf(t, currentPackage);
    assert path == PackagePrefix(t, currentPackage) + ParentPrefix(t) + t.moduleName;
    assert path[|path| - |t.moduleName|..] == t.moduleName;
    if t.packageName.Some? && t.packageName.value != currentPackage {
      assert PackagePrefix(t, currentPackage) + ParentPrefix(t) + t.moduleName
        == t.packageName.value + "." + (ParentPrefix(t) + t.moduleName);
    }
  }

  /** The qualified name `qualified_type_name` builds. */
  function QualifiedTypeNameOf(t: RegisteredType, usage: TypeUsage): string
  {
    var typeVariable := TypeVariable(t);
    if typeVariable.Some? then
      var inner := ParentPrefix(t) + t.moduleName + "." + t.name + " " + typeVariable.value;
      if usage == TypeParameter then "(" + inner + ")" else inner
    else if IsBuiltin(t) then t.name
    else ParentPrefix(t) + t.moduleName + "." + t.name
  }

  /** `qualified_type_name`. */
  method QualifiedTypeName(t: RegisteredType, usage: TypeUsage) returns (name: string)
    ensures name == QualifiedTypeNameOf(t, usage)
  {
    var typeVariable := TypeVariable(t);
    if typeVariable.Some? {
      name := "";
      if usage == TypeParameter {
        name := name + "(";
      }
      name := WriteParentModulesToPath(t, name);
      name := WriteModuleToPath(t, name);
      name := name + t.name;
      name := name + " ";
      name := name + typeVariable.value;
      if usage == TypeParameter {
        name := name + ")";
      }
      assert usage == TypeParameter ==>
        name == "(" + (ParentPrefix(t) + t.moduleName + "." + t.name + " " + typeVariable.value) + ")";
    } else if IsBuiltin(t) {
      name := t.name;
    } else {
      name := "";
      name := WriteParentModulesToPath(t, name);
      name := WriteModuleToPath(t, name);
      name := name + t.name;
    }
  }

  /** Qualified names by case: a type with a type variable is its
      qualified name applied to the variable, in parentheses exactly when
      used as a type parameter; a builtin is its bare name in any usage;
      any other type is its module-qualified name in any usage. */
  lemma QualifiedTypeNameCases(t: RegisteredType)
    ensures TypeVariable(t).Some? ==>
      QualifiedTypeNameOf(t, TypeParameter) == "(" + QualifiedTypeNameOf(t, Concrete) + ")"
    ensures TypeVariable(t).Some? ==>
      QualifiedTypeNameOf(t, Concrete) == ParentPrefix(t) + t.moduleName + "." + t.name + " " + TypeVariable(t).value
    ensures TypeVariable(t).None? ==> QualifiedTypeNameOf(t, TypeParameter) == QualifiedTypeNameOf(t, Concrete)
    ensures IsBuiltin(t) ==> QualifiedTypeNameOf(t, Concrete) == t.name
    ensures TypeVariable(t).None? && !IsBuiltin(t) ==>
      QualifiedTypeNameOf(t, Concrete) == ParentPrefix(t) + t.moduleName + "." + t.name
  {
  }

  /** The name `qualified_func_name` builds. */
  function QualifiedFuncNameOf(t: RegisteredType, funcBase: string): string
  {
    ParentPrefix(t) + t.moduleName + "." + funcBase + UnwrapOr(t.functionPostfix, "")
  }

  /** `qualified_func_name`. */
  method QualifiedFuncName(t: RegisteredType, funcBase: string) returns (path: string)
    ensures path == QualifiedFuncNameOf(t, funcBase)
  {
    path := "";
    path := WriteParentModulesToPath(t, path);
    path := WriteModuleToPath(t, path);
    path := path + funcBase;
    path := path + UnwrapOr(t.functionPostfix, "");
  }

  /** `write_bytes_func_name`. */
  method WriteBytesFuncName(t: RegisteredType) returns (name: string)
    ensures name == QualifiedFuncNameOf(t, "write_bytes")
  {
    name := QualifiedFuncName(t, "write_bytes");
  }

  /** `from_bytes_func_name`. */
  method FromBytesFuncName(t: RegisteredType) returns (name: string)
    ensures name == QualifiedFuncNameOf(t, "from_bytes")
  {
    name := QualifiedFuncName(t, "from_bytes");
  }

  /** Function names of one type share the module-qualified prefix and
      the postfix, so different function bases give different names: the
      `write_bytes` and `from_bytes` names never clash. */
  lemma FuncNamesDifferByBase(t: RegisteredType, base1: string, base2: string)
    requires |base1| == |base2|
    ensures QualifiedFuncNameOf(t, base1) == QualifiedFuncNameOf(t, base2) <==> base1 == base2
    ensures QualifiedFuncNameOf(t, "write_bytes") != QualifiedFuncNameOf(t, "from_bytes")
  {
    var prefix := ParentPrefix(t) + t.moduleName + ".";
    var postfix := UnwrapOr(t.functionPostfix, "");
    if QualifiedFuncNameOf(t, base1) == QualifiedFuncNameOf(t, base2) {
      var n1 := QualifiedFuncNameOf(t, base1);
      assert n1 == prefix + base1 + postfix;
      assert QualifiedFuncNameOf(t, base2) == prefix + base2 + postfix;
      assert base1 == n1[|prefix|..|prefix| + |base1|];
    }
    var w, f := QualifiedFuncNameOf(t, "write_bytes"), QualifiedFuncNameOf(t, "from_bytes");
    assert w == prefix + "write_bytes" + postfix && f == prefix + "from_bytes" + postfix;
    assert w[|prefix|] == 'w' && f[|prefix|] == 'f';
  }
}
