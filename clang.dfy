/**
 * What the generator reads from libclang, as plain data. libclang itself
 * (cursor visiting, type queries, availability queries, `CXString`
 * handling) is foreign code: each query the modelled code makes becomes a
 * field here, filled by the front end.
 */
module Clang {
  import opened Wrappers
  import opened Encoding

  /**
   * A `CXType`: its kind, its spelling, the spelling with template
   * arguments removed (`stripTemplateArgs`, declared outside the modelled
   * files), its Objective-C encoding (`clang_Type_getObjCEncoding`), and the
   * type it stands for when it is a typedef (`clang_getCanonicalType`) or an
   * elaborated type (`clang_Type_getNamedType`).
   */
  datatype CXType = CXType(
    kind: TypeKind,
    spelling: string,
    templateFree: string,
    objcEncoding: string,
    target: Option<CXType>)

  /** The canonical or named type; a type without one resolves to itself. */
  function Target(t: CXType): (r: CXType)
    ensures t.target.None? ==> r == t
  {
    match t.target
    case Some(u) => u
    case None => t
  }

  /** The cursor kinds the modelled visitors distinguish; any other kind by number. */
  datatype CursorKind =
    | ObjCInterfaceDecl | ObjCCategoryDecl | ObjCProtocolDecl
    | TypedefDecl | EnumDecl | VarDecl | FunctionDecl | StructDecl | UnionDecl
    | FieldDecl | ParmDecl | EnumConstantDecl
    | ObjCClassRef | ObjCProtocolRef | TypeRef
    | UnexposedAttr | PackedAttr | VisibilityAttr | ObjCBoxable | CompoundStmt
    | AsmLabelAttr | ConstAttr | PureAttr | NSReturnsRetained | WarnUnusedResultAttr
    | OtherCursor(code: int)

  /** A `CXVersion`; libclang reports a missing component as -1. */
  datatype Version = Version(major: int, minor: int, subminor: int)

  /** One `CXPlatformAvailability` record. */
  datatype PlatformAvailability = PlatformAvailability(platform: string, introduced: Version, unavailable: bool)

  /**
   * A cursor with the answers to every libclang query the modelled code
   * makes about it, and its children in visiting order.
   */
  datatype Cursor = Cursor(
    kind: CursorKind,
    displayName: string,           // clang_getCursorDisplayName
    spelling: string,              // clang_getCursorSpelling
    available: bool,               // clang_getCursorAvailability == CXAvailability_Available
    isOwnDefinition: bool,         // the definition cursor is invalid or equals this cursor
    filename: string,              // getSourceLocation
    line: string,
    platforms: seq<PlatformAvailability>,
    alwaysDeprecated: bool,
    alwaysUnavailable: bool,
    cursorType: CXType,            // clang_getCursorType
    resolvedType: CXType,          // resolveCursorType, declared outside the modelled files
    typedefUnderlying: CXType,     // clang_getTypedefDeclUnderlyingType
    resultType: CXType,            // clang_getCursorResultType
    declEncoding: string,          // clang_getDeclObjCTypeEncoding
    enumValue: int,                // clang_getEnumConstantDeclValue
    variadic: bool,                // clang_isFunctionTypeVariadic of the cursor type
    propertyAttributes: nat,       // clang_Cursor_getObjCPropertyAttributes
    isOptional: bool,              // clang_Cursor_isObjCOptional
    unexposed: bool,               // clang_isUnexposed of the cursor kind
    children: seq<Cursor>)
}
