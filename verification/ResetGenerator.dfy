/**
 * cmd/reset/main.go: from the fields of a marked struct to the statements of its Reset method.
 * Statements are kept as a small syntax tree; the zero literals are the generator's own text.
 */
module ResetGenerator {
  import opened Wrappers

  // ---------- Go type expressions, as go/ast gives them ----------

  datatype Direction = Both | SendOnly | ReceiveOnly

  /**
   * An identifier used as a type. Numeric stands for the sized and unsized integer, float and
   * complex types; ByteOrRune for byte and rune, which the generator lists as built in but has no
   * zero literal for. Anything else is a user's type, any and uintptr included.
   */
  datatype Identifier = Numeric | Text | Bool | ByteOrRune | Error | User(name: string)

  datatype TypeExpr =
    | Ident(id: Identifier)
    | Star(elem: TypeExpr)
    | ArrayOf(length: Option<nat>, elem: TypeExpr)  // None is a slice
    | MapOf(key: TypeExpr, value: TypeExpr)
    | Selector(pkg: string, name: string)
    | Interface
    | Chan(dir: Direction)
    | Func
    | Other                                         // generic instances, parentheses, inline structs

  /** One line of a struct: several names may share a type; an embedded field has none. */
  datatype FieldDecl = FieldDecl(names: seq<string>, typ: TypeExpr)

  /** The generator's typeName strings, by their shape. */
  datatype TypeName =
    | Plain(id: Identifier)
    | Qualified(pkg: string, name: string)
    | SliceName(elem: TypeName)               // also for fixed arrays
    | MapName(key: TypeName, value: TypeName)
    | InterfaceName
    | ChanName(dir: Direction)                // chan, chan<-, <-chan
    | FuncName
    | Unknown

  datatype TypeInfo = TypeInfo(typeName: TypeName, isPointer: bool, isSlice: bool, isMap: bool, isStruct: bool)

  /** isBuiltinStructType: every identifier outside the list is taken for a struct. */
  predicate TakenForStruct(id: Identifier) {
    id.User?
  }

  function AnalyzeType(t: TypeExpr): TypeInfo {
    match t
    case Ident(id) => TypeInfo(Plain(id), false, false, false, TakenForStruct(id))
    case Star(x) => AnalyzeType(x).(isPointer := true)
    case ArrayOf(_, x) =>
      var e := AnalyzeType(x);
      TypeInfo(SliceName(e.typeName), false, true, false, e.isStruct)
    case MapOf(k, v) =>
      TypeInfo(MapName(AnalyzeType(k).typeName, AnalyzeType(v).typeName), false, false, true, false)
    case Selector(p, n) => TypeInfo(Qualified(p, n), false, false, false, true)
    case Interface => TypeInfo(InterfaceName, false, false, false, false)
    case Chan(d) => TypeInfo(ChanName(d), false, false, false, false)
    case Func => TypeInfo(FuncName, false, false, false, false)
    case Other => TypeInfo(Unknown, false, false, false, false)
  }

  // ---------- the emitted statements ----------

  datatype FieldInfo = FieldInfo(name: string, info: TypeInfo)

  /** The literals 0, "", false, nil, and T{}. */
  datatype Zero = ZeroNumber | EmptyText | FalseLiteral | Nil | Composite(of: TypeName)

  datatype Stmt =
    | Reslice(field: string)                    // rs.F = rs.F[:0]
    | Clear(field: string)                      // clear(rs.F)
    | ResetPointee(field: string)               // if rs.F != nil, rs.F's Reset method if it has one
    | AssignPointee(field: string, zero: Zero)  // if rs.F != nil, *rs.F = zero
    | ResetField(field: string)                 // &rs.F's Reset method if it has one
    | AssignField(field: string, zero: Zero)    // rs.F = zero

  function GetZeroValue(n: TypeName): Zero {
    match n
    case Plain(Numeric) => ZeroNumber
    case Plain(Text) => EmptyText
    case Plain(Bool) => FalseLiteral
    case InterfaceName => Nil
    case Plain(Error) => Nil
    case SliceName(_) => Nil
    case MapName(_, _) => Nil
    case ChanName(Both) => Nil
    case ChanName(SendOnly) => Nil
    case FuncName => Nil
    case Qualified(p, q) => if p == "time" && q == "Duration" then ZeroNumber else Composite(n)
    case _ => Composite(n)
  }

  function GenerateFieldReset(f: FieldInfo): Stmt {
    if f.info.isSlice then Reslice(f.name)
    else if f.info.isMap then Clear(f.name)
    else if f.info.isPointer && f.info.isStruct then ResetPointee(f.name)
    else if f.info.isPointer then AssignPointee(f.name, GetZeroValue(f.info.typeName))
    else if f.info.isStruct then ResetField(f.name)
    else AssignField(f.name, GetZeroValue(f.info.typeName))
  }

  /** The first byte of the name in UTF-8. */
  function FirstByte(name: string): (b: int)
    requires name != ""
    ensures 0 <= b < 0x100
  {
    var c := name[0] as int;
    if c < 0x80 then c
    else if c < 0x800 then 0xC0 + c / 0x40
    else if c < 0x1_0000 then 0xE0 + c / 0x1000
    else 0xF0 + c / 0x4_0000
  }

  /**
   * unicode.IsUpper, applied by the source to the first byte of the name instead of its first
   * character: the upper-case letters of Latin-1.
   */
  predicate Exported(name: string) {
    name != "" && var b := FirstByte(name); 'A' as int <= b <= 'Z' as int || (0xC0 <= b <= 0xDE && b != 0xD7)
  }

  /**
   * In ASCII that is Go's own rule. Beyond it the case of the letter plays no part: every name
   * that starts with a Cyrillic letter, for one, counts as exported.
   */
  lemma ExportedBeyondAscii(name: string)
    requires name != ""
    ensures name[0] < 0x80 as char ==> (Exported(name) <==> 'A' <= name[0] <= 'Z')
    ensures 0x400 as char <= name[0] <= 0x4FF as char ==> Exported(name)
    ensures 0x80 as char <= name[0] < 0x800 as char ==>
      (Exported(name) <==> name[0] as int / 0x40 != 0x17 && name[0] as int / 0x40 != 0x1F)
    ensures 0x800 as char <= name[0] ==> !Exported(name)
  {
  }

  predicate IsTarget(d: FieldDecl) {
    d.names != [] && Exported(d.names[0])
  }

  datatype Target = Target(name: string, typ: TypeExpr)

  /** The fields the generator resets: the first name of each line, if that name is exported. */
  function Targets(decl: seq<FieldDecl>): (ts: seq<Target>)
    ensures forall i | 0 <= i < |ts| :: Exported(ts[i].name)
  {
    if decl == [] then []
    else
      var d := decl[|decl| - 1];
      Targets(decl[..|decl| - 1]) + if IsTarget(d) then [Target(d.names[0], d.typ)] else []
  }

  /** Line by line: a line gives its first name with its type, if exported, and lines keep their order. */
  lemma {:induction false} TargetsByLine(a: seq<FieldDecl>, d: FieldDecl, b: seq<FieldDecl>)
    ensures Targets(a + [d] + b)
         == Targets(a)
            + (if d.names != [] && Exported(d.names[0]) then [Target(d.names[0], d.typ)] else [])
            + Targets(b)
  {
    if b == [] {
      assert a + [d] + b == a + [d] && (a + [d])[..|a|] == a;
    } else {
      var k := |b| - 1;
      assert (a + [d] + b)[..|a| + 1 + k] == a + [d] + b[..k];
      TargetsByLine(a, d, b[..k]);
    }
  }

  /** The line a target comes from. */
  lemma {:induction false} LineOfTarget(decl: seq<FieldDecl>, i: nat) returns (l: nat)
    requires i < |Targets(decl)|
    ensures l < |decl| && decl[l].names != [] && Exported(decl[l].names[0])
    ensures Targets(decl)[i] == Target(decl[l].names[0], decl[l].typ)
  {
    l := |decl| - 1;
    if i < |Targets(decl[..l])| {
      l := LineOfTarget(decl[..l], i);
    }
  }

  /** The target of a line. */
  lemma {:induction false} TargetOfLine(decl: seq<FieldDecl>, l: nat) returns (i: nat)
    requires l < |decl| && decl[l].names != [] && Exported(decl[l].names[0])
    ensures i < |Targets(decl)| && Targets(decl)[i] == Target(decl[l].names[0], decl[l].typ)
  {
    var k := |decl| - 1;
    if l < k {
      i := TargetOfLine(decl[..k], l);
    } else {
      i := |Targets(decl[..k])|;
    }
  }

  function InfoOf(t: Target): FieldInfo {
    FieldInfo(t.name, AnalyzeType(t.typ))
  }

  /** extractFieldInfo */
  method ExtractFieldInfo(decl: seq<FieldDecl>) returns (fields: seq<FieldInfo>)
    ensures |fields| == |Targets(decl)| && forall i | 0 <= i < |fields| :: fields[i] == InfoOf(Targets(decl)[i])
  {
    fields := [];
    for i := 0 to |decl|
      invariant |fields| == |Targets(decl[..i])|
      invariant forall j | 0 <= j < |fields| :: fields[j] == InfoOf(Targets(decl[..i])[j])
    {
      assert decl[..i + 1][..i] == decl[..i];
      if |decl[i].names| == 0 {
        continue;
      }
      var fieldName := decl[i].names[0];
      if !Exported(fieldName) {
        continue;
      }
      fields := fields + [FieldInfo(fieldName, AnalyzeType(decl[i].typ))];
    }
    assert decl[..|decl|] == decl;
  }

  function StmtFor(t: Target): Stmt {
    GenerateFieldReset(InfoOf(t))
  }

  /** generateResetMethod over the fields extractFieldInfo found: one statement for each target, in order. */
  method GenerateResetMethod(decl: seq<FieldDecl>) returns (stmts: seq<Stmt>)
    ensures |stmts| == |Targets(decl)| && forall i | 0 <= i < |stmts| :: stmts[i] == StmtFor(Targets(decl)[i])
  {
    var fields := ExtractFieldInfo(decl);
    stmts := [];
    for i := 0 to |fields|
      invariant |stmts| == i && forall j | 0 <= j < i :: stmts[j] == GenerateFieldReset(fields[j])
    {
      stmts := stmts + [GenerateFieldReset(fields[i])];
    }
  }

  /** The statement for each kind of field, by the type as it is written. */
  lemma StatementByType(f: string, t: TypeExpr)
    ensures match t
      case ArrayOf(_, _) => StmtFor(Target(f, t)) == Reslice(f)
      case MapOf(_, _) => StmtFor(Target(f, t)) == Clear(f)
      case Selector(_, _) => StmtFor(Target(f, t)) == ResetField(f)
      case Ident(User(_)) => StmtFor(Target(f, t)) == ResetField(f)
      case Ident(Numeric) => StmtFor(Target(f, t)) == AssignField(f, ZeroNumber)
      case Ident(Text) => StmtFor(Target(f, t)) == AssignField(f, EmptyText)
      case Ident(Bool) => StmtFor(Target(f, t)) == AssignField(f, FalseLiteral)
      case Ident(Error) => StmtFor(Target(f, t)) == AssignField(f, Nil)
      case Ident(ByteOrRune) => StmtFor(Target(f, t)) == AssignField(f, Composite(Plain(ByteOrRune)))
      case Interface => StmtFor(Target(f, t)) == AssignField(f, Nil)
      case Func => StmtFor(Target(f, t)) == AssignField(f, Nil)
      case Chan(d) => StmtFor(Target(f, t)) == AssignField(f, if d.ReceiveOnly? then Composite(ChanName(d)) else Nil)
      case Other => StmtFor(Target(f, t)) == AssignField(f, Composite(Unknown))
      case Star(ArrayOf(_, _)) => StmtFor(Target(f, t)) == Reslice(f)
      case Star(MapOf(_, _)) => StmtFor(Target(f, t)) == Clear(f)
      case Star(Selector(_, _)) => StmtFor(Target(f, t)) == ResetPointee(f)
      case Star(Ident(User(_))) => StmtFor(Target(f, t)) == ResetPointee(f)
      case Star(Ident(Numeric)) => StmtFor(Target(f, t)) == AssignPointee(f, ZeroNumber)
      case Star(Ident(Text)) => StmtFor(Target(f, t)) == AssignPointee(f, EmptyText)
      case Star(Ident(Bool)) => StmtFor(Target(f, t)) == AssignPointee(f, FalseLiteral)
      case Star(Star(x)) => StmtFor(Target(f, t)) == StmtFor(Target(f, Star(x)))
      case _ => StmtFor(Target(f, t)).AssignPointee?
  {
    AnalyzeBase(t);
    assert t.Star? ==> AnalyzeType(t) == AnalyzeType(t.elem).(isPointer := true);
  }

  // ---------- which fields get well-typed code ----------

  /**
   * Whether Go accepts the literal where a value of this type is expected. The composite literals
   * the generator can reach are byte{}, rune{}, <-chan{} and unknown{}, none of which is a type.
   */
  predicate Assignable(zero: Zero, t: TypeExpr) {
    match t
    case Ident(id) =>
      match id {
        case Numeric => zero.ZeroNumber?
        case ByteOrRune => zero.ZeroNumber?
        case Text => zero.EmptyText?
        case Bool => zero.FalseLiteral?
        case Error => zero.Nil?
        case User(_) => false
      }
    case Selector(_, _) => false
    case Other => false
    case ArrayOf(length, _) => zero.Nil? && length.None?
    case _ => zero.Nil?  // interfaces, functions, channels, maps and pointers
  }

  predicate WellTyped(stmt: Stmt, t: TypeExpr) {
    match stmt
    case Reslice(_) => t.ArrayOf? && t.length.None?
    case Clear(_) => t.MapOf?
    case ResetPointee(_) => t.Star?
    case AssignPointee(_, zero) => t.Star? && Assignable(zero, t.elem)
    case ResetField(_) => true
    case AssignField(_, zero) => Assignable(zero, t)
  }

  predicate Nilable(t: TypeExpr) {
    t == Ident(Error) || t.Interface? || t.Func? || (t.Chan? && !t.dir.ReceiveOnly?)
  }

  /** A type that is reset by assigning its zero value. */
  predicate Scalar(t: TypeExpr) {
    t == Ident(Numeric) || t == Ident(Text) || t == Ident(Bool) || Nilable(t)
  }

  /** A type known by a name the generator takes for a struct. */
  predicate Named(t: TypeExpr) {
    t.Selector? || (t.Ident? && TakenForStruct(t.id))
  }

  function NameOf(t: TypeExpr): TypeName
    requires Named(t)
  {
    if t.Selector? then Qualified(t.pkg, t.name) else Plain(t.id)
  }

  /** What is left of a type when all its stars are removed. */
  function Base(t: TypeExpr): TypeExpr {
    if t.Star? then Base(t.elem) else t
  }

  /** The types for which the generator emits code that compiles. */
  predicate Supported(t: TypeExpr) {
    match t
    case ArrayOf(length, _) => length.None?
    case MapOf(_, _) => true
    case Star(x) => Named(Base(x)) || Nilable(Base(x)) || Scalar(x)
    case _ => Scalar(t) || Named(t)
  }

  /** The fragment, type by type. */
  lemma FragmentExactly(t: TypeExpr)
    ensures !t.Star? ==> (Supported(t) <==> match t
      case Ident(id) => !id.ByteOrRune?
      case Selector(_, _) => true
      case ArrayOf(length, _) => length.None?
      case MapOf(_, _) => true
      case Interface => true
      case Func => true
      case Chan(d) => !d.ReceiveOnly?
      case _ => false)
    ensures t.Star? && !t.elem.Star? ==> (Supported(t) <==> match t.elem
      case Ident(id) => !id.ByteOrRune?
      case Selector(_, _) => true
      case Interface => true
      case Func => true
      case Chan(d) => !d.ReceiveOnly?
      case _ => false)
    ensures t.Star? && t.elem.Star? ==> (Supported(t) <==> match Base(t)
      case Ident(id) => id.Error? || id.User?
      case Selector(_, _) => true
      case Interface => true
      case Func => true
      case Chan(d) => !d.ReceiveOnly?
      case _ => false)
  {
    AnalyzeBase(t);
  }

  lemma {:induction false} AnalyzeBase(t: TypeExpr)
    ensures var i, b := AnalyzeType(t), AnalyzeType(Base(t));
      i == b.(isPointer := t.Star?)
    ensures !Base(t).Star? && !AnalyzeType(Base(t)).isPointer
  {
    if t.Star? {
      AnalyzeBase(t.elem);
    }
  }

  /** The emitted statement type-checks exactly for the supported types. */
  lemma WellTypedExactly(name: string, t: TypeExpr)
    ensures WellTyped(StmtFor(Target(name, t)), t) <==> Supported(t)
  {
    AnalyzeBase(t);
    if t.Star? {
      AnalyzeBase(t.elem);
    }
  }
}
