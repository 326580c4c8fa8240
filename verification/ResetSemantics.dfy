/** What the generated Reset methods do to values, and why that is right. */
module ResetSemantics {
  import opened Wrappers
  import opened Storage
  import opened ResetGenerator

  // ---------- values ----------

  /** Pointees are owned: a value is a tree. */
  datatype Value =
    | NumberV(n: int)
    | TextV(s: string)
    | BoolV(b: bool)
    | RefV(target: Option<nat>)                       // interface, function or channel; None is nil
    | SliceV(live: seq<Value>, spare: seq<Value>)     // elements within the length, and those behind it
    | MapV(entries: seq<(Value, Value)>)
    | PointerV(pointee: Option<Value>)
    | StructV(fields: seq<Entry<Value>>)
    | OpaqueV(id: nat)                                // of a type the model does not look into

  /** The structs with a generated Reset method; any other named type has none. */
  type Types = map<TypeName, seq<FieldDecl>>

  function Height(v: Value): nat {
    match v
    case PointerV(p) => if p.Some? then 1 + Height(p.value) else 0
    case StructV(fs) => 1 + HeightOf(fs)
    case _ => 0
  }

  function HeightOf(fs: seq<Entry<Value>>): nat {
    if |fs| == 0 then 0
    else
      var h, r := Height(fs[0].value), HeightOf(fs[1..]);
      if h > r then h else r
  }

  lemma {:induction false} LookupHeight(fs: seq<Entry<Value>>, n: string)
    ensures Lookup(fs, n).Some? ==> Height(Lookup(fs, n).value) <= HeightOf(fs)
  {
    if |fs| > 0 {
      LookupHeight(fs[1..], n);
    }
  }

  lemma {:induction false} PutHeight(fs: seq<Entry<Value>>, n: string, v: Value)
    ensures var h := HeightOf(fs); HeightOf(Put(fs, n, v)) <= if Height(v) > h then Height(v) else h
  {
    if |fs| > 0 && fs[0].name != n {
      PutHeight(fs[1..], n, v);
      assert Put(fs, n, v)[1..] == Put(fs[1..], n, v);
    } else if |fs| > 0 {
      assert Put(fs, n, v)[1..] == fs[1..];
    } else {
      assert Put(fs, n, v)[1..] == [];
    }
  }

  function FieldOf(fs: seq<Entry<Value>>, n: string): (r: Option<Value>)
    ensures r.Some? ==> Height(r.value) <= HeightOf(fs)
  {
    LookupHeight(fs, n);
    Lookup(fs, n)
  }

  // ---------- running the generated code ----------

  /** The zero literal as a value of the type it is assigned to. */
  function ZeroAs(zero: Zero, t: TypeExpr): (v: Value)
    ensures Height(v) == 0
  {
    match zero
    case ZeroNumber => NumberV(0)
    case EmptyText => TextV("")
    case FalseLiteral => BoolV(false)
    case Nil =>
      (match t
       case Star(_) => PointerV(None)
       case ArrayOf(_, _) => SliceV([], [])
       case MapOf(_, _) => MapV([])
       case _ => RefV(None))
    case Composite(_) => OpaqueV(0)
  }

  /** The call of v's Reset method, when t is a type that has one. */
  function ResetNamed(env: Types, t: TypeExpr, v: Value): (r: Value)
    ensures Height(r) <= Height(v)
    decreases Height(v), 0, 0
  {
    if Named(t) && NameOf(t) in env && v.StructV? then StructV(RunAll(env, Targets(env[NameOf(t)]), v.fields)) else v
  }

  /** The effect of the statement generated for a field of type t on that field's value. */
  function Run(env: Types, stmt: Stmt, t: TypeExpr, v: Value): (r: Value)
    ensures Height(r) <= Height(v)
    decreases Height(v), 1, 0
  {
    match stmt
    case Reslice(_) => if v.SliceV? then SliceV([], v.live + v.spare) else v
    case Clear(_) => if v.MapV? then MapV([]) else v
    case ResetPointee(_) =>
      if t.Star? && v.PointerV? && v.pointee.Some? then PointerV(Some(ResetNamed(env, t.elem, v.pointee.value))) else v
    case AssignPointee(_, zero) =>
      if t.Star? && v.PointerV? && v.pointee.Some? then PointerV(Some(ZeroAs(zero, t.elem))) else v
    case ResetField(_) => ResetNamed(env, t, v)
    case AssignField(_, zero) => ZeroAs(zero, t)
  }

  /** The body of a Reset method: the statements of the targets, one after the other. */
  function RunAll(env: Types, targets: seq<Target>, fs: seq<Entry<Value>>): (r: seq<Entry<Value>>)
    ensures HeightOf(r) <= HeightOf(fs)
    decreases HeightOf(fs), 2, |targets|
  {
    if targets == [] then fs
    else
      var before := RunAll(env, targets[..|targets| - 1], fs);
      var t := targets[|targets| - 1];
      var v := FieldOf(before, t.name);
      if v.None? then before
      else
        var w := Run(env, StmtFor(t), t.typ, v.value);
        PutHeight(before, t.name, w);
        Put(before, t.name, w)
  }

  // ---------- values of a type ----------

  /** A line whose first name is exported. */
  predicate Resets(line: FieldDecl) {
    line.names != [] && Exported(line.names[0])
  }

  /** v can be a value of type t; what lies inside slices and maps is not looked at. */
  ghost predicate HasType(env: Types, t: TypeExpr, v: Value)
    decreases Height(v), t
  {
    match t
    case Ident(id) =>
      match id {
        case Numeric => v.NumberV?
        case ByteOrRune => v.NumberV?
        case Text => v.TextV?
        case Bool => v.BoolV?
        case Error => v.RefV?
        case User(_) => NamedType(env, t, v)
      }
    case Selector(_, _) => NamedType(env, t, v)
    case Star(x) => v.PointerV? && (v.pointee.Some? ==> HasType(env, x, v.pointee.value))
    case ArrayOf(_, _) => v.SliceV?
    case MapOf(_, _) => v.MapV?
    case Other => true
    case _ => v.RefV?
  }

  ghost predicate NamedType(env: Types, t: TypeExpr, v: Value)
    requires Named(t)
    decreases Height(v), t, 0
  {
    NameOf(t) in env ==>
      && v.StructV?
      && forall l | 0 <= l < |env[NameOf(t)]| && Resets(env[NameOf(t)][l]) ::
        var line := env[NameOf(t)][l];
        var f := FieldOf(v.fields, line.names[0]);
        f.Some? && HasType(env, line.typ, f.value)
  }

  // ---------- the reset form ----------

  /** What Reset promises for a value of type t: an account by type, not by generated code. */
  ghost predicate ResetForm(env: Types, t: TypeExpr, v: Value)
    decreases Height(v), t
  {
    match t
    case Ident(id) =>
      match id {
        case Numeric => v == NumberV(0)
        case Text => v == TextV("")
        case Bool => v == BoolV(false)
        case Error => v == RefV(None)
        case ByteOrRune => true
        case User(_) => StructForm(env, t, v)
      }
    case Selector(_, _) => StructForm(env, t, v)
    case Star(x) =>
      && v.PointerV?
      && (v.pointee.Some? ==>
            if !x.Star? then ResetForm(env, x, v.pointee.value)
            else Nilable(Base(x)) ==> v.pointee.value == PointerV(None))
    case ArrayOf(_, _) => v.SliceV? && v.live == []
    case MapOf(_, _) => v == MapV([])
    case Other => true
    case _ => v == RefV(None)
  }

  ghost predicate StructForm(env: Types, t: TypeExpr, v: Value)
    requires Named(t)
    decreases Height(v), t, 0
  {
    NameOf(t) in env ==>
      && v.StructV?
      && forall l | 0 <= l < |env[NameOf(t)]| && Resets(env[NameOf(t)][l]) ::
        var line := env[NameOf(t)][l];
        var f := FieldOf(v.fields, line.names[0]);
        f.Some? && ResetForm(env, line.typ, f.value)
  }

  ghost predicate TargetsOk(ts: seq<Target>) {
    && (forall i | 0 <= i < |ts| :: Supported(ts[i].typ))
    && (forall i, j | 0 <= i < j < |ts| :: ts[i].name != ts[j].name)
  }

  /** Every struct with a generated Reset has target fields of supported types and distinct names. */
  ghost predicate EnvOk(env: Types) {
    forall n <- env :: TargetsOk(Targets(env[n]))
  }

  // ---------- field by field ----------

  ghost predicate NotTarget(ts: seq<Target>, n: string) {
    forall i | 0 <= i < |ts| :: ts[i].name != n
  }

  /** Fields that are not targets keep their value, and no field moves. */
  lemma {:induction false} OtherField(env: Types, ts: seq<Target>, fs: seq<Entry<Value>>, n: string)
    ensures NotTarget(ts, n) ==> FieldOf(RunAll(env, ts, fs), n) == FieldOf(fs, n)
    ensures Names(RunAll(env, ts, fs)) == Names(fs)
  {
    hide Run, Height, HeightOf;
    if ts != [] {
      var k := |ts| - 1;
      var before := RunAll(env, ts[..k], fs);
      OtherField(env, ts[..k], fs, n);
      if FieldOf(before, ts[k].name).Some? {
        var w := Run(env, StmtFor(ts[k]), ts[k].typ, FieldOf(before, ts[k].name).value);
        LookupPut(before, ts[k].name, w, n);
        NamesPut(before, ts[k].name, w);
        LookupKnown(before, ts[k].name);
      }
    }
  }

  /** A target ends with what its own statement makes of its original value. */
  lemma {:induction false} TargetField(env: Types, ts: seq<Target>, fs: seq<Entry<Value>>, i: nat)
    requires i < |ts| && (forall j, k | 0 <= j < k < |ts| :: ts[j].name != ts[k].name)
    requires FieldOf(fs, ts[i].name).Some?
    ensures FieldOf(RunAll(env, ts, fs), ts[i].name)
         == Some(Run(env, StmtFor(ts[i]), ts[i].typ, FieldOf(fs, ts[i].name).value))
  {
    hide Run, Height, HeightOf;
    var k := |ts| - 1;
    var before := RunAll(env, ts[..k], fs);
    if i == k {
      OtherField(env, ts[..k], fs, ts[k].name);
    } else {
      TargetField(env, ts[..k], fs, i);
    }
    if FieldOf(before, ts[k].name).Some? {
      LookupPut(before, ts[k].name, Run(env, StmtFor(ts[k]), ts[k].typ, FieldOf(before, ts[k].name).value), ts[i].name);
    }
  }

  // ---------- correctness ----------

  lemma PointerRuns(env: Types, n: string, x: TypeExpr, v: Value)
    requires Supported(Star(x)) && !Named(x)
    ensures var t := Star(x);
      var r := Run(env, StmtFor(Target(n, t)), t, v);
      && (HasType(env, t, v) ==> HasType(env, t, r) && ResetForm(env, t, r))
      && (ResetForm(env, t, v) ==> r == v)
  {
    AnalyzeBase(Star(x));
    AnalyzeBase(x);
    if x.Star? {
      assert HasType(env, x, PointerV(None));
    } else if v.PointerV? && v.pointee.Some? {
      assert ResetForm(env, x, v.pointee.value) ==> v.pointee.value == ZeroAs(GetZeroValue(AnalyzeType(x).typeName), x);
    }
  }

  /** Types that are neither structs nor pointers to one: their statement does not call a Reset. */
  lemma PlainRuns(env: Types, n: string, t: TypeExpr, v: Value)
    requires Supported(t) && !Named(t) && !(t.Star? && Named(t.elem))
    ensures var r := Run(env, StmtFor(Target(n, t)), t, v);
      && (HasType(env, t, v) ==> HasType(env, t, r) && ResetForm(env, t, r))
      && (ResetForm(env, t, v) ==> r == v)
  {
    if t.Star? {
      PointerRuns(env, n, t.elem, v);
    } else if v.SliceV? {
      assert [] + v.spare == v.spare;
    }
  }

  /** Structs and pointers to them: the statement calls the Reset of the struct. */
  lemma NamedRuns(env: Types, n: string, t: TypeExpr, v: Value)
    ensures Named(t) ==> Run(env, StmtFor(Target(n, t)), t, v) == ResetNamed(env, t, v)
    ensures t.Star? && Named(t.elem) && v.PointerV? ==>
      Run(env, StmtFor(Target(n, t)), t, v)
      == PointerV(if v.pointee.Some? then Some(ResetNamed(env, t.elem, v.pointee.value)) else None)
  {
    AnalyzeBase(t);
    if t.Star? {
      AnalyzeBase(t.elem);
    }
  }

  /** The statement generated for a supported type brings every value of the type into reset form. */
  lemma {:induction false} RunResets(env: Types, n: string, t: TypeExpr, v: Value)
    requires EnvOk(env) && Supported(t) && HasType(env, t, v)
    ensures ResetForm(env, t, Run(env, StmtFor(Target(n, t)), t, v))
    decreases Height(v), 1
  {
    NamedRuns(env, n, t, v);
    if Named(t) {
      NamedResets(env, t, v);
    } else if t.Star? && Named(t.elem) {
      if v.pointee.Some? {
        NamedResets(env, t.elem, v.pointee.value);
      }
    } else {
      PlainRuns(env, n, t, v);
    }
    hide Run, StmtFor, ResetNamed;
  }

  lemma {:induction false} NamedResets(env: Types, t: TypeExpr, v: Value)
    requires EnvOk(env) && Named(t) && NamedType(env, t, v)
    ensures StructForm(env, t, ResetNamed(env, t, v))
    decreases Height(v), 0
  {
    if NameOf(t) in env {
      var decl := env[NameOf(t)];
      var ts := Targets(decl);
      var r := ResetNamed(env, t, v);
      forall l | 0 <= l < |decl| && Resets(decl[l])
        ensures var f := FieldOf(r.fields, decl[l].names[0]); f.Some? && ResetForm(env, decl[l].typ, f.value)
      {
        var i := TargetOfLine(decl, l);
        TargetField(env, ts, v.fields, i);
        RunResets(env, ts[i].name, ts[i].typ, FieldOf(v.fields, ts[i].name).value);
      }
    }
  }

  lemma {:induction false} PutSame(fs: seq<Entry<Value>>, n: string)
    requires Lookup(fs, n).Some?
    ensures Put(fs, n, Lookup(fs, n).value) == fs
  {
    if fs[0].name != n {
      PutSame(fs[1..], n);
    }
    assert fs == [fs[0]] + fs[1..];
  }

  /** A value in reset form is left as it is. */
  lemma {:induction false} RunKeeps(env: Types, n: string, t: TypeExpr, v: Value)
    requires EnvOk(env) && Supported(t) && ResetForm(env, t, v)
    ensures Run(env, StmtFor(Target(n, t)), t, v) == v
    decreases Height(v), 1
  {
    NamedRuns(env, n, t, v);
    if Named(t) {
      NamedKeeps(env, t, v);
    } else if t.Star? && Named(t.elem) {
      if v.pointee.Some? {
        NamedKeeps(env, t.elem, v.pointee.value);
      }
    } else {
      PlainRuns(env, n, t, v);
    }
    hide Run, StmtFor, ResetNamed;
  }

  lemma {:induction false} NamedKeeps(env: Types, t: TypeExpr, v: Value)
    requires EnvOk(env) && Named(t) && StructForm(env, t, v)
    ensures ResetNamed(env, t, v) == v
    decreases Height(v), 0
  {
    if NameOf(t) in env {
      AllKeep(env, t, v, |Targets(env[NameOf(t)])|);
      assert Targets(env[NameOf(t)])[..|Targets(env[NameOf(t)])|] == Targets(env[NameOf(t)]);
    }
  }

  lemma {:induction false} AllKeep(env: Types, t: TypeExpr, v: Value, k: nat)
    requires EnvOk(env) && Named(t) && StructForm(env, t, v) && NameOf(t) in env && k <= |Targets(env[NameOf(t)])|
    ensures RunAll(env, Targets(env[NameOf(t)])[..k], v.fields) == v.fields
    decreases Height(v), 0, k
  {
    hide Run, HeightOf, Put, Supported, ResetForm;
    var ts := Targets(env[NameOf(t)]);
    if k > 0 {
      AllKeep(env, t, v, k - 1);
      assert ts[..k][..k - 1] == ts[..k - 1];
      FieldForm(env, t, v, k - 1);
      RunKeeps(env, ts[k - 1].name, ts[k - 1].typ, FieldOf(v.fields, ts[k - 1].name).value);
      PutSame(v.fields, ts[k - 1].name);
      hide StructForm, EnvOk, Height, StmtFor;
    }
  }

  /** What the reset form of a struct says of one target. */
  lemma FieldForm(env: Types, t: TypeExpr, v: Value, i: nat)
    requires EnvOk(env) && Named(t) && StructForm(env, t, v) && NameOf(t) in env && i < |Targets(env[NameOf(t)])|
    ensures var target := Targets(env[NameOf(t)])[i];
      var f := FieldOf(v.fields, target.name);
      f.Some? && Height(f.value) < Height(v) && Supported(target.typ) && ResetForm(env, target.typ, f.value)
  {
    var l := LineOfTarget(env[NameOf(t)], i);
    assert Resets(env[NameOf(t)][l]);
  }

  /**
   * The generated Reset of a struct, line by line of its declaration: for every value of the struct's
   * type, the first name of each line ends in the reset form of the line's type if it is exported;
   * every other field keeps its value, second names included, and no field moves.
   */
  lemma ResetIsCorrect(env: Types, t: TypeExpr, v: Value)
    requires EnvOk(env) && Named(t) && NameOf(t) in env && HasType(env, t, v)
    ensures var decl, r := env[NameOf(t)], ResetNamed(env, t, v);
      && r.StructV? && Names(r.fields) == Names(v.fields)
      && ResetForm(env, t, r)
      && (forall l | 0 <= l < |decl| && decl[l].names != [] && Exported(decl[l].names[0]) ::
            var f := FieldOf(r.fields, decl[l].names[0]); f.Some? && ResetForm(env, decl[l].typ, f.value))
      && (forall n | (forall l | 0 <= l < |decl| && decl[l].names != [] && Exported(decl[l].names[0]) ::
                        decl[l].names[0] != n) ::
            FieldOf(r.fields, n) == FieldOf(v.fields, n))
  {
    var decl, r := env[NameOf(t)], ResetNamed(env, t, v);
    NamedResets(env, t, v);
    OtherField(env, Targets(decl), v.fields, "");
    hide ResetForm, HasType, Height, HeightOf, RunAll;
    forall n | (forall l | 0 <= l < |decl| && decl[l].names != [] && Exported(decl[l].names[0]) ::
                  decl[l].names[0] != n)
      ensures FieldOf(r.fields, n) == FieldOf(v.fields, n)
    {
      OtherField(env, Targets(decl), v.fields, n);
      forall i | 0 <= i < |Targets(decl)| ensures Targets(decl)[i].name != n {
        var l := LineOfTarget(decl, i);
      }
    }
  }

  /** The reset form is exactly what Reset leaves alone; in particular running it twice is running it once. */
  lemma FixedExactly(env: Types, t: TypeExpr, v: Value)
    requires EnvOk(env) && Named(t) && HasType(env, t, v)
    ensures ResetNamed(env, t, v) == v <==> ResetForm(env, t, v)
    ensures ResetNamed(env, t, ResetNamed(env, t, v)) == ResetNamed(env, t, v)
  {
    NamedResets(env, t, v);
    NamedKeeps(env, t, ResetNamed(env, t, v));
    if ResetForm(env, t, v) {
      NamedKeeps(env, t, v);
    }
  }

  /** Values stay values of their type. */
  lemma {:induction false} RunKeepsType(env: Types, n: string, t: TypeExpr, v: Value)
    requires EnvOk(env) && Supported(t) && HasType(env, t, v)
    ensures HasType(env, t, Run(env, StmtFor(Target(n, t)), t, v))
    decreases Height(v), 1
  {
    NamedRuns(env, n, t, v);
    if Named(t) {
      NamedKeepsType(env, t, v);
    } else if t.Star? && Named(t.elem) {
      if v.pointee.Some? {
        NamedKeepsType(env, t.elem, v.pointee.value);
      }
    } else {
      PlainRuns(env, n, t, v);
    }
    hide Run, StmtFor, ResetNamed;
  }

  lemma {:induction false} NamedKeepsType(env: Types, t: TypeExpr, v: Value)
    requires EnvOk(env) && Named(t) && NamedType(env, t, v)
    ensures NamedType(env, t, ResetNamed(env, t, v))
    decreases Height(v), 0
  {
    if NameOf(t) in env {
      var decl := env[NameOf(t)];
      var ts := Targets(decl);
      var r := ResetNamed(env, t, v);
      forall l | 0 <= l < |decl| && Resets(decl[l])
        ensures var f := FieldOf(r.fields, decl[l].names[0]); f.Some? && HasType(env, decl[l].typ, f.value)
      {
        var i := TargetOfLine(decl, l);
        TargetField(env, ts, v.fields, i);
        RunKeepsType(env, ts[i].name, ts[i].typ, FieldOf(v.fields, ts[i].name).value);
      }
    }
  }

  /** Reset keeps allocations: pointers stay nil or non-nil, and a slice keeps its backing elements. */
  lemma AllocationsKept(env: Types, n: string, t: TypeExpr, v: Value)
    requires Supported(t) && HasType(env, t, v)
    ensures var r := Run(env, StmtFor(Target(n, t)), t, v);
      && (t.Star? ==> r.PointerV? && (r.pointee.Some? <==> v.pointee.Some?))
      && (t.ArrayOf? ==> r == SliceV([], v.live + v.spare))
  {
    AnalyzeBase(t);
  }

  // ---------- the repository's own marked struct ----------

  /** A pointer to a number, or nil. */
  function NumberPointer(n: Option<int>): Value {
    PointerV(if n.Some? then Some(NumberV(n.value)) else None)
  }

  function MetricsDecl(): seq<FieldDecl> {
    [FieldDecl(["ID"], Ident(Text)), FieldDecl(["MType"], Ident(Text)),
     FieldDecl(["Delta"], Star(Ident(Numeric))), FieldDecl(["Value"], Star(Ident(Numeric)))]
  }

  function MetricsFields(id: string, mtype: string, delta: Option<int>, value: Option<int>): seq<Entry<Value>> {
    [Entry("ID", TextV(id)), Entry("MType", TextV(mtype)),
     Entry("Delta", NumberPointer(delta)), Entry("Value", NumberPointer(value))]
  }

  function ZeroIfAny(n: Option<int>): Option<int> {
    if n.Some? then Some(0) else None
  }

  /**
   * models.Metrics is supported, every choice of its fields is a value of it, and its Reset empties
   * the two texts and sets what the pointers point to, if anything, to zero.
   */
  lemma MetricsIsReset(id: string, mtype: string, delta: Option<int>, value: Option<int>)
    ensures var env := map[Plain(User("Metrics")) := MetricsDecl()];
      var v := StructV(MetricsFields(id, mtype, delta, value));
      && EnvOk(env) && HasType(env, Ident(User("Metrics")), v)
      && ResetNamed(env, Ident(User("Metrics")), v)
         == StructV(MetricsFields("", "", ZeroIfAny(delta), ZeroIfAny(value)))
  {
    var env := map[Plain(User("Metrics")) := MetricsDecl()];
    var fs := MetricsFields(id, mtype, delta, value);
    hide *;
    assert Plain(User("Metrics")) in env && env[Plain(User("Metrics"))] == MetricsDecl();
    MetricsOk(env);
    MetricsTyped(env, fs, id, mtype, delta, value);
    ResetOfStruct(env, "Metrics", fs);
    MetricsRun(env, id, mtype, delta, value);
  }

  function MetricsTargets(): seq<Target> {
    [Target("ID", Ident(Text)), Target("MType", Ident(Text)),
     Target("Delta", Star(Ident(Numeric))), Target("Value", Star(Ident(Numeric)))]
  }

  lemma TargetsOfMetrics()
    ensures Targets(MetricsDecl()) == MetricsTargets()
  {
    var d := MetricsDecl();
    assert d[..4] == d && d[..3][..2] == d[..2] && d[..4][..3] == d[..3] && d[..2][..1] == d[..1] && d[..1][..0] == [];
    var ts := MetricsTargets();
    assert Targets(d[..1]) == ts[..1];
    assert Targets(d[..2]) == ts[..2];
    assert Targets(d[..3]) == ts[..3];
  }

  lemma MetricsOk(env: Types)
    requires env.Keys == {Plain(User("Metrics"))} && env[Plain(User("Metrics"))] == MetricsDecl()
    ensures EnvOk(env)
  {
    TargetsOfMetrics();
    hide Targets;
  }

  lemma FieldsOfMetrics(fs: seq<Entry<Value>>, k: nat)
    requires |fs| == 4 && k < 4
    requires fs[0].name == "ID" && fs[1].name == "MType" && fs[2].name == "Delta" && fs[3].name == "Value"
    ensures FieldOf(fs, fs[k].name) == Some(fs[k].value)
  {
    assert Unique(fs);
    LookupAt(fs, k);
  }

  lemma MetricsTyped(
    env: Types, fs: seq<Entry<Value>>, id: string, mtype: string, delta: Option<int>, value: Option<int>)
    requires Plain(User("Metrics")) in env && env[Plain(User("Metrics"))] == MetricsDecl()
    requires fs == MetricsFields(id, mtype, delta, value)
    ensures HasType(env, Ident(User("Metrics")), StructV(fs))
  {
    hide FieldOf, Exported;
    var decl := MetricsDecl();
    forall l | 0 <= l < |decl| && Resets(decl[l])
      ensures var f := FieldOf(fs, decl[l].names[0]); f.Some? && HasType(env, decl[l].typ, f.value)
    {
      FieldsOfMetrics(fs, l);
      if l < 2 {
        assert HasType(env, Ident(Text), fs[l].value);
      } else {
        PointerTyped(env, if l == 2 then delta else value);
      }
    }
  }

  lemma PointerTyped(env: Types, n: Option<int>)
    ensures HasType(env, Star(Ident(Numeric)), NumberPointer(n))
  {
    if n.Some? {
      assert HasType(env, Ident(Numeric), NumberV(n.value));
    }
  }

  lemma PointerZeroed(env: Types, name: string, n: Option<int>)
    ensures var t := Star(Ident(Numeric));
      Run(env, StmtFor(Target(name, t)), t, NumberPointer(n)) == NumberPointer(ZeroIfAny(n))
  {
  }

  lemma TextEmptied(env: Types, name: string, s: string)
    ensures Run(env, StmtFor(Target(name, Ident(Text))), Ident(Text), TextV(s)) == TextV("")
  {
  }

  lemma MetricsRun(env: Types, id: string, mtype: string, delta: Option<int>, value: Option<int>)
    ensures RunAll(env, Targets(MetricsDecl()), MetricsFields(id, mtype, delta, value))
         == MetricsFields("", "", ZeroIfAny(delta), ZeroIfAny(value))
  {
    hide Run, RunAll, Targets, FieldOf, StmtFor, NumberPointer, ZeroIfAny;
    TargetsOfMetrics();
    var ts, fs := MetricsTargets(), MetricsFields(id, mtype, delta, value);
    var r := RunAll(env, ts, fs);
    OtherField(env, ts, fs, "");
    assert |r| == |Names(r)| == 4 && forall k | 0 <= k < 4 :: r[k].name == Names(r)[k] == Names(fs)[k] == fs[k].name;
    forall k | 0 <= k < 4
      ensures r[k] == Entry(fs[k].name, Run(env, StmtFor(ts[k]), ts[k].typ, fs[k].value))
    {
      FieldsOfMetrics(fs, k);
      FieldsOfMetrics(r, k);
      TargetField(env, ts, fs, k);
    }
    TextEmptied(env, "ID", id);
    TextEmptied(env, "MType", mtype);
    PointerZeroed(env, "Delta", delta);
    PointerZeroed(env, "Value", value);
  }

  // ---------- what the generator does not reset ----------

  /**
   * Only the first name of a line is a target, and a name the generator takes for a struct is left
   * alone when it has no Reset method: of `A, B int; Timeout time.Duration` only A becomes zero.
   */
  lemma NotEverythingIsReset()
    ensures var name := Plain(User("T"));
      var decl := [FieldDecl(["A", "B"], Ident(Numeric)), FieldDecl(["Timeout"], Selector("time", "Duration"))];
      var v := StructV([Entry("A", NumberV(1)), Entry("B", NumberV(2)), Entry("Timeout", NumberV(3))]);
      ResetNamed(map[name := decl], Ident(User("T")), v)
      == StructV([Entry("A", NumberV(0)), Entry("B", NumberV(2)), Entry("Timeout", NumberV(3))])
  {
    var decl := [FieldDecl(["A", "B"], Ident(Numeric)), FieldDecl(["Timeout"], Selector("time", "Duration"))];
    var fs := [Entry("A", NumberV(1)), Entry("B", NumberV(2)), Entry("Timeout", NumberV(3))];
    var gs := [Entry("A", NumberV(0)), Entry("B", NumberV(2)), Entry("Timeout", NumberV(3))];
    var name := Plain(User("T"));
    TwoTargets(decl);
    BothTargets(map[name := decl], fs, gs);
    hide *;
    assert name in map[name := decl] && map[name := decl][name] == decl;
    ResetOfStruct(map[name := decl], "T", fs);
  }

  lemma ResetOfStruct(env: Types, struct: string, fs: seq<Entry<Value>>)
    requires Plain(User(struct)) in env
    ensures ResetNamed(env, Ident(User(struct)), StructV(fs))
         == StructV(RunAll(env, Targets(env[Plain(User(struct))]), fs))
  {
    hide RunAll, Targets, HeightOf;
  }

  lemma TwoTargets(decl: seq<FieldDecl>)
    requires decl == [FieldDecl(["A", "B"], Ident(Numeric)), FieldDecl(["Timeout"], Selector("time", "Duration"))]
    ensures Targets(decl) == [Target("A", Ident(Numeric)), Target("Timeout", Selector("time", "Duration"))]
  {
    assert decl[..1][..0] == [];
    assert Targets(decl[..1]) == [Target("A", Ident(Numeric))];
  }

  lemma BothTargets(env: Types, fs: seq<Entry<Value>>, gs: seq<Entry<Value>>)
    requires Plain(User("T")) in env && Qualified("time", "Duration") !in env
    requires fs == [Entry("A", NumberV(1)), Entry("B", NumberV(2)), Entry("Timeout", NumberV(3))]
    requires gs == [Entry("A", NumberV(0)), Entry("B", NumberV(2)), Entry("Timeout", NumberV(3))]
    ensures RunAll(env, [Target("A", Ident(Numeric)), Target("Timeout", Selector("time", "Duration"))], fs) == gs
  {
    var ta, td := Target("A", Ident(Numeric)), Target("Timeout", Selector("time", "Duration"));
    FirstTarget(env, fs, gs);
    SecondTarget(env, gs);
    assert [ta, td][..1] == [ta];
    hide Run, Height, HeightOf, StmtFor, FieldOf;
  }

  lemma FirstTarget(env: Types, fs: seq<Entry<Value>>, gs: seq<Entry<Value>>)
    requires |fs| == 3 && fs[0] == Entry("A", NumberV(1)) && gs == [Entry("A", NumberV(0))] + fs[1..]
    ensures RunAll(env, [Target("A", Ident(Numeric))], fs) == gs
  {
    var ta := Target("A", Ident(Numeric));
    assert [ta][..0] == [] && RunAll(env, [], fs) == fs;
    assert Put(fs, "A", NumberV(0)) == gs;
  }

  lemma SecondTarget(env: Types, gs: seq<Entry<Value>>)
    requires Plain(User("T")) in env && Qualified("time", "Duration") !in env
    requires |gs| == 3 && Unique(gs) && gs[2] == Entry("Timeout", NumberV(3))
    ensures var td := Target("Timeout", Selector("time", "Duration"));
      FieldOf(gs, "Timeout") == Some(NumberV(3)) && Put(gs, "Timeout", NumberV(3)) == gs
      && Run(env, StmtFor(td), td.typ, NumberV(3)) == NumberV(3)
  {
    LookupAt(gs, 2);
    PutSame(gs, "Timeout");
  }
}
